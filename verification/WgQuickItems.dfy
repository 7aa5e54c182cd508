/** Comma-separated lists: which of them survive being joined, trimmed and split. */
module WgQuickItems {
  import opened Options
  import opened ConfigText
  import opened WgQuick
  import opened WgQuickLines

  predicate IsItem(s: string) {
    IsTrimmed(s) && Without(IsComma, s)
  }

  predicate AreItems(parts: seq<string>) {
    forall i :: 0 <= i < |parts| ==> IsItem(parts[i])
  }

  lemma {:induction false} TrimAllSplit(a: seq<string>, b: seq<string>)
    ensures TrimAll(a + b) == TrimAll(a) + TrimAll(b)
  {
    hide Trim;
  }

  lemma TrimOne(s: string)
    ensures TrimAll([s]) == [Trim(s)]
  {
  }

  /** s up to a comma, and what comes after it. */
  lemma ItemsNext(s: string, rest: string)
    requires Without(IsComma, s)
    ensures s != "" ==> Items(s + "," + rest) == [Trim(s)] + Items(rest)
    ensures s == "" ==> Items(s + "," + rest) == Items(rest)
  {
    PiecesNext(IsComma, s, ',', rest);
    TrimAllSplit(NonEmpty(s), Pieces(IsComma, rest));
    TrimOne(s);
    hide Trim, Pieces, TrimAll;
    assert s + [','] + rest == s + "," + rest;
    if s == "" {
      assert [] + Pieces(IsComma, rest) == Pieces(IsComma, rest);
    }
  }

  lemma ItemsWhole(s: string)
    requires Without(IsComma, s)
    ensures Items(s) == if s == "" then [] else [Trim(s)]
  {
    PiecesWhole(IsComma, s);
    TrimOne(s);
    hide Trim, Pieces;
  }

  lemma SpaceWithout(s: string)
    requires Without(IsComma, s)
    ensures Without(IsComma, " " + s)
  {
  }

  lemma Regroup(a: string, b: string)
    ensures a + ", " + b == a + "," + (" " + b)
  {
  }

  lemma RegroupAfterSpace(a: string, b: string)
    ensures " " + (a + ", " + b) == " " + a + "," + (" " + b)
  {
  }

  lemma {:induction false} ItemsAfterSpace(parts: seq<string>)
    requires parts != [] && AreItems(parts)
    ensures Items(" " + Join(", ", parts)) == parts
  {
    var first, rest := parts[0], parts[1..];
    SpaceWithout(first);
    TrimSpaceBefore(first);
    TrimKeeps(first);
    if rest == [] {
      ItemsWhole(" " + first);
      hide Items, Trim, IsItem;
      assert parts == [first];
    } else {
      ItemsAfterSpace(rest);
      ItemsNext(" " + first, " " + Join(", ", rest));
      RegroupAfterSpace(first, Join(", ", rest));
      hide Items, Trim, IsItem;
    }
  }

  lemma JoinFirst(parts: seq<string>)
    requires |parts| > 1
    ensures Join(", ", parts) == parts[0] + ", " + Join(", ", parts[1..])
  {
  }

  /** A list whose first item is not empty is found again. */
  lemma ItemsOfJoin(parts: seq<string>)
    requires parts != [] && AreItems(parts) && parts[0] != ""
    ensures Items(Join(", ", parts)) == parts
  {
    hide Items, Trim, IsSpace;
    var first, rest := parts[0], parts[1..];
    TrimKeeps(first);
    if rest == [] {
      ItemsWhole(first);
      assert parts == [first];
    } else {
      assert AreItems(rest);
      JoinFirst(parts);
      hide Join, AreItems;
      ItemsAfterSpace(rest);
      ItemsNext(first, " " + Join(", ", rest));
      Regroup(first, Join(", ", rest));
    }
  }

  lemma {:induction false} JoinTrimmed(parts: seq<string>)
    requires parts != [] && AreItems(parts) && parts[0] != "" && parts[|parts| - 1] != ""
    ensures IsTrimmed(Join(", ", parts))
  {
    hide IsSpace;
    if |parts| > 1 {
      var front, last := parts[..|parts| - 1], parts[|parts| - 1];
      assert parts == front + [last];
      JoinSnoc(", ", front, last);
      JoinStart(parts);
      assert Join(", ", parts)[|Join(", ", parts)| - 1] == last[|last| - 1];
    }
  }

  lemma JoinStart(parts: seq<string>)
    requires parts != [] && parts[0] != ""
    ensures Join(", ", parts) != "" && Join(", ", parts)[0] == parts[0][0]
  {
  }

  // ----- an empty first or last item is lost -----

  function Commas(s: string): nat {
    if s == "" then 0 else (if s[0] == ',' then 1 else 0) + Commas(s[1..])
  }

  lemma {:induction false} CommasSplit(a: string, b: string)
    ensures Commas(a + b) == Commas(a) + Commas(b)
  {
    if a == "" {
      assert a + b == b;
    } else {
      assert (a + b)[1..] == a[1..] + b;
      CommasSplit(a[1..], b);
    }
  }

  lemma {:induction false} NoCommas(s: string)
    requires Without(IsComma, s)
    ensures Commas(s) == 0
  {
    if s != "" {
      NoCommas(s[1..]);
    }
  }

  lemma {:induction false} CommasOfJoin(parts: seq<string>)
    requires parts != [] && AreItems(parts)
    ensures Commas(Join(", ", parts)) == |parts| - 1
  {
    NoCommas(parts[0]);
    if |parts| > 1 {
      CommasOfJoin(parts[1..]);
      CommasSplit(parts[0] + ", ", Join(", ", parts[1..]));
      CommasSplit(parts[0], ", ");
      assert Commas(", ") == 1 by {
        assert ", "[1..] == " " && " "[1..] == "";
      }
    }
  }

  lemma {:induction false} CommasOfTrimStart(s: string)
    ensures Commas(TrimStart(s)) == Commas(s)
  {
    if s != "" && IsSpace(s[0]) {
      CommasOfTrimStart(s[1..]);
    }
  }

  lemma {:induction false} CommasOfTrimEnd(s: string)
    ensures Commas(TrimEnd(s)) == Commas(s)
  {
    if s != "" && IsSpace(s[|s| - 1]) {
      var front := s[..|s| - 1];
      CommasOfTrimEnd(front);
      assert s == front + [s[|s| - 1]];
      CommasSplit(front, [s[|s| - 1]]);
    }
  }

  /** At most one item more than commas; at most as many when a comma comes first or last. */
  lemma {:induction false} ItemCount(s: string)
    ensures |Items(s)| <= Commas(s) + 1
    ensures s == "" || s[0] == ',' || s[|s| - 1] == ',' ==> |Items(s)| <= Commas(s)
    decreases |s|
  {
    hide Items, IsSpace, PieceEnd;
    var i := PieceEnd(IsComma, s);
    if i == |s| {
      assert s[..i] == s;
      ItemsWhole(s);
      NoCommas(s);
    } else {
      var front, rest := s[..i], s[i + 1..];
      assert s == front + "," + rest;
      ItemsNext(front, rest);
      ItemCount(rest);
      NoCommas(front);
      CommasSplit(front + ",", rest);
      CommasSplit(front, ",");
      OneComma();
    }
  }

  lemma OneComma()
    ensures Commas(",") == 1
  {
    assert ","[1..] == "";
  }

  lemma FewItems(parts: seq<string>)
    requires parts != [] && AreItems(parts) && (parts[0] == "" || parts[|parts| - 1] == "")
    ensures |Items(Trim(Join(", ", parts)))| < |parts|
  {
    hide Join, Items, Trim, TrimStart, TrimEnd, Commas, IsItem, IsSpace;
    var joined := Join(", ", parts);
    CommasOfJoin(parts);
    CommasOfTrimStart(joined);
    CommasOfTrimEnd(TrimStart(joined));
    ItemCount(Trim(joined));
    TrimOfJoined(joined);
    if |parts| > 1 {
      TrimmedEnds(parts);
    } else {
      JoinOfOne(parts);
    }
  }

  lemma TrimOfJoined(s: string)
    ensures Trim(s) == TrimEnd(TrimStart(s)) && (s == "" ==> Trim(s) == "")
  {
  }

  lemma JoinOfOne(parts: seq<string>)
    requires |parts| == 1
    ensures Join(", ", parts) == parts[0]
  {
  }

  lemma TrimmedEnds(parts: seq<string>)
    requires |parts| > 1 && (parts[0] == "" || parts[|parts| - 1] == "")
    ensures var t := Trim(Join(", ", parts)); t != "" && (t[0] == ',' || t[|t| - 1] == ',')
  {
    var joined := Join(", ", parts);
    if parts[0] == "" {
      var rest := " " + Join(", ", parts[1..]);
      assert joined == "," + rest;
      assert TrimStart(joined) == joined;
      TrimEndAfter(",", rest);
    } else {
      var front := parts[..|parts| - 1];
      assert parts == front + [""];
      JoinSnoc(", ", front, "");
      var head := Join(", ", front) + ",";
      assert joined == head + " ";
      TrimEndAfter(head, " ");
      assert TrimEnd(" ") == "" by {
        assert " "[..0] == "";
      }
      TrimsCommute(joined);
      TrimStartKeepsEnd(head);
    }
  }

  // ----- texts of lists -----

  lemma TokenIsItem(s: string)
    requires IsToken(s)
    ensures IsItem(s) && OneLine(s) && Trim(s) == s && s != ""
  {
    TrimKeeps(s);
  }

  lemma {:induction false} OneLineJoin(separator: string, parts: seq<string>)
    requires OneLine(separator) && forall i :: 0 <= i < |parts| ==> OneLine(parts[i])
    ensures OneLine(Join(separator, parts))
  {
    if |parts| > 1 {
      OneLineJoin(separator, parts[1..]);
      OneLineJoined(parts[0], separator, Join(separator, parts[1..]));
    }
  }

  lemma OneLineJoined(a: string, b: string, c: string)
    requires OneLine(a) && OneLine(b) && OneLine(c)
    ensures OneLine(a + b + c)
  {
    hide IsNewline;
  }

  lemma SeparatorIsOneLine()
    ensures OneLine(", ")
  {
  }

  /** The tokens of a list come back from its text. */
  lemma ItemsOfTokens(parts: seq<string>)
    requires parts != [] && forall i :: 0 <= i < |parts| ==> IsToken(parts[i])
    ensures Items(Trim(Join(", ", parts))) == parts && OneLine(Join(", ", parts))
  {
    hide IsToken, IsItem, OneLine, Items, Trim, Join, IsTrimmed;
    forall i | 0 <= i < |parts|
      ensures IsItem(parts[i]) && OneLine(parts[i]) && parts[i] != ""
    {
      TokenIsItem(parts[i]);
    }
    SeparatorIsOneLine();
    JoinTrimmed(parts);
    TrimKeeps(Join(", ", parts));
    ItemsOfJoin(parts);
    OneLineJoin(", ", parts);
  }

  lemma TextsFront<T>(format: Format<T>, xs: seq<T>)
    requires xs != []
    ensures var n := |xs| - 1;
            Texts(format, xs)[..n] == Texts(format, xs[..n]) && Texts(format, xs)[n] == format.text(xs[n])
  {
    var all, front := Texts(format, xs), Texts(format, xs[..|xs| - 1]);
    hide Texts;
    assert forall i :: 0 <= i < |front| ==> all[i] == front[i];
  }

  lemma {:induction false} RangesReadBack(f: Formats, xs: seq<Range>)
    requires Reads(f.range)
    ensures ParseRanges(f, Texts(f.range, xs)) == Some(xs)
  {
    if xs != [] {
      RangesReadBack(f, xs[..|xs| - 1]);
      assert xs[..|xs| - 1] + [xs[|xs| - 1]] == xs;
      TextsFront(f.range, xs);
    }
  }

  lemma {:induction false} ServersReadBack(f: Formats, xs: seq<Server>)
    requires Reads(f.server)
    ensures Servers(f, Texts(f.server, xs)) == xs && Domains(f, Texts(f.server, xs)) == []
  {
    if xs != [] {
      ServersReadBack(f, xs[..|xs| - 1]);
      TextsFront(f.server, xs);
    }
  }

  lemma {:induction false} DnsReadBack(f: Formats, xs: seq<Server>, domains: seq<string>)
    requires Reads(f.server)
    requires forall i :: 0 <= i < |domains| ==> f.server.parse(domains[i]) == None
    ensures Servers(f, Texts(f.server, xs) + domains) == xs && Domains(f, Texts(f.server, xs) + domains) == domains
  {
    var texts := Texts(f.server, xs);
    if domains == [] {
      ServersReadBack(f, xs);
      assert texts + domains == texts;
    } else {
      DnsReadBack(f, xs, domains[..|domains| - 1]);
      assert (texts + domains)[..|texts + domains| - 1] == texts + domains[..|domains| - 1];
    }
  }

  lemma {:induction false} DnsCount(f: Formats, items: seq<string>)
    ensures |Servers(f, items)| + |Domains(f, items)| == |items|
  {
    if items != [] {
      DnsCount(f, items[..|items| - 1]);
    }
  }
}
