/** How written wg-quick lines are classified when they are read. */
module WgQuickLines {
  import opened Options
  import opened ConfigText
  import opened WgQuick
  import WgQuickReader

  // ----- one line -----

  predicate IsName(s: string) {
    s != "" && forall i :: 0 <= i < |s| ==> !IsSpace(s[i]) && s[i] != '=' && s[i] != '#'
  }

  predicate OneLine(s: string) {
    forall i :: 0 <= i < |s| ==> s[i] != '#' && !IsNewline(s[i])
  }

  lemma {:induction false} TrimEndAfter(a: string, b: string)
    requires a != "" && !IsSpace(a[|a| - 1])
    ensures TrimEnd(a + b) == a + TrimEnd(b)
  {
    var all := a + b;
    if b == "" {
      assert all == a;
    } else {
      assert all[|all| - 1] == b[|b| - 1];
      if IsSpace(b[|b| - 1]) {
        assert all[..|all| - 1] == a + b[..|b| - 1];
        TrimEndAfter(a, b[..|b| - 1]);
      }
    }
  }

  lemma {:induction false} TrimsCommute(s: string)
    ensures TrimStart(TrimEnd(s)) == TrimEnd(TrimStart(s))
  {
    if s != "" {
      if IsSpace(s[|s| - 1]) {
        TrimsCommute(s[..|s| - 1]);
        TrimStartSnoc(s);
      } else {
        TrimStartKeepsEnd(s);
      }
    }
  }

  lemma {:induction false} TrimStartKeepsEnd(s: string)
    requires s != "" && !IsSpace(s[|s| - 1])
    ensures TrimStart(s) != "" && TrimStart(s)[|TrimStart(s)| - 1] == s[|s| - 1]
  {
    if IsSpace(s[0]) {
      TrimStartKeepsEnd(s[1..]);
    }
  }

  /** A space at the end goes, whether or not the start is trimmed first. */
  lemma {:induction false} TrimStartSnoc(s: string)
    requires s != "" && IsSpace(s[|s| - 1])
    ensures TrimEnd(TrimStart(s)) == TrimEnd(TrimStart(s[..|s| - 1]))
  {
    if |s| == 1 {
      assert s[1..] == "" == s[..0];
    } else if IsSpace(s[0]) {
      TrimStartSnoc(s[1..]);
      assert s[1..][..|s| - 2] == s[..|s| - 1][1..];
    }
  }

  lemma TrimTwice(s: string)
    ensures Trim(TrimEnd(s)) == Trim(s)
  {
    TrimsCommute(s);
    TrimEndTwice(TrimStart(s));
  }

  lemma TrimEndTwice(s: string)
    ensures TrimEnd(TrimEnd(s)) == TrimEnd(s)
  {
    TrimEndMeaning(s);
  }

  lemma TrimStartName(name: string, rest: string)
    requires IsName(name)
    ensures TrimStart(name + rest) == name + rest
  {
  }

  lemma CleanAssign(name: string, value: string)
    requires IsName(name) && OneLine(value)
    ensures Clean(Assign(name, value)) == name + " =" + TrimEnd(" " + value)
  {
    hide IsSpace, IsNewline;
    var line := Assign(name, value);
    assert '#' !in line[..|line|];
    FindIs('#', line, |line|);
    assert line[..|line|] == line;
    assert line == name + " = " + value;
    assert line == name + " =" + (" " + value);
    TrimStartName(name, " = " + value);
    assert line == name + (" = " + value);
    TrimEndAfter(name + " =", " " + value) by {
      EqualsIsNoSpace();
    }
  }

  lemma EqualsIsNoSpace()
    ensures !IsSpace('=')
  {
  }

  lemma ClassifyAssign(f: Formats, name: string, value: string)
    requires IsName(name) && OneLine(value)
    ensures Classify(f, Assign(name, value)) == Attribute(name, f.lower(name), Trim(value))
  {
    CleanAssign(name, value);
    var rest := TrimEnd(" " + value);
    var text := name + " =" + rest;
    var i := |name| + 1;
    assert text[..i] == name + " " && text[i] == '=' && text[i + 1..] == rest;
    assert '=' !in text[..i];
    FindIs('=', text, i);
    NameIsTrimmed(name);
    TrimSpaceAfter(name);
    TrimTwice(" " + value);
    TrimSpaceBefore(value);
    hide Clean, Find, Trim, TrimEnd, IsName, OneLine, Assign;
  }

  lemma NameIsTrimmed(name: string)
    requires IsName(name)
    ensures IsTrimmed(name)
  {
  }

  lemma AssignIsLine(name: string, value: string)
    requires IsName(name) && OneLine(value)
    ensures Without(IsNewline, Assign(name, value)) && Assign(name, value) != ""
  {
    var line := Assign(name, value);
    forall i | 0 <= i < |line|
      ensures !IsNewline(line[i])
    {
      if i < |name| {
        assert line[i] == name[i];
      } else if i >= |name| + 3 {
        assert line[i] == value[i - |name| - 3];
      }
    }
  }

  // ----- names in lower case -----

  predicate IsLetter(c: char) {
    'A' <= c <= 'z'
  }

  /** t is the word s in lower case. */
  predicate Folds(s: string, t: string) {
    s != "" && |s| == |t| && forall i :: 0 <= i < |s| ==> IsLetter(s[i]) && AsciiLower(s[i]) == t[i]
  }

  lemma FoldedName(f: Formats, s: string, t: string)
    requires Lowers(f.lower) && Folds(s, t)
    ensures IsName(s) && f.lower(s) == t
  {
    assert IsAscii(s);
    assert seq(|s|, i requires 0 <= i < |s| => AsciiLower(s[i])) == t;
  }

  predicate Named(f: Formats, fields: seq<FieldText>) {
    forall i :: 0 <= i < |fields| ==> IsName(fields[i].name) && f.lower(fields[i].name) == fields[i].key
  }

  lemma InterfaceWords()
    ensures Folds("PrivateKey", "privatekey")
    ensures Folds("ListenPort", "listenport")
    ensures Folds("Address", "address")
    ensures Folds("DNS", "dns")
    ensures Folds("MTU", "mtu")
  {
  }

  lemma PeerWords()
    ensures Folds("PublicKey", "publickey")
    ensures Folds("PresharedKey", "presharedkey")
    ensures Folds("AllowedIPs", "allowedips")
    ensures Folds("Endpoint", "endpoint")
    ensures Folds("PersistentKeepalive", "persistentkeepalive")
  {
  }

  lemma InterfaceNames(f: Formats, i: Interface)
    requires Lowers(f.lower)
    ensures Named(f, InterfaceFields(f, i))
  {
    InterfaceWords();
    hide Lowers, Folds, IsName;
    FoldedName(f, "PrivateKey", "privatekey");
    FoldedName(f, "ListenPort", "listenport");
    FoldedName(f, "Address", "address");
    FoldedName(f, "DNS", "dns");
    FoldedName(f, "MTU", "mtu");
  }

  lemma PeerNames(f: Formats, p: Peer)
    requires Lowers(f.lower)
    ensures Named(f, PeerFields(f, p))
  {
    PeerWords();
    hide Lowers, Folds, IsName;
    FoldedName(f, "PublicKey", "publickey");
    FoldedName(f, "PresharedKey", "presharedkey");
    FoldedName(f, "AllowedIPs", "allowedips");
    FoldedName(f, "Endpoint", "endpoint");
    FoldedName(f, "PersistentKeepalive", "persistentkeepalive");
  }

  lemma HeaderWords()
    ensures Folds("[Interface]", "[interface]") && Folds("[Peer]", "[peer]")
  {
  }

  lemma ClassifyHeaders(f: Formats)
    requires Lowers(f.lower)
    ensures Classify(f, "[Interface]") == Header(false) && Classify(f, "[Peer]") == Header(true)
  {
    HeaderWords();
    hide Lowers, Folds, IsName;
    FoldedName(f, "[Interface]", "[interface]");
    FoldedName(f, "[Peer]", "[peer]");
    ClassifyPlain(f, "[Interface]");
    ClassifyPlain(f, "[Peer]");
    hide Clean, Find;
  }

  lemma ClassifyPlain(f: Formats, line: string)
    requires IsName(line)
    ensures Clean(line) == line && Find('=', line) == |line|
  {
    assert line[..|line|] == line;
    FindIs('#', line, |line|);
    FindIs('=', line, |line|);
    NameIsTrimmed(line);
    TrimKeeps(line);
  }

  // ----- the fields of a section -----

  predicate OneLiners(fields: seq<FieldText>) {
    forall i :: 0 <= i < |fields| && fields[i].value.Some? ==> OneLine(fields[i].value.value)
  }

  function FieldLine(field: FieldText): seq<Line> {
    if field.value.None? then [] else [Attribute(field.name, field.key, Trim(field.value.value))]
  }

  /** What the written fields of a section become when they are read. */
  function FieldLines(fields: seq<FieldText>): seq<Line> {
    if fields == [] then [] else FieldLines(fields[..|fields| - 1]) + FieldLine(fields[|fields| - 1])
  }

  lemma {:induction false} ClassifySplit(f: Formats, a: seq<string>, b: seq<string>)
    ensures ClassifyAll(f, a + b) == ClassifyAll(f, a) + ClassifyAll(f, b)
  {
    hide Classify;
  }

  lemma ClassifyOne(f: Formats, line: string)
    ensures ClassifyAll(f, [line]) == [Classify(f, line)]
  {
  }

  predicate AreLines(lines: seq<string>) {
    forall i :: 0 <= i < |lines| ==> Without(IsNewline, lines[i]) && lines[i] != ""
  }

  function ShownLine(field: FieldText): seq<string> {
    if field.value.None? then [] else [Assign(field.name, field.value.value)]
  }

  lemma ClassifyShownLine(f: Formats, field: FieldText)
    requires IsName(field.name) && f.lower(field.name) == field.key
    requires field.value.Some? ==> OneLine(field.value.value)
    ensures ClassifyAll(f, ShownLine(field)) == FieldLine(field) && AreLines(ShownLine(field))
  {
    if field.value.Some? {
      ClassifyAssign(f, field.name, field.value.value);
      AssignIsLine(field.name, field.value.value);
    }
    hide Classify, Assign, IsName, OneLine, Without;
  }

  lemma {:induction false} ClassifyShown(f: Formats, fields: seq<FieldText>)
    requires Named(f, fields) && OneLiners(fields)
    ensures ClassifyAll(f, Shown(fields)) == FieldLines(fields) && AreLines(Shown(fields))
  {
    if fields != [] {
      var before, last := fields[..|fields| - 1], fields[|fields| - 1];
      ClassifyShown(f, before);
      ClassifyShownLine(f, last);
      ClassifySplit(f, Shown(before), ShownLine(last));
      hide Classify, Assign, IsName, OneLine, Without, ClassifyAll, FieldLine;
      assert Shown(fields) == Shown(before) + ShownLine(last);
    }
  }

  // ----- reading the fields back -----

  predicate DistinctFieldKeys(fields: seq<FieldText>) {
    forall i, j :: 0 <= i < j < |fields| ==> fields[i].key != fields[j].key
  }

  function Lookup(attributes: map<string, string>, key: string): Option<string> {
    if key in attributes then Some(attributes[key]) else None
  }

  function Trimmed(value: Option<string>): Option<string> {
    if value.None? then None else Some(Trim(value.value))
  }

  predicate AmongKeys(fields: seq<FieldText>, key: string) {
    exists j :: 0 <= j < |fields| && fields[j].key == key
  }

  lemma {:induction false} FieldLinesMeaning(fields: seq<FieldText>)
    ensures forall line :: line in FieldLines(fields) ==> line.Attribute? && AmongKeys(fields, line.key)
  {
    if fields != [] {
      var before, last := fields[..|fields| - 1], fields[|fields| - 1];
      FieldLinesMeaning(before);
      forall line | line in FieldLines(fields)
        ensures line.Attribute? && AmongKeys(fields, line.key)
      {
        if line in FieldLines(before) {
          var j :| 0 <= j < |before| && before[j].key == line.key;
          assert fields[j] == before[j];
        } else {
          assert line in FieldLine(last);
        }
      }
    }
  }

  lemma {:induction false} FieldLinesDistinct(fields: seq<FieldText>)
    requires DistinctFieldKeys(fields)
    ensures NoRepeats(FieldLines(fields))
  {
    if fields != [] {
      var before, last := fields[..|fields| - 1], fields[|fields| - 1];
      FieldLinesDistinct(before);
      FieldLinesMeaning(before);
    }
  }

  lemma {:induction false} FieldsReadBack(fields: seq<FieldText>, k: nat)
    requires DistinctFieldKeys(fields) && k < |fields|
    ensures Lookup(Attributes(FieldLines(fields)), fields[k].key) == Trimmed(fields[k].value)
  {
    hide Attributes, FieldLines, Trim;
    var before, last := fields[..|fields| - 1], fields[|fields| - 1];
    assert before + [last] == fields;
    AttributesOfField(before, last);
    if k < |before| {
      FieldsReadBack(before, k);
    } else {
      KeyIsNew(before, last.key);
    }
  }

  lemma KeyIsNew(fields: seq<FieldText>, key: string)
    requires forall j :: 0 <= j < |fields| ==> fields[j].key != key
    ensures key !in Attributes(FieldLines(fields))
  {
    FieldLinesMeaning(fields);
  }

  lemma AttributesOfField(before: seq<FieldText>, last: FieldText)
    ensures var all, attributes := FieldLines(before + [last]), Attributes(FieldLines(before));
            Attributes(all) == if last.value.None? then attributes
                               else WgQuickReader.Added(attributes, last.key, Trim(last.value.value))
  {
    var fields := before + [last];
    assert fields[..|fields| - 1] == before;
    if last.value.Some? {
      WgQuickReader.AttributesNext(FieldLines(before), FieldLine(last)[0]);
    } else {
      assert FieldLines(fields) == FieldLines(before);
    }
  }
}
