/** What a section's lines amount to: only the values of each key count. Blank lines say nothing, the lines of
    a list key say what one line with all the values would say, and no other key may come twice. */
module WgQuickSections {
  import opened Options
  import opened ConfigText
  import opened WgQuick
  import opened WgQuickReader

  // ----- the values of each key -----

  lemma {:induction false} ValuesSplit(a: seq<Line>, b: seq<Line>, key: string)
    ensures Values(a + b, key) == Values(a, key) + Values(b, key)
    decreases |b|
  {
    if b == [] {
      assert a + b == a;
    } else {
      assert (a + b)[..|a + b| - 1] == a + b[..|b| - 1];
      ValuesSplit(a, b[..|b| - 1], key);
    }
  }

  lemma ValuesOfOne(line: Line, key: string)
    ensures Values([line], key) == if line.Attribute? && line.key == key then [line.value] else []
  {
    assert [line][..0] == [];
  }

  lemma {:induction false} KeysHaveValues(body: seq<Line>)
    ensures forall key :: key in Keys(body) <==> Values(body, key) != []
  {
    if body != [] {
      var front, last := body[..|body| - 1], body[|body| - 1];
      KeysHaveValues(front);
      KeysNext(front, last);
      assert front + [last] == body;
      hide Keys;
    }
  }

  ghost predicate OnceEach(body: seq<Line>) {
    forall key :: key !in REPEATABLE ==> |Values(body, key)| <= 1
  }

  /** A key repeats exactly when it has several values. */
  lemma {:induction false} RepeatsAreSeveralValues(body: seq<Line>)
    ensures NoRepeats(body) <==> OnceEach(body)
  {
    if body != [] {
      var front, last := body[..|body| - 1], body[|body| - 1];
      assert front + [last] == body;
      RepeatsAreSeveralValues(front);
      KeysHaveValues(front);
      RepeatsNext(front, last);
      OnceNext(front, last);
    }
  }

  lemma RepeatsNext(front: seq<Line>, last: Line)
    ensures NoRepeats(front + [last]) <==>
            NoRepeats(front) && (last.Attribute? && last.key in Keys(front) ==> last.key in REPEATABLE)
  {
    var body := front + [last];
    if NoRepeats(body) {
      forall i, j | 0 <= i < j < |front| && front[i].Attribute? && front[j].Attribute? && front[i].key == front[j].key
        ensures front[i].key in REPEATABLE
      {
        assert body[i] == front[i] && body[j] == front[j];
      }
      if last.Attribute? && last.key in Keys(front) {
        var i :| 0 <= i < |front| && front[i].Attribute? && front[i].key == last.key;
        assert body[i] == front[i] && body[|front|] == last;
      }
    }
  }

  lemma OnceNext(front: seq<Line>, last: Line)
    ensures OnceEach(front + [last]) <==>
            OnceEach(front) && (last.Attribute? && Values(front, last.key) != [] ==> last.key in REPEATABLE)
  {
    hide Values;
    forall key
      ensures Values(front + [last], key) == Values(front, key) + if last.Attribute? && last.key == key then [last.value] else []
    {
      ValuesSplit(front, [last], key);
      ValuesOfOne(last, key);
    }
  }

  predicate IsKnown(peer: bool, key: string) {
    key in if peer then PEER_KEYS else INTERFACE_KEYS
  }

  ghost predicate OnlyKnown(peer: bool, body: seq<Line>) {
    forall key :: Values(body, key) != [] ==> IsKnown(peer, key)
  }

  lemma KnownKeysHaveValues(peer: bool, body: seq<Line>)
    ensures KnownKeys(peer, body) <==> OnlyKnown(peer, body)
  {
    KeysHaveValues(body);
    hide Values;
    if OnlyKnown(peer, body) {
      forall i | 0 <= i < |body| && body[i].Attribute?
        ensures IsKnown(peer, body[i].key)
      {
        assert body[i].key in Keys(body);
      }
    }
    if KnownKeys(peer, body) {
      forall key | Values(body, key) != []
        ensures IsKnown(peer, key)
      {
        assert key in Keys(body);
      }
    }
  }

  /** The same values for each key, or the same list for a key that may repeat. */
  ghost predicate Agree(a: seq<Line>, b: seq<Line>) {
    forall key :: AgreeOn(Values(a, key), Values(b, key), key)
  }

  predicate AgreeOn(v: seq<string>, w: seq<string>, key: string) {
    v == w || (key in REPEATABLE && v != [] && w != [] && Join(",", v) == Join(",", w))
  }

  /** A section means what its values make it mean. */
  lemma AgreeingSections(f: Formats, peer: bool, a: seq<Line>, b: seq<Line>)
    requires Agree(a, b)
    ensures PartOf(f, Section(peer, a)) == PartOf(f, Section(peer, b)) && NoRepeats(a) == NoRepeats(b)
  {
    RepeatsAreSeveralValues(a);
    RepeatsAreSeveralValues(b);
    KnownKeysHaveValues(peer, a);
    KnownKeysHaveValues(peer, b);
    KeysHaveValues(a);
    KeysHaveValues(b);
    hide Values, Join, NoRepeats, KnownKeys, Keys, InterfaceOf, PeerOf, IsKnown;
    assert forall key :: AgreeOn(Values(a, key), Values(b, key), key);
    assert forall key :: Values(a, key) == [] <==> Values(b, key) == [];
    assert OnlyKnown(peer, a) <==> OnlyKnown(peer, b);
    assert OnceEach(a) <==> OnceEach(b);
    assert forall key :: key in Keys(a) <==> key in Keys(b);
    assert Attributes(a) == Attributes(b);
  }

  // ----- one stretch of lines in place of another -----

  lemma {:induction false} UpToHeaderMeets(p: seq<Line>, q: seq<Line>)
    requires q != [] && q[0].Header?
    ensures UpToHeader(p + q) == UpToHeader(p + [q[0]]) && UpToHeader(p + q) == UpToHeader(p)
  {
    if p == [] {
      assert p + q == q && p + [q[0]] == [q[0]];
    } else if !p[0].Header? {
      assert (p + q)[1..] == p[1..] + q && (p + [q[0]])[1..] == p[1..] + [q[0]];
      UpToHeaderMeets(p[1..], q);
    }
  }

  /** A header ends the sections before it, whatever follows. */
  lemma {:induction false} SectionsMeet(p: seq<Line>, q: seq<Line>)
    requires q != [] && q[0].Header?
    ensures Sections(p + q) == Sections(p + [q[0]]) + Cut(q)
  {
    hide Sections, Cut, UpToHeader;
    var h := q[0];
    if p == [] {
      assert p + q == q && p + [h] == [h];
      NoneUpToHeader(q);
      NoneUpToHeader([h]);
      CutHeader(h);
    } else {
      var first, others := p[0], p[1..];
      SectionsMeet(others, q);
      assert p + q == [first] + (others + q) && p + [h] == [first] + (others + [h]);
      if first.Header? {
        UpToHeaderMeets(others, q);
        FirstSection(first, others + q);
        FirstSection(first, others + [h]);
      } else {
        SectionsSkip(first, others + q);
        SectionsSkip(first, others + [h]);
      }
    }
  }

  lemma FirstSection(header: Line, rest: seq<Line>)
    requires header.Header? && rest != []
    ensures Sections([header] + rest) == [Section(header.peer, UpToHeader(rest))] + Sections(rest)
  {
    CutNext(header, [], rest);
    NoneUpToHeader([header] + rest);
    assert [header] + [] + rest == [header] + rest;
    assert [] + UpToHeader(rest) == UpToHeader(rest);
    hide Sections, Cut, UpToHeader;
  }

  predicate EndsWithHeader(a: seq<Line>) {
    a != [] && a[|a| - 1].Header?
  }

  lemma {:induction false} LastHeader(a: seq<Line>) returns (p: seq<Line>, h: Line, body: seq<Line>)
    requires !NoHeader(a)
    ensures h.Header? && NoHeader(body) && a == p + [h] + body
    ensures body == [] <==> EndsWithHeader(a)
  {
    var front, last := a[..|a| - 1], a[|a| - 1];
    assert a == front + [last];
    if last.Header? {
      p, h, body := front, last, [];
      assert p + [h] + body == a;
    } else {
      assert !NoHeader(front);
      p, h, body := LastHeader(front);
      body := body + [last];
    }
  }

  /** The sections of a text with a stretch u of lines without headers: in one of them, u is part of the body. */
  lemma SectionsAround(p: seq<Line>, h: Line, body: seq<Line>, u: seq<Line>, b: seq<Line>)
    requires h.Header? && NoHeader(body) && NoHeader(u) && body + u + b != []
    ensures Sections(p + [h] + body + u + b) ==
            Sections(p + [h]) + [Section(h.peer, body + u + UpToHeader(b))] + Sections(b)
    ensures UpToHeader(p + [h] + body + u + b) == UpToHeader(p)
  {
    var q := [h] + (body + u) + b;
    NoHeaderBoth(body, u);
    assert p + [h] + body + u + b == p + q;
    hide Sections, Cut, UpToHeader, NoHeader;
    SectionsMeet(p, q);
    UpToHeaderMeets(p, q);
    CutNext(h, body + u, b);
    assert Sections(p + [h]) + ([Section(h.peer, body + u + UpToHeader(b))] + Sections(b))
        == Sections(p + [h]) + [Section(h.peer, body + u + UpToHeader(b))] + Sections(b);
  }

  lemma NoHeaderBoth(a: seq<Line>, b: seq<Line>)
    requires NoHeader(a) && NoHeader(b)
    ensures NoHeader(a + b)
  {
  }

  lemma SectionsBefore(a: seq<Line>, u: seq<Line>, b: seq<Line>)
    requires NoHeader(a) && NoHeader(u)
    ensures Sections(a + u + b) == Sections(b) && UpToHeader(a + u + b) == a + u + UpToHeader(b)
  {
    NoHeaderBoth(a, u);
    UpToHeaderSplit(a + u, b);
    hide UpToHeader, NoHeader;
    assert (a + u + b)[|a + u| + |UpToHeader(b)|..] == b[|UpToHeader(b)|..];
  }

  lemma {:induction false} PartsAround(f: Formats, before: seq<Section>, x: Section, y: Section, after: seq<Section>)
    requires PartOf(f, x) == PartOf(f, y)
    ensures Parts(f, before + [x] + after) == Parts(f, before + [y] + after)
    decreases |after|
  {
    hide PartOf;
    var s, t := before + [x] + after, before + [y] + after;
    if after == [] {
      assert s[..|s| - 1] == before && t[..|t| - 1] == before;
    } else {
      var front := after[..|after| - 1];
      assert s[..|s| - 1] == before + [x] + front && t[..|t| - 1] == before + [y] + front;
      PartsAround(f, before, x, y, front);
    }
  }

  lemma {:induction false} PartsNone(f: Formats, before: seq<Section>, x: Section, after: seq<Section>)
    requires PartOf(f, x) == None
    ensures Parts(f, before + [x] + after) == None
    decreases |after|
  {
    hide PartOf;
    var s := before + [x] + after;
    if after == [] {
      assert s[..|s| - 1] == before;
    } else {
      assert s[..|s| - 1] == before + [x] + after[..|after| - 1];
      PartsNone(f, before, x, after[..|after| - 1]);
    }
  }

  predicate Plain(lines: seq<Line>) {
    forall i :: 0 <= i < |lines| ==> lines[i].Attribute? || lines[i].Blank?
  }

  lemma PlainIsFine(a: seq<Line>, u: seq<Line>, b: seq<Line>)
    requires Plain(u)
    ensures NoHeader(u)
    ensures SomeInvalid(a + u + b) <==> SomeInvalid(a) || SomeInvalid(b)
  {
    var all := a + u + b;
    if SomeInvalid(all) {
      var i :| 0 <= i < |all| && all[i].Invalid?;
      if i >= |a| {
        assert i >= |a| + |u|;
        assert b[i - |a| - |u|].Invalid?;
      }
    }
    if SomeInvalid(a) {
      var i :| 0 <= i < |a| && a[i].Invalid?;
      assert all[i].Invalid?;
    }
    if SomeInvalid(b) {
      var i :| 0 <= i < |b| && b[i].Invalid?;
      assert all[|a| + |u| + i].Invalid?;
    }
  }

  lemma AgreeInside(p: seq<Line>, u: seq<Line>, w: seq<Line>, q: seq<Line>)
    requires forall x, y :: Agree(x + u + y, x + w + y)
    ensures Agree(p + u + q, p + w + q)
  {
  }

  /** Stretches of lines that agree wherever they stand can replace each other, unless a section would vanish. */
  lemma ReplaceLines(f: Formats, a: seq<Line>, u: seq<Line>, w: seq<Line>, b: seq<Line>)
    requires Plain(u) && Plain(w) && forall x, y :: Agree(x + u + y, x + w + y)
    requires (u != [] && w != []) || b != [] || !EndsWithHeader(a)
    ensures Meaning(f, a + u + b) == Meaning(f, a + w + b)
  {
    PlainIsFine(a, u, b);
    PlainIsFine(a, w, b);
    hide Parts, PartOf, Assemble, Sections, UpToHeader, SomeInvalid, NoRepeats, Agree, Plain;
    if NoHeader(a) {
      SectionsBefore(a, u, b);
      SectionsBefore(a, w, b);
      AgreeInside(a, u, w, UpToHeader(b));
      AgreeingSections(f, false, a + u + UpToHeader(b), a + w + UpToHeader(b));
    } else {
      var p, h, body := LastHeader(a);
      var x, y := body + u + UpToHeader(b), body + w + UpToHeader(b);
      SectionsAround(p, h, body, u, b);
      SectionsAround(p, h, body, w, b);
      AgreeInside(body, u, w, UpToHeader(b));
      AgreeingSections(f, h.peer, x, y);
      PartsAround(f, Sections(p + [h]), Section(h.peer, x), Section(h.peer, y), Sections(b));
    }
  }

  // ----- blank lines -----

  lemma ValuesAround(x: seq<Line>, u: seq<Line>, y: seq<Line>, key: string)
    ensures Values(x + u + y, key) == Values(x, key) + Values(u, key) + Values(y, key)
  {
    ValuesSplit(x + u, y, key);
    ValuesSplit(x, u, key);
  }

  lemma BlankAgrees(x: seq<Line>, y: seq<Line>)
    ensures Agree(x + [Blank] + y, x + [] + y)
  {
    forall key
      ensures Values(x + [Blank] + y, key) == Values(x + [] + y, key)
    {
      ValuesAround(x, [Blank], y, key);
      ValuesAround(x, [], y, key);
      ValuesOfOne(Blank, key);
    }
    hide Values, Join;
  }

  lemma NothingIsNoSection(f: Formats, peer: bool, body: seq<Line>)
    requires forall key :: Values(body, key) == []
    ensures PartOf(f, Section(peer, body)) == None
  {
    KeysHaveValues(body);
    SameKeys(body);
    assert "privatekey" !in Attributes(body) && "publickey" !in Attributes(body);
    hide Values, Attributes, Keys, KnownKeys, NoRepeats, RangesField, DnsItems;
  }

  /** A text whose last header has only blank lines after it is refused, though it is not when that header is
      the very last line. */
  lemma BlankAfterHeader(f: Formats, a: seq<Line>)
    requires EndsWithHeader(a)
    ensures Meaning(f, a + [Blank]) == None
  {
    var p, h, body := LastHeader(a);
    NoHeaderOne(Blank);
    SectionsAround(p, h, [], [Blank], []);
    assert p + [h] + [] + [Blank] + [] == a + [Blank];
    forall key
      ensures Values([] + [Blank] + UpToHeader([]), key) == []
    {
      ValuesOfOne(Blank, key);
      assert [] + [Blank] + UpToHeader([]) == [Blank];
    }
    NothingIsNoSection(f, h.peer, [] + [Blank] + UpToHeader([]));
    hide Sections, PartOf, Parts, UpToHeader;
    PartsNone(f, Sections(p + [h]), Section(h.peer, [] + [Blank] + UpToHeader([])), Sections([]));
  }

  lemma NoHeaderOne(line: Line)
    requires !line.Header?
    ensures NoHeader([line])
  {
  }

  /** A blank or comment line can be added anywhere but after a final header: exactly then, and there it makes no
      difference only to a text that is refused anyhow. */
  lemma BlankLinesExactly(f: Formats, a: seq<Line>, b: seq<Line>)
    ensures Meaning(f, a + [Blank] + b) == Meaning(f, a + b)
            <==> !(b == [] && EndsWithHeader(a) && Meaning(f, a).Some?)
  {
    hide Meaning;
    assert a + [] + b == a + b;
    if b == [] && EndsWithHeader(a) {
      BlankAfterHeader(f, a);
      assert a + [Blank] + b == a + [Blank] && a + b == a;
    } else {
      forall x, y
        ensures Agree(x + [Blank] + y, x + [] + y)
      {
        BlankAgrees(x, y);
      }
      hide Agree;
      ReplaceLines(f, a, [Blank], [], b);
    }
  }

  // ----- lists over several lines -----

  lemma {:induction false} JoinMerge(before: seq<string>, v: string, w: string, after: seq<string>)
    ensures Join(",", before + [v, w] + after) == Join(",", before + [v + "," + w] + after)
    decreases before
  {
    var a, b := before + [v, w] + after, before + [v + "," + w] + after;
    if before == [] {
      assert a[0] == v && a[1..] == [w] + after && b[0] == v + "," + w && b[1..] == after;
      assert ([w] + after)[0] == w && ([w] + after)[1..] == after;
      if after == [] {
        assert a[1..] == [w];
      } else {
        assert v + "," + (w + "," + Join(",", after)) == v + "," + w + "," + Join(",", after);
      }
    } else {
      assert a[1..] == before[1..] + [v, w] + after && b[1..] == before[1..] + [v + "," + w] + after;
      JoinMerge(before[1..], v, w, after);
    }
  }

  // two lines of a list key, and one line with both values in place of the first
  function Twice(first: Line, between: seq<Line>, second: Line): seq<Line> {
    [first] + between + [second]
  }

  lemma ListAgrees(x: seq<Line>, first: Line, between: seq<Line>, second: Line, both: Line, y: seq<Line>)
    requires first.Attribute? && second.Attribute? && both.Attribute? && first.key == second.key == both.key
    requires first.key in {"address", "allowedips", "dns"} && Values(between, first.key) == []
    requires both.value == first.value + "," + second.value
    ensures Agree(x + Twice(first, between, second) + y, x + ([both] + between) + y)
  {
    forall key
      ensures AgreeOn(Values(x + Twice(first, between, second) + y, key), Values(x + ([both] + between) + y, key), key)
    {
      ListAgreesOn(x, first, between, second, both, y, key);
    }
    hide Values, Join, AgreeOn;
  }

  lemma ListAgreesOn(x: seq<Line>, first: Line, between: seq<Line>, second: Line, both: Line, y: seq<Line>, key: string)
    requires first.Attribute? && second.Attribute? && both.Attribute? && first.key == second.key == both.key
    requires first.key in REPEATABLE && Values(between, first.key) == []
    requires both.value == first.value + "," + second.value
    ensures AgreeOn(Values(x + Twice(first, between, second) + y, key), Values(x + ([both] + between) + y, key), key)
  {
    hide Values, Join;
    ValuesAround(x, Twice(first, between, second), y, key);
    ValuesAround(x, [both] + between, y, key);
    ValuesAround([first], between, [second], key);
    ValuesSplit([both], between, key);
    ValuesOfOne(first, key);
    ValuesOfOne(second, key);
    ValuesOfOne(both, key);
    if key == first.key {
      var before, after := Values(x, key), Values(y, key);
      assert Values(Twice(first, between, second), key) == [first.value, second.value];
      assert Values([both] + between, key) == [both.value];
      JoinMerge(before, first.value, second.value, after);
    } else {
      assert Values(Twice(first, between, second), key) == Values(between, key) == Values([both] + between, key);
    }
  }

  /** Several lines of addresses, allowed IPs or DNS servers in a section are one list. */
  lemma ListsAdd(f: Formats, a: seq<Line>, first: Line, between: seq<Line>, second: Line, both: Line, b: seq<Line>)
    requires first.Attribute? && second.Attribute? && both.Attribute? && first.key == second.key == both.key
    requires first.key in {"address", "allowedips", "dns"} && Plain(between) && Values(between, first.key) == []
    requires both.value == first.value + "," + second.value
    ensures Meaning(f, a + Twice(first, between, second) + b) == Meaning(f, a + ([both] + between) + b)
  {
    forall x, y
      ensures Agree(x + Twice(first, between, second) + y, x + ([both] + between) + y)
    {
      ListAgrees(x, first, between, second, both, y);
    }
    assert Plain(Twice(first, between, second)) && Plain([both] + between);
    hide Meaning, Agree, Plain, Values;
    ReplaceLines(f, a, Twice(first, between, second), [both] + between, b);
  }

  /** Any other key that comes twice in a section, or before the first, makes the text meaningless. */
  lemma RepeatedKeyIsRefused(f: Formats, a: seq<Line>, first: Line, between: seq<Line>, second: Line, b: seq<Line>)
    requires first.Attribute? && second.Attribute? && first.key == second.key
    requires first.key !in {"address", "allowedips", "dns"} && Plain(between)
    ensures Meaning(f, a + Twice(first, between, second) + b) == None
  {
    var u := Twice(first, between, second);
    assert Plain(u);
    forall x, y
      ensures !NoRepeats(x + u + y)
    {
      TwoValues(x, first, between, second, y);
      RepeatsAreSeveralValues(x + u + y);
    }
    RefusedLines(f, a, u, b);
  }

  lemma TwoValues(x: seq<Line>, first: Line, between: seq<Line>, second: Line, y: seq<Line>)
    requires first.Attribute? && second.Attribute? && first.key == second.key
    ensures |Values(x + Twice(first, between, second) + y, first.key)| >= 2
  {
    ValuesAround(x, Twice(first, between, second), y, first.key);
    ValuesAround([first], between, [second], first.key);
    ValuesOfOne(first, first.key);
    ValuesOfOne(second, first.key);
    hide Values;
  }

  lemma RefusedLines(f: Formats, a: seq<Line>, u: seq<Line>, b: seq<Line>)
    requires Plain(u) && u != [] && forall x, y :: !NoRepeats(x + u + y)
    ensures Meaning(f, a + u + b) == None
  {
    PlainIsFine(a, u, b);
    hide Parts, PartOf, Assemble, Sections, UpToHeader, SomeInvalid, NoRepeats, Plain;
    if NoHeader(a) {
      SectionsBefore(a, u, b);
      assert !NoRepeats(a + u + UpToHeader(b));
    } else {
      var p, h, body := LastHeader(a);
      SectionsAround(p, h, body, u, b);
      var section := Section(h.peer, body + u + UpToHeader(b));
      RepeatingSection(f, section);
      PartsNone(f, Sections(p + [h]), section, Sections(b));
    }
  }

  lemma RepeatingSection(f: Formats, section: Section)
    requires !NoRepeats(section.body)
    ensures PartOf(f, section) == None
  {
  }

  /** So does a key that is not one of its section's. */
  lemma ForeignKeyIsRefused(f: Formats, p: seq<Line>, h: Line, body: seq<Line>, line: Line, b: seq<Line>)
    requires h.Header? && NoHeader(body) && line.Attribute?
    requires line.key !in if h.peer then {"publickey", "presharedkey", "allowedips", "endpoint", "persistentkeepalive"}
                          else {"privatekey", "listenport", "address", "dns", "mtu"}
    ensures Meaning(f, p + [h] + body + [line] + b) == None
  {
    NoHeaderOne(line);
    SectionsAround(p, h, body, [line], b);
    var section := Section(h.peer, body + [line] + UpToHeader(b));
    assert section.body[|body|] == line;
    ForeignSection(f, section, |body|);
    hide Parts, PartOf, Sections, UpToHeader;
    PartsNone(f, Sections(p + [h]), section, Sections(b));
  }

  lemma ForeignSection(f: Formats, section: Section, i: nat)
    requires i < |section.body| && section.body[i].Attribute? && !IsKnown(section.peer, section.body[i].key)
    ensures PartOf(f, section) == None
  {
    assert !KnownKeys(section.peer, section.body);
  }

  // ----- before the first section and after the last -----

  /** Attributes before the first header are ignored, unless one that is no list comes twice. */
  lemma PreambleIsIgnored(f: Formats, preamble: seq<Line>, b: seq<Line>)
    requires Plain(preamble) && (b == [] || b[0].Header?)
    ensures Meaning(f, preamble + b) == if NoRepeats(preamble) then Meaning(f, b) else None
  {
    PlainIsFine([], preamble, b);
    SectionsBefore([], preamble, b);
    assert [] + preamble + b == preamble + b && [] + preamble == preamble;
    NoneUpToHeader(b);
    hide Parts, Assemble, Sections, SomeInvalid;
    assert UpToHeader(b) == [] && preamble + [] == preamble;
  }

  /** A header on the last line opens no section, but closes one that the header before it had opened. */
  lemma FinalHeader(f: Formats, a: seq<Line>, peer: bool)
    ensures Meaning(f, a + [Header(peer)]) == if EndsWithHeader(a) then None else Meaning(f, a)
  {
    hide *;
    if EndsWithHeader(a) {
      HeaderAfterHeader(f, a, Header(peer));
    } else {
      HeaderAfterLine(f, a, Header(peer));
    }
  }

  lemma HeaderAfterHeader(f: Formats, a: seq<Line>, h: Line)
    requires EndsWithHeader(a) && h.Header?
    ensures Meaning(f, a + [h]) == None
  {
    NoneUpToHeader([h]);
    hide Parts, PartOf, Assemble, Sections, SomeInvalid, UpToHeader;
    var p, g, body := LastHeader(a);
    SectionsAround(p, g, [], [], [h]);
    assert p + [g] + [] + [] + [h] == a + [h];
    var section := Section(g.peer, [] + [] + UpToHeader([h]));
    NoValues();
    NothingIsNoSection(f, g.peer, section.body);
    PartsNone(f, Sections(p + [g]), section, Sections([h]));
  }

  lemma HeaderAfterLine(f: Formats, a: seq<Line>, h: Line)
    requires !EndsWithHeader(a) && h.Header?
    ensures Meaning(f, a + [h]) == Meaning(f, a)
  {
    PlainIsFine(a, [], [h]);
    assert a + [] + [h] == a + [h] && !SomeInvalid([h]);
    NoneUpToHeader([h]);
    NoneUpToHeader([]);
    CutHeader(h);
    CutNothing();
    hide Parts, PartOf, Assemble, Sections, SomeInvalid, UpToHeader, Cut;
    if NoHeader(a) {
      SectionsBefore(a, [], [h]);
      SectionsBefore(a, [], []);
      assert a + [] + [] == a;
    } else {
      var p, g, body := LastHeader(a);
      SectionsAround(p, g, body, [], [h]);
      SectionsAround(p, g, body, [], []);
      assert p + [g] + body + [] + [h] == a + [h] && p + [g] + body + [] + [] == a;
    }
  }

  lemma NoValues()
    ensures forall key :: Values([], key) == []
  {
  }
}
