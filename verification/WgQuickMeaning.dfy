/** What a configuration that is read says about the lines it is read from, section by section and value by
    value, without regard to how the attributes are gathered. */
module WgQuickMeaning {
  import opened Options
  import opened ConfigText
  import opened WgQuick
  import opened WgQuickReader
  import opened WgQuickItems
  import opened WgQuickSections

  // ----- lists of values -----

  /** The items of all values, in order. */
  function AllItems(values: seq<string>): seq<string> {
    if values == [] then [] else Items(values[0]) + AllItems(values[1..])
  }

  lemma FirstPiece(s: string)
    ensures var i := PieceEnd(IsComma, s);
            Pieces(IsComma, s) == NonEmpty(s[..i]) + (if i == |s| then [] else Pieces(IsComma, s[i + 1..]))
  {
    hide NonEmpty, PieceEnd, Without, IsComma;
  }

  lemma FirstPieceIs(s: string)
    ensures var i := PieceEnd(IsComma, s);
            Without(IsComma, s[..i]) && (i < |s| ==> s[i] == ',' && s == s[..i] + [','] + s[i + 1..])
  {
    hide Without, PieceEnd;
  }

  lemma {:induction false} PiecesAtComma(s: string, t: string)
    ensures Pieces(IsComma, s + [','] + t) == Pieces(IsComma, s) + Pieces(IsComma, t)
    decreases |s|
  {
    hide *;
    FirstPiece(s);
    FirstPieceIs(s);
    var i := PieceEnd(IsComma, s);
    var first := s[..i];
    PieceEndBound(s);
    if i == |s| {
      assert first == s;
      CommaSeparates();
      PiecesNext(IsComma, s, ',', t);
      assert NonEmpty(s) + [] == NonEmpty(s);
    } else {
      var rest := s[i + 1..];
      PiecesAtComma(rest, t);
      CommaSeparates();
      PiecesNext(IsComma, first, ',', rest + [','] + t);
      assert first + [','] + (rest + [','] + t) == s + [','] + t;
    }
  }

  lemma PieceEndBound(s: string)
    ensures PieceEnd(IsComma, s) <= |s|
  {
  }

  lemma CommaSeparates()
    ensures IsComma(',')
  {
  }

  lemma {:induction false} ItemsOfList(values: seq<string>)
    requires values != []
    ensures Items(Join(",", values)) == AllItems(values)
  {
    if |values| == 1 {
      assert values[1..] == [];
    } else {
      var rest := Join(",", values[1..]);
      ItemsOfList(values[1..]);
      hide Pieces;
      PiecesAtComma(values[0], rest);
      assert values[0] + "," + rest == values[0] + [','] + rest;
      TrimAllSplit(Pieces(IsComma, values[0]), Pieces(IsComma, rest));
    }
  }

  predicate AllParsed(f: Formats, items: seq<string>, ranges: seq<Range>) {
    |ranges| == |items| && forall j :: 0 <= j < |items| ==> f.range.parse(items[j]) == Some(ranges[j])
  }

  lemma {:induction false} RangesMeans(f: Formats, items: seq<string>, ranges: seq<Range>)
    ensures ParseRanges(f, items) == Some(ranges) <==> AllParsed(f, items, ranges)
  {
    if items != [] {
      var n := |items| - 1;
      if |ranges| == |items| {
        assert ranges == ranges[..n] + [ranges[n]];
        RangesMeans(f, items[..n], ranges[..n]);
        if AllParsed(f, items, ranges) {
          assert AllParsed(f, items[..n], ranges[..n]);
        }
      }
      if ParseRanges(f, items) == Some(ranges) {
        var before := ParseRanges(f, items[..n]).value;
        RangesMeans(f, items[..n], before);
        assert ranges[..n] == before;
      }
    }
  }

  /** The items that name servers and the other ones, each in their order. */
  predicate Divides(f: Formats, items: seq<string>, servers: seq<Server>, domains: seq<string>) {
    if items == [] then servers == [] && domains == []
    else
      match f.server.parse(items[0])
      case Some(x) => servers != [] && servers[0] == x && Divides(f, items[1..], servers[1..], domains)
      case None => domains != [] && domains[0] == items[0] && Divides(f, items[1..], servers, domains[1..])
  }

  lemma {:induction false} ServersSplit(f: Formats, a: seq<string>, b: seq<string>)
    ensures Servers(f, a + b) == Servers(f, a) + Servers(f, b)
    ensures Domains(f, a + b) == Domains(f, a) + Domains(f, b)
    decreases |b|
  {
    if b == [] {
      assert a + b == a;
    } else {
      assert (a + b)[..|a + b| - 1] == a + b[..|b| - 1];
      ServersSplit(f, a, b[..|b| - 1]);
    }
  }

  lemma {:induction false} DividesMeans(f: Formats, items: seq<string>, servers: seq<Server>, domains: seq<string>)
    ensures Divides(f, items, servers, domains) <==> servers == Servers(f, items) && domains == Domains(f, items)
  {
    if items != [] {
      var first, rest := items[0], items[1..];
      assert items == [first] + rest && [first][..0] == [];
      ServersSplit(f, [first], rest);
      match f.server.parse(first) {
        case Some(x) =>
          if servers != [] {
            DividesMeans(f, rest, servers[1..], domains);
            assert servers == [servers[0]] + servers[1..];
          }
        case None =>
          if domains != [] {
            DividesMeans(f, rest, servers, domains[1..]);
            assert domains == [domains[0]] + domains[1..];
          }
      }
    }
  }

  // ----- one section -----

  // one value that is read, none for none
  predicate Says<T(==)>(values: seq<string>, x: Option<T>, parse: string -> Option<T>) {
    |values| <= 1 && if values == [] then x == None else x.Some? && parse(values[0]) == x
  }

  ghost predicate OnlyKeys(body: seq<Line>, keys: set<string>) {
    forall key :: Values(body, key) != [] ==> key in keys
  }

  ghost predicate SaysInterface(f: Formats, body: seq<Line>, i: Interface) {
    && OnlyKeys(body, {"privatekey", "listenport", "address", "dns", "mtu"})
    && Says(Values(body, "privatekey"), Some(i.privateKey), f.key.parse)
    && Says(Values(body, "listenport"), i.listenPort, ParseUInt16)
    && Says(Values(body, "mtu"), i.mtu, ParseUInt16)
    && AllParsed(f, AllItems(Values(body, "address")), i.addresses)
    && Divides(f, AllItems(Values(body, "dns")), i.dns, i.dnsSearch)
  }

  ghost predicate SaysPeer(f: Formats, body: seq<Line>, p: Peer) {
    && OnlyKeys(body, {"publickey", "presharedkey", "allowedips", "endpoint", "persistentkeepalive"})
    && Says(Values(body, "publickey"), Some(p.publicKey), f.key.parse)
    && Says(Values(body, "presharedkey"), p.preSharedKey, f.key.parse)
    && Says(Values(body, "endpoint"), p.endpoint, f.endpoint.parse)
    && Says(Values(body, "persistentkeepalive"), p.persistentKeepAlive, ParseUInt16)
    && AllParsed(f, AllItems(Values(body, "allowedips")), p.allowedIPs)
  }

  lemma FieldMeans<T>(body: seq<Line>, key: string, x: Option<T>, parse: string -> Option<T>)
    requires |Values(body, key)| <= 1
    ensures Field(Attributes(body), key, parse) == Some(x) <==> Says(Values(body, key), x, parse)
  {
    KeysHaveValues(body);
    var values := Values(body, key);
    if values != [] {
      assert values == [values[0]];
      JoinOne(values[0]);
    }
    hide Values, Join, Keys;
  }

  lemma RangesFieldMeans(f: Formats, body: seq<Line>, key: string, ranges: seq<Range>)
    ensures RangesField(f, Attributes(body), key) == Some(ranges) <==> AllParsed(f, AllItems(Values(body, key)), ranges)
  {
    KeysHaveValues(body);
    var values := Values(body, key);
    if values != [] {
      ItemsOfList(values);
      RangesMeans(f, AllItems(values), ranges);
    }
    hide Values, Join, Keys, Items, ParseRanges;
  }

  lemma DnsItemsMeans(body: seq<Line>)
    ensures DnsItems(Attributes(body)) == AllItems(Values(body, "dns"))
  {
    KeysHaveValues(body);
    var values := Values(body, "dns");
    if values != [] {
      ItemsOfList(values);
    }
    hide Values, Join, Keys, Items;
  }

  lemma InterfaceOfMeans(f: Formats, body: seq<Line>, i: Interface)
    requires |Values(body, "privatekey")| <= 1 && |Values(body, "listenport")| <= 1 && |Values(body, "mtu")| <= 1
    ensures InterfaceOf(f, Attributes(body)) == Some(i) <==>
            && Says(Values(body, "privatekey"), Some(i.privateKey), f.key.parse)
            && Says(Values(body, "listenport"), i.listenPort, ParseUInt16)
            && Says(Values(body, "mtu"), i.mtu, ParseUInt16)
            && AllParsed(f, AllItems(Values(body, "address")), i.addresses)
            && Divides(f, AllItems(Values(body, "dns")), i.dns, i.dnsSearch)
  {
    hide Values, Attributes, Says, AllParsed, Divides, Items, AllItems, Field, RangesField, DnsItems, Servers, Domains, ParseUInt16;
    FieldMeans(body, "privatekey", Some(i.privateKey), f.key.parse);
    FieldMeans(body, "listenport", i.listenPort, ParseUInt16);
    FieldMeans(body, "mtu", i.mtu, ParseUInt16);
    RangesFieldMeans(f, body, "address", i.addresses);
    DnsItemsMeans(body);
    DividesMeans(f, AllItems(Values(body, "dns")), i.dns, i.dnsSearch);
    MissingMeans(body, "privatekey", f.key.parse);
  }

  lemma MissingMeans<T>(body: seq<Line>, key: string, parse: string -> Option<T>)
    ensures Field(Attributes(body), key, parse) == Some(None) <==> Values(body, key) == []
  {
    KeysHaveValues(body);
    hide Values, Join, Keys;
  }

  lemma PeerOfMeans(f: Formats, body: seq<Line>, p: Peer)
    requires |Values(body, "publickey")| <= 1 && |Values(body, "presharedkey")| <= 1
    requires |Values(body, "endpoint")| <= 1 && |Values(body, "persistentkeepalive")| <= 1
    ensures PeerOf(f, Attributes(body)) == Some(p) <==>
            && Says(Values(body, "publickey"), Some(p.publicKey), f.key.parse)
            && Says(Values(body, "presharedkey"), p.preSharedKey, f.key.parse)
            && Says(Values(body, "endpoint"), p.endpoint, f.endpoint.parse)
            && Says(Values(body, "persistentkeepalive"), p.persistentKeepAlive, ParseUInt16)
            && AllParsed(f, AllItems(Values(body, "allowedips")), p.allowedIPs)
  {
    hide Values, Attributes, Says, AllParsed, Items, AllItems, Field, RangesField, ParseUInt16;
    FieldMeans(body, "publickey", Some(p.publicKey), f.key.parse);
    FieldMeans(body, "presharedkey", p.preSharedKey, f.key.parse);
    FieldMeans(body, "endpoint", p.endpoint, f.endpoint.parse);
    FieldMeans(body, "persistentkeepalive", p.persistentKeepAlive, ParseUInt16);
    RangesFieldMeans(f, body, "allowedips", p.allowedIPs);
    MissingMeans(body, "publickey", f.key.parse);
  }

  lemma TidyExactly(f: Formats, peer: bool, body: seq<Line>)
    ensures NoRepeats(body) && KnownKeys(peer, body) <==> OnceEach(body) && OnlyKnown(peer, body)
  {
    RepeatsAreSeveralValues(body);
    KnownKeysHaveValues(peer, body);
    hide OnceEach, OnlyKnown, NoRepeats, KnownKeys;
  }

  /** An interface section is read as an interface if and only if its lines say just that: known keys only, at most
      one line for each key that is no list, and every value the field. */
  lemma InterfaceMeans(f: Formats, body: seq<Line>, i: Interface)
    ensures PartOf(f, Section(false, body)) == Some(InterfacePart(i)) <==> SaysInterface(f, body, i)
  {
    TidyExactly(f, false, body);
    hide Values, Attributes, AllParsed, Divides, AllItems, ParseUInt16, InterfaceOf, PeerOf, NoRepeats, KnownKeys;
    if OnceEach(body) {
      InterfaceOfMeans(f, body, i);
    }
    if SaysInterface(f, body, i) {
      assert OnlyKnown(false, body);
      forall key | key !in REPEATABLE
        ensures |Values(body, key)| <= 1
      {
        if Values(body, key) != [] {
          assert key in {"privatekey", "listenport", "mtu"};
        }
      }
    }
  }

  lemma PeerMeans(f: Formats, body: seq<Line>, p: Peer)
    ensures PartOf(f, Section(true, body)) == Some(PeerPart(p)) <==> SaysPeer(f, body, p)
  {
    TidyExactly(f, true, body);
    hide Values, Attributes, AllParsed, AllItems, ParseUInt16, InterfaceOf, PeerOf, NoRepeats, KnownKeys;
    if OnceEach(body) {
      PeerOfMeans(f, body, p);
    }
    if SaysPeer(f, body, p) {
      assert OnlyKnown(true, body);
      forall key | key !in REPEATABLE
        ensures |Values(body, key)| <= 1
      {
        if Values(body, key) != [] {
          assert key in {"publickey", "presharedkey", "endpoint", "persistentkeepalive"};
        }
      }
    }
  }

  // ----- a whole text -----

  /** The sections are the text cut at its headers; only a header on the last line goes. */
  function Uncut(sections: seq<Section>): seq<Line> {
    if sections == [] then [] else [Header(sections[0].peer)] + sections[0].body + Uncut(sections[1..])
  }

  function LastIfHeader(lines: seq<Line>): seq<Line> {
    if EndsWithHeader(lines) then [lines[|lines| - 1]] else []
  }

  ghost predicate IsPartition(lines: seq<Line>) {
    && lines == UpToHeader(lines) + Uncut(Sections(lines)) + LastIfHeader(lines)
    && NoHeader(UpToHeader(lines))
    && forall k :: 0 <= k < |Sections(lines)| ==> NoHeader(Sections(lines)[k].body)
  }

  lemma {:induction false} SectionsPartition(lines: seq<Line>)
    ensures IsPartition(lines)
  {
    hide IsPartition;
    if lines == [] {
      NothingIsPartition();
    } else {
      var first, rest := lines[0], lines[1..];
      assert lines == [first] + rest;
      SectionsPartition(rest);
      if first.Header? {
        HeaderPartition(first, rest);
      } else {
        LinePartition(first, rest);
      }
    }
  }

  lemma NothingIsPartition()
    ensures IsPartition([])
  {
    NoneUpToHeader([]);
    CutNothing();
  }

  lemma LinePartition(first: Line, rest: seq<Line>)
    requires !first.Header? && IsPartition(rest)
    ensures IsPartition([first] + rest)
  {
    hide Sections, UpToHeader, Uncut;
    SectionsSkip(first, rest);
    assert LastIfHeader([first] + rest) == LastIfHeader(rest);
  }

  lemma HeaderPartition(first: Line, rest: seq<Line>)
    requires first.Header? && IsPartition(rest)
    ensures IsPartition([first] + rest)
  {
    hide Sections, UpToHeader, Uncut, Cut;
    NoneUpToHeader([first] + rest);
    if rest == [] {
      CutHeader(first);
      UncutNothing();
      assert [first] + rest == [] + [] + [first];
    } else {
      FirstSection(first, rest);
      var body, others := UpToHeader(rest), Sections(rest);
      UncutFirst(Section(first.peer, body), others);
      assert LastIfHeader([first] + rest) == LastIfHeader(rest);
      assert [first] + rest == [] + ([first] + body + Uncut(others)) + LastIfHeader(rest);
    }
  }

  lemma UncutNothing()
    ensures Uncut([]) == []
  {
  }

  lemma UncutFirst(section: Section, others: seq<Section>)
    ensures Uncut([section] + others) == [Header(section.peer)] + section.body + Uncut(others)
  {
  }

  lemma {:induction false} PartsMeans(f: Formats, sections: seq<Section>, parts: seq<Part>)
    ensures Parts(f, sections) == Some(parts) <==>
            |parts| == |sections| && forall i :: 0 <= i < |sections| ==> PartOf(f, sections[i]) == Some(parts[i])
  {
    hide PartOf;
    if sections != [] {
      var n := |sections| - 1;
      if |parts| == |sections| {
        PartsMeans(f, sections[..n], parts[..n]);
        assert parts == parts[..n] + [parts[n]];
      }
      if Parts(f, sections) == Some(parts) {
        var before := Parts(f, sections[..n]).value;
        PartsMeans(f, sections[..n], before);
        assert parts[..n] == before;
      }
    }
  }

  predicate AllPeers(parts: seq<Part>, peers: seq<Peer>) {
    |peers| == |parts| && forall i :: 0 <= i < |parts| ==> parts[i] == PeerPart(peers[i])
  }

  predicate InterfaceAt(parts: seq<Part>, k: int, i: Interface, peers: seq<Peer>) {
    && 0 <= k < |parts| && parts[k] == InterfacePart(i) && |peers| == |parts| - 1
    && (forall j :: 0 <= j < k ==> parts[j] == PeerPart(peers[j]))
    && (forall j :: k < j < |parts| ==> parts[j] == PeerPart(peers[j - 1]))
  }

  lemma {:induction false} AllPeersMeans(parts: seq<Part>, peers: seq<Peer>)
    ensures Interfaces(parts) == [] && Peers(parts) == peers <==> AllPeers(parts, peers)
  {
    hide AllPeers;
    if parts == [] {
      NoPartsNoPeers(peers);
    } else {
      var front, last := parts[..|parts| - 1], parts[|parts| - 1];
      assert parts == front + [last];
      if peers == [] {
        NoPeers(front, last);
      } else {
        var before, p := peers[..|peers| - 1], peers[|peers| - 1];
        assert peers == before + [p];
        AllPeersMeans(front, before);
        AllPeersNext(front, last, before, p);
        if last.PeerPart? {
          SameEnds(Peers(front), last.peer, before, p);
        }
      }
    }
  }

  lemma NoPartsNoPeers(peers: seq<Peer>)
    ensures AllPeers([], peers) <==> peers == []
  {
  }

  lemma NoPeers(front: seq<Part>, last: Part)
    ensures !AllPeers(front + [last], [])
  {
  }

  lemma AllPeersNext(front: seq<Part>, last: Part, before: seq<Peer>, p: Peer)
    ensures AllPeers(front + [last], before + [p]) <==> AllPeers(front, before) && last == PeerPart(p)
  {
    var parts, peers := front + [last], before + [p];
    if AllPeers(parts, peers) {
      assert parts[|front|] == last && peers[|before|] == p;
      assert forall i :: 0 <= i < |front| ==> parts[i] == front[i] && peers[i] == before[i];
    }
  }

  ghost predicate HasInterface(parts: seq<Part>, i: Interface, peers: seq<Peer>) {
    exists k :: InterfaceAt(parts, k, i, peers)
  }

  lemma {:induction false} OneInterfaceMeans(parts: seq<Part>, i: Interface, peers: seq<Peer>)
    ensures Interfaces(parts) == [i] && Peers(parts) == peers <==> HasInterface(parts, i, peers)
  {
    hide HasInterface, InterfaceAt, AllPeers;
    if parts == [] {
      NoParts(i, peers);
    } else {
      var front, last := parts[..|parts| - 1], parts[|parts| - 1];
      assert parts == front + [last];
      if last.InterfacePart? {
        AllPeersMeans(front, peers);
        InterfaceLast(front, last, i, peers);
        SameEnds(Interfaces(front), last.interface, [], i);
      } else if peers == [] {
        NoPeerLast(front, last, i);
      } else {
        var before, p := peers[..|peers| - 1], peers[|peers| - 1];
        assert peers == before + [p];
        OneInterfaceMeans(front, i, before);
        PeerLast(front, last, i, before, p);
        SameEnds(Peers(front), last.peer, before, p);
      }
    }
  }

  lemma SameEnds<T>(a: seq<T>, x: T, b: seq<T>, y: T)
    ensures a + [x] == b + [y] <==> a == b && x == y
  {
    if a + [x] == b + [y] {
      assert |a| == |b| && (a + [x])[|a|] == x;
      assert (a + [x])[..|a|] == a && (b + [y])[..|b|] == b;
    }
  }

  lemma NoParts(i: Interface, peers: seq<Peer>)
    ensures !HasInterface([], i, peers)
  {
  }

  lemma InterfaceLast(front: seq<Part>, last: Part, i: Interface, peers: seq<Peer>)
    requires last.InterfacePart?
    ensures HasInterface(front + [last], i, peers) <==> last.interface == i && AllPeers(front, peers)
  {
    var parts, n := front + [last], |front|;
    if last.interface == i && AllPeers(front, peers) {
      assert InterfaceAt(parts, n, i, peers);
    }
    if k :| InterfaceAt(parts, k, i, peers) {
      assert parts[n] == last;
    }
  }

  lemma NoPeerLast(front: seq<Part>, last: Part, i: Interface)
    requires last.PeerPart?
    ensures !HasInterface(front + [last], i, [])
  {
    assert (front + [last])[|front|] == last;
  }

  lemma PeerLast(front: seq<Part>, last: Part, i: Interface, before: seq<Peer>, p: Peer)
    requires last.PeerPart?
    ensures HasInterface(front + [last], i, before + [p]) <==> last.peer == p && HasInterface(front, i, before)
  {
    var parts, peers := front + [last], before + [p];
    if last.peer == p && HasInterface(front, i, before) {
      var k :| InterfaceAt(front, k, i, before);
      assert InterfaceAt(parts, k, i, peers);
    }
    if HasInterface(parts, i, peers) {
      var k :| InterfaceAt(parts, k, i, peers);
      InterfaceAtFront(front, last, k, i, before, p);
    }
  }

  lemma InterfaceAtFront(front: seq<Part>, last: Part, k: int, i: Interface, before: seq<Peer>, p: Peer)
    requires last.PeerPart? && InterfaceAt(front + [last], k, i, before + [p])
    ensures last.peer == p && InterfaceAt(front, k, i, before)
  {
    var parts, peers := front + [last], before + [p];
    assert parts[|front|] == last && peers[|before|] == p;
    assert forall j :: 0 <= j < |front| ==> parts[j] == front[j];
    assert forall j :: 0 <= j < |before| ==> peers[j] == before[j];
  }

  /** Section k says the interface and the others, in order, the peers. */
  ghost predicate Describe(f: Formats, sections: seq<Section>, k: int, c: Tunnel) {
    && 0 <= k < |sections| && |c.peers| == |sections| - 1
    && !sections[k].peer && SaysInterface(f, sections[k].body, c.interface)
    && (forall j :: 0 <= j < k ==> sections[j].peer && SaysPeer(f, sections[j].body, c.peers[j]))
    && (forall j :: k < j < |sections| ==> sections[j].peer && SaysPeer(f, sections[j].body, c.peers[j - 1]))
  }

  lemma SaysItsPart(f: Formats, section: Section)
    ensures forall i :: PartOf(f, section) == Some(InterfacePart(i)) <==> !section.peer && SaysInterface(f, section.body, i)
    ensures forall p :: PartOf(f, section) == Some(PeerPart(p)) <==> section.peer && SaysPeer(f, section.body, p)
  {
    hide PartOf, SaysInterface, SaysPeer;
    assert section == Section(section.peer, section.body);
    forall i
      ensures PartOf(f, section) == Some(InterfacePart(i)) <==> !section.peer && SaysInterface(f, section.body, i)
    {
      if section.peer {
        NotOfKind(f, section);
      } else {
        InterfaceMeans(f, section.body, i);
      }
    }
    forall p
      ensures PartOf(f, section) == Some(PeerPart(p)) <==> section.peer && SaysPeer(f, section.body, p)
    {
      if section.peer {
        PeerMeans(f, section.body, p);
      } else {
        NotOfKind(f, section);
      }
    }
  }

  lemma NotOfKind(f: Formats, section: Section)
    ensures PartOf(f, section).Some? ==> (PartOf(f, section).value.PeerPart? <==> section.peer)
  {
  }

  lemma DescribeParts(f: Formats, sections: seq<Section>, k: int, c: Tunnel)
    ensures Describe(f, sections, k, c) <==>
            exists parts :: Parts(f, sections) == Some(parts) && InterfaceAt(parts, k, c.interface, c.peers)
  {
    hide PartOf, SaysInterface, SaysPeer, Parts;
    forall j | 0 <= j < |sections|
      ensures forall i :: PartOf(f, sections[j]) == Some(InterfacePart(i)) <==> !sections[j].peer && SaysInterface(f, sections[j].body, i)
      ensures forall p :: PartOf(f, sections[j]) == Some(PeerPart(p)) <==> sections[j].peer && SaysPeer(f, sections[j].body, p)
    {
      SaysItsPart(f, sections[j]);
    }
    if Describe(f, sections, k, c) {
      var parts := seq(|sections|, j requires 0 <= j < |sections| =>
        if j == k then InterfacePart(c.interface) else PeerPart(c.peers[if j < k then j else j - 1]));
      PartsMeans(f, sections, parts);
      assert InterfaceAt(parts, k, c.interface, c.peers);
    }
    if parts :| Parts(f, sections) == Some(parts) && InterfaceAt(parts, k, c.interface, c.peers) {
      PartsMeans(f, sections, parts);
    }
  }

  /** What a text means, exactly: no line is invalid, before the first section no key comes twice that is no list,
      just one section is an interface and says it, the others say the peers in order, and their keys differ. */
  lemma MeaningExactly(f: Formats, lines: seq<Line>, c: Tunnel)
    ensures Meaning(f, lines) == Some(c) <==>
            && (forall i :: 0 <= i < |lines| ==> !lines[i].Invalid?)
            && OnceEach(UpToHeader(lines))
            && (exists k :: Describe(f, Sections(lines), k, c))
            && (forall i, j :: 0 <= i < j < |c.peers| ==> c.peers[i].publicKey != c.peers[j].publicKey)
  {
    var sections := Sections(lines);
    RepeatsAreSeveralValues(UpToHeader(lines));
    hide OnceEach, NoRepeats, Sections, UpToHeader, Describe, Parts, InterfaceAt, Interfaces, Peers;
    if exists k :: Describe(f, sections, k, c) {
      var k :| Describe(f, sections, k, c);
      DescribeParts(f, sections, k, c);
      assert HasInterface(Parts(f, sections).value, c.interface, c.peers);
      OneInterfaceMeans(Parts(f, sections).value, c.interface, c.peers);
    }
    if Meaning(f, lines) == Some(c) {
      var parts := Parts(f, sections).value;
      var interfaces := Interfaces(parts);
      assert interfaces == [interfaces[0]];
      OneInterfaceMeans(parts, c.interface, c.peers);
      var k :| InterfaceAt(parts, k, c.interface, c.peers);
      DescribeParts(f, sections, k, c);
    }
  }
}
