/** Reading undoes writing, for exactly the well-formed configurations. */
module WgQuickInverse {
  import opened Options
  import opened ConfigText
  import opened WgQuick
  import opened WgQuickLines
  import opened WgQuickItems
  import opened WgQuickReader
  import opened WgQuickRoundTrip

  // ----- the sections of a written text -----

  function PeerSections(f: Formats, peers: seq<Peer>): (r: seq<Section>)
    ensures |r| == |peers| && forall i :: 0 <= i < |r| ==> r[i] == Section(true, PeerBody(f, peers[i]))
  {
    if peers == [] then [] else [Section(true, PeerBody(f, peers[0]))] + PeerSections(f, peers[1..])
  }

  lemma FieldLinesBody(fields: seq<FieldText>)
    ensures NoHeader(FieldLines(fields)) && !SomeInvalid(FieldLines(fields))
  {
    FieldLinesMeaning(fields);
    hide FieldLines;
    assert forall i :: 0 <= i < |FieldLines(fields)| ==> FieldLines(fields)[i] in FieldLines(fields);
  }

  lemma {:induction false} FirstFieldShows(fields: seq<FieldText>)
    requires fields != [] && fields[0].value.Some?
    ensures FieldLines(fields) != []
  {
    if |fields| > 1 {
      FirstFieldShows(fields[..|fields| - 1]);
    }
  }

  lemma BodiesAreNotEmpty(f: Formats)
    ensures forall i :: InterfaceBody(f, i) != [] && NoHeader(InterfaceBody(f, i)) && !SomeInvalid(InterfaceBody(f, i))
    ensures forall p :: PeerBody(f, p) != [] && NoHeader(PeerBody(f, p)) && !SomeInvalid(PeerBody(f, p))
  {
    hide FieldLines, NoHeader, SomeInvalid, TextOf, Listed, DnsTexts;
    forall i
      ensures InterfaceBody(f, i) != [] && NoHeader(InterfaceBody(f, i)) && !SomeInvalid(InterfaceBody(f, i))
    {
      FirstFieldShows(InterfaceFields(f, i));
      FieldLinesBody(InterfaceFields(f, i));
    }
    forall p
      ensures PeerBody(f, p) != [] && NoHeader(PeerBody(f, p)) && !SomeInvalid(PeerBody(f, p))
    {
      FirstFieldShows(PeerFields(f, p));
      FieldLinesBody(PeerFields(f, p));
    }
  }

  lemma HeaderThenBody(header: Line, body: seq<Line>, rest: seq<Line>)
    requires header.Header? && NoHeader(body) && body != [] && (rest == [] || rest[0].Header?)
    ensures Sections([header] + body + rest) == [Section(header.peer, body)] + Sections(rest)
    ensures UpToHeader([header] + body + rest) == []
  {
    NoneUpToHeader([header] + body + rest);
    NoneUpToHeader(rest);
    CutNext(header, body, rest);
    hide Cut, Sections, UpToHeader, NoHeader;
    assert body + [] == body;
  }

  lemma {:induction false} PeersSections(f: Formats, peers: seq<Peer>)
    ensures Sections(PeersBody(f, peers)) == PeerSections(f, peers)
    ensures PeersBody(f, peers) == [] || PeersBody(f, peers)[0].Header?
    ensures !SomeInvalid(PeersBody(f, peers))
  {
    NoneUpToHeader([]);
    CutNothing();
    if peers != [] {
      PeersSections(f, peers[1..]);
      BodiesAreNotEmpty(f);
      hide Cut, Sections, UpToHeader, NoHeader, PeerBody;
      var body, rest := PeerBody(f, peers[0]), PeersBody(f, peers[1..]);
      HeaderThenBody(Header(true), body, rest);
      NoneInvalid([Header(true)], body);
      NoneInvalid([Header(true)] + body, rest);
    }
  }

  lemma NoneInvalid(a: seq<Line>, b: seq<Line>)
    requires !SomeInvalid(a) && !SomeInvalid(b)
    ensures !SomeInvalid(a + b)
  {
    forall i | 0 <= i < |a + b|
      ensures !(a + b)[i].Invalid?
    {
      if i < |a| {
        assert (a + b)[i] == a[i];
      } else {
        assert (a + b)[i] == b[i - |a|];
      }
    }
  }

  // ----- their parts -----

  function AllParts(i: Interface, peers: seq<Peer>): seq<Part> {
    if peers == [] then [InterfacePart(i)] else AllParts(i, peers[..|peers| - 1]) + [PeerPart(peers[|peers| - 1])]
  }

  lemma {:induction false} PartsOfWritten(f: Formats, i: Interface, peers: seq<Peer>)
    requires Lawful(f) && OneLineDomains(i)
    ensures Parts(f, [Section(false, InterfaceBody(f, i))] + PeerSections(f, peers)) == Some(AllParts(Reread(f, i), peers))
  {
    var first := Section(false, InterfaceBody(f, i));
    hide PartOf, Lawful, OneLineDomains, InterfaceBody, PeerBody, Reread;
    if peers == [] {
      InterfaceSection(f, i);
      PartsOfOne(f, first);
      assert [first] + PeerSections(f, peers) == [first];
    } else {
      var before, last := peers[..|peers| - 1], peers[|peers| - 1];
      PartsOfWritten(f, i, before);
      PeerSection(f, last);
      var all := [first] + PeerSections(f, peers);
      assert all == [first] + PeerSections(f, before) + [Section(true, PeerBody(f, last))];
      PartsNext(f, [first] + PeerSections(f, before), Section(true, PeerBody(f, last)));
    }
  }

  lemma PartsOfOne(f: Formats, section: Section)
    requires PartOf(f, section).Some?
    ensures Parts(f, [section]) == Some([PartOf(f, section).value])
  {
    hide PartOf;
    PartsNext(f, [], section);
    assert [] + [section] == [section];
  }

  lemma {:induction false} AllPartsMeaning(i: Interface, peers: seq<Peer>)
    ensures Interfaces(AllParts(i, peers)) == [i] && Peers(AllParts(i, peers)) == peers
  {
    if peers == [] {
      assert [InterfacePart(i)][..0] == [];
    } else {
      var before, last := peers[..|peers| - 1], peers[|peers| - 1];
      AllPartsMeaning(i, before);
      var all := AllParts(i, peers);
      assert all[..|all| - 1] == AllParts(i, before);
      assert before + [last] == peers;
    }
  }

  function WrittenLines(f: Formats, c: Tunnel): seq<Line> {
    [Header(false)] + InterfaceBody(f, c.interface) + PeersBody(f, c.peers)
  }

  lemma WrittenSections(f: Formats, c: Tunnel)
    ensures !SomeInvalid(WrittenLines(f, c)) && UpToHeader(WrittenLines(f, c)) == []
    ensures Sections(WrittenLines(f, c)) ==
            [Section(false, InterfaceBody(f, c.interface))] + PeerSections(f, c.peers)
  {
    PeersSections(f, c.peers);
    BodiesAreNotEmpty(f);
    hide InterfaceBody, PeerBody, Sections, UpToHeader, PeersBody, PeerSections, NoHeader;
    var body, rest := InterfaceBody(f, c.interface), PeersBody(f, c.peers);
    NoneInvalid([Header(false)], body);
    NoneInvalid([Header(false)] + body, rest);
    HeaderThenBody(Header(false), body, rest);
  }

  lemma MeaningOfParts(f: Formats, lines: seq<Line>, sections: seq<Section>, parts: seq<Part>)
    requires !SomeInvalid(lines) && UpToHeader(lines) == [] && Sections(lines) == sections
    requires Parts(f, sections) == Some(parts)
    ensures Meaning(f, lines) == Assemble(parts)
  {
    assert NoRepeats([]);
    hide SomeInvalid, UpToHeader, Sections, Parts, Assemble, NoRepeats;
  }

  /** What a written configuration means, whether or not it is the configuration itself. */
  lemma MeaningOfWritten(f: Formats, c: Tunnel)
    requires Lawful(f) && OneLineDomains(c.interface)
    ensures Meaning(f, ReadLines(f, Written(f, c))) ==
            if DistinctKeys(c.peers) then Some(Tunnel(Reread(f, c.interface), c.peers)) else None
  {
    hide Lawful, OneLineDomains, InterfaceBody, PeerBody, Reread, Sections, UpToHeader, Parts, Written, ReadLines;
    hide Interfaces, Peers, PeersBody, SomeInvalid, DistinctKeys, AllParts, PeerSections, Meaning;
    var i := Reread(f, c.interface);
    ReadWritten(f, c);
    WrittenSections(f, c);
    PartsOfWritten(f, c.interface, c.peers);
    MeaningOfParts(f, WrittenLines(f, c), Sections(WrittenLines(f, c)), AllParts(i, c.peers));
    AllPartsMeaning(i, c.peers);
  }

  // ----- the DNS line -----

  predicate GoodDomains(f: Formats, i: Interface) {
    forall k :: 0 <= k < |i.dnsSearch| ==> IsDomain(f, i.dnsSearch[k])
  }

  lemma DnsTextsAreItems(f: Formats, i: Interface)
    requires Reads(f.server) && GoodDomains(f, i)
    ensures AreItems(DnsTexts(f, i))
    ensures forall k :: 0 <= k < |i.dns| ==> DnsTexts(f, i)[k] != ""
  {
    var texts := DnsTexts(f, i);
    TextsAreTokens(f.server, i.dns);
    forall k | 0 <= k < |texts|
      ensures IsItem(texts[k])
    {
      if k < |i.dns| {
        TokenIsItem(texts[k]);
      } else {
        assert texts[k] == i.dnsSearch[k - |i.dns|];
      }
    }
  }

  /** The DNS line is read back as it was exactly when its first and last items are not empty. */
  lemma RereadIsSame(f: Formats, i: Interface)
    requires Reads(f.server) && GoodDomains(f, i)
    ensures Reread(f, i) == i <==> KeepsEnds(i)
  {
    var texts := DnsTexts(f, i);
    var n := |i.dnsSearch|;
    DnsTextsAreItems(f, i);
    DnsReadBack(f, i.dns, i.dnsSearch);
    DnsCount(f, DnsRead(f, i));
    assert n > 0 ==> texts[|texts| - 1] == i.dnsSearch[n - 1];
    assert i.dns == [] && n > 0 ==> texts[0] == i.dnsSearch[0];
    if texts != [] {
      if KeepsEnds(i) {
        JoinTrimmed(texts);
        TrimKeeps(Join(", ", texts));
        ItemsOfJoin(texts);
      } else {
        FewItems(texts);
      }
    }
    hide Trim, Items, Servers, Domains, Texts, AreItems, IsDomain, Reads;
  }

  // ----- what is read is always fit to be written, but for the ends of the DNS line -----

  predicate OneLineValues(lines: seq<Line>) {
    forall i :: 0 <= i < |lines| && lines[i].Attribute? ==> OneLine(lines[i].value)
  }

  lemma OneLinePart(s: string, t: string)
    requires OneLine(s) && forall c :: c in t ==> c in s
    ensures OneLine(t)
  {
    hide IsNewline;
    forall i | 0 <= i < |t|
      ensures t[i] != '#' && !IsNewline(t[i])
    {
      assert t[i] in s;
    }
  }

  lemma ValueIsOneLine(f: Formats, line: string)
    requires Without(IsNewline, line)
    ensures Classify(f, line).Attribute? ==> OneLine(Classify(f, line).value)
  {
    var before := line[..Find('#', line)];
    var text := Clean(line);
    TrimMeaning(before);
    assert OneLine(before);
    OneLinePart(before, text);
    var equals := Find('=', text);
    if equals < |text| {
      TrimMeaning(text[equals + 1..]);
      OneLinePart(text[equals + 1..], Trim(text[equals + 1..]));
    }
  }

  lemma ReadLinesOneLine(f: Formats, text: string)
    ensures OneLineValues(ReadLines(f, text))
  {
    var pieces := Pieces(IsNewline, text);
    PiecesAreClean(IsNewline, text);
    hide Classify, Pieces, Without, OneLine;
    forall i | 0 <= i < |pieces|
      ensures Classify(f, pieces[i]).Attribute? ==> OneLine(Classify(f, pieces[i]).value)
    {
      assert pieces[i] in pieces;
      ValueIsOneLine(f, pieces[i]);
    }
  }

  lemma {:induction false} CutOneLine(lines: seq<Line>)
    requires OneLineValues(lines) && (lines == [] || lines[0].Header?)
    ensures forall i :: 0 <= i < |Cut(lines)| ==> OneLineValues(Cut(lines)[i].body)
    decreases |lines|
  {
    hide OneLine;
    if |lines| > 1 {
      var body := UpToHeader(lines[1..]);
      CutOneLine(lines[1 + |body|..]);
    }
  }

  lemma {:induction false} ValuesOneLine(body: seq<Line>, key: string)
    requires OneLineValues(body)
    ensures forall i :: 0 <= i < |Values(body, key)| ==> OneLine(Values(body, key)[i])
  {
    hide OneLine;
    if body != [] {
      ValuesOneLine(body[..|body| - 1], key);
    }
  }

  lemma ItemsAreItems(s: string)
    requires OneLine(s)
    ensures forall t :: t in Items(s) ==> IsItem(t) && OneLine(t)
  {
    var pieces := Pieces(IsComma, s);
    PiecesAreClean(IsComma, s);
    hide IsNewline, IsSpace, Trim, Pieces;
    forall t | t in Items(s)
      ensures IsItem(t) && OneLine(t)
    {
      var i :| 0 <= i < |pieces| && t == Trim(pieces[i]);
      assert pieces[i] in pieces;
      TrimMeaning(pieces[i]);
      OneLinePart(s, t);
      assert forall k :: 0 <= k < |t| ==> t[k] in pieces[i];
    }
  }

  lemma {:induction false} DomainsMeaning(f: Formats, items: seq<string>)
    ensures forall t :: t in Domains(f, items) ==> t in items && f.server.parse(t) == None
  {
    if items != [] {
      DomainsMeaning(f, items[..|items| - 1]);
    }
  }

  lemma CollatedDns(f: Formats, attributes: map<string, string>)
    requires InterfaceOf(f, attributes).Some?
    ensures InterfaceOf(f, attributes).value.dnsSearch == Domains(f, DnsItems(attributes))
  {
    hide DnsItems, Domains, Servers, Field, RangesField, ParseUInt16;
  }

  lemma DnsAttribute(body: seq<Line>)
    requires OneLineValues(body)
    ensures "dns" in Attributes(body) ==> OneLine(Attributes(body)["dns"])
  {
    hide OneLine, Join, Values;
    if "dns" in Attributes(body) {
      ValuesOneLine(body, "dns");
      OneLineJoin(",", Values(body, "dns")) by {
        CommaIsOneLine();
      }
    }
  }

  lemma CommaIsOneLine()
    ensures OneLine(",")
  {
  }

  lemma CollatedDomains(f: Formats, body: seq<Line>)
    requires OneLineValues(body) && InterfaceOf(f, Attributes(body)).Some?
    ensures GoodDomains(f, InterfaceOf(f, Attributes(body)).value)
  {
    hide Attributes, InterfaceOf, Domains, Items, IsTrimmed, OneLineValues;
    var attributes := Attributes(body);
    var i := InterfaceOf(f, attributes).value;
    var items := DnsItems(attributes);
    CollatedDns(f, attributes);
    DomainsMeaning(f, items);
    DnsAttribute(body);
    if "dns" in attributes {
      ItemsAreItems(attributes["dns"]);
    }
    forall k | 0 <= k < |i.dnsSearch|
      ensures IsDomain(f, i.dnsSearch[k])
    {
      assert i.dnsSearch[k] in Domains(f, items);
    }
  }

  lemma PartDomains(f: Formats, section: Section)
    requires PartOf(f, section).Some? && OneLineValues(section.body)
    ensures PartOf(f, section).value.InterfacePart? ==> GoodDomains(f, PartOf(f, section).value.interface)
  {
    hide Attributes, InterfaceOf, PeerOf, NoRepeats, KnownKeys, GoodDomains, OneLineValues;
    if !section.peer {
      CollatedDomains(f, section.body);
    }
  }

  lemma {:induction false} PartsDomains(f: Formats, sections: seq<Section>)
    requires Parts(f, sections).Some? && forall i :: 0 <= i < |sections| ==> OneLineValues(sections[i].body)
    ensures forall i :: i in Interfaces(Parts(f, sections).value) ==> GoodDomains(f, i)
  {
    if sections != [] {
      var before, last := sections[..|sections| - 1], sections[|sections| - 1];
      hide Interfaces, GoodDomains, PartOf, OneLineValues;
      PartsDomains(f, before);
      PartsNext(f, before, last);
      assert before + [last] == sections;
      PartDomains(f, last);
      hide Parts;
      forall i | i in Interfaces(Parts(f, sections).value)
        ensures GoodDomains(f, i)
      {
        if i !in Interfaces(Parts(f, before).value) {
          assert PartOf(f, last).value == InterfacePart(i);
        }
      }
    }
  }

  /** Whatever is read has trimmed search domains without separators, none of them the address of a server. */
  lemma ReadDomains(f: Formats, text: string)
    ensures var r := Meaning(f, ReadLines(f, text)); r.Some? ==> GoodDomains(f, r.value.interface)
  {
    var lines := ReadLines(f, text);
    ReadLinesOneLine(f, text);
    var rest := lines[|UpToHeader(lines)|..];
    CutOneLine(rest);
    if Meaning(f, lines).Some? {
      PartsDomains(f, Sections(lines));
      hide Parts, Interfaces, GoodDomains, Sections, UpToHeader, ReadLines, OneLineValues;
      var parts := Parts(f, Sections(lines)).value;
      assert Interfaces(parts)[0] in Interfaces(parts);
    }
  }

  /** The reader undoes the writer for a configuration exactly when it is well formed. */
  lemma ReadUndoesWrite(f: Formats, c: Tunnel)
    requires Lawful(f)
    ensures Meaning(f, ReadLines(f, Written(f, c))) == Some(c) <==> WellFormed(f, c)
  {
    hide Meaning, ReadLines, Written, KeepsEnds, DistinctKeys, IsDomain, Reread;
    ReadDomains(f, Written(f, c));
    if GoodDomains(f, c.interface) {
      GoodIsOneLine(f, c.interface);
      MeaningOfWritten(f, c);
      RereadIsSame(f, c.interface);
    }
  }

  lemma GoodIsOneLine(f: Formats, i: Interface)
    requires GoodDomains(f, i)
    ensures OneLineDomains(i)
  {
  }
}
