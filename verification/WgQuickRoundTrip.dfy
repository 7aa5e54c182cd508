/** Reading a written configuration: its lines, and what each of its sections is collated to. */
module WgQuickRoundTrip {
  import opened Options
  import opened ConfigText
  import opened WgQuick
  import opened WgQuickLines
  import opened WgQuickItems
  import opened WgQuickReader
  import WgQuickWriter

  // ----- one section -----

  function DnsRead(f: Formats, i: Interface): seq<string> {
    if DnsTexts(f, i) == [] then [] else Items(Trim(Join(", ", DnsTexts(f, i))))
  }

  /** What is read back for an interface: all the same, but perhaps for the DNS line. */
  function Reread(f: Formats, i: Interface): Interface {
    i.(dns := Servers(f, DnsRead(f, i)), dnsSearch := Domains(f, DnsRead(f, i)))
  }

  predicate OneLineDomains(i: Interface) {
    forall k :: 0 <= k < |i.dnsSearch| ==> OneLine(i.dnsSearch[k])
  }

  lemma FormatToken<T(!new)>(format: Format<T>, x: T)
    requires Reads(format)
    ensures IsToken(format.text(x)) && format.parse(format.text(x)) == Some(x)
    ensures OneLine(format.text(x)) && Trim(format.text(x)) == format.text(x)
  {
    TokenIsItem(format.text(x));
  }

  lemma PortToken(n: uint16)
    ensures IsToken(PortText(n)) && ParseUInt16(PortText(n)) == Some(n)
    ensures OneLine(PortText(n)) && Trim(PortText(n)) == PortText(n)
  {
    DecimalRoundTrip(n);
    TokenIsItem(PortText(n));
  }

  /** A field with a value of some format. */
  lemma OptionReadBack<T(!new)>(attributes: map<string, string>, key: string, format: Format<T>, x: Option<T>)
    requires Reads(format) && Lookup(attributes, key) == Trimmed(TextOf(x, format.text))
    ensures Field(attributes, key, format.parse) == Some(x)
    ensures x.Some? ==> OneLine(TextOf(x, format.text).value)
  {
    if x.Some? {
      FormatToken(format, x.value);
    }
    hide Trim, Reads;
  }

  lemma PortReadBack(attributes: map<string, string>, key: string, x: Option<uint16>)
    requires Lookup(attributes, key) == Trimmed(TextOf(x, PortText))
    ensures Field(attributes, key, ParseUInt16) == Some(x)
    ensures x.Some? ==> OneLine(TextOf(x, PortText).value)
  {
    if x.Some? {
      PortToken(x.value);
    }
    hide Trim, ParseUInt16, PortText;
  }

  lemma TextsAreTokens<T(!new)>(format: Format<T>, xs: seq<T>)
    requires Reads(format)
    ensures forall i :: 0 <= i < |xs| ==> IsToken(Texts(format, xs)[i])
  {
  }

  lemma RangesReadBackFrom(f: Formats, attributes: map<string, string>, key: string, xs: seq<Range>)
    requires Reads(f.range) && Lookup(attributes, key) == Trimmed(Listed(Texts(f.range, xs)))
    ensures RangesField(f, attributes, key) == Some(xs)
    ensures xs != [] ==> OneLine(Listed(Texts(f.range, xs)).value)
  {
    if xs != [] {
      TextsAreTokens(f.range, xs);
      ItemsOfTokens(Texts(f.range, xs));
      RangesReadBack(f, xs);
    }
    hide Trim, Items, ParseRanges, Join;
  }

  lemma DnsReadBackFrom(f: Formats, attributes: map<string, string>, i: Interface)
    requires Reads(f.server) && OneLineDomains(i)
    requires Lookup(attributes, "dns") == Trimmed(Listed(DnsTexts(f, i)))
    ensures DnsItems(attributes) == DnsRead(f, i)
    ensures DnsTexts(f, i) != [] ==> OneLine(Listed(DnsTexts(f, i)).value)
  {
    var texts := DnsTexts(f, i);
    TextsAreTokens(f.server, i.dns);
    forall k | 0 <= k < |texts|
      ensures OneLine(texts[k])
    {
      if k < |i.dns| {
        TokenIsItem(texts[k]);
      } else {
        assert texts[k] == i.dnsSearch[k - |i.dns|];
      }
    }
    OneLineJoin(", ", texts);
    hide Trim, Items, Join;
  }

  ghost predicate HasFields(attributes: map<string, string>, fields: seq<FieldText>) {
    forall k :: 0 <= k < |fields| ==> Lookup(attributes, fields[k].key) == Trimmed(fields[k].value)
  }

  lemma InterfaceReadBack(f: Formats, i: Interface, attributes: map<string, string>)
    requires Lawful(f) && OneLineDomains(i) && HasFields(attributes, InterfaceFields(f, i))
    ensures InterfaceOf(f, attributes) == Some(Reread(f, i))
    ensures OneLiners(InterfaceFields(f, i))
  {
    var fields := InterfaceFields(f, i);
    hide Lowers, Reads, Lookup, Trimmed, TextOf, Listed, Field, RangesField, DnsItems, DnsRead, OneLineDomains, PortText;
    hide ParseUInt16, OneLine, DnsTexts, Texts;
    assert forall k :: 0 <= k < 5 ==> Lookup(attributes, fields[k].key) == Trimmed(fields[k].value);
    assert fields[0].value == TextOf(Some(i.privateKey), f.key.text) by {
      SomeText(i.privateKey, f.key.text);
    }
    OptionReadBack(attributes, fields[0].key, f.key, Some(i.privateKey));
    PortReadBack(attributes, fields[1].key, i.listenPort);
    RangesReadBackFrom(f, attributes, fields[2].key, i.addresses);
    assert Lookup(attributes, fields[3].key) == Trimmed(fields[3].value);
    DnsReadBackFrom(f, attributes, i);
    PortReadBack(attributes, fields[4].key, i.mtu);
    OneLineFields(fields, f, i);
  }

  lemma SomeText<T>(x: T, text: T -> string)
    ensures TextOf(Some(x), text) == Some(text(x))
  {
  }

  lemma OneLineFields(fields: seq<FieldText>, f: Formats, i: Interface)
    requires fields == InterfaceFields(f, i)
    requires OneLine(f.key.text(i.privateKey))
    requires i.listenPort.Some? ==> OneLine(TextOf(i.listenPort, PortText).value)
    requires i.addresses != [] ==> OneLine(Listed(Texts(f.range, i.addresses)).value)
    requires DnsTexts(f, i) != [] ==> OneLine(Listed(DnsTexts(f, i)).value)
    requires i.mtu.Some? ==> OneLine(TextOf(i.mtu, PortText).value)
    ensures OneLiners(fields)
  {
    hide OneLine, Join, PortText;
  }

  lemma PeerReadBack(f: Formats, p: Peer, attributes: map<string, string>)
    requires Lawful(f) && HasFields(attributes, PeerFields(f, p))
    ensures PeerOf(f, attributes) == Some(p)
    ensures OneLiners(PeerFields(f, p))
  {
    var fields := PeerFields(f, p);
    hide Lowers, Reads, Lookup, Trimmed, TextOf, Listed, Field, RangesField, PortText, ParseUInt16, OneLine, Texts;
    assert forall k :: 0 <= k < 5 ==> Lookup(attributes, fields[k].key) == Trimmed(fields[k].value);
    assert fields[0].value == TextOf(Some(p.publicKey), f.key.text) by {
      SomeText(p.publicKey, f.key.text);
    }
    OptionReadBack(attributes, fields[0].key, f.key, Some(p.publicKey));
    OptionReadBack(attributes, fields[1].key, f.key, p.preSharedKey);
    RangesReadBackFrom(f, attributes, fields[2].key, p.allowedIPs);
    OptionReadBack(attributes, fields[3].key, f.endpoint, p.endpoint);
    PortReadBack(attributes, fields[4].key, p.persistentKeepAlive);
    OneLinePeerFields(fields, f, p);
  }

  lemma OneLinePeerFields(fields: seq<FieldText>, f: Formats, p: Peer)
    requires fields == PeerFields(f, p)
    requires OneLine(f.key.text(p.publicKey))
    requires p.preSharedKey.Some? ==> OneLine(TextOf(p.preSharedKey, f.key.text).value)
    requires p.allowedIPs != [] ==> OneLine(Listed(Texts(f.range, p.allowedIPs)).value)
    requires p.endpoint.Some? ==> OneLine(TextOf(p.endpoint, f.endpoint.text).value)
    requires p.persistentKeepAlive.Some? ==> OneLine(TextOf(p.persistentKeepAlive, PortText).value)
    ensures OneLiners(fields)
  {
    hide OneLine, Join, PortText;
  }

  lemma FieldsRead(fields: seq<FieldText>)
    requires DistinctFieldKeys(fields)
    ensures HasFields(Attributes(FieldLines(fields)), fields)
  {
    hide Lookup, Trimmed, FieldLines, Attributes;
    forall k | 0 <= k < |fields|
      ensures Lookup(Attributes(FieldLines(fields)), fields[k].key) == Trimmed(fields[k].value)
    {
      FieldsReadBack(fields, k);
    }
  }

  lemma {:induction false} FieldKeysKnown(fields: seq<FieldText>, peer: bool)
    requires forall i :: 0 <= i < |fields| ==> fields[i].key in if peer then PEER_KEYS else INTERFACE_KEYS
    ensures KnownKeys(peer, FieldLines(fields))
  {
    FieldLinesMeaning(fields);
    hide FieldLines;
    var lines := FieldLines(fields);
    forall i | 0 <= i < |lines|
      ensures lines[i].Attribute? && lines[i].key in if peer then PEER_KEYS else INTERFACE_KEYS
    {
      assert lines[i] in lines;
      var j :| 0 <= j < |fields| && fields[j].key == lines[i].key;
    }
  }

  function InterfaceBody(f: Formats, i: Interface): seq<Line> {
    FieldLines(InterfaceFields(f, i))
  }

  function PeerBody(f: Formats, p: Peer): seq<Line> {
    FieldLines(PeerFields(f, p))
  }

  ghost predicate IsSectionOf(peer: bool, fields: seq<FieldText>) {
    && DistinctFieldKeys(fields)
    && forall i :: 0 <= i < |fields| ==> fields[i].key in if peer then PEER_KEYS else INTERFACE_KEYS
  }

  lemma InterfaceKeysDiffer(f: Formats, i: Interface)
    ensures IsSectionOf(false, InterfaceFields(f, i))
  {
    hide TextOf, Listed, DnsTexts, Texts, PortText;
  }

  lemma PeerKeysDiffer(f: Formats, p: Peer)
    ensures IsSectionOf(true, PeerFields(f, p))
  {
    hide TextOf, Listed, Texts, PortText;
  }

  lemma FieldsMakeSection(peer: bool, fields: seq<FieldText>)
    requires IsSectionOf(peer, fields)
    ensures NoRepeats(FieldLines(fields)) && KnownKeys(peer, FieldLines(fields))
    ensures HasFields(Attributes(FieldLines(fields)), fields)
  {
    FieldsRead(fields);
    FieldKeysKnown(fields, peer);
    FieldLinesDistinct(fields);
  }

  lemma InterfaceSection(f: Formats, i: Interface)
    requires Lawful(f) && OneLineDomains(i)
    ensures PartOf(f, Section(false, InterfaceBody(f, i))) == Some(InterfacePart(Reread(f, i)))
    ensures OneLiners(InterfaceFields(f, i)) && Named(f, InterfaceFields(f, i))
  {
    hide Lowers, Reads, InterfaceFields;
    InterfaceNames(f, i) by {
      assert Lowers(f.lower);
    }
    hide InterfaceOf, Lawful, HasFields, Attributes, FieldLines, Named, OneLiners, InterfaceFields, NoRepeats, KnownKeys;
    hide IsSectionOf, OneLineDomains;
    InterfaceKeysDiffer(f, i);
    FieldsMakeSection(false, InterfaceFields(f, i));
    InterfaceReadBack(f, i, Attributes(InterfaceBody(f, i)));
  }

  lemma PeerSection(f: Formats, p: Peer)
    requires Lawful(f)
    ensures PartOf(f, Section(true, PeerBody(f, p))) == Some(PeerPart(p))
    ensures OneLiners(PeerFields(f, p)) && Named(f, PeerFields(f, p))
  {
    hide Lowers, Reads, PeerFields;
    PeerNames(f, p) by {
      assert Lowers(f.lower);
    }
    hide PeerOf, Lawful, HasFields, Attributes, FieldLines, Named, OneLiners, PeerFields, NoRepeats, KnownKeys;
    hide IsSectionOf;
    PeerKeysDiffer(f, p);
    FieldsMakeSection(true, PeerFields(f, p));
    PeerReadBack(f, p, Attributes(PeerBody(f, p)));
  }

  // ----- the lines of a whole text -----

  /** What the lines of the peers become when they are read. */
  function PeersBody(f: Formats, peers: seq<Peer>): seq<Line> {
    if peers == [] then [] else [Header(true)] + PeerBody(f, peers[0]) + PeersBody(f, peers[1..])
  }

  lemma NewlineFirst(line: string, lines: string, rest: string)
    ensures line + "\n" + lines + rest == line + ['\n'] + (lines + rest)
  {
  }

  lemma UnlinesFirst(lines: seq<string>)
    requires lines != []
    ensures Unlines(lines) == lines[0] + "\n" + Unlines(lines[1..])
  {
  }

  lemma PiecesOfLine(line: string, after: string)
    requires Without(IsNewline, line) && line != ""
    ensures Pieces(IsNewline, line + ['\n'] + after) == [line] + Pieces(IsNewline, after)
  {
    hide Pieces, Without;
    PiecesNext(IsNewline, line, '\n', after);
  }

  lemma ConsPieces(lines: seq<string>, rest: seq<string>)
    requires lines != []
    ensures [lines[0]] + (lines[1..] + rest) == lines + rest
  {
  }

  lemma {:induction false} PiecesUnlines(lines: seq<string>, rest: string)
    requires AreLines(lines)
    ensures Pieces(IsNewline, Unlines(lines) + rest) == lines + Pieces(IsNewline, rest)
  {
    hide Pieces, Without, IsNewline;
    if lines == [] {
      assert Unlines(lines) + rest == rest;
    } else {
      var first, others := lines[0], lines[1..];
      UnlinesFirst(lines);
      hide Unlines;
      PiecesUnlines(others, rest);
      NewlineFirst(first, Unlines(others), rest);
      PiecesOfLine(first, Unlines(others) + rest);
      ConsPieces(lines, Pieces(IsNewline, rest));
    }
  }

  lemma PiecesBlank(rest: string)
    ensures Pieces(IsNewline, "\n" + rest) == Pieces(IsNewline, rest)
  {
    PiecesNext(IsNewline, "", '\n', rest);
    assert "" + ['\n'] + rest == "\n" + rest;
  }

  lemma ReadShown(f: Formats, header: string, fields: seq<FieldText>, rest: string)
    requires Named(f, fields) && OneLiners(fields) && AreLines([header])
    ensures ReadLines(f, Unlines([header] + Shown(fields)) + rest) ==
            [Classify(f, header)] + FieldLines(fields) + ReadLines(f, rest)
  {
    ClassifyShown(f, fields);
    var lines := [header] + Shown(fields);
    hide Shown, FieldLines, Named, OneLiners, Classify, Without, Unlines;
    PiecesUnlines(lines, rest);
    ClassifySplit(f, lines, Pieces(IsNewline, rest));
    ClassifySplit(f, [header], Shown(fields));
    ClassifyOne(f, header);
  }

  lemma HeadersAreLines()
    ensures AreLines(["[Interface]"]) && AreLines(["[Peer]"])
  {
  }

  lemma PeersText(f: Formats, peers: seq<Peer>)
    requires peers != []
    ensures Unlines(PeersLines(f, peers)) ==
            "\n" + (Unlines(["[Peer]"] + Shown(PeerFields(f, peers[0]))) + Unlines(PeersLines(f, peers[1..])))
  {
    hide PeerFields, Shown, Unlines;
    var lines, rest := ["[Peer]"] + Shown(PeerFields(f, peers[0])), PeersLines(f, peers[1..]);
    assert PeersLines(f, peers) == [""] + (lines + rest);
    UnlinesBlank(lines + rest);
    WgQuickWriter.UnlinesSplit(lines, rest);
  }

  lemma {:induction false} ReadPeers(f: Formats, peers: seq<Peer>)
    requires Lawful(f)
    ensures ReadLines(f, Unlines(PeersLines(f, peers))) == PeersBody(f, peers)
  {
    if peers == [] {
      assert Pieces(IsNewline, "") == [];
    } else {
      ClassifyHeaders(f) by {
        assert Lowers(f.lower);
      }
      hide Shown, FieldLines, Named, OneLiners, Classify, PeerFields, AreLines, Lawful, PeersLines, Unlines;
      ReadPeers(f, peers[1..]);
      PeerSection(f, peers[0]);
      HeadersAreLines();
      PeersText(f, peers);
      var fields, rest := PeerFields(f, peers[0]), Unlines(PeersLines(f, peers[1..]));
      ReadShown(f, "[Peer]", fields, rest);
      PiecesBlank(Unlines(["[Peer]"] + Shown(fields)) + rest);
    }
  }

  lemma UnlinesBlank(lines: seq<string>)
    ensures Unlines([""] + lines) == "\n" + Unlines(lines)
  {
    assert ([""] + lines)[1..] == lines;
  }

  lemma ReadWritten(f: Formats, c: Tunnel)
    requires Lawful(f) && OneLineDomains(c.interface)
    ensures ReadLines(f, Written(f, c)) == [Header(false)] + InterfaceBody(f, c.interface) + PeersBody(f, c.peers)
  {
    ClassifyHeaders(f) by {
      assert Lowers(f.lower);
    }
    hide Shown, FieldLines, Named, OneLiners, Classify, InterfaceFields, AreLines, Lawful, PeersLines, Unlines, ReadLines;
    hide OneLineDomains;
    var fields, rest := InterfaceFields(f, c.interface), PeersLines(f, c.peers);
    InterfaceSection(f, c.interface);
    ReadPeers(f, c.peers);
    HeadersAreLines();
    ReadShown(f, "[Interface]", fields, Unlines(rest));
    WgQuickWriter.UnlinesSplit(["[Interface]"] + Shown(fields), rest);
  }
}
