/** wg-quick text: what it means, line by line and section by section, and how it is written. */
module WgQuick {
  import opened Options
  import opened ConfigText

  // keys, address ranges, DNS servers and endpoints, known only by their text
  type Key(==, !new)
  type Range(==, !new)
  type Server(==, !new)
  type Endpoint(==, !new)

  datatype Format<!T> = Format(text: T -> string, parse: string -> Option<T>)

  datatype Formats = Formats(
    lower: string -> string, key: Format<Key>, range: Format<Range>, server: Format<Server>, endpoint: Format<Endpoint>)

  datatype Interface = Interface(
    privateKey: Key, listenPort: Option<uint16>, addresses: seq<Range>,
    dns: seq<Server>, dnsSearch: seq<string>, mtu: Option<uint16>)

  datatype Peer = Peer(
    publicKey: Key, preSharedKey: Option<Key>, allowedIPs: seq<Range>,
    endpoint: Option<Endpoint>, persistentKeepAlive: Option<uint16>)

  datatype Tunnel = Tunnel(interface: Interface, peers: seq<Peer>)

  // ----- what is known about the formats -----

  predicate IsToken(s: string) {
    s != "" && forall i :: 0 <= i < |s| ==> !IsSpace(s[i]) && s[i] != ',' && s[i] != '#'
  }

  ghost predicate Reads<T(!new)>(f: Format<T>) {
    forall x: T :: f.parse(f.text(x)) == Some(x) && IsToken(f.text(x))
  }

  predicate IsAscii(s: string) {
    forall i :: 0 <= i < |s| ==> s[i] < '\U{80}'
  }

  function AsciiLower(c: char): char {
    if 'A' <= c <= 'Z' then c - 'A' + 'a' else c
  }

  /** Lower-casing is the usual one on ASCII text, and never loses an equals sign. */
  ghost predicate Lowers(lower: string -> string) {
    && (forall s :: IsAscii(s) ==> lower(s) == seq(|s|, i requires 0 <= i < |s| => AsciiLower(s[i])))
    && (forall s :: '=' in s ==> '=' in lower(s))
  }

  ghost predicate Lawful(f: Formats) {
    Lowers(f.lower) && Reads(f.key) && Reads(f.range) && Reads(f.server) && Reads(f.endpoint)
  }

  // ----- lines -----

  datatype Line = Blank | Header(peer: bool) | Attribute(name: string, key: string, value: string) | Invalid(text: string)

  function Clean(line: string): string {
    Trim(line[..Find('#', line)])
  }

  function Classify(f: Formats, line: string): Line {
    var text := Clean(line);
    var equals := Find('=', text);
    if text == "" then Blank
    else if equals < |text| then
      var name := Trim(text[..equals]);
      Attribute(name, f.lower(name), Trim(text[equals + 1..]))
    else if f.lower(text) == "[interface]" then Header(false)
    else if f.lower(text) == "[peer]" then Header(true)
    else Invalid(line)
  }

  function ClassifyAll(f: Formats, lines: seq<string>): (r: seq<Line>)
    ensures |r| == |lines| && forall i :: 0 <= i < |r| ==> r[i] == Classify(f, lines[i])
  {
    if lines == [] then [] else [Classify(f, lines[0])] + ClassifyAll(f, lines[1..])
  }

  /** Lines are cut at newlines; the empty ones do not count as lines. */
  function ReadLines(f: Formats, text: string): seq<Line> {
    ClassifyAll(f, Pieces(IsNewline, text))
  }

  // ----- sections -----

  datatype Section = Section(peer: bool, body: seq<Line>)

  predicate NoHeader(lines: seq<Line>) {
    forall i :: 0 <= i < |lines| ==> !lines[i].Header?
  }

  function UpToHeader(lines: seq<Line>): (r: seq<Line>)
    ensures |r| <= |lines| && r == lines[..|r|] && NoHeader(r)
    ensures |r| < |lines| ==> lines[|r|].Header?
  {
    if lines == [] || lines[0].Header? then [] else [lines[0]] + UpToHeader(lines[1..])
  }

  /** A section runs from its header to the next one; a header on the final line opens none. */
  function Cut(lines: seq<Line>): seq<Section>
    requires lines == [] || lines[0].Header?
    decreases |lines|
  {
    if |lines| <= 1 then []
    else
      var body := UpToHeader(lines[1..]);
      [Section(lines[0].peer, body)] + Cut(lines[1 + |body|..])
  }

  function Sections(lines: seq<Line>): seq<Section> {
    Cut(lines[|UpToHeader(lines)|..])
  }

  // ----- attributes of a section -----

  const REPEATABLE := {"address", "allowedips", "dns"}
  const INTERFACE_KEYS := {"privatekey", "listenport", "address", "dns", "mtu"}
  const PEER_KEYS := {"publickey", "presharedkey", "allowedips", "endpoint", "persistentkeepalive"}

  predicate NoRepeats(body: seq<Line>) {
    forall i, j :: 0 <= i < j < |body| && body[i].Attribute? && body[j].Attribute? && body[i].key == body[j].key ==>
                     body[i].key in REPEATABLE
  }

  predicate KnownKeys(peer: bool, body: seq<Line>) {
    forall i :: 0 <= i < |body| && body[i].Attribute? ==> body[i].key in if peer then PEER_KEYS else INTERFACE_KEYS
  }

  function Values(body: seq<Line>, key: string): seq<string> {
    if body == [] then []
    else
      var last := body[|body| - 1];
      Values(body[..|body| - 1], key) + if last.Attribute? && last.key == key then [last.value] else []
  }

  function Keys(body: seq<Line>): set<string> {
    set i | 0 <= i < |body| && body[i].Attribute? :: body[i].key
  }

  /** What a section says about each key: its values, joined by commas. */
  function Attributes(body: seq<Line>): map<string, string> {
    map key | key in Keys(body) :: Join(",", Values(body, key))
  }

  // ----- collating attributes -----

  function Items(s: string): seq<string> {
    TrimAll(Pieces(IsComma, s))
  }

  function TrimAll(parts: seq<string>): (r: seq<string>)
    ensures |r| == |parts| && forall i :: 0 <= i < |r| ==> r[i] == Trim(parts[i])
  {
    if parts == [] then [] else [Trim(parts[0])] + TrimAll(parts[1..])
  }

  /** None when the key is there and its value cannot be read. */
  function Field<T>(attributes: map<string, string>, key: string, parse: string -> Option<T>): Option<Option<T>> {
    if key !in attributes then Some(None)
    else
      match parse(attributes[key])
      case None => None
      case Some(x) => Some(Some(x))
  }

  function ParseRanges(f: Formats, items: seq<string>): Option<seq<Range>> {
    if items == [] then Some([])
    else
      var before :- ParseRanges(f, items[..|items| - 1]);
      var last :- f.range.parse(items[|items| - 1]);
      Some(before + [last])
  }

  function RangesField(f: Formats, attributes: map<string, string>, key: string): Option<seq<Range>> {
    if key !in attributes then Some([]) else ParseRanges(f, Items(attributes[key]))
  }

  /** The items that are addresses of DNS servers. */
  function Servers(f: Formats, items: seq<string>): seq<Server> {
    if items == [] then []
    else
      Servers(f, items[..|items| - 1])
      + match f.server.parse(items[|items| - 1]) { case None => [] case Some(x) => [x] }
  }

  /** The items that are not: search domains. */
  function Domains(f: Formats, items: seq<string>): seq<string> {
    if items == [] then []
    else
      var last := items[|items| - 1];
      Domains(f, items[..|items| - 1]) + if f.server.parse(last) == None then [last] else []
  }

  function DnsItems(attributes: map<string, string>): seq<string> {
    if "dns" in attributes then Items(attributes["dns"]) else []
  }

  function InterfaceOf(f: Formats, attributes: map<string, string>): Option<Interface> {
    var key :- Field(attributes, "privatekey", f.key.parse);
    var privateKey :- key;
    var listenPort :- Field(attributes, "listenport", ParseUInt16);
    var addresses :- RangesField(f, attributes, "address");
    var mtu :- Field(attributes, "mtu", ParseUInt16);
    var dns := DnsItems(attributes);
    Some(Interface(privateKey, listenPort, addresses, Servers(f, dns), Domains(f, dns), mtu))
  }

  function PeerOf(f: Formats, attributes: map<string, string>): Option<Peer> {
    var key :- Field(attributes, "publickey", f.key.parse);
    var publicKey :- key;
    var preSharedKey :- Field(attributes, "presharedkey", f.key.parse);
    var allowedIPs :- RangesField(f, attributes, "allowedips");
    var endpoint :- Field(attributes, "endpoint", f.endpoint.parse);
    var keepAlive :- Field(attributes, "persistentkeepalive", ParseUInt16);
    Some(Peer(publicKey, preSharedKey, allowedIPs, endpoint, keepAlive))
  }

  // ----- a whole text -----

  datatype Part = InterfacePart(interface: Interface) | PeerPart(peer: Peer)

  function PartOf(f: Formats, section: Section): Option<Part> {
    if !NoRepeats(section.body) || !KnownKeys(section.peer, section.body) then None
    else if section.peer then
      var peer :- PeerOf(f, Attributes(section.body));
      Some(PeerPart(peer))
    else
      var interface :- InterfaceOf(f, Attributes(section.body));
      Some(InterfacePart(interface))
  }

  function Parts(f: Formats, sections: seq<Section>): Option<seq<Part>> {
    if sections == [] then Some([])
    else
      var before :- Parts(f, sections[..|sections| - 1]);
      var last :- PartOf(f, sections[|sections| - 1]);
      Some(before + [last])
  }

  function Interfaces(parts: seq<Part>): seq<Interface> {
    if parts == [] then []
    else
      var last := parts[|parts| - 1];
      Interfaces(parts[..|parts| - 1]) + if last.InterfacePart? then [last.interface] else []
  }

  function Peers(parts: seq<Part>): seq<Peer> {
    if parts == [] then []
    else
      var last := parts[|parts| - 1];
      Peers(parts[..|parts| - 1]) + if last.PeerPart? then [last.peer] else []
  }

  predicate DistinctKeys(peers: seq<Peer>) {
    forall i, j :: 0 <= i < j < |peers| ==> peers[i].publicKey != peers[j].publicKey
  }

  predicate SomeInvalid(lines: seq<Line>) {
    exists i :: 0 <= i < |lines| && lines[i].Invalid?
  }

  function Assemble(parts: seq<Part>): Option<Tunnel> {
    var interfaces, peers := Interfaces(parts), Peers(parts);
    if |interfaces| == 1 && DistinctKeys(peers) then Some(Tunnel(interfaces[0], peers)) else None
  }

  /** The configuration that the lines describe, if they describe one. */
  function Meaning(f: Formats, lines: seq<Line>): Option<Tunnel> {
    if SomeInvalid(lines) || !NoRepeats(UpToHeader(lines)) then None
    else
      var parts :- Parts(f, Sections(lines));
      Assemble(parts)
  }

  // ----- writing -----

  /** A line that is written when it has a value; key is its name in lower case. */
  datatype FieldText = FieldText(name: string, key: string, value: Option<string>)

  function Assign(name: string, value: string): string {
    name + " = " + value
  }

  function Shown(fields: seq<FieldText>): seq<string> {
    if fields == [] then []
    else
      var last := fields[|fields| - 1];
      Shown(fields[..|fields| - 1]) + if last.value.None? then [] else [Assign(last.name, last.value.value)]
  }

  function TextOf<T>(value: Option<T>, text: T -> string): Option<string> {
    if value.None? then None else Some(text(value.value))
  }

  function Listed(items: seq<string>): Option<string> {
    if items == [] then None else Some(Join(", ", items))
  }

  function Texts<T>(format: Format<T>, xs: seq<T>): (r: seq<string>)
    ensures |r| == |xs| && forall i :: 0 <= i < |r| ==> r[i] == format.text(xs[i])
  {
    if xs == [] then [] else [format.text(xs[0])] + Texts(format, xs[1..])
  }

  function DnsTexts(f: Formats, i: Interface): seq<string> {
    Texts(f.server, i.dns) + i.dnsSearch
  }

  function InterfaceFields(f: Formats, i: Interface): seq<FieldText> {
    [FieldText("PrivateKey", "privatekey", Some(f.key.text(i.privateKey))),
     FieldText("ListenPort", "listenport", TextOf(i.listenPort, PortText)),
     FieldText("Address", "address", Listed(Texts(f.range, i.addresses))),
     FieldText("DNS", "dns", Listed(DnsTexts(f, i))),
     FieldText("MTU", "mtu", TextOf(i.mtu, PortText))]
  }

  function PeerFields(f: Formats, p: Peer): seq<FieldText> {
    [FieldText("PublicKey", "publickey", Some(f.key.text(p.publicKey))),
     FieldText("PresharedKey", "presharedkey", TextOf(p.preSharedKey, f.key.text)),
     FieldText("AllowedIPs", "allowedips", Listed(Texts(f.range, p.allowedIPs))),
     FieldText("Endpoint", "endpoint", TextOf(p.endpoint, f.endpoint.text)),
     FieldText("PersistentKeepalive", "persistentkeepalive", TextOf(p.persistentKeepAlive, PortText))]
  }

  function PeersLines(f: Formats, peers: seq<Peer>): seq<string> {
    if peers == [] then []
    else ["", "[Peer]"] + Shown(PeerFields(f, peers[0])) + PeersLines(f, peers[1..])
  }

  function TunnelLines(f: Formats, c: Tunnel): seq<string> {
    ["[Interface]"] + Shown(InterfaceFields(f, c.interface)) + PeersLines(f, c.peers)
  }

  function Unlines(lines: seq<string>): string {
    if lines == [] then "" else lines[0] + "\n" + Unlines(lines[1..])
  }

  /** The wg-quick text of a configuration. */
  function Written(f: Formats, c: Tunnel): string {
    Unlines(TunnelLines(f, c))
  }

  // ----- configurations that survive being written and read -----

  predicate IsDomain(f: Formats, s: string) {
    && IsTrimmed(s)
    && (forall i :: 0 <= i < |s| ==> s[i] != ',' && s[i] != '#' && !IsNewline(s[i]))
    && f.server.parse(s) == None
  }

  /** Empty domains survive in the middle of the DNS line only. */
  predicate KeepsEnds(i: Interface) {
    i.dnsSearch != [] ==> i.dnsSearch[|i.dnsSearch| - 1] != "" && (i.dns == [] ==> i.dnsSearch[0] != "")
  }

  predicate WellFormed(f: Formats, c: Tunnel) {
    && DistinctKeys(c.peers)
    && (forall i :: 0 <= i < |c.interface.dnsSearch| ==> IsDomain(f, c.interface.dnsSearch[i]))
    && KeepsEnds(c.interface)
  }
}
