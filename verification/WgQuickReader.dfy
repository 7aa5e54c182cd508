/** The one-pass reader of wg-quick text, against the meaning of its lines. */
module WgQuickReader {
  import opened Options
  import opened ConfigText
  import opened WgQuick

  datatype ParserState = InInterfaceSection | InPeerSection | NotInASection

  datatype ParseError =
    | InvalidLine(line: string)
    | NoInterface
    | MultipleInterfaces
    | InterfaceHasNoPrivateKey
    | InterfaceHasInvalidPrivateKey(text: string)
    | InterfaceHasInvalidListenPort(text: string)
    | InterfaceHasInvalidAddress(text: string)
    | InterfaceHasInvalidMTU(text: string)
    | InterfaceHasUnrecognizedKey(key: string)
    | PeerHasNoPublicKey
    | PeerHasInvalidPublicKey(text: string)
    | PeerHasInvalidPreSharedKey(text: string)
    | PeerHasInvalidAllowedIP(text: string)
    | PeerHasInvalidEndpoint(text: string)
    | PeerHasInvalidPersistentKeepAlive(text: string)
    | PeerHasUnrecognizedKey(key: string)
    | MultiplePeersWithSamePublicKey
    | MultipleEntriesForKey(key: string)

  datatype Result<T> = Ok(value: T) | Err(error: ParseError) {
    function ToOption(): Option<T> {
      if Ok? then Some(value) else None
    }
  }

  // ----- what each error says -----

  predicate Unreadable<T>(a: map<string, string>, key: string, text: string, parse: string -> Option<T>) {
    key in a && a[key] == text && parse(text).None?
  }

  predicate InterfaceError(f: Formats, a: map<string, string>, e: ParseError) {
    match e
    case InterfaceHasNoPrivateKey => "privatekey" !in a
    case InterfaceHasInvalidPrivateKey(t) => Unreadable(a, "privatekey", t, f.key.parse)
    case InterfaceHasInvalidListenPort(t) => Unreadable(a, "listenport", t, ParseUInt16)
    case InterfaceHasInvalidAddress(t) => "address" in a && t in Items(a["address"]) && f.range.parse(t) == None
    case InterfaceHasInvalidMTU(t) => Unreadable(a, "mtu", t, ParseUInt16)
    case _ => false
  }

  predicate PeerError(f: Formats, a: map<string, string>, e: ParseError) {
    match e
    case PeerHasNoPublicKey => "publickey" !in a
    case PeerHasInvalidPublicKey(t) => Unreadable(a, "publickey", t, f.key.parse)
    case PeerHasInvalidPreSharedKey(t) => Unreadable(a, "presharedkey", t, f.key.parse)
    case PeerHasInvalidAllowedIP(t) => "allowedips" in a && t in Items(a["allowedips"]) && f.range.parse(t) == None
    case PeerHasInvalidEndpoint(t) => Unreadable(a, "endpoint", t, f.endpoint.parse)
    case PeerHasInvalidPersistentKeepAlive(t) => Unreadable(a, "persistentkeepalive", t, ParseUInt16)
    case _ => false
  }

  predicate SectionError(f: Formats, section: Section, e: ParseError) {
    var attributes := Attributes(section.body);
    if section.peer then PeerError(f, attributes, e) else InterfaceError(f, attributes, e)
  }

  /** An attribute line that the lines before it in its section make an error. */
  predicate AttributeError(state: ParserState, body: seq<Line>, line: Line, e: ParseError) {
    && line.Attribute?
    && match e
       case MultipleEntriesForKey(name) => name == line.name && line.key in Keys(body) && line.key !in REPEATABLE
       case InterfaceHasUnrecognizedKey(name) =>
         name == line.name && state == InInterfaceSection && line.key !in INTERFACE_KEYS
       case PeerHasUnrecognizedKey(name) => name == line.name && state == InPeerSection && line.key !in PEER_KEYS
       case _ => false
  }

  /** From line a to line b there is no header, and the state is what the line before a makes it. */
  predicate InState(all: seq<Line>, a: nat, b: nat, state: ParserState) {
    && a <= b <= |all| && NoHeader(all[a..b])
    && if state == NotInASection then a == 0 else a > 0 && all[a - 1] == Header(state == InPeerSection)
  }

  ghost predicate SomeAttributeError(all: seq<Line>, e: ParseError) {
    exists a: nat, b: nat, state ::
      InState(all, a, b, state) && b < |all| && AttributeError(state, all[a..b], all[b], e)
  }

  ghost predicate SomeSectionError(f: Formats, all: seq<Line>, e: ParseError) {
    exists k :: 0 <= k < |Sections(all)| && SectionError(f, Sections(all)[k], e)
  }

  ghost predicate TwoInterfaces(f: Formats, all: seq<Line>) {
    exists done :: done <= Sections(all) && Parts(f, done).Some? && |Interfaces(Parts(f, done).value)| > 1
  }

  /** What is true of a text that is refused with an error. */
  ghost predicate Explains(f: Formats, lines: seq<string>, all: seq<Line>, e: ParseError) {
    match e
    case InvalidLine(line) => exists i :: 0 <= i < |lines| == |all| && lines[i] == line && all[i].Invalid?
    case NoInterface => Parts(f, Sections(all)).Some? && Interfaces(Parts(f, Sections(all)).value) == []
    case MultiplePeersWithSamePublicKey =>
      Parts(f, Sections(all)).Some? && !DistinctKeys(Peers(Parts(f, Sections(all)).value))
    case MultipleInterfaces => TwoInterfaces(f, all)
    case _ => SomeAttributeError(all, e) || SomeSectionError(f, all, e)
  }

  // ----- collating -----

  lemma {:induction false} RangesFail(f: Formats, items: seq<string>, i: nat)
    requires i <= |items| && ParseRanges(f, items[..i]) == None
    ensures ParseRanges(f, items) == None
    decreases |items|
  {
    if i == |items| {
      assert items[..i] == items;
    } else {
      var before := items[..|items| - 1];
      assert before[..i] == items[..i];
      RangesFail(f, before, i);
    }
  }

  /** On failure, bad is the item that is no address range. */
  method ReadRanges(f: Formats, text: string) returns (r: Option<seq<Range>>, bad: string)
    ensures r == ParseRanges(f, Items(text))
    ensures r == None ==> bad in Items(text) && f.range.parse(bad) == None
  {
    hide Items;
    var items := Items(text);
    var ranges: seq<Range> := [];
    var i := 0;
    bad := "";
    while i < |items|
      invariant i <= |items| && ParseRanges(f, items[..i]) == Some(ranges)
    {
      assert items[..i + 1][..i] == items[..i];
      match f.range.parse(items[i]) {
        case None =>
          RangesFail(f, items, i + 1);
          return None, items[i];
        case Some(range) =>
          ranges := ranges + [range];
      }
      i := i + 1;
    }
    assert items[..i] == items;
    r := Some(ranges);
  }

  method ReadDns(f: Formats, text: string) returns (servers: seq<Server>, domains: seq<string>)
    ensures servers == Servers(f, Items(text)) && domains == Domains(f, Items(text))
  {
    hide Items;
    var items := Items(text);
    servers, domains := [], [];
    var i := 0;
    while i < |items|
      invariant i <= |items| && servers == Servers(f, items[..i]) && domains == Domains(f, items[..i])
    {
      assert items[..i + 1][..i] == items[..i];
      match f.server.parse(items[i]) {
        case Some(server) => servers := servers + [server];
        case None => domains := domains + [items[i]];
      }
      i := i + 1;
    }
    assert items[..i] == items;
  }

  method CollateInterface(f: Formats, attributes: map<string, string>) returns (r: Result<Interface>)
    ensures r.ToOption() == InterfaceOf(f, attributes)
    ensures r.Err? ==> InterfaceError(f, attributes, r.error)
  {
    hide Items, ParseRanges, Servers, Domains, ParseUInt16;
    if "privatekey" !in attributes {
      return Err(InterfaceHasNoPrivateKey);
    }
    var privateKey := f.key.parse(attributes["privatekey"]);
    if privateKey == None {
      return Err(InterfaceHasInvalidPrivateKey(attributes["privatekey"]));
    }
    var interface := Interface(privateKey.value, None, [], [], [], None);
    if "listenport" in attributes {
      var listenPort := ParseUInt16(attributes["listenport"]);
      if listenPort == None {
        return Err(InterfaceHasInvalidListenPort(attributes["listenport"]));
      }
      interface := interface.(listenPort := listenPort);
    }
    if "address" in attributes {
      var addresses, bad := ReadRanges(f, attributes["address"]);
      if addresses == None {
        return Err(InterfaceHasInvalidAddress(bad));
      }
      interface := interface.(addresses := addresses.value);
    }
    if "dns" in attributes {
      var servers, domains := ReadDns(f, attributes["dns"]);
      interface := interface.(dns := servers, dnsSearch := domains);
    } else {
      assert Servers(f, []) == [] && Domains(f, []) == [] by {
        NoItems(f);
      }
    }
    if "mtu" in attributes {
      var mtu := ParseUInt16(attributes["mtu"]);
      if mtu == None {
        return Err(InterfaceHasInvalidMTU(attributes["mtu"]));
      }
      interface := interface.(mtu := mtu);
    }
    r := Ok(interface);
  }

  lemma NoItems(f: Formats)
    ensures Servers(f, []) == [] && Domains(f, []) == []
  {
  }

  lemma PeerErrors(f: Formats, a: map<string, string>, t: string)
    ensures "publickey" !in a ==> PeerError(f, a, PeerHasNoPublicKey)
    ensures Unreadable(a, "publickey", t, f.key.parse) ==> PeerError(f, a, PeerHasInvalidPublicKey(t))
    ensures Unreadable(a, "presharedkey", t, f.key.parse) ==> PeerError(f, a, PeerHasInvalidPreSharedKey(t))
    ensures "allowedips" in a && t in Items(a["allowedips"]) && f.range.parse(t) == None ==>
              PeerError(f, a, PeerHasInvalidAllowedIP(t))
    ensures Unreadable(a, "endpoint", t, f.endpoint.parse) ==> PeerError(f, a, PeerHasInvalidEndpoint(t))
    ensures Unreadable(a, "persistentkeepalive", t, ParseUInt16) ==> PeerError(f, a, PeerHasInvalidPersistentKeepAlive(t))
  {
    hide Items, ParseUInt16, Unreadable;
  }

  method CollatePeer(f: Formats, attributes: map<string, string>) returns (r: Result<Peer>)
    ensures r.ToOption() == PeerOf(f, attributes)
    ensures r.Err? ==> PeerError(f, attributes, r.error)
  {
    hide Items, ParseRanges, ParseUInt16, PeerError;
    if "publickey" !in attributes {
      PeerErrors(f, attributes, "");
      return Err(PeerHasNoPublicKey);
    }
    var publicKey := f.key.parse(attributes["publickey"]);
    if publicKey == None {
      PeerErrors(f, attributes, attributes["publickey"]);
      return Err(PeerHasInvalidPublicKey(attributes["publickey"]));
    }
    var peer := Peer(publicKey.value, None, [], None, None);
    if "presharedkey" in attributes {
      var preSharedKey := f.key.parse(attributes["presharedkey"]);
      if preSharedKey == None {
        PeerErrors(f, attributes, attributes["presharedkey"]);
        return Err(PeerHasInvalidPreSharedKey(attributes["presharedkey"]));
      }
      peer := peer.(preSharedKey := preSharedKey);
    }
    if "allowedips" in attributes {
      var allowedIPs, bad := ReadRanges(f, attributes["allowedips"]);
      if allowedIPs == None {
        PeerErrors(f, attributes, bad);
        return Err(PeerHasInvalidAllowedIP(bad));
      }
      peer := peer.(allowedIPs := allowedIPs.value);
    }
    if "endpoint" in attributes {
      var endpoint := f.endpoint.parse(attributes["endpoint"]);
      if endpoint == None {
        PeerErrors(f, attributes, attributes["endpoint"]);
        return Err(PeerHasInvalidEndpoint(attributes["endpoint"]));
      }
      peer := peer.(endpoint := endpoint);
    }
    if "persistentkeepalive" in attributes {
      var keepAlive := ParseUInt16(attributes["persistentkeepalive"]);
      if keepAlive == None {
        PeerErrors(f, attributes, attributes["persistentkeepalive"]);
        return Err(PeerHasInvalidPersistentKeepAlive(attributes["persistentkeepalive"]));
      }
      peer := peer.(persistentKeepAlive := keepAlive);
    }
    r := Ok(peer);
  }

  // ----- attributes, one line at a time -----

  lemma {:induction false} ValuesPresent(body: seq<Line>, key: string)
    ensures Values(body, key) != [] <==> key in Keys(body)
  {
    if body != [] {
      var before, last := body[..|body| - 1], body[|body| - 1];
      ValuesPresent(before, key);
      KeysNext(before, last);
      assert before + [last] == body;
    }
  }

  lemma KeysNext(body: seq<Line>, line: Line)
    ensures Keys(body + [line]) == Keys(body) + if line.Attribute? then {line.key} else {}
  {
    var all := body + [line];
    forall key | key in Keys(body)
      ensures key in Keys(all)
    {
      var i :| 0 <= i < |body| && body[i].Attribute? && body[i].key == key;
      assert all[i] == body[i];
    }
    assert all[|body|] == line;
    forall key | key in Keys(all)
      ensures key in Keys(body) || (line.Attribute? && key == line.key)
    {
      var i :| 0 <= i < |all| && all[i].Attribute? && all[i].key == key;
      assert i < |body| ==> body[i] == all[i];
    }
  }

  lemma ValuesNext(body: seq<Line>, line: Line, key: string)
    ensures Values(body + [line], key) == Values(body, key) + if line.Attribute? && line.key == key then [line.value] else []
  {
    var all := body + [line];
    assert all[..|all| - 1] == body && all[|all| - 1] == line;
  }

  function Added(attributes: map<string, string>, key: string, value: string): map<string, string> {
    attributes[key := if key in attributes then attributes[key] + "," + value else value]
  }

  /** A further value joins the earlier ones; everything else stays. */
  lemma AttributesNext(body: seq<Line>, line: Line)
    ensures Attributes(body + [line]) == if line.Attribute? then Added(Attributes(body), line.key, line.value) else Attributes(body)
  {
    hide Keys, Values, Join;
    KeysNext(body, line);
    var after := if line.Attribute? then Added(Attributes(body), line.key, line.value) else Attributes(body);
    forall key | key in Keys(body + [line])
      ensures key in after && Attributes(body + [line])[key] == after[key]
    {
      ValuesNext(body, line, key);
      ValuesPresent(body, key);
      if line.Attribute? && line.key == key {
        if key in Keys(body) {
          JoinSnoc(",", Values(body, key), line.value);
        } else {
          JoinOne(line.value);
        }
      } else {
        assert Values(body, key) + [] == Values(body, key);
      }
    }
  }

  lemma JoinOne(value: string)
    ensures Join(",", [] + [value]) == value
  {
    assert [] + [value] == [value];
  }

  ghost predicate Gathered(state: ParserState, attributes: map<string, string>, body: seq<Line>) {
    && attributes == Attributes(body) && NoRepeats(body)
    && (state != NotInASection ==> KnownKeys(state == InPeerSection, body))
  }

  lemma GatherNext(state: ParserState, attributes: map<string, string>, body: seq<Line>, line: Line)
    requires Gathered(state, attributes, body) && line.Attribute?
    ensures line.key in attributes && line.key !in REPEATABLE ==> !NoRepeats(body + [line])
    ensures line.key !in attributes || line.key in REPEATABLE ==> NoRepeats(body + [line])
    ensures KnownKeys(true, body + [line]) <==> KnownKeys(true, body) && line.key in PEER_KEYS
    ensures KnownKeys(false, body + [line]) <==> KnownKeys(false, body) && line.key in INTERFACE_KEYS
  {
    var all := body + [line];
    assert all[|body|] == line;
    assert forall i :: 0 <= i < |body| ==> all[i] == body[i];
    if line.key in attributes {
      var i :| 0 <= i < |body| && body[i].Attribute? && body[i].key == line.key;
      assert all[i] == body[i];
    }
  }

  lemma SameKeys(body: seq<Line>)
    ensures Attributes(body).Keys == Keys(body)
  {
    hide Keys, Values, Join;
  }

  method AddAttribute(state: ParserState, attributes: map<string, string>, name: string, key: string, value: string,
                      ghost body: seq<Line>)
    returns (r: Result<map<string, string>>)
    requires Gathered(state, attributes, body)
    ensures r.Ok? ==> Gathered(state, r.value, body + [Attribute(name, key, value)])
    ensures var all := body + [Attribute(name, key, value)];
            r.Err? <==> !NoRepeats(all) || (state != NotInASection && !KnownKeys(state == InPeerSection, all))
    ensures r.Err? ==> AttributeError(state, body, Attribute(name, key, value), r.error)
  {
    hide Keys, Attributes, NoRepeats, KnownKeys;
    GatherNext(state, attributes, body, Attribute(name, key, value));
    AttributesNext(body, Attribute(name, key, value));
    SameKeys(body);
    var next := attributes;
    if key in attributes {
      if key in REPEATABLE {
        next := next[key := attributes[key] + "," + value];
      } else {
        return Err(MultipleEntriesForKey(name));
      }
    } else {
      next := next[key := value];
    }
    if state == InInterfaceSection {
      if key !in INTERFACE_KEYS {
        return Err(InterfaceHasUnrecognizedKey(name));
      }
    } else if state == InPeerSection {
      if key !in PEER_KEYS {
        return Err(PeerHasUnrecognizedKey(name));
      }
    }
    r := Ok(next);
  }

  // ----- sections, one line at a time -----

  function Remaining(state: ParserState, body: seq<Line>, rest: seq<Line>): seq<Section> {
    if state == NotInASection then Sections(rest) else Cut([Header(state == InPeerSection)] + body + rest)
  }

  function Closed(state: ParserState, body: seq<Line>): seq<Section> {
    if state == NotInASection then [] else [Section(state == InPeerSection, body)]
  }

  /** With rest still to read: the sections that have ended, and the lines of the open one. */
  ghost predicate Standing(
    all: seq<Section>, preamble: seq<Line>, rest: seq<Line>, state: ParserState, body: seq<Line>, done: seq<Section>)
  {
    && NoHeader(body)
    && all == done + (if rest == [] then [] else Remaining(state, body, rest))
    && (state == NotInASection ==> Leads(preamble, body, rest))
  }

  ghost predicate Leads(preamble: seq<Line>, body: seq<Line>, rest: seq<Line>) {
    preamble == body + UpToHeader(rest)
  }

  ghost predicate Opened(lines: seq<Line>, i: nat, state: ParserState, body: seq<Line>, done: seq<Section>) {
    i <= |lines| && Standing(Sections(lines), UpToHeader(lines), lines[i..], state, body, done)
  }

  lemma {:induction false} UpToHeaderSplit(body: seq<Line>, rest: seq<Line>)
    requires NoHeader(body)
    ensures UpToHeader(body + rest) == body + UpToHeader(rest)
  {
    if body == [] {
      assert body + rest == rest;
    } else {
      assert (body + rest)[1..] == body[1..] + rest;
      UpToHeaderSplit(body[1..], rest);
    }
  }

  lemma NoneUpToHeader(lines: seq<Line>)
    requires lines == [] || lines[0].Header?
    ensures UpToHeader(lines) == [] && Sections(lines) == Cut(lines)
  {
    assert lines[0..] == lines;
  }

  lemma CutHeader(header: Line)
    requires header.Header?
    ensures Cut([header]) == []
  {
  }

  lemma CutFirst(lines: seq<Line>)
    requires |lines| > 1 && lines[0].Header?
    ensures var body := UpToHeader(lines[1..]);
            Cut(lines) == [Section(lines[0].peer, body)] + Cut(lines[1..][|body|..])
  {
    hide UpToHeader;
    var body := UpToHeader(lines[1..]);
    assert lines[1..][|body|..] == lines[1 + |body|..];
  }

  /** The first section takes every line up to the second header. */
  lemma CutNext(header: Line, body: seq<Line>, rest: seq<Line>)
    requires header.Header? && NoHeader(body) && body + rest != []
    ensures Cut([header] + body + rest) == [Section(header.peer, body + UpToHeader(rest))] + Sections(rest)
  {
    hide UpToHeader, NoHeader, Cut;
    var all, after := [header] + body + rest, body + rest;
    assert all[1..] == after && all[0] == header;
    CutFirst(all);
    UpToHeaderSplit(body, rest);
    DropBoth(body, rest, |UpToHeader(rest)|);
  }

  lemma DropBoth(body: seq<Line>, rest: seq<Line>, n: nat)
    requires n <= |rest|
    ensures (body + rest)[|body| + n..] == rest[n..]
  {
  }

  lemma SectionsSkip(line: Line, rest: seq<Line>)
    requires !line.Header?
    ensures UpToHeader([line] + rest) == [line] + UpToHeader(rest) && Sections([line] + rest) == Sections(rest)
  {
    var all := [line] + rest;
    UpToHeaderSplit([line], rest);
    hide UpToHeader;
    assert all[1 + |UpToHeader(rest)|..] == rest[|UpToHeader(rest)|..];
  }

  lemma CutNothing()
    ensures Cut([]) == []
  {
  }

  lemma RemainingBody(state: ParserState, body: seq<Line>, line: Line, next: seq<Line>)
    requires NoHeader(body) && !line.Header?
    ensures Remaining(state, body, [line] + next) == Remaining(state, body + [line], next)
    ensures NoHeader(body + [line])
    ensures Remaining(state, body + [line], []) == Closed(state, body + [line])
  {
    SectionsSkip(line, next);
    NoneUpToHeader([]);
    CutNothing();
    hide UpToHeader, Cut, Sections;
    var header := Header(state == InPeerSection);
    assert [header] + body + ([line] + next) == [header] + (body + [line]) + next;
    if state != NotInASection {
      CutNext(header, body + [line], []);
      assert body + [line] + [] == body + [line];
    }
  }

  function Next(header: Line): ParserState
    requires header.Header?
  {
    if header.peer then InPeerSection else InInterfaceSection
  }

  lemma RemainingHeader(state: ParserState, body: seq<Line>, header: Line, next: seq<Line>)
    requires NoHeader(body) && header.Header?
    ensures Remaining(state, body, [header] + next) == Closed(state, body) + Remaining(Next(header), [], next)
    ensures Remaining(Next(header), [], []) == []
  {
    var rest := [header] + next;
    NoneUpToHeader(rest);
    CutHeader(header);
    hide UpToHeader, Cut, Sections, NoHeader;
    assert [header] + [] + next == rest;
    assert [header] + [] + [] == [header];
    if state != NotInASection {
      assert body + [] == body;
      CutNext(Header(state == InPeerSection), body, rest);
    }
  }

  lemma LeadsBody(preamble: seq<Line>, body: seq<Line>, line: Line, next: seq<Line>)
    requires !line.Header? && Leads(preamble, body, [line] + next)
    ensures Leads(preamble, body + [line], next)
  {
    UpToHeaderSplit([line], next);
    assert body + [line] + UpToHeader(next) == body + ([line] + UpToHeader(next));
  }

  lemma LeadsHeader(preamble: seq<Line>, body: seq<Line>, rest: seq<Line>)
    requires Leads(preamble, body, rest) && (rest == [] || rest[0].Header?)
    ensures preamble == body
  {
    NoneUpToHeader(rest);
    assert body + [] == body;
  }

  lemma StandingBody(all: seq<Section>, preamble: seq<Line>, line: Line, next: seq<Line>,
                     state: ParserState, body: seq<Line>, done: seq<Section>)
    requires !line.Header? && Standing(all, preamble, [line] + next, state, body, done)
    ensures Standing(all, preamble, next, state, body + [line], done + if next == [] then Closed(state, body + [line]) else [])
  {
    RemainingBody(state, body, line, next);
    if state == NotInASection {
      LeadsBody(preamble, body, line, next);
    }
    hide NoHeader, Remaining, Closed, Leads;
    assert done + [] == done;
  }

  lemma StandingHeader(all: seq<Section>, preamble: seq<Line>, header: Line, next: seq<Line>,
                       state: ParserState, body: seq<Line>, done: seq<Section>)
    requires header.Header? && Standing(all, preamble, [header] + next, state, body, done)
    ensures state == NotInASection ==> preamble == body
    ensures Standing(all, preamble, next, Next(header), [], done + Closed(state, body))
  {
    RemainingHeader(state, body, header, next);
    if state == NotInASection {
      LeadsHeader(preamble, body, [header] + next);
    }
    hide Remaining, Closed, Leads;
    var more := Remaining(Next(header), [], next);
    assert done + (Closed(state, body) + more) == done + Closed(state, body) + more;
    assert done + Closed(state, body) + [] == done + Closed(state, body);
  }

  lemma {:induction false} OpenedBody(lines: seq<Line>, i: nat, state: ParserState, body: seq<Line>, done: seq<Section>)
    requires Opened(lines, i, state, body, done) && i < |lines| && !lines[i].Header?
    ensures i + 1 < |lines| ==> Opened(lines, i + 1, state, body + [lines[i]], done)
    ensures i + 1 == |lines| ==> Opened(lines, i + 1, state, body + [lines[i]], done + Closed(state, body + [lines[i]]))
  {
    hide Standing, UpToHeader, Sections, Closed;
    assert lines[i..] == [lines[i]] + lines[i + 1..];
    assert done + [] == done;
    StandingBody(Sections(lines), UpToHeader(lines), lines[i], lines[i + 1..], state, body, done);
  }

  lemma {:induction false} OpenedHeader(lines: seq<Line>, i: nat, state: ParserState, body: seq<Line>, done: seq<Section>)
    requires Opened(lines, i, state, body, done) && i < |lines| && lines[i].Header?
    ensures state == NotInASection ==> UpToHeader(lines) == body
    ensures Opened(lines, i + 1, Next(lines[i]), [], done + Closed(state, body))
  {
    hide Standing, UpToHeader, Sections, Closed, NoHeader;
    assert lines[i..] == [lines[i]] + lines[i + 1..];
    StandingHeader(Sections(lines), UpToHeader(lines), lines[i], lines[i + 1..], state, body, done);
  }

  /** The section being read, as it will be when its last line has been read. */
  lemma OpenedSection(lines: seq<Line>, i: nat, state: ParserState, body: seq<Line>, done: seq<Section>)
    returns (more: seq<Line>)
    requires Opened(lines, i, state, body, done) && i < |lines| && !lines[i].Header?
    ensures state == NotInASection ==> UpToHeader(lines) == body + [lines[i]] + more
    ensures state != NotInASection ==>
              done + [Section(state == InPeerSection, body + [lines[i]] + more)] <= Sections(lines)
  {
    var line, rest, next := lines[i], lines[i..], lines[i + 1..];
    assert rest == [line] + next;
    more := UpToHeader(next);
    LeadsStill(UpToHeader(lines), body, line, next);
    if state != NotInASection {
      CutNext(Header(state == InPeerSection), body, rest);
      LeadsStill(body + UpToHeader(rest), body, line, next);
    }
    hide UpToHeader, Cut, Sections, NoHeader, Leads;
  }

  lemma LeadsStill(preamble: seq<Line>, body: seq<Line>, line: Line, next: seq<Line>)
    requires !line.Header?
    ensures Leads(preamble, body, [line] + next) <==> preamble == body + [line] + UpToHeader(next)
    ensures Leads(preamble, body, [line] + next) <==> preamble == body + UpToHeader([line] + next)
  {
    SectionsSkip(line, next);
    hide UpToHeader;
    assert body + [line] + UpToHeader(next) == body + ([line] + UpToHeader(next));
  }

  // ----- failures are final -----

  ghost predicate Hopeless(f: Formats, sections: seq<Section>) {
    Parts(f, sections) == None || |Interfaces(Parts(f, sections).value)| > 1
  }

  lemma {:induction false} HopelessStays(f: Formats, sections: seq<Section>, all: seq<Section>)
    requires Hopeless(f, sections) && sections <= all
    ensures Hopeless(f, all)
    decreases |all|
  {
    hide PartOf;
    if |sections| < |all| {
      HopelessStays(f, sections, all[..|all| - 1]);
    } else {
      assert sections == all;
    }
  }

  lemma BadBodyStaysBad(body: seq<Line>, more: seq<Line>)
    ensures !NoRepeats(body) ==> !NoRepeats(body + more)
    ensures forall peer :: !KnownKeys(peer, body) ==> !KnownKeys(peer, body + more)
  {
    var all := body + more;
    assert forall i :: 0 <= i < |body| ==> all[i] == body[i];
    if !NoRepeats(body) {
      var i, j :| 0 <= i < j < |body| && body[i].Attribute? && body[j].Attribute? && body[i].key == body[j].key
                  && body[i].key !in REPEATABLE;
      assert all[i].Attribute? && all[j].Attribute?;
    }
    forall peer | !KnownKeys(peer, body)
      ensures !KnownKeys(peer, all)
    {
      var i :| 0 <= i < |body| && body[i].Attribute? && body[i].key !in if peer then PEER_KEYS else INTERFACE_KEYS;
      assert all[i].Attribute?;
    }
  }

  lemma BadAttribute(f: Formats, lines: seq<Line>, i: nat, state: ParserState, body: seq<Line>, done: seq<Section>)
    requires Opened(lines, i, state, body, done) && i < |lines| && lines[i].Attribute?
    requires var all := body + [lines[i]];
             !NoRepeats(all) || (state != NotInASection && !KnownKeys(state == InPeerSection, all))
    ensures Meaning(f, lines) == None
  {
    var more := OpenedSection(lines, i, state, body, done);
    hide Opened, NoRepeats, KnownKeys, Sections, Interfaces, Assemble, SomeInvalid;
    var all := body + [lines[i]];
    if state == NotInASection {
      BadBodyStaysBad(all, more);
    } else {
      BadBodyStaysBad(all, more);
      var ended := done + [Section(state == InPeerSection, all + more)];
      assert ended[..|ended| - 1] == done;
      HopelessStays(f, ended, Sections(lines));
      HopelessMeansNone(f, lines);
    }
  }

  lemma HopelessMeansNone(f: Formats, lines: seq<Line>)
    requires Hopeless(f, Sections(lines))
    ensures Meaning(f, lines) == None
  {
  }

  // ----- ended sections -----

  ghost predicate Collated(f: Formats, done: seq<Section>, interface: Option<Interface>, peers: seq<Peer>) {
    && Parts(f, done).Some?
    && Interfaces(Parts(f, done).value) == (if interface.Some? then [interface.value] else [])
    && Peers(Parts(f, done).value) == peers
  }

  lemma PartsNext(f: Formats, done: seq<Section>, section: Section)
    requires Parts(f, done).Some?
    ensures PartOf(f, section) == None ==> Parts(f, done + [section]) == None
    ensures PartOf(f, section).Some? ==>
              var before, part := Parts(f, done).value, PartOf(f, section).value;
              && Parts(f, done + [section]) == Some(before + [part])
              && Interfaces(before + [part]) == Interfaces(before) + (if part.InterfacePart? then [part.interface] else [])
              && Peers(before + [part]) == Peers(before) + (if part.PeerPart? then [part.peer] else [])
  {
    hide PartOf;
    var all := done + [section];
    assert all[..|all| - 1] == done;
    if PartOf(f, section).Some? {
      var before, part := Parts(f, done).value, PartOf(f, section).value;
      assert (before + [part])[..|before|] == before;
    }
  }

  method EndSection(f: Formats, state: ParserState, attributes: map<string, string>,
                    interface: Option<Interface>, peers: seq<Peer>, ghost body: seq<Line>, ghost done: seq<Section>)
    returns (r: Result<(Option<Interface>, seq<Peer>)>)
    requires Gathered(state, attributes, body) && Collated(f, done, interface, peers)
    ensures r.Ok? ==> Collated(f, done + Closed(state, body), r.value.0, r.value.1)
    ensures r.Err? ==> Hopeless(f, done + Closed(state, body))
    ensures r.Err? ==>
              if r.error == MultipleInterfaces then Parts(f, done + Closed(state, body)).Some?
              else state != NotInASection && SectionError(f, Section(state == InPeerSection, body), r.error)
  {
    hide ParseUInt16, Items;
    hide Attributes, NoRepeats, KnownKeys, Parts, Interfaces, Peers, InterfaceOf, PeerOf;
    if state == NotInASection {
      assert done + [] == done;
      return Ok((interface, peers));
    }
    PartsNext(f, done, Section(state == InPeerSection, body));
    if state == InInterfaceSection {
      var collated := CollateInterface(f, attributes);
      if collated.Err? {
        return Err(collated.error);
      }
      if interface.Some? {
        return Err(MultipleInterfaces);
      }
      r := Ok((Some(collated.value), peers));
    } else {
      var collated := CollatePeer(f, attributes);
      if collated.Err? {
        return Err(collated.error);
      }
      r := Ok((interface, peers + [collated.value]));
    }
  }

  // ----- peers must differ -----

  function PublicKeys(peers: seq<Peer>): (r: seq<Key>)
    ensures |r| == |peers| && forall i :: 0 <= i < |r| ==> r[i] == peers[i].publicKey
  {
    if peers == [] then [] else [peers[0].publicKey] + PublicKeys(peers[1..])
  }

  function SetOf(keys: seq<Key>): set<Key> {
    set key | key in keys
  }

  /** As many keys as positions: no key is repeated. */
  lemma {:induction false} CountsDistinct(keys: seq<Key>)
    ensures |SetOf(keys)| <= |keys|
    ensures |SetOf(keys)| == |keys| <==> forall i, j :: 0 <= i < j < |keys| ==> keys[i] != keys[j]
  {
    if keys == [] {
      assert SetOf(keys) == {};
    } else {
      var before, last := keys[..|keys| - 1], keys[|keys| - 1];
      CountsDistinct(before);
      assert SetOf(keys) == SetOf(before) + {last};
      if last in before {
        assert SetOf(keys) == SetOf(before);
        var i :| 0 <= i < |before| && before[i] == last;
        assert keys[i] == keys[|keys| - 1];
      } else {
        assert forall i, j :: 0 <= i < j < |before| ==> before[i] == keys[i] && before[j] == keys[j];
      }
    }
  }

  lemma CountsDistinctPeers(peers: seq<Peer>)
    ensures |SetOf(PublicKeys(peers))| == |PublicKeys(peers)| <==> DistinctKeys(peers)
  {
    CountsDistinct(PublicKeys(peers));
    hide PublicKeys, SetOf;
  }

  // ----- the reader -----

  lemma ClassifyFlags(f: Formats, line: string)
    requires Lowers(f.lower)
    ensures var lowered := f.lower(Clean(line));
            && (lowered == "[interface]" <==> Classify(f, line) == Header(false))
            && (lowered == "[peer]" <==> Classify(f, line) == Header(true))
  {
    var text := Clean(line);
    assert IsAscii("");
    if Find('=', text) < |text| {
      assert '=' in text;
      assert '=' in f.lower(text);
    }
  }

  lemma PreambleIsFine(lines: seq<Line>, i: nat, state: ParserState, body: seq<Line>, done: seq<Section>,
                       attributes: map<string, string>)
    requires Opened(lines, i, state, body, done) && state == NotInASection
    requires i == |lines| || lines[i].Header?
    requires Gathered(state, attributes, body)
    ensures NoRepeats(UpToHeader(lines))
  {
    hide UpToHeader, Sections, NoRepeats, Leads;
    LeadsHeader(UpToHeader(lines), body, lines[i..]);
  }

  lemma ReaderStarts(f: Formats, lines: seq<Line>)
    ensures Opened(lines, 0, NotInASection, [], []) && Gathered(NotInASection, map[], []) && Collated(f, [], None, [])
  {
    assert lines[0..] == lines && [] + UpToHeader(lines) == UpToHeader(lines);
  }

  lemma GatherBlank(state: ParserState, attributes: map<string, string>, body: seq<Line>)
    requires Gathered(state, attributes, body)
    ensures Gathered(state, attributes, body + [Blank])
  {
    AttributesNext(body, Blank);
    hide Attributes;
  }

  lemma NothingGathered(state: ParserState)
    ensures Gathered(state, map[], [])
  {
  }

  lemma EndedMeansNone(f: Formats, lines: seq<Line>, i: nat, state: ParserState, body: seq<Line>, done: seq<Section>)
    requires Opened(lines, i, state, body, done) && Hopeless(f, done)
    ensures Meaning(f, lines) == None
  {
    assert done <= Sections(lines);
    hide Sections;
    HopelessStays(f, done, Sections(lines));
    HopelessMeansNone(f, lines);
  }

  lemma ReaderEnds(f: Formats, lines: seq<Line>, state: ParserState, body: seq<Line>, done: seq<Section>,
                   interface: Option<Interface>, peers: seq<Peer>)
    requires Opened(lines, |lines|, state, body, done) && Collated(f, done, interface, peers)
    requires NoRepeats(UpToHeader(lines)) && !SomeInvalid(lines)
    ensures Meaning(f, lines) ==
            if interface.Some? && DistinctKeys(peers) then Some(Tunnel(interface.value, peers)) else None
  {
    hide Sections, UpToHeader, Parts, Interfaces, Peers, NoRepeats, Remaining, Leads, NoHeader, DistinctKeys, SomeInvalid;
    assert done + [] == done;
    assert lines[|lines|..] == [];
  }

  lemma InvalidMeansNone(f: Formats, lines: seq<Line>, i: nat)
    requires i < |lines| && lines[i].Invalid?
    ensures Meaning(f, lines) == None
  {
  }

  ghost predicate Refused(state: ParserState, line: Line, body: seq<Line>) {
    || line.Invalid?
    || (line.Attribute? &&
        (!NoRepeats(body + [line]) || (state != NotInASection && !KnownKeys(state == InPeerSection, body + [line]))))
  }

  lemma RefusedMeansNone(f: Formats, lines: seq<Line>, i: nat, state: ParserState, body: seq<Line>, done: seq<Section>)
    requires Opened(lines, i, state, body, done) && i < |lines| && Refused(state, lines[i], body)
    ensures Meaning(f, lines) == None
  {
    hide Opened, NoRepeats, KnownKeys, Meaning;
    if lines[i].Invalid? {
      InvalidMeansNone(f, lines, i);
    } else {
      BadAttribute(f, lines, i, state, body, done);
    }
  }

  lemma NotRefused(state: ParserState, line: Line, body: seq<Line>)
    requires !Refused(state, line, body)
    ensures !line.Invalid?
  {
  }

  /** What one line adds to the section being read. */
  method ReadLine(f: Formats, state: ParserState, attributes: map<string, string>, line: string, ghost body: seq<Line>)
    returns (r: Result<map<string, string>>)
    requires Lowers(f.lower) && Gathered(state, attributes, body)
    ensures var l := Classify(f, line);
            && (r.Err? <==> Refused(state, l, body))
            && (r.Ok? ==> Gathered(state, r.value, if l.Header? then body else body + [l]))
            && (r.Err? ==> if l.Invalid? then r.error == InvalidLine(line) else AttributeError(state, body, l, r.error))
  {
    hide Lowers, Gathered, NoRepeats, KnownKeys, IsSpace;
    ClassifyFlags(f, line);
    var trimmed := Trim(line[..Find('#', line)]);
    var lowered := f.lower(trimmed);
    if trimmed != "" {
      var equals := Find('=', trimmed);
      if equals < |trimmed| {
        var name := Trim(trimmed[..equals]);
        r := AddAttribute(state, attributes, name, f.lower(name), Trim(trimmed[equals + 1..]), body);
        return;
      } else if lowered != "[interface]" && lowered != "[peer]" {
        return Err(InvalidLine(line));
      }
    } else {
      GatherBlank(state, attributes, body);
    }
    r := Ok(attributes);
  }

  // the lines of the open section are the last ones
  ghost predicate Tracks(all: seq<Line>, i: nat, state: ParserState, body: seq<Line>) {
    && |body| <= i <= |all| && body == all[i - |body|..i]
    && InState(all, i - |body|, i, state)
  }

  lemma TracksStart(all: seq<Line>)
    ensures Tracks(all, 0, NotInASection, [])
  {
  }

  lemma TracksBody(all: seq<Line>, i: nat, state: ParserState, body: seq<Line>)
    requires i < |all| && !all[i].Header? && Tracks(all, i, state, body)
    ensures Tracks(all, i + 1, state, body + [all[i]])
  {
    hide NoHeader;
    var a := i - |body|;
    assert all[a..i + 1] == body + [all[i]];
    NoHeaderMore(body, all[i]);
  }

  lemma NoHeaderMore(body: seq<Line>, line: Line)
    requires NoHeader(body) && !line.Header?
    ensures NoHeader(body + [line])
  {
  }

  lemma TracksHeader(all: seq<Line>, i: nat)
    requires i < |all| && all[i].Header?
    ensures Tracks(all, i + 1, Next(all[i]), [])
  {
  }

  lemma LineExplains(f: Formats, lines: seq<string>, all: seq<Line>, i: nat, state: ParserState, body: seq<Line>, e: ParseError)
    requires i < |lines| == |all| && Tracks(all, i, state, body)
    requires if all[i].Invalid? then e == InvalidLine(lines[i]) else AttributeError(state, body, all[i], e)
    ensures Explains(f, lines, all, e)
  {
    hide Sections, NoHeader, Parts;
    if !all[i].Invalid? {
      var a := i - |body|;
      assert all[a..i] == body;
      assert InState(all, a, i, state);
    }
  }

  lemma EndExplains(f: Formats, lines: seq<string>, all: seq<Line>, i: nat, state': ParserState, body': seq<Line>,
                    state: ParserState, body: seq<Line>, done: seq<Section>, e: ParseError)
    requires Opened(all, i, state', body', done + Closed(state, body)) && Hopeless(f, done + Closed(state, body))
    requires if e == MultipleInterfaces then Parts(f, done + Closed(state, body)).Some?
             else state != NotInASection && SectionError(f, Section(state == InPeerSection, body), e)
    ensures Explains(f, lines, all, e)
  {
    var sections := done + Closed(state, body);
    assert sections <= Sections(all);
    hide Sections, NoHeader, Parts, Interfaces, SectionError, Opened;
    if e != MultipleInterfaces {
      assert sections[|done|] == Section(state == InPeerSection, body);
      assert SectionError(f, Sections(all)[|done|], e);
      SectionErrorExplains(f, lines, all, |done|, e);
    }
  }

  lemma EndOfLines(f: Formats, lines: seq<string>, all: seq<Line>, state: ParserState, body: seq<Line>, done: seq<Section>,
                   interface: Option<Interface>, peers: seq<Peer>)
    requires Opened(all, |all|, state, body, done) && Collated(f, done, interface, peers)
    ensures interface == None ==> Explains(f, lines, all, NoInterface)
    ensures !DistinctKeys(peers) ==> Explains(f, lines, all, MultiplePeersWithSamePublicKey)
  {
    hide Sections, UpToHeader, Parts, Interfaces, Peers, Remaining, Leads, NoHeader, DistinctKeys;
    assert done + [] == done;
    assert all[|all|..] == [];
  }

  lemma SectionErrorExplains(f: Formats, lines: seq<string>, all: seq<Line>, k: nat, e: ParseError)
    requires k < |Sections(all)| && SectionError(f, Sections(all)[k], e)
    ensures Explains(f, lines, all, e)
  {
    hide Sections, Attributes, ParseUInt16, Items;
  }

  // ----- one iteration -----

  /** Where the loop is after i lines. */
  ghost predicate At(all: seq<Line>, i: nat, state: ParserState, body: seq<Line>, done: seq<Section>) {
    && Opened(all, i, state, body, done) && Tracks(all, i, state, body)
    && (state != NotInASection ==> NoRepeats(UpToHeader(all)))
    && forall j :: 0 <= j < i ==> !all[j].Invalid?
  }

  function StateAfter(state: ParserState, line: Line): ParserState {
    if line.Header? then Next(line) else state
  }

  // the lines of the section when it may end here, and the lines of the section that is open then
  function BodyWith(body: seq<Line>, line: Line): seq<Line> {
    if line.Header? then body else body + [line]
  }

  function BodyAfter(body: seq<Line>, line: Line): seq<Line> {
    if line.Header? then [] else body + [line]
  }

  function Ended(all: seq<Line>, i: nat, state: ParserState, body: seq<Line>): seq<Section>
    requires i < |all|
  {
    if all[i].Header? || i == |all| - 1 then Closed(state, BodyWith(body, all[i])) else []
  }

  lemma AtStart(f: Formats, all: seq<Line>)
    ensures At(all, 0, NotInASection, [], []) && Gathered(NotInASection, map[], []) && Collated(f, [], None, [])
  {
    ReaderStarts(f, all);
    TracksStart(all);
  }

  lemma Advance(all: seq<Line>, i: nat, state: ParserState, attributes: map<string, string>, body: seq<Line>, done: seq<Section>)
    requires At(all, i, state, body, done) && i < |all| && !Refused(state, all[i], body)
    requires Gathered(state, attributes, BodyWith(body, all[i]))
    ensures At(all, i + 1, StateAfter(state, all[i]), BodyAfter(body, all[i]), done + Ended(all, i, state, body))
  {
    NotRefused(state, all[i], body);
    hide Opened, Tracks, Gathered, UpToHeader, NoRepeats, Closed, Refused;
    if all[i].Header? {
      if state == NotInASection {
        PreambleIsFine(all, i, state, body, done, attributes);
      }
      OpenedHeader(all, i, state, body, done);
      TracksHeader(all, i);
    } else {
      OpenedBody(all, i, state, body, done);
      TracksBody(all, i, state, body);
      assert done + [] == done;
    }
  }

  lemma LineFails(f: Formats, lines: seq<string>, all: seq<Line>, i: nat, state: ParserState, body: seq<Line>,
                  done: seq<Section>, e: ParseError)
    requires i < |lines| == |all| && At(all, i, state, body, done) && Refused(state, all[i], body)
    requires if all[i].Invalid? then e == InvalidLine(lines[i]) else AttributeError(state, body, all[i], e)
    ensures Meaning(f, all) == None && Explains(f, lines, all, e)
  {
    hide Opened, Tracks, Refused, AttributeError, Meaning, Explains;
    RefusedMeansNone(f, all, i, state, body, done);
    LineExplains(f, lines, all, i, state, body, e);
  }

  lemma EndFails(f: Formats, lines: seq<string>, all: seq<Line>, i: nat, state: ParserState, body: seq<Line>,
                 done: seq<Section>, e: ParseError)
    requires i < |all| && (all[i].Header? || i == |all| - 1)
    requires At(all, i + 1, StateAfter(state, all[i]), BodyAfter(body, all[i]), done + Ended(all, i, state, body))
    requires Hopeless(f, done + Ended(all, i, state, body))
    requires if e == MultipleInterfaces then Parts(f, done + Ended(all, i, state, body)).Some?
             else state != NotInASection && SectionError(f, Section(state == InPeerSection, BodyWith(body, all[i])), e)
    ensures Meaning(f, all) == None && Explains(f, lines, all, e)
  {
    hide Opened, Tracks, Hopeless, SectionError, Meaning, Explains, Closed, Parts;
    var state', body' := StateAfter(state, all[i]), BodyAfter(body, all[i]);
    EndedMeansNone(f, all, i + 1, state', body', done + Ended(all, i, state, body));
    EndExplains(f, lines, all, i + 1, state', body', state, BodyWith(body, all[i]), done, e);
  }

  lemma AtEnd(f: Formats, lines: seq<string>, all: seq<Line>, state: ParserState, attributes: map<string, string>,
              body: seq<Line>, done: seq<Section>, interface: Option<Interface>, peers: seq<Peer>)
    requires At(all, |all|, state, body, done) && Gathered(state, attributes, body) && Collated(f, done, interface, peers)
    ensures Meaning(f, all) ==
            if interface.Some? && DistinctKeys(peers) then Some(Tunnel(interface.value, peers)) else None
    ensures interface == None ==> Explains(f, lines, all, NoInterface)
    ensures !DistinctKeys(peers) ==> Explains(f, lines, all, MultiplePeersWithSamePublicKey)
  {
    hide Opened, Tracks, Gathered, Collated, Meaning, Explains, DistinctKeys, NoRepeats, UpToHeader;
    if state == NotInASection {
      PreambleIsFine(all, |all|, state, body, done, attributes);
    }
    ReaderEnds(f, all, state, body, done, interface, peers);
    EndOfLines(f, lines, all, state, body, done, interface, peers);
  }

  /** Accepts exactly the texts whose lines have a meaning, and returns that meaning; an error is true of the text. */
  method Read(f: Formats, text: string) returns (r: Result<Tunnel>)
    requires Lowers(f.lower)
    ensures r.ToOption() == Meaning(f, ReadLines(f, text))
    ensures r.Err? ==> Explains(f, Pieces(IsNewline, text), ReadLines(f, text), r.error)
  {
    hide At, Explains, AttributeError, SectionError, Lowers, Gathered, Collated, Meaning, Find, Trim, Pieces, Refused;
    hide Hopeless, Parts, DistinctKeys, PublicKeys, SetOf, ClassifyAll, Classify, Closed;
    var interface: Option<Interface> := None;
    var peers: seq<Peer> := [];
    var lines := Pieces(IsNewline, text);
    var state := NotInASection;
    var attributes: map<string, string> := map[];
    ghost var all := ReadLines(f, text);
    ghost var body: seq<Line>, done: seq<Section> := [], [];
    var i := 0;
    AtStart(f, all);
    while i < |lines|
      invariant i <= |lines| == |all|
      invariant At(all, i, state, body, done)
      invariant Gathered(state, attributes, body)
      invariant Collated(f, done, interface, peers)
    {
      var line := lines[i];
      assert all[i] == Classify(f, line);
      ClassifyFlags(f, line);
      var lowered := f.lower(Trim(line[..Find('#', line)]));
      var read := ReadLine(f, state, attributes, line, body);
      if read.Err? {
        LineFails(f, lines, all, i, state, body, done, read.error);
        return Err(read.error);
      }
      attributes := read.value;
      Advance(all, i, state, attributes, body, done);
      ghost var ended := Ended(all, i, state, body);
      var isLast := i == |lines| - 1;
      if isLast || lowered == "[interface]" || lowered == "[peer]" {
        var result := EndSection(f, state, attributes, interface, peers, BodyWith(body, all[i]), done);
        if result.Err? {
          EndFails(f, lines, all, i, state, body, done, result.error);
          return Err(result.error);
        }
        interface, peers := result.value.0, result.value.1;
      } else {
        assert done + [] == done;
      }
      body, done := BodyAfter(body, all[i]), done + ended;
      if lowered == "[interface]" {
        state := InInterfaceSection;
        attributes := map[];
        NothingGathered(state);
      } else if lowered == "[peer]" {
        state := InPeerSection;
        attributes := map[];
        NothingGathered(state);
      }
      i := i + 1;
    }
    var keys := PublicKeys(peers);
    CountsDistinctPeers(peers);
    AtEnd(f, lines, all, state, attributes, body, done, interface, peers);
    if |keys| != |SetOf(keys)| {
      return Err(MultiplePeersWithSamePublicKey);
    }
    if interface == None {
      return Err(NoInterface);
    }
    r := Ok(Tunnel(interface.value, peers));
  }
}
