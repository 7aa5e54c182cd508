/** The writer of wg-quick text, which appends to its output field by field. */
module WgQuickWriter {
  import opened Options
  import opened ConfigText
  import opened WgQuick

  lemma {:induction false} UnlinesSplit(a: seq<string>, b: seq<string>)
    ensures Unlines(a + b) == Unlines(a) + Unlines(b)
  {
    if a == [] {
      assert a + b == b;
    } else {
      assert (a + b)[1..] == a[1..] + b;
      UnlinesSplit(a[1..], b);
    }
  }

  lemma UnlinesOne(line: string)
    ensures Unlines([line]) == line + "\n"
  {
    assert [line][1..] == [];
  }

  /** The text of the first k fields grows by one line, or not at all. */
  lemma ShownNext(fields: seq<FieldText>, k: nat)
    requires k < |fields|
    ensures Unlines(Shown(fields[..k + 1])) ==
            Unlines(Shown(fields[..k])) +
            if fields[k].value.None? then "" else Assign(fields[k].name, fields[k].value.value) + "\n"
  {
    var next := fields[..k + 1];
    assert next[..k] == fields[..k];
    if fields[k].value.None? {
      assert Shown(next) == Shown(fields[..k]);
    } else {
      var line := Assign(fields[k].name, fields[k].value.value);
      UnlinesSplit(Shown(fields[..k]), [line]);
      UnlinesOne(line);
    }
  }

  ghost predicate WrittenUpTo(output: string, head: string, fields: seq<FieldText>, k: nat) {
    k <= |fields| && output == head + Unlines(Shown(fields[..k]))
  }

  lemma NothingWritten(head: string, fields: seq<FieldText>)
    ensures WrittenUpTo(head, head, fields, 0)
  {
  }

  lemma AllWritten(output: string, head: string, fields: seq<FieldText>)
    requires WrittenUpTo(output, head, fields, |fields|)
    ensures output == head + Unlines(Shown(fields))
  {
    assert fields[..|fields|] == fields;
  }

  lemma FieldWritten(output: string, head: string, fields: seq<FieldText>, k: nat, field: FieldText)
    requires WrittenUpTo(output, head, fields, k) && k < |fields| && fields[k] == field
    ensures field.value.None? ==> WrittenUpTo(output, head, fields, k + 1)
    ensures field.value.Some? ==>
              WrittenUpTo(output + (Assign(field.name, field.value.value) + "\n"), head, fields, k + 1)
  {
    ShownNext(fields, k);
    hide Shown, Unlines, Assign;
  }

  method WriteInterface(f: Formats, interface: Interface) returns (output: string)
    ensures output == "[Interface]\n" + Unlines(Shown(InterfaceFields(f, interface)))
  {
    ghost var fields := InterfaceFields(f, interface);
    ghost var head := "[Interface]\n";
    hide Shown, Unlines, Join, Texts, PortText, Assign, WrittenUpTo;
    output := "[Interface]\n";
    NothingWritten(head, fields);
    FieldWritten(output, head, fields, 0, fields[0]);
    output := output + (Assign("PrivateKey", f.key.text(interface.privateKey)) + "\n");
    FieldWritten(output, head, fields, 1, fields[1]);
    if interface.listenPort.Some? {
      output := output + (Assign("ListenPort", PortText(interface.listenPort.value)) + "\n");
    }
    FieldWritten(output, head, fields, 2, fields[2]);
    if interface.addresses != [] {
      var addressString := Join(", ", Texts(f.range, interface.addresses));
      output := output + (Assign("Address", addressString) + "\n");
    }
    FieldWritten(output, head, fields, 3, fields[3]);
    if interface.dns != [] || interface.dnsSearch != [] {
      var dnsLine := Texts(f.server, interface.dns);
      dnsLine := dnsLine + interface.dnsSearch;
      output := output + (Assign("DNS", Join(", ", dnsLine)) + "\n");
    }
    FieldWritten(output, head, fields, 4, fields[4]);
    if interface.mtu.Some? {
      output := output + (Assign("MTU", PortText(interface.mtu.value)) + "\n");
    }
    AllWritten(output, head, fields);
  }

  method WritePeer(f: Formats, written: string, peer: Peer) returns (output: string)
    ensures output == written + "\n[Peer]\n" + Unlines(Shown(PeerFields(f, peer)))
  {
    ghost var fields := PeerFields(f, peer);
    ghost var head := written + "\n[Peer]\n";
    hide Shown, Unlines, Join, Texts, PortText, Assign, WrittenUpTo;
    output := written + "\n[Peer]\n";
    NothingWritten(head, fields);
    FieldWritten(output, head, fields, 0, fields[0]);
    output := output + (Assign("PublicKey", f.key.text(peer.publicKey)) + "\n");
    FieldWritten(output, head, fields, 1, fields[1]);
    if peer.preSharedKey.Some? {
      output := output + (Assign("PresharedKey", f.key.text(peer.preSharedKey.value)) + "\n");
    }
    FieldWritten(output, head, fields, 2, fields[2]);
    if peer.allowedIPs != [] {
      var allowedIPsString := Join(", ", Texts(f.range, peer.allowedIPs));
      output := output + (Assign("AllowedIPs", allowedIPsString) + "\n");
    }
    FieldWritten(output, head, fields, 3, fields[3]);
    if peer.endpoint.Some? {
      output := output + (Assign("Endpoint", f.endpoint.text(peer.endpoint.value)) + "\n");
    }
    FieldWritten(output, head, fields, 4, fields[4]);
    if peer.persistentKeepAlive.Some? {
      output := output + (Assign("PersistentKeepalive", PortText(peer.persistentKeepAlive.value)) + "\n");
    }
    AllWritten(output, head, fields);
  }

  lemma {:induction false} PeersNext(f: Formats, peers: seq<Peer>, k: nat)
    requires k < |peers|
    ensures PeersLines(f, peers[..k + 1]) == PeersLines(f, peers[..k]) + (["", "[Peer]"] + Shown(PeerFields(f, peers[k])))
  {
    hide Shown, PeerFields;
    var next := peers[..k + 1];
    if k == 0 {
      assert next[1..] == [] && peers[..0] == [];
    } else {
      PeersNext(f, peers[1..], k - 1);
      assert next[1..] == peers[1..][..k] && peers[..k][1..] == peers[1..][..k - 1];
    }
  }

  lemma PeerWritten(f: Formats, head: seq<string>, peers: seq<Peer>, k: nat)
    requires k < |peers|
    ensures Unlines(head + PeersLines(f, peers[..k + 1])) ==
            Unlines(head + PeersLines(f, peers[..k])) + "\n[Peer]\n" + Unlines(Shown(PeerFields(f, peers[k])))
  {
    PeersNext(f, peers, k);
    hide Shown, PeerFields, PeersLines;
    var before, shown := head + PeersLines(f, peers[..k]), Shown(PeerFields(f, peers[k]));
    assert head + PeersLines(f, peers[..k + 1]) == before + (["", "[Peer]"] + shown);
    UnlinesSplit(before, ["", "[Peer]"] + shown);
    UnlinesSplit(["", "[Peer]"], shown);
    UnlinesHeader();
    hide Unlines;
  }

  lemma UnlinesHeader()
    ensures Unlines(["", "[Peer]"]) == "\n[Peer]\n"
  {
    UnlinesSplit([""], ["[Peer]"]);
    UnlinesOne("");
    UnlinesOne("[Peer]");
    assert [""] + ["[Peer]"] == ["", "[Peer]"];
  }

  /** What the writer appends is the text of the lines, in their order. */
  method Write(f: Formats, c: Tunnel) returns (output: string)
    ensures output == Written(f, c)
  {
    ghost var head := ["[Interface]"] + Shown(InterfaceFields(f, c.interface));
    output := WriteInterface(f, c.interface);
    UnlinesSplit(["[Interface]"], Shown(InterfaceFields(f, c.interface)));
    UnlinesOne("[Interface]");
    assert head + PeersLines(f, c.peers[..0]) == head;
    hide Unlines, PeersLines, PeerFields, InterfaceFields, Shown;
    var i := 0;
    while i < |c.peers|
      invariant i <= |c.peers| && output == Unlines(head + PeersLines(f, c.peers[..i]))
    {
      PeerWritten(f, head, c.peers, i);
      output := WritePeer(f, output, c.peers[i]);
      i := i + 1;
    }
    assert c.peers[..i] == c.peers;
  }
}
