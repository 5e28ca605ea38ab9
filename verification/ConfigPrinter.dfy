/** The configuration printer of vpn/wireguard_config_data.go, and how the lines it
    writes read back. */
module ConfigPrinter {
  import opened GoInts
  import opened GoText
  import opened Sequences
  import opened ConfigSyntax

  datatype WireguardConfigData = WireguardConfigData(
    privateKey: string,
    address: string,
    dns: string,
    peerEndpoint: string,
    peerPublicKey: string,
    allowedSubnets: seq<string>,
    keepAlivePing: int64)

  // ----- printing -------------------------------------------------------------------

  function AttrLine(a: Attr): (s: string) {
    a.key + (" = " + a.value)
  }

  function AttrLines(attrs: seq<Attr>): (ls: seq<string>)
    ensures |ls| == |attrs| && forall i :: 0 <= i < |ls| ==> ls[i] == AttrLine(attrs[i])
  {
    seq(|attrs|, i requires 0 <= i < |attrs| => AttrLine(attrs[i]))
  }

  /** An attribute that is left out when there is nothing to print. */
  function Optional(key: string, value: string, present: bool): (attrs: seq<Attr>) {
    if present then [Attr(key, value)] else []
  }

  function InterfaceAttrs(c: WireguardConfigData): (attrs: seq<Attr>) {
    [Attr("PrivateKey", c.privateKey)] + [Attr("Address", c.address + "/32")] +
    Optional("DNS", c.dns, |c.dns| > 0)
  }

  function PeerAttrs(c: WireguardConfigData): (attrs: seq<Attr>) {
    [Attr("PublicKey", c.peerPublicKey)] + [Attr("Endpoint", c.peerEndpoint)] +
    [Attr("PersistentKeepalive", PrintInt(c.keepAlivePing))] +
    Optional("AllowedIPs", Join(c.allowedSubnets, ','), |c.allowedSubnets| > 0)
  }

  const INTERFACE_HEADER := "[Interface]"
  const PEER_HEADER := "[Peer]"

  /** The two sections, with an empty line between them. */
  function Layout(h: string, interface: seq<Attr>, p: string, peer: seq<Attr>): (ls: seq<string>) {
    [h] + AttrLines(interface) + [""] + [p] + AttrLines(peer)
  }

  function Printed(c: WireguardConfigData): (text: string) {
    Unlines(Layout(INTERFACE_HEADER, InterfaceAttrs(c), PEER_HEADER, PeerAttrs(c)))
  }

  lemma AttrLinesSnoc(before: seq<string>, attrs: seq<Attr>, a: Attr)
    ensures before + AttrLines(attrs + [a]) == before + AttrLines(attrs) + [AttrLine(a)]
  {
  }

  /** The buffer gains one printed attribute. */
  method AppendAttr(text: string, key: string, value: string, ghost before: seq<string>, ghost attrs: seq<Attr>)
    returns (r: string)
    requires text == Unlines(before + AttrLines(attrs))
    ensures r == Unlines(before + AttrLines(attrs + [Attr(key, value)]))
  {
    r := text + (key + (" = " + value) + "\n");
    AttrLinesSnoc(before, attrs, Attr(key, value));
    UnlinesSnoc(before + AttrLines(attrs), AttrLine(Attr(key, value)));
  }

  method AppendOptional(text: string, key: string, value: string, present: bool,
                        ghost before: seq<string>, ghost attrs: seq<Attr>)
    returns (r: string)
    requires text == Unlines(before + AttrLines(attrs))
    ensures r == Unlines(before + AttrLines(attrs + Optional(key, value, present)))
  {
    if present {
      r := AppendAttr(text, key, value, before, attrs);
    } else {
      assert attrs + Optional(key, value, present) == attrs;
      r := text;
    }
  }

  /** The first attribute of a section. */
  method BeginAttrs(text: string, key: string, value: string, ghost before: seq<string>) returns (r: string)
    requires text == Unlines(before)
    ensures r == Unlines(before + AttrLines([Attr(key, value)]))
  {
    assert before + AttrLines([]) == before;
    r := AppendAttr(text, key, value, before, []);
    assert [] + [Attr(key, value)] == [Attr(key, value)];
  }

  method PrintInterface(c: WireguardConfigData, buffer: string, ghost before: seq<string>) returns (text: string)
    requires buffer == Unlines(before)
    ensures text == Unlines(before + AttrLines(InterfaceAttrs(c)))
  {
    ghost var attrs := [Attr("PrivateKey", c.privateKey)];
    text := BeginAttrs(buffer, "PrivateKey", c.privateKey, before);
    text := AppendAttr(text, "Address", c.address + "/32", before, attrs);
    attrs := attrs + [Attr("Address", c.address + "/32")];
    text := AppendOptional(text, "DNS", c.dns, |c.dns| > 0, before, attrs);
  }

  method PrintPeer(c: WireguardConfigData, buffer: string, ghost before: seq<string>) returns (text: string)
    requires buffer == Unlines(before)
    ensures text == Unlines(before + AttrLines(PeerAttrs(c)))
  {
    ghost var attrs := [Attr("PublicKey", c.peerPublicKey)];
    text := BeginAttrs(buffer, "PublicKey", c.peerPublicKey, before);
    text := AppendAttr(text, "Endpoint", c.peerEndpoint, before, attrs);
    attrs := attrs + [Attr("Endpoint", c.peerEndpoint)];
    text := AppendAttr(text, "PersistentKeepalive", PrintInt(c.keepAlivePing), before, attrs);
    attrs := attrs + [Attr("PersistentKeepalive", PrintInt(c.keepAlivePing))];
    text := AppendOptional(text, "AllowedIPs", Join(c.allowedSubnets, ','), |c.allowedSubnets| > 0,
                           before, attrs);
  }

  method AppendLine(text: string, line: string, ghost before: seq<string>) returns (r: string)
    requires text == Unlines(before)
    ensures r == Unlines(before + [line])
  {
    UnlinesSnoc(before, line);
    r := text + (line + "\n");
  }

  /** Writes the two sections, leaving out an empty DNS entry and an empty subnet list. */
  method Data(c: WireguardConfigData) returns (text: string)
    ensures text == Printed(c)
  {
    ghost var h, i := [INTERFACE_HEADER], AttrLines(InterfaceAttrs(c));
    text := AppendLine("", INTERFACE_HEADER, []);
    assert [] + [INTERFACE_HEADER] == h;
    text := PrintInterface(c, text, h);
    text := AppendLine(text, "", h + i);
    text := AppendLine(text, PEER_HEADER, h + i + [""]);
    text := PrintPeer(c, text, h + i + [""] + [PEER_HEADER]);
  }

  // ----- the printed text -----------------------------------------------------------------

  lemma AttrText(key: string, prefix: string, value: string)
    requires prefix == key + " = "
    ensures Unlines(AttrLines([Attr(key, value)])) == prefix + value + "\n"
  {
    Assoc(key, " = ", value);
    UnlinesOne(AttrLine(Attr(key, value)));
    assert AttrLines([Attr(key, value)]) == [AttrLine(Attr(key, value))];
  }

  lemma AttrsText(a: seq<Attr>, b: seq<Attr>)
    ensures Unlines(AttrLines(a + b)) == Unlines(AttrLines(a)) + Unlines(AttrLines(b))
  {
    assert AttrLines(a + b) == AttrLines(a) + AttrLines(b);
    UnlinesConcat(AttrLines(a), AttrLines(b));
  }

  lemma OptionalText(key: string, prefix: string, value: string, present: bool)
    requires prefix == key + " = "
    ensures Unlines(AttrLines(Optional(key, value, present))) == if present then prefix + value + "\n" else ""
  {
    if present {
      AttrText(key, prefix, value);
    }
  }

  lemma InterfaceText(c: WireguardConfigData)
    ensures Unlines(AttrLines(InterfaceAttrs(c))) ==
            ("PrivateKey = " + c.privateKey + "\n") + ("Address = " + (c.address + "/32") + "\n") +
            (if |c.dns| > 0 then "DNS = " + c.dns + "\n" else "")
  {
    AttrText("PrivateKey", "PrivateKey = ", c.privateKey);
    AttrText("Address", "Address = ", c.address + "/32");
    OptionalText("DNS", "DNS = ", c.dns, |c.dns| > 0);
    var k, a := [Attr("PrivateKey", c.privateKey)], [Attr("Address", c.address + "/32")];
    AttrsText(k, a);
    AttrsText(k + a, Optional("DNS", c.dns, |c.dns| > 0));
  }

  lemma PeerText(c: WireguardConfigData)
    ensures Unlines(AttrLines(PeerAttrs(c))) ==
            ("PublicKey = " + c.peerPublicKey + "\n") + ("Endpoint = " + c.peerEndpoint + "\n") +
            ("PersistentKeepalive = " + PrintInt(c.keepAlivePing) + "\n") +
            (if |c.allowedSubnets| > 0 then "AllowedIPs = " + Join(c.allowedSubnets, ',') + "\n" else "")
  {
    var subnets, some := Join(c.allowedSubnets, ','), |c.allowedSubnets| > 0;
    AttrText("PublicKey", "PublicKey = ", c.peerPublicKey);
    AttrText("Endpoint", "Endpoint = ", c.peerEndpoint);
    AttrText("PersistentKeepalive", "PersistentKeepalive = ", PrintInt(c.keepAlivePing));
    OptionalText("AllowedIPs", "AllowedIPs = ", subnets, some);
    var k, e := [Attr("PublicKey", c.peerPublicKey)], [Attr("Endpoint", c.peerEndpoint)];
    var a := [Attr("PersistentKeepalive", PrintInt(c.keepAlivePing))];
    AttrsText(k, e);
    AttrsText(k + e, a);
    AttrsText(k + e + a, Optional("AllowedIPs", subnets, some));
  }

  /** The text itself: the two sections with an empty line between them. */
  lemma PrintedText(c: WireguardConfigData)
    ensures Printed(c) ==
            "[Interface]\n" +
            (("PrivateKey = " + c.privateKey + "\n") + ("Address = " + (c.address + "/32") + "\n") +
             (if |c.dns| > 0 then "DNS = " + c.dns + "\n" else "")) +
            "\n" + "[Peer]\n" +
            (("PublicKey = " + c.peerPublicKey + "\n") + ("Endpoint = " + c.peerEndpoint + "\n") +
             ("PersistentKeepalive = " + PrintInt(c.keepAlivePing) + "\n") +
             (if |c.allowedSubnets| > 0 then "AllowedIPs = " + Join(c.allowedSubnets, ',') + "\n" else ""))
  {
    InterfaceText(c);
    PeerText(c);
    LayoutText(INTERFACE_HEADER, InterfaceAttrs(c), PEER_HEADER, PeerAttrs(c));
    assert INTERFACE_HEADER + "\n" == "[Interface]\n" && PEER_HEADER + "\n" == "[Peer]\n";
  }

  lemma LayoutText(h: string, interface: seq<Attr>, p: string, peer: seq<Attr>)
    ensures Unlines(Layout(h, interface, p, peer)) ==
            (h + "\n") + Unlines(AttrLines(interface)) + "\n" + (p + "\n") + Unlines(AttrLines(peer))
  {
    var i, q := AttrLines(interface), AttrLines(peer);
    UnlinesOne(h);
    UnlinesOne("");
    UnlinesOne(p);
    UnlinesConcat([h], i);
    UnlinesConcat([h] + i, [""]);
    UnlinesConcat([h] + i + [""], [p]);
    UnlinesConcat([h] + i + [""] + [p], q);
    assert "" + "\n" == "\n";
  }

  // ----- reading back single lines ---------------------------------------------------

  /** A key the attribute pattern can read. */
  predicate GoodKey(key: string) {
    key != "" && KeyRun(key, 0, |key|)
  }

  lemma ReadableChomped(v: string)
    requires Readable(v)
    ensures Readable(DropCR(v))
  {
    var w := DropCR(v);
    if HasBrackets(w) {
      var i, j :| HeaderMatch(w, i, j);
      assert HeaderMatch(v, i, j);
    }
  }

  lemma NoHeaderInAssignment(a: Attr)
    requires GoodKey(a.key) && !HasBrackets(a.value)
    ensures HeaderName(AttrLine(a)).None?
  {
    var line := AttrLine(a);
    var v := |a.key| + 3;
    HeaderIsLeftmostLongest(line);
    assert line[v..] == a.value;
    forall x | 0 <= x < v ensures line[x] != '[' {
      if x < |a.key| {
        assert line[x] == a.key[x] && IsKeyChar(a.key[x]);
      } else {
        assert line[x] == " = "[x - |a.key|];
      }
    }
    if HasBrackets(line) {
      var i, j :| HeaderMatch(line, i, j);
      assert HeaderMatch(a.value, i - v, j - v);
    }
  }

  lemma AssignmentReads(a: Attr)
    requires GoodKey(a.key) && Readable(a.value)
    ensures Classify(AttrLine(a)) == Assignment(a)
  {
    var line, k := AttrLine(a), |a.key|;
    NoHeaderInAssignment(a);
    assert line[..k] == a.key && line[k + 3..] == a.value;
    assert line[k] == ' ' && line[k + 1] == '=' && line[k + 2] == ' ';
    assert forall x :: 0 <= x < k ==> line[x] == a.key[x];
    assert k + 3 < |line| ==> line[k + 3] == a.value[0];
    AttributeReads(line, k, k + 1, k + 3);
    ClassifiesAssignment(line, a);
  }

  lemma HeadersRead()
    ensures Classify(INTERFACE_HEADER) == Header("Interface")
    ensures Classify(PEER_HEADER) == Header("Peer")
    ensures Classify("") == Other
  {
    HeaderReads("Interface", INTERFACE_HEADER);
    HeaderReads("Peer", PEER_HEADER);
  }

  lemma HeaderReads(name: string, line: string)
    requires line == "[" + name + "]"
    ensures Classify(line) == Header(name)
  {
    var j := |name| + 1;
    assert line[0] == '[' && line[j] == ']' && line[1..j] == name;
    assert line[..0] == "" && line[j + 1..] == "";
    BracketsAreHeader(line, 0, j);
  }

  // ----- reading back the text --------------------------------------------------------

  ghost predicate Legible(attrs: seq<Attr>) {
    forall i :: 0 <= i < |attrs| ==> GoodKey(attrs[i].key) && Readable(attrs[i].value)
  }

  /** The attributes as they come back: a carriage return at the end of a value is lost. */
  function Chomped(attrs: seq<Attr>): (r: seq<Attr>)
    ensures |r| == |attrs|
    ensures forall i :: 0 <= i < |r| ==> r[i] == Attr(attrs[i].key, DropCR(attrs[i].value))
  {
    seq(|attrs|, i requires 0 <= i < |attrs| => Attr(attrs[i].key, DropCR(attrs[i].value)))
  }

  /** Attributes that print on one line each. */
  predicate Unbroken(attrs: seq<Attr>) {
    forall i :: 0 <= i < |attrs| ==> GoodKey(attrs[i].key) && Lacks(attrs[i].value, '\n')
  }

  function Assignments(attrs: seq<Attr>): (ls: seq<Line>)
    ensures |ls| == |attrs| && forall i :: 0 <= i < |ls| ==> ls[i] == Assignment(attrs[i])
  {
    seq(|attrs|, i requires 0 <= i < |attrs| => Assignment(attrs[i]))
  }

  lemma DropCRLine(a: Attr)
    ensures DropCR(AttrLine(a)) == AttrLine(Attr(a.key, DropCR(a.value)))
  {
  }

  /** The lines as the scanner returns them, classified. */
  function Read(ls: seq<string>): (r: seq<Line>)
    ensures |r| == |ls| && forall i :: 0 <= i < |ls| ==> r[i] == Classify(DropCR(ls[i]))
  {
    seq(|ls|, i requires 0 <= i < |ls| => Classify(DropCR(ls[i])))
  }

  lemma ReadConcat(a: seq<string>, b: seq<string>)
    ensures Read(a + b) == Read(a) + Read(b)
  {
  }

  lemma ReadAttrs(attrs: seq<Attr>)
    requires Legible(attrs)
    ensures Read(AttrLines(attrs)) == Assignments(Chomped(attrs))
  {
    forall i | 0 <= i < |attrs|
      ensures Classify(DropCR(AttrLine(attrs[i]))) == Assignment(Chomped(attrs)[i])
    {
      DropCRLine(attrs[i]);
      ReadableChomped(attrs[i].value);
      AssignmentReads(Chomped(attrs)[i]);
    }
  }

  lemma ReadHeaders()
    ensures Read([INTERFACE_HEADER]) == [Header("Interface")]
    ensures Read([""]) == [Other] && Read([PEER_HEADER]) == [Header("Peer")]
  {
    HeadersRead();
  }

  /** The printed lines, classified. */
  lemma ReadLayout(interface: seq<Attr>, peer: seq<Attr>)
    requires Legible(interface)
    ensures Read(Layout(INTERFACE_HEADER, interface, PEER_HEADER, peer)) ==
            [Header("Interface")] + Assignments(Chomped(interface)) + [Other] + [Header("Peer")] +
            Read(AttrLines(peer))
  {
    var h, i, p := [INTERFACE_HEADER], AttrLines(interface), AttrLines(peer);
    ReadConcat(h, i);
    ReadConcat(h + i, [""]);
    ReadConcat(h + i + [""], [PEER_HEADER]);
    ReadConcat(h + i + [""] + [PEER_HEADER], p);
    ReadHeaders();
    ReadAttrs(interface);
  }

  lemma LayoutUnbroken(h: string, interface: seq<Attr>, p: string, peer: seq<Attr>)
    requires Unbroken(interface) && Unbroken(peer) && Lacks(h, '\n') && Lacks(p, '\n')
    ensures forall i :: 0 <= i < |Layout(h, interface, p, peer)| ==> Lacks(Layout(h, interface, p, peer)[i], '\n')
  {
  }

  function ExtendAll(secs: seq<Section>, attrs: seq<Attr>): (r: seq<Section>)
    requires secs != []
  {
    var n := |secs| - 1;
    secs[..n] + [Section(secs[n].name, secs[n].attrs + attrs)]
  }

  lemma ExtendAllSnoc(secs: seq<Section>, attrs: seq<Attr>, a: Attr)
    requires secs != []
    ensures Extend(ExtendAll(secs, attrs), a) == ExtendAll(secs, attrs + [a])
  {
    var k := |secs| - 1;
    assert secs[k].attrs + attrs + [a] == secs[k].attrs + (attrs + [a]);
  }

  lemma ExtendAllNone(secs: seq<Section>)
    requires secs != []
    ensures ExtendAll(secs, []) == secs
  {
    var k := |secs| - 1;
    assert secs[k].attrs + [] == secs[k].attrs;
  }

  lemma AssignmentsSnoc(ls: seq<Line>, attrs: seq<Attr>, a: Attr)
    ensures ls + Assignments(attrs + [a]) == ls + Assignments(attrs) + [Assignment(a)]
  {
  }

  lemma {:induction false} SectionsOfAssignments(ls: seq<Line>, attrs: seq<Attr>)
    requires Sections(ls) != []
    ensures Sections(ls + Assignments(attrs)) == ExtendAll(Sections(ls), attrs)
    decreases |attrs|
  {
    if attrs == [] {
      assert ls + Assignments(attrs) == ls;
      ExtendAllNone(Sections(ls));
    } else {
      var n := |attrs| - 1;
      var init, a := attrs[..n], attrs[n];
      SectionsOfAssignments(ls, init);
      SectionsSnoc(ls + Assignments(init), Assignment(a));
      ExtendAllSnoc(Sections(ls), init, a);
      AssignmentsSnoc(ls, init, a);
      assert attrs == init + [a];
    }
  }

  lemma SectionsSnoc(ls: seq<Line>, l: Line)
    ensures Sections(ls + [l]) == NextSections(Sections(ls), l)
  {
  }

  /** Two sections with the given attributes. */
  function TwoSections(interface: seq<Attr>, peer: seq<Attr>): (secs: seq<Section>) {
    [Section("Interface", interface), Section("Peer", peer)]
  }

  /** A header and its attributes add one section to what came before. */
  lemma SectionAdded(ls: seq<Line>, name: string, attrs: seq<Attr>)
    ensures Sections(ls + [Header(name)] + Assignments(attrs)) == Sections(ls) + [Section(name, attrs)]
  {
    var secs := Sections(ls);
    SectionsSnoc(ls, Header(name));
    SectionsOfAssignments(ls + [Header(name)], attrs);
    var open := secs + [Section(name, [])];
    assert open[..|secs|] == secs && open[|secs|] == Section(name, []);
    assert [] + attrs == attrs;
  }

  lemma LayoutSections(i: string, p: string, interface: seq<Attr>, peer: seq<Attr>)
    ensures Sections([Header(i)] + Assignments(interface) + [Other] + [Header(p)] + Assignments(peer)) ==
            [Section(i, interface), Section(p, peer)]
  {
    SectionAdded([], i, interface);
    var one := [Header(i)] + Assignments(interface);
    assert [] + [Header(i)] + Assignments(interface) == one;
    SectionsSnoc(one, Other);
    SectionAdded(one + [Other], p, peer);
  }

  /** The sections of a printed text are those of its lines. */
  lemma PrintedLines(c: WireguardConfigData)
    requires Unbroken(InterfaceAttrs(c)) && Unbroken(PeerAttrs(c))
    ensures TextSections(Printed(c)) ==
            Sections(Read(Layout(INTERFACE_HEADER, InterfaceAttrs(c), PEER_HEADER, PeerAttrs(c))))
  {
    var i, p := InterfaceAttrs(c), PeerAttrs(c);
    var ls := Layout(INTERFACE_HEADER, i, PEER_HEADER, p);
    LayoutUnbroken(INTERFACE_HEADER, i, PEER_HEADER, p);
    LinesOfUnlines(ls, "");
    assert Printed(c) + "" == Printed(c);
    assert Dropped(ls) + [] == Dropped(ls);
    assert ClassifyAll(Dropped(ls)) == Read(ls);
  }

  lemma PrintedReadsBack(c: WireguardConfigData)
    requires Legible(InterfaceAttrs(c)) && Legible(PeerAttrs(c))
    ensures TextSections(Printed(c)) == TwoSections(Chomped(InterfaceAttrs(c)), Chomped(PeerAttrs(c)))
  {
    var i, p := InterfaceAttrs(c), PeerAttrs(c);
    PrintedLines(c);
    ReadLayout(i, p);
    ReadAttrs(p);
    LayoutSections("Interface", "Peer", Chomped(i), Chomped(p));
  }
}
