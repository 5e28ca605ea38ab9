/** What becomes of an endpoint with a bracketed address, as IPv6 needs it. */
module ConfigBrackets {
  import opened GoText
  import opened WireguardTypes
  import opened ConfigSyntax
  import opened ConfigParser
  import opened ConfigPrinter
  import opened ConfigRoundTrip

  function Bracketed(host: string, port: string): (endpoint: string) {
    "[" + host + "]" + port
  }

  /** Such an endpoint never survives, whatever the rest of the record is. */
  lemma BracketsNeverSurvive(c: WireguardConfigData, host: string, port: string)
    requires c.peerEndpoint == Bracketed(host, port)
    ensures TextSections(Printed(c)) != TwoSections(InterfaceAttrs(c), PeerAttrs(c))
  {
    assert HeaderMatch(c.peerEndpoint, 0, 1 + |host|);
    SectionsSurvive(c);
  }

  // ----- the line is a header ---------------------------------------------------------

  lemma ChompedBrackets(host: string, port: string)
    ensures DropCR(Bracketed(host, port)) == Bracketed(host, DropCR(port))
  {
    var s := Bracketed(host, port);
    if port == [] {
      assert s[|s| - 1] == ']';
    } else {
      assert s[|s| - 1] == port[|port| - 1];
    }
  }

  lemma LacksChomped(s: string, c: char)
    requires Lacks(s, c)
    ensures Lacks(DropCR(s), c)
  {
  }

  lemma BracketedLine(key: string, host: string, port: string)
    requires GoodKey(key) && Lacks(port, ']')
    ensures Classify(AttrLine(Attr(key, Bracketed(host, port)))) == Header(host)
  {
    var v := Bracketed(host, port);
    var line := AttrLine(Attr(key, v));
    var i := |key| + 3;
    var j := i + 1 + |host|;
    assert line[i..] == v;
    assert line[i] == v[0] == '[' && line[j] == v[1 + |host|] == ']';
    assert line[i + 1..j] == host;
    assert line[j + 1..] == port;
    assert forall x :: 0 <= x < |key| ==> line[x] == key[x];
    assert line[|key|] == ' ' && line[|key| + 1] == '=' && line[|key| + 2] == ' ';
    BracketsAreHeader(line, i, j);
  }

  /** The line that holds the endpoint reads as a section header. */
  lemma EndpointReadsAsHeader(key: string, host: string, port: string)
    requires GoodKey(key) && Lacks(port, ']')
    ensures Read(AttrLines([Attr(key, Bracketed(host, port))])) == [Header(host)]
  {
    var a := Attr(key, Bracketed(host, port));
    DropCRLine(a);
    ChompedBrackets(host, port);
    LacksChomped(port, ']');
    BracketedLine(key, host, DropCR(port));
  }

  // ----- the sections -------------------------------------------------------------------

  /** What is printed after the endpoint. */
  function Rest(c: WireguardConfigData): (attrs: seq<Attr>) {
    [Attr("PersistentKeepalive", PrintInt(c.keepAlivePing))] +
    Optional("AllowedIPs", Join(c.allowedSubnets, ','), |c.allowedSubnets| > 0)
  }

  lemma ReadPeer(k: seq<Attr>, e: Attr, rest: seq<Attr>)
    ensures Read(AttrLines(k + [e] + rest)) ==
            Read(AttrLines(k)) + Read(AttrLines([e])) + Read(AttrLines(rest))
  {
    assert AttrLines(k + [e] + rest) == AttrLines(k) + AttrLines([e]) + AttrLines(rest);
    ReadConcat(AttrLines(k), AttrLines([e]));
    ReadConcat(AttrLines(k) + AttrLines([e]), AttrLines(rest));
  }

  lemma ThreeSections(i: string, interface: seq<Attr>, p: string, peer: seq<Attr>, h: string, rest: seq<Attr>)
    ensures Sections([Header(i)] + Assignments(interface) + [Other] + [Header(p)] +
                     (Assignments(peer) + [Header(h)] + Assignments(rest))) ==
            [Section(i, interface), Section(p, peer), Section(h, rest)]
  {
    LayoutSections(i, p, interface, peer);
    var two := [Header(i)] + Assignments(interface) + [Other] + [Header(p)];
    SectionAdded(two + Assignments(peer), h, rest);
    assert two + (Assignments(peer) + [Header(h)] + Assignments(rest)) ==
           two + Assignments(peer) + [Header(h)] + Assignments(rest);
  }

  /** All printed values but the endpoint come back unchanged. */
  ghost predicate OthersClean(c: WireguardConfigData) {
    && Clean(c.privateKey) && Clean(c.address + "/32") && Clean(c.dns)
    && Clean(c.peerPublicKey) && Clean(Join(c.allowedSubnets, ','))
  }

  lemma CleanParts(c: WireguardConfigData)
    requires OthersClean(c)
    ensures AllClean(InterfaceAttrs(c)) && AllClean([Attr("PublicKey", c.peerPublicKey)]) && AllClean(Rest(c))
  {
    PrintedNumberClean(c.keepAlivePing);
  }

  lemma PeerParts(c: WireguardConfigData)
    ensures PeerAttrs(c) ==
            [Attr("PublicKey", c.peerPublicKey)] + [Attr("Endpoint", c.peerEndpoint)] + Rest(c)
    ensures GoodKeys(InterfaceAttrs(c)) && GoodKeys([Attr("PublicKey", c.peerPublicKey)]) && GoodKeys(Rest(c))
    ensures GoodKey("Endpoint")
  {
    KeysAreGood(c);
    var k, e, all := [Attr("PublicKey", c.peerPublicKey)], [Attr("Endpoint", c.peerEndpoint)], PeerAttrs(c);
    assert all == k + e + Rest(c);
    assert forall n :: 0 <= n < |Rest(c)| ==> Rest(c)[n] == all[n + 2];
    assert k[0] == all[0] && e[0] == all[1];
  }

  lemma ReadClean(attrs: seq<Attr>)
    requires GoodKeys(attrs) && AllClean(attrs)
    ensures Legible(attrs) && Chomped(attrs) == attrs && Read(AttrLines(attrs)) == Assignments(attrs)
  {
    LegibleIfReadable(attrs);
    ChompedIfClean(attrs);
    ReadAttrs(attrs);
  }

  /** The host opens a section of its own, which takes the rest of the peer along. */
  lemma BracketedSections(c: WireguardConfigData, host: string, port: string)
    requires c.peerEndpoint == Bracketed(host, port) && OthersClean(c)
    requires Lacks(c.peerEndpoint, '\n') && Lacks(port, ']')
    ensures TextSections(Printed(c)) ==
            [Section("Interface", InterfaceAttrs(c)),
             Section("Peer", [Attr("PublicKey", c.peerPublicKey)]),
             Section(host, Rest(c))]
  {
    var i, k, rest := InterfaceAttrs(c), [Attr("PublicKey", c.peerPublicKey)], Rest(c);
    var e := Attr("Endpoint", c.peerEndpoint);
    CleanParts(c);
    PeerParts(c);
    ReadClean(i);
    ReadClean(k);
    ReadClean(rest);
    PrintedLines(c);
    ReadLayout(i, PeerAttrs(c));
    ReadPeer(k, e, rest);
    EndpointReadsAsHeader("Endpoint", host, port);
    ThreeSections("Interface", i, "Peer", k, host, rest);
  }

  // ----- what the parser makes of it ----------------------------------------------------

  lemma {:induction false} IgnoredHasNoError(env: Parsers, attrs: seq<Attr>)
    ensures SectionError(env, Ignored, attrs).None?
  {
    if attrs != [] {
      IgnoredHasNoError(env, attrs[..|attrs| - 1]);
    }
  }

  lemma IgnoredSectionMeans(env: Parsers, secs: seq<Section>, name: string, attrs: seq<Attr>)
    requires KindOf(name).Ignored?
    ensures Meaning(env, secs + [Section(name, attrs)]) == Meaning(env, secs)
    ensures FirstError(env, secs + [Section(name, attrs)]) == FirstError(env, secs)
  {
    var all := secs + [Section(name, attrs)];
    assert all[..|secs|] == secs;
    IgnoredHasNoError(env, attrs);
    assert AttrsOf(all, Interface) == AttrsOf(secs, Interface);
    assert AttrsOf(all, Peer) == AttrsOf(secs, Peer);
    assert PeersOf(env, all) == PeersOf(env, secs);
  }

  lemma KeyOnlyMeans(env: Parsers, k: Attr)
    requires FieldOf(k.key).PublicKey?
    ensures SectionError(env, Peer, [k]) == Unless(env.key(k.value), BadKey(k.value))
    ensures PeerOf(env, [k]) == NO_PEER.(publicKey := Or(env.key(k.value), ZERO_KEY))
    ensures EndpointIPs(env, [k]) == [] && !SomeRoutesAll([k])
  {
    assert [] + [k] == [k];
    SectionErrorSnoc(env, Peer, [], k);
    PeerOfSnoc(env, [], k);
    EndpointsSnoc(env, [], k);
    NoRoutes([k]);
    assert PeerOf(env, []) == NO_PEER;
  }

  /** The configuration that is left: one peer with its key and nothing else. */
  function KeyOnly(env: Parsers, c: WireguardConfigData): (r: WireguardConfig) {
    WireguardConfig(env.key(c.privateKey), c.address + "/32", c.dns, [], false,
                    [NO_PEER.(publicKey := Or(env.key(c.peerPublicKey), ZERO_KEY))])
  }

  /** Printing a record with a bracketed endpoint and parsing the text succeeds whenever the
      two keys are good, and yields a peer without endpoint, keepalive and networks. */
  lemma BracketedEndpointIsLost(env: Parsers, c: WireguardConfigData, host: string, port: string)
    requires c.peerEndpoint == Bracketed(host, port) && OthersClean(c)
    requires Lacks(c.peerEndpoint, '\n') && Lacks(port, ']') && KindOf(host).Ignored?
    ensures ParseSpec(env, Printed(c)).Ok? <==> env.key(c.privateKey).Some? && env.key(c.peerPublicKey).Some?
    ensures ParseSpec(env, Printed(c)).Ok? ==> ParseSpec(env, Printed(c)).value == KeyOnly(env, c)
  {
    BracketedSections(c, host, port);
    var two := TwoSections(InterfaceAttrs(c), [Attr("PublicKey", c.peerPublicKey)]);
    assert TextSections(Printed(c)) == two + [Section(host, Rest(c))];
    IgnoredSectionMeans(env, two, host, Rest(c));
    KeyOnlyAccepted(env, c);
    KeyOnlyConfig(env, c);
  }

  lemma KeyOnlyAccepted(env: Parsers, c: WireguardConfigData)
    ensures FirstError(env, TwoSections(InterfaceAttrs(c), [Attr("PublicKey", c.peerPublicKey)])).None? <==>
            env.key(c.privateKey).Some? && env.key(c.peerPublicKey).Some?
  {
    var k := Attr("PublicKey", c.peerPublicKey);
    TwoSectionsMean(env, InterfaceAttrs(c), [k]);
    InterfaceMeans(env, c);
    Names();
    KeyOnlyMeans(env, k);
  }

  lemma KeyOnlyConfig(env: Parsers, c: WireguardConfigData)
    ensures Meaning(env, TwoSections(InterfaceAttrs(c), [Attr("PublicKey", c.peerPublicKey)])) == KeyOnly(env, c)
  {
    var k := Attr("PublicKey", c.peerPublicKey);
    TwoSectionsMean(env, InterfaceAttrs(c), [k]);
    InterfaceMeans(env, c);
    Names();
    KeyOnlyMeans(env, k);
  }
}
