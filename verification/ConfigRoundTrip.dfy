/** Printing a configuration and parsing the text again. */
module ConfigRoundTrip {
  import opened Outcomes
  import opened GoText
  import opened WireguardTypes
  import opened ConfigSyntax
  import opened ConfigParser
  import opened ConfigPrinter

  /** A value that a printed line gives back unchanged. */
  ghost predicate Clean(v: string) {
    Readable(v) && !EndsWithCR(v)
  }

  ghost predicate AllClean(attrs: seq<Attr>) {
    forall i :: 0 <= i < |attrs| ==> Clean(attrs[i].value)
  }

  /** The printed values have no line break, no leading blank, no `[` before a `]`, and
      no carriage return at the end. */
  ghost predicate WellFormed(c: WireguardConfigData) {
    && Clean(c.privateKey) && Clean(c.address + "/32") && Clean(c.dns)
    && Clean(c.peerPublicKey) && Clean(c.peerEndpoint) && Clean(Join(c.allowedSubnets, ','))
  }

  predicate GoodKeys(attrs: seq<Attr>) {
    forall i :: 0 <= i < |attrs| ==> GoodKey(attrs[i].key)
  }

  lemma InterfaceKeysGood()
    ensures GoodKey("PrivateKey") && GoodKey("Address") && GoodKey("DNS")
  {
  }

  lemma PeerKeysGood()
    ensures GoodKey("PublicKey") && GoodKey("Endpoint") && GoodKey("AllowedIPs")
  {
  }

  lemma KeepaliveKeyGood()
    ensures GoodKey("PersistentKeepalive")
  {
  }

  lemma KeysAreGood(c: WireguardConfigData)
    ensures GoodKeys(InterfaceAttrs(c)) && GoodKeys(PeerAttrs(c))
  {
    InterfaceKeysGood();
    PeerKeysGood();
    KeepaliveKeyGood();
  }

  lemma PrintedNumberClean(n: int)
    ensures Clean(PrintInt(n))
  {
  }

  lemma EmptyClean()
    ensures Clean("")
  {
  }

  lemma WellFormedIsClean(c: WireguardConfigData)
    ensures WellFormed(c) <==> AllClean(InterfaceAttrs(c)) && AllClean(PeerAttrs(c))
  {
    PrintedNumberClean(c.keepAlivePing);
    EmptyClean();
    var i, p := InterfaceAttrs(c), PeerAttrs(c);
    assert i[0].value == c.privateKey && i[1].value == c.address + "/32";
    assert p[0].value == c.peerPublicKey && p[1].value == c.peerEndpoint;
    assert |c.dns| > 0 ==> i[2].value == c.dns;
    assert |c.dns| == 0 ==> c.dns == "";
    assert |c.allowedSubnets| > 0 ==> p[3].value == Join(c.allowedSubnets, ',');
  }

  lemma ChompedIfClean(attrs: seq<Attr>)
    ensures Chomped(attrs) == attrs <==>
            forall i :: 0 <= i < |attrs| ==> !EndsWithCR(attrs[i].value)
  {
    var r := Chomped(attrs);
    if i :| 0 <= i < |attrs| && EndsWithCR(attrs[i].value) {
      assert |r[i].value| < |attrs[i].value|;
    } else {
      forall i | 0 <= i < |attrs| ensures r[i] == attrs[i] {
        assert !EndsWithCR(attrs[i].value);
      }
      assert r == attrs;
    }
  }

  lemma LegibleIfReadable(attrs: seq<Attr>)
    requires GoodKeys(attrs) && forall i :: 0 <= i < |attrs| ==> Readable(attrs[i].value)
    ensures Legible(attrs)
  {
  }

  lemma SectionValuesReadable(c: WireguardConfigData)
    requires TextSections(Printed(c)) == TwoSections(InterfaceAttrs(c), PeerAttrs(c))
    ensures Legible(InterfaceAttrs(c)) && Legible(PeerAttrs(c))
  {
    TextSectionsReadable(Printed(c));
    KeysAreGood(c);
    var secs := TextSections(Printed(c));
    var i, p := InterfaceAttrs(c), PeerAttrs(c);
    assert secs[0].attrs == i && secs[1].attrs == p;
    forall k | 0 <= k < |i| ensures Readable(i[k].value) {
      assert Readable(secs[0].attrs[k].value);
    }
    forall k | 0 <= k < |p| ensures Readable(p[k].value) {
      assert Readable(secs[1].attrs[k].value);
    }
    LegibleIfReadable(i);
    LegibleIfReadable(p);
  }

  lemma SurvivesIfClean(c: WireguardConfigData)
    requires AllClean(InterfaceAttrs(c)) && AllClean(PeerAttrs(c))
    ensures TextSections(Printed(c)) == TwoSections(InterfaceAttrs(c), PeerAttrs(c))
  {
    KeysAreGood(c);
    ChompedIfClean(InterfaceAttrs(c));
    ChompedIfClean(PeerAttrs(c));
    LegibleIfReadable(InterfaceAttrs(c));
    LegibleIfReadable(PeerAttrs(c));
    PrintedReadsBack(c);
  }

  lemma TwoSectionsDiffer(i: seq<Attr>, p: seq<Attr>, i': seq<Attr>, p': seq<Attr>)
    requires TwoSections(i, p) == TwoSections(i', p')
    ensures i == i' && p == p'
  {
  }

  lemma CleanIfSurvives(c: WireguardConfigData)
    requires TextSections(Printed(c)) == TwoSections(InterfaceAttrs(c), PeerAttrs(c))
    ensures AllClean(InterfaceAttrs(c)) && AllClean(PeerAttrs(c))
  {
    var i, p := InterfaceAttrs(c), PeerAttrs(c);
    SectionValuesReadable(c);
    PrintedReadsBack(c);
    TwoSectionsDiffer(i, p, Chomped(i), Chomped(p));
    ChompedIfClean(i);
    ChompedIfClean(p);
  }

  /** The printed text has exactly the two intended sections, with exactly the intended
      values, if and only if the record is well formed. */
  lemma SectionsSurvive(c: WireguardConfigData)
    ensures TextSections(Printed(c)) == TwoSections(InterfaceAttrs(c), PeerAttrs(c)) <==> WellFormed(c)
  {
    WellFormedIsClean(c);
    if WellFormed(c) {
      SurvivesIfClean(c);
    } else if TextSections(Printed(c)) == TwoSections(InterfaceAttrs(c), PeerAttrs(c)) {
      CleanIfSurvives(c);
    }
  }

  // ----- meaning ---------------------------------------------------------------------

  lemma Names()
    ensures KindOf("Interface") == Interface && KindOf("Peer") == Peer
    ensures FieldOf("PrivateKey") == PrivateKey && FieldOf("Address") == Address && FieldOf("DNS") == DNS
    ensures FieldOf("PublicKey") == PublicKey && FieldOf("Endpoint") == Endpoint
    ensures FieldOf("PersistentKeepalive") == PersistentKeepalive && FieldOf("AllowedIPs") == AllowedIPs
  {
  }

  lemma TwoSectionsMean(env: Parsers, i: seq<Attr>, p: seq<Attr>)
    ensures var secs := TwoSections(i, p);
            && AttrsOf(secs, Interface) == i && AttrsOf(secs, Peer) == p
            && PeersOf(env, secs) == [PeerOf(env, p)]
            && FirstError(env, secs) ==
               (if SectionError(env, Interface, i).Some? then SectionError(env, Interface, i)
                else SectionError(env, Peer, p))
  {
    Names();
    var secs := TwoSections(i, p);
    var one := secs[..1];
    assert one == [Section("Interface", i)] && one[..0] == [];
    assert AttrsOf(one, Interface) == i && AttrsOf(one, Peer) == [] by {
      assert [] + i == i;
    }
    assert i + [] == i && [] + p == p;
    assert PeersOf(env, one) == [];
    assert FirstError(env, one) == SectionError(env, Interface, i);
  }

  /** The interface section means its key, its address and its DNS server. */
  lemma InterfaceMeans(env: Parsers, c: WireguardConfigData)
    ensures var i := InterfaceAttrs(c);
            && SectionError(env, Interface, i) == Unless(env.key(c.privateKey), BadKey(c.privateKey))
            && InterfaceKey(env, i) == env.key(c.privateKey)
            && Or(LastValue(i, Address), "") == c.address + "/32"
            && Or(LastValue(i, DNS), "") == c.dns
  {
    Names();
    var k, a, d := Attr("PrivateKey", c.privateKey), Attr("Address", c.address + "/32"), Attr("DNS", c.dns);
    var two := [] + [k] + [a];
    SectionErrorSnoc(env, Interface, [], k);
    SectionErrorSnoc(env, Interface, [] + [k], a);
    InterfaceLasts([], k);
    InterfaceLasts([] + [k], a);
    if |c.dns| > 0 {
      SectionErrorSnoc(env, Interface, two, d);
      InterfaceLasts(two, d);
      assert InterfaceAttrs(c) == two + [d];
    } else {
      assert InterfaceAttrs(c) == two;
      assert c.dns == "";
    }
  }

  lemma InterfaceLasts(attrs: seq<Attr>, a: Attr)
    ensures forall f | f in {PrivateKey, Address, DNS} ::
              LastValue(attrs + [a], f) == if FieldOf(a.key) == f then Some(a.value) else LastValue(attrs, f)
  {
  }

  /** The parsers accept every field of the record. */
  ghost predicate Accepts(env: Parsers, c: WireguardConfigData) {
    && env.key(c.privateKey).Some? && env.key(c.peerPublicKey).Some? && env.udp(c.peerEndpoint).Some?
    && forall i :: 0 <= i < |c.allowedSubnets| ==> env.cidr(c.allowedSubnets[i]).Some?
  }

  /** The peer a record describes. */
  function PeerFor(env: Parsers, c: WireguardConfigData): (p: PeerConfig) {
    PeerConfig(Or(env.key(c.peerPublicKey), ZERO_KEY), env.udp(c.peerEndpoint),
               Some(c.keepAlivePing), NetsOf(env, c.allowedSubnets))
  }

  lemma PeerHeadMeans(env: Parsers, k: Attr, e: Attr, a: Attr)
    requires FieldOf(k.key) == PublicKey && FieldOf(e.key) == Endpoint && FieldOf(a.key) == PersistentKeepalive
    ensures PeerOf(env, [k] + [e] + [a]) ==
            PeerConfig(Or(env.key(k.value), ZERO_KEY), env.udp(e.value), ParseInt64(a.value), [])
  {
    assert [] + [k] == [k];
    PeerOfSnoc(env, [], k);
    PeerOfSnoc(env, [k], e);
    PeerOfSnoc(env, [k] + [e], a);
    assert PeerOf(env, []) == NO_PEER;
  }

  lemma PeerTailMeans(env: Parsers, head: seq<Attr>, key: string, items: seq<string>)
    requires FieldOf(key) == AllowedIPs && Free(items, ',') && PeerOf(env, head).allowedIPs == []
    ensures PeerOf(env, head + Optional(key, Join(items, ','), |items| > 0)) ==
            PeerOf(env, head).(allowedIPs := NetsOf(env, items))
  {
    if |items| > 0 {
      SplitOfJoin(items, ',');
      PeerOfSnoc(env, head, Attr(key, Join(items, ',')));
    } else {
      assert head + Optional(key, Join(items, ','), |items| > 0) == head;
    }
  }

  lemma PeerMeans(env: Parsers, c: WireguardConfigData)
    requires Free(c.allowedSubnets, ',')
    ensures PeerOf(env, PeerAttrs(c)) == PeerFor(env, c)
  {
    Names();
    ParseOfPrint(c.keepAlivePing);
    var k, e := Attr("PublicKey", c.peerPublicKey), Attr("Endpoint", c.peerEndpoint);
    var a := Attr("PersistentKeepalive", PrintInt(c.keepAlivePing));
    PeerHeadMeans(env, k, e, a);
    PeerTailMeans(env, [k] + [e] + [a], "AllowedIPs", c.allowedSubnets);
  }

  /** The peer section is without error when its fields are accepted. */
  lemma PeerAccepted(env: Parsers, c: WireguardConfigData)
    requires Free(c.allowedSubnets, ',')
    ensures SectionError(env, Peer, PeerAttrs(c)).None? <==>
            && env.key(c.peerPublicKey).Some? && env.udp(c.peerEndpoint).Some?
            && forall i :: 0 <= i < |c.allowedSubnets| ==> env.cidr(c.allowedSubnets[i]).Some?
  {
    Names();
    ParseOfPrint(c.keepAlivePing);
    var k, e := Attr("PublicKey", c.peerPublicKey), Attr("Endpoint", c.peerEndpoint);
    var a := Attr("PersistentKeepalive", PrintInt(c.keepAlivePing));
    var three := [] + [k] + [e] + [a];
    SectionErrorSnoc(env, Peer, [], k);
    SectionErrorSnoc(env, Peer, [] + [k], e);
    SectionErrorSnoc(env, Peer, [] + [k] + [e], a);
    NoBadNet(env, c.allowedSubnets);
    if |c.allowedSubnets| > 0 {
      var s := Attr("AllowedIPs", Join(c.allowedSubnets, ','));
      SectionErrorSnoc(env, Peer, three, s);
      SplitOfJoin(c.allowedSubnets, ',');
      assert PeerAttrs(c) == three + [s];
    } else {
      assert PeerAttrs(c) == three;
    }
  }

  /** The peer section names one endpoint. */
  lemma PeerEndpoints(env: Parsers, c: WireguardConfigData)
    requires env.udp(c.peerEndpoint).Some?
    ensures EndpointIPs(env, PeerAttrs(c)) == [env.udp(c.peerEndpoint).value.ip]
  {
    Names();
    var k, e := Attr("PublicKey", c.peerPublicKey), Attr("Endpoint", c.peerEndpoint);
    var a := Attr("PersistentKeepalive", PrintInt(c.keepAlivePing));
    var three := [] + [k] + [e] + [a];
    EndpointsSnoc(env, [], k);
    EndpointsSnoc(env, [] + [k], e);
    EndpointsSnoc(env, [] + [k] + [e], a);
    if |c.allowedSubnets| > 0 {
      var s := Attr("AllowedIPs", Join(c.allowedSubnets, ','));
      EndpointsSnoc(env, three, s);
      assert PeerAttrs(c) == three + [s];
    } else {
      assert PeerAttrs(c) == three;
    }
  }

  lemma NoRoutes(attrs: seq<Attr>)
    requires forall i :: 0 <= i < |attrs| ==> !FieldOf(attrs[i].key).AllowedIPs?
    ensures !SomeRoutesAll(attrs)
  {
  }

  lemma OneRoutes(attrs: seq<Attr>, s: Attr, items: seq<string>)
    requires !SomeRoutesAll(attrs) && FieldOf(s.key).AllowedIPs? && Split(s.value, ',') == items
    ensures SomeRoutesAll(attrs + [s]) <==> DEFAULT_ROUTE in items
  {
    RoutesSnoc(attrs, s);
  }

  /** The peer section routes everything when a subnet says so. */
  lemma PeerRoutes(c: WireguardConfigData)
    requires Free(c.allowedSubnets, ',')
    ensures SomeRoutesAll(PeerAttrs(c)) <==> DEFAULT_ROUTE in c.allowedSubnets
  {
    Names();
    var k, e := Attr("PublicKey", c.peerPublicKey), Attr("Endpoint", c.peerEndpoint);
    var a := Attr("PersistentKeepalive", PrintInt(c.keepAlivePing));
    NoRoutes([k, e, a]);
    if |c.allowedSubnets| > 0 {
      var s := Attr("AllowedIPs", Join(c.allowedSubnets, ','));
      SplitOfJoin(c.allowedSubnets, ',');
      OneRoutes([k, e, a], s, c.allowedSubnets);
      assert PeerAttrs(c) == [k, e, a] + [s];
    } else {
      assert PeerAttrs(c) == [k, e, a];
    }
  }

  /** The configuration a record describes. */
  function ConfigFor(env: Parsers, c: WireguardConfigData): (r: WireguardConfig)
    requires env.udp(c.peerEndpoint).Some?
  {
    WireguardConfig(env.key(c.privateKey), c.address + "/32", c.dns,
                    [env.udp(c.peerEndpoint).value.ip], DEFAULT_ROUTE in c.allowedSubnets,
                    [PeerFor(env, c)])
  }

  /** One peer, with one network per subnet of the record, in the same order. */
  predicate SameSubnets(env: Parsers, c: WireguardConfigData, r: WireguardConfig) {
    && |r.peers| == 1 && |r.peers[0].allowedIPs| == |c.allowedSubnets|
    && forall i :: 0 <= i < |c.allowedSubnets| ==>
         Some(r.peers[0].allowedIPs[i]) == env.cidr(c.allowedSubnets[i])
  }

  /** Parsing the printed form of a well-formed record gives back the record: one peer
      with its key, endpoint, keepalive and subnets in order, the address with "/32",
      and the DNS server. It succeeds exactly when the parsers accept every field. */
  lemma RoundTrip(env: Parsers, c: WireguardConfigData)
    requires WellFormed(c) && Free(c.allowedSubnets, ',')
    ensures ParseSpec(env, Printed(c)).Ok? <==> Accepts(env, c)
    ensures Accepts(env, c) ==> ParseSpec(env, Printed(c)) == Ok(ConfigFor(env, c))
    ensures Accepts(env, c) ==> SameSubnets(env, c, ParseSpec(env, Printed(c)).value)
  {
    SectionsSurvive(c);
    RecordAccepted(env, c);
    if Accepts(env, c) {
      RecordMeans(env, c);
      SubnetsMean(env, c);
    }
  }

  lemma RecordAccepted(env: Parsers, c: WireguardConfigData)
    requires Free(c.allowedSubnets, ',')
    ensures FirstError(env, TwoSections(InterfaceAttrs(c), PeerAttrs(c))).None? <==> Accepts(env, c)
  {
    TwoSectionsMean(env, InterfaceAttrs(c), PeerAttrs(c));
    InterfaceMeans(env, c);
    PeerAccepted(env, c);
  }

  lemma RecordMeans(env: Parsers, c: WireguardConfigData)
    requires Free(c.allowedSubnets, ',') && Accepts(env, c)
    ensures Meaning(env, TwoSections(InterfaceAttrs(c), PeerAttrs(c))) == ConfigFor(env, c)
  {
    TwoSectionsMean(env, InterfaceAttrs(c), PeerAttrs(c));
    InterfaceMeans(env, c);
    PeerMeans(env, c);
    PeerEndpoints(env, c);
    PeerRoutes(c);
  }

  lemma SubnetsMean(env: Parsers, c: WireguardConfigData)
    requires Accepts(env, c)
    ensures SameSubnets(env, c, ConfigFor(env, c))
  {
    NetsInOrder(env, c.allowedSubnets);
  }

  // ----- injectivity ------------------------------------------------------------------

  lemma SuffixCancels(a: string, b: string, s: string)
    requires a + s == b + s
    ensures a == b
  {
    assert |a| == |b|;
    assert a == (a + s)[..|a|] && b == (b + s)[..|b|];
  }

  lemma SubnetsRecovered(c: WireguardConfigData, d: WireguardConfigData)
    requires PeerAttrs(c) == PeerAttrs(d) && Free(c.allowedSubnets, ',') && Free(d.allowedSubnets, ',')
    ensures c.allowedSubnets == d.allowedSubnets
  {
    assert |PeerAttrs(c)| == |PeerAttrs(d)|;
    if |c.allowedSubnets| > 0 {
      assert PeerAttrs(c)[3] == PeerAttrs(d)[3];
      SplitOfJoin(c.allowedSubnets, ',');
      SplitOfJoin(d.allowedSubnets, ',');
    }
  }

  lemma InterfaceRecovered(c: WireguardConfigData, d: WireguardConfigData)
    requires InterfaceAttrs(c) == InterfaceAttrs(d)
    ensures c.privateKey == d.privateKey && c.address == d.address && c.dns == d.dns
  {
    var i, j := InterfaceAttrs(c), InterfaceAttrs(d);
    assert i[0] == j[0] && i[1] == j[1];
    SuffixCancels(c.address, d.address, "/32");
    assert |i| == |j|;
    if |c.dns| > 0 {
      assert i[2] == j[2];
    }
  }

  /** Different well-formed records print differently. */
  lemma PrintingIsInjective(c: WireguardConfigData, d: WireguardConfigData)
    requires WellFormed(c) && WellFormed(d) && Free(c.allowedSubnets, ',') && Free(d.allowedSubnets, ',')
    requires Printed(c) == Printed(d)
    ensures c == d
  {
    SectionsSurvive(c);
    SectionsSurvive(d);
    TwoSectionsDiffer(InterfaceAttrs(c), PeerAttrs(c), InterfaceAttrs(d), PeerAttrs(d));
    InterfaceRecovered(c, d);
    SubnetsRecovered(c, d);
    var p, q := PeerAttrs(c), PeerAttrs(d);
    assert p[0] == q[0] && p[1] == q[1] && p[2] == q[2];
    ParseOfPrint(c.keepAlivePing);
    ParseOfPrint(d.keepAlivePing);
  }
}
