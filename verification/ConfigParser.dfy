/** The configuration parser of vpn/wireguard_config.go: what a list of sections means,
    and the scanning loop, proved to compute it. */
module ConfigParser {
  import opened GoInts
  import opened Outcomes
  import opened GoText
  import opened WireguardTypes
  import opened ConfigSyntax

  datatype PeerConfig = PeerConfig(
    publicKey: Key,
    endpoint: Option<UDPAddr>,
    keepalive: Option<int64>,
    allowedIPs: seq<IPNet>)

  const NO_PEER := PeerConfig(ZERO_KEY, None, None, [])

  datatype WireguardConfig = WireguardConfig(
    privateKey: Option<Key>,
    tunAddress: string,
    tunDNS: string,
    peerAddresses: seq<string>,
    isDefaultRoute: bool,
    peers: seq<PeerConfig>)

  const EMPTY_CONFIG := WireguardConfig(None, "", "", [], false, [])

  datatype ConfigError =
    | BadKey(text: string)
    | BadCIDR(text: string)
    | BadEndpoint(text: string)
    | BadNumber(text: string)
    | UnsupportedKey(section: Kind, key: string)

  const DEFAULT_ROUTE := "0.0.0.0/0"

  // ----- errors -------------------------------------------------------------------

  /** The first item that is not a network. */
  function FirstBadNet(env: Parsers, items: seq<string>): (r: Option<string>) {
    if items == [] then None
    else
      var n := |items| - 1;
      var r := FirstBadNet(env, items[..n]);
      if r.Some? then r else if env.cidr(items[n]).None? then Some(items[n]) else None
  }

  /** The sections the parser knows; all others are read and ignored. */
  datatype Kind = Interface | Peer | Ignored

  function KindOf(name: string): (k: Kind) {
    if name == "Interface" then Interface else if name == "Peer" then Peer else Ignored
  }

  datatype Field =
    PrivateKey | Address | DNS | PublicKey | AllowedIPs | Endpoint | PersistentKeepalive | Unknown

  function FieldOf(key: string): (f: Field) {
    if key == "PrivateKey" then PrivateKey
    else if key == "Address" then Address
    else if key == "DNS" then DNS
    else if key == "PublicKey" then PublicKey
    else if key == "AllowedIPs" then AllowedIPs
    else if key == "Endpoint" then Endpoint
    else if key == "PersistentKeepalive" then PersistentKeepalive
    else Unknown
  }

  function Unless<T, E>(o: Option<T>, e: E): (r: Option<E>) {
    if o.None? then Some(e) else None
  }

  function InterfaceError(env: Parsers, a: Attr): (r: Option<ConfigError>) {
    match FieldOf(a.key)
    case PrivateKey => Unless(env.key(a.value), BadKey(a.value))
    case Address => None
    case DNS => None
    case _ => Some(UnsupportedKey(Interface, a.key))
  }

  function PeerError(env: Parsers, a: Attr): (r: Option<ConfigError>) {
    match FieldOf(a.key)
    case PublicKey => Unless(env.key(a.value), BadKey(a.value))
    case AllowedIPs =>
      var bad := FirstBadNet(env, Split(a.value, ','));
      if bad.Some? then Some(BadCIDR(bad.value)) else None
    case Endpoint => Unless(env.udp(a.value), BadEndpoint(a.value))
    case PersistentKeepalive => Unless(ParseInt64(a.value), BadNumber(a.value))
    case _ => Some(UnsupportedKey(Peer, a.key))
  }

  /** What is wrong with an attribute of a section, if anything. */
  function AttrError(env: Parsers, kind: Kind, a: Attr): (r: Option<ConfigError>) {
    match kind
    case Interface => InterfaceError(env, a)
    case Peer => PeerError(env, a)
    case Ignored => None
  }

  function SectionError(env: Parsers, kind: Kind, attrs: seq<Attr>): (r: Option<ConfigError>) {
    if attrs == [] then None
    else
      var r := SectionError(env, kind, attrs[..|attrs| - 1]);
      if r.Some? then r else AttrError(env, kind, attrs[|attrs| - 1])
  }

  lemma SectionErrorSnoc(env: Parsers, kind: Kind, attrs: seq<Attr>, a: Attr)
    ensures SectionError(env, kind, attrs + [a]) ==
            if SectionError(env, kind, attrs).Some? then SectionError(env, kind, attrs)
            else AttrError(env, kind, a)
  {
    assert (attrs + [a])[..|attrs|] == attrs;
  }

  /** The first error in text order. */
  function FirstError(env: Parsers, secs: seq<Section>): (r: Option<ConfigError>) {
    if secs == [] then None
    else
      var n := |secs| - 1;
      var r := FirstError(env, secs[..n]);
      if r.Some? then r else SectionError(env, KindOf(secs[n].name), secs[n].attrs)
  }

  // ----- meaning --------------------------------------------------------------------

  function Or<T>(o: Option<T>, default: T): (r: T) {
    if o.Some? then o.value else default
  }

  /** The value given last for a field. */
  function LastValue(attrs: seq<Attr>, field: Field): (r: Option<string>) {
    if attrs == [] then None
    else if FieldOf(attrs[|attrs| - 1].key) == field then Some(attrs[|attrs| - 1].value)
    else LastValue(attrs[..|attrs| - 1], field)
  }

  function NetsOf(env: Parsers, items: seq<string>): (r: seq<IPNet>) {
    if items == [] then []
    else
      var net := env.cidr(items[|items| - 1]);
      NetsOf(env, items[..|items| - 1]) + if net.Some? then [net.value] else []
  }

  /** Item by item, in order, each network is the one its own text denotes. */
  lemma {:induction false} NetsInOrder(env: Parsers, items: seq<string>)
    requires forall i :: 0 <= i < |items| ==> env.cidr(items[i]).Some?
    ensures |NetsOf(env, items)| == |items|
    ensures forall i :: 0 <= i < |items| ==> NetsOf(env, items)[i] == env.cidr(items[i]).value
  {
    if items != [] {
      NetsInOrder(env, items[..|items| - 1]);
    }
  }

  lemma {:induction false} NoBadNet(env: Parsers, items: seq<string>)
    ensures FirstBadNet(env, items).None? <==> forall i :: 0 <= i < |items| ==> env.cidr(items[i]).Some?
  {
    if items != [] {
      NoBadNet(env, items[..|items| - 1]);
    }
  }

  /** All allowed networks, over all AllowedIPs lines. */
  function AllNets(env: Parsers, attrs: seq<Attr>): (r: seq<IPNet>) {
    if attrs == [] then []
    else
      var a := attrs[|attrs| - 1];
      AllNets(env, attrs[..|attrs| - 1]) +
      if FieldOf(a.key).AllowedIPs? then NetsOf(env, Split(a.value, ',')) else []
  }

  function PeerOf(env: Parsers, attrs: seq<Attr>): (p: PeerConfig) {
    var key := LastValue(attrs, PublicKey);
    var endpoint := LastValue(attrs, Endpoint);
    var keepalive := LastValue(attrs, PersistentKeepalive);
    PeerConfig(
      if key.Some? then Or(env.key(key.value), ZERO_KEY) else ZERO_KEY,
      if endpoint.Some? then env.udp(endpoint.value) else None,
      if keepalive.Some? then ParseInt64(keepalive.value) else None,
      AllNets(env, attrs))
  }

  /** One peer per Peer section, in order. */
  function PeersOf(env: Parsers, secs: seq<Section>): (ps: seq<PeerConfig>) {
    if secs == [] then []
    else
      var s := secs[|secs| - 1];
      PeersOf(env, secs[..|secs| - 1]) + if KindOf(s.name).Peer? then [PeerOf(env, s.attrs)] else []
  }

  /** The attributes of all sections of one kind, in text order. */
  function AttrsOf(secs: seq<Section>, kind: Kind): (attrs: seq<Attr>) {
    if secs == [] then []
    else
      var s := secs[|secs| - 1];
      AttrsOf(secs[..|secs| - 1], kind) + if KindOf(s.name) == kind then s.attrs else []
  }

  /** The resolved address of every Endpoint line. */
  function EndpointIPs(env: Parsers, attrs: seq<Attr>): (ips: seq<string>) {
    if attrs == [] then []
    else
      var a := attrs[|attrs| - 1];
      EndpointIPs(env, attrs[..|attrs| - 1]) +
      if FieldOf(a.key).Endpoint? && env.udp(a.value).Some? then [env.udp(a.value).value.ip] else []
  }

  predicate RoutesAll(a: Attr) {
    FieldOf(a.key).AllowedIPs? && DEFAULT_ROUTE in Split(a.value, ',')
  }

  /** Some item of some AllowedIPs line is literally the default route. */
  predicate SomeRoutesAll(attrs: seq<Attr>) {
    exists i :: 0 <= i < |attrs| && RoutesAll(attrs[i])
  }

  function InterfaceKey(env: Parsers, attrs: seq<Attr>): (k: Option<Key>) {
    var key := LastValue(attrs, PrivateKey);
    if key.Some? then env.key(key.value) else None
  }

  /** What a text divided into sections configures. */
  function Meaning(env: Parsers, secs: seq<Section>): (c: WireguardConfig) {
    var interface, peer := AttrsOf(secs, Interface), AttrsOf(secs, Peer);
    WireguardConfig(
      InterfaceKey(env, interface),
      Or(LastValue(interface, Address), ""),
      Or(LastValue(interface, DNS), ""),
      EndpointIPs(env, peer),
      SomeRoutesAll(peer),
      PeersOf(env, secs))
  }

  function ParseSpec(env: Parsers, text: string): (r: Result<WireguardConfig, ConfigError>) {
    var secs := TextSections(text);
    var e := FirstError(env, secs);
    if e.Some? then Err(e.value) else Ok(Meaning(env, secs))
  }

  /** A Peer section some line of which routes everything. */
  predicate SectionRoutesAll(s: Section) {
    KindOf(s.name).Peer? && SomeRoutesAll(s.attrs)
  }

  predicate SomeSectionRoutesAll(secs: seq<Section>) {
    exists i :: 0 <= i < |secs| && SectionRoutesAll(secs[i])
  }

  lemma SomeSectionSnoc(secs: seq<Section>, s: Section)
    ensures SomeSectionRoutesAll(secs + [s]) <==> SomeSectionRoutesAll(secs) || SectionRoutesAll(s)
  {
    if SomeSectionRoutesAll(secs) {
      var i :| 0 <= i < |secs| && SectionRoutesAll(secs[i]);
      assert SectionRoutesAll((secs + [s])[i]);
    }
    assert (secs + [s])[|secs|] == s;
  }

  lemma RoutesConcat(a: seq<Attr>, b: seq<Attr>)
    ensures SomeRoutesAll(a + b) <==> SomeRoutesAll(a) || SomeRoutesAll(b)
  {
    if SomeRoutesAll(a) {
      var i :| 0 <= i < |a| && RoutesAll(a[i]);
      assert RoutesAll((a + b)[i]);
    }
    if SomeRoutesAll(b) {
      var i :| 0 <= i < |b| && RoutesAll(b[i]);
      assert RoutesAll((a + b)[|a| + i]);
    }
  }

  lemma {:induction false} SectionsRouteAll(secs: seq<Section>)
    ensures SomeRoutesAll(AttrsOf(secs, Peer)) <==> SomeSectionRoutesAll(secs)
  {
    if secs != [] {
      var n := |secs| - 1;
      SectionsRouteAll(secs[..n]);
      RoutesConcat(AttrsOf(secs[..n], Peer), if KindOf(secs[n].name).Peer? then secs[n].attrs else []);
      SomeSectionSnoc(secs[..n], secs[n]);
      assert secs == secs[..n] + [secs[n]];
    }
  }

  /** Attribute `k` of section `i` names the default route of a peer. */
  predicate DefaultRouteAt(secs: seq<Section>, i: nat, k: nat) {
    && i < |secs| && secs[i].name == "Peer"
    && k < |secs[i].attrs| && secs[i].attrs[k].key == "AllowedIPs"
    && "0.0.0.0/0" in Split(secs[i].attrs[k].value, ',')
  }

  lemma AllowedIPsNamed(key: string)
    ensures FieldOf(key).AllowedIPs? <==> key == "AllowedIPs"
  {
  }

  lemma PeerNamed(name: string)
    ensures KindOf(name).Peer? <==> name == "Peer"
  {
  }

  lemma RoutesNamed(a: Attr, name: string)
    ensures RoutesAll(a) <==> a.key == "AllowedIPs" && "0.0.0.0/0" in Split(a.value, ',')
    ensures KindOf(name).Peer? <==> name == "Peer"
  {
    AllowedIPsNamed(a.key);
    PeerNamed(name);
  }

  /** A text that parses is a default route if and only if some item of some AllowedIPs
      line in some Peer section is literally "0.0.0.0/0". */
  lemma DefaultRouteExactly(env: Parsers, text: string)
    requires ParseSpec(env, text).Ok?
    ensures ParseSpec(env, text).value.isDefaultRoute <==>
            exists i: nat, k: nat :: DefaultRouteAt(TextSections(text), i, k)
  {
    var secs := TextSections(text);
    SectionsRouteAll(secs);
    if SomeSectionRoutesAll(secs) {
      var i :| 0 <= i < |secs| && SectionRoutesAll(secs[i]);
      var k :| 0 <= k < |secs[i].attrs| && RoutesAll(secs[i].attrs[k]);
      RoutesNamed(secs[i].attrs[k], secs[i].name);
      assert DefaultRouteAt(secs, i, k);
    }
    if i: nat, k: nat :| DefaultRouteAt(secs, i, k) {
      RoutesNamed(secs[i].attrs[k], secs[i].name);
      assert RoutesAll(secs[i].attrs[k]);
      assert SectionRoutesAll(secs[i]);
    }
  }

  // ----- the scanning loop --------------------------------------------------------

  predicate InPeer(secs: seq<Section>) {
    secs != [] && KindOf(secs[|secs| - 1].name).Peer?
  }

  predicate InInterface(secs: seq<Section>) {
    secs != [] && KindOf(secs[|secs| - 1].name).Interface?
  }

  /** The sections whose peers have been added to the configuration already. */
  function Flushed(secs: seq<Section>): (r: seq<Section>) {
    if InPeer(secs) then secs[..|secs| - 1] else secs
  }

  /** The peer under construction. */
  function Pending(env: Parsers, secs: seq<Section>): (p: PeerConfig) {
    if InPeer(secs) then PeerOf(env, secs[|secs| - 1].attrs) else NO_PEER
  }

  /** The configuration the loop has built: the meaning of what was read, except that
      the peer of an open section is still pending. */
  function Progress(env: Parsers, secs: seq<Section>): (c: WireguardConfig) {
    Meaning(env, secs).(peers := PeersOf(env, Flushed(secs)))
  }

  lemma FlushCompletes(env: Parsers, secs: seq<Section>)
    ensures PeersOf(env, secs) ==
            PeersOf(env, Flushed(secs)) + if InPeer(secs) then [Pending(env, secs)] else []
  {
  }

  /** A header closes the open section and starts with nothing. */
  lemma HeaderStep(env: Parsers, secs: seq<Section>, name: string)
    ensures var next := secs + [Section(name, [])];
            && Progress(env, next) == Progress(env, secs).(peers := PeersOf(env, secs))
            && Pending(env, next) == NO_PEER
            && FirstError(env, next) == FirstError(env, secs)
            && InPeer(next) == KindOf(name).Peer? && InInterface(next) == KindOf(name).Interface?
  {
    var next := secs + [Section(name, [])];
    assert next[..|secs|] == secs;
    assert AttrsOf(next, Interface) == AttrsOf(secs, Interface);
    assert AttrsOf(next, Peer) == AttrsOf(secs, Peer);
    assert PeerOf(env, []) == NO_PEER;
  }

  lemma ExtendFacts(secs: seq<Section>, a: Attr)
    requires secs != []
    ensures var n := |secs| - 1;
            var next := Extend(secs, a);
            && |next| == |secs| && next[..n] == secs[..n]
            && next[n] == Section(secs[n].name, secs[n].attrs + [a])
            && next[n].attrs[..|secs[n].attrs|] == secs[n].attrs
            && InPeer(next) == InPeer(secs) && InInterface(next) == InInterface(secs)
  {
  }

  lemma ExtendAttrs(secs: seq<Section>, a: Attr, kind: Kind)
    requires secs != []
    ensures AttrsOf(Extend(secs, a), kind) ==
            AttrsOf(secs, kind) + if KindOf(secs[|secs| - 1].name) == kind then [a] else []
  {
  }

  lemma ExtendError(env: Parsers, secs: seq<Section>, a: Attr)
    requires secs != [] && FirstError(env, secs).None?
    ensures FirstError(env, Extend(secs, a)) == AttrError(env, KindOf(secs[|secs| - 1].name), a)
  {
  }

  /** An attribute outside the two known sections changes nothing. */
  lemma IgnoredStep(env: Parsers, secs: seq<Section>, a: Attr)
    requires !InPeer(secs) && !InInterface(secs) && FirstError(env, secs).None?
    ensures var next := Extend(secs, a);
            && Progress(env, next) == Progress(env, secs)
            && Pending(env, next) == NO_PEER && FirstError(env, next).None?
            && !InPeer(next) && !InInterface(next)
  {
    if secs != [] {
      ExtendFacts(secs, a);
      ExtendAttrs(secs, a, Interface);
      ExtendAttrs(secs, a, Peer);
      ExtendError(env, secs, a);
      assert PeersOf(env, Extend(secs, a)) == PeersOf(env, secs);
    }
  }

  /** What one more attribute does to the interface. */
  function InterfaceAfter(env: Parsers, c: WireguardConfig, a: Attr): (r: WireguardConfig) {
    match FieldOf(a.key)
    case PrivateKey => c.(privateKey := env.key(a.value))
    case Address => c.(tunAddress := a.value)
    case DNS => c.(tunDNS := a.value)
    case _ => c
  }

  /** An interface attribute overrides an earlier one of the same key. */
  lemma InterfaceStep(env: Parsers, secs: seq<Section>, a: Attr)
    requires InInterface(secs) && FirstError(env, secs).None?
    ensures var next := Extend(secs, a);
            var c := Progress(env, secs);
            && FirstError(env, next) == InterfaceError(env, a)
            && Progress(env, next) == InterfaceAfter(env, c, a)
            && Pending(env, next) == NO_PEER && InInterface(next) && !InPeer(next)
  {
    ExtendFacts(secs, a);
    ExtendAttrs(secs, a, Interface);
    ExtendAttrs(secs, a, Peer);
    ExtendError(env, secs, a);
    InterfaceSnoc(env, Progress(env, secs), AttrsOf(secs, Interface), a);
    assert PeersOf(env, Extend(secs, a)) == PeersOf(env, secs);
  }

  lemma InterfaceSnoc(env: Parsers, c: WireguardConfig, attrs: seq<Attr>, a: Attr)
    requires c.privateKey == InterfaceKey(env, attrs) && c.tunAddress == Or(LastValue(attrs, Address), "")
    requires c.tunDNS == Or(LastValue(attrs, DNS), "")
    ensures var all := attrs + [a];
            InterfaceAfter(env, c, a) ==
            c.(privateKey := InterfaceKey(env, all), tunAddress := Or(LastValue(all, Address), ""),
               tunDNS := Or(LastValue(all, DNS), ""))
  {
    assert (attrs + [a])[..|attrs|] == attrs;
  }

  /** What one more attribute does to the pending peer. */
  function PeerAfter(env: Parsers, p: PeerConfig, a: Attr): (r: PeerConfig) {
    match FieldOf(a.key)
    case PublicKey => p.(publicKey := Or(env.key(a.value), ZERO_KEY))
    case AllowedIPs => p.(allowedIPs := p.allowedIPs + NetsOf(env, Split(a.value, ',')))
    case Endpoint => p.(endpoint := env.udp(a.value))
    case PersistentKeepalive => p.(keepalive := ParseInt64(a.value))
    case _ => p
  }

  /** What a peer attribute does to the tunnel as a whole. */
  function TunnelAfter(env: Parsers, c: WireguardConfig, a: Attr): (r: WireguardConfig) {
    match FieldOf(a.key)
    case AllowedIPs => c.(isDefaultRoute := c.isDefaultRoute || DEFAULT_ROUTE in Split(a.value, ','))
    case Endpoint =>
      var addr := env.udp(a.value);
      if addr.Some? then c.(peerAddresses := c.peerAddresses + [addr.value.ip]) else c
    case _ => c
  }

  lemma PeerOfSnoc(env: Parsers, attrs: seq<Attr>, a: Attr)
    ensures PeerOf(env, attrs + [a]) == PeerAfter(env, PeerOf(env, attrs), a)
  {
    assert (attrs + [a])[..|attrs|] == attrs;
    assert AllNets(env, attrs + [a]) ==
           AllNets(env, attrs) + if FieldOf(a.key).AllowedIPs? then NetsOf(env, Split(a.value, ',')) else [];
  }

  lemma RoutesSnoc(attrs: seq<Attr>, a: Attr)
    ensures SomeRoutesAll(attrs + [a]) <==> SomeRoutesAll(attrs) || RoutesAll(a)
  {
    if SomeRoutesAll(attrs) {
      var i :| 0 <= i < |attrs| && RoutesAll(attrs[i]);
      assert RoutesAll((attrs + [a])[i]);
    }
    assert (attrs + [a])[|attrs|] == a;
  }

  /** A peer attribute changes the pending peer, and for two keys the tunnel as well. */
  lemma PeerStep(env: Parsers, secs: seq<Section>, a: Attr)
    requires InPeer(secs) && FirstError(env, secs).None?
    ensures var next := Extend(secs, a);
            var c := Progress(env, secs);
            && FirstError(env, next) == PeerError(env, a)
            && Pending(env, next) == PeerAfter(env, Pending(env, secs), a)
            && Progress(env, next) == TunnelAfter(env, c, a)
            && InPeer(next) && !InInterface(next)
  {
    ExtendFacts(secs, a);
    ExtendError(env, secs, a);
    PeerOfSnoc(env, secs[|secs| - 1].attrs, a);
    TunnelStep(env, secs, a);
  }

  lemma TunnelStep(env: Parsers, secs: seq<Section>, a: Attr)
    requires InPeer(secs)
    ensures Progress(env, Extend(secs, a)) == TunnelAfter(env, Progress(env, secs), a)
  {
    ExtendFacts(secs, a);
    ExtendAttrs(secs, a, Interface);
    ExtendAttrs(secs, a, Peer);
    var attrs := AttrsOf(secs, Peer);
    RoutesSnoc(attrs, a);
    EndpointsSnoc(env, attrs, a);
  }

  lemma EndpointsSnoc(env: Parsers, attrs: seq<Attr>, a: Attr)
    ensures EndpointIPs(env, attrs + [a]) == EndpointIPs(env, attrs) +
            if FieldOf(a.key).Endpoint? && env.udp(a.value).Some? then [env.udp(a.value).value.ip] else []
  {
  }

  /** The loop over the items of one AllowedIPs line. */
  method ParseAllowedIPs(env: Parsers, value: string, isDefaultRoute: bool, nets: seq<IPNet>)
    returns (r: Result<(bool, seq<IPNet>), ConfigError>)
    ensures var bad := FirstBadNet(env, Split(value, ','));
            r == if bad.Some? then Err(BadCIDR(bad.value))
                 else Ok((isDefaultRoute || DEFAULT_ROUTE in Split(value, ','),
                          nets + NetsOf(env, Split(value, ','))))
    ensures r.Ok? ==> Appends(env, nets, Split(value, ','), r.value.1)
    ensures r.Ok? ==> r.value.0 == (isDefaultRoute || "0.0.0.0/0" in Split(value, ','))
  {
    var ips := Split(value, ',');
    r := AddNets(env, ips, DEFAULT_ROUTE, isDefaultRoute, nets);
    if r.Ok? {
      NoBadNet(env, ips);
      NetsInOrder(env, ips);
    }
  }

  /** One network per item follows those that were there, each the one its item denotes. */
  predicate Appends(env: Parsers, before: seq<IPNet>, items: seq<string>, after: seq<IPNet>) {
    && |after| == |before| + |items| && after[..|before|] == before
    && forall i :: 0 <= i < |items| ==>
         env.cidr(items[i]).Some? && after[|before| + i] == env.cidr(items[i]).value
  }

  method AddNets(env: Parsers, ips: seq<string>, everything: string, isDefaultRoute: bool, nets: seq<IPNet>)
    returns (r: Result<(bool, seq<IPNet>), ConfigError>)
    ensures var bad := FirstBadNet(env, ips);
            r == if bad.Some? then Err(BadCIDR(bad.value))
                 else Ok((isDefaultRoute || everything in ips, nets + NetsOf(env, ips)))
  {
    var route, all := isDefaultRoute, nets;
    for i := 0 to |ips|
      invariant FirstBadNet(env, ips[..i]).None?
      invariant route == (isDefaultRoute || everything in ips[..i])
      invariant all == nets + NetsOf(env, ips[..i])
    {
      assert ips[..i + 1][..i] == ips[..i];
      if !route && ips[i] == everything {
        route := true;
      }
      var net := env.cidr(ips[i]);
      if net.None? {
        BadNetFound(env, ips, i);
        return Err(BadCIDR(ips[i]));
      }
      all := all + [net.value];
    }
    assert ips[..|ips|] == ips;
    return Ok((route, all));
  }

  lemma {:induction false} BadNetFound(env: Parsers, items: seq<string>, i: nat)
    requires i < |items| && FirstBadNet(env, items[..i]).None? && env.cidr(items[i]).None?
    ensures FirstBadNet(env, items) == Some(items[i])
  {
    var n := |items| - 1;
    if i < n {
      assert items[..n][..i] == items[..i];
      BadNetFound(env, items[..n], i);
    }
  }

  /** The switch over the keys of an Interface section. */
  method InterfaceAttribute(env: Parsers, c: WireguardConfig, key: string, value: string)
    returns (r: Result<WireguardConfig, ConfigError>)
    ensures var e := InterfaceError(env, Attr(key, value));
            r == if e.Some? then Err(e.value) else Ok(InterfaceAfter(env, c, Attr(key, value)))
  {
    match FieldOf(key)
    case PrivateKey =>
      var wgKey := env.key(value);
      if wgKey.None? {
        return Err(BadKey(value));
      }
      return Ok(c.(privateKey := wgKey));
    case Address => return Ok(c.(tunAddress := value));
    case DNS => return Ok(c.(tunDNS := value));
    case _ => return Err(UnsupportedKey(Interface, key));
  }

  /** The switch over the keys of a Peer section. */
  method PeerAttribute(env: Parsers, c: WireguardConfig, p: PeerConfig, key: string, value: string)
    returns (r: Result<(WireguardConfig, PeerConfig), ConfigError>)
    ensures var a := Attr(key, value);
            var e := PeerError(env, a);
            r == if e.Some? then Err(e.value)
                 else Ok((TunnelAfter(env, c, a), PeerAfter(env, p, a)))
  {
    match FieldOf(key)
    case PublicKey =>
      var wgKey := env.key(value);
      if wgKey.None? {
        return Err(BadKey(value));
      }
      return Ok((c, p.(publicKey := wgKey.value)));
    case AllowedIPs =>
      var nets := ParseAllowedIPs(env, value, c.isDefaultRoute, p.allowedIPs);
      if nets.Err? {
        return Err(nets.error);
      }
      return Ok((c.(isDefaultRoute := nets.value.0), p.(allowedIPs := nets.value.1)));
    case Endpoint =>
      var addr := env.udp(value);
      if addr.None? {
        return Err(BadEndpoint(value));
      }
      return Ok((c.(peerAddresses := c.peerAddresses + [addr.value.ip]), p.(endpoint := addr)));
    case PersistentKeepalive =>
      var v := ParseInt64(value);
      if v.None? {
        return Err(BadNumber(value));
      }
      return Ok((c, p.(keepalive := v)));
    case _ => return Err(UnsupportedKey(Peer, key));
  }

  /** The local variables of the loop, after the lines that make up `secs`. */
  ghost predicate LoopState(env: Parsers, secs: seq<Section>,
                            c: WireguardConfig, peer: PeerConfig, isInterface: bool, isPeer: bool)
  {
    && FirstError(env, secs).None?
    && c == Progress(env, secs) && peer == Pending(env, secs)
    && isInterface == InInterface(secs) && isPeer == InPeer(secs)
  }

  lemma ErrorOneMore(env: Parsers, lines: seq<Line>)
    requires lines != [] && FirstError(env, Sections(lines[..|lines| - 1])).Some?
    ensures FirstError(env, Sections(lines)) == FirstError(env, Sections(lines[..|lines| - 1]))
  {
  }

  /** An error found after some lines is the error of the whole text. */
  lemma {:induction false} ErrorStands(env: Parsers, lines: seq<Line>, i: nat)
    requires i <= |lines| && FirstError(env, Sections(lines[..i])).Some?
    ensures FirstError(env, Sections(lines)) == FirstError(env, Sections(lines[..i]))
    decreases |lines| - i
  {
    if i == |lines| {
      assert lines[..i] == lines;
    } else {
      assert lines[..i + 1][..i] == lines[..i];
      ErrorOneMore(env, lines[..i + 1]);
      ErrorStands(env, lines, i + 1);
    }
  }

  /** A section header: a pending peer is complete, and a new one may begin. */
  method ParseHeader(env: Parsers, name: string, c: WireguardConfig, peerConfig: PeerConfig,
                     isInterface: bool, isPeer: bool, ghost secs: seq<Section>)
    returns (c': WireguardConfig, inInterface: bool, inPeer: bool)
    requires LoopState(env, secs, c, peerConfig, isInterface, isPeer)
    ensures LoopState(env, secs + [Section(name, [])], c', NO_PEER, inInterface, inPeer)
  {
    HeaderStep(env, secs, name);
    FlushCompletes(env, secs);
    c' := c;
    if isPeer {
      c' := c.(peers := c.peers + [peerConfig]);
    }
    var kind := KindOf(name);
    inInterface, inPeer := kind.Interface?, kind.Peer?;
  }

  /** An assignment: read by the section it stands in. */
  method ParseAssignment(env: Parsers, key: string, value: string, c: WireguardConfig, peerConfig: PeerConfig,
                         isInterface: bool, isPeer: bool, ghost secs: seq<Section>)
    returns (r: Result<(WireguardConfig, PeerConfig), ConfigError>)
    requires LoopState(env, secs, c, peerConfig, isInterface, isPeer)
    ensures r.Ok? ==>
              LoopState(env, Extend(secs, Attr(key, value)), r.value.0, r.value.1, isInterface, isPeer)
    ensures r.Err? ==> FirstError(env, Extend(secs, Attr(key, value))) == Some(r.error)
  {
    r := Ok((c, peerConfig));
    if isInterface {
      InterfaceStep(env, secs, Attr(key, value));
      var c' := InterfaceAttribute(env, c, key, value);
      if c'.Err? {
        return Err(c'.error);
      }
      r := Ok((c'.value, peerConfig));
    } else if isPeer {
      PeerStep(env, secs, Attr(key, value));
      r := PeerAttribute(env, c, peerConfig, key, value);
    } else {
      IgnoredStep(env, secs, Attr(key, value));
    }
  }

  /** The sections once a line has been read. */
  function Then(secs: seq<Section>, line: string): (next: seq<Section>) {
    NextSections(secs, Classify(line))
  }

  lemma ThenHeader(secs: seq<Section>, line: string)
    requires HeaderName(line).Some?
    ensures Then(secs, line) == secs + [Section(HeaderName(line).value, [])]
  {
  }

  lemma ThenAttribute(secs: seq<Section>, line: string)
    requires HeaderName(line).None? && Attribute(line).Some? && |Attribute(line).value.key| > 0
    ensures Then(secs, line) == Extend(secs, Attribute(line).value)
  {
  }

  lemma ThenNothing(secs: seq<Section>, line: string)
    requires HeaderName(line).None? && (Attribute(line).None? || |Attribute(line).value.key| == 0)
    ensures Then(secs, line) == secs
  {
  }

  /** One line: the new values of the loop's variables, or the error that ends it. The
      pending key is empty before and after; the pending value may be left over from a
      line with an empty key, and nothing reads it. */
  method ParseLine(env: Parsers, line: string, c: WireguardConfig, peerConfig: PeerConfig,
                   isInterface: bool, isPeer: bool, pendingKey: string, pendingValue: string,
                   ghost secs: seq<Section>)
    returns (r: Result<(WireguardConfig, PeerConfig, bool, bool), ConfigError>, key: string, value: string)
    requires LoopState(env, secs, c, peerConfig, isInterface, isPeer)
    requires pendingKey == ""
    ensures r.Ok? ==> LoopState(env, Then(secs, line), r.value.0, r.value.1, r.value.2, r.value.3)
    ensures r.Ok? ==> key == ""
    ensures r.Err? ==> FirstError(env, Then(secs, line)) == Some(r.error)
  {
    key, value := pendingKey, pendingValue;
    var header := HeaderName(line);
    if header.Some? {
      ThenHeader(secs, line);
      var c', i', q' := ParseHeader(env, header.value, c, peerConfig, isInterface, isPeer, secs);
      return Ok((c', NO_PEER, i', q')), key, value;
    }
    var attr := Attribute(line);
    if attr.Some? {
      key, value := attr.value.key, attr.value.value;
    }
    r := Ok((c, peerConfig, isInterface, isPeer));
    if |key| > 0 {
      ThenAttribute(secs, line);
      var q := ParseAssignment(env, key, value, c, peerConfig, isInterface, isPeer, secs);
      if q.Err? {
        return Err(q.error), key, value;
      }
      r := Ok((q.value.0, q.value.1, isInterface, isPeer));
      key, value := "", "";
    } else {
      ThenNothing(secs, line);
    }
  }

  lemma NothingRead(env: Parsers)
    ensures LoopState(env, [], EMPTY_CONFIG, NO_PEER, false, false)
  {
  }

  /** The sections of the first `i` lines. */
  function SectionsUpto(lines: seq<string>, i: nat): (secs: seq<Section>)
    requires i <= |lines|
  {
    Sections(ClassifyAll(lines)[..i])
  }

  lemma NextUpto(lines: seq<string>, i: nat)
    requires i < |lines|
    ensures SectionsUpto(lines, i + 1) == Then(SectionsUpto(lines, i), lines[i])
  {
    var ls := ClassifyAll(lines);
    assert ls[..i + 1][..i] == ls[..i];
  }

  lemma AllUpto(text: string)
    ensures SectionsUpto(Lines(text), |Lines(text)|) == TextSections(text)
  {
    var ls := ClassifyAll(Lines(text));
    assert ls[..|ls|] == ls;
  }

  lemma AllRead(env: Parsers, text: string, c: WireguardConfig, peer: PeerConfig, isInterface: bool, isPeer: bool)
    requires LoopState(env, TextSections(text), c, peer, isInterface, isPeer)
    ensures ParseSpec(env, text) == Ok(if isPeer then c.(peers := c.peers + [peer]) else c)
  {
  }

  lemma ErrorRead(env: Parsers, text: string, i: nat, e: ConfigError)
    requires i <= |Lines(text)| && FirstError(env, SectionsUpto(Lines(text), i)) == Some(e)
    ensures ParseSpec(env, text) == Err(e)
  {
    ErrorStands(env, ClassifyAll(Lines(text)), i);
  }

  /** The parser. For every text it returns the meaning of the sections of the text,
      or the first error in text order. */
  method NewWireguardConfigFromTarget(env: Parsers, data: string)
    returns (r: Result<WireguardConfig, ConfigError>)
    ensures r == ParseSpec(env, data)
  {
    var c, peerConfig := EMPTY_CONFIG, NO_PEER;
    var isInterface, isPeer := false, false;
    var key, value := "", "";
    var lines := Lines(data);
    NothingRead(env);
    for i := 0 to |lines|
      invariant key == ""
      invariant LoopState(env, SectionsUpto(lines, i), c, peerConfig, isInterface, isPeer)
    {
      NextUpto(lines, i);
      var q;
      q, key, value := ParseLine(env, lines[i], c, peerConfig, isInterface, isPeer, key, value,
                                 SectionsUpto(lines, i));
      if q.Err? {
        ErrorRead(env, data, i + 1, q.error);
        return Err(q.error);
      }
      c, peerConfig, isInterface, isPeer := q.value.0, q.value.1, q.value.2, q.value.3;
    }
    AllUpto(data);
    AllRead(env, data, c, peerConfig, isInterface, isPeer);
    if isPeer {
      c := c.(peers := c.peers + [peerConfig]);
    }
    return Ok(c);
  }
}
