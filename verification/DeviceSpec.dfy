/** What a reply in the WireGuard userspace protocol says about a device: key/value
    pairs, grouped by `public_key`. */
module DeviceSpec {
  import opened GoInts
  import opened Outcomes
  import opened GoText
  import opened WireguardTypes

  datatype Peer = Peer(
    publicKey: Key,
    presharedKey: Key,
    lastHandshake: Option<(int64, int64)>,
    transmitBytes: int64,
    receiveBytes: int64,
    keepaliveInterval: int64,
    allowedIPs: seq<IPNet>,
    protocolVersion: int64)

  datatype Device = Device(
    privateKey: Key,
    listenPort: int64,
    firewallMark: int64,
    peers: seq<Peer>)

  datatype DeviceError =
    | InvalidPair(line: string)
    | ErrorNumber(errno: int64)
    | BadHex(text: string)
    | BadKeyLength(length: nat)
    | BadInt(text: string)
    | BadNet(text: string)

  const NANOS_PER_SECOND := 1_000_000_000

  function NewPeer(key: Key): (p: Peer) {
    Peer(key, ZERO_KEY, None, 0, 0, 0, [], 0)
  }

  const NEW_DEVICE := Device(ZERO_KEY, 0, 0, [])

  // ----- values ------------------------------------------------------------------

  function HexDigit(c: char): (r: Option<nat>)
    ensures r.Some? ==> r.value < 16
  {
    if '0' <= c <= '9' then Some(c as int - '0' as int)
    else if 'a' <= c <= 'f' then Some(c as int - 'a' as int + 10)
    else if 'A' <= c <= 'F' then Some(c as int - 'A' as int + 10)
    else None
  }

  /** Two digits per byte, or an error. */
  function DecodeHex(s: string): (r: Option<seq<nat>>) {
    if s == [] then Some([])
    else if |s| == 1 then None
    else
      var hi, lo, rest := HexDigit(s[0]), HexDigit(s[1]), DecodeHex(s[2..]);
      if hi.Some? && lo.Some? && rest.Some? then Some([16 * hi.value + lo.value] + rest.value) else None
  }

  function KeyOf(s: string): (r: Result<Key, DeviceError>) {
    var bytes := DecodeHex(s);
    if bytes.None? then Err(BadHex(s))
    else if |bytes.value| != KEY_LENGTH then Err(BadKeyLength(|bytes.value|))
    else Ok(Key(bytes.value))
  }

  function IntOf(s: string): (r: Result<int64, DeviceError>) {
    var n := ParseInt64(s);
    if n.Some? then Ok(n.value) else Err(BadInt(s))
  }

  type CIDRParser = string -> Option<IPNet>

  function NetOf(cidr: CIDRParser, s: string): (r: Result<IPNet, DeviceError>) {
    var n := cidr(s);
    if n.Some? then Ok(n.value) else Err(BadNet(s))
  }

  function ErrorOf<T, E>(r: Result<T, E>): (e: Option<E>) {
    if r.Err? then Some(r.error) else None
  }

  function Or<T, E>(r: Result<T, E>, default: T): (v: T) {
    if r.Ok? then r.value else default
  }

  // ----- pairs --------------------------------------------------------------------

  datatype Name =
    | Errno | PublicKey
    | PrivateKey | ListenPort | FirewallMark
    | PresharedKey | HandshakeSec | HandshakeNsec | TxBytes | RxBytes
    | Keepalive | AllowedIP | ProtocolVersion
    | Unknown

  function NameOf(key: string): (n: Name) {
    if key == "errno" then Errno
    else if key == "public_key" then PublicKey
    else if key == "private_key" then PrivateKey
    else if key == "listen_port" then ListenPort
    else if key == "fwmark" then FirewallMark
    else if key == "preshared_key" then PresharedKey
    else if key == "last_handshake_time_sec" then HandshakeSec
    else if key == "last_handshake_time_nsec" then HandshakeNsec
    else if key == "tx_bytes" then TxBytes
    else if key == "rx_bytes" then RxBytes
    else if key == "persistent_keepalive_interval" then Keepalive
    else if key == "allowed_ip" then AllowedIP
    else if key == "protocol_version" then ProtocolVersion
    else Unknown
  }

  datatype Pair = Pair(name: Name, value: string)

  /** Whether a peer has been announced. */
  predicate InPeers(pairs: seq<Pair>) {
    exists i :: 0 <= i < |pairs| && pairs[i].name.PublicKey?
  }

  /** What is wrong with a pair. Which names matter depends on whether peers are being
      read; `errno` and `public_key` always do. */
  function PairError(cidr: CIDRParser, inPeers: bool, p: Pair): (r: Option<DeviceError>) {
    match p.name
    case Errno =>
      var n := IntOf(p.value);
      if n.Ok? && n.value != 0 then Some(ErrorNumber(n.value)) else ErrorOf(n)
    case PublicKey => ErrorOf(KeyOf(p.value))
    case PrivateKey => if inPeers then None else ErrorOf(KeyOf(p.value))
    case ListenPort => if inPeers then None else ErrorOf(IntOf(p.value))
    case FirewallMark => if inPeers then None else ErrorOf(IntOf(p.value))
    case PresharedKey => if inPeers then ErrorOf(KeyOf(p.value)) else None
    case AllowedIP => if inPeers then ErrorOf(NetOf(cidr, p.value)) else None
    case Unknown => None
    case _ => if inPeers then ErrorOf(IntOf(p.value)) else None
  }

  function FirstError(cidr: CIDRParser, pairs: seq<Pair>): (r: Option<DeviceError>) {
    if pairs == [] then None
    else
      var n := |pairs| - 1;
      var r := FirstError(cidr, pairs[..n]);
      if r.Some? then r else PairError(cidr, InPeers(pairs[..n]), pairs[n])
  }

  // ----- grouping -----------------------------------------------------------------

  /** The pairs before the first `public_key`. */
  function DevicePairs(pairs: seq<Pair>): (r: seq<Pair>) {
    if pairs == [] then []
    else
      var n := |pairs| - 1;
      if InPeers(pairs) then DevicePairs(pairs[..n]) else DevicePairs(pairs[..n]) + [pairs[n]]
  }

  /** One group per `public_key`, each starting with it. */
  function Groups(pairs: seq<Pair>): (gs: seq<seq<Pair>>)
    ensures forall i :: 0 <= i < |gs| ==> gs[i] != []
  {
    if pairs == [] then []
    else
      var n := |pairs| - 1;
      var gs := Groups(pairs[..n]);
      if pairs[n].name.PublicKey? then gs + [[pairs[n]]]
      else if gs == [] then []
      else gs[..|gs| - 1] + [gs[|gs| - 1] + [pairs[n]]]
  }

  /** The value given last for a name. */
  function Last(pairs: seq<Pair>, name: Name): (r: Option<string>) {
    if pairs == [] then None
    else if pairs[|pairs| - 1].name == name then Some(pairs[|pairs| - 1].value)
    else Last(pairs[..|pairs| - 1], name)
  }

  function LastInt(pairs: seq<Pair>, name: Name): (n: int64) {
    var v := Last(pairs, name);
    if v.Some? then Or(IntOf(v.value), 0) else 0
  }

  function LastKey(pairs: seq<Pair>, name: Name): (k: Key) {
    var v := Last(pairs, name);
    if v.Some? then Or(KeyOf(v.value), ZERO_KEY) else ZERO_KEY
  }

  function Nets(cidr: CIDRParser, pairs: seq<Pair>): (ns: seq<IPNet>) {
    if pairs == [] then []
    else
      var p := pairs[|pairs| - 1];
      var net := NetOf(cidr, p.value);
      Nets(cidr, pairs[..|pairs| - 1]) + if p.name.AllowedIP? && net.Ok? then [net.value] else []
  }

  /** The handshake seconds in force after a group that started with `sec`. */
  function SecondsAfter(group: seq<Pair>, sec: int64): (r: int64) {
    if group == [] then sec
    else
      var p := group[|group| - 1];
      if p.name.HandshakeSec? then Or(IntOf(p.value), 0) else SecondsAfter(group[..|group| - 1], sec)
  }

  predicate PositiveNsec(p: Pair) {
    p.name.HandshakeNsec? && IntOf(p.value).Ok? && IntOf(p.value).value > 0
  }

  /** The last positive nanosecond line that meets positive seconds. */
  function Handshake(group: seq<Pair>, sec: int64): (r: Option<(int64, int64)>) {
    if group == [] then None
    else
      var before, p := group[..|group| - 1], group[|group| - 1];
      if PositiveNsec(p) && SecondsAfter(before, sec) > 0
      then Some((SecondsAfter(before, sec), IntOf(p.value).value))
      else Handshake(before, sec)
  }

  function PeerOf(cidr: CIDRParser, group: seq<Pair>, sec: int64): (p: Peer)
    requires group != []
  {
    Peer(
      Or(KeyOf(group[0].value), ZERO_KEY),
      LastKey(group, PresharedKey),
      Handshake(group, sec),
      LastInt(group, TxBytes),
      LastInt(group, RxBytes),
      Wrap64(LastInt(group, Keepalive) * NANOS_PER_SECOND),
      Nets(cidr, group),
      LastInt(group, ProtocolVersion))
  }

  /** The seconds are carried from one group to the next. */
  function SecondsThrough(groups: seq<seq<Pair>>): (r: int64) {
    if groups == [] then 0
    else SecondsAfter(groups[|groups| - 1], SecondsThrough(groups[..|groups| - 1]))
  }

  function PeersOf(cidr: CIDRParser, groups: seq<seq<Pair>>): (ps: seq<Peer>)
    requires forall i :: 0 <= i < |groups| ==> groups[i] != []
    ensures |ps| == |groups|
  {
    if groups == [] then []
    else
      var n := |groups| - 1;
      PeersOf(cidr, groups[..n]) + [PeerOf(cidr, groups[n], SecondsThrough(groups[..n]))]
  }

  /** The device that a list of pairs describes. */
  function DeviceOf(cidr: CIDRParser, pairs: seq<Pair>): (d: Device) {
    var own := DevicePairs(pairs);
    Device(LastKey(own, PrivateKey), LastInt(own, ListenPort), LastInt(own, FirewallMark),
           PeersOf(cidr, Groups(pairs)))
  }

  // ----- lines ---------------------------------------------------------------------

  predicate NoneEmpty(lines: seq<string>, n: nat)
    requires n <= |lines|
  {
    forall k :: 0 <= k < n ==> |lines[k]| > 0
  }

  /** The lines before the first empty one. */
  function Body(lines: seq<string>): (r: seq<string>) {
    if lines == [] || |lines[0]| == 0 then [] else [lines[0]] + Body(lines[1..])
  }

  function PairOf(line: string): (r: Option<Pair>) {
    var parts := Split(line, '=');
    if |parts| == 2 then Some(Pair(NameOf(parts[0]), parts[1])) else None
  }

  /** The pairs of all lines, or the first line that is not a pair. */
  function PairsOf(lines: seq<string>): (r: Result<seq<Pair>, DeviceError>) {
    if lines == [] then Ok([])
    else
      var n := |lines| - 1;
      var before := PairsOf(lines[..n]);
      if before.Err? then before
      else
        var p := PairOf(lines[n]);
        if p.Some? then Ok(before.value + [p.value]) else Err(InvalidPair(lines[n]))
  }

  /** The outcome for a whole reply: a malformed line beats an error in a value, and the
      first of either kind is reported. */
  function ParseSpec(cidr: CIDRParser, lines: seq<string>): (r: Result<Device, DeviceError>) {
    var pairs := PairsOf(Body(lines));
    if pairs.Err? then Err(pairs.error)
    else
      var e := FirstError(cidr, pairs.value);
      if e.Some? then Err(e.value) else Ok(DeviceOf(cidr, pairs.value))
  }

  // ----- whose handshake is it? -------------------------------------------------------

  predicate HasSeconds(group: seq<Pair>) {
    exists i :: 0 <= i < |group| && group[i].name.HandshakeSec?
  }

  /** The last positive nanosecond line that no seconds line of the group precedes. */
  function Orphan(group: seq<Pair>): (r: Option<int64>) {
    if group == [] then None
    else
      var before, p := group[..|group| - 1], group[|group| - 1];
      if !HasSeconds(before) && PositiveNsec(p) then Some(IntOf(p.value).value) else Orphan(before)
  }

  lemma {:induction false} SecondsOwned(group: seq<Pair>, sec: int64)
    ensures SecondsAfter(group, sec) == if HasSeconds(group) then SecondsAfter(group, 0) else sec
  {
    if group != [] {
      var n := |group| - 1;
      SecondsOwned(group[..n], sec);
      assert HasSeconds(group[..n]) || group[n].name.HandshakeSec? <==> HasSeconds(group) by {
        if HasSeconds(group[..n]) {
          var i :| 0 <= i < n && group[..n][i].name.HandshakeSec?;
          assert group[i].name.HandshakeSec?;
        }
      }
    }
  }

  /** A peer takes its handshake from its own lines if these determine one; otherwise it
      is given the seconds of an earlier peer exactly when those are positive and one of
      its positive nanosecond lines has no seconds line before it. */
  lemma {:induction false} HandshakeInherits(group: seq<Pair>, sec: int64)
    ensures Handshake(group, sec) ==
            if Handshake(group, 0).Some? then Handshake(group, 0)
            else if sec > 0 && Orphan(group).Some? then Some((sec, Orphan(group).value))
            else None
    ensures Handshake(group, 0).Some? ==> HasSeconds(group)
  {
    if group != [] {
      var n := |group| - 1;
      HandshakeInherits(group[..n], sec);
      SecondsOwned(group[..n], sec);
      SecondsOwned(group[..n], 0);
      if HasSeconds(group[..n]) {
        var i :| 0 <= i < n && group[..n][i].name.HandshakeSec?;
        assert group[i].name.HandshakeSec?;
      }
    }
  }

  // ----- a reply in which a handshake is borrowed ---------------------------------------

  /** Two peers: the first has only the seconds of a handshake, the second only the
      nanoseconds. */
  function SplitHandshake(k1: string, sec: int64, k2: string, nsec: int64): (pairs: seq<Pair>) {
    [Pair(PublicKey, k1), Pair(HandshakeSec, PrintInt(sec)),
     Pair(PublicKey, k2), Pair(HandshakeNsec, PrintInt(nsec))]
  }

  /** A peer with a nanoseconds line only is given the seconds of the peer before it. */
  lemma BorrowedSeconds(key: string, sec: int64, nsec: int64)
    requires sec > 0 && nsec > 0
    ensures Handshake([Pair(PublicKey, key), Pair(HandshakeNsec, PrintInt(nsec))], sec) == Some((sec, nsec))
  {
    var a, p := Pair(PublicKey, key), Pair(HandshakeNsec, PrintInt(nsec));
    assert [a, p][..1] == [a] && [a][..0] == [];
    ParseOfPrint(nsec);
    assert SecondsAfter([a], sec) == SecondsAfter([], sec) == sec;
  }

  lemma OwnSeconds(key: string, sec: int64)
    ensures var group := [Pair(PublicKey, key), Pair(HandshakeSec, PrintInt(sec))];
            SecondsAfter(group, 0) == sec && Handshake(group, 0) == None
  {
    var a, p := Pair(PublicKey, key), Pair(HandshakeSec, PrintInt(sec));
    assert [a, p][..1] == [a] && [a][..0] == [];
    ParseOfPrint(sec);
    assert Handshake([a], 0) == Handshake([], 0) == None;
  }

  lemma GroupsSnoc(pairs: seq<Pair>, p: Pair)
    ensures var gs := Groups(pairs);
            Groups(pairs + [p]) ==
            if p.name.PublicKey? then gs + [[p]]
            else if gs == [] then []
            else gs[..|gs| - 1] + [gs[|gs| - 1] + [p]]
  {
    assert (pairs + [p])[..|pairs|] == pairs;
  }

  /** A new peer with one more pair. */
  lemma TwoPairGroup(pairs: seq<Pair>, p: Pair, q: Pair)
    requires p.name.PublicKey? && !q.name.PublicKey?
    ensures Groups(pairs + [p] + [q]) == Groups(pairs) + [[p, q]]
  {
    GroupsSnoc(pairs, p);
    GroupsSnoc(pairs + [p], q);
    var gs := Groups(pairs);
    assert (gs + [[p]])[..|gs|] == gs && [p] + [q] == [p, q];
  }

  lemma SplitGroups(k1: string, sec: int64, k2: string, nsec: int64)
    ensures Groups(SplitHandshake(k1, sec, k2, nsec)) ==
            [[Pair(PublicKey, k1), Pair(HandshakeSec, PrintInt(sec))],
             [Pair(PublicKey, k2), Pair(HandshakeNsec, PrintInt(nsec))]]
  {
    var a, b := Pair(PublicKey, k1), Pair(HandshakeSec, PrintInt(sec));
    var c, d := Pair(PublicKey, k2), Pair(HandshakeNsec, PrintInt(nsec));
    TwoPairGroup([], a, b);
    TwoPairGroup([] + [a] + [b], c, d);
    assert SplitHandshake(k1, sec, k2, nsec) == [] + [a] + [b] + [c] + [d];
  }

  /** A pair that is no error wherever it stands. */
  predicate Harmless(cidr: CIDRParser, p: Pair) {
    PairError(cidr, true, p).None? && PairError(cidr, false, p).None?
  }

  lemma NumberIsHarmless(cidr: CIDRParser, name: Name, n: int64)
    requires name.HandshakeSec? || name.HandshakeNsec?
    ensures Harmless(cidr, Pair(name, PrintInt(n)))
  {
    ParseOfPrint(n);
  }

  lemma {:induction false} HarmlessPairs(cidr: CIDRParser, pairs: seq<Pair>)
    requires forall i :: 0 <= i < |pairs| ==> Harmless(cidr, pairs[i])
    ensures FirstError(cidr, pairs).None?
  {
    if pairs != [] {
      HarmlessPairs(cidr, pairs[..|pairs| - 1]);
    }
  }

  lemma SplitHasNoError(cidr: CIDRParser, k1: string, sec: int64, k2: string, nsec: int64)
    requires KeyOf(k1).Ok? && KeyOf(k2).Ok?
    ensures FirstError(cidr, SplitHandshake(k1, sec, k2, nsec)).None?
  {
    NumberIsHarmless(cidr, HandshakeSec, sec);
    NumberIsHarmless(cidr, HandshakeNsec, nsec);
    HarmlessPairs(cidr, SplitHandshake(k1, sec, k2, nsec));
  }

  lemma PeerHandshake(cidr: CIDRParser, g: seq<Pair>, sec: int64)
    requires g != []
    ensures PeerOf(cidr, g, sec).lastHandshake == Handshake(g, sec)
  {
  }

  /** The last peer is that of the last group. */
  lemma LastPeer(cidr: CIDRParser, gs: seq<seq<Pair>>)
    requires gs != [] && forall i :: 0 <= i < |gs| ==> gs[i] != []
    ensures var n := |gs| - 1;
            && PeersOf(cidr, gs)[..n] == PeersOf(cidr, gs[..n])
            && PeersOf(cidr, gs)[n].lastHandshake == Handshake(gs[n], SecondsThrough(gs[..n]))
  {
    var n := |gs| - 1;
    PeerHandshake(cidr, gs[n], SecondsThrough(gs[..n]));
    var ps := PeersOf(cidr, gs[..n]);
    assert |ps| == n;
  }

  lemma SecondsThroughOne(gs: seq<seq<Pair>>)
    requires |gs| > 0
    ensures SecondsThrough(gs[..0]) == 0 && SecondsThrough(gs[..1]) == SecondsAfter(gs[0], 0)
  {
    assert gs[..1][..0] == [];
  }

  /** A reply without any error after which the first peer has no handshake, and the second
      has one that combines the seconds of the first with its own nanoseconds. */
  lemma BorrowedHandshake(cidr: CIDRParser, k1: string, sec: int64, k2: string, nsec: int64)
    requires KeyOf(k1).Ok? && KeyOf(k2).Ok? && sec > 0 && nsec > 0
    ensures var pairs := SplitHandshake(k1, sec, k2, nsec);
            var peers := DeviceOf(cidr, pairs).peers;
            && FirstError(cidr, pairs).None? && |peers| == 2
            && peers[0].lastHandshake == None && peers[1].lastHandshake == Some((sec, nsec))
  {
    SplitHasNoError(cidr, k1, sec, k2, nsec);
    SplitGroups(k1, sec, k2, nsec);
    OwnSeconds(k1, sec);
    BorrowedSeconds(k2, sec, nsec);
    var gs := Groups(SplitHandshake(k1, sec, k2, nsec));
    LastPeer(cidr, gs);
    LastPeer(cidr, gs[..1]);
    SecondsThroughOne(gs);
  }
}
