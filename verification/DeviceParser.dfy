/** The streaming parser of tailscale/wireguard_device.go: the object with its sticky
    error and its current peer, proved to produce what the grouped reading says. */
module DeviceParsing {
  import opened GoInts
  import opened Outcomes
  import opened GoText
  import opened WireguardTypes
  import opened DeviceSpec

  /** The fields of the parser. */
  datatype State = State(
    d: Device,
    err: Option<DeviceError>,
    parsePeers: bool,
    peers: nat,
    hsSec: int64,
    hsNano: int64)

  const START := State(NEW_DEVICE, None, false, 0, 0, 0)

  /** The current peer index is in range whenever peers are being read. */
  predicate Sound(s: State) {
    s.peers == |s.d.peers| && (s.parsePeers <==> s.peers > 0)
  }

  /** What reading a value gives: once an error is set, nothing but the default. */
  function Value<T>(err: Option<DeviceError>, r: Result<T, DeviceError>, default: T): (v: T) {
    if err.None? && r.Ok? then r.value else default
  }

  function Sticky<T>(err: Option<DeviceError>, r: Result<T, DeviceError>): (e: Option<DeviceError>) {
    if err.Some? then err else ErrorOf(r)
  }

  function PeerStep(cidr: CIDRParser, s: State, p: Pair): (r: State)
    requires Sound(s) && s.parsePeers
  {
    var i := s.peers - 1;
    var q := s.d.peers[i];
    var key, n, net := KeyOf(p.value), IntOf(p.value), NetOf(cidr, p.value);
    match p.name
    case PresharedKey => Updated(s, q.(presharedKey := Value(s.err, key, ZERO_KEY)), Sticky(s.err, key))
    case HandshakeSec => s.(hsSec := Value(s.err, n, 0), err := Sticky(s.err, n))
    case HandshakeNsec =>
      var nano := Value(s.err, n, 0);
      Updated(s, if s.hsSec > 0 && nano > 0 then q.(lastHandshake := Some((s.hsSec, nano))) else q,
              Sticky(s.err, n)).(hsNano := nano)
    case TxBytes => Updated(s, q.(transmitBytes := Value(s.err, n, 0)), Sticky(s.err, n))
    case RxBytes => Updated(s, q.(receiveBytes := Value(s.err, n, 0)), Sticky(s.err, n))
    case Keepalive =>
      Updated(s, q.(keepaliveInterval := Wrap64(Value(s.err, n, 0) * NANOS_PER_SECOND)), Sticky(s.err, n))
    case AllowedIP =>
      Updated(s, if s.err.None? && net.Ok? then q.(allowedIPs := q.allowedIPs + [net.value]) else q,
              Sticky(s.err, net))
    case ProtocolVersion => Updated(s, q.(protocolVersion := Value(s.err, n, 0)), Sticky(s.err, n))
    case _ => s
  }

  /** The current peer and the error are replaced. */
  function Updated(s: State, q: Peer, err: Option<DeviceError>): (r: State)
    requires Sound(s) && s.parsePeers
  {
    s.(d := s.d.(peers := s.d.peers[s.peers - 1 := q]), err := err)
  }

  function DeviceStep(s: State, p: Pair): (r: State) {
    var key, n := KeyOf(p.value), IntOf(p.value);
    match p.name
    case PrivateKey => s.(d := s.d.(privateKey := Value(s.err, key, ZERO_KEY)), err := Sticky(s.err, key))
    case ListenPort => s.(d := s.d.(listenPort := Value(s.err, n, 0)), err := Sticky(s.err, n))
    case FirewallMark => s.(d := s.d.(firewallMark := Value(s.err, n, 0)), err := Sticky(s.err, n))
    case _ => s
  }

  /** What one key/value pair does. */
  function Step(cidr: CIDRParser, s: State, p: Pair): (r: State)
    requires Sound(s)
    ensures Sound(r)
    ensures s.err.Some? ==> r.err == s.err
  {
    match p.name
    case Errno =>
      var n := Value(s.err, IntOf(p.value), 0);
      s.(err := if n != 0 then Some(ErrorNumber(n)) else Sticky(s.err, IntOf(p.value)))
    case PublicKey =>
      var key := KeyOf(p.value);
      s.(d := s.d.(peers := s.d.peers + [NewPeer(Value(s.err, key, ZERO_KEY))]),
         err := Sticky(s.err, key), parsePeers := true, peers := s.peers + 1)
    case _ => if s.parsePeers then PeerStep(cidr, s, p) else DeviceStep(s, p)
  }

  /** The parser after a list of pairs. */
  function Run(cidr: CIDRParser, pairs: seq<Pair>): (s: State)
    ensures Sound(s)
  {
    if pairs == [] then START else Step(cidr, Run(cidr, pairs[..|pairs| - 1]), pairs[|pairs| - 1])
  }

  // ----- the object --------------------------------------------------------------------

  class DeviceParser {
    const cidr: CIDRParser
    var d: Device
    var err: Option<DeviceError>
    var parsePeers: bool
    var peers: nat
    var hsSec: int64
    var hsNano: int64

    ghost function Abs(): (s: State)
      reads this
    {
      State(d, err, parsePeers, peers, hsSec, hsNano)
    }

    constructor (cidr: CIDRParser)
      ensures Abs() == START && this.cidr == cidr
    {
      this.cidr := cidr;
      d, err, parsePeers, peers, hsSec, hsNano := NEW_DEVICE, None, false, 0, 0, 0;
    }

    method ParseKey(s: string) returns (key: Key)
      modifies this`err
      ensures key == Value(old(err), KeyOf(s), ZERO_KEY) && err == Sticky(old(err), KeyOf(s))
    {
      if err.Some? {
        return ZERO_KEY;
      }
      var b := DecodeHex(s);
      if b.None? {
        err := Some(BadHex(s));
        return ZERO_KEY;
      }
      if |b.value| != KEY_LENGTH {
        err := Some(BadKeyLength(|b.value|));
        return ZERO_KEY;
      }
      return Key(b.value);
    }

    method ParseInt(s: string) returns (n: int64)
      modifies this`err
      ensures n == Value(old(err), IntOf(s), 0) && err == Sticky(old(err), IntOf(s))
    {
      if err.Some? {
        return 0;
      }
      var v := ParseInt64(s);
      if v.None? {
        err := Some(BadInt(s));
        return 0;
      }
      return v.value;
    }

    method ParseCIDR(s: string) returns (net: Option<IPNet>)
      modifies this`err
      ensures net == (if old(err).None? && NetOf(cidr, s).Ok? then Some(NetOf(cidr, s).value) else None)
      ensures err == Sticky(old(err), NetOf(cidr, s))
    {
      if err.Some? {
        return None;
      }
      net := cidr(s);
      if net.None? {
        err := Some(BadNet(s));
      }
    }

    /** One key/value field of the current peer. */
    method PeerParse(p: Pair)
      requires Sound(Abs()) && parsePeers
      modifies this
      ensures Abs() == PeerStep(cidr, old(Abs()), p)
    {
      var i := peers - 1;
      match p.name
      case PresharedKey =>
        var key := ParseKey(p.value);
        d := d.(peers := d.peers[i := d.peers[i].(presharedKey := key)]);
      case HandshakeSec => hsSec := ParseInt(p.value);
      case HandshakeNsec =>
        hsNano := ParseInt(p.value);
        if hsSec > 0 && hsNano > 0 {
          d := d.(peers := d.peers[i := d.peers[i].(lastHandshake := Some((hsSec, hsNano)))]);
        }
      case TxBytes =>
        var n := ParseInt(p.value);
        d := d.(peers := d.peers[i := d.peers[i].(transmitBytes := n)]);
      case RxBytes =>
        var n := ParseInt(p.value);
        d := d.(peers := d.peers[i := d.peers[i].(receiveBytes := n)]);
      case Keepalive =>
        var n := ParseInt(p.value);
        d := d.(peers := d.peers[i := d.peers[i].(keepaliveInterval := Wrap64(n * NANOS_PER_SECOND))]);
      case AllowedIP =>
        var net := ParseCIDR(p.value);
        if net.Some? {
          d := d.(peers := d.peers[i := d.peers[i].(allowedIPs := d.peers[i].allowedIPs + [net.value])]);
        }
      case ProtocolVersion =>
        var n := ParseInt(p.value);
        d := d.(peers := d.peers[i := d.peers[i].(protocolVersion := n)]);
      case _ =>
    }

    /** One key/value pair. */
    method Parse(p: Pair)
      requires Sound(Abs())
      modifies this
      ensures Abs() == Step(cidr, old(Abs()), p)
    {
      if p.name.Errno? {
        var errno := ParseInt(p.value);
        if errno != 0 {
          err := Some(ErrorNumber(errno));
          return;
        }
      } else if p.name.PublicKey? {
        parsePeers := true;
        peers := peers + 1;
        var key := ParseKey(p.value);
        d := d.(peers := d.peers + [NewPeer(key)]);
        return;
      }
      if parsePeers {
        PeerParse(p);
        return;
      }
      if p.name.PrivateKey? {
        var key := ParseKey(p.value);
        d := d.(privateKey := key);
      } else if p.name.ListenPort? {
        var n := ParseInt(p.value);
        d := d.(listenPort := n);
      } else if p.name.FirewallMark? {
        var n := ParseInt(p.value);
        d := d.(firewallMark := n);
      }
    }
  }

  // ----- streaming equals grouping -------------------------------------------------------

  lemma InPeersSnoc(pairs: seq<Pair>, p: Pair)
    ensures InPeers(pairs + [p]) <==> InPeers(pairs) || p.name.PublicKey?
  {
    if InPeers(pairs) {
      var i :| 0 <= i < |pairs| && pairs[i].name.PublicKey?;
      assert (pairs + [p])[i].name.PublicKey?;
    }
    assert (pairs + [p])[|pairs|] == p;
  }

  lemma FirstErrorSnoc(cidr: CIDRParser, pairs: seq<Pair>, p: Pair)
    ensures FirstError(cidr, pairs + [p]) ==
            var r := FirstError(cidr, pairs);
            if r.Some? then r else PairError(cidr, InPeers(pairs), p)
  {
  }

  lemma LastSnoc(pairs: seq<Pair>, p: Pair, name: Name)
    ensures Last(pairs + [p], name) == if p.name == name then Some(p.value) else Last(pairs, name)
  {
  }

  /** A pair in the device part. */
  lemma DevicePairStep(cidr: CIDRParser, pairs: seq<Pair>, p: Pair)
    requires !InPeers(pairs + [p])
    ensures var d := DeviceOf(cidr, pairs);
            DeviceOf(cidr, pairs + [p]) ==
            match p.name
            case PrivateKey => d.(privateKey := Or(KeyOf(p.value), ZERO_KEY))
            case ListenPort => d.(listenPort := Or(IntOf(p.value), 0))
            case FirewallMark => d.(firewallMark := Or(IntOf(p.value), 0))
            case _ => d
  {
    InPeersSnoc(pairs, p);
    NoGroups(pairs);
    NoGroups(pairs + [p]);
    assert (pairs + [p])[..|pairs|] == pairs;
    var own := DevicePairs(pairs);
    assert DevicePairs(pairs + [p]) == own + [p];
    LastSnoc(own, p, PrivateKey);
    LastSnoc(own, p, ListenPort);
    LastSnoc(own, p, FirewallMark);
  }

  lemma {:induction false} NoGroups(pairs: seq<Pair>)
    ensures Groups(pairs) == [] <==> !InPeers(pairs)
  {
    if pairs != [] {
      var n := |pairs| - 1;
      NoGroups(pairs[..n]);
      InPeersSnoc(pairs[..n], pairs[n]);
      assert pairs == pairs[..n] + [pairs[n]];
    }
  }

  /** A pair that announces a peer, or belongs to one, leaves the device part alone. */
  lemma PeerPairStep(pairs: seq<Pair>, p: Pair)
    requires InPeers(pairs + [p])
    ensures DevicePairs(pairs + [p]) == DevicePairs(pairs)
    ensures var gs := Groups(pairs);
            Groups(pairs + [p]) ==
            if p.name.PublicKey? then gs + [[p]]
            else if gs == [] then []
            else gs[..|gs| - 1] + [gs[|gs| - 1] + [p]]
  {
  }

  lemma FirstPair(cidr: CIDRParser, p: Pair, sec: int64)
    requires p.name.PublicKey?
    ensures PeerOf(cidr, [p], sec) == NewPeer(Or(KeyOf(p.value), ZERO_KEY))
    ensures SecondsAfter([p], sec) == sec
  {
    var g := [] + [p];
    assert g == [p] && g[..0] == [];
    LastSnoc([], p, PresharedKey);
    LastSnoc([], p, TxBytes);
    LastSnoc([], p, RxBytes);
    LastSnoc([], p, Keepalive);
    LastSnoc([], p, ProtocolVersion);
    assert Handshake(g, sec).None?;
    assert Nets(cidr, g) == [];
  }

  lemma NewGroup(cidr: CIDRParser, gs: seq<seq<Pair>>, p: Pair)
    requires p.name.PublicKey? && forall i :: 0 <= i < |gs| ==> gs[i] != []
    ensures forall i :: 0 <= i < |gs + [[p]]| ==> (gs + [[p]])[i] != []
    ensures PeersOf(cidr, gs + [[p]]) == PeersOf(cidr, gs) + [NewPeer(Or(KeyOf(p.value), ZERO_KEY))]
    ensures SecondsThrough(gs + [[p]]) == SecondsThrough(gs)
  {
    assert (gs + [[p]])[..|gs|] == gs;
    FirstPair(cidr, p, SecondsThrough(gs));
  }

  /** What one more pair does to a peer whose group has brought the seconds to `sec`. */
  function PeerAfter(cidr: CIDRParser, q: Peer, sec: int64, p: Pair): (r: Peer) {
    match p.name
    case PresharedKey => q.(presharedKey := Or(KeyOf(p.value), ZERO_KEY))
    case HandshakeNsec =>
      if PositiveNsec(p) && sec > 0 then q.(lastHandshake := Some((sec, IntOf(p.value).value))) else q
    case TxBytes => q.(transmitBytes := Or(IntOf(p.value), 0))
    case RxBytes => q.(receiveBytes := Or(IntOf(p.value), 0))
    case Keepalive => q.(keepaliveInterval := Wrap64(Or(IntOf(p.value), 0) * NANOS_PER_SECOND))
    case AllowedIP =>
      var net := NetOf(cidr, p.value);
      if net.Ok? then q.(allowedIPs := q.allowedIPs + [net.value]) else q
    case ProtocolVersion => q.(protocolVersion := Or(IntOf(p.value), 0))
    case _ => q
  }

  lemma PeerOfSnoc(cidr: CIDRParser, group: seq<Pair>, sec: int64, p: Pair)
    requires group != []
    ensures PeerOf(cidr, group + [p], sec) ==
            PeerAfter(cidr, PeerOf(cidr, group, sec), SecondsAfter(group, sec), p)
    ensures SecondsAfter(group + [p], sec) ==
            if p.name.HandshakeSec? then Or(IntOf(p.value), 0) else SecondsAfter(group, sec)
  {
    assert (group + [p])[..|group|] == group;
    LastSnoc(group, p, PresharedKey);
    LastSnoc(group, p, TxBytes);
    LastSnoc(group, p, RxBytes);
    LastSnoc(group, p, Keepalive);
    LastSnoc(group, p, ProtocolVersion);
  }

  lemma ExtendedGroup(cidr: CIDRParser, gs: seq<seq<Pair>>, p: Pair)
    requires gs != [] && forall i :: 0 <= i < |gs| ==> gs[i] != []
    ensures var n := |gs| - 1;
            var ext := gs[..n] + [gs[n] + [p]];
            && (forall i :: 0 <= i < |ext| ==> ext[i] != [])
            && PeersOf(cidr, ext) ==
               PeersOf(cidr, gs)[n := PeerAfter(cidr, PeersOf(cidr, gs)[n], SecondsThrough(gs), p)]
            && SecondsThrough(ext) ==
               if p.name.HandshakeSec? then Or(IntOf(p.value), 0) else SecondsThrough(gs)
  {
    var n := |gs| - 1;
    var ext := gs[..n] + [gs[n] + [p]];
    assert ext[..n] == gs[..n];
    PeerOfSnoc(cidr, gs[n], SecondsThrough(gs[..n]), p);
  }

  /** One pair that is not in error, in the middle of a peer. */
  lemma PeerStepAgrees(cidr: CIDRParser, s: State, p: Pair)
    requires Sound(s) && s.parsePeers && s.err.None?
    requires !p.name.PublicKey? && !p.name.Errno?
    ensures var r := PeerStep(cidr, s, p);
            && r.err == PairError(cidr, true, p)
            && r.parsePeers && r.peers == s.peers
            && (r.err.None? ==>
                  && r.hsSec == (if p.name.HandshakeSec? then Or(IntOf(p.value), 0) else s.hsSec)
                  && var n := s.peers - 1;
                  && r.d == s.d.(peers := s.d.peers[n := PeerAfter(cidr, s.d.peers[n], s.hsSec, p)]))
  {
    var n := s.peers - 1;
    assert s.d.peers[n := s.d.peers[n]] == s.d.peers;
  }

  /** The parser's state after `pairs`, in terms of the grouped reading. */
  ghost predicate Tracks(cidr: CIDRParser, pairs: seq<Pair>, s: State) {
    && s.err == FirstError(cidr, pairs)
    && s.parsePeers == InPeers(pairs) && s.peers == |Groups(pairs)|
    && (s.err.None? ==> s.d == DeviceOf(cidr, pairs) && s.hsSec == SecondsThrough(Groups(pairs)))
  }

  lemma AnnouncedDevice(cidr: CIDRParser, pairs: seq<Pair>, p: Pair)
    requires p.name.PublicKey?
    ensures var d := DeviceOf(cidr, pairs);
            DeviceOf(cidr, pairs + [p]) ==
            d.(peers := d.peers + [NewPeer(Or(KeyOf(p.value), ZERO_KEY))])
    ensures |Groups(pairs + [p])| == |Groups(pairs)| + 1
    ensures SecondsThrough(Groups(pairs + [p])) == SecondsThrough(Groups(pairs))
  {
    InPeersSnoc(pairs, p);
    PeerPairStep(pairs, p);
    NewGroup(cidr, Groups(pairs), p);
  }

  lemma AnnouncedTracks(cidr: CIDRParser, pairs: seq<Pair>, s: State, p: Pair)
    requires Sound(s) && Tracks(cidr, pairs, s) && p.name.PublicKey?
    ensures Tracks(cidr, pairs + [p], Step(cidr, s, p))
  {
    FirstErrorSnoc(cidr, pairs, p);
    InPeersSnoc(pairs, p);
    AnnouncedDevice(cidr, pairs, p);
  }

  /** A pair in the middle of a peer changes that peer only. */
  lemma PeerDevice(cidr: CIDRParser, pairs: seq<Pair>, p: Pair)
    requires InPeers(pairs) && !p.name.PublicKey?
    ensures var d := DeviceOf(cidr, pairs);
            var n := |d.peers| - 1;
            && |Groups(pairs + [p])| == |Groups(pairs)| == |d.peers| && n >= 0
            && DeviceOf(cidr, pairs + [p]) ==
               d.(peers := d.peers[n := PeerAfter(cidr, d.peers[n], SecondsThrough(Groups(pairs)), p)])
            && SecondsThrough(Groups(pairs + [p])) ==
               if p.name.HandshakeSec? then Or(IntOf(p.value), 0) else SecondsThrough(Groups(pairs))
  {
    InPeersSnoc(pairs, p);
    NoGroups(pairs);
    PeerPairStep(pairs, p);
    ExtendedGroup(cidr, Groups(pairs), p);
  }

  /** Once there is an error, a pair that announces no peer changes no counts. */
  lemma StuckStep(cidr: CIDRParser, s: State, p: Pair)
    requires Sound(s) && s.err.Some? && !p.name.PublicKey?
    ensures var r := Step(cidr, s, p); r.err == s.err && r.parsePeers == s.parsePeers && r.peers == s.peers
  {
  }

  /** An `errno` pair changes the error only. */
  lemma ErrnoStep(cidr: CIDRParser, s: State, p: Pair)
    requires Sound(s) && s.err.None? && p.name.Errno?
    ensures Step(cidr, s, p) == s.(err := PairError(cidr, s.parsePeers, p))
  {
  }

  lemma InPeerTracks(cidr: CIDRParser, pairs: seq<Pair>, s: State, p: Pair)
    requires Sound(s) && Tracks(cidr, pairs, s) && s.parsePeers && !p.name.PublicKey?
    ensures Tracks(cidr, pairs + [p], Step(cidr, s, p))
  {
    if s.err.Some? {
      FirstErrorSnoc(cidr, pairs, p);
      InPeersSnoc(pairs, p);
      PeerDevice(cidr, pairs, p);
      StuckStep(cidr, s, p);
    } else if p.name.Errno? {
      ErrnoInPeerTracks(cidr, pairs, s, p);
    } else {
      FieldTracks(cidr, pairs, s, p);
    }
  }

  lemma ErrnoInPeerTracks(cidr: CIDRParser, pairs: seq<Pair>, s: State, p: Pair)
    requires Sound(s) && Tracks(cidr, pairs, s) && s.parsePeers && s.err.None? && p.name.Errno?
    ensures Tracks(cidr, pairs + [p], Step(cidr, s, p))
  {
    FirstErrorSnoc(cidr, pairs, p);
    InPeersSnoc(pairs, p);
    PeerDevice(cidr, pairs, p);
    ErrnoStep(cidr, s, p);
    var n := s.peers - 1;
    assert s.d.peers[n := s.d.peers[n]] == s.d.peers;
  }

  lemma FieldTracks(cidr: CIDRParser, pairs: seq<Pair>, s: State, p: Pair)
    requires Sound(s) && Tracks(cidr, pairs, s) && s.parsePeers && s.err.None?
    requires !p.name.Errno? && !p.name.PublicKey?
    ensures Tracks(cidr, pairs + [p], Step(cidr, s, p))
  {
    FirstErrorSnoc(cidr, pairs, p);
    InPeersSnoc(pairs, p);
    PeerDevice(cidr, pairs, p);
    PeerStepAgrees(cidr, s, p);
    assert Step(cidr, s, p) == PeerStep(cidr, s, p);
  }

  /** One pair that is not in error, in the device part. */
  lemma DeviceStepAgrees(cidr: CIDRParser, s: State, p: Pair)
    requires s.err.None? && !p.name.PublicKey? && !p.name.Errno?
    ensures var r := DeviceStep(s, p);
            && r == s.(d := r.d, err := PairError(cidr, false, p))
            && (r.err.None? ==>
                  r.d == match p.name
                         case PrivateKey => s.d.(privateKey := Or(KeyOf(p.value), ZERO_KEY))
                         case ListenPort => s.d.(listenPort := Or(IntOf(p.value), 0))
                         case FirewallMark => s.d.(firewallMark := Or(IntOf(p.value), 0))
                         case _ => s.d)
  {
  }

  lemma InDeviceTracks(cidr: CIDRParser, pairs: seq<Pair>, s: State, p: Pair)
    requires Sound(s) && Tracks(cidr, pairs, s) && !s.parsePeers && !p.name.PublicKey?
    ensures Tracks(cidr, pairs + [p], Step(cidr, s, p))
  {
    FirstErrorSnoc(cidr, pairs, p);
    InPeersSnoc(pairs, p);
    NoGroups(pairs);
    NoGroups(pairs + [p]);
    DevicePairStep(cidr, pairs, p);
    if s.err.Some? {
      StuckStep(cidr, s, p);
    } else if p.name.Errno? {
      ErrnoStep(cidr, s, p);
    } else {
      DeviceStepAgrees(cidr, s, p);
      assert Step(cidr, s, p) == DeviceStep(s, p);
    }
  }

  /** After any list of pairs the error is the first one raised, there is one peer per
      `public_key`, and without an error the device is the one the groups describe. */
  lemma {:induction false} RunTracks(cidr: CIDRParser, pairs: seq<Pair>)
    ensures Tracks(cidr, pairs, Run(cidr, pairs))
  {
    if pairs != [] {
      var n := |pairs| - 1;
      RunTracks(cidr, pairs[..n]);
      var s, p := Run(cidr, pairs[..n]), pairs[n];
      assert pairs == pairs[..n] + [p];
      if p.name.PublicKey? {
        AnnouncedTracks(cidr, pairs[..n], s, p);
      } else if s.parsePeers {
        InPeerTracks(cidr, pairs[..n], s, p);
      } else {
        InDeviceTracks(cidr, pairs[..n], s, p);
      }
    }
  }

  // ----- the whole reply ------------------------------------------------------------------

  /** The public key of a device, derived from its private key. */
  type KeyDeriver = Key -> Key

  datatype ParsedDevice = ParsedDevice(device: Device, publicKey: Key)

  lemma {:induction false} BodyIsPrefix(lines: seq<string>, i: nat)
    requires i <= |lines| && NoneEmpty(lines, i)
    requires i == |lines| || |lines[i]| == 0
    ensures Body(lines) == lines[..i]
  {
    if i > 0 {
      BodyIsPrefix(lines[1..], i - 1);
      assert lines[..i] == [lines[0]] + lines[1..][..i - 1];
    }
  }

  lemma {:induction false} BodyHasPrefix(lines: seq<string>, i: nat)
    requires i <= |lines| && NoneEmpty(lines, i)
    ensures |Body(lines)| >= i && Body(lines)[..i] == lines[..i]
  {
    if i > 0 {
      BodyHasPrefix(lines[1..], i - 1);
      assert lines[..i] == [lines[0]] + lines[1..][..i - 1];
      assert Body(lines)[..i] == [lines[0]] + Body(lines[1..])[..i - 1];
    }
  }

  lemma {:induction false} BadLineStands(lines: seq<string>, i: nat)
    requires i <= |lines| && PairsOf(lines[..i]).Err?
    ensures PairsOf(lines) == PairsOf(lines[..i])
    decreases |lines|
  {
    var n := |lines| - 1;
    if i == |lines| {
      assert lines[..i] == lines;
    } else {
      assert lines[..n][..i] == lines[..i];
      BadLineStands(lines[..n], i);
    }
  }

  lemma NoneEmptySnoc(lines: seq<string>, i: nat)
    requires i < |lines| && NoneEmpty(lines, i) && |lines[i]| > 0
    ensures NoneEmpty(lines, i + 1)
  {
  }

  lemma PairsSnoc(lines: seq<string>, i: nat, pairs: seq<Pair>)
    requires i < |lines| && PairsOf(lines[..i]) == Ok(pairs)
    ensures PairsOf(lines[..i + 1]) ==
            var p := PairOf(lines[i]);
            if p.Some? then Ok(pairs + [p.value]) else Err(InvalidPair(lines[i]))
  {
    assert lines[..i + 1][..i] == lines[..i];
  }

  lemma RunSnoc(cidr: CIDRParser, pairs: seq<Pair>, p: Pair)
    ensures Run(cidr, pairs + [p]) == Step(cidr, Run(cidr, pairs), p)
  {
  }

  /** A malformed line before the first empty one decides the outcome. */
  lemma BadLineDecides(cidr: CIDRParser, lines: seq<string>, i: nat)
    requires i < |lines| && NoneEmpty(lines, i + 1)
    requires PairsOf(lines[..i + 1]) == Err(InvalidPair(lines[i]))
    ensures ParseSpec(cidr, lines) == Err(InvalidPair(lines[i]))
  {
    BodyHasPrefix(lines, i + 1);
    BadLineStands(Body(lines), i + 1);
  }

  /** Without a malformed line, the parser's error or device is the outcome. */
  lemma ParserDecides(cidr: CIDRParser, lines: seq<string>, i: nat, pairs: seq<Pair>)
    requires i <= |lines| && NoneEmpty(lines, i)
    requires (i == |lines| || |lines[i]| == 0) && PairsOf(lines[..i]) == Ok(pairs)
    ensures var s := Run(cidr, pairs);
            ParseSpec(cidr, lines) == if s.err.Some? then Err(s.err.value) else Ok(s.d)
  {
    BodyIsPrefix(lines, i);
    RunTracks(cidr, pairs);
  }

  /** One line: the parser takes its pair, if it is one. */
  method ParseLine(dp: DeviceParser, lines: seq<string>, i: nat, ghost pairs: seq<Pair>)
    returns (ok: bool, ghost next: seq<Pair>)
    requires i < |lines| && PairsOf(lines[..i]) == Ok(pairs) && dp.Abs() == Run(dp.cidr, pairs)
    modifies dp
    ensures ok ==> PairsOf(lines[..i + 1]) == Ok(next) && dp.Abs() == Run(dp.cidr, next)
    ensures !ok ==> PairsOf(lines[..i + 1]) == Err(InvalidPair(lines[i]))
  {
    PairsSnoc(lines, i, pairs);
    var p := PairOf(lines[i]);
    if p.None? {
      return false, pairs;
    }
    RunSnoc(dp.cidr, pairs, p.value);
    dp.Parse(p.value);
    return true, pairs + [p.value];
  }

  /** The loop over the lines: the first one that is not a pair, if any. */
  method ParseLines(dp: DeviceParser, lines: seq<string>)
    returns (bad: Option<string>, ghost n: nat, ghost pairs: seq<Pair>)
    requires dp.Abs() == START
    modifies dp
    ensures n <= |lines| && NoneEmpty(lines, n)
    ensures bad.None? ==> (n == |lines| || |lines[n]| == 0) && PairsOf(lines[..n]) == Ok(pairs)
    ensures bad.None? ==> dp.Abs() == Run(dp.cidr, pairs)
    ensures bad.Some? ==> n > 0 && bad == Some(lines[n - 1]) && PairsOf(lines[..n]) == Err(InvalidPair(lines[n - 1]))
  {
    pairs := [];
    var i := 0;
    while i < |lines| && |lines[i]| > 0
      invariant i <= |lines| && NoneEmpty(lines, i)
      invariant PairsOf(lines[..i]) == Ok(pairs)
      invariant dp.Abs() == Run(dp.cidr, pairs)
    {
      NoneEmptySnoc(lines, i);
      var ok;
      ok, pairs := ParseLine(dp, lines, i, pairs);
      if !ok {
        return Some(lines[i]), i + 1, pairs;
      }
      i := i + 1;
    }
    return None, i, pairs;
  }

  /** Reads lines up to the first empty one, and reports what they describe. */
  method ParseDevice(cidr: CIDRParser, derive: KeyDeriver, text: string)
    returns (r: Result<ParsedDevice, DeviceError>)
    ensures r == match ParseSpec(cidr, Lines(text))
                 case Err(e) => Err(e)
                 case Ok(d) => Ok(ParsedDevice(d, derive(d.privateKey)))
  {
    var dp := new DeviceParser(cidr);
    var lines := Lines(text);
    var bad, n, pairs := ParseLines(dp, lines);
    if bad.Some? {
      BadLineDecides(cidr, lines, n - 1);
      return Err(InvalidPair(bad.value));
    }
    ParserDecides(cidr, lines, n, pairs);
    if dp.err.Some? {
      return Err(dp.err.value);
    }
    return Ok(ParsedDevice(dp.d, derive(dp.d.privateKey)));
  }
}
