/** What each line of a reply in the WireGuard userspace protocol does to the device, by the
    names the protocol gives to its keys. */
module DeviceText {
  import opened GoInts
  import opened Outcomes
  import opened GoText
  import opened WireguardTypes
  import opened DeviceSpec
  import opened DeviceParsing

  // ----- keys in hexadecimal ---------------------------------------------------------

  const LOWER := "0123456789abcdef"
  const UPPER := "0123456789ABCDEF"

  predicate Bytes(bs: seq<nat>) {
    forall i :: 0 <= i < |bs| ==> bs[i] < 256
  }

  /** Two digits per byte, the higher one first. */
  function ToHex(bs: seq<nat>, digits: string): (s: string)
    requires Bytes(bs) && |digits| == 16
  {
    if bs == [] then "" else [digits[bs[0] / 16], digits[bs[0] % 16]] + ToHex(bs[1..], digits)
  }

  predicate IsHex(c: char) {
    '0' <= c <= '9' || 'a' <= c <= 'f' || 'A' <= c <= 'F'
  }

  predicate AllHex(s: string) {
    forall i :: 0 <= i < |s| ==> IsHex(s[i])
  }

  lemma LowerDigit(d: nat)
    requires d < 16
    ensures HexDigit(LOWER[d]) == Some(d) && IsHex(LOWER[d])
  {
    assert LOWER[0] == '0' && LOWER[1] == '1' && LOWER[2] == '2' && LOWER[3] == '3';
    assert LOWER[4] == '4' && LOWER[5] == '5' && LOWER[6] == '6' && LOWER[7] == '7';
    assert LOWER[8] == '8' && LOWER[9] == '9' && LOWER[10] == 'a' && LOWER[11] == 'b';
    assert LOWER[12] == 'c' && LOWER[13] == 'd' && LOWER[14] == 'e' && LOWER[15] == 'f';
  }

  lemma UpperDigit(d: nat)
    requires d < 16
    ensures HexDigit(UPPER[d]) == Some(d) && IsHex(UPPER[d])
  {
    assert UPPER[0] == '0' && UPPER[1] == '1' && UPPER[2] == '2' && UPPER[3] == '3';
    assert UPPER[4] == '4' && UPPER[5] == '5' && UPPER[6] == '6' && UPPER[7] == '7';
    assert UPPER[8] == '8' && UPPER[9] == '9' && UPPER[10] == 'A' && UPPER[11] == 'B';
    assert UPPER[12] == 'C' && UPPER[13] == 'D' && UPPER[14] == 'E' && UPPER[15] == 'F';
  }

  /** Digits that mean their place in the list. */
  predicate Digits(digits: string) {
    |digits| == 16 && forall d :: 0 <= d < 16 ==> HexDigit(digits[d]) == Some(d) && IsHex(digits[d])
  }

  lemma BothAreDigits()
    ensures Digits(LOWER) && Digits(UPPER)
  {
    forall d | 0 <= d < 16 ensures HexDigit(LOWER[d]) == Some(d) && IsHex(LOWER[d]) {
      LowerDigit(d);
    }
    forall d | 0 <= d < 16 ensures HexDigit(UPPER[d]) == Some(d) && IsHex(UPPER[d]) {
      UpperDigit(d);
    }
  }

  lemma DecodeCons(c: char, hi: nat, e: char, lo: nat, rest: string, bs: seq<nat>)
    requires HexDigit(c) == Some(hi) && HexDigit(e) == Some(lo) && DecodeHex(rest) == Some(bs)
    ensures DecodeHex([c, e] + rest) == Some([16 * hi + lo] + bs)
  {
    assert ([c, e] + rest)[2..] == rest;
  }

  lemma OneByte(digits: string, b: nat)
    requires Digits(digits) && b < 256
    ensures HexDigit(digits[b / 16]) == Some(b / 16) && HexDigit(digits[b % 16]) == Some(b % 16)
    ensures 16 * (b / 16) + b % 16 == b
  {
  }

  lemma HexCons(b: nat, rest: seq<nat>, digits: string)
    requires b < 256 && Bytes(rest) && |digits| == 16
    ensures Bytes([b] + rest)
    ensures ToHex([b] + rest, digits) == [digits[b / 16], digits[b % 16]] + ToHex(rest, digits)
  {
    assert ([b] + rest)[1..] == rest && ([b] + rest)[0] == b;
  }

  /** One more byte in front. */
  lemma HexStep(b: nat, rest: seq<nat>, digits: string)
    requires b < 256 && Bytes(rest) && Digits(digits) && DecodeHex(ToHex(rest, digits)) == Some(rest)
    ensures Bytes([b] + rest) && DecodeHex(ToHex([b] + rest, digits)) == Some([b] + rest)
  {
    OneByte(digits, b);
    HexCons(b, rest, digits);
    DecodeCons(digits[b / 16], b / 16, digits[b % 16], b % 16, ToHex(rest, digits), rest);
  }

  /** Decoding undoes printing, in lower and in upper case. */
  lemma {:induction false} DecodeUndoesPrint(bs: seq<nat>, digits: string)
    requires Bytes(bs) && Digits(digits)
    ensures DecodeHex(ToHex(bs, digits)) == Some(bs)
    decreases |bs|
  {
    if bs != [] {
      DecodeUndoesPrint(bs[1..], digits);
      HexStep(bs[0], bs[1..], digits);
      assert bs == [bs[0]] + bs[1..];
    }
  }

  /** A text decodes if and only if it has an even number of hex digits and nothing else, and
      then into half as many bytes. */
  lemma {:induction false} DecodesExactly(s: string)
    ensures DecodeHex(s).Some? <==> |s| % 2 == 0 && AllHex(s)
    ensures DecodeHex(s).Some? ==> |s| == 2 * |DecodeHex(s).value| && Bytes(DecodeHex(s).value)
    decreases |s|
  {
    if |s| >= 2 {
      DecodesExactly(s[2..]);
      assert s == [s[0], s[1]] + s[2..];
      assert HexDigit(s[0]).Some? <==> IsHex(s[0]);
      assert HexDigit(s[1]).Some? <==> IsHex(s[1]);
      if AllHex(s[2..]) && IsHex(s[0]) && IsHex(s[1]) {
        assert forall i :: 2 <= i < |s| ==> s[i] == s[2..][i - 2];
      }
      if AllHex(s) {
        assert forall i :: 0 <= i < |s[2..]| ==> s[2..][i] == s[i + 2];
      }
    }
  }

  /** A key is 32 bytes; any other number of bytes is an error that says how many, and any
      other text is an error that shows it. */
  lemma KeyRead(s: string)
    ensures DecodeHex(s).None? ==> KeyOf(s) == Err(BadHex(s))
    ensures DecodeHex(s).Some? && |DecodeHex(s).value| == 32 ==> KeyOf(s) == Ok(Key(DecodeHex(s).value))
    ensures DecodeHex(s).Some? && |DecodeHex(s).value| != 32 ==>
              KeyOf(s) == Err(BadKeyLength(|DecodeHex(s).value|))
  {
  }

  // ----- lines ---------------------------------------------------------------------------

  function Line(key: string, value: string): (s: string) {
    key + (['='] + value)
  }

  /** Text that can stand on either side of the equals sign, and at the end of a line. */
  predicate Plain(s: string) {
    forall i :: 0 <= i < |s| ==> s[i] != '=' && s[i] != '\n' && s[i] != '\r'
  }

  lemma HexIsPlain(s: string)
    requires AllHex(s)
    ensures Plain(s)
  {
  }

  /** Whatever reads as a number is plain. */
  lemma NumberIsPlain(s: string)
    requires ParseInt64(s).Some?
    ensures Plain(s)
  {
    forall i | 0 <= i < |s| ensures s[i] != '=' && s[i] != '\n' && s[i] != '\r' {
      NumberSyntax(s, i);
    }
  }

  lemma PlainLacks(s: string)
    requires Plain(s)
    ensures Lacks(s, '=') && Lacks(s, '\n') && DropCR(s) == s
  {
  }

  /** A line with one equals sign is a pair. */
  lemma PairRead(key: string, value: string)
    requires Lacks(key, '=') && Lacks(value, '=')
    ensures PairOf(Line(key, value)) == Some(Pair(NameOf(key), value))
  {
    SplitCons(key, '=', value);
    FindIsFirst(value, '=');
  }

  /** `key` is how the protocol writes `name`. */
  predicate Writes(key: string, name: Name) {
    NameOf(key) == name && Plain(key) && Lacks(key, '=')
  }

  lemma ErrnoKey()
    ensures Writes("errno", Errno)
  {
  }

  lemma PublicKeyKey()
    ensures Writes("public_key", PublicKey)
  {
  }

  lemma PrivateKeyKey()
    ensures Writes("private_key", PrivateKey)
  {
  }

  lemma ListenPortKey()
    ensures Writes("listen_port", ListenPort)
  {
  }

  lemma FirewallMarkKey()
    ensures Writes("fwmark", FirewallMark)
  {
  }

  lemma PresharedKeyKey()
    ensures Writes("preshared_key", PresharedKey)
  {
  }

  lemma TxBytesKey()
    ensures Writes("tx_bytes", TxBytes)
  {
  }

  lemma RxBytesKey()
    ensures Writes("rx_bytes", RxBytes)
  {
  }

  lemma AllowedIPKey()
    ensures Writes("allowed_ip", AllowedIP)
  {
  }

  lemma ProtocolVersionKey()
    ensures Writes("protocol_version", ProtocolVersion)
  {
  }

  lemma HandshakeSecKey()
    ensures Writes("last_handshake_time_sec", HandshakeSec)
  {
  }

  lemma HandshakeNsecKey()
    ensures Writes("last_handshake_time_nsec", HandshakeNsec)
  {
  }

  lemma KeepaliveKey()
    ensures Writes("persistent_keepalive_interval", Keepalive)
  {
  }

  lemma EndpointKey()
    ensures Writes("endpoint", Unknown)
  {
  }

  // ----- one more line -------------------------------------------------------------------

  /** Lines, none of them empty, that describe device `d`. */
  predicate Describes(cidr: CIDRParser, ls: seq<string>, d: Device) {
    NoneEmpty(ls, |ls|) && ParseSpec(cidr, ls) == Ok(d)
  }

  lemma {:induction false} BodyOfAll(ls: seq<string>)
    requires NoneEmpty(ls, |ls|)
    ensures Body(ls) == ls
    decreases |ls|
  {
    BodyIsPrefix(ls, |ls|);
    assert ls[..|ls|] == ls;
  }

  /** The pairs of such lines, and what they describe. */
  predicate Known(cidr: CIDRParser, ls: seq<string>, pairs: seq<Pair>, d: Device) {
    && NoneEmpty(ls, |ls|) && PairsOf(ls) == Ok(pairs) && FirstError(cidr, pairs).None?
    && d == DeviceOf(cidr, pairs)
  }

  lemma DescribedPairs(cidr: CIDRParser, ls: seq<string>, d: Device) returns (pairs: seq<Pair>)
    requires Describes(cidr, ls, d)
    ensures Known(cidr, ls, pairs, d)
  {
    BodyOfAll(ls);
    pairs := PairsOf(ls).value;
  }

  lemma KnownDescribes(cidr: CIDRParser, ls: seq<string>, pairs: seq<Pair>, d: Device)
    requires Known(cidr, ls, pairs, d)
    ensures Describes(cidr, ls, d)
  {
    BodyOfAll(ls);
  }

  lemma AppendedPair(ls: seq<string>, pairs: seq<Pair>, key: string, p: Pair)
    requires PairsOf(ls) == Ok(pairs) && Writes(key, p.name) && Lacks(p.value, '=')
    ensures PairsOf(ls + [Line(key, p.value)]) == Ok(pairs + [p])
  {
    assert (ls + [Line(key, p.value)])[..|ls|] == ls;
    PairRead(key, p.value);
  }

  lemma NoneEmptyAppended(ls: seq<string>, key: string, value: string)
    requires NoneEmpty(ls, |ls|)
    ensures NoneEmpty(ls + [Line(key, value)], |ls| + 1)
  {
  }

  /** A line that is a pair without error adds that pair. */
  lemma Appended(cidr: CIDRParser, ls: seq<string>, pairs: seq<Pair>, d: Device, key: string, p: Pair)
    requires Known(cidr, ls, pairs, d) && Writes(key, p.name) && Lacks(p.value, '=')
    requires PairError(cidr, InPeers(pairs), p).None?
    ensures Known(cidr, ls + [Line(key, p.value)], pairs + [p], DeviceOf(cidr, pairs + [p]))
  {
    AppendedPair(ls, pairs, key, p);
    NoneEmptyAppended(ls, key, p.value);
    FirstErrorSnoc(cidr, pairs, p);
  }

  /** A line that is a pair in error is the outcome. */
  lemma AppendedError(cidr: CIDRParser, ls: seq<string>, d: Device, key: string, p: Pair, e: DeviceError)
    requires Describes(cidr, ls, d) && Writes(key, p.name) && Lacks(p.value, '=')
    requires PairError(cidr, d.peers != [], p) == Some(e)
    ensures ParseSpec(cidr, ls + [Line(key, p.value)]) == Err(e)
  {
    var pairs := DescribedPairs(cidr, ls, d);
    PeersAreAnnounced(cidr, pairs);
    AppendedPair(ls, pairs, key, p);
    NoneEmptyAppended(ls, key, p.value);
    FirstErrorSnoc(cidr, pairs, p);
    BodyOfAll(ls + [Line(key, p.value)]);
    ErrorDecides(cidr, ls + [Line(key, p.value)], pairs + [p], e);
  }

  lemma ErrorDecides(cidr: CIDRParser, ls: seq<string>, pairs: seq<Pair>, e: DeviceError)
    requires Body(ls) == ls && PairsOf(ls) == Ok(pairs) && FirstError(cidr, pairs) == Some(e)
    ensures ParseSpec(cidr, ls) == Err(e)
  {
  }

  lemma PeersAreAnnounced(cidr: CIDRParser, pairs: seq<Pair>)
    ensures DeviceOf(cidr, pairs).peers == [] <==> !InPeers(pairs)
  {
    NoGroups(pairs);
  }

  /** The last peer of a device is replaced. */
  function WithLast(d: Device, q: Peer): (r: Device)
    requires d.peers != []
  {
    d.(peers := d.peers[..|d.peers| - 1] + [q])
  }

  function LastOf(d: Device): (q: Peer)
    requires d.peers != []
  {
    d.peers[|d.peers| - 1]
  }

  lemma LastReplaced(d: Device, q: Peer)
    requires d.peers != []
    ensures d.(peers := d.peers[|d.peers| - 1 := q]) == WithLast(d, q)
  {
    var n := |d.peers| - 1;
    assert d.peers[n := q] == d.peers[..n] + [q];
  }

  /** A field of the last peer. */
  lemma KnownPeerLine(cidr: CIDRParser, ls: seq<string>, pairs: seq<Pair>, d: Device, key: string, p: Pair)
    requires Known(cidr, ls, pairs, d) && d.peers != [] && Writes(key, p.name) && Lacks(p.value, '=')
    requires !p.name.PublicKey? && PairError(cidr, true, p).None?
    ensures Known(cidr, ls + [Line(key, p.value)], pairs + [p],
                  WithLast(d, PeerAfter(cidr, LastOf(d), SecondsThrough(Groups(pairs)), p)))
    ensures SecondsThrough(Groups(pairs + [p])) ==
            if p.name.HandshakeSec? then Or(IntOf(p.value), 0) else SecondsThrough(Groups(pairs))
  {
    PeersAreAnnounced(cidr, pairs);
    Appended(cidr, ls, pairs, d, key, p);
    PeerDevice(cidr, pairs, p);
    LastReplaced(d, PeerAfter(cidr, LastOf(d), SecondsThrough(Groups(pairs)), p));
  }

  /** The last peer as a pair leaves it does not depend on the handshake seconds, unless the
      pair holds the nanoseconds. */
  lemma PeerLine(cidr: CIDRParser, ls: seq<string>, d: Device, key: string, p: Pair, q: Peer)
    requires Describes(cidr, ls, d) && d.peers != [] && Writes(key, p.name) && Lacks(p.value, '=')
    requires !p.name.PublicKey? && !p.name.HandshakeNsec? && PairError(cidr, true, p).None?
    requires PeerAfter(cidr, LastOf(d), 0, p) == q
    ensures Describes(cidr, ls + [Line(key, p.value)], WithLast(d, q))
  {
    var pairs := DescribedPairs(cidr, ls, d);
    KnownPeerLine(cidr, ls, pairs, d, key, p);
    SecondsDoNotMatter(cidr, LastOf(d), SecondsThrough(Groups(pairs)), p);
    KnownDescribes(cidr, ls + [Line(key, p.value)], pairs + [p], WithLast(d, q));
  }

  lemma SecondsDoNotMatter(cidr: CIDRParser, q: Peer, sec: int64, p: Pair)
    requires !p.name.HandshakeNsec?
    ensures PeerAfter(cidr, q, sec, p) == PeerAfter(cidr, q, 0, p)
  {
  }

  /** A pair that says nothing about the last peer. */
  lemma IdlePeerLine(cidr: CIDRParser, ls: seq<string>, d: Device, key: string, p: Pair)
    requires Describes(cidr, ls, d) && d.peers != [] && Writes(key, p.name) && Lacks(p.value, '=')
    requires !p.name.PublicKey? && !p.name.HandshakeNsec? && PairError(cidr, true, p).None?
    requires PeerAfter(cidr, LastOf(d), 0, p) == LastOf(d)
    ensures Describes(cidr, ls + [Line(key, p.value)], d)
  {
    PeerLine(cidr, ls, d, key, p, LastOf(d));
    LastStays(d);
  }

  // ----- numbers ---------------------------------------------------------------------------

  /** `s` is a text for the number `n`. */
  predicate Denotes(s: string, n: int64) {
    ParseInt64(s) == Some(n)
  }

  /** In particular its decimal form. */
  lemma PrintedNumberDenotes(n: int64)
    ensures Denotes(PrintInt(n), n)
  {
    ParseOfPrint(n);
  }

  lemma NumberRead(s: string, n: int64)
    requires Denotes(s, n)
    ensures IntOf(s) == Ok(n) && Lacks(s, '=')
  {
    NumberIsPlain(s);
    PlainLacks(s);
  }

  /** What a number does to a peer, by the name it is given. */
  lemma NumberFits(cidr: CIDRParser, name: Name, s: string, n: int64, q: Peer)
    requires IntOf(s) == Ok(n)
    requires name.TxBytes? || name.RxBytes? || name.ProtocolVersion? || name.Keepalive? ||
             name.HandshakeSec? || name.HandshakeNsec?
    ensures PairError(cidr, true, Pair(name, s)).None?
    ensures name.TxBytes? ==> PeerAfter(cidr, q, 0, Pair(name, s)) == q.(transmitBytes := n)
    ensures name.RxBytes? ==> PeerAfter(cidr, q, 0, Pair(name, s)) == q.(receiveBytes := n)
    ensures name.ProtocolVersion? ==> PeerAfter(cidr, q, 0, Pair(name, s)) == q.(protocolVersion := n)
    ensures name.Keepalive? ==>
              PeerAfter(cidr, q, 0, Pair(name, s)) == q.(keepaliveInterval := Wrap64(n * 1_000_000_000))
    ensures name.HandshakeSec? ==> PeerAfter(cidr, q, 0, Pair(name, s)) == q
  {
  }

  /** `tx_bytes` is what the last peer was sent, and changes nothing else. */
  lemma TxBytesLine(cidr: CIDRParser, ls: seq<string>, d: Device, s: string, n: int64)
    requires Describes(cidr, ls, d) && Denotes(s, n) && d.peers != []
    ensures Describes(cidr, ls + [Line("tx_bytes", s)], WithLast(d, LastOf(d).(transmitBytes := n)))
  {
    TxBytesKey();
    NumberRead(s, n);
    NumberFits(cidr, TxBytes, s, n, LastOf(d));
    PeerLine(cidr, ls, d, "tx_bytes", Pair(TxBytes, s), LastOf(d).(transmitBytes := n));
  }

  /** `rx_bytes` is what was received from the last peer. */
  lemma RxBytesLine(cidr: CIDRParser, ls: seq<string>, d: Device, s: string, n: int64)
    requires Describes(cidr, ls, d) && Denotes(s, n) && d.peers != []
    ensures Describes(cidr, ls + [Line("rx_bytes", s)], WithLast(d, LastOf(d).(receiveBytes := n)))
  {
    RxBytesKey();
    NumberRead(s, n);
    NumberFits(cidr, RxBytes, s, n, LastOf(d));
    PeerLine(cidr, ls, d, "rx_bytes", Pair(RxBytes, s), LastOf(d).(receiveBytes := n));
  }

  lemma ProtocolVersionLine(cidr: CIDRParser, ls: seq<string>, d: Device, s: string, n: int64)
    requires Describes(cidr, ls, d) && Denotes(s, n) && d.peers != []
    ensures Describes(cidr, ls + [Line("protocol_version", s)], WithLast(d, LastOf(d).(protocolVersion := n)))
  {
    ProtocolVersionKey();
    NumberRead(s, n);
    NumberFits(cidr, ProtocolVersion, s, n, LastOf(d));
    PeerLine(cidr, ls, d, "protocol_version", Pair(ProtocolVersion, s), LastOf(d).(protocolVersion := n));
  }

  /** The keepalive interval comes in seconds and is kept in nanoseconds, in 64 bits. */
  lemma KeepaliveLine(cidr: CIDRParser, ls: seq<string>, d: Device, s: string, n: int64)
    requires Describes(cidr, ls, d) && Denotes(s, n) && d.peers != []
    ensures Describes(cidr, ls + [Line("persistent_keepalive_interval", s)],
                      WithLast(d, LastOf(d).(keepaliveInterval := Wrap64(n * 1_000_000_000))))
  {
    KeepaliveKey();
    NumberRead(s, n);
    NumberFits(cidr, Keepalive, s, n, LastOf(d));
    PeerLine(cidr, ls, d, "persistent_keepalive_interval", Pair(Keepalive, s),
             LastOf(d).(keepaliveInterval := Wrap64(n * 1_000_000_000)));
  }

  /** Seconds and nanoseconds make a handshake if and only if both are positive. */
  lemma HandshakeLines(cidr: CIDRParser, ls: seq<string>, d: Device, s: string, sec: int64, t: string, nsec: int64)
    requires Describes(cidr, ls, d) && d.peers != [] && Denotes(s, sec) && Denotes(t, nsec)
    ensures Describes(cidr, ls + [Line("last_handshake_time_sec", s)], d)
    ensures Describes(cidr, ls + [Line("last_handshake_time_sec", s)] + [Line("last_handshake_time_nsec", t)],
                      if sec > 0 && nsec > 0 then WithLast(d, LastOf(d).(lastHandshake := Some((sec, nsec)))) else d)
  {
    HandshakeSecKey();
    HandshakeNsecKey();
    NumberRead(s, sec);
    NumberRead(t, nsec);
    SecondsThenNanos(cidr, ls, d, "last_handshake_time_sec", s, sec, "last_handshake_time_nsec", t, nsec);
  }

  lemma SecondsThenNanos(cidr: CIDRParser, ls: seq<string>, d: Device,
                         k1: string, s: string, sec: int64, k2: string, t: string, nsec: int64)
    requires Describes(cidr, ls, d) && d.peers != [] && Writes(k1, HandshakeSec) && Writes(k2, HandshakeNsec)
    requires IntOf(s) == Ok(sec) && Lacks(s, '=') && IntOf(t) == Ok(nsec) && Lacks(t, '=')
    ensures Describes(cidr, ls + [Line(k1, s)], d)
    ensures Describes(cidr, ls + [Line(k1, s)] + [Line(k2, t)], WithHandshake(d, sec, nsec))
  {
    var pairs := DescribedPairs(cidr, ls, d);
    var one, p := ls + [Line(k1, s)], Pair(HandshakeSec, s);
    SecondsLine(cidr, ls, pairs, d, k1, s, sec);
    KnownDescribes(cidr, one, pairs + [p], d);
    NanosLine(cidr, one, pairs + [p], d, sec, k2, t, nsec);
  }

  function WithHandshake(d: Device, sec: int64, nsec: int64): (r: Device)
    requires d.peers != []
  {
    if sec > 0 && nsec > 0 then WithLast(d, LastOf(d).(lastHandshake := Some((sec, nsec)))) else d
  }

  lemma SecondsLine(cidr: CIDRParser, ls: seq<string>, pairs: seq<Pair>, d: Device, key: string, s: string, sec: int64)
    requires Known(cidr, ls, pairs, d) && d.peers != [] && Writes(key, HandshakeSec)
    requires IntOf(s) == Ok(sec) && Lacks(s, '=')
    ensures Known(cidr, ls + [Line(key, s)], pairs + [Pair(HandshakeSec, s)], d)
    ensures SecondsThrough(Groups(pairs + [Pair(HandshakeSec, s)])) == sec
  {
    var p, before := Pair(HandshakeSec, s), SecondsThrough(Groups(pairs));
    NumberFits(cidr, HandshakeSec, s, sec, LastOf(d));
    KnownPeerLine(cidr, ls, pairs, d, key, p);
    SecondsDoNotMatter(cidr, LastOf(d), before, p);
    LastStays(d);
  }

  lemma NanosAfter(cidr: CIDRParser, d: Device, sec: int64, t: string, nsec: int64)
    requires d.peers != [] && IntOf(t) == Ok(nsec)
    ensures WithLast(d, PeerAfter(cidr, LastOf(d), sec, Pair(HandshakeNsec, t))) == WithHandshake(d, sec, nsec)
  {
    LastStays(d);
  }

  lemma NanosLine(cidr: CIDRParser, ls: seq<string>, pairs: seq<Pair>, d: Device, sec: int64,
                  key: string, t: string, nsec: int64)
    requires Known(cidr, ls, pairs, d) && d.peers != [] && SecondsThrough(Groups(pairs)) == sec
    requires Writes(key, HandshakeNsec) && IntOf(t) == Ok(nsec) && Lacks(t, '=')
    ensures Describes(cidr, ls + [Line(key, t)], WithHandshake(d, sec, nsec))
  {
    var p := Pair(HandshakeNsec, t);
    NumberFits(cidr, HandshakeNsec, t, nsec, LastOf(d));
    KnownPeerLine(cidr, ls, pairs, d, key, p);
    NanosAfter(cidr, d, sec, t, nsec);
    KnownDescribes(cidr, ls + [Line(key, t)], pairs + [p], WithHandshake(d, sec, nsec));
  }

  // ----- keys and networks ---------------------------------------------------------------

  /** `s` is a text for the key made of `bs`. */
  predicate DenotesKey(s: string, bs: seq<nat>) {
    DecodeHex(s) == Some(bs) && |bs| == 32
  }

  lemma KeyText(s: string, bs: seq<nat>)
    requires DenotesKey(s, bs)
    ensures KeyOf(s) == Ok(Key(bs)) && Plain(s) && Lacks(s, '=')
  {
    DecodesExactly(s);
    HexIsPlain(s);
    PlainLacks(s);
  }

  /** In particular the printed form of 32 bytes, in lower or upper case. */
  lemma PrintedKeyDenotes(bs: seq<nat>)
    requires Bytes(bs) && |bs| == 32
    ensures DenotesKey(ToHex(bs, LOWER), bs) && DenotesKey(ToHex(bs, UPPER), bs)
  {
    BothAreDigits();
    DecodeUndoesPrint(bs, LOWER);
    DecodeUndoesPrint(bs, UPPER);
  }

  lemma PresharedKeyFits(cidr: CIDRParser, s: string, k: Key, q: Peer)
    requires KeyOf(s) == Ok(k)
    ensures PairError(cidr, true, Pair(PresharedKey, s)).None?
    ensures PeerAfter(cidr, q, 0, Pair(PresharedKey, s)) == q.(presharedKey := k)
  {
  }

  lemma PresharedKeyLine(cidr: CIDRParser, ls: seq<string>, d: Device, s: string, bs: seq<nat>)
    requires Describes(cidr, ls, d) && d.peers != [] && DenotesKey(s, bs)
    ensures Describes(cidr, ls + [Line("preshared_key", s)], WithLast(d, LastOf(d).(presharedKey := Key(bs))))
  {
    PresharedKeyKey();
    KeyText(s, bs);
    PresharedKeyFits(cidr, s, Key(bs), LastOf(d));
    PeerLine(cidr, ls, d, "preshared_key", Pair(PresharedKey, s), LastOf(d).(presharedKey := Key(bs)));
  }

  lemma NetworkFits(cidr: CIDRParser, s: string, net: IPNet, q: Peer)
    requires cidr(s) == Some(net)
    ensures PairError(cidr, true, Pair(AllowedIP, s)).None?
    ensures PeerAfter(cidr, q, 0, Pair(AllowedIP, s)) == q.(allowedIPs := q.allowedIPs + [net])
  {
  }

  /** Each `allowed_ip` adds one network at the end. */
  lemma AllowedIPLine(cidr: CIDRParser, ls: seq<string>, d: Device, s: string, net: IPNet)
    requires Describes(cidr, ls, d) && d.peers != [] && cidr(s) == Some(net) && Lacks(s, '=')
    ensures Describes(cidr, ls + [Line("allowed_ip", s)],
                      WithLast(d, LastOf(d).(allowedIPs := LastOf(d).allowedIPs + [net])))
  {
    AllowedIPKey();
    NetworkFits(cidr, s, net, LastOf(d));
    PeerLine(cidr, ls, d, "allowed_ip", Pair(AllowedIP, s),
             LastOf(d).(allowedIPs := LastOf(d).allowedIPs + [net]));
  }

  lemma PublicKeyFits(cidr: CIDRParser, inPeers: bool, s: string, k: Key)
    requires KeyOf(s) == Ok(k)
    ensures PairError(cidr, inPeers, Pair(PublicKey, s)).None?
    ensures NewPeer(Or(KeyOf(s), ZERO_KEY)) == Peer(k, ZERO_KEY, None, 0, 0, 0, [], 0)
  {
  }

  /** `public_key` begins a new peer, about which nothing else is known yet. */
  lemma PublicKeyLine(cidr: CIDRParser, ls: seq<string>, d: Device, s: string, bs: seq<nat>)
    requires Describes(cidr, ls, d) && DenotesKey(s, bs)
    ensures Describes(cidr, ls + [Line("public_key", s)],
                      d.(peers := d.peers + [Peer(Key(bs), ZERO_KEY, None, 0, 0, 0, [], 0)]))
  {
    PublicKeyKey();
    KeyText(s, bs);
    var pairs := DescribedPairs(cidr, ls, d);
    var p := Pair(PublicKey, s);
    PublicKeyFits(cidr, InPeers(pairs), s, Key(bs));
    AnnouncedDevice(cidr, pairs, p);
    Appended(cidr, ls, pairs, d, "public_key", p);
    KnownDescribes(cidr, ls + [Line("public_key", s)], pairs + [p], DeviceOf(cidr, pairs + [p]));
  }

  // ----- the device itself ------------------------------------------------------------------

  /** A reply without lines describes a device about which nothing is known. */
  lemma NoLines(cidr: CIDRParser)
    ensures Describes(cidr, [], Device(ZERO_KEY, 0, 0, []))
  {
    assert DeviceOf(cidr, []) == Device(ZERO_KEY, 0, 0, []);
  }

  /** What a pair before the first peer does. */
  function DeviceAfter(d: Device, p: Pair): (r: Device) {
    match p.name
    case PrivateKey => d.(privateKey := Or(KeyOf(p.value), ZERO_KEY))
    case ListenPort => d.(listenPort := Or(IntOf(p.value), 0))
    case FirewallMark => d.(firewallMark := Or(IntOf(p.value), 0))
    case _ => d
  }

  /** A field of the device, before the first peer. */
  lemma DeviceLine(cidr: CIDRParser, ls: seq<string>, d: Device, key: string, p: Pair, r: Device)
    requires Describes(cidr, ls, d) && d.peers == [] && Writes(key, p.name) && Lacks(p.value, '=')
    requires !p.name.PublicKey? && PairError(cidr, false, p).None? && r == DeviceAfter(d, p)
    ensures Describes(cidr, ls + [Line(key, p.value)], r)
  {
    var pairs := DescribedPairs(cidr, ls, d);
    PeersAreAnnounced(cidr, pairs);
    Appended(cidr, ls, pairs, d, key, p);
    InPeersSnoc(pairs, p);
    DevicePairStep(cidr, pairs, p);
    KnownDescribes(cidr, ls + [Line(key, p.value)], pairs + [p], r);
  }

  lemma LastStays(d: Device)
    requires d.peers != []
    ensures WithLast(d, LastOf(d)) == d
  {
    var n := |d.peers| - 1;
    assert d.peers[..n] + [d.peers[n]] == d.peers;
  }

  /** Pairs that matter to the device only. */
  lemma DeviceKeyFits(cidr: CIDRParser, s: string, k: Key, d: Device)
    requires KeyOf(s) == Ok(k)
    ensures PairError(cidr, false, Pair(PrivateKey, s)).None? && PairError(cidr, true, Pair(PrivateKey, s)).None?
    ensures DeviceAfter(d, Pair(PrivateKey, s)) == d.(privateKey := k)
    ensures d.peers != [] ==> PeerAfter(cidr, LastOf(d), 0, Pair(PrivateKey, s)) == LastOf(d)
  {
  }

  lemma DeviceNumberFits(cidr: CIDRParser, name: Name, s: string, n: int64, d: Device)
    requires IntOf(s) == Ok(n) && (name.ListenPort? || name.FirewallMark?)
    ensures PairError(cidr, false, Pair(name, s)).None? && PairError(cidr, true, Pair(name, s)).None?
    ensures name.ListenPort? ==> DeviceAfter(d, Pair(name, s)) == d.(listenPort := n)
    ensures name.FirewallMark? ==> DeviceAfter(d, Pair(name, s)) == d.(firewallMark := n)
    ensures d.peers != [] ==> PeerAfter(cidr, LastOf(d), 0, Pair(name, s)) == LastOf(d)
  {
  }

  /** A pair for the device: it takes effect before the first peer only. */
  lemma EarlyLine(cidr: CIDRParser, ls: seq<string>, d: Device, key: string, p: Pair, r: Device)
    requires Describes(cidr, ls, d) && Writes(key, p.name) && Lacks(p.value, '=')
    requires !p.name.PublicKey? && !p.name.HandshakeNsec?
    requires PairError(cidr, false, p).None? && PairError(cidr, true, p).None? && r == DeviceAfter(d, p)
    requires d.peers != [] ==> PeerAfter(cidr, LastOf(d), 0, p) == LastOf(d)
    ensures Describes(cidr, ls + [Line(key, p.value)], if d.peers == [] then r else d)
  {
    if d.peers == [] {
      DeviceLine(cidr, ls, d, key, p, r);
    } else {
      IdlePeerLine(cidr, ls, d, key, p);
    }
  }

  /** Private key, port and firewall mark of the device come before the first peer; after it
      the same keys say nothing. */
  lemma PrivateKeyLine(cidr: CIDRParser, ls: seq<string>, d: Device, s: string, bs: seq<nat>)
    requires Describes(cidr, ls, d) && DenotesKey(s, bs)
    ensures Describes(cidr, ls + [Line("private_key", s)], if d.peers == [] then d.(privateKey := Key(bs)) else d)
  {
    PrivateKeyKey();
    KeyText(s, bs);
    DeviceKeyFits(cidr, s, Key(bs), d);
    EarlyLine(cidr, ls, d, "private_key", Pair(PrivateKey, s), d.(privateKey := Key(bs)));
  }

  lemma ListenPortLine(cidr: CIDRParser, ls: seq<string>, d: Device, s: string, n: int64)
    requires Describes(cidr, ls, d) && Denotes(s, n)
    ensures Describes(cidr, ls + [Line("listen_port", s)], if d.peers == [] then d.(listenPort := n) else d)
  {
    ListenPortKey();
    NumberRead(s, n);
    DeviceNumberFits(cidr, ListenPort, s, n, d);
    EarlyLine(cidr, ls, d, "listen_port", Pair(ListenPort, s), d.(listenPort := n));
  }

  lemma FirewallMarkLine(cidr: CIDRParser, ls: seq<string>, d: Device, s: string, n: int64)
    requires Describes(cidr, ls, d) && Denotes(s, n)
    ensures Describes(cidr, ls + [Line("fwmark", s)], if d.peers == [] then d.(firewallMark := n) else d)
  {
    FirewallMarkKey();
    NumberRead(s, n);
    DeviceNumberFits(cidr, FirewallMark, s, n, d);
    EarlyLine(cidr, ls, d, "fwmark", Pair(FirewallMark, s), d.(firewallMark := n));
  }

  lemma UnknownFits(cidr: CIDRParser, s: string, d: Device)
    ensures PairError(cidr, false, Pair(Unknown, s)).None? && PairError(cidr, true, Pair(Unknown, s)).None?
    ensures DeviceAfter(d, Pair(Unknown, s)) == d
    ensures d.peers != [] ==> PeerAfter(cidr, LastOf(d), 0, Pair(Unknown, s)) == LastOf(d)
  {
  }

  /** The endpoint of a peer is read and forgotten. */
  lemma EndpointLine(cidr: CIDRParser, ls: seq<string>, d: Device, s: string)
    requires Describes(cidr, ls, d) && Lacks(s, '=')
    ensures Describes(cidr, ls + [Line("endpoint", s)], d)
  {
    EndpointKey();
    UnknownFits(cidr, s, d);
    EarlyLine(cidr, ls, d, "endpoint", Pair(Unknown, s), d);
  }

  // ----- what ends a reply ------------------------------------------------------------------

  lemma ErrnoFits(cidr: CIDRParser, s: string, n: int64, d: Device, inPeers: bool)
    requires IntOf(s) == Ok(n)
    ensures PairError(cidr, inPeers, Pair(Errno, s)) == if n == 0 then None else Some(ErrorNumber(n))
    ensures DeviceAfter(d, Pair(Errno, s)) == d
    ensures d.peers != [] ==> PeerAfter(cidr, LastOf(d), 0, Pair(Errno, s)) == LastOf(d)
  {
  }

  /** A non-zero `errno` is the outcome; zero says nothing. */
  lemma ErrnoLine(cidr: CIDRParser, ls: seq<string>, d: Device, s: string, n: int64)
    requires Describes(cidr, ls, d) && Denotes(s, n)
    ensures n == 0 ==> Describes(cidr, ls + [Line("errno", s)], d)
    ensures n != 0 ==> ParseSpec(cidr, ls + [Line("errno", s)]) == Err(ErrorNumber(n))
  {
    ErrnoKey();
    NumberRead(s, n);
    ErrnoFits(cidr, s, n, d, true);
    ErrnoFits(cidr, s, n, d, false);
    if n == 0 {
      EarlyLine(cidr, ls, d, "errno", Pair(Errno, s), d);
    } else {
      AppendedError(cidr, ls, d, "errno", Pair(Errno, s), ErrorNumber(n));
    }
  }

  lemma BadNumberFails(cidr: CIDRParser, name: Name, s: string)
    requires ParseInt64(s).None? && (name.TxBytes? || name.RxBytes?)
    ensures PairError(cidr, true, Pair(name, s)) == Some(BadInt(s))
  {
  }

  /** A count that is not a number is an error that shows the text. */
  lemma BadCountLine(cidr: CIDRParser, ls: seq<string>, d: Device, s: string)
    requires Describes(cidr, ls, d) && d.peers != [] && ParseInt64(s).None? && Lacks(s, '=')
    ensures ParseSpec(cidr, ls + [Line("tx_bytes", s)]) == Err(BadInt(s))
    ensures ParseSpec(cidr, ls + [Line("rx_bytes", s)]) == Err(BadInt(s))
  {
    TxBytesKey();
    RxBytesKey();
    BadNumberFails(cidr, TxBytes, s);
    BadNumberFails(cidr, RxBytes, s);
    AppendedError(cidr, ls, d, "tx_bytes", Pair(TxBytes, s), BadInt(s));
    AppendedError(cidr, ls, d, "rx_bytes", Pair(RxBytes, s), BadInt(s));
  }

  /** An empty line ends the reply, whatever follows. */
  lemma EmptyLineEnds(cidr: CIDRParser, a: seq<string>, b: seq<string>)
    requires NoneEmpty(a, |a|)
    ensures ParseSpec(cidr, a + [""] + b) == ParseSpec(cidr, a)
  {
    var all := a + [""] + b;
    assert all[..|a|] == a && all[|a|] == "";
    BodyIsPrefix(all, |a|);
    BodyOfAll(a);
  }

  /** A line without exactly one equals sign is the outcome, whatever the lines around it. */
  lemma MalformedLine(cidr: CIDRParser, a: seq<string>, line: string, b: seq<string>)
    requires NoneEmpty(a, |a|) && PairsOf(a).Ok? && line != "" && |Split(line, '=')| != 2
    ensures ParseSpec(cidr, a + [line] + b) == Err(InvalidPair(line))
  {
    var all := a + [line] + b;
    assert all[..|a|] == a && all[|a|] == line;
    PairsSnoc(all, |a|, PairsOf(a).value);
    BadLineDecides(cidr, all, |a|);
  }

  // ----- a whole text ------------------------------------------------------------------------

  lemma LineIsPlain(key: string, value: string)
    requires Plain(key) && Plain(value)
    ensures Lacks(Line(key, value), '\n') && DropCR(Line(key, value)) == Line(key, value)
  {
    var s := Line(key, value);
    assert forall i :: 0 <= i < |s| ==> s[i] != '\n' && s[i] != '\r';
  }

  function TrafficLines(key: string, tx: string, rx: string): (ls: seq<string>) {
    [] + [Line("public_key", key)] + [Line("tx_bytes", tx)] + [Line("rx_bytes", rx)]
  }

  /** The text of a reply with one peer and its traffic describes exactly that. */
  lemma TrafficReply(cidr: CIDRParser, key: string, bs: seq<nat>, tx: string, sent: int64, rx: string, recd: int64)
    requires DenotesKey(key, bs) && Denotes(tx, sent) && Denotes(rx, recd)
    ensures ParseSpec(cidr, Lines(Unlines(TrafficLines(key, tx, rx)))) ==
            Ok(Device(ZERO_KEY, 0, 0, [Peer(Key(bs), ZERO_KEY, None, sent, recd, 0, [], 0)]))
  {
    KeyText(key, bs);
    NumberIsPlain(tx);
    NumberIsPlain(rx);
    TrafficText(key, tx, rx);
    NoLines(cidr);
    var d, q := Device(ZERO_KEY, 0, 0, []), Peer(Key(bs), ZERO_KEY, None, 0, 0, 0, [], 0);
    PublicKeyLine(cidr, [], d, key, bs);
    assert d.peers + [q] == [q];
    TrafficOfPeer(cidr, [] + [Line("public_key", key)], d.(peers := [q]), q, tx, sent, rx, recd);
  }

  lemma TrafficOfPeer(cidr: CIDRParser, ls: seq<string>, d: Device, q: Peer,
                      tx: string, sent: int64, rx: string, recd: int64)
    requires Describes(cidr, ls, d) && d.peers == [q] && Denotes(tx, sent) && Denotes(rx, recd)
    ensures Describes(cidr, ls + [Line("tx_bytes", tx)] + [Line("rx_bytes", rx)],
                      d.(peers := [q.(transmitBytes := sent, receiveBytes := recd)]))
  {
    var r := q.(transmitBytes := sent);
    TxBytesLine(cidr, ls, d, tx, sent);
    OnlyPeer(d, q, r);
    RxBytesLine(cidr, ls + [Line("tx_bytes", tx)], d.(peers := [r]), rx, recd);
    OnlyPeer(d.(peers := [r]), r, r.(receiveBytes := recd));
  }

  lemma OnlyPeer(d: Device, q: Peer, r: Peer)
    requires d.peers == [q]
    ensures LastOf(d) == q && WithLast(d, r) == d.(peers := [r])
  {
  }

  lemma TrafficText(key: string, tx: string, rx: string)
    requires Plain(key) && Plain(tx) && Plain(rx)
    ensures Lines(Unlines(TrafficLines(key, tx, rx))) == TrafficLines(key, tx, rx)
  {
    PublicKeyKey();
    TxBytesKey();
    RxBytesKey();
    LineIsPlain("public_key", key);
    LineIsPlain("tx_bytes", tx);
    LineIsPlain("rx_bytes", rx);
    LinesOfText(TrafficLines(key, tx, rx));
  }
}
