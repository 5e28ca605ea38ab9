/** What the parser makes of a text, in terms of the sections and lines of the text alone:
    which texts it accepts, which error it reports, and where every value comes from. */
module ConfigMeaning {
  import opened Outcomes
  import opened GoText
  import opened Sequences
  import opened WireguardTypes
  import opened ConfigSyntax
  import opened ConfigParser

  // ----- which texts are accepted -----------------------------------------------------

  predicate GoodItems(env: Parsers, items: seq<string>) {
    forall i :: 0 <= i < |items| ==> env.cidr(items[i]).Some?
  }

  predicate InterfaceAccepts(env: Parsers, a: Attr) {
    (a.key == "PrivateKey" && env.key(a.value).Some?) || a.key == "Address" || a.key == "DNS"
  }

  predicate PeerAccepts(env: Parsers, a: Attr) {
    || (a.key == "PublicKey" && env.key(a.value).Some?)
    || (a.key == "AllowedIPs" && GoodItems(env, Split(a.value, ',')))
    || (a.key == "Endpoint" && env.udp(a.value).Some?)
    || (a.key == "PersistentKeepalive" && ParseInt64(a.value).Some?)
  }

  /** The keys and values the two known sections admit. */
  predicate Acceptable(env: Parsers, section: string, a: Attr) {
    && (section == "Interface" ==> InterfaceAccepts(env, a))
    && (section == "Peer" ==> PeerAccepts(env, a))
  }

  lemma InterfaceErrorExactly(env: Parsers, a: Attr)
    ensures InterfaceError(env, a).None? <==> InterfaceAccepts(env, a)
    ensures a.key == "PrivateKey" && env.key(a.value).None? ==> InterfaceError(env, a) == Some(BadKey(a.value))
    ensures a.key != "PrivateKey" && !InterfaceAccepts(env, a) ==>
              InterfaceError(env, a) == Some(UnsupportedKey(Interface, a.key))
  {
  }

  lemma PeerErrorExactly(env: Parsers, a: Attr)
    ensures PeerError(env, a).None? <==> PeerAccepts(env, a)
    ensures a.key == "PublicKey" && env.key(a.value).None? ==> PeerError(env, a) == Some(BadKey(a.value))
    ensures a.key == "Endpoint" && env.udp(a.value).None? ==> PeerError(env, a) == Some(BadEndpoint(a.value))
    ensures a.key == "PersistentKeepalive" && ParseInt64(a.value).None? ==>
              PeerError(env, a) == Some(BadNumber(a.value))
    ensures a.key != "PublicKey" && a.key != "AllowedIPs" && a.key != "Endpoint" && a.key != "PersistentKeepalive" ==>
              PeerError(env, a) == Some(UnsupportedKey(Peer, a.key))
  {
    NoBadNet(env, Split(a.value, ','));
  }

  /** Of a line of networks the first bad item is reported. */
  lemma BadItemReported(env: Parsers, a: Attr, i: nat)
    requires a.key == "AllowedIPs" && i < |Split(a.value, ',')|
    requires GoodItems(env, Split(a.value, ',')[..i]) && env.cidr(Split(a.value, ',')[i]).None?
    ensures PeerError(env, a) == Some(BadCIDR(Split(a.value, ',')[i]))
  {
    NoBadNet(env, Split(a.value, ',')[..i]);
    BadNetFound(env, Split(a.value, ','), i);
  }

  lemma AcceptableExactly(env: Parsers, section: string, a: Attr)
    ensures AttrError(env, KindOf(section), a).None? <==> Acceptable(env, section, a)
  {
    InterfaceErrorExactly(env, a);
    PeerErrorExactly(env, a);
  }

  predicate AllAcceptable(env: Parsers, section: string, attrs: seq<Attr>) {
    forall k :: 0 <= k < |attrs| ==> Acceptable(env, section, attrs[k])
  }

  lemma {:induction false} SectionAccepted(env: Parsers, section: string, attrs: seq<Attr>)
    ensures SectionError(env, KindOf(section), attrs).None? <==> AllAcceptable(env, section, attrs)
  {
    if attrs != [] {
      var n := |attrs| - 1;
      SectionAccepted(env, section, attrs[..n]);
      AcceptableExactly(env, section, attrs[n]);
    }
  }

  predicate AllSectionsAcceptable(env: Parsers, secs: seq<Section>) {
    forall i :: 0 <= i < |secs| ==> AllAcceptable(env, secs[i].name, secs[i].attrs)
  }

  lemma {:induction false} SectionsAccepted(env: Parsers, secs: seq<Section>)
    ensures FirstError(env, secs).None? <==> AllSectionsAcceptable(env, secs)
  {
    if secs != [] {
      var n := |secs| - 1;
      SectionsAccepted(env, secs[..n]);
      SectionAccepted(env, secs[n].name, secs[n].attrs);
    }
  }

  /** A text parses if and only if every attribute of its Interface and Peer sections has a
      supported key and a value of the right form; other sections do not matter. */
  lemma ParsesExactly(env: Parsers, text: string)
    ensures ParseSpec(env, text).Ok? <==> AllSectionsAcceptable(env, TextSections(text))
  {
    SectionsAccepted(env, TextSections(text));
  }

  lemma {:induction false} SectionErrorAt(env: Parsers, section: string, attrs: seq<Attr>, k: nat)
    requires k < |attrs| && AllAcceptable(env, section, attrs[..k]) && !Acceptable(env, section, attrs[k])
    ensures SectionError(env, KindOf(section), attrs) == AttrError(env, KindOf(section), attrs[k])
    ensures SectionError(env, KindOf(section), attrs).Some?
  {
    var n := |attrs| - 1;
    AcceptableExactly(env, section, attrs[k]);
    if k < n {
      assert attrs[..n][..k] == attrs[..k];
      SectionErrorAt(env, section, attrs[..n], k);
    } else {
      SectionAccepted(env, section, attrs[..n]);
    }
    assert attrs == attrs[..n] + [attrs[n]];
    SectionErrorSnoc(env, KindOf(section), attrs[..n], attrs[n]);
  }

  lemma {:induction false} FirstErrorAt(env: Parsers, secs: seq<Section>, i: nat, k: nat)
    requires i < |secs| && AllSectionsAcceptable(env, secs[..i])
    requires k < |secs[i].attrs| && AllAcceptable(env, secs[i].name, secs[i].attrs[..k])
    requires !Acceptable(env, secs[i].name, secs[i].attrs[k])
    ensures FirstError(env, secs) == AttrError(env, KindOf(secs[i].name), secs[i].attrs[k])
    ensures FirstError(env, secs).Some?
  {
    var n := |secs| - 1;
    if i < n {
      assert secs[..n][..i] == secs[..i];
      FirstErrorAt(env, secs[..n], i, k);
    } else {
      SectionsAccepted(env, secs[..n]);
      SectionErrorAt(env, secs[n].name, secs[n].attrs, k);
    }
  }

  /** The error reported is that of the first attribute in text order that is not acceptable. */
  lemma FirstCulpritReported(env: Parsers, text: string, i: nat, k: nat)
    requires var secs := TextSections(text);
             && i < |secs| && AllSectionsAcceptable(env, secs[..i])
             && k < |secs[i].attrs| && AllAcceptable(env, secs[i].name, secs[i].attrs[..k])
             && !Acceptable(env, secs[i].name, secs[i].attrs[k])
    ensures var s := TextSections(text)[i];
            var e := AttrError(env, KindOf(s.name), s.attrs[k]);
            e.Some? && ParseSpec(env, text) == Err(e.value)
  {
    FirstErrorAt(env, TextSections(text), i, k);
  }

  // ----- where the values come from --------------------------------------------------------

  lemma PeersSnoc(env: Parsers, secs: seq<Section>, s: Section)
    ensures PeersOf(env, secs + [s]) ==
            PeersOf(env, secs) + if KindOf(s.name).Peer? then [PeerOf(env, s.attrs)] else []
  {
    assert (secs + [s])[..|secs|] == secs;
  }

  lemma AttrsSnoc(secs: seq<Section>, s: Section, kind: Kind)
    ensures AttrsOf(secs + [s], kind) == AttrsOf(secs, kind) + if KindOf(s.name) == kind then s.attrs else []
  {
    assert (secs + [s])[..|secs|] == secs;
  }

  /** One peer per Peer section, in the order of the sections. */
  lemma {:induction false} PeersConcat(env: Parsers, a: seq<Section>, b: seq<Section>)
    ensures PeersOf(env, a + b) == PeersOf(env, a) + PeersOf(env, b)
    decreases |b|
  {
    if b == [] {
      assert a + b == a;
    } else {
      var n := |b| - 1;
      var init, s := b[..n], b[n];
      PeersConcat(env, a, init);
      PeersConcatSnoc(env, a, init, s);
      assert b == init + [s];
    }
  }

  lemma PeersConcatSnoc(env: Parsers, a: seq<Section>, b: seq<Section>, s: Section)
    requires PeersOf(env, a + b) == PeersOf(env, a) + PeersOf(env, b)
    ensures PeersOf(env, a + (b + [s])) == PeersOf(env, a) + PeersOf(env, b + [s])
  {
    Assoc(a, b, [s]);
    PeersSnoc(env, a + b, s);
    PeersSnoc(env, b, s);
    Assoc(PeersOf(env, a), PeersOf(env, b), if KindOf(s.name).Peer? then [PeerOf(env, s.attrs)] else []);
  }

  /** The attributes of two runs of sections of one kind follow each other. */
  lemma {:induction false} AttrsConcat(a: seq<Section>, b: seq<Section>, kind: Kind)
    ensures AttrsOf(a + b, kind) == AttrsOf(a, kind) + AttrsOf(b, kind)
    decreases |b|
  {
    if b == [] {
      assert a + b == a;
    } else {
      var n := |b| - 1;
      var init, s := b[..n], b[n];
      AttrsConcat(a, init, kind);
      AttrsSnoc(a + init, s, kind);
      AttrsSnoc(init, s, kind);
      assert b == init + [s] && a + b == (a + init) + [s];
      Assoc(AttrsOf(a, kind), AttrsOf(init, kind), if KindOf(s.name) == kind then s.attrs else []);
    }
  }

  lemma OneSection(env: Parsers, s: Section)
    ensures PeersOf(env, [s]) == if s.name == "Peer" then [PeerOf(env, s.attrs)] else []
    ensures AttrsOf([s], Interface) == if s.name == "Interface" then s.attrs else []
    ensures AttrsOf([s], Peer) == if s.name == "Peer" then s.attrs else []
  {
    assert [s][..0] == [];
  }

  /** The resolved addresses of the Endpoint lines, in order. */
  lemma {:induction false} EndpointsConcat(env: Parsers, a: seq<Attr>, b: seq<Attr>)
    ensures EndpointIPs(env, a + b) == EndpointIPs(env, a) + EndpointIPs(env, b)
    decreases |b|
  {
    if b == [] {
      assert a + b == a;
    } else {
      var n := |b| - 1;
      var init, x := b[..n], b[n];
      EndpointsConcat(env, a, init);
      EndpointsConcatSnoc(env, a, init, x);
      assert b == init + [x];
    }
  }

  lemma EndpointsConcatSnoc(env: Parsers, a: seq<Attr>, b: seq<Attr>, x: Attr)
    requires EndpointIPs(env, a + b) == EndpointIPs(env, a) + EndpointIPs(env, b)
    ensures EndpointIPs(env, a + (b + [x])) == EndpointIPs(env, a) + EndpointIPs(env, b + [x])
  {
    Assoc(a, b, [x]);
    EndpointsSnoc(env, a + b, x);
    EndpointsSnoc(env, b, x);
    Assoc(EndpointIPs(env, a), EndpointIPs(env, b),
          if FieldOf(x.key).Endpoint? && env.udp(x.value).Some? then [env.udp(x.value).value.ip] else []);
  }

  lemma OneEndpoint(env: Parsers, a: Attr)
    ensures EndpointIPs(env, [a]) ==
            if a.key == "Endpoint" && env.udp(a.value).Some? then [env.udp(a.value).value.ip] else []
  {
    assert [a][..0] == [];
  }

  /** The items of all AllowedIPs lines, in order. */
  function Items(attrs: seq<Attr>): (items: seq<string>) {
    if attrs == [] then []
    else if attrs[0].key == "AllowedIPs" then Split(attrs[0].value, ',') + Items(attrs[1..])
    else Items(attrs[1..])
  }

  lemma {:induction false} NetsConcat(env: Parsers, a: seq<string>, b: seq<string>)
    ensures NetsOf(env, a + b) == NetsOf(env, a) + NetsOf(env, b)
    decreases |b|
  {
    if b == [] {
      assert a + b == a;
    } else {
      var n := |b| - 1;
      NetsConcat(env, a, b[..n]);
      assert (a + b)[..|a| + n] == a + b[..n];
    }
  }

  lemma AllNetsSnoc(env: Parsers, attrs: seq<Attr>, a: Attr)
    ensures AllNets(env, attrs + [a]) ==
            AllNets(env, attrs) + if FieldOf(a.key).AllowedIPs? then NetsOf(env, Split(a.value, ',')) else []
  {
    assert (attrs + [a])[..|attrs|] == attrs;
  }

  lemma {:induction false} AllNetsConcat(env: Parsers, a: seq<Attr>, b: seq<Attr>)
    ensures AllNets(env, a + b) == AllNets(env, a) + AllNets(env, b)
    decreases |b|
  {
    if b == [] {
      assert a + b == a;
    } else {
      var n := |b| - 1;
      var init, x := b[..n], b[n];
      AllNetsConcat(env, a, init);
      AllNetsSnoc(env, a + init, x);
      AllNetsSnoc(env, init, x);
      assert b == init + [x] && a + b == (a + init) + [x];
      Assoc(AllNets(env, a), AllNets(env, init),
            if FieldOf(x.key).AllowedIPs? then NetsOf(env, Split(x.value, ',')) else []);
    }
  }

  lemma OneLineOfNets(env: Parsers, a: Attr)
    ensures AllNets(env, [a]) == if a.key == "AllowedIPs" then NetsOf(env, Split(a.value, ',')) else []
  {
    AllowedIPsNamed(a.key);
    AllNetsSnoc(env, [], a);
    assert [] + [a] == [a];
  }

  lemma {:induction false} AllNetsOfItems(env: Parsers, attrs: seq<Attr>)
    ensures AllNets(env, attrs) == NetsOf(env, Items(attrs))
    decreases |attrs|
  {
    if attrs != [] {
      var a, rest := attrs[0], attrs[1..];
      AllNetsOfItems(env, rest);
      AllNetsConcat(env, [a], rest);
      OneLineOfNets(env, a);
      assert attrs == [a] + rest;
      if a.key == "AllowedIPs" {
        NetsConcat(env, Split(a.value, ','), Items(rest));
      }
    }
  }

  lemma {:induction false} ItemsAreGood(env: Parsers, attrs: seq<Attr>)
    requires AllAcceptable(env, "Peer", attrs)
    ensures GoodItems(env, Items(attrs))
    decreases |attrs|
  {
    if attrs != [] {
      assert Acceptable(env, "Peer", attrs[0]);
      ItemsAreGood(env, attrs[1..]);
    }
  }

  /** In a Peer section without error, the peer has one network per item of its AllowedIPs
      lines, in order, and each is the one the item denotes. */
  lemma PeerNetworks(env: Parsers, attrs: seq<Attr>)
    requires AllAcceptable(env, "Peer", attrs)
    ensures var nets, items := PeerOf(env, attrs).allowedIPs, Items(attrs);
            && |nets| == |items|
            && forall i :: 0 <= i < |items| ==> Some(nets[i]) == env.cidr(items[i])
  {
    AllNetsOfItems(env, attrs);
    ItemsAreGood(env, attrs);
    NetsInOrder(env, Items(attrs));
  }

  predicate Given(attrs: seq<Attr>, key: string) {
    exists i :: 0 <= i < |attrs| && attrs[i].key == key
  }

  /** Attribute `i` is the last one with its key. */
  predicate LastGiven(attrs: seq<Attr>, i: nat, key: string) {
    i < |attrs| && attrs[i].key == key && forall j :: i < j < |attrs| ==> attrs[j].key != key
  }

  lemma {:induction false} LastWins(attrs: seq<Attr>, i: nat, key: string, field: Field)
    requires forall k :: 0 <= k < |attrs| ==> (FieldOf(attrs[k].key) == field <==> attrs[k].key == key)
    ensures LastGiven(attrs, i, key) ==> LastValue(attrs, field) == Some(attrs[i].value)
    ensures !Given(attrs, key) ==> LastValue(attrs, field) == None
  {
    if attrs != [] {
      var n := |attrs| - 1;
      LastWins(attrs[..n], i, key, field);
      if attrs[n].key != key && LastGiven(attrs, i, key) {
        assert LastGiven(attrs[..n], i, key);
      }
    }
  }

  /** Each field is named by one key. */
  predicate KeysFit(key: string) {
    && (FieldOf(key) == PrivateKey <==> key == "PrivateKey")
    && (FieldOf(key) == Address <==> key == "Address")
    && (FieldOf(key) == DNS <==> key == "DNS")
    && (FieldOf(key) == PublicKey <==> key == "PublicKey")
    && (FieldOf(key) == Endpoint <==> key == "Endpoint")
    && (FieldOf(key) == PersistentKeepalive <==> key == "PersistentKeepalive")
  }

  lemma KeysNameFields(key: string)
    ensures KeysFit(key)
  {
  }

  /** The public key, endpoint and keepalive of a peer are those given last in its section. */
  lemma PeerScalars(env: Parsers, attrs: seq<Attr>, i: nat)
    ensures LastGiven(attrs, i, "PublicKey") && env.key(attrs[i].value).Some? ==>
              PeerOf(env, attrs).publicKey == env.key(attrs[i].value).value
    ensures LastGiven(attrs, i, "Endpoint") ==> PeerOf(env, attrs).endpoint == env.udp(attrs[i].value)
    ensures LastGiven(attrs, i, "PersistentKeepalive") ==>
              PeerOf(env, attrs).keepalive == ParseInt64(attrs[i].value)
    ensures !Given(attrs, "PublicKey") ==> PeerOf(env, attrs).publicKey == ZERO_KEY
    ensures !Given(attrs, "Endpoint") ==> PeerOf(env, attrs).endpoint == None
    ensures !Given(attrs, "PersistentKeepalive") ==> PeerOf(env, attrs).keepalive == None
  {
    forall k | 0 <= k < |attrs| ensures KeysFit(attrs[k].key) {
      KeysNameFields(attrs[k].key);
    }
    LastWins(attrs, i, "PublicKey", PublicKey);
    LastWins(attrs, i, "Endpoint", Endpoint);
    LastWins(attrs, i, "PersistentKeepalive", PersistentKeepalive);
  }

  /** The key, address and DNS server of the tunnel are those given last in any Interface
      section. */
  lemma TunnelScalars(env: Parsers, text: string, i: nat)
    requires ParseSpec(env, text).Ok?
    ensures var attrs, c := AttrsOf(TextSections(text), Interface), ParseSpec(env, text).value;
            && (LastGiven(attrs, i, "PrivateKey") ==> c.privateKey == env.key(attrs[i].value))
            && (LastGiven(attrs, i, "Address") ==> c.tunAddress == attrs[i].value)
            && (LastGiven(attrs, i, "DNS") ==> c.tunDNS == attrs[i].value)
            && (!Given(attrs, "PrivateKey") ==> c.privateKey == None)
            && (!Given(attrs, "Address") ==> c.tunAddress == "")
            && (!Given(attrs, "DNS") ==> c.tunDNS == "")
  {
    var attrs := AttrsOf(TextSections(text), Interface);
    forall k | 0 <= k < |attrs| ensures KeysFit(attrs[k].key) {
      KeysNameFields(attrs[k].key);
    }
    LastWins(attrs, i, "PrivateKey", PrivateKey);
    LastWins(attrs, i, "Address", Address);
    LastWins(attrs, i, "DNS", DNS);
  }

  // ----- lines that say nothing -----------------------------------------------------------

  /** A line without a bracket pair that does not start with a key character, or holds no
      equals sign, is passed over: comments, blank lines, and values without a key. */
  lemma LinePassedOver(line: string)
    requires !HasBrackets(line)
    requires Lacks(line, '=') || (line != "" && !IsKeyChar(line[0]))
    ensures Classify(line) == Other
  {
    HeaderIsLeftmostLongest(line);
    if Attribute(line).Some? {
      var k, e, v := AttributeExplains(line);
      assert line[e] == '=';
    }
  }
}
