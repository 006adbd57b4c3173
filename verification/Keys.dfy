/** When two packets meet under one flow key: replies, ICMP errors, and never two different flows. */
module Keys {
  import opened Bytes
  import opened InnerPacket
  import opened OuterHeader
  import opened Programs
  import opened DecapRules
  import opened EncapRules

  // ---- Separation ----

  lemma PutLE16Injective(a: nat, b: nat)
    requires a < 0x1_0000 && b < 0x1_0000 && PutLE16(a) == PutLE16(b)
    ensures a == b
  {
    assert LE16(PutLE16(a), 0) == a && LE16(PutLE16(b), 0) == b;
  }

  lemma PutLE32Injective(a: nat, b: nat)
    requires a < 0x1_0000_0000 && b < 0x1_0000_0000 && PutLE32(a) == PutLE32(b)
    ensures a == b
  {
    assert LE32(PutLE32(a), 0) == a && LE32(PutLE32(b), 0) == b;
  }

  /** The kernel, which compares the 44 octets, tells two keys apart whenever any field differs. */
  lemma KeyBytesInjective(a: FlowKey, b: FlowKey)
    requires KeyFits(a) && KeyFits(b) && KeyBytes(a) == KeyBytes(b)
    ensures a == b
  {
    KeyBytesParts(a);
    KeyBytesParts(b);
    PutLE32Injective(a.ifindex, b.ifindex);
    PutLE16Injective(a.sport, b.sport);
    PutLE16Injective(a.dport, b.dport);
  }

  /** Where each field lies in the 44 octets. */
  lemma KeyBytesParts(k: FlowKey)
    requires KeyFits(k)
    ensures var x := KeyBytes(k);
            && x[..4] == PutLE32(k.ifindex) && x[4..20] == k.saddr && x[20..36] == k.daddr
            && x[36..38] == PutLE16(k.sport) && x[38..40] == PutLE16(k.dport)
            && x[40] == k.proto && (x[41] == 1 <==> k.isV6)
  {
    var x := KeyBytes(k);
    assert forall i :: 0 <= i < 4 ==> x[i] == PutLE32(k.ifindex)[i];
    assert forall i :: 0 <= i < 16 ==> x[i + 4] == k.saddr[i];
    assert forall i :: 0 <= i < 16 ==> x[i + 20] == k.daddr[i];
  }

  lemma ParsedAddress(isV6: bool, p: seq<Byte>)
    requires Parse(isV6, p).Some? && !isV6
    ensures Parse(isV6, p).value.t.saddr[4..] == Zeros(12) && Parse(isV6, p).value.t.daddr[4..] == Zeros(12)
  {
    var t := Header4(p);
    assert t.saddr == p[12..16] + Zeros(12) && t.daddr == p[16..20] + Zeros(12);
    assert t.saddr[4..] == Zeros(12) && t.daddr[4..] == Zeros(12);
  }

  /** A parsed packet's addresses go into its key whole, in either family. */
  lemma KeyKeepsAddresses(isV6: bool, p: seq<Byte>)
    requires Parse(isV6, p).Some?
    ensures var t := Parse(isV6, p).value.t;
            KeyAddr(isV6, t.saddr) == t.saddr && KeyAddr(isV6, t.daddr) == t.daddr
  {
    if !isV6 {
      ParsedAddress(isV6, p);
    }
  }

  /**
   Two packets share a stored key exactly if interface, family, addresses, ports and protocol all agree; and
   their keys are ones whose 44 octets tell them apart.
   */
  lemma FlowsStayApart(i: nat, j: nat, isV6: bool, isV6': bool, p: seq<Byte>, q: seq<Byte>)
    requires Parse(isV6, p).Some? && Parse(isV6', q).Some? && i < 0x1_0000_0000 && j < 0x1_0000_0000
    ensures var t, u := Parse(isV6, p).value.t, Parse(isV6', q).value.t;
            var a, b := ForwardKey(i, isV6, t), ForwardKey(j, isV6', u);
            && KeyFits(a) && KeyFits(b)
            && (a == b <==>
                  i == j && isV6 == isV6' && t.saddr == u.saddr && t.daddr == u.daddr &&
                  t.sport == u.sport && t.dport == u.dport && t.proto == u.proto)
  {
    KeyKeepsAddresses(isV6, p);
    KeyKeepsAddresses(isV6', q);
  }

  /** The identification comes back from a fragment key's two ports. */
  lemma FragKeyTells(i: nat, isV6: bool, t: Tuple, u: Tuple)
    requires TupleFits(t) && TupleFits(u)
    requires FragKey(i, isV6, t) == FragKey(i, isV6, u)
    ensures t.fragId == u.fragId && t.proto == u.proto
  {
    assert t.fragId == t.fragId / 0x1_0000 * 0x1_0000 + t.fragId % 0x1_0000;
    assert u.fragId == u.fragId / 0x1_0000 * 0x1_0000 + u.fragId % 0x1_0000;
  }

  // ---- Replies ----

  /** `u` answers `t`: the same flow, seen from the other end. */
  predicate Answers(t: Tuple, u: Tuple) {
    u.saddr == t.daddr && u.daddr == t.saddr && u.sport == t.dport && u.dport == t.sport && u.proto == t.proto
  }

  /** `u` is `t`'s flow as a transparent appliance hands it back. */
  predicate SameFlow(t: Tuple, u: Tuple) {
    u.saddr == t.saddr && u.daddr == t.daddr && u.sport == t.sport && u.dport == t.dport && u.proto == t.proto
  }

  /** A reply that carries its own L4 header, or none the parser reads. */
  predicate Ordinary(isV6: bool, u: Tuple) {
    !u.frag.Later? && !QuotesPacket(isV6, u) && !(isV6 && LinkLocalControl(u))
  }

  /**
   Key agreement, both ways: for a packet decap stored, encap asks for that key exactly when the reply reverses the
   tuple, or on a transparent box keeps it. No other flow's reply asks for it, and no reply of this flow for another.
   */
  lemma ReplyFindsFlow(cfg: Config, endpoints: map<nat, Info>, f: seq<Byte>, r: seq<Byte>, isV6: bool)
    requires Decide(cfg, endpoints, f).Deliver? && Family(BE16(f, PROTO_TYPE)) == Some(isV6)
    requires Decide(cfg, endpoints, f).store.Some?
    requires |r| >= ETH_LEN && Family(BE16(r, 12)) == Some(isV6) && |r| - ETH_LEN <= cfg.maxInner
    requires Parse(isV6, f[HDR_LEN..]).Some? && Parse(isV6, r[ETH_LEN..]).Some?
    requires Ordinary(isV6, Parse(isV6, r[ETH_LEN..]).value.t)
    ensures var t, u := Parse(isV6, f[HDR_LEN..]).value.t, Parse(isV6, r[ETH_LEN..]).value.t;
            var d, a := Decide(cfg, endpoints, f), Classify(cfg, Decide(cfg, endpoints, f).ifindex, r);
            && a.Ask? && !a.inFrag
            && (d.store == Some(a.key) <==> if cfg.transparent then SameFlow(t, u) else Answers(t, u))
  {
    KeyKeepsAddresses(isV6, f[HDR_LEN..]);
    KeyKeepsAddresses(isV6, r[ETH_LEN..]);
    StoredUnder(cfg, endpoints, f, isV6);
    ClassifyIsParsed(cfg, Decide(cfg, endpoints, f).ifindex, r, isV6);
  }

  lemma EchoPorts(isV6: bool, p: seq<Byte>)
    requires Parse(isV6, p).Some?
    requires var a := Parse(isV6, p).value; a.t.hasL4 && IsEcho(a.t.proto, a.t.icmpType)
    ensures var a := Parse(isV6, p).value; a.l4 + 8 <= |p| && a.t.sport == a.t.dport == LE16(p, a.l4 + 4)
  {
    QuoteInside(isV6, p);
  }

  /** An echo reply answers its request: the identifier stands for both ports. */
  lemma EchoAnswers(isV6: bool, p: seq<Byte>, r: seq<Byte>)
    requires Parse(isV6, p).Some? && Parse(isV6, r).Some?
    requires var a, b := Parse(isV6, p).value, Parse(isV6, r).value;
             && a.t.proto == b.t.proto && a.t.hasL4 && b.t.hasL4
             && IsEcho(a.t.proto, a.t.icmpType) && IsEcho(b.t.proto, b.t.icmpType)
             && b.t.saddr == a.t.daddr && b.t.daddr == a.t.saddr
             && a.l4 + 6 <= |p| && b.l4 + 6 <= |r| && LE16(p, a.l4 + 4) == LE16(r, b.l4 + 4)
    ensures Answers(Parse(isV6, p).value.t, Parse(isV6, r).value.t)
  {
    EchoPorts(isV6, p);
    EchoPorts(isV6, r);
  }

  // ---- ICMP errors ----

  /** Octets neither parser reads: type of service, lengths, TTL, checksum, traffic class, flow label. */
  predicate Unread(isV6: bool, i: nat) {
    if isV6 then i < 6 || i == 7 else 1 <= i < 4 || i == 8 || i == 10 || i == 11
  }

  /** `q` quotes a beginning of `p`, up to what a router or a receiving stack may have changed in its header. */
  predicate QuoteOf(isV6: bool, q: seq<Byte>, p: seq<Byte>) {
    |q| <= |p| && forall i :: 0 <= i < |q| && !Unread(isV6, i) ==> q[i] == p[i]
  }

  lemma SamePiece(q: seq<Byte>, p: seq<Byte>, i: nat, j: nat)
    requires i <= j <= |q| <= |p| && forall k :: i <= k < j ==> q[k] == p[k]
    ensures q[i..j] == p[i..j]
  {
  }

  lemma L4Prefix(t: Tuple, q: seq<Byte>, p: seq<Byte>, off: nat)
    requires ParseL4(t, q, off).Some? && |q| <= |p|
    requires forall i :: off <= i < |q| ==> q[i] == p[i]
    ensures ParseL4(t, p, off) == ParseL4(t, q, off)
  {
  }

  lemma Prefix4(q: seq<Byte>, p: seq<Byte>)
    requires ParseIPv4(q).Some? && QuoteOf(false, q, p)
    ensures ParseIPv4(p) == ParseIPv4(q)
  {
    SamePiece(q, p, 12, 16);
    SamePiece(q, p, 16, 20);
    assert BE16(q, 6) == BE16(p, 6) && BE16(q, 4) == BE16(p, 4);
    assert q[0] == p[0] && q[9] == p[9];
    assert Header4(q) == Header4(p) && HeaderLen4(q) == HeaderLen4(p) >= 20;
    if !Header4(q).frag.Later? {
      L4Prefix(Header4(q), q, p, HeaderLen4(q));
    }
  }

  lemma Prefix6(q: seq<Byte>, p: seq<Byte>)
    requires ParseIPv6(q).Some? && QuoteOf(true, q, p)
    ensures ParseIPv6(p) == ParseIPv6(q)
  {
    SamePiece(q, p, 8, 24);
    SamePiece(q, p, 24, 40);
    assert q[6] == p[6];
    assert PastHopByHop(q) == PastHopByHop(p);
    var c := PastHopByHop(q).value;
    if c.proto == FRAGMENT {
      assert BE16(q, c.next + 2) == BE16(p, c.next + 2) && BE32(q, c.next + 4) == BE32(p, c.next + 4);
      assert q[c.next] == p[c.next];
    }
    assert PastFragment(q, c) == PastFragment(p, c);
    var h := PastFragment(q, c).value;
    if !h.t.frag.Later? {
      L4Prefix(h.t, q, p, h.l4);
    }
  }

  /** Prefix monotonicity: what parses in a quote parses the same in the packet quoted, and in every extension of it. */
  lemma ParsePrefix(isV6: bool, q: seq<Byte>, p: seq<Byte>)
    requires Parse(isV6, q).Some? && QuoteOf(isV6, q, p)
    ensures Parse(isV6, p) == Parse(isV6, q)
  {
    if isV6 {
      Prefix6(q, p);
    } else {
      Prefix4(q, p);
    }
  }

  /** Past the family, parse, link-local and size checks, the choice of lookup is all there is. */
  lemma ClassifyIsParsed(cfg: Config, ifindex: nat, e: seq<Byte>, isV6: bool)
    requires |e| >= ETH_LEN && Family(BE16(e, 12)) == Some(isV6) && |e| - ETH_LEN <= cfg.maxInner
    requires Parse(isV6, e[ETH_LEN..]).Some?
    requires !(isV6 && LinkLocalControl(Parse(isV6, e[ETH_LEN..]).value.t))
    ensures Classify(cfg, ifindex, e)
         == ClassifyParsed(cfg.transparent, ifindex, isV6, e[ETH_LEN..], Parse(isV6, e[ETH_LEN..]).value)
  {
  }

  /** What encap asks for when a reply quotes a packet. */
  lemma ErrorAsksForQuoted(cfg: Config, ifindex: nat, e: seq<Byte>, isV6: bool, q: Tuple)
    requires |e| >= ETH_LEN && Family(BE16(e, 12)) == Some(isV6) && |e| - ETH_LEN <= cfg.maxInner
    requires Parse(isV6, e[ETH_LEN..]).Some?
    requires QuotesPacket(isV6, Parse(isV6, e[ETH_LEN..]).value.t)
    requires var l4 := Parse(isV6, e[ETH_LEN..]).value.l4;
             && l4 + 8 <= |e[ETH_LEN..]| && Parse(isV6, e[ETH_LEN..][l4 + 8..]).Some?
             && Parse(isV6, e[ETH_LEN..][l4 + 8..]).value.t == q
    ensures TupleFits(q)
    ensures var a := Classify(cfg, ifindex, e); a.Ask? && !a.inFrag && a.key == ForwardKey(ifindex, isV6, q)
  {
    ClassifyIsParsed(cfg, ifindex, e, isV6);
  }

  /** What decap stored a packet under. */
  lemma StoredUnder(cfg: Config, endpoints: map<nat, Info>, f: seq<Byte>, isV6: bool)
    requires Decide(cfg, endpoints, f).Deliver? && Family(BE16(f, PROTO_TYPE)) == Some(isV6)
    requires Decide(cfg, endpoints, f).store.Some?
    ensures Parse(isV6, f[HDR_LEN..]).Some?
    ensures var d := Decide(cfg, endpoints, f);
            d.store == Some(ForwardKey(d.ifindex, isV6, Parse(isV6, f[HDR_LEN..]).value.t))
  {
  }

  /**
   An ICMP error finds its flow: if what follows its own eight octets begins with a parseable quote of a
   packet decap stored, encap asks for exactly the stored key, transparent or not, whatever follows the quote.
   */
  lemma ErrorFindsFlow(cfg: Config, endpoints: map<nat, Info>, f: seq<Byte>, e: seq<Byte>, isV6: bool,
                       quote: seq<Byte>, rest: seq<Byte>)
    requires Decide(cfg, endpoints, f).Deliver? && Family(BE16(f, PROTO_TYPE)) == Some(isV6)
    requires Decide(cfg, endpoints, f).store.Some?
    requires |e| >= ETH_LEN && Family(BE16(e, 12)) == Some(isV6) && |e| - ETH_LEN <= cfg.maxInner
    requires Parse(isV6, e[ETH_LEN..]).Some?
    requires QuotesPacket(isV6, Parse(isV6, e[ETH_LEN..]).value.t)
    requires var l4 := Parse(isV6, e[ETH_LEN..]).value.l4;
             l4 + 8 <= |e[ETH_LEN..]| && e[ETH_LEN..][l4 + 8..] == quote + rest
    requires Parse(isV6, quote).Some? && QuoteOf(isV6, quote, f[HDR_LEN..])
    ensures var a := Classify(cfg, Decide(cfg, endpoints, f).ifindex, e);
            a.Ask? && !a.inFrag && Decide(cfg, endpoints, f).store == Some(a.key)
  {
    ParsePrefix(isV6, quote, f[HDR_LEN..]);
    ParsePrefix(isV6, quote, quote + rest);
    ErrorAsksForQuoted(cfg, Decide(cfg, endpoints, f).ifindex, e, isV6, Parse(isV6, quote).value.t);
    StoredUnder(cfg, endpoints, f, isV6);
  }
}
