/** A frame encap emits, read back by decap. */
module RoundTrip {
  import opened Bytes
  import opened InnerPacket
  import opened OuterHeader
  import opened Programs
  import opened DecapRules

  /** The frame encap puts on the uplink, for the header decap took from `f` and an inner packet. */
  function Returned(f: seq<Byte>, inner: seq<Byte>): (g: seq<Byte>)
    requires |f| >= HDR_LEN
    ensures |g| == HDR_LEN + |inner| && g[HDR_LEN..] == inner
  {
    Encapsulated(ReplyForm(f[..HDR_LEN]), inner)
  }

  /** What of a returned header the cache decides. */
  lemma ReturnedHeader(f: seq<Byte>, inner: seq<Byte>)
    requires |f| >= HDR_LEN
    ensures forall i :: 0 <= i < HDR_LEN && !Skipped(i) ==> Returned(f, inner)[i] == ReplyForm(f[..HDR_LEN])[i]
  {
    assert forall i :: 0 <= i < HDR_LEN ==> Returned(f, inner)[i] == Replay(ReplyForm(f[..HDR_LEN]), |inner|)[i];
  }

  /** The addresses of a returned header are the first frame's, swapped, and its fragment field says DF. */
  lemma ReturnedAddresses(f: seq<Byte>, inner: seq<Byte>)
    requires |f| >= HDR_LEN
    ensures var g := Returned(f, inner);
            && g[FRAG_OFF] == 0x40 && g[FRAG_OFF + 1] == 0
            && g[SADDR..DADDR] == f[DADDR..DADDR + 4] && g[DADDR..DADDR + 4] == f[SADDR..DADDR]
            && g[..6] == f[6..12] && g[6..12] == f[..6]
  {
    ReturnedHeader(f, inner);
  }

  /** What the outer checks read, addresses and fragment field aside, is the first frame's. */
  predicate SameChecks(f: seq<Byte>, g: seq<Byte>)
    requires |f| >= HDR_LEN && |g| >= HDR_LEN
  {
    && BE16(g, 12) == BE16(f, 12) && g[14] == f[14] && g[23] == f[23] && BE16(g, 36) == BE16(f, 36)
    && (forall i :: 42 <= i < HDR_LEN ==> g[i] == f[i])
  }

  lemma ReturnedLike(f: seq<Byte>, inner: seq<Byte>)
    requires |f| >= HDR_LEN
    ensures SameChecks(f, Returned(f, inner))
  {
    ReturnedHeader(f, inner);
  }

  lemma TunnelLike(f: seq<Byte>, g: seq<Byte>)
    requires |f| >= HDR_LEN && |g| >= HDR_LEN && forall i :: 42 <= i < HDR_LEN ==> g[i] == f[i]
    ensures IsGwlbTunnel(g) == IsGwlbTunnel(f) && BE64(g, VPCE) == BE64(f, VPCE)
    ensures BE16(g, PROTO_TYPE) == BE16(f, PROTO_TYPE)
  {
    assert BE64(g, 66) == BE64(f, 66);
    assert BE16(g, 50) == BE16(f, 50) && BE16(g, 62) == BE16(f, 62) && BE16(g, 74) == BE16(f, 74);
  }

  lemma StillUdp(g: seq<Byte>)
    requires |g| >= HDR_LEN && BE16(g, 12) == IPV4_TYPE && g[14] % 16 == 5 && g[23] == UDP
    requires g[FRAG_OFF] == 0x40 && g[FRAG_OFF + 1] == 0
    ensures IsUdp(g) && BE16(g, FRAG_OFF) / 0x2000 % 2 == 0
  {
    assert BE16(g, FRAG_OFF) == 0x4000;
  }

  /**
   decap accepts what encap emits exactly when its origin filter lets the first frame's destination through:
   it reads the same endpoint, the same inner family, and the inner packet octet for octet.
   */
  lemma ReturnedIsGwlb(f: seq<Byte>, origin: Origin, inner: seq<Byte>, filter: Origin)
    requires CheckOuter(f, origin).ForEndpoint?
    ensures var g := Returned(f, inner);
            && CheckOuter(g, filter)
               == (if Allows(filter, f[DADDR..DADDR + 4]) then CheckOuter(f, origin) else OriginRefused)
            && BE16(g, PROTO_TYPE) == BE16(f, PROTO_TYPE)
            && g[HDR_LEN..] == inner
  {
    ReturnedLike(f, inner);
    ReturnedAddresses(f, inner);
    TunnelLike(f, Returned(f, inner));
    assert IsUdp(f);
    StillUdp(Returned(f, inner));
  }

  lemma {:induction false} MaskedByZero(a: seq<Byte>)
    ensures Masked(a, Zeros(|a|)) == Zeros(|a|)
  {
    if a != [] {
      MaskedByZero(a[1..]);
      assert Zeros(|a|)[1..] == Zeros(|a[1..]|);
    }
  }

  lemma AnyOriginAllows(saddr: seq<Byte>)
    requires |saddr| == 4
    ensures Allows(ANY_ORIGIN, saddr)
  {
    MaskedByZero(saddr);
  }

  /**
   The whole way round: a reply of the same family, parseable and within the size limit, comes out of decap
   for the same endpoint, delivered behind a new Ethernet header and otherwise untouched.
   */
  lemma ReturnedIsDelivered(cfg: Config, endpoints: map<nat, Info>, f: seq<Byte>, inner: seq<Byte>)
    requires Decide(cfg, endpoints, f).Deliver?
    requires Parse(Family(BE16(f, PROTO_TYPE)).value, inner).Some? && |inner| <= cfg.maxInner
    ensures var d := Decide(cfg.(origin := ANY_ORIGIN), endpoints, Returned(f, inner));
            && d.Deliver? && d.vpce == Decide(cfg, endpoints, f).vpce
            && d.ifindex == Decide(cfg, endpoints, f).ifindex
            && d.out[ETH_LEN..] == inner
  {
    ReturnedPasses(cfg.origin, BE64(f, VPCE), f, inner);
    DeliveredIfParsed(cfg.(origin := ANY_ORIGIN), endpoints, BE64(f, VPCE), Returned(f, inner));
  }

  lemma ReturnedPasses(origin: Origin, v: nat, f: seq<Byte>, inner: seq<Byte>)
    requires CheckOuter(f, origin) == ForEndpoint(v)
    ensures var g := Returned(f, inner);
            && CheckOuter(g, ANY_ORIGIN) == ForEndpoint(v)
            && BE16(g, PROTO_TYPE) == BE16(f, PROTO_TYPE) && g[HDR_LEN..] == inner
  {
    ReturnedIsGwlb(f, origin, inner, ANY_ORIGIN);
    AnyOriginAllows(f[DADDR..DADDR + 4]);
  }

  lemma DeliveredIfParsed(cfg: Config, endpoints: map<nat, Info>, v: nat, g: seq<Byte>)
    requires CheckOuter(g, cfg.origin) == ForEndpoint(v) && v in endpoints
    requires |g| - HDR_LEN <= cfg.maxInner
    requires Family(BE16(g, PROTO_TYPE)).Some?
    requires Parse(Family(BE16(g, PROTO_TYPE)).value, g[HDR_LEN..]).Some?
    ensures var d := Decide(cfg, endpoints, g);
            d.Deliver? && d.vpce == v && d.ifindex == endpoints[v].ifindex && d.out[ETH_LEN..] == g[HDR_LEN..]
  {
    var d := DecideFor(cfg, v, endpoints[v], g);
    assert d.out == (endpoints[v].dst + endpoints[v].src + g[PROTO_TYPE..PROTO_TYPE + 2]) + g[HDR_LEN..];
  }
}
