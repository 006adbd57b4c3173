/**
 What decap decides about one frame from the uplink (bpf/decap/_decap.c), before it touches any map but
 vpce_to_ifindex.
 */
module DecapRules {
  import opened Bytes
  import opened InnerPacket
  import opened OuterHeader
  import opened Programs

  const GENEVE_PORT := 6081
  const AWS_CLASS := 0x0108

  /** One GWLB option at `pos`: class, type and length must match exactly, not just fit. */
  predicate IsGwlbOpt(f: seq<Byte>, pos: nat, kind: Byte, len: nat) {
    && pos + 4 <= |f|
    && BE16(f, pos) == AWS_CLASS && f[pos + 2] == kind && f[pos + 3] % 32 * 4 == len
    && pos + 4 + len <= |f|
  }

  /** The verdict of the outer headers alone. */
  datatype Outer = NotForUs | NotGeneve | OriginRefused | Malformed | ForEndpoint(vpce: nat)

  /** An unfragmented or first-fragment UDP datagram without IP options: whatever else goes to the kernel. */
  predicate IsUdp(f: seq<Byte>) {
    && |f| >= 42 && BE16(f, 12) == IPV4_TYPE
    && f[14] % 16 == 5 && f[23] == UDP && BE16(f, FRAG_OFF) % 0x2000 == 0
  }

  /** A GENEVE header with version 0, no VNI and exactly the three GWLB options, the attachment ID zero. */
  predicate IsGwlbTunnel(f: seq<Byte>) {
    && |f| >= HDR_LEN
    && f[42] / 64 == 0 && f[42] % 64 * 4 == 32 && f[46] == f[47] == f[48] == 0
    && IsGwlbOpt(f, 50, 1, 8)
    && IsGwlbOpt(f, 62, 2, 8) && BE64(f, 66) == 0
    && IsGwlbOpt(f, 74, 3, 4)
  }

  function CheckOuter(f: seq<Byte>, origin: Origin): (o: Outer)
    ensures o.ForEndpoint? ==> |f| >= HDR_LEN
  {
    if !IsUdp(f) then NotForUs
    else if BE16(f, 36) != GENEVE_PORT then NotGeneve
    else if !Allows(origin, f[SADDR..DADDR]) then OriginRefused
    else if BE16(f, FRAG_OFF) / 0x2000 % 2 == 1 || !IsGwlbTunnel(f) then Malformed
    else ForEndpoint(BE64(f, VPCE))
  }

  /** The inner family a GENEVE protocol type names. */
  function Family(etherType: nat): Option<bool> {
    if etherType == IPV4_TYPE then Some(false)
    else if etherType == IPV6_TYPE then Some(true)
    else None
  }

  /** Whether decap caches the outer header of a packet it delivers. */
  predicate Caches(isV6: bool, t: Tuple) {
    !t.frag.Later? && !QuotesPacket(isV6, t)
  }

  /**
   Settle: the run ends with a verdict and these counters, all on interface `ifindex`.
   Deliver: the inner packet goes out `ifindex` as `out`, after `store`, if any, got the header.
   */
  datatype Decision =
    | Settle(verdict: Verdict, ifindex: nat, bumps: seq<Bump>)
    | Deliver(vpce: nat, ifindex: nat, store: Option<FlowKey>, out: seq<Byte>)

  function Drop(ifindex: nat, counter: Counter, f: seq<Byte>): (d: Decision)
    ensures d.Settle? && OnePair(d.bumps, ifindex, |f|)
  {
    Settle(XdpDrop, ifindex, Pair(ifindex, counter, |f|))
  }

  /** Delivery is to the endpoint the frame's own first option names, and for IPv4 or IPv6 only. */
  function Decide(cfg: Config, endpoints: map<nat, Info>, f: seq<Byte>): (d: Decision)
    ensures d.Deliver? ==>
              && CheckOuter(f, cfg.origin) == ForEndpoint(d.vpce)
              && |f| >= HDR_LEN && d.vpce == BE64(f, VPCE)
              && d.vpce in endpoints && d == DecideFor(cfg, d.vpce, endpoints[d.vpce], f)
              && Family(BE16(f, PROTO_TYPE)).Some?
    ensures d.Settle? ==> OnePair(d.bumps, d.ifindex, |f|)
    ensures d.Settle? ==> forall b :: b in d.bumps ==> !b.row.counter.EncapOk? && b.row.ifindex == d.ifindex
  {
    match CheckOuter(f, cfg.origin)
    case NotForUs => Settle(XdpPass, cfg.uplink, [])
    case NotGeneve => Settle(XdpPass, cfg.uplink, Pair(cfg.uplink, DecapPassNotGeneve, |f|))
    case OriginRefused => Drop(cfg.uplink, DecapDropOrigin, f)
    case Malformed => Drop(cfg.uplink, DecapDropMalformed, f)
    case ForEndpoint(v) =>
      if v !in endpoints then Drop(cfg.uplink, DecapDropUnknownEndpoint, f)
      else DecideFor(cfg, v, endpoints[v], f)
  }

  /** The key decap stores a frame's header under, if it caches it and the frame goes out `ifindex`. */
  function StoreKey(ifindex: nat, f: seq<Byte>): (k: Option<FlowKey>)
    requires |f| >= HDR_LEN
    ensures k.Some? ==> k.value.ifindex == ifindex && Family(BE16(f, PROTO_TYPE)) == Some(k.value.isV6)
  {
    match Family(BE16(f, PROTO_TYPE))
    case None => None
    case Some(isV6) =>
      match Parse(isV6, f[HDR_LEN..])
      case None => None
      case Some(p) => if Caches(isV6, p.t) then Some(ForwardKey(ifindex, isV6, p.t)) else None
  }

  /** From the endpoint lookup on. */
  function DecideFor(cfg: Config, v: nat, info: Info, f: seq<Byte>): (d: Decision)
    requires |f| >= HDR_LEN
    ensures d.ifindex == info.ifindex
    ensures d.Settle? ==> OnePair(d.bumps, d.ifindex, |f|) && forall b :: b in d.bumps ==> !b.row.counter.EncapOk?
    ensures d.Deliver? ==> d.vpce == v && Family(BE16(f, PROTO_TYPE)).Some? && d.store == StoreKey(info.ifindex, f)
  {
    if |f| - HDR_LEN > cfg.maxInner then Drop(info.ifindex, DecapDropOversize, f)
    else
      match Family(BE16(f, PROTO_TYPE))
      case None => Drop(info.ifindex, DecapDropMalformed, f)
      case Some(isV6) =>
        match Parse(isV6, f[HDR_LEN..])
        case None => Drop(info.ifindex, DecapDropMalformed, f)
        case Some(p) =>
          Deliver(v, info.ifindex, StoreKey(info.ifindex, f),
                  info.dst + info.src + f[PROTO_TYPE..PROTO_TYPE + 2] + f[HDR_LEN..])
  }
}
