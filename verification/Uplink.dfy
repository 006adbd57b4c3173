/**
 What setup and add derive from the uplink and from --allowed-origin-cidr: the origin filter is prefix
 membership, and the size limits keep every length exact.
 */
module Uplink {
  import opened Bytes
  import opened Checksum
  import opened OuterHeader
  import opened Programs
  import opened DecapRules
  import opened EncapRules
  import opened Positional
  import opened Masks
  import opened RoundTrip
  import opened Machine
  import opened Isolation

  // ---- The origin filter ----

  /** netip.Prefix, as ParsePrefix returns it. */
  datatype Prefix = Prefix4(addr: Address, bits: nat) | Prefix6(bits: nat)

  /** How many addresses share a prefix. */
  function HostSize(bits: nat): (n: nat)
    requires bits <= 32
    ensures n > 0
  {
    PowerPositive(2, 32 - bits);
    Power(2, 32 - bits)
  }

  lemma {:induction false} PowerPositive(base: nat, n: nat)
    requires base > 0
    ensures Power(base, n) > 0
  {
    if n > 0 {
      PowerPositive(base, n - 1);
    }
  }

  function PutBE32(w: nat): (s: Address)
    requires w < 0x1_0000_0000
    ensures BE32(s, 0) == w
  {
    PutBE16(w / 0x1_0000) + PutBE16(w % 0x1_0000)
  }

  /** netip.Prefix.Masked: the host bits zeroed. */
  function MaskedPrefix(a: Address, bits: nat): Address
    requires bits <= 32
  {
    var x, n := BE32(a, 0), HostSize(bits);
    Floor(x, n);
    PutBE32(x / n * n)
  }

  lemma Floor(x: nat, n: nat)
    requires n > 0
    ensures x / n * n <= x
  {
  }

  lemma SameFloor(x: nat, y: nat, n: nat)
    requires n > 0
    ensures x / n * n == y / n * n <==> x / n == y / n
  {
    Carry(x / n, 0, n);
    Carry(y / n, 0, n);
  }

  /** ParseIPv4CIDR, given what netip.ParsePrefix makes of the string. */
  function ParseIPv4CIDR(parsed: Option<Prefix>): Option<Prefix>
    requires parsed.Some? ==> parsed.value.bits <= if parsed.value.Prefix4? then 32 else 128
  {
    match parsed
    case None => None
    case Some(Prefix6(_)) => None
    case Some(Prefix4(a, bits)) => Some(Prefix4(MaskedPrefix(a, bits), bits))
  }

  /** The mask word Load computes: an all-ones word shifted left by 32 - bits, or zero. */
  function MaskBits(bits: nat): (m: nat)
    requires bits <= 32
    ensures m < 0x1_0000_0000
  {
    if bits > 0 then 0xFFFF_FFFF * HostSize(bits) % 0x1_0000_0000 else 0
  }

  function OriginOf(p: Prefix): Origin
    requires p.Prefix4? && p.bits <= 32
  {
    Origin(p.addr, PutBE32(MaskBits(p.bits)))
  }

  lemma MaskWord(bits: nat)
    requires bits <= 32
    ensures HostSize(bits) <= 0x1_0000_0000 && MaskBits(bits) == 0x1_0000_0000 - HostSize(bits)
  {
    var h := HostSize(bits);
    PowersOf2();
    PowerGrows(32 - bits, 32);
    if bits > 0 {
      Carry(h - 1, 0x1_0000_0000 - h, 0x1_0000_0000);
    }
  }

  lemma {:induction false} PowerGrows(m: nat, n: nat)
    requires m <= n
    ensures Power(2, m) <= Power(2, n)
  {
    if m < n {
      PowerGrows(m, n - 1);
    }
  }

  /** What the mask leaves of a word: its prefix over zero host bits. */
  lemma MaskClearsHost(x: nat, bits: nat)
    requires bits <= 32 && x < 0x1_0000_0000
    ensures And(x, MaskBits(bits)) == x / HostSize(bits) * HostSize(bits)
  {
    var m, n := 32 - bits, HostSize(bits);
    var d, r := x / n, x % n;
    assert x == d * n + r;
    MaskWord(bits);
    ClearLow(d, r, m);
  }

  lemma ClearLow(d: nat, r: nat, m: nat)
    requires m <= 32 && r < Power(2, m) <= 0x1_0000_0000 && d * Power(2, m) + r < 0x1_0000_0000
    ensures And(d * Power(2, m) + r, 0x1_0000_0000 - Power(2, m)) == d * Power(2, m)
  {
    var p, q := Power(2, m), Power(2, 32 - m);
    assert q * p == 0x1_0000_0000 by {
      PowersOf2();
      PowersAdd(32 - m, m);
    }
    HighPart(d, r, q, p);
    assert Shifted(d, m) == d * p by {
      ShiftedIsTimes(d, m);
    }
    assert Shifted(q - 1, m) == 0x1_0000_0000 - p by {
      ShiftedIsTimes(q - 1, m);
    }
    AndHighBits(d, r, 32 - m, m);
  }

  lemma HighPart(d: nat, r: nat, q: nat, p: nat)
    requires q * p == 0x1_0000_0000 && d * p + r < 0x1_0000_0000
    ensures q > 0 && d < q && (q - 1) * p == 0x1_0000_0000 - p
  {
  }

  /**
   The origin filter is prefix membership: for every CIDR accepted, decap lets a source through exactly when its
   top `bits` bits are those of the CIDR as given.
   */
  lemma FilterIsPrefix(a: Address, bits: nat, saddr: Address)
    requires bits <= 32
    ensures Allows(OriginOf(ParseIPv4CIDR(Some(Prefix4(a, bits))).value), saddr)
       <==> BE32(saddr, 0) / HostSize(bits) == BE32(a, 0) / HostSize(bits)
  {
    var o := OriginOf(ParseIPv4CIDR(Some(Prefix4(a, bits))).value);
    MaskedIsAnd(saddr, o.mask);
    MaskClearsHost(BE32(saddr, 0), bits);
    SameNetworkOrder(Masked(saddr, o.mask), o.addr);
    SameFloor(BE32(saddr, 0), BE32(a, 0), HostSize(bits));
  }

  /** A /0 lets every source through, as no filter does. */
  lemma EveryOrigin(a: Address, saddr: Address)
    ensures Allows(OriginOf(ParseIPv4CIDR(Some(Prefix4(a, 0))).value), saddr) && Allows(ANY_ORIGIN, saddr)
  {
    FilterIsPrefix(a, 0, saddr);
    AllHosts(BE32(saddr, 0));
    AllHosts(BE32(a, 0));
    AnyOriginAllows(saddr);
  }

  lemma AllHosts(x: nat)
    requires x < 0x1_0000_0000
    ensures x / HostSize(0) == 0
  {
    PowersOf2();
  }

  // ---- Sizes ----

  const GWLB_MTU := 8500
  const MIN_INNER_LEN := 68

  /** MaxInnerLen. */
  function MaxInnerLen(uplinkMTU: int): (n: Option<nat>)
    ensures n.Some? <==> uplinkMTU >= 136
    ensures n.Some? ==> n.value + OVERHEAD == uplinkMTU
  {
    if uplinkMTU - OVERHEAD < MIN_INNER_LEN then None else Some(uplinkMTU - OVERHEAD)
  }

  /** The MTU add gives a veth pair when asked for `mtu`. */
  function VethMTU(mtu: int, maxMTU: nat): Option<nat> {
    if mtu == 0 then Some(if GWLB_MTU < maxMTU then GWLB_MTU else maxMTU)
    else if mtu < 0 || mtu > maxMTU then None
    else Some(mtu)
  }

  /** encap.Load and setup give both programs the limit of one uplink. */
  predicate SizedFor(cfg: Config, uplinkMTU: int) {
    MaxInnerLen(uplinkMTU) == Some(cfg.maxInner)
  }

  /** A frame's IP length is within the uplink's MTU, and its lengths and header checksum say the truth. */
  predicate FitsUplink(g: seq<Byte>, uplinkMTU: int) {
    && |g| >= HDR_LEN && |g| - ETH_LEN <= uplinkMTU
    && BE16(g, TOT_LEN) == |g| - ETH_LEN
    && BE16(g, UDP_LEN) == |g| - ETH_LEN - 20
    && Verifies(g[ETH_LEN..ETH_LEN + 20])
  }

  /** What encap writes is exact whenever 16 bits can hold it, and only then. */
  predicate ExactWithin16(g: seq<Byte>) {
    && |g| >= HDR_LEN && Verifies(g[ETH_LEN..ETH_LEN + 20])
    && (BE16(g, TOT_LEN) == |g| - ETH_LEN <==> |g| - ETH_LEN <= 0xFFFF)
    && (|g| - ETH_LEN <= 0xFFFF ==> BE16(g, UDP_LEN) == |g| - ETH_LEN - 20)
  }

  lemma ExactFields(r: Header, inner: seq<Byte>)
    requires FieldsFor(r, |inner|)
    ensures ExactWithin16(r + inner)
  {
    assert BE16(r + inner, TOT_LEN) == BE16(r, TOT_LEN) && BE16(r + inner, UDP_LEN) == BE16(r, UDP_LEN);
    assert (r + inner)[ETH_LEN..ETH_LEN + 20] == r[ETH_LEN..ETH_LEN + 20];
  }

  /** The header checksum of every frame verifies; its total length is exact if and only if it fits in 16 bits. */
  lemma LengthsExact(h: Header, inner: seq<Byte>)
    ensures ExactWithin16(Encapsulated(h, inner))
  {
    ExactFields(Replay(h, |inner|), inner);
  }

  /** The size limit is the right one: encap's frame fits the uplink if and only if the reply is within it. */
  lemma LimitIsTight(h: Header, inner: seq<Byte>, uplinkMTU: int)
    requires MaxInnerLen(uplinkMTU).Some? && uplinkMTU <= 0xFFFF
    ensures FitsUplink(Encapsulated(h, inner), uplinkMTU) <==> |inner| <= MaxInnerLen(uplinkMTU).value
  {
    LengthsExact(h, inner);
  }

  /** Every frame ever put on the uplink fits it. */
  lemma FramesFit(cfg: Config, uplinkMTU: int, policy: Policy, evs: seq<Machine.Event>)
    requires SizedFor(cfg, uplinkMTU) && uplinkMTU <= 0xFFFF
    requires AllOrdered(Init(cfg, policy), evs) && Exec(Init(cfg, policy), evs).Some?
    ensures var s := Exec(Init(cfg, policy), evs).value;
            forall n :: 0 <= n < |s.sent| ==> FitsUplink(s.sent[n].frame, uplinkMTU)
  {
    var s := Exec(Init(cfg, policy), evs).value;
    RunsKeepInv(Init(cfg, policy), evs);
    SettingsKept(Init(cfg, policy), evs);
    forall n | 0 <= n < |s.sent|
      ensures FitsUplink(s.sent[n].frame, uplinkMTU)
    {
      SentFits(s, s.sent[n], uplinkMTU);
    }
  }

  lemma SentFits(s: State, x: Sent, uplinkMTU: int)
    requires SizedFor(s.cfg, uplinkMTU) && uplinkMTU <= 0xFFFF && Right(s.cfg, s.accepted, s.replies, x)
    ensures FitsUplink(x.frame, uplinkMTU)
  {
    var f :| (x.vpce, f) in s.accepted && |f| >= HDR_LEN && Asked(s.cfg, s.replies, x.vpce, x.ifindex, x.reply, f)
          && x.frame == Returned(f, x.reply[ETH_LEN..]);
    ReturnedFits(f, x.reply[ETH_LEN..], uplinkMTU);
  }

  lemma ReturnedFits(f: seq<Byte>, inner: seq<Byte>, uplinkMTU: int)
    requires |f| >= HDR_LEN && |inner| + OVERHEAD <= uplinkMTU <= 0xFFFF
    ensures FitsUplink(Returned(f, inner), uplinkMTU)
  {
    LengthsExact(ReplyForm(f[..HDR_LEN]), inner);
  }

  /**
   A reply the veth's MTU let through is never refused as oversize, whatever MTU add chose, while the uplink's is
   what it was at setup; and what encap makes of it, whatever header it finds, fits.
   */
  lemma VethRepliesFit(cfg: Config, uplinkMTU: int, asked: int, i: nat, r: seq<Byte>, h: Header, headroom: nat)
    requires SizedFor(cfg, uplinkMTU) && uplinkMTU <= 0xFFFF && VethMTU(asked, cfg.maxInner).Some?
    requires ETH_LEN <= |r| <= ETH_LEN + VethMTU(asked, cfg.maxInner).value
    ensures Classify(cfg, i, r) != Refuse(EncapDropOversize)
    ensures var e := EncapRules.Finish(i, r, Some(h), headroom); e.out.Some? ==> FitsUplink(e.out.value, uplinkMTU)
  {
    LimitIsTight(h, r[ETH_LEN..], uplinkMTU);
  }

  /** Where the programs subtract, the frame has at least the octets subtracted: the difference is the true one. */
  lemma SubtractionsExact(cfg: Config, f: seq<Byte>, r: seq<Byte>)
    requires |f| < 0x1_0000_0000 && |r| < 0x1_0000_0000
    ensures CheckOuter(f, cfg.origin).ForEndpoint? ==> Sub32(|f|, HDR_LEN) == |f| - HDR_LEN
    ensures |r| >= ETH_LEN ==> Sub32(|r|, ETH_LEN) == |r| - ETH_LEN
    ensures Sub32(|r|, ETH_LEN) > |r| <==> |r| < ETH_LEN
  {
  }
}
