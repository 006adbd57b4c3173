/**
 The part of bpf/geneve_defs.h both XDP programs share: the inner packet parser and the flow key.

 A packet is the octets from its IP header up to data_end. Every pointer of the source is an offset
 into it, and a bounds check against data_end is a comparison with its length. Multi-octet fields that
 the source copies without converting (addresses, ports) keep the value a little-endian load gives.
 */
module InnerPacket {
  import opened Bytes

  const HOPOPTS: Byte := 0
  const ICMP: Byte := 1
  const TCP: Byte := 6
  const UDP: Byte := 17
  const FRAGMENT: Byte := 44
  const ICMPV6: Byte := 58

  /** FRAG_NONE, FRAG_FIRST and FRAG_LATER. */
  datatype Frag = Whole | First | Later

  /** struct inner_tuple. Addresses are the 16 octets of union flow_addr. */
  datatype Tuple = Tuple(
    saddr: seq<Byte>,
    daddr: seq<Byte>,
    fragId: nat,
    sport: nat,
    dport: nat,
    proto: Byte,
    frag: Frag,
    hasL4: bool,
    icmpType: Byte)

  /** What a parse yields: the tuple and the offset of the L4 header (which may lie past the end). */
  datatype Parsed = Parsed(t: Tuple, l4: nat)

  /** The memset(t, 0) every parse starts with. */
  const BLANK := Tuple(Zeros(16), Zeros(16), 0, 0, 0, 0, Whole, false, 0)

  /** An IPv4 address in the union: its four octets, the other twelve zero. */
  function V4Addr(p: seq<Byte>, i: nat): (a: seq<Byte>)
    requires i + 4 <= |p|
    ensures |a| == 16
  {
    p[i..i + 4] + Zeros(12)
  }

  predicate ReadsL4(proto: Byte) {
    proto == TCP || proto == UDP || proto == ICMP || proto == ICMPV6
  }

  predicate IsEcho(proto: Byte, icmpType: Byte) {
    (proto == ICMP && (icmpType == 8 || icmpType == 0)) ||
    (proto == ICMPV6 && (icmpType == 128 || icmpType == 129))
  }

  /** parse_l4: None for a protocol it reads that is cut below eight octets. */
  function ParseL4(t: Tuple, p: seq<Byte>, off: nat): (r: Option<Tuple>)
    ensures r.Some? ==> r.value.(sport := t.sport, dport := t.dport, hasL4 := t.hasL4, icmpType := t.icmpType) == t
    ensures r.None? <==> ReadsL4(t.proto) && |p| < off + 8
  {
    if !ReadsL4(t.proto) then Some(t)
    else if |p| < off + 8 then None
    else if t.proto == TCP || t.proto == UDP then
      Some(t.(hasL4 := true, sport := LE16(p, off), dport := LE16(p, off + 2)))
    else if IsEcho(t.proto, p[off]) then
      Some(t.(hasL4 := true, icmpType := p[off], sport := LE16(p, off + 4), dport := LE16(p, off + 4)))
    else
      Some(t.(hasL4 := true, icmpType := p[off]))
  }

  /** The fragment state an IPv4 header's flags and offset (MF 0x2000, offset 0x1FFF) describe. */
  function Frag4(fragOff: nat): Frag {
    if fragOff % 0x2000 != 0 then Later
    else if fragOff / 0x2000 % 2 == 1 then First
    else Whole
  }

  /** The same for an IPv6 fragment header (M 0x0001, offset 0xFFF8). */
  function Frag6(fragOff: nat): Frag {
    if fragOff / 8 != 0 then Later
    else if fragOff % 2 == 1 then First
    else Whole
  }

  function HeaderLen4(p: seq<Byte>): nat
    requires |p| > 0
  {
    p[0] % 16 * 4
  }

  /** The tuple of an IPv4 header, before its L4 header is looked at. */
  function Header4(p: seq<Byte>): (t: Tuple)
    requires |p| >= 20
  {
    var frag := Frag4(BE16(p, 6));
    BLANK.(saddr := V4Addr(p, 12), daddr := V4Addr(p, 16), proto := p[9], frag := frag,
           fragId := if frag.Whole? then 0 else BE16(p, 4))
  }

  function ParseIPv4(p: seq<Byte>): Option<Parsed> {
    if |p| < 20 || p[0] % 16 < 5 then None
    else Finish(Header4(p), p, HeaderLen4(p))
  }

  /** The parsers' common end: a later fragment has no L4 header to read. */
  function Finish(t: Tuple, p: seq<Byte>, l4: nat): Option<Parsed> {
    if t.frag.Later? then Some(Parsed(t, l4))
    else
      match ParseL4(t, p, l4)
      case None => None
      case Some(u) => Some(Parsed(u, l4))
  }

  /** Where a chain of IPv6 headers has been followed to: the next protocol and its offset. */
  datatype Chain = Chain(proto: Byte, next: nat)

  /** Past at most one hop-by-hop options header. */
  function PastHopByHop(p: seq<Byte>): (c: Option<Chain>)
    requires |p| >= 40
    ensures c.Some? ==> c.value.next >= 40
  {
    if p[6] != HOPOPTS then Some(Chain(p[6], 40))
    else if |p| < 42 then None
    else Some(Chain(p[40], 48 + 8 * (p[41] as int)))
  }

  /** Past at most one fragment header, whose state and identification go into the tuple. */
  function PastFragment(p: seq<Byte>, c: Chain): Option<Parsed>
    requires |p| >= 40
  {
    var t := BLANK.(saddr := p[8..24], daddr := p[24..40]);
    if c.proto != FRAGMENT then Some(Parsed(t.(proto := c.proto), c.next))
    else if |p| < c.next + 8 then None
    else
      var frag := Frag6(BE16(p, c.next + 2));
      Some(Parsed(t.(proto := p[c.next], frag := frag, fragId := if frag.Whole? then 0 else BE32(p, c.next + 4)),
                  c.next + 8))
  }

  function ParseIPv6(p: seq<Byte>): Option<Parsed> {
    if |p| < 40 then None
    else
      match PastHopByHop(p)
      case None => None
      case Some(c) =>
        match PastFragment(p, c)
        case None => None
        case Some(h) => Finish(h.t, p, h.l4)
  }

  predicate TupleFits(t: Tuple) {
    |t.saddr| == 16 && |t.daddr| == 16 && t.sport < 0x1_0000 && t.dport < 0x1_0000 && t.fragId < 0x1_0000_0000
  }

  function Parse(isV6: bool, p: seq<Byte>): (r: Option<Parsed>)
    ensures r.Some? ==> TupleFits(r.value.t)
  {
    if isV6 then ParseIPv6(p) else ParseIPv4(p)
  }

  /** icmp_is_quoting_error. */
  predicate QuotesPacket(isV6: bool, t: Tuple) {
    t.hasL4 &&
    if isV6 then t.proto == ICMPV6 && 1 <= t.icmpType <= 4
    else t.proto == ICMP && (t.icmpType == 3 || t.icmpType == 11 || t.icmpType == 12)
  }

  /** icmpv6_is_link_local_control. */
  predicate LinkLocalControl(t: Tuple) {
    t.hasL4 && t.proto == ICMPV6 && 130 <= t.icmpType <= 143
  }

  // ---- Flow keys ----

  /** struct flow_key, its two padding octets always zero. */
  datatype FlowKey = FlowKey(
    ifindex: nat, saddr: seq<Byte>, daddr: seq<Byte>, sport: nat, dport: nat, proto: Byte, isV6: bool)

  predicate KeyFits(k: FlowKey) {
    k.ifindex < 0x1_0000_0000 && |k.saddr| == 16 && |k.daddr| == 16 && k.sport < 0x1_0000 && k.dport < 0x1_0000
  }

  /** The octets an IPv4 key leaves of a union: the first four, over zeroes. */
  function KeyAddr(isV6: bool, a: seq<Byte>): (r: seq<Byte>)
    requires |a| == 16
    ensures |r| == 16
    ensures isV6 || a[4..] == Zeros(12) ==> r == a
  {
    if isV6 then a else a[..4] + Zeros(12)
  }

  /** build_flow_key. */
  function BuildFlowKey(ifindex: nat, isV6: bool, saddr: seq<Byte>, daddr: seq<Byte>,
                        sport: nat, dport: nat, proto: Byte): (k: FlowKey)
    requires |saddr| == 16 && |daddr| == 16
  {
    FlowKey(ifindex, KeyAddr(isV6, saddr), KeyAddr(isV6, daddr), sport, dport, proto, isV6)
  }

  /** The 44 octets the kernel hashes and compares. */
  function KeyBytes(k: FlowKey): (b: seq<Byte>)
    requires KeyFits(k)
    ensures |b| == 44
  {
    PutLE32(k.ifindex) + k.saddr + k.daddr + PutLE16(k.sport) + PutLE16(k.dport) +
    [k.proto, if k.isV6 then 1 else 0, 0, 0]
  }

  /** The key decap stores a packet under, and an ICMP error looks its quoted packet up by. */
  function ForwardKey(ifindex: nat, isV6: bool, t: Tuple): FlowKey
    requires |t.saddr| == 16 && |t.daddr| == 16
  {
    BuildFlowKey(ifindex, isV6, t.saddr, t.daddr, t.sport, t.dport, t.proto)
  }

  /** The key a reply is looked up by: literal for a transparent appliance, else swapped. */
  function ReplyKey(ifindex: nat, isV6: bool, transparent: bool, t: Tuple): FlowKey
    requires |t.saddr| == 16 && |t.daddr| == 16
  {
    if transparent then ForwardKey(ifindex, isV6, t)
    else BuildFlowKey(ifindex, isV6, t.daddr, t.saddr, t.dport, t.sport, t.proto)
  }

  /** frag_key: the identification, split high and low, in place of the ports. */
  function FragKey(ifindex: nat, isV6: bool, t: Tuple): FlowKey
    requires |t.saddr| == 16 && |t.daddr| == 16 && t.fragId < 0x1_0000_0000
  {
    BuildFlowKey(ifindex, isV6, t.saddr, t.daddr, t.fragId / 0x1_0000, t.fragId % 0x1_0000, t.proto)
  }

  // ---- The parser as the programs run it ----

  /** struct inner_tuple as the parsers fill it in, field by field. */
  class InnerTuple {
    var saddr: seq<Byte>
    var daddr: seq<Byte>
    var fragId: nat
    var sport: nat
    var dport: nat
    var proto: Byte
    var frag: Frag
    var hasL4: bool
    var icmpType: Byte

    function Value(): Tuple
      reads this
    {
      Tuple(saddr, daddr, fragId, sport, dport, proto, frag, hasL4, icmpType)
    }

    constructor ()
      ensures Value() == BLANK
    {
      saddr, daddr, fragId, sport, dport := Zeros(16), Zeros(16), 0, 0, 0;
      proto, frag, hasL4, icmpType := 0, Whole, false, 0;
    }

    method Clear()
      modifies this
      ensures Value() == BLANK
    {
      saddr, daddr, fragId, sport, dport := Zeros(16), Zeros(16), 0, 0, 0;
      proto, frag, hasL4, icmpType := 0, Whole, false, 0;
    }

    method ReadL4(p: seq<Byte>, l4: nat) returns (ok: bool)
      modifies this
      ensures ok <==> ParseL4(old(Value()), p, l4).Some?
      ensures ok ==> Value() == ParseL4(old(Value()), p, l4).value
    {
      if proto != TCP && proto != UDP && proto != ICMP && proto != ICMPV6 {
        return true;
      }
      if |p| < l4 + 8 {
        return false;
      }
      hasL4 := true;
      if proto == TCP || proto == UDP {
        sport := LE16(p, l4);
        dport := LE16(p, l4 + 2);
        return true;
      }
      icmpType := p[l4];
      if (proto == ICMP && (p[l4] == 8 || p[l4] == 0)) || (proto == ICMPV6 && (p[l4] == 128 || p[l4] == 129)) {
        sport := LE16(p, l4 + 4);
        dport := LE16(p, l4 + 4);
      }
      return true;
    }

    /** parse_ipv4. */
    method ReadIPv4(p: seq<Byte>) returns (ok: bool, l4: nat)
      modifies this
      ensures ok <==> ParseIPv4(p).Some?
      ensures ok ==> ParseIPv4(p) == Some(Parsed(Value(), l4))
    {
      Clear();
      l4 := 0;
      if |p| < 20 || p[0] % 16 < 5 {
        return false, l4;
      }
      saddr := V4Addr(p, 12);
      daddr := V4Addr(p, 16);
      proto := p[9];
      l4 := p[0] % 16 * 4;
      var fragOff := BE16(p, 6);
      if fragOff % 0x4000 != 0 {
        frag := if fragOff % 0x2000 != 0 then Later else First;
        fragId := BE16(p, 4);
      }
      if frag == Later {
        return true, l4;
      }
      ok := ReadL4(p, l4);
    }

    /** parse_ipv6. */
    method ReadIPv6(p: seq<Byte>) returns (ok: bool, l4: nat)
      modifies this
      ensures ok <==> ParseIPv6(p).Some?
      ensures ok ==> ParseIPv6(p) == Some(Parsed(Value(), l4))
    {
      Clear();
      l4 := 0;
      if |p| < 40 {
        return false, l4;
      }
      saddr := p[8..24];
      daddr := p[24..40];
      proto := p[6];
      var next := 40;
      if proto == HOPOPTS {
        if |p| < next + 2 {
          return false, l4;
        }
        proto := p[next];
        next := next + (p[next + 1] as int + 1) * 8;
      }
      if proto == FRAGMENT {
        if |p| < next + 8 {
          return false, l4;
        }
        proto := p[next];
        var fragOff := BE16(p, next + 2);
        if fragOff % 2 == 1 || fragOff / 8 != 0 {
          frag := if fragOff / 8 != 0 then Later else First;
          fragId := BE32(p, next + 4);
        }
        next := next + 8;
      }
      l4 := next;
      if frag == Later {
        return true, l4;
      }
      ok := ReadL4(p, l4);
    }

    /** The family dispatch both programs parse with. */
    method Read(isV6: bool, p: seq<Byte>) returns (ok: bool, l4: nat)
      modifies this
      ensures ok <==> Parse(isV6, p).Some?
      ensures ok ==> Parse(isV6, p) == Some(Parsed(Value(), l4))
    {
      if isV6 {
        ok, l4 := ReadIPv6(p);
      } else {
        ok, l4 := ReadIPv4(p);
      }
    }
  }
}
