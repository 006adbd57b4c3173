/** decap and encap as they run on one packet: a buffer whose head moves, the shared maps, one CPU's counters. */
module XdpPrograms {
  import opened Bytes
  import opened Checksum
  import opened InnerPacket
  import opened OuterHeader
  import opened Programs
  import opened DecapRules
  import Rules = EncapRules

  /** struct xdp_md: the packet is the part of the buffer from `head` to `end`. */
  class Packet {
    const buf: array<Byte>
    var head: nat
    const end: nat

    ghost predicate Valid()
      reads this
    {
      head <= end <= buf.Length && end < 0x1_0000_0000
    }

    /** The octets between data and data_end. */
    function Octets(): (f: seq<Byte>)
      requires Valid()
      reads this, buf
      ensures |f| == end - head
    {
      buf[head..end]
    }

    function At(i: nat): (b: Byte)
      requires Valid() && head + i < end
      reads this, buf
      ensures b == Octets()[i]
    {
      buf[head + i]
    }

    constructor (frame: seq<Byte>, headroom: nat)
      requires |frame| + headroom < 0x1_0000_0000
      ensures Valid() && fresh(buf)
      ensures Octets() == frame && head == headroom
    {
      var a := new Byte[headroom + |frame|](i => 0);
      buf, head, end := a, headroom, headroom + |frame|;
      new;
      forall i | 0 <= i < |frame| {
        a[headroom + i] := frame[i];
      }
    }

    /** bpf_xdp_adjust_head: refused past the headroom or within an Ethernet header of the end. */
    method AdjustHead(delta: int) returns (ok: bool)
      requires Valid()
      modifies this`head
      ensures Valid()
      ensures ok <==> 0 <= old(head) + delta && old(head) + delta + ETH_LEN <= end
      ensures head == if ok then old(head) + delta else old(head)
    {
      ok := 0 <= head + delta && head + delta + ETH_LEN <= end;
      if ok {
        head := head + delta;
      }
    }

    /** bpf_xdp_store_bytes, and every write of the programs through a packet pointer. */
    method Store(off: nat, src: seq<Byte>) returns (ok: bool)
      requires Valid()
      modifies buf
      ensures ok <==> head + off + |src| <= end
      ensures Octets() == if ok then Splice(old(Octets()), off, src) else old(Octets())
    {
      ok := head + off + |src| <= end;
      if ok {
        forall i | 0 <= i < |src| {
          buf[head + off + i] := src[i];
        }
        assert Octets() == Splice(old(Octets()), off, src);
      }
    }
  }

  /** parse_gwlb_opt: on a match, where the option's data is and where the next option starts. */
  method ParseGwlbOpt(f: seq<Byte>, pos: nat, kind: Byte, wantLen: nat) returns (data: Option<nat>, next: nat)
    ensures data.Some? <==> IsGwlbOpt(f, pos, kind, wantLen)
    ensures data.Some? ==> data.value == pos + 4 && next == pos + 4 + wantLen
    ensures data.None? ==> next == pos
  {
    data, next := None, pos;
    if |f| < pos + 4 {
      return;
    }
    var optClass, optLen := BE16(f, pos), f[pos + 3] % 32 * 4;
    if optClass != AWS_CLASS || f[pos + 2] != kind || optLen != wantLen {
      return;
    }
    var at := pos + 4;
    if |f| < at + wantLen {
      return;
    }
    data, next := Some(at), at + wantLen;
  }

  /** Two blocks of `n` octets exchanged through copies. */
  method SwapBlocks(cache: array<Byte>, a: nat, b: nat, n: nat)
    requires a + n <= b && b + n <= cache.Length
    modifies cache
    ensures forall i :: 0 <= i < cache.Length ==>
              cache[i] == old(cache[if a <= i < a + n then i - a + b else if b <= i < b + n then i - b + a else i])
  {
    var first, second := cache[a..a + n], cache[b..b + n];
    forall i | 0 <= i < n { cache[a + i] := second[i]; }
    forall i | 0 <= i < n { cache[b + i] := first[i]; }
  }

  /** The rewrite decap makes to its copy of the outer header before it is cached. */
  method TurnRound(cache: array<Byte>)
    requires cache.Length == HDR_LEN
    modifies cache
    ensures cache[..] == ReplyForm(old(cache[..]))
  {
    ghost var turned := ReplyForm(cache[..]);
    SwapBlocks(cache, 0, 6, 6);
    SwapBlocks(cache, SADDR, DADDR, 4);
    cache[TOS] := cache[TOS] / 4 * 4;
    cache[TTL] := REPLY_TTL;
    cache[ID], cache[ID + 1] := 0, 0;
    cache[FRAG_OFF], cache[FRAG_OFF + 1] := 0x40, 0;
    assert forall i :: 0 <= i < HDR_LEN ==> cache[i] == turned[i];
  }

  /** The entry decap leaves behind: the old one if it already holds the same encapsulation. */
  function Published(flow: map<FlowKey, Header>, store: Option<FlowKey>, hdr: Header): map<FlowKey, Header> {
    if store.None? || (store.value in flow && StableEq(flow[store.value], hdr)) then flow
    else flow[store.value := hdr]
  }

  /** The pinned maps both programs share, and the settings they were loaded with. */
  class Datapath {
    const cfg: Config
    const maxRows: nat
    var endpoints: map<nat, Info>
    var flow: map<FlowKey, Header>
    var frag: map<FlowKey, Header>
    var rows: map<RowKey, nat>

    constructor (cfg: Config)
      ensures this.cfg == cfg && endpoints == map[] && flow == map[] && frag == map[] && rows == map[]
    {
      this.cfg := cfg;
      maxRows := 20 * (cfg.maxEndpoints + 1);
      endpoints, flow, frag, rows := map[], map[], map[], map[];
    }

    /** increment_metric. */
    method IncrementMetric(row: RowKey, amount: nat)
      modifies this`rows
      ensures rows == Count(old(rows), maxRows, Bump(row, amount))
    {
      if row !in rows {
        if |rows| < maxRows {
          rows := rows[row := 0];
        }
      }
      if row in rows {
        rows := rows[row := rows[row] + amount];
      }
    }

    /** The two increments of an outcome. */
    method CountPacket(ifindex: nat, counter: Counter, len: nat)
      modifies this`rows
      ensures rows == CountAll(old(rows), maxRows, Pair(ifindex, counter, len))
    {
      IncrementMetric(RowKey(ifindex, counter, false), 1);
      ghost var pair := Pair(ifindex, counter, len);
      assert rows == Count(old(rows), maxRows, pair[0]);
      IncrementMetric(RowKey(ifindex, counter, true), len);
      assert pair[1..] == [pair[1]] && pair[1..][1..] == [];
      calc {
        CountAll(old(rows), maxRows, pair);
        CountAll(Count(old(rows), maxRows, pair[0]), maxRows, [pair[1]]);
        CountAll(Count(Count(old(rows), maxRows, pair[0]), maxRows, pair[1]), maxRows, []);
        rows;
      }
    }

    /** decap's checks of the outer headers, in the order the program makes them. */
    method InspectOuter(pkt: Packet) returns (o: Outer)
      requires pkt.Valid()
      ensures o == CheckOuter(pkt.Octets(), cfg.origin)
    {
      var f := pkt.Octets();
      if |f| < 14 || BE16(f, 12) != IPV4_TYPE {
        return NotForUs;
      }
      if |f| < 34 || f[14] % 16 != 5 || f[23] != UDP {
        return NotForUs;
      }
      var fragOff := BE16(f, FRAG_OFF);
      if fragOff % 0x2000 != 0 || |f| < 42 {
        return NotForUs;
      }
      if BE16(f, 36) != GENEVE_PORT {
        return NotGeneve;
      }
      if !Allows(cfg.origin, f[SADDR..DADDR]) {
        return OriginRefused;
      }
      if fragOff / 0x2000 % 2 == 1 || |f| < 50 || f[42] / 64 != 0 {
        return Outer.Malformed;
      }
      if f[46] != 0 || f[47] != 0 || f[48] != 0 {
        return Outer.Malformed;
      }
      var optLen := f[42] % 64 * 4;
      if optLen != 32 || |f| < 50 + optLen {
        return Outer.Malformed;
      }
      var vpceAt, pos := ParseGwlbOpt(f, 50, 1, 8);
      if vpceAt.None? {
        return Outer.Malformed;
      }
      var attachmentAt, pos2 := ParseGwlbOpt(f, pos, 2, 8);
      if attachmentAt.None? || BE64(f, attachmentAt.value) != 0 {
        return Outer.Malformed;
      }
      var cookieAt, _ := ParseGwlbOpt(f, pos2, 3, 4);
      if cookieAt.None? {
        return Outer.Malformed;
      }
      return ForEndpoint(BE64(f, vpceAt.value));
    }

    method Decap(pkt: Packet) returns (verdict: Verdict)
      requires pkt.Valid()
      modifies this`flow, this`rows, pkt`head, pkt.buf
      ensures pkt.Valid()
      ensures var f, d := old(pkt.Octets()), Decide(cfg, endpoints, old(pkt.Octets()));
              match d
              case Settle(v, _, bumps) =>
                && verdict == v && pkt.Octets() == f
                && flow == old(flow) && rows == CountAll(old(rows), maxRows, bumps)
              case Deliver(_, ifindex, store, out) =>
                && verdict == XdpRedirect(ifindex) && pkt.Octets() == out
                && flow == Published(old(flow), store, ReplyForm(f[..HDR_LEN]))
                && rows == CountAll(old(rows), maxRows, Pair(ifindex, DecapOk, |f|))
    {
      var frameLen := pkt.end - pkt.head;
      ghost var f := pkt.Octets();
      var o := InspectOuter(pkt);
      match o {
        case NotForUs =>
          return XdpPass;
        case NotGeneve =>
          CountPacket(cfg.uplink, DecapPassNotGeneve, frameLen);
          return XdpPass;
        case OriginRefused =>
          CountPacket(cfg.uplink, DecapDropOrigin, frameLen);
          return XdpDrop;
        case Malformed =>
          CountPacket(cfg.uplink, DecapDropMalformed, frameLen);
          return XdpDrop;
        case ForEndpoint(v) =>
          if v !in endpoints {
            CountPacket(cfg.uplink, DecapDropUnknownEndpoint, frameLen);
            return XdpDrop;
          }
          verdict := DeliverTo(pkt, endpoints[v], v);
      }
    }

    /** The rest of decap, once the endpoint is known. */
    method DeliverTo(pkt: Packet, info: Info, ghost v: nat) returns (verdict: Verdict)
      requires pkt.Valid() && |pkt.Octets()| >= HDR_LEN
      modifies this`flow, this`rows, pkt`head, pkt.buf
      ensures pkt.Valid()
      ensures var f, d := old(pkt.Octets()), DecideFor(cfg, v, info, old(pkt.Octets()));
              match d
              case Settle(v, _, bumps) =>
                && verdict == v && pkt.Octets() == f
                && flow == old(flow) && rows == CountAll(old(rows), maxRows, bumps)
              case Deliver(_, ifindex, store, out) =>
                && verdict == XdpRedirect(ifindex) && pkt.Octets() == out
                && flow == Published(old(flow), store, ReplyForm(f[..HDR_LEN]))
                && rows == CountAll(old(rows), maxRows, Pair(ifindex, DecapOk, |f|))
    {
      var f := pkt.Octets();
      var frameLen := |f|;
      if Sub32(frameLen, HDR_LEN) > cfg.maxInner {
        CountPacket(info.ifindex, DecapDropOversize, frameLen);
        return XdpDrop;
      }
      var etherType := BE16(f, PROTO_TYPE);
      if etherType != IPV4_TYPE && etherType != IPV6_TYPE {
        CountPacket(info.ifindex, DecapDropMalformed, frameLen);
        return XdpDrop;
      }
      var isV6 := etherType == IPV6_TYPE;
      var t := new InnerTuple();
      var ok, _ := t.Read(isV6, f[HDR_LEN..]);
      if !ok {
        CountPacket(info.ifindex, DecapDropMalformed, frameLen);
        return XdpDrop;
      }
      var cacheFlow := t.frag != Later && !QuotesPacket(isV6, t.Value());
      var fwdKey := BuildFlowKey(info.ifindex, isV6, t.saddr, t.daddr, t.sport, t.dport, t.proto);
      StripAndPublish(pkt, info, if cacheFlow then Some(fwdKey) else None);
      CountPacket(info.ifindex, DecapOk, frameLen);
      return XdpRedirect(info.ifindex);
    }

    /** The header copy decap rewrites and caches. */
    method ReplyHeader(f: seq<Byte>) returns (h: Header)
      requires |f| >= HDR_LEN
      ensures h == ReplyForm(f[..HDR_LEN])
    {
      var cache := new Byte[HDR_LEN](i => 0);
      forall i | 0 <= i < HDR_LEN { cache[i] := f[i]; }
      assert cache[..] == f[..HDR_LEN];
      TurnRound(cache);
      h := cache[..];
    }

    /** Replacing the outer headers by an Ethernet one. */
    method Strip(pkt: Packet, info: Info)
      requires pkt.Valid() && |pkt.Octets()| >= HDR_LEN
      modifies pkt`head, pkt.buf
      ensures pkt.Valid()
      ensures var f := old(pkt.Octets());
              pkt.Octets() == info.dst + info.src + f[PROTO_TYPE..PROTO_TYPE + 2] + f[HDR_LEN..]
    {
      ghost var f := pkt.Octets();
      var eth := info.dst + info.src + pkt.Octets()[PROTO_TYPE..PROTO_TYPE + 2];
      var moved := pkt.AdjustHead(HDR_LEN - ETH_LEN);
      assert moved;
      assert pkt.Octets() == f[HDR_LEN - ETH_LEN..];
      var stored := pkt.Store(0, eth);
      assert stored;
      assert pkt.Octets() == eth + f[HDR_LEN..];
    }

    /** Writing an entry unless it already holds the same encapsulation. */
    method PublishHeader(key: FlowKey, h: Header)
      modifies this`flow
      ensures flow == Published(old(flow), Some(key), h)
    {
      var eq := false;
      if key in flow {
        eq := OuterHdrStableEq(flow[key], h);
      }
      if !eq {
        flow := flow[key := h];
      }
    }

    /** The turned-round header is copied out, the outer headers stripped, and only then the header published. */
    method StripAndPublish(pkt: Packet, info: Info, store: Option<FlowKey>)
      requires pkt.Valid() && |pkt.Octets()| >= HDR_LEN
      modifies this`flow, pkt`head, pkt.buf
      ensures pkt.Valid()
      ensures var f := old(pkt.Octets());
              && pkt.Octets() == info.dst + info.src + f[PROTO_TYPE..PROTO_TYPE + 2] + f[HDR_LEN..]
              && flow == Published(old(flow), store, ReplyForm(f[..HDR_LEN]))
    {
      var cache := None;
      if store.Some? {
        var h := ReplyHeader(pkt.Octets());
        cache := Some(h);
      }
      Strip(pkt, info);
      if store.Some? {
        PublishHeader(store.value, cache.value);
      }
    }

    method Encap(pkt: Packet, ifindex: nat) returns (verdict: Verdict)
      requires pkt.Valid()
      modifies this`frag, this`rows, pkt`head, pkt.buf
      ensures pkt.Valid()
      ensures var f, r := old(pkt.Octets()), Rules.Classify(cfg, ifindex, old(pkt.Octets()));
              match r
              case Ignore =>
                verdict == XdpPass && pkt.Octets() == f && frag == old(frag) && rows == old(rows)
              case Refuse(counter) =>
                && verdict == XdpDrop && pkt.Octets() == f && frag == old(frag)
                && rows == CountAll(old(rows), maxRows, Pair(ifindex, counter, |f|))
              case Ask(_, _, record) =>
                var hit := Rules.Found(flow, old(frag), r);
                var e := Rules.Finish(ifindex, f, hit, old(pkt.head));
                && verdict == (if e.out.Some? then XdpRedirect(cfg.uplink) else XdpDrop)
                && pkt.Octets() == e.out.GetOr(f)
                && frag == Rules.Recorded(old(frag), record, hit)
                && rows == CountAll(old(rows), maxRows, e.bumps)
    {
      var f := pkt.Octets();
      if |f| < ETH_LEN {
        CountPacket(ifindex, EncapDropMalformed, |f|);
        return XdpDrop;
      }
      var etherType := BE16(f, 12);
      if etherType != IPV4_TYPE && etherType != IPV6_TYPE {
        return XdpPass;
      }
      var isV6, inner := etherType == IPV6_TYPE, f[ETH_LEN..];
      var t := new InnerTuple();
      var ok, l4 := t.Read(isV6, inner);
      if !ok {
        CountPacket(ifindex, EncapDropMalformed, |f|);
        return XdpDrop;
      }
      if isV6 && LinkLocalControl(t.Value()) {
        return XdpPass;
      }
      if Sub32(|f|, ETH_LEN) > cfg.maxInner {
        CountPacket(ifindex, EncapDropOversize, |f|);
        return XdpDrop;
      }
      ghost var p := Parsed(t.Value(), l4);
      var key, inFrag := ChooseKey(ifindex, isV6, inner, t, l4);
      if key.None? {
        CountPacket(ifindex, EncapDropMalformed, |f|);
        return XdpDrop;
      }
      var record := None;
      if t.frag == First {
        record := Some(FragKey(ifindex, isV6, t.Value()));
      }
      verdict := Answer(pkt, ifindex, inFrag, key.value, record);
    }

    /** From the lookup on. */
    method Answer(pkt: Packet, ifindex: nat, inFrag: bool, key: FlowKey, record: Option<FlowKey>)
      returns (verdict: Verdict)
      requires pkt.Valid() && |pkt.Octets()| >= ETH_LEN
      modifies this`frag, this`rows, pkt`head, pkt.buf
      ensures pkt.Valid()
      ensures var f := old(pkt.Octets());
              var hit := Rules.Found(flow, old(frag), Rules.Ask(inFrag, key, record));
              var e := Rules.Finish(ifindex, f, hit, old(pkt.head));
              && verdict == (if e.out.Some? then XdpRedirect(cfg.uplink) else XdpDrop)
              && pkt.Octets() == e.out.GetOr(f)
              && frag == Rules.Recorded(old(frag), record, hit)
              && rows == CountAll(old(rows), maxRows, e.bumps)
    {
      var frameLen := |pkt.Octets()|;
      var hit := None;
      if inFrag {
        hit := if key in frag then Some(frag[key]) else None;
      } else {
        hit := if key in flow then Some(flow[key]) else None;
      }
      if hit.None? {
        CountPacket(ifindex, EncapDropFlowMiss, frameLen);
        return XdpDrop;
      }
      if record.Some? {
        frag := frag[record.value := hit.value];
      }
      verdict := Emit(pkt, ifindex, hit.value);
    }

    method Emit(pkt: Packet, ifindex: nat, cache: Header) returns (verdict: Verdict)
      requires pkt.Valid() && |pkt.Octets()| >= ETH_LEN
      modifies this`rows, pkt`head, pkt.buf
      ensures pkt.Valid()
      ensures var e := Rules.Finish(ifindex, old(pkt.Octets()), Some(cache), old(pkt.head));
              && verdict == (if e.out.Some? then XdpRedirect(cfg.uplink) else XdpDrop)
              && pkt.Octets() == e.out.GetOr(old(pkt.Octets()))
              && rows == CountAll(old(rows), maxRows, e.bumps)
    {
      var frameLen := |pkt.Octets()|;
      ghost var e := Rules.Finish(ifindex, pkt.Octets(), Some(cache), pkt.head);
      var sent := Restore(pkt, cache);
      assert sent <==> e.out.Some?;
      if !sent {
        CountPacket(ifindex, EncapDropMalformed, frameLen);
        return XdpDrop;
      }
      CountPacket(ifindex, EncapOk, frameLen + OVERHEAD);
      return XdpRedirect(cfg.uplink);
    }

    /** The key to look a parsed reply up by, and in which map; None if what it quotes is malformed. */
    method ChooseKey(ifindex: nat, isV6: bool, inner: seq<Byte>, t: InnerTuple, l4: nat)
      returns (key: Option<FlowKey>, inFrag: bool)
      requires Parse(isV6, inner) == Some(Parsed(t.Value(), l4))
      ensures Rules.ClassifyParsed(cfg.transparent, ifindex, isV6, inner, Parsed(t.Value(), l4))
           == if key.None? then Rules.Refuse(EncapDropMalformed)
              else Rules.Ask(inFrag, key.value,
                             if t.frag == First then (Some(FragKey(ifindex, isV6, t.Value()))) else None)
    {
      inFrag := false;
      if QuotesPacket(isV6, t.Value()) {
        Rules.QuoteInside(isV6, inner);
        var quoted := inner[l4 + 8..];
        var q := new InnerTuple();
        var ok, _ := q.Read(isV6, quoted);
        if !ok {
          return None, false;
        }
        return Some(BuildFlowKey(ifindex, isV6, q.saddr, q.daddr, q.sport, q.dport, q.proto)), false;
      }
      if t.frag == Later {
        return Some(FragKey(ifindex, isV6, t.Value())), true;
      }
      if cfg.transparent {
        key := Some(BuildFlowKey(ifindex, isV6, t.saddr, t.daddr, t.sport, t.dport, t.proto));
      } else {
        key := Some(BuildFlowKey(ifindex, isV6, t.daddr, t.saddr, t.dport, t.sport, t.proto));
      }
    }

    /** Replacing the Ethernet header by the cached headers, then repairing lengths and checksum. */
    method Restore(pkt: Packet, cache: Header) returns (ok: bool)
      requires pkt.Valid() && |pkt.Octets()| >= ETH_LEN
      modifies pkt`head, pkt.buf
      ensures pkt.Valid()
      ensures ok <==> old(pkt.head) >= OVERHEAD
      ensures pkt.Octets() == if ok then Encapsulated(cache, old(pkt.Octets())[ETH_LEN..]) else old(pkt.Octets())
    {
      ghost var f := pkt.Octets();
      ok := pkt.AdjustHead(ETH_LEN - HDR_LEN);
      if !ok {
        return;
      }
      assert pkt.Octets()[HDR_LEN..] == f[ETH_LEN..];
      var stored := pkt.Store(0, cache);
      assert stored;
      assert pkt.Octets() == cache + f[ETH_LEN..];
      Resize(pkt, cache, f[ETH_LEN..]);
      Rechecksum(pkt, Sized(cache, |f| - ETH_LEN), f[ETH_LEN..]);
    }

    /** A write within the first |hdr| octets of a packet. */
    method Patch(pkt: Packet, off: nat, v: seq<Byte>, ghost hdr: seq<Byte>, ghost inner: seq<Byte>)
      requires pkt.Valid() && pkt.Octets() == hdr + inner && off + |v| <= |hdr|
      modifies pkt.buf
      ensures pkt.Octets() == Splice(hdr, off, v) + inner
    {
      var stored := pkt.Store(off, v);
      SpliceInFront(hdr, inner, off, v);
    }

    method Resize(pkt: Packet, ghost cache: Header, ghost inner: seq<Byte>)
      requires pkt.Valid() && pkt.Octets() == cache + inner
      modifies pkt.buf
      ensures pkt.Octets() == Sized(cache, |inner|) + inner
    {
      var totalLen := (|pkt.Octets()| - ETH_LEN) % 0x1_0000;
      assert totalLen == (|inner| + OVERHEAD) % 0x1_0000;
      assert (totalLen - 20) % 0x1_0000 == (|inner| + OVERHEAD - 20) % 0x1_0000;
      SizedBySplices(cache, |inner|);
      StoreLengths(pkt, PutBE16(totalLen), PutBE16((totalLen - 20) % 0x1_0000), cache, inner);
    }

    /** Both lengths stored, both checksums cleared. */
    method StoreLengths(pkt: Packet, total: seq<Byte>, udp: seq<Byte>, ghost cache: Header, ghost inner: seq<Byte>)
      requires pkt.Valid() && pkt.Octets() == cache + inner && |total| == |udp| == 2
      modifies pkt.buf
      ensures pkt.Octets()
           == Splice(Splice(Splice(Splice(cache, TOT_LEN, total), CHECK, [0, 0]), UDP_LEN, udp), UDP_CHECK, [0, 0])
              + inner
    {
      Patch(pkt, TOT_LEN, total, cache, inner);
      ghost var h1 := Splice(cache, TOT_LEN, total);
      Patch(pkt, CHECK, [0, 0], h1, inner);
      ghost var h2 := Splice(h1, CHECK, [0, 0]);
      Patch(pkt, UDP_LEN, udp, h2, inner);
      Patch(pkt, UDP_CHECK, [0, 0], Splice(h2, UDP_LEN, udp), inner);
    }

    method Rechecksum(pkt: Packet, ghost sized: Header, ghost inner: seq<Byte>)
      requires pkt.Valid() && pkt.Octets() == sized + inner
      modifies pkt.buf
      ensures pkt.Octets() == Splice(sized, ETH_LEN, WithChecksum(sized[ETH_LEN..ETH_LEN + 20])) + inner
    {
      ghost var ip := sized[ETH_LEN..ETH_LEN + 20];
      ghost var zeroed := Splice(sized, CHECK, [0, 0]);
      var check := ClearAndSum(pkt, sized, inner);
      Patch(pkt, CHECK, PutLE16(check), zeroed, inner);
      assert Splice(zeroed, CHECK, PutLE16(check)) == Splice(sized, ETH_LEN, WithChecksum(ip));
    }

    method ClearAndSum(pkt: Packet, ghost sized: Header, ghost inner: seq<Byte>) returns (check: nat)
      requires pkt.Valid() && pkt.Octets() == sized + inner
      modifies pkt.buf
      ensures check == HeaderChecksum(sized[ETH_LEN..ETH_LEN + 20])
      ensures pkt.Octets() == Splice(sized, CHECK, [0, 0]) + inner
    {
      ghost var ip := sized[ETH_LEN..ETH_LEN + 20];
      assert pkt.buf[pkt.head + ETH_LEN..pkt.head + ETH_LEN + 20] == ip by {
        forall i | 0 <= i < 20
          ensures pkt.buf[pkt.head + ETH_LEN..pkt.head + ETH_LEN + 20][i] == ip[i]
        {
          assert pkt.Octets()[ETH_LEN + i] == sized[ETH_LEN + i];
        }
      }
      check := IPv4Checksum(pkt.buf, pkt.head + ETH_LEN);
      assert forall i :: 0 <= i < |pkt.Octets()| ==> pkt.Octets()[i] == pkt.buf[..][pkt.head + i];
      SpliceInFront(sized, inner, CHECK, [0, 0]);
    }
  }
}
