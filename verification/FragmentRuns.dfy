/**
 Fragments over runs of the machine: once the first piece of a reply has been matched and recorded, every later
 piece leaves in the same outer header, whatever else happens in between.
 */
module FragmentRuns {
  import opened Bytes
  import opened InnerPacket
  import opened OuterHeader
  import opened Programs
  import opened DecapRules
  import opened EncapRules
  import opened Keys
  import opened Fragments
  import opened Machine

  /** A first piece's run that has found `h` and is about to record it under `k`. */
  predicate Pending(s: State, cpu: nat, k: FlowKey, h: Header) {
    cpu in s.runs && s.runs[cpu].phase.Record? && s.runs[cpu].key == Some(k) && s.runs[cpu].hdr == h
  }

  predicate Tracked(s: State, k: FlowKey, h: Header) {
    k in s.frag && s.frag[k] == h
  }

  /** Neither an eviction, nor a sweep, nor another datagram of the same key and another header. */
  predicate Spares(s: State, e: Event, k: FlowKey, h: Header) {
    match e
    case EvictFrag(x) => x != k
    case SweepFrag(i) => i != k.ifindex
    case EncapRecord(c) => c in s.runs && s.runs[c].key == Some(k) ==> s.runs[c].hdr == h
    case _ => true
  }

  predicate AllSpare(s: State, evs: seq<Event>, k: FlowKey, h: Header)
    decreases |evs|
  {
    evs == [] ||
    (Spares(s, evs[0], k, h) && (Step(s, evs[0]).Some? ==> AllSpare(Step(s, evs[0]).value, evs[1..], k, h)))
  }

  lemma TrackedStays(s: State, e: Event, k: FlowKey, h: Header)
    requires Tracked(s, k, h) && Spares(s, e, k, h) && Step(s, e).Some?
    ensures Tracked(Step(s, e).value, k, h)
  {
  }

  lemma {:induction false} TrackedThroughout(s: State, evs: seq<Event>, k: FlowKey, h: Header)
    requires Tracked(s, k, h) && AllSpare(s, evs, k, h) && Exec(s, evs).Some?
    ensures Tracked(Exec(s, evs).value, k, h)
    decreases |evs|
  {
    if evs != [] {
      TrackedStays(s, evs[0], k, h);
      TrackedThroughout(Step(s, evs[0]).value, evs[1..], k, h);
    }
  }

  /** Nothing can interfere with the run before it records. */
  lemma PendingStays(s: State, e: Event, cpu: nat, k: FlowKey, h: Header)
    requires Pending(s, cpu, k, h) && e != EncapRecord(cpu) && Step(s, e).Some?
    ensures Pending(Step(s, e).value, cpu, k, h)
  {
    if e.CountStep? {
      assert e.cpu != cpu;
    }
  }

  lemma {:induction false} PendingThroughout(s: State, evs: seq<Event>, cpu: nat, k: FlowKey, h: Header)
    requires Pending(s, cpu, k, h) && EncapRecord(cpu) !in evs && Exec(s, evs).Some?
    ensures Pending(Exec(s, evs).value, cpu, k, h)
    decreases |evs|
  {
    if evs != [] {
      PendingStays(s, evs[0], cpu, k, h);
      PendingThroughout(Step(s, evs[0]).value, evs[1..], cpu, k, h);
    }
  }

  /** The run from the first piece's start to a later piece's. */
  function Between(cpu: nat, i: nat, f: seq<Byte>, headroom: nat, before: seq<Event>, after: seq<Event>): seq<Event> {
    [EncapStart(cpu, i, f, headroom)] + before + [EncapRecord(cpu)] + after
  }

  /** What is recorded stays recorded until the later piece comes. */
  lemma RecordedBetween(s: State, cpu: nat, before: seq<Event>, after: seq<Event>, k: FlowKey, h: Header)
    requires Pending(s, cpu, k, h) && EncapRecord(cpu) !in before
    requires Exec(s, before + [EncapRecord(cpu)] + after).Some?
    requires Exec(s, before + [EncapRecord(cpu)]).Some? ==>
               AllSpare(Exec(s, before + [EncapRecord(cpu)]).value, after, k, h)
    ensures Tracked(Exec(s, before + [EncapRecord(cpu)] + after).value, k, h)
  {
    var recorded := before + [EncapRecord(cpu)];
    ExecAppend(s, recorded, after);
    ExecAppend(s, before, [EncapRecord(cpu)]);
    PendingThroughout(s, before, cpu, k, h);
    var t := Exec(s, before).value;
    ExecOne(t, EncapRecord(cpu));
    TrackedThroughout(Step(t, EncapRecord(cpu)).value, after, k, h);
  }

  /** The same from the first piece's start, over the whole stretch. */
  lemma RecordedFromStart(s: State, cpu: nat, i: nat, f: seq<Byte>, headroom: nat, before: seq<Event>,
                          after: seq<Event>, r: Run)
    requires r == StartEncap(s, i, f, headroom) && r.phase.Record? && r.key.Some? && EncapRecord(cpu) !in before
    requires Exec(s, Between(cpu, i, f, headroom, before, after)).Some?
    requires var recorded := Exec(s, Between(cpu, i, f, headroom, before, []));
             recorded.Some? ==> AllSpare(recorded.value, after, r.key.value, r.hdr)
    ensures var t := Exec(s, Between(cpu, i, f, headroom, before, after)).value;
            Tracked(t, r.key.value, r.hdr) && t.cfg == s.cfg
  {
    var e := EncapStart(cpu, i, f, headroom);
    BetweenSplits(s, cpu, i, f, headroom, before, after);
    BetweenSplits(s, cpu, i, f, headroom, before, []);
    assert before + [EncapRecord(cpu)] + [] == before + [EncapRecord(cpu)];
    StartIsPending(s, cpu, i, f, headroom, r);
    RecordedBetween(Step(s, e).value, cpu, before, after, r.key.value, r.hdr);
    SettingsKept(s, Between(cpu, i, f, headroom, before, after));
  }

  lemma BetweenSplits(s: State, cpu: nat, i: nat, f: seq<Byte>, headroom: nat, before: seq<Event>, after: seq<Event>)
    ensures Exec(s, Between(cpu, i, f, headroom, before, after))
         == match Step(s, EncapStart(cpu, i, f, headroom))
            case None => None
            case Some(t) => Exec(t, before + [EncapRecord(cpu)] + after)
  {
    var e := EncapStart(cpu, i, f, headroom);
    assert Between(cpu, i, f, headroom, before, after) == [e] + (before + [EncapRecord(cpu)] + after);
    ExecAppend(s, [e], before + [EncapRecord(cpu)] + after);
    ExecOne(s, e);
  }

  lemma StartIsPending(s: State, cpu: nat, i: nat, f: seq<Byte>, headroom: nat, r: Run)
    requires Step(s, EncapStart(cpu, i, f, headroom)).Some?
    requires r == StartEncap(s, i, f, headroom) && r.phase.Record? && r.key.Some?
    ensures Pending(Step(s, EncapStart(cpu, i, f, headroom)).value, cpu, r.key.value, r.hdr)
  {
  }

  // ---- What the pieces ask for ----

  /** A frame that carries `x`. */
  predicate Carries(cfg: Config, isV6: bool, f: seq<Byte>, x: seq<Byte>) {
    |f| >= ETH_LEN && Family(BE16(f, 12)) == Some(isV6) && f[ETH_LEN..] == x && |x| <= cfg.maxInner
  }

  lemma AskIsParsed(cfg: Config, i: nat, isV6: bool, f: seq<Byte>, x: seq<Byte>)
    requires Carries(cfg, isV6, f, x) && Classify(cfg, i, f).Ask?
    ensures Parse(isV6, x).Some? && Classify(cfg, i, f) == Asks(cfg.transparent, i, isV6, x)
  {
  }

  /** A first piece that was matched waits to record what the whole datagram would have found. */
  lemma FirstIsPending(s: State, i: nat, isV6: bool, d: seq<Byte>, id: nat, len: nat, f: seq<Byte>, x: seq<Byte>,
                       headroom: nat)
    requires IsWhole(isV6, d) && Piece(isV6, d, id, 0, len, x) && Carries(s.cfg, isV6, f, x)
    requires StartEncap(s, i, f, headroom).phase.Record?
    ensures Parse(isV6, d).Some? && id < 0x1_0000_0000
    ensures var r := StartEncap(s, i, f, headroom);
            && r.key == Some(PieceKey(i, isV6, Parse(isV6, d).value.t, id))
            && (headroom >= OVERHEAD ==> r.out == Some(Encapsulated(r.hdr, x)))
            && Asks(s.cfg.transparent, i, isV6, d).Ask?
            && Found(s.flow, s.frag, Asks(s.cfg.transparent, i, isV6, d)) == Some(r.hdr)
  {
    AskIsParsed(s.cfg, i, isV6, f, x);
    FirstPieceAsks(s.cfg.transparent, i, isV6, d, id, len, x);
    SameKeyFound(s, Asks(s.cfg.transparent, i, isV6, x), Asks(s.cfg.transparent, i, isV6, d));
  }

  lemma SameKeyFound(s: State, a: Request, b: Request)
    requires a.Ask? && b.Ask? && !a.inFrag && !b.inFrag && a.key == b.key
    ensures Found(s.flow, s.frag, a) == Found(s.flow, s.frag, b)
  {
  }

  /** A later piece leaves in the header tracked for its datagram. */
  lemma LaterIsSent(s: State, i: nat, isV6: bool, d: seq<Byte>, id: nat, units: nat, len: nat,
                    f: seq<Byte>, x: seq<Byte>, headroom: nat, h: Header)
    requires IsWhole(isV6, d) && Parse(isV6, d).Some? && Piece(isV6, d, id, units, len, x) && units > 0
    requires Carries(s.cfg, isV6, f, x) && headroom >= OVERHEAD && id < 0x1_0000_0000
    requires Tracked(s, PieceKey(i, isV6, Parse(isV6, d).value.t, id), h)
    ensures StartEncap(s, i, f, headroom).out == Some(Encapsulated(h, x))
  {
    LaterPieceAsks(s.cfg.transparent, i, isV6, d, id, units, len, x);
    LaterPiece(isV6, d, id, units, len, x);
    ClassifyIsParsed(s.cfg, i, f, isV6);
    FoundTracked(s, i, f, headroom, PieceKey(i, isV6, Parse(isV6, d).value.t, id), h);
  }

  lemma FoundTracked(s: State, i: nat, f: seq<Byte>, headroom: nat, k: FlowKey, h: Header)
    requires Classify(s.cfg, i, f) == Ask(true, k, None) && Tracked(s, k, h) && headroom >= OVERHEAD
    ensures StartEncap(s, i, f, headroom).out == Some(Encapsulated(h, f[ETH_LEN..]))
  {
  }

  /** Two inner packets in one cached header differ, before the inner packet, only in lengths and checksums. */
  lemma SameOuterHeader(h: Header, x: seq<Byte>, y: seq<Byte>)
    ensures forall n :: 0 <= n < HDR_LEN && (Skipped(n) ==> ID <= n < ID + 2) ==>
              Encapsulated(h, x)[n] == Encapsulated(h, y)[n]
  {
    assert forall n :: 0 <= n < HDR_LEN ==>
             Encapsulated(h, x)[n] == Replay(h, |x|)[n] && Encapsulated(h, y)[n] == Replay(h, |y|)[n];
  }

  /**
   Fragmented replies: the first piece of a datagram, once matched, leaves in the header the whole datagram
   would have found, and so does every later piece, whatever traffic, evictions of other entries and
   provisioning happen in between. This holds for a fragmented ICMP error, too.
   */
  lemma PiecesShareHeader(s: State, cpu: nat, i: nat, isV6: bool, d: seq<Byte>, id: nat,
                          len0: nat, f0: seq<Byte>, x0: seq<Byte>, headroom0: nat,
                          before: seq<Event>, after: seq<Event>, units: nat, len: nat,
                          f: seq<Byte>, x: seq<Byte>, headroom: nat)
    requires IsWhole(isV6, d) && headroom0 >= OVERHEAD && headroom >= OVERHEAD
    requires Piece(isV6, d, id, 0, len0, x0) && Carries(s.cfg, isV6, f0, x0)
    requires Piece(isV6, d, id, units, len, x) && units > 0 && Carries(s.cfg, isV6, f, x)
    requires StartEncap(s, i, f0, headroom0).phase.Record? && EncapRecord(cpu) !in before
    requires Exec(s, Between(cpu, i, f0, headroom0, before, after)).Some?
    requires var recorded := Exec(s, Between(cpu, i, f0, headroom0, before, []));
             var r := StartEncap(s, i, f0, headroom0);
             r.key.Some? && recorded.Some? ==> AllSpare(recorded.value, after, r.key.value, r.hdr)
    ensures Parse(isV6, d).Some? && Asks(s.cfg.transparent, i, isV6, d).Ask?
    ensures var t := Exec(s, Between(cpu, i, f0, headroom0, before, after)).value;
            var hit := Found(s.flow, s.frag, Asks(s.cfg.transparent, i, isV6, d));
            && hit.Some?
            && StartEncap(s, i, f0, headroom0).out == Some(Encapsulated(hit.value, x0))
            && StartEncap(t, i, f, headroom).out == Some(Encapsulated(hit.value, x))
  {
    var r := StartEncap(s, i, f0, headroom0);
    FirstIsPending(s, i, isV6, d, id, len0, f0, x0, headroom0);
    RecordedFromStart(s, cpu, i, f0, headroom0, before, after, r);
    var t := Exec(s, Between(cpu, i, f0, headroom0, before, after)).value;
    LaterIsSent(t, i, isV6, d, id, units, len, f, x, headroom, r.hdr);
  }
}
