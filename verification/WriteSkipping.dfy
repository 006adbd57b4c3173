/**
 The write-skipping cache refines the plain one. decap compares before it writes, in two steps that other
 runs and evictions may fall between; every run of that system is matched by a run of one that writes every
 time, in one step, with the same frames sent. Where the code skips, the plain system writes at the moment of
 the comparison, and only fields encap recomputes differ.
 */
module WriteSkipping {
  import opened Bytes
  import opened InnerPacket
  import opened OuterHeader
  import opened Programs
  import opened DecapRules
  import opened EncapRules
  import opened Machine

  predicate ZeroId(h: Header) {
    h[ID] == 0 && h[ID + 1] == 0
  }

  /** Two copies of one entry: equal wherever decap compares, and with the ID it zeroed. */
  predicate Alike(a: Header, b: Header) {
    StableEq(a, b) && ZeroId(a) && ZeroId(b)
  }

  predicate MapsAlike(m: map<FlowKey, Header>, n: map<FlowKey, Header>) {
    m.Keys == n.Keys && forall k :: k in m ==> Alike(m[k], n[k])
  }

  /** Where the plain system is while the code is at `p`. */
  function Plainly(p: Phase): Phase {
    if !p.Decided? then p else if p.write then Publish else Counting(Look)
  }

  /** The same run in the two systems: a skip already decided is a write already done. */
  predicate RunAlike(r: Run, q: Run) {
    && q == r.(phase := q.phase, hdr := q.hdr)
    && Alike(r.hdr, q.hdr)
    && q.phase == Plainly(r.phase)
    && (r.phase.Decided? ==> r.key.Some?)
  }

  /** `s` compares before writing, `t` always writes; all else agrees. */
  predicate Matched(s: State, t: State) {
    && s.policy.WriteChanged? && t.policy.WriteAlways?
    && t == s.(policy := WriteAlways, flow := t.flow, frag := t.frag, runs := t.runs)
    && MapsAlike(s.flow, t.flow) && MapsAlike(s.frag, t.frag)
    && s.runs.Keys == t.runs.Keys && forall c :: c in s.runs ==> RunAlike(s.runs[c], t.runs[c])
  }

  /** What the plain system does while the code does `e`. */
  function Mirror(s: State, e: Event): seq<Event> {
    match e
    case DecapDecide(cpu) =>
      if cpu in s.runs && s.runs[cpu].key.Some? && Skips(s, s.runs[cpu]) then [DecapWrite(cpu)] else []
    case DecapWrite(cpu) =>
      if cpu in s.runs && s.runs[cpu].phase.Decided? && s.runs[cpu].phase.write then [e] else []
    case _ => [e]
  }

  predicate Skips(s: State, r: Run)
    requires r.key.Some?
  {
    r.key.value in s.flow && StableEq(s.flow[r.key.value], r.hdr)
  }

  function MirrorAll(s: State, evs: seq<Event>): seq<Event>
    decreases |evs|
  {
    if evs == [] || Step(s, evs[0]).None? then []
    else Mirror(s, evs[0]) + MirrorAll(Step(s, evs[0]).value, evs[1..])
  }

  // ---- Alike entries make equal frames ----

  lemma AlikeReplay(a: Header, b: Header, inner: seq<Byte>)
    requires Alike(a, b)
    ensures Encapsulated(a, inner) == Encapsulated(b, inner)
  {
    assert a[ID..ID + 2] == b[ID..ID + 2] == [0, 0];
    ReplayOfStable(a, b, |inner|);
  }

  lemma ReplyFormAlike(h: Header)
    ensures Alike(ReplyForm(h), ReplyForm(h)) && Alike(NO_HEADER, NO_HEADER)
  {
  }

  lemma StartDecapAlike(d: Decision, f: seq<Byte>)
    requires d.Deliver? ==> |f| >= HDR_LEN
    ensures RunAlike(StartDecap(d, f), StartDecap(d, f))
  {
    ReplyFormAlike(NO_HEADER);
    if d.Deliver? {
      ReplyFormAlike(f[..HDR_LEN]);
    }
  }

  lemma FinishAlike(i: nat, f: seq<Byte>, a: Option<Header>, b: Option<Header>, headroom: nat)
    requires |f| >= ETH_LEN
    requires a.Some? <==> b.Some?
    requires a.Some? ==> Alike(a.value, b.value)
    ensures EncapRules.Finish(i, f, a, headroom) == EncapRules.Finish(i, f, b, headroom)
  {
    if a.Some? {
      AlikeReplay(a.value, b.value, f[ETH_LEN..]);
    }
  }

  /** A reply is answered alike from alike maps: the same frame, and what it records agrees. */
  lemma StartEncapAlike(s: State, t: State, i: nat, f: seq<Byte>, headroom: nat)
    requires s.cfg == t.cfg && MapsAlike(s.flow, t.flow) && MapsAlike(s.frag, t.frag)
    ensures RunAlike(StartEncap(s, i, f, headroom), StartEncap(t, i, f, headroom))
  {
    var a := Classify(s.cfg, i, f);
    ReplyFormAlike(NO_HEADER);
    if a.Ask? {
      FoundAlike(s, t, a);
      FinishAlike(i, f, Found(s.flow, s.frag, a), Found(t.flow, t.frag, a), headroom);
    }
  }

  lemma FoundAlike(s: State, t: State, a: Request)
    requires a.Ask? && MapsAlike(s.flow, t.flow) && MapsAlike(s.frag, t.frag)
    ensures Found(s.flow, s.frag, a).Some? <==> Found(t.flow, t.frag, a).Some?
    ensures Found(s.flow, s.frag, a).Some? ==> Alike(Found(s.flow, s.frag, a).value, Found(t.flow, t.frag, a).value)
  {
  }

  // ---- One event ----

  lemma PutAlike(m: map<FlowKey, Header>, n: map<FlowKey, Header>, k: FlowKey, a: Header, b: Header)
    requires MapsAlike(m, n) && Alike(a, b)
    ensures MapsAlike(m[k := a], n[k := b])
  {
  }

  /** A write of what the entry already says, up to fields encap recomputes, keeps the maps alike. */
  lemma SkipAlike(m: map<FlowKey, Header>, n: map<FlowKey, Header>, k: FlowKey, a: Header, b: Header)
    requires MapsAlike(m, n) && k in m && StableEq(m[k], a) && Alike(a, b)
    ensures MapsAlike(m, n[k := b])
  {
    assert Alike(m[k], n[k]);
    forall i | 0 <= i < HDR_LEN && !Skipped(i)
      ensures m[k][i] == b[i]
    {
      assert m[k][i] == a[i] && a[i] == b[i];
    }
  }

  /** One run replaced in each system, by runs that are alike. */
  lemma RunReplaced(s: State, t: State, s': State, t': State, cpu: nat)
    requires Matched(s, t) && cpu in s'.runs && cpu in t'.runs
    requires s'.runs == s.runs[cpu := s'.runs[cpu]] && t'.runs == t.runs[cpu := t'.runs[cpu]]
    requires RunAlike(s'.runs[cpu], t'.runs[cpu])
    requires s'.policy.WriteChanged?
    requires t' == s'.(policy := WriteAlways, flow := t'.flow, frag := t'.frag, runs := t'.runs)
    requires MapsAlike(s'.flow, t'.flow) && MapsAlike(s'.frag, t'.frag)
    ensures Matched(s', t')
  {
    forall c | c in s'.runs
      ensures RunAlike(s'.runs[c], t'.runs[c])
    {
      if c != cpu {
        assert RunAlike(s.runs[c], t.runs[c]);
      }
    }
  }

  lemma StartMatched(s: State, t: State, e: Event)
    requires Matched(s, t) && (e.DecapStart? || e.EncapStart?) && Step(s, e).Some?
    ensures Step(t, e).Some? && Matched(Step(s, e).value, Step(t, e).value)
  {
    if e.DecapStart? {
      StartDecapAlike(Decide(s.cfg, s.endpoints, e.frame), e.frame);
    } else {
      StartEncapAlike(s, t, e.ifindex, e.frame, e.headroom);
    }
    RunReplaced(s, t, Step(s, e).value, Step(t, e).value, e.cpu);
  }

  /** The comparison: a skip is matched by a write that changes nothing encap keeps. */
  lemma DecideMatched(s: State, t: State, cpu: nat)
    requires Matched(s, t) && Step(s, DecapDecide(cpu)).Some?
    ensures Exec(t, Mirror(s, DecapDecide(cpu))).Some?
    ensures Matched(Step(s, DecapDecide(cpu)).value, Exec(t, Mirror(s, DecapDecide(cpu))).value)
  {
    var r, q, s' := s.runs[cpu], t.runs[cpu], Step(s, DecapDecide(cpu)).value;
    assert RunAlike(r, q);
    if Skips(s, r) {
      ExecOne(t, DecapWrite(cpu));
      SkipAlike(s.flow, t.flow, r.key.value, r.hdr, q.hdr);
      RunReplaced(s, t, s', Write(t, cpu).value, cpu);
    } else {
      RunReplaced(s, t, s', t, cpu);
    }
  }

  lemma WriteMatched(s: State, t: State, cpu: nat)
    requires Matched(s, t) && Write(s, cpu).Some?
    ensures Exec(t, Mirror(s, DecapWrite(cpu))).Some?
    ensures Matched(Write(s, cpu).value, Exec(t, Mirror(s, DecapWrite(cpu))).value)
  {
    var r, q, s' := s.runs[cpu], t.runs[cpu], Write(s, cpu).value;
    assert RunAlike(r, q);
    if r.phase.write {
      ExecOne(t, DecapWrite(cpu));
      PutAlike(s.flow, t.flow, r.key.value, r.hdr, q.hdr);
      RunReplaced(s, t, s', Write(t, cpu).value, cpu);
    } else {
      RunReplaced(s, t, s', t, cpu);
    }
  }

  lemma RecordMatched(s: State, t: State, cpu: nat)
    requires Matched(s, t) && Step(s, EncapRecord(cpu)).Some?
    ensures Step(t, EncapRecord(cpu)).Some?
    ensures Matched(Step(s, EncapRecord(cpu)).value, Step(t, EncapRecord(cpu)).value)
  {
    var r, q := s.runs[cpu], t.runs[cpu];
    assert RunAlike(r, q);
    PutAlike(s.frag, t.frag, r.key.value, r.hdr, q.hdr);
    RunReplaced(s, t, Step(s, EncapRecord(cpu)).value, Step(t, EncapRecord(cpu)).value, cpu);
  }

  lemma CountMatched(s: State, t: State, cpu: nat)
    requires Matched(s, t) && CountOnce(s, cpu).Some?
    ensures CountOnce(t, cpu).Some? && Matched(CountOnce(s, cpu).value, CountOnce(t, cpu).value)
  {
    assert RunAlike(s.runs[cpu], t.runs[cpu]);
    assert ProgressOf(t, cpu) == ProgressOf(s, cpu);
    RunReplaced(s, t, CountOnce(s, cpu).value, CountOnce(t, cpu).value, cpu);
  }

  lemma EndMatched(s: State, t: State, cpu: nat)
    requires Matched(s, t) && End(s, cpu).Some?
    ensures End(t, cpu).Some? && Matched(End(s, cpu).value, End(t, cpu).value)
  {
    assert RunAlike(s.runs[cpu], t.runs[cpu]);
    var s', t' := End(s, cpu).value, End(t, cpu).value;
    forall c | c in s'.runs
      ensures RunAlike(s'.runs[c], t'.runs[c])
    {
      assert RunAlike(s.runs[c], t.runs[c]);
    }
  }

  lemma HoldsAlike(s: State, t: State, i: nat)
    requires Matched(s, t)
    ensures Holds(s, i) <==> Holds(t, i)
  {
    if Holds(s, i) {
      var c :| c in s.runs && s.runs[c].ifindex == i;
      assert RunAlike(s.runs[c], t.runs[c]) && c in t.runs;
    }
    if Holds(t, i) {
      var c :| c in t.runs && t.runs[c].ifindex == i;
      assert RunAlike(s.runs[c], t.runs[c]) && c in s.runs;
    }
  }

  /** Entries taken from both systems alike. */
  lemma EntriesGone(s: State, t: State, s': State, t': State)
    requires Matched(s, t) && s'.policy.WriteChanged? && s'.runs == s.runs && t'.runs == t.runs
    requires t' == s'.(policy := WriteAlways, flow := t'.flow, frag := t'.frag, runs := t'.runs)
    requires MapsAlike(s'.flow, t'.flow) && MapsAlike(s'.frag, t'.frag)
    ensures Matched(s', t')
  {
  }

  lemma EvictionMatched(s: State, t: State, e: Event)
    requires Matched(s, t) && (e.EvictFlow? || e.EvictFrag?)
    ensures Step(s, e).Some? && Step(t, e).Some? && Matched(Step(s, e).value, Step(t, e).value)
  {
    match e {
      case EvictFlow(k) => EvictAlike(s.flow, t.flow, k);
      case EvictFrag(k) => EvictAlike(s.frag, t.frag, k);
    }
    EntriesGone(s, t, Step(s, e).value, Step(t, e).value);
  }

  lemma SweepMatched(s: State, t: State, e: Event)
    requires Matched(s, t) && (e.SweepFlow? || e.SweepFrag? || e.SweepRows?)
    ensures Step(s, e).Some? && Step(t, e).Some? && Matched(Step(s, e).value, Step(t, e).value)
  {
    match e {
      case SweepFlow(i) => WithoutAlike(s.flow, t.flow, i);
      case SweepFrag(i) => WithoutAlike(s.frag, t.frag, i);
      case SweepRows(_) =>
    }
    EntriesGone(s, t, Step(s, e).value, Step(t, e).value);
  }

  lemma EvictAlike(m: map<FlowKey, Header>, n: map<FlowKey, Header>, k: FlowKey)
    requires MapsAlike(m, n)
    ensures MapsAlike(m - {k}, n - {k})
  {
  }

  lemma WithoutAlike(m: map<FlowKey, Header>, n: map<FlowKey, Header>, i: nat)
    requires MapsAlike(m, n)
    ensures MapsAlike(Without(m, i), Without(n, i))
  {
    assert Without(m, i).Keys == Without(n, i).Keys;
  }

  lemma TablesMatched(s: State, t: State, e: Event)
    requires Matched(s, t) && Step(s, e).Some?
    requires e.Insert? || e.Delete? || e.CreateVeth? || e.DeleteVeth? || e.Attach? || e.Detach?
    ensures Step(t, e).Some? && Matched(Step(s, e).value, Step(t, e).value)
  {
    if e.DeleteVeth? {
      HoldsAlike(s, t, e.ifindex);
    }
  }

  /** Every event but decap's comparison and write is mirrored by itself. */
  lemma SameEventMatched(s: State, t: State, e: Event)
    requires Matched(s, t) && Step(s, e).Some? && !e.DecapDecide? && !e.DecapWrite?
    ensures Step(t, e).Some? && Matched(Step(s, e).value, Step(t, e).value)
  {
    match e {
      case DecapStart(_, _) => StartMatched(s, t, e);
      case EncapStart(_, _, _, _) => StartMatched(s, t, e);
      case EncapRecord(cpu) => RecordMatched(s, t, cpu);
      case CountStep(cpu) => CountMatched(s, t, cpu);
      case Finish(cpu) => EndMatched(s, t, cpu);
      case _ =>
        if e.EvictFlow? || e.EvictFrag? {
          EvictionMatched(s, t, e);
        } else if e.SweepFlow? || e.SweepFrag? || e.SweepRows? {
          SweepMatched(s, t, e);
        } else {
          TablesMatched(s, t, e);
        }
    }
  }

  lemma StepMatched(s: State, t: State, e: Event)
    requires Matched(s, t) && Step(s, e).Some?
    ensures Exec(t, Mirror(s, e)).Some? && Matched(Step(s, e).value, Exec(t, Mirror(s, e)).value)
  {
    if e.DecapDecide? {
      DecideMatched(s, t, e.cpu);
    } else if e.DecapWrite? {
      WriteMatched(s, t, e.cpu);
    } else {
      SameEventMatched(s, t, e);
      ExecOne(t, e);
    }
  }

  lemma {:induction false} RunsMatched(s: State, t: State, evs: seq<Event>)
    requires Matched(s, t) && Exec(s, evs).Some?
    ensures Exec(t, MirrorAll(s, evs)).Some?
    ensures Matched(Exec(s, evs).value, Exec(t, MirrorAll(s, evs)).value)
    decreases |evs|
  {
    if evs != [] {
      StepMatched(s, t, evs[0]);
      var t' := Exec(t, Mirror(s, evs[0])).value;
      RunsMatched(Step(s, evs[0]).value, t', evs[1..]);
      ExecAppend(t, Mirror(s, evs[0]), MirrorAll(Step(s, evs[0]).value, evs[1..]));
    }
  }

  /**
   From the empty system on, whatever happens, the code's cache sends octet for octet the frames the plain
   cache sends, counts the same, and holds an entry exactly when the plain one does.
   */
  lemma WriteSkippingRefines(cfg: Config, evs: seq<Event>)
    requires Exec(Init(cfg, WriteChanged), evs).Some?
    ensures var s := Exec(Init(cfg, WriteChanged), evs).value;
            var t := Exec(Init(cfg, WriteAlways), MirrorAll(Init(cfg, WriteChanged), evs));
            && t.Some? && t.value.sent == s.sent && t.value.handed == s.handed && t.value.rows == s.rows
            && t.value.accepted == s.accepted
            && t.value.flow.Keys == s.flow.Keys && t.value.frag.Keys == s.frag.Keys
  {
    RunsMatched(Init(cfg, WriteChanged), Init(cfg, WriteAlways), evs);
  }
}
