/**
 No count is ever lost: increment_metric's four steps interleave across CPUs, yet every row's per-CPU values
 are exactly the increments performed, because the map never fills and no row is swept under a run.
 */
module Counters {
  import opened Sets
  import opened Bytes
  import opened OuterHeader
  import opened Programs
  import opened DecapRules
  import opened EncapRules
  import opened Machine
  import opened Isolation
  import opened Removal

  function Ifindexes(endpoints: map<nat, Info>): set<nat> {
    set v | v in endpoints :: endpoints[v].ifindex
  }

  /** The interfaces decap delivers to. */
  function Live(s: State): set<nat> {
    Ifindexes(s.endpoints)
  }

  /**
   The order of kernel operations counting relies on: an endpoint is inserted once every removed one is swept
   and its veth gone, encap is attached only for an inserted endpoint, and counters are swept only after the
   veth is deleted.
   */
  predicate Quiet(s: State, e: Event) {
    Ordered(s, e) &&
    match e
    case Insert(v, info) => RowsWithin(s, {}) && s.veths.Keys <= Live(s) + {info.ifindex}
    case Attach(i) => i in Live(s)
    case SweepRows(i) => i !in s.veths && i != s.cfg.uplink
    case _ => true
  }

  predicate AllQuiet(s: State, evs: seq<Event>)
    decreases |evs|
  {
    evs == [] || (Quiet(s, evs[0]) && (Step(s, evs[0]).Some? ==> AllQuiet(Step(s, evs[0]).value, evs[1..])))
  }

  // ---- The map never fills ----

  /** At most MaxEndpoints interfaces, beside the uplink, have rows or can get one. */
  predicate Slotted(s: State, slots: set<nat>) {
    && |slots| <= s.cfg.maxEndpoints
    && Live(s) <= slots && s.attached <= slots
    && (forall k :: k in s.rows ==> k.ifindex in slots || k.ifindex == s.cfg.uplink)
    && (forall c :: c in s.runs ==> s.runs[c].ifindex in slots || s.runs[c].ifindex == s.cfg.uplink)
  }

  /** A removed endpoint keeps its place until the next one is inserted. */
  function NextSlots(s: State, e: Event, slots: set<nat>): set<nat> {
    if e.Insert? then Live(s) + {e.info.ifindex} else slots
  }

  lemma {:induction false} ImageSize(m: map<nat, Info>)
    ensures |Ifindexes(m)| <= |m|
  {
    if m != map[] {
      var x :| x in m;
      var rest := m - {x};
      ImageSize(rest);
      assert m.Keys == rest.Keys + {x};
      forall i | i in Ifindexes(m)
        ensures i in Ifindexes(rest) + {m[x].ifindex}
      {
        var v :| v in m && m[v].ifindex == i;
        assert v == x || v in rest;
      }
      SubsetSize(Ifindexes(m), Ifindexes(rest) + {m[x].ifindex});
    }
  }

  lemma StartIsLive(s: State, f: seq<Byte>)
    ensures var d := Decide(s.cfg, s.endpoints, f); d.ifindex == s.cfg.uplink || d.ifindex in Live(s)
  {
    if Decide(s.cfg, s.endpoints, f).Settle? {
      SettleIfindex(s.cfg, s.endpoints, f);
    }
  }

  /** A run works for the uplink, a live endpoint's interface or one encap is attached to. */
  lemma RunsHome(s: State, e: Event)
    requires Step(s, e).Some?
    ensures forall c :: c in Step(s, e).value.runs ==>
              var i := Step(s, e).value.runs[c].ifindex;
              i == s.cfg.uplink || i in Live(s) || i in s.attached || (c in s.runs && i == s.runs[c].ifindex)
  {
    RunsEffect(s, e);
    if e.DecapStart? {
      StartIsLive(s, e.frame);
    }
  }

  /** Every run works for the uplink or a live veth, counts for nothing else, and sends only from a veth. */
  predicate Homed(s: State) {
    forall c :: c in s.runs ==>
      && (s.runs[c].ifindex == s.cfg.uplink || s.runs[c].ifindex in s.veths)
      && CountsItsOwn(s.runs[c]) && (s.runs[c].out.Some? ==> s.runs[c].ifindex in s.veths)
  }

  lemma InvIsHomed(s: State)
    requires RunsOk(s) && CountsOk(s)
    ensures Homed(s)
  {
    forall c | c in s.runs
      ensures RunOk(s, s.runs[c])
    {
    }
  }

  lemma SlotsStay(s: State, e: Event, slots: set<nat>)
    requires EndpointsOk(s) && Homed(s) && Quiet(s, e) && Slotted(s, slots) && Step(s, e).Some?
    ensures Slotted(Step(s, e).value, NextSlots(s, e, slots))
  {
    if e.Insert? {
      InsertSlots(s, e.vpce, e.info);
    } else {
      FlowEffect(s, e);
      if IsControl(e) {
        ControlEffect(s, e);
      } else {
        DatapathEffect(s, e);
      }
      RunsHome(s, e);
      RowsEffect(s, e);
      SlotsKept(s, e, Step(s, e).value, slots);
    }
  }

  lemma InsertSlots(s: State, v: nat, info: Info)
    requires EndpointsOk(s) && Homed(s) && Quiet(s, Insert(v, info)) && |s.endpoints| < s.cfg.maxEndpoints
    ensures Slotted(s.(endpoints := s.endpoints[v := info]), Live(s) + {info.ifindex})
  {
    ImageSize(s.endpoints);
  }

  lemma SlotsKept(s: State, e: Event, t: State, slots: set<nat>)
    requires Slotted(s, slots) && t.cfg == s.cfg && Live(t) <= Live(s)
    requires t.attached <= s.attached + if e.Attach? then {e.ifindex} else {}
    requires e.Attach? ==> e.ifindex in Live(s)
    requires forall c :: c in t.runs ==>
               var i := t.runs[c].ifindex;
               i == s.cfg.uplink || i in Live(s) || i in s.attached || (c in s.runs && i == s.runs[c].ifindex)
    requires forall k :: k in t.rows ==> k in s.rows || (exists c :: c in s.runs && s.runs[c].ifindex == k.ifindex)
    ensures Slotted(t, slots)
  {
  }

  /** The twenty rows of one interface. */
  function RowsOf(i: nat): set<RowKey> {
    {RowKey(i, DecapPassNotGeneve, false), RowKey(i, DecapDropMalformed, false),
     RowKey(i, DecapDropUnknownEndpoint, false), RowKey(i, DecapOk, false), RowKey(i, EncapDropMalformed, false),
     RowKey(i, EncapDropFlowMiss, false), RowKey(i, EncapOk, false), RowKey(i, DecapDropOrigin, false),
     RowKey(i, DecapDropOversize, false), RowKey(i, EncapDropOversize, false)} +
    {RowKey(i, DecapPassNotGeneve, true), RowKey(i, DecapDropMalformed, true),
     RowKey(i, DecapDropUnknownEndpoint, true), RowKey(i, DecapOk, true), RowKey(i, EncapDropMalformed, true),
     RowKey(i, EncapDropFlowMiss, true), RowKey(i, EncapOk, true), RowKey(i, DecapDropOrigin, true),
     RowKey(i, DecapDropOversize, true), RowKey(i, EncapDropOversize, true)}
  }

  lemma RowIsListed(k: RowKey)
    ensures k in RowsOf(k.ifindex)
  {
    var packets, bytes := RowKey(k.ifindex, k.counter, false), RowKey(k.ifindex, k.counter, true);
    assert k == if k.bytes then bytes else packets;
    match k.counter {
      case DecapPassNotGeneve => assert packets in RowsOf(k.ifindex) && bytes in RowsOf(k.ifindex);
      case DecapDropMalformed => assert packets in RowsOf(k.ifindex) && bytes in RowsOf(k.ifindex);
      case DecapDropUnknownEndpoint => assert packets in RowsOf(k.ifindex) && bytes in RowsOf(k.ifindex);
      case _ => assert packets in RowsOf(k.ifindex) && bytes in RowsOf(k.ifindex);
    }
  }

  lemma RowsOfOne(rows: set<RowKey>, i: nat)
    requires forall k :: k in rows ==> k.ifindex == i
    ensures |rows| <= 20
  {
    forall k | k in rows
      ensures k in RowsOf(i)
    {
      RowIsListed(k);
    }
    SubsetSize(rows, RowsOf(i));
  }

  lemma {:induction false} RowsPerInterface(rows: set<RowKey>, at: set<nat>)
    requires forall k :: k in rows ==> k.ifindex in at
    ensures |rows| <= 20 * |at|
  {
    if at == {} {
      assert rows == {};
    } else {
      var i :| i in at;
      var mine := set k | k in rows && k.ifindex == i;
      RowsOfOne(mine, i);
      RowsPerInterface(rows - mine, at - {i});
    }
  }

  /** There is room for any row a run may need. */
  lemma RoomForRow(s: State, slots: set<nat>, row: RowKey)
    requires Slotted(s, slots) && row !in s.rows
    requires row.ifindex in slots || row.ifindex == s.cfg.uplink
    ensures |s.rows| < MaxRows(s.cfg)
  {
    RowsPerInterface(s.rows.Keys + {row}, slots + {s.cfg.uplink});
    assert |s.rows.Keys + {row}| == |s.rows| + 1;
  }

  // ---- Every increment lands ----

  type Tally = map<(RowKey, nat), nat>

  ghost predicate Agree(rows: Rows, tally: Tally) {
    forall row, cpu :: Value(rows, row, cpu) == Get(tally, (row, cpu))
  }

  /** What a run knows of the row it is about to add to: nobody else touches this CPU's value, or deletes it. */
  predicate MicroOk(rows: Rows, micro: Micro, row: RowKey, cpu: nat) {
    match micro
    case LookAgain => row in rows
    case Add(v) => row in rows && v == Value(rows, row, cpu)
    case _ => true
  }

  predicate RunCounts(rows: Rows, r: Run, cpu: nat) {
    r.phase.Counting? && r.todo != [] ==> MicroOk(rows, r.phase.micro, r.todo[0].row, cpu)
  }

  ghost predicate Counted(s: State) {
    && s.lost == 0
    && Agree(s.rows, s.tally)
    && forall c :: c in s.runs ==> RunCounts(s.rows, s.runs[c], c)
  }

  /** One step of one CPU: no row lost, no other CPU's value touched, the tally moved by what was counted. */
  lemma OneCounts(p: Progress, maxRows: nat, cpu: nat)
    requires p.todo != [] && Agree(p.rows, p.tally)
    requires MicroOk(p.rows, p.micro, p.todo[0].row, cpu)
    requires p.todo[0].row !in p.rows ==> |p.rows| < maxRows
    ensures var q := CountOne(p, maxRows, cpu);
            && q.lost == p.lost && Agree(q.rows, q.tally) && p.rows.Keys <= q.rows.Keys
            && (q.todo == p.todo ==> MicroOk(q.rows, q.micro, p.todo[0].row, cpu))
            && (q.todo != p.todo ==> q.micro == Look)
            && (forall row, c :: c != cpu ==> Value(q.rows, row, c) == Value(p.rows, row, c))
  {
    var q, row := CountOne(p, maxRows, cpu), p.todo[0].row;
    if p.micro.Add? {
      assert |q.todo| < |p.todo|;
      forall r, c
        ensures Value(q.rows, r, c) == Value(p.rows, r, c) + if r == row && c == cpu then p.todo[0].amount else 0
      {
      }
    }
  }

  lemma CountStepCounts(s: State, cpu: nat, slots: set<nat>)
    requires Homed(s) && Slotted(s, slots) && Counted(s) && CountOnce(s, cpu).Some?
    ensures Counted(CountOnce(s, cpu).value)
  {
    var p, t := ProgressOf(s, cpu), CountOnce(s, cpu).value;
    assert CountsItsOwn(s.runs[cpu]) && RunCounts(s.rows, s.runs[cpu], cpu);
    if p.todo[0].row !in p.rows {
      RoomForRow(s, slots, p.todo[0].row);
    }
    OneCounts(p, MaxRows(s.cfg), cpu);
    forall c | c in t.runs
      ensures RunCounts(t.rows, t.runs[c], c)
    {
      if c != cpu {
        assert RunCounts(s.rows, s.runs[c], c);
      }
    }
  }

  /** Nobody counts on a row that is swept. */
  lemma SweepCounts(s: State, i: nat)
    requires Homed(s) && Counted(s) && i !in s.veths && i != s.cfg.uplink
    ensures Counted(Step(s, SweepRows(i)).value)
  {
    var t := Step(s, SweepRows(i)).value;
    forall c | c in t.runs
      ensures RunCounts(t.rows, t.runs[c], c)
    {
      assert RunCounts(s.rows, s.runs[c], c) && CountsItsOwn(s.runs[c]);
    }
  }

  predicate SameCounts(s: State, t: State) {
    t.rows == s.rows && t.tally == s.tally && t.octets == s.octets && t.lost == s.lost
  }

  /** Between two counting steps a run's phase moves on to its counting, or stays. */
  predicate SameTodo(q: Run, r: Run) {
    r == q || (r == q.(phase := r.phase) && !q.phase.Counting? && (r.phase == Counting(Look) || !r.phase.Counting?))
  }

  /** Events that neither start, end nor count for a run leave what is counted, and what is to be, alone. */
  lemma UncountedEffect(s: State, e: Event)
    requires Step(s, e).Some? && !e.DecapStart? && !e.EncapStart? && !e.CountStep? && !e.Finish? && !e.SweepRows?
    ensures var t := Step(s, e).value;
            SameCounts(s, t) && t.runs.Keys == s.runs.Keys && forall c :: c in s.runs ==> SameTodo(s.runs[c], t.runs[c])
  {
    if IsControl(e) {
      ControlEffect(s, e);
    }
  }

  /** A run that starts has counted nothing, and will count for what it sends and nothing else. */
  lemma StartEffect(s: State, e: Event)
    requires Step(s, e).Some? && (e.DecapStart? || e.EncapStart?)
    ensures e.cpu !in s.runs && e.cpu in Step(s, e).value.runs
    ensures var t := Step(s, e).value;
            var r := t.runs[e.cpu];
            && SameCounts(s, t) && t.runs == s.runs[e.cpu := r]
            && (r.phase.Counting? ==> r.phase.micro.Look?) && Pays(r) && (r.out.Some? ==> r.todo != [])
  {
    if e.DecapStart? {
      DecapStartsWithPair(Decide(s.cfg, s.endpoints, e.frame), e.frame);
    } else {
      EncapPays(s, e.ifindex, e.frame, e.headroom);
    }
  }

  lemma StillCounted(s: State, t: State)
    requires Counted(s) && t.rows == s.rows && t.tally == s.tally && t.lost == s.lost
    requires forall c :: c in t.runs ==>
               || (c in s.runs && SameTodo(s.runs[c], t.runs[c]))
               || (t.runs[c].phase.Counting? ==> t.runs[c].phase.micro.Look?)
    ensures Counted(t)
  {
    forall c | c in t.runs
      ensures RunCounts(t.rows, t.runs[c], c)
    {
      if c in s.runs {
        assert RunCounts(s.rows, s.runs[c], c);
      }
    }
  }

  // ---- What is counted is what was sent ----

  /** A run that will send counts its frame's length as sent once; no other run counts a frame as sent. */
  predicate Pays(r: Run) {
    match r.out
    case None => forall b :: b in r.todo ==> !b.row.counter.EncapOk?
    case Some(g) =>
      var pair := Pair(r.ifindex, EncapOk, |g|);
      (r.todo == pair || r.todo == pair[1..] || r.todo == []) && (r.phase.Counting? || r.todo == pair)
  }

  /** What CPU `cpu` has counted for a frame of interface `i` it has yet to send. */
  function Ahead(s: State, i: nat, cpu: nat): nat {
    if cpu in s.runs && s.runs[cpu].ifindex == i && s.runs[cpu].out.Some? && s.runs[cpu].todo == []
      then |s.runs[cpu].out.value| else 0
  }

  function SentRow(i: nat): RowKey {
    RowKey(i, EncapOk, true)
  }

  ghost predicate PaidUp(s: State) {
    && (forall c :: c in s.runs ==> Pays(s.runs[c]))
    && forall i, c :: Get(s.tally, (SentRow(i), c)) == Get(s.octets, (i, c)) + Ahead(s, i, c)
  }

  lemma DecapStartsWithPair(d: Decision, f: seq<Byte>)
    requires d.Deliver? ==> |f| >= HDR_LEN
    requires d.Settle? ==> OnePair(d.bumps, d.ifindex, |f|) && forall b :: b in d.bumps ==> !b.row.counter.EncapOk?
    ensures OnePair(StartDecap(d, f).todo, StartDecap(d, f).ifindex, |f|) && Pays(StartDecap(d, f))
  {
  }

  lemma EndingPays(i: nat, f: seq<Byte>, hit: Option<Header>, headroom: nat)
    requires |f| >= ETH_LEN
    ensures var e := EncapRules.Finish(i, f, hit, headroom);
            if e.out.Some? then e.bumps == Pair(i, EncapOk, |e.out.value|)
            else OnePair(e.bumps, i, |f|) && forall b :: b in e.bumps ==> !b.row.counter.EncapOk?
  {
  }

  /** A run that sends nothing counts one pair or nothing; one that sends counts exactly what it sends. */
  lemma EncapPays(s: State, i: nat, f: seq<Byte>, headroom: nat)
    ensures var r := StartEncap(s, i, f, headroom);
            Pays(r) && if r.out.Some? then r.todo == Pair(i, EncapOk, |r.out.value|) else OnePair(r.todo, i, |f|)
  {
    match Classify(s.cfg, i, f) {
      case Ignore =>
      case Refuse(c) =>
      case Ask(inFrag, key, record) => EndingPays(i, f, Found(s.flow, s.frag, Ask(inFrag, key, record)), headroom);
    }
  }

  /** The tally moves by the increment that is over, and by nothing else. */
  lemma CountPays(s: State, cpu: nat)
    requires PaidUp(s) && Homed(s) && CountOnce(s, cpu).Some?
    ensures PaidUp(CountOnce(s, cpu).value)
  {
    var r, p, t := s.runs[cpu], ProgressOf(s, cpu), CountOnce(s, cpu).value;
    var q := CountOne(p, MaxRows(s.cfg), cpu);
    assert Pays(r) && CountsItsOwn(r) && r.todo[0] in r.todo;
    assert forall b :: b in r.todo[1..] ==> b in r.todo;
    CountPaysOne(p, MaxRows(s.cfg), cpu);
    forall i, c
      ensures Get(t.tally, (SentRow(i), c)) == Get(t.octets, (i, c)) + Ahead(t, i, c)
    {
      assert Get(s.tally, (SentRow(i), c)) == Get(s.octets, (i, c)) + Ahead(s, i, c);
    }
  }

  lemma CountPaysOne(p: Progress, maxRows: nat, cpu: nat)
    requires p.todo != []
    ensures var q := CountOne(p, maxRows, cpu);
            && (q.todo == p.todo || q.todo == p.todo[1..])
            && forall at :: Get(q.tally, at) ==
                            Get(p.tally, at) +
                            if at == (p.todo[0].row, cpu) && q.todo != p.todo then p.todo[0].amount else 0
  {
    var q := CountOne(p, maxRows, cpu);
    assert q.todo != p.todo ==> |q.todo| < |p.todo|;
  }

  /** A run that ends has counted exactly what it sends. */
  lemma FinishCounts(s: State, cpu: nat)
    requires Homed(s) && Counted(s) && PaidUp(s) && End(s, cpu).Some?
    ensures Counted(End(s, cpu).value) && PaidUp(End(s, cpu).value)
  {
    var t := End(s, cpu).value;
    StillCounted(s, t);
    forall i, c
      ensures Get(t.tally, (SentRow(i), c)) == Get(t.octets, (i, c)) + Ahead(t, i, c)
    {
      assert Get(s.tally, (SentRow(i), c)) == Get(s.octets, (i, c)) + Ahead(s, i, c);
    }
  }

  lemma StartCounts(s: State, e: Event)
    requires Counted(s) && PaidUp(s) && (e.DecapStart? || e.EncapStart?) && Step(s, e).Some?
    ensures Counted(Step(s, e).value) && PaidUp(Step(s, e).value)
  {
    StartEffect(s, e);
    StillCounted(s, Step(s, e).value);
    NewRunPays(s, Step(s, e).value, e.cpu);
  }

  lemma SweepPays(s: State, i: nat)
    requires Homed(s) && PaidUp(s) && i !in s.veths && i != s.cfg.uplink
    ensures PaidUp(Step(s, SweepRows(i)).value)
  {
    var t := Step(s, SweepRows(i)).value;
    forall j, c
      ensures Get(t.tally, (SentRow(j), c)) == Get(t.octets, (j, c)) + Ahead(t, j, c)
    {
      assert Get(s.tally, (SentRow(j), c)) == Get(s.octets, (j, c)) + Ahead(s, j, c);
    }
  }

  lemma NewRunPays(s: State, t: State, cpu: nat)
    requires PaidUp(s) && SameCounts(s, t) && cpu in t.runs && cpu !in s.runs && t.runs == s.runs[cpu := t.runs[cpu]]
    requires Pays(t.runs[cpu]) && (t.runs[cpu].out.Some? ==> t.runs[cpu].todo != [])
    ensures PaidUp(t)
  {
    forall i, c
      ensures Get(t.tally, (SentRow(i), c)) == Get(t.octets, (i, c)) + Ahead(t, i, c)
    {
      assert Get(s.tally, (SentRow(i), c)) == Get(s.octets, (i, c)) + Ahead(s, i, c);
    }
  }

  lemma PhasesPay(s: State, t: State)
    requires Counted(s) && PaidUp(s) && SameCounts(s, t) && t.runs.Keys == s.runs.Keys
    requires forall c :: c in s.runs ==> SameTodo(s.runs[c], t.runs[c])
    ensures Counted(t) && PaidUp(t)
  {
    StillCounted(s, t);
    forall c | c in t.runs
      ensures Pays(t.runs[c])
    {
      assert Pays(s.runs[c]);
    }
    forall i, c
      ensures Get(t.tally, (SentRow(i), c)) == Get(t.octets, (i, c)) + Ahead(t, i, c)
    {
      assert Get(s.tally, (SentRow(i), c)) == Get(s.octets, (i, c)) + Ahead(s, i, c);
    }
  }

  lemma StepCounts(s: State, e: Event, slots: set<nat>)
    requires Homed(s) && Quiet(s, e) && Slotted(s, slots) && Counted(s) && PaidUp(s) && Step(s, e).Some?
    ensures Counted(Step(s, e).value) && PaidUp(Step(s, e).value)
  {
    match e {
      case CountStep(cpu) =>
        CountStepCounts(s, cpu, slots);
        CountPays(s, cpu);
      case SweepRows(i) =>
        SweepCounts(s, i);
        SweepPays(s, i);
      case Finish(cpu) => FinishCounts(s, cpu);
      case DecapStart(_, _) => StartCounts(s, e);
      case EncapStart(_, _, _, _) => StartCounts(s, e);
      case _ =>
        UncountedEffect(s, e);
        PhasesPay(s, Step(s, e).value);
    }
  }

  // ---- The results ----

  lemma {:induction false} RunsCount(s: State, evs: seq<Event>, slots: set<nat>)
    requires Inv(s) && CountsOk(s) && Slotted(s, slots) && Counted(s) && PaidUp(s)
    requires AllQuiet(s, evs) && Exec(s, evs).Some?
    ensures Counted(Exec(s, evs).value) && PaidUp(Exec(s, evs).value)
    decreases |evs|
  {
    if evs != [] {
      var e := evs[0];
      InvIsHomed(s);
      StepKeepsInv(s, e);
      CountsStayOk(s, e);
      SlotsStay(s, e, slots);
      StepCounts(s, e, slots);
      RunsCount(Step(s, e).value, evs[1..], NextSlots(s, e, slots));
    }
  }

  /**
   No count is lost, in any run from the empty system: every increment found its row, each row's per-CPU values
   are the increments performed since it was swept, and between runs the octets counted as sent from a veth
   are the octets put on the wire.
   */
  lemma NoCountLost(cfg: Config, policy: Policy, evs: seq<Event>)
    requires AllQuiet(Init(cfg, policy), evs) && Exec(Init(cfg, policy), evs).Some?
    ensures var s := Exec(Init(cfg, policy), evs).value;
            && s.lost == 0
            && (forall row, cpu :: Value(s.rows, row, cpu) == Get(s.tally, (row, cpu)))
            && (forall i, cpu :: cpu !in s.runs ==> Value(s.rows, SentRow(i), cpu) == Get(s.octets, (i, cpu)))
  {
    var s := Exec(Init(cfg, policy), evs).value;
    RunsCount(Init(cfg, policy), evs, {});
    forall i, cpu | cpu !in s.runs
      ensures Value(s.rows, SentRow(i), cpu) == Get(s.octets, (i, cpu))
    {
      assert Get(s.tally, (SentRow(i), cpu)) == Get(s.octets, (i, cpu)) + Ahead(s, i, cpu);
    }
  }

  /** The octets counted so far are the octets sent. */
  predicate OctetsSent(octets: map<(nat, nat), nat>, sent: seq<Sent>, i: nat, cpu: nat) {
    Get(octets, (i, cpu)) == SentOctets(sent, i, cpu)
  }

  lemma OneMoreSent(octets: map<(nat, nat), nat>, sent: seq<Sent>, x: Sent, i: nat, cpu: nat)
    requires OctetsSent(octets, sent, i, cpu)
    ensures var at := (x.ifindex, x.cpu);
            OctetsSent(octets[at := Get(octets, at) + |x.frame|], sent + [x], i, cpu)
  {
    assert (sent + [x])[..|sent|] == sent;
  }

  lemma OctetsStep(s: State, e: Event, i: nat, cpu: nat)
    requires Step(s, e).Some? && !(e.SweepRows? && e.ifindex == i) && OctetsSent(s.octets, s.sent, i, cpu)
    ensures OctetsSent(Step(s, e).value.octets, Step(s, e).value.sent, i, cpu)
  {
    if e.Finish? && s.runs[e.cpu].out.Some? && s.runs[e.cpu].ifindex in s.veths {
      var r := s.runs[e.cpu];
      OneMoreSent(s.octets, s.sent, Sent(e.cpu, r.ifindex, s.veths[r.ifindex], r.frame, r.out.value), i, cpu);
    }
  }

  lemma {:induction false} OctetsAreSent(s: State, evs: seq<Event>, i: nat, cpu: nat)
    requires Exec(s, evs).Some? && SweepRows(i) !in evs
    requires OctetsSent(s.octets, s.sent, i, cpu)
    ensures OctetsSent(Exec(s, evs).value.octets, Exec(s, evs).value.sent, i, cpu)
    decreases |evs|
  {
    if evs != [] {
      OctetsStep(s, evs[0], i, cpu);
      OctetsAreSent(Step(s, evs[0]).value, evs[1..], i, cpu);
    }
  }

  /** As long as a veth is not swept, encap_ok_bytes is the total length of the frames sent from it, CPU by CPU. */
  lemma SentIsCounted(cfg: Config, policy: Policy, evs: seq<Event>, i: nat, cpu: nat)
    requires AllQuiet(Init(cfg, policy), evs) && Exec(Init(cfg, policy), evs).Some?
    requires SweepRows(i) !in evs && cpu !in Exec(Init(cfg, policy), evs).value.runs
    ensures var s := Exec(Init(cfg, policy), evs).value;
            Value(s.rows, SentRow(i), cpu) == SentOctets(s.sent, i, cpu)
  {
    NoCountLost(cfg, policy, evs);
    OctetsAreSent(Init(cfg, policy), evs, i, cpu);
  }
}
