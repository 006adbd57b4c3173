/**
 The step machine and the programs agree: a run nothing interleaves with does in its steps exactly what the whole
 program does, to the caches, to its CPU's counters and on the wire.
 */
module Alone {
  import opened Bytes
  import opened OuterHeader
  import opened Programs
  import opened DecapRules
  import Rules = EncapRules
  import opened Machine
  import XdpPrograms

  /** The metrics map as one CPU's increments see it. */
  function OfCPU(rows: Rows, cpu: nat): map<RowKey, nat> {
    map k | k in rows :: Get(rows[k], cpu)
  }

  /** `n` steps of counting on one CPU. */
  function Iterate(p: Progress, maxRows: nat, cpu: nat, n: nat): Progress
    decreases n
  {
    if n == 0 || p.todo == [] then p else Iterate(CountOne(p, maxRows, cpu), maxRows, cpu, n - 1)
  }

  /** How many steps the first pending increment takes: two, or three or four if its row is missing. */
  function StepsOf(p: Progress, maxRows: nat): nat
    requires p.todo != []
  {
    if p.todo[0].row in p.rows then 2 else if |p.rows| < maxRows then 4 else 3
  }

  lemma Unfold(p: Progress, maxRows: nat, cpu: nat, n: nat)
    requires p.todo != [] && n > 0
    ensures Iterate(p, maxRows, cpu, n) == Iterate(CountOne(p, maxRows, cpu), maxRows, cpu, n - 1)
  {
  }

  /** `q` is `p` with the first pending increment done as the program does it. */
  predicate Counted(p: Progress, q: Progress, maxRows: nat, cpu: nat)
    requires p.todo != []
  {
    OfCPU(q.rows, cpu) == Count(OfCPU(p.rows, cpu), maxRows, p.todo[0]) && q.micro.Look? && q.todo == p.todo[1..]
  }

  lemma PresentCounted(p: Progress, maxRows: nat, cpu: nat)
    requires p.todo != [] && p.micro.Look? && p.todo[0].row in p.rows
    ensures CountOne(p, maxRows, cpu).todo == p.todo
    ensures Counted(p, CountOne(CountOne(p, maxRows, cpu), maxRows, cpu), maxRows, cpu)
  {
    var row := p.todo[0].row;
    var value := Value(p.rows, row, cpu) + p.todo[0].amount;
    assert OfCPU(Put(p.rows, row, cpu, value), cpu) == OfCPU(p.rows, cpu)[row := value];
  }

  lemma MissingCounted(p: Progress, maxRows: nat, cpu: nat)
    requires p.todo != [] && p.micro.Look? && p.todo[0].row !in p.rows
    ensures var b := CountOne(CountOne(p, maxRows, cpu), maxRows, cpu);
            && CountOne(p, maxRows, cpu).todo == b.todo == p.todo
            && var c := CountOne(b, maxRows, cpu);
               if |p.rows| < maxRows then c.todo == p.todo && Counted(p, CountOne(c, maxRows, cpu), maxRows, cpu)
               else Counted(p, c, maxRows, cpu)
  {
    var row, amount := p.todo[0].row, p.todo[0].amount;
    var created: Rows := p.rows[row := map[]];
    assert OfCPU(p.rows, cpu).Keys == p.rows.Keys && |OfCPU(p.rows, cpu)| == |OfCPU(p.rows, cpu).Keys|;
    assert OfCPU(Put(created, row, cpu, amount), cpu) == OfCPU(p.rows, cpu)[row := amount];
  }

  lemma IterateTwo(p: Progress, maxRows: nat, cpu: nat)
    requires p.todo != [] && CountOne(p, maxRows, cpu).todo == p.todo
    ensures Iterate(p, maxRows, cpu, 1) == CountOne(p, maxRows, cpu)
    ensures Iterate(p, maxRows, cpu, 2) == CountOne(CountOne(p, maxRows, cpu), maxRows, cpu)
  {
    var a := CountOne(p, maxRows, cpu);
    Unfold(p, maxRows, cpu, 1);
    Unfold(p, maxRows, cpu, 2);
    Unfold(a, maxRows, cpu, 1);
  }

  /** An increment by itself is increment_metric: create if absent and there is room, then add. */
  lemma IncrementIsCount(p: Progress, maxRows: nat, cpu: nat)
    requires p.todo != [] && p.micro.Look?
    ensures Counted(p, Iterate(p, maxRows, cpu, StepsOf(p, maxRows)), maxRows, cpu)
    ensures forall k :: 0 <= k < StepsOf(p, maxRows) ==> Iterate(p, maxRows, cpu, k).todo == p.todo
  {
    assert Iterate(p, maxRows, cpu, 0) == p;
    if p.todo[0].row in p.rows {
      PresentCounted(p, maxRows, cpu);
      IterateTwo(p, maxRows, cpu);
    } else {
      var a := CountOne(p, maxRows, cpu);
      MissingCounted(p, maxRows, cpu);
      if |p.rows| < maxRows {
        IterateTwo(CountOne(a, maxRows, cpu), maxRows, cpu);
      }
      IterateTwo(p, maxRows, cpu);
      IterateTwo(a, maxRows, cpu);
      Unfold(p, maxRows, cpu, 3);
      Unfold(p, maxRows, cpu, 4);
      Unfold(a, maxRows, cpu, 3);
    }
  }

  /** `t` is `s` but for the counters and how far the run on `cpu` has counted. */
  predicate OnlyCounted(s: State, t: State, cpu: nat) {
    && cpu in s.runs && cpu in t.runs
    && t == s.(rows := t.rows, lost := t.lost, tally := t.tally, runs := s.runs[cpu := t.runs[cpu]])
    && t.runs[cpu] == s.runs[cpu].(phase := t.runs[cpu].phase, todo := t.runs[cpu].todo)
  }

  /** The run on `cpu` has got to `p`. */
  predicate At(s: State, cpu: nat, p: Progress) {
    && cpu in s.runs && s.runs[cpu].phase == Counting(p.micro) && s.runs[cpu].todo == p.todo
    && s.rows == p.rows && s.lost == p.lost && s.tally == p.tally
  }

  /** `n` counting steps in a row. */
  function Counts(cpu: nat, n: nat): seq<Event> {
    if n == 0 then [] else [CountStep(cpu)] + Counts(cpu, n - 1)
  }

  lemma OneStep(s: State, cpu: nat, p: Progress)
    requires At(s, cpu, p) && p.todo != []
    ensures Step(s, CountStep(cpu)).Some?
    ensures var t := Step(s, CountStep(cpu)).value;
            OnlyCounted(s, t, cpu) && At(t, cpu, CountOne(p, MaxRows(s.cfg), cpu))
  {
  }

  lemma ThenOnly(s: State, t: State, u: State, cpu: nat)
    requires OnlyCounted(s, t, cpu) && OnlyCounted(t, u, cpu)
    ensures OnlyCounted(s, u, cpu)
  {
  }

  lemma {:induction false} Steps(s: State, cpu: nat, p: Progress, n: nat)
    requires At(s, cpu, p)
    requires forall k :: 0 <= k < n ==> Iterate(p, MaxRows(s.cfg), cpu, k).todo != []
    ensures Exec(s, Counts(cpu, n)).Some?
    ensures var t := Exec(s, Counts(cpu, n)).value;
            OnlyCounted(s, t, cpu) && At(t, cpu, Iterate(p, MaxRows(s.cfg), cpu, n))
    decreases n
  {
    if n > 0 {
      assert Iterate(p, MaxRows(s.cfg), cpu, 0) == p;
      OneStep(s, cpu, p);
      StillTodo(p, MaxRows(s.cfg), cpu, n);
      var t := Step(s, CountStep(cpu)).value;
      Steps(t, cpu, CountOne(p, MaxRows(s.cfg), cpu), n - 1);
      ExecAppend(s, [CountStep(cpu)], Counts(cpu, n - 1));
      ExecOne(s, CountStep(cpu));
      Unfold(p, MaxRows(s.cfg), cpu, n);
      ThenOnly(s, t, Exec(t, Counts(cpu, n - 1)).value, cpu);
    }
  }

  lemma StillTodo(p: Progress, maxRows: nat, cpu: nat, n: nat)
    requires n > 0 && p.todo != [] && forall k :: 0 <= k < n ==> Iterate(p, maxRows, cpu, k).todo != []
    ensures forall k :: 0 <= k < n - 1 ==> Iterate(CountOne(p, maxRows, cpu), maxRows, cpu, k).todo != []
  {
    forall k | 0 <= k < n - 1
      ensures Iterate(CountOne(p, maxRows, cpu), maxRows, cpu, k).todo != []
    {
      Unfold(p, maxRows, cpu, k + 1);
    }
  }

  /** All of a run's counting, by itself, is the program's. */
  lemma {:induction false} CountsAlone(s: State, cpu: nat, p: Progress) returns (evs: seq<Event>)
    requires At(s, cpu, p) && p.micro.Look?
    ensures Exec(s, evs).Some?
    ensures var t := Exec(s, evs).value;
            && OnlyCounted(s, t, cpu) && t.runs[cpu].phase == Counting(Look) && t.runs[cpu].todo == []
            && OfCPU(t.rows, cpu) == CountAll(OfCPU(s.rows, cpu), MaxRows(s.cfg), p.todo)
    decreases |p.todo|
  {
    if p.todo == [] {
      evs := [];
    } else {
      var max := MaxRows(s.cfg);
      var n := StepsOf(p, max);
      IncrementIsCount(p, max, cpu);
      Steps(s, cpu, p, n);
      var t := Exec(s, Counts(cpu, n)).value;
      var rest := CountsAlone(t, cpu, Iterate(p, max, cpu, n));
      evs := Counts(cpu, n) + rest;
      ExecAppend(s, Counts(cpu, n), rest);
      ThenOnly(s, t, Exec(t, rest).value, cpu);
    }
  }

  // ---- Whole runs ----

  /** `t` is `s` after the run `r` ended: it counted all it had to, sent what it had, and is gone. */
  predicate Ended(s: State, t: State, cpu: nat, r: Run) {
    && t.runs == s.runs - {cpu} && t.flow == s.flow && t.frag == s.frag && t.sent == SentBy(s, cpu, r)
    && t.handed == HandedBy(s, cpu, r)
    && OfCPU(t.rows, cpu) == CountAll(OfCPU(s.rows, cpu), MaxRows(s.cfg), r.todo)
  }

  /** Counting and ending. */
  lemma EndsAlone(s: State, cpu: nat) returns (evs: seq<Event>)
    requires cpu in s.runs && s.runs[cpu].phase == Counting(Look)
    ensures Exec(s, evs).Some? && Ended(s, Exec(s, evs).value, cpu, s.runs[cpu])
  {
    var counted := CountsAlone(s, cpu, Progress(s.rows, s.lost, s.tally, Look, s.runs[cpu].todo));
    var t := Exec(s, counted).value;
    evs := counted + [Event.Finish(cpu)];
    ExecAppend(s, counted, [Event.Finish(cpu)]);
    ExecOne(t, Event.Finish(cpu));
    assert t.runs - {cpu} == s.runs - {cpu};
  }

  /** decap's lookup and conditional write, back to back, publish as the program does. */
  lemma PublishesAlone(s: State, cpu: nat)
    requires s.policy.WriteChanged? && cpu in s.runs && s.runs[cpu].phase.Publish? && s.runs[cpu].key.Some?
    ensures Exec(s, [DecapDecide(cpu), DecapWrite(cpu)])
         == Some(Moved(s.(flow := XdpPrograms.Published(s.flow, s.runs[cpu].key, s.runs[cpu].hdr)), cpu,
                       Counting(Look)))
  {
    var t := Step(s, DecapDecide(cpu)).value;
    assert [DecapDecide(cpu), DecapWrite(cpu)] == [DecapDecide(cpu)] + [DecapWrite(cpu)];
    ExecAppend(s, [DecapDecide(cpu)], [DecapWrite(cpu)]);
    ExecOne(s, DecapDecide(cpu));
    ExecOne(t, DecapWrite(cpu));
    assert t.runs[cpu := t.runs[cpu].(phase := Counting(Look))] == s.runs[cpu := s.runs[cpu].(phase := Counting(Look))];
  }

  /** The run of decap `r`, from its start to its end. */
  lemma DecapRunAlone(s: State, cpu: nat, r: Run) returns (evs: seq<Event>)
    requires s.policy.WriteChanged? && cpu in s.runs && s.runs[cpu] == r
    requires r.phase == Counting(Look) || (r.phase.Publish? && r.key.Some?)
    ensures Exec(s, evs).Some?
    ensures Ended(s.(flow := if r.phase.Publish? then XdpPrograms.Published(s.flow, r.key, r.hdr) else s.flow),
                  Exec(s, evs).value, cpu, r)
  {
    var first := if r.phase.Publish? then [DecapDecide(cpu), DecapWrite(cpu)] else [];
    if r.phase.Publish? {
      PublishesAlone(s, cpu);
    }
    var t := Exec(s, first).value;
    var rest := EndsAlone(t, cpu);
    evs := first + rest;
    ExecAppend(s, first, rest);
    assert t.runs - {cpu} == s.runs - {cpu};
  }

  /** What decap's whole run does, by the program's contract: to the caches, the counters, and with its frame. */
  predicate DecapDone(s: State, t: State, cpu: nat, f: seq<Byte>, d: Decision)
    requires d.Deliver? ==> |f| >= HDR_LEN
  {
    && t.runs == s.runs && t.frag == s.frag && t.sent == s.sent
    && match d
       case Settle(v, _, bumps) =>
         && t.flow == s.flow && t.handed == (if v.XdpPass? then s.handed + [Passed(cpu, f)] else s.handed)
         && OfCPU(t.rows, cpu) == CountAll(OfCPU(s.rows, cpu), MaxRows(s.cfg), bumps)
       case Deliver(_, i, store, out) =>
         && t.flow == XdpPrograms.Published(s.flow, store, ReplyForm(f[..HDR_LEN]))
         && (i in s.veths ==> t.handed == s.handed + [Delivered(cpu, i, s.veths[i], f, out)])
         && OfCPU(t.rows, cpu) == CountAll(OfCPU(s.rows, cpu), MaxRows(s.cfg), Pair(i, DecapOk, |f|))
  }

  /** The new run is there, and nothing else changed but what has been seen. */
  predicate Begun(s: State, t: State, cpu: nat, r: Run) {
    && cpu !in s.runs && t.runs == s.runs[cpu := r]
    && t == s.(runs := t.runs, accepted := t.accepted, replies := t.replies)
  }

  lemma EndedIsDecapDone(s: State, t: State, u: State, cpu: nat, f: seq<Byte>, d: Decision, r: Run)
    requires d.Deliver? ==> |f| >= HDR_LEN
    requires r == StartDecap(d, f) && Begun(s, t, cpu, r)
    requires Ended(t.(flow := if r.phase.Publish? then XdpPrograms.Published(t.flow, r.key, r.hdr) else t.flow),
                   u, cpu, r)
    ensures DecapDone(s, u, cpu, f, d)
  {
    assert t.runs - {cpu} == s.runs;
  }

  /** A decap run alone does what Datapath.Decap does. */
  lemma DecapAlone(s: State, cpu: nat, f: seq<Byte>) returns (evs: seq<Event>)
    requires s.policy.WriteChanged? && cpu !in s.runs
    ensures Exec(s, evs).Some? && DecapDone(s, Exec(s, evs).value, cpu, f, Decide(s.cfg, s.endpoints, f))
  {
    var d := Decide(s.cfg, s.endpoints, f);
    var r := StartDecap(d, f);
    var first := [DecapStart(cpu, f)];
    ExecOne(s, DecapStart(cpu, f));
    var t := Exec(s, first).value;
    var rest := DecapRunAlone(t, cpu, r);
    evs := first + rest;
    ExecAppend(s, first, rest);
    EndedIsDecapDone(s, t, Exec(t, rest).value, cpu, f, d, r);
  }

  /** What encap's whole run does, by the program's contract; the uplink takes what it emits. */
  predicate EncapDone(s: State, t: State, cpu: nat, i: nat, f: seq<Byte>, headroom: nat, a: Rules.Request)
    requires a.Ask? ==> |f| >= ETH_LEN
  {
    && t.runs == s.runs && t.flow == s.flow
    && match a
       case Ignore =>
         && t.frag == s.frag && t.sent == s.sent && t.handed == s.handed + [Passed(cpu, f)]
         && OfCPU(t.rows, cpu) == OfCPU(s.rows, cpu)
       case Refuse(counter) =>
         && t.frag == s.frag && t.sent == s.sent && t.handed == s.handed
         && OfCPU(t.rows, cpu) == CountAll(OfCPU(s.rows, cpu), MaxRows(s.cfg), Pair(i, counter, |f|))
       case Ask(_, _, record) =>
         var hit := Rules.Found(s.flow, s.frag, a);
         var e := Rules.Finish(i, f, hit, headroom);
         && t.frag == Rules.Recorded(s.frag, record, hit)
         && (i in s.veths && e.out.Some? ==> t.sent == s.sent + [Sent(cpu, i, s.veths[i], f, e.out.value)])
         && (e.out.None? ==> t.sent == s.sent) && t.handed == s.handed
         && OfCPU(t.rows, cpu) == CountAll(OfCPU(s.rows, cpu), MaxRows(s.cfg), e.bumps)
  }

  /** The run of encap `r`, from its start to its end. */
  lemma EncapRunAlone(s: State, cpu: nat, r: Run) returns (evs: seq<Event>)
    requires cpu in s.runs && s.runs[cpu] == r
    requires r.phase == Counting(Look) || (r.phase.Record? && r.key.Some?)
    ensures Exec(s, evs).Some?
    ensures Ended(s.(frag := if r.phase.Record? then s.frag[r.key.value := r.hdr] else s.frag),
                  Exec(s, evs).value, cpu, r)
  {
    if r.phase.Record? {
      var t := Step(s, EncapRecord(cpu)).value;
      var rest := EndsAlone(t, cpu);
      evs := [EncapRecord(cpu)] + rest;
      ExecCons(s, EncapRecord(cpu), rest);
      assert t.runs - {cpu} == s.runs - {cpu};
    } else {
      evs := EndsAlone(s, cpu);
    }
  }

  /** The run a reply starts, by what its parse leads to. */
  predicate RunFor(s: State, i: nat, f: seq<Byte>, headroom: nat, a: Rules.Request, r: Run)
    requires a.Ask? ==> |f| >= ETH_LEN
  {
    r.ifindex == i && r.frame == f &&
    match a
    case Ignore => r.phase == Counting(Look) && r.todo == [] && r.out.None? && r.local.ToStack?
    case Refuse(c) => r.phase == Counting(Look) && r.todo == Pair(i, c, |f|) && r.out.None? && r.local.Nothing?
    case Ask(_, _, record) =>
      var hit := Rules.Found(s.flow, s.frag, a);
      var e := Rules.Finish(i, f, hit, headroom);
      && r.todo == e.bumps && r.out == e.out && r.local.Nothing?
      && (r.phase.Record? <==> record.Some? && hit.Some?)
      && (r.phase.Record? ==> r.key == record && hit == Some(r.hdr))
  }

  lemma StartIsRunFor(s: State, i: nat, f: seq<Byte>, headroom: nat)
    ensures RunFor(s, i, f, headroom, Rules.Classify(s.cfg, i, f), StartEncap(s, i, f, headroom))
  {
  }

  lemma EndedIsEncapDone(s: State, t: State, u: State, cpu: nat, i: nat, f: seq<Byte>, headroom: nat,
                         a: Rules.Request, r: Run)
    requires a.Ask? ==> |f| >= ETH_LEN
    requires RunFor(s, i, f, headroom, a, r) && Begun(s, t, cpu, r) && (r.phase.Record? ==> r.key.Some?)
    requires Ended(t.(frag := if r.phase.Record? then t.frag[r.key.value := r.hdr] else t.frag), u, cpu, r)
    ensures EncapDone(s, u, cpu, i, f, headroom, a)
  {
    assert t.runs - {cpu} == s.runs;
  }

  /** An encap run alone does what Datapath.Encap does. */
  lemma EncapAlone(s: State, cpu: nat, i: nat, f: seq<Byte>, headroom: nat) returns (evs: seq<Event>)
    requires cpu !in s.runs && i in s.attached
    ensures Exec(s, evs).Some? && EncapDone(s, Exec(s, evs).value, cpu, i, f, headroom, Rules.Classify(s.cfg, i, f))
  {
    var first := [EncapStart(cpu, i, f, headroom)];
    var r := StartEncap(s, i, f, headroom);
    ExecOne(s, EncapStart(cpu, i, f, headroom));
    var t := Exec(s, first).value;
    var rest := EncapRunAlone(t, cpu, r);
    evs := first + rest;
    ExecAppend(s, first, rest);
    StartIsRunFor(s, i, f, headroom);
    EndedIsEncapDone(s, t, Exec(t, rest).value, cpu, i, f, headroom, Rules.Classify(s.cfg, i, f), r);
  }
}
