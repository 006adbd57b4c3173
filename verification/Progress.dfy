/**
 Nothing in the datapath waits for anything: every run in flight can always take its own next step, and ends
 after finitely many. That is what makes a grace period end.
 */
module Progress {
  import opened DecapRules
  import opened Machine

  /** A run that is about to write knows what, and one that has nothing to count is between increments. */
  predicate Ready(policy: Policy, r: Run) {
    && (!r.phase.Counting? ==> r.key.Some?)
    && (r.phase.Decided? ==> policy.WriteChanged?)
    && (r.phase.Counting? && r.todo == [] ==> r.phase.micro.Look?)
  }

  predicate AllReady(s: State) {
    forall c :: c in s.runs ==> Ready(s.policy, s.runs[c])
  }

  lemma MovesReady(s: State, e: Event)
    requires AllReady(s) && (e.DecapDecide? || e.DecapWrite? || e.EncapRecord?) && Step(s, e).Some?
    ensures AllReady(Step(s, e).value)
  {
  }

  lemma StartsReady(s: State, e: Event)
    requires AllReady(s) && (e.DecapStart? || e.EncapStart?) && Step(s, e).Some?
    ensures AllReady(Step(s, e).value)
  {
    var t := Step(s, e).value;
    if e.DecapStart? {
      assert t.runs == s.runs[e.cpu := StartDecap(Decide(s.cfg, s.endpoints, e.frame), e.frame)];
    } else {
      assert t.runs == s.runs[e.cpu := StartEncap(s, e.ifindex, e.frame, e.headroom)];
    }
  }

  lemma CountStepReady(s: State, cpu: nat)
    requires AllReady(s) && CountOnce(s, cpu).Some?
    ensures AllReady(CountOnce(s, cpu).value)
  {
    var q := CountOne(ProgressOf(s, cpu), MaxRows(s.cfg), cpu);
    assert q.todo == [] ==> q.micro.Look?;
  }

  lemma OthersReady(s: State, e: Event)
    requires AllReady(s) && (IsControl(e) || e.EvictFlow? || e.EvictFrag? || e.Finish?) && Step(s, e).Some?
    ensures AllReady(Step(s, e).value)
  {
    if IsControl(e) {
      ControlEffect(s, e);
    }
  }

  lemma ReadyStays(s: State, e: Event)
    requires AllReady(s) && Step(s, e).Some?
    ensures AllReady(Step(s, e).value)
  {
    match e {
      case DecapStart(_, _) => StartsReady(s, e);
      case EncapStart(_, _, _, _) => StartsReady(s, e);
      case CountStep(cpu) => CountStepReady(s, cpu);
      case DecapDecide(_) => MovesReady(s, e);
      case DecapWrite(_) => MovesReady(s, e);
      case EncapRecord(_) => MovesReady(s, e);
      case _ => OthersReady(s, e);
    }
  }

  /** What the run on `cpu` does next. */
  function NextOf(s: State, cpu: nat): Event
    requires cpu in s.runs
  {
    match s.runs[cpu].phase
    case Publish => if s.policy.WriteAlways? then DecapWrite(cpu) else DecapDecide(cpu)
    case Decided(_) => DecapWrite(cpu)
    case Record => EncapRecord(cpu)
    case Counting(_) => if s.runs[cpu].todo == [] then Event.Finish(cpu) else CountStep(cpu)
  }

  /** How far a run is from its counting, and an increment from its end. */
  function PhaseRank(r: Run): nat {
    match r.phase
    case Publish => 2
    case Counting(_) => 0
    case _ => 1
  }

  function MicroRank(r: Run): nat {
    match r.phase
    case Counting(Look) => 3
    case Counting(Create) => 2
    case Counting(LookAgain) => 1
    case _ => 0
  }

  /** `r` is nearer its end than `q`. */
  predicate Nearer(q: Run, r: Run) {
    || PhaseRank(r) < PhaseRank(q)
    || (PhaseRank(r) == PhaseRank(q) && |r.todo| < |q.todo|)
    || (PhaseRank(r) == PhaseRank(q) && |r.todo| == |q.todo| && MicroRank(r) < MicroRank(q))
  }

  /** `t` is `s` after a step of the run on `cpu` alone, which is nearer its end, or has ended. */
  predicate Advanced(s: State, t: State, cpu: nat)
    requires cpu in s.runs
  {
    t.runs == s.runs - {cpu} ||
    (cpu in t.runs && t.runs == s.runs[cpu := t.runs[cpu]] && Nearer(s.runs[cpu], t.runs[cpu]))
  }

  lemma MoveAdvances(s: State, cpu: nat, phase: Phase)
    requires cpu in s.runs && PhaseRank(s.runs[cpu].(phase := phase)) < PhaseRank(s.runs[cpu])
    ensures Advanced(s, Moved(s, cpu, phase), cpu)
  {
  }

  lemma NextWrites(s: State, cpu: nat)
    requires cpu in s.runs && Ready(s.policy, s.runs[cpu]) && NextOf(s, cpu) == DecapWrite(cpu)
    ensures Write(s, cpu).Some? && Advanced(s, Write(s, cpu).value, cpu)
  {
    MoveAdvances(s, cpu, Counting(Look));
  }

  lemma NextDecides(s: State, cpu: nat)
    requires cpu in s.runs && Ready(s.policy, s.runs[cpu])
    requires NextOf(s, cpu) == DecapDecide(cpu) || NextOf(s, cpu) == EncapRecord(cpu)
    ensures Step(s, NextOf(s, cpu)).Some? && Advanced(s, Step(s, NextOf(s, cpu)).value, cpu)
  {
  }

  lemma CountNearer(p: Progress, maxRows: nat, cpu: nat, r: Run)
    requires p.todo != [] && r.phase == Counting(p.micro) && r.todo == p.todo
    ensures var q := CountOne(p, maxRows, cpu);
            Nearer(r, r.(phase := Counting(q.micro), todo := q.todo))
  {
  }

  lemma NextCounts(s: State, cpu: nat)
    requires cpu in s.runs && s.runs[cpu].phase.Counting? && s.runs[cpu].todo != []
    ensures CountOnce(s, cpu).Some? && Advanced(s, CountOnce(s, cpu).value, cpu)
  {
    CountNearer(ProgressOf(s, cpu), MaxRows(s.cfg), cpu, s.runs[cpu]);
  }

  /** A run's next step is enabled and is its own. */
  lemma NextIsEnabled(s: State, cpu: nat)
    requires AllReady(s) && cpu in s.runs
    ensures !IsControl(NextOf(s, cpu)) && Step(s, NextOf(s, cpu)).Some?
    ensures Advanced(s, Step(s, NextOf(s, cpu)).value, cpu)
  {
    assert Ready(s.policy, s.runs[cpu]);
    if !s.runs[cpu].phase.Counting? {
      if NextOf(s, cpu).DecapWrite? {
        NextWrites(s, cpu);
      } else {
        NextDecides(s, cpu);
      }
    } else if s.runs[cpu].todo != [] {
      NextCounts(s, cpu);
    }
  }

  predicate OnlyDatapath(evs: seq<Event>) {
    forall n :: 0 <= n < |evs| ==> !IsControl(evs[n])
  }

  lemma Prepended(s: State, e: Event, rest: seq<Event>)
    requires Step(s, e).Some? && !IsControl(e) && OnlyDatapath(rest)
    ensures OnlyDatapath([e] + rest) && Exec(s, [e] + rest) == Exec(Step(s, e).value, rest)
  {
    ExecCons(s, e, rest);
  }

  /** Left to itself, a run ends, and the others are where they were. */
  lemma {:induction false} RunEnds(s: State, cpu: nat) returns (evs: seq<Event>)
    requires AllReady(s) && cpu in s.runs
    ensures OnlyDatapath(evs) && Exec(s, evs).Some? && AllReady(Exec(s, evs).value)
    ensures Exec(s, evs).value.runs == s.runs - {cpu}
    decreases PhaseRank(s.runs[cpu]), |s.runs[cpu].todo|, MicroRank(s.runs[cpu])
  {
    var e := NextOf(s, cpu);
    NextIsEnabled(s, cpu);
    ReadyStays(s, e);
    var t := Step(s, e).value;
    var rest := [];
    if cpu in t.runs {
      rest := RunEnds(t, cpu);
    }
    Prepended(s, e, rest);
    evs := [e] + rest;
  }

  /** So a grace period ends: the datapath alone can reach a moment when no run holds the interface. */
  lemma {:induction false} GracePeriodEnds(s: State, i: nat) returns (evs: seq<Event>)
    requires AllReady(s)
    ensures OnlyDatapath(evs) && Exec(s, evs).Some? && AllReady(Exec(s, evs).value) && !Holds(Exec(s, evs).value, i)
    decreases |s.runs|
  {
    evs := [];
    if Holds(s, i) {
      var cpu :| cpu in s.runs && s.runs[cpu].ifindex == i;
      var first := RunEnds(s, cpu);
      var t := Exec(s, first).value;
      assert |t.runs| < |s.runs| by {
        assert s.runs.Keys == t.runs.Keys + {cpu};
      }
      var rest := GracePeriodEnds(t, i);
      ExecAppend(s, first, rest);
      evs := first + rest;
    }
  }
}
