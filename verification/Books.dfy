/**
 The control plane's side of the step machine. A host's log is the kernel operations it has done, in order; the
 books are what they add up to. Whatever packets, evictions and interleavings go with a log that kept to the
 order, the machine is where the books say, and everything proved of ordered runs holds.
 */
module Books {
  import opened Programs
  import opened Machine
  import opened Isolation
  import opened Removal
  import opened Counters
  import opened Progress

  /** Dead interfaces that may still have entries, by map. */
  datatype Left = Left(flow: set<nat>, frag: set<nat>, rows: set<nat>)

  const NOTHING := Left({}, {}, {})

  /** `used`: the interfaces an endpoint or encap has led to since they were created. `quiet`: the order was kept. */
  datatype Books = Books(endpoints: map<nat, Info>, veths: map<nat, nat>, used: set<nat>, left: Left, quiet: bool)

  const BLANK := Books(map[], map[], {}, NOTHING, true)

  /** A sweep of `i` is still to come. */
  predicate Owes(b: Books, i: nat) {
    i in b.left.flow || i in b.left.frag || i in b.left.rows
  }

  /** The books after one more kernel operation. */
  function Entered(b: Books, uplink: nat, e: Event): Books {
    match e
    case Insert(v, info) =>
      b.(endpoints := b.endpoints[v := info], used := b.used + {info.ifindex},
         quiet := b.quiet && info.ifindex in b.veths && b.veths[info.ifindex] == v && b.left == NOTHING &&
                  b.veths.Keys <= Ifindexes(b.endpoints) + {info.ifindex})
    case Delete(v) => b.(endpoints := b.endpoints - {v})
    case CreateVeth(i, v) =>
      b.(veths := b.veths[i := v], used := b.used - {i},
         quiet := b.quiet && !Owes(b, i))
    case DeleteVeth(i) =>
      b.(veths := b.veths - {i}, quiet := b.quiet && i !in Ifindexes(b.endpoints),
         left := if i in b.used then Left(b.left.flow + {i}, b.left.frag + {i}, b.left.rows + {i}) else b.left)
    case Attach(i) => b.(used := b.used + {i}, quiet := b.quiet && i in Ifindexes(b.endpoints))
    case SweepFlow(i) => b.(left := b.left.(flow := b.left.flow - {i}))
    case SweepFrag(i) => b.(left := b.left.(frag := b.left.frag - {i}))
    case SweepRows(i) =>
      b.(left := b.left.(rows := b.left.rows - {i}), quiet := b.quiet && i !in b.veths && i != uplink)
    case _ => b
  }

  function Posted(b: Books, uplink: nat, log: seq<Event>): Books
    decreases |log|
  {
    if log == [] then b else Posted(Entered(b, uplink, log[0]), uplink, log[1..])
  }

  lemma {:induction false} PostedOnce(b: Books, uplink: nat, log: seq<Event>, e: Event)
    ensures Posted(b, uplink, log + [e]) == Entered(Posted(b, uplink, log), uplink, e)
    decreases |log|
  {
    var all := log + [e];
    if log == [] {
      assert all[1..] == [];
    } else {
      assert all[0] == log[0] && all[1..] == log[1..] + [e];
      PostedOnce(Entered(b, uplink, log[0]), uplink, log[1..], e);
    }
  }

  /** The kernel operations among a run's events. */
  function Controls(evs: seq<Event>): seq<Event>
    decreases |evs|
  {
    if evs == [] then [] else (if IsControl(evs[0]) then [evs[0]] else []) + Controls(evs[1..])
  }

  // ---- The machine is where the books say ----

  /** No entry, no run, no endpoint, no program: the interface exists and that is all. */
  ghost predicate Unused(s: State, i: nat) {
    Clean(s, i) && i != s.cfg.uplink && i !in s.attached && i !in Live(s) && !Holds(s, i)
  }

  ghost predicate Agrees(s: State, b: Books) {
    && s.endpoints == b.endpoints && s.veths == b.veths
    && (b.quiet ==>
          && Residue(s, b.left.flow, b.left.frag, b.left.rows)
          && forall i :: i in b.veths && i !in b.used ==> Unused(s, i))
  }

  lemma WritesAreHeld(s: State, e: Event)
    requires RunsOk(s) && CountsOk(s) && Step(s, e).Some?
    ensures var t := Step(s, e).value;
            && (forall k :: k in t.flow ==> k in s.flow || Holds(s, k.ifindex))
            && (forall k :: k in t.frag ==> k in s.frag || Holds(s, k.ifindex))
            && (forall k :: k in t.rows ==> k in s.rows || Holds(s, k.ifindex))
  {
    FlowEffect(s, e);
    FragEffect(s, e);
    RowsEffect(s, e);
    if (e.DecapWrite? || e.EncapRecord? || e.CountStep?) && e.cpu in s.runs {
      assert RunOk(s, s.runs[e.cpu]) && CountsItsOwn(s.runs[e.cpu]);
    }
  }

  /** The datapath cannot reach an interface no endpoint and no program leads to. */
  lemma UnusedStays(s: State, e: Event, i: nat)
    requires RunsOk(s) && CountsOk(s) && Unused(s, i) && !IsControl(e) && Step(s, e).Some?
    ensures Unused(Step(s, e).value, i)
  {
    FlowEffect(s, e);
    DatapathEffect(s, e);
    RunsHome(s, e);
    WritesAreHeld(s, e);
  }

  lemma SameResidue(s: State, e: Event, l: Left)
    requires Residue(s, l.flow, l.frag, l.rows) && Ordered(s, e) && Step(s, e).Some? && !e.DeleteVeth?
    ensures Residue(Step(s, e).value, l.flow, l.frag, l.rows)
  {
    ResidueStays(s, e, l.flow, l.frag, l.rows);
    assert l.flow + {} == l.flow && l.frag + {} == l.frag && l.rows + {} == l.rows;
  }

  lemma DatapathAgrees(s: State, b: Books, e: Event)
    requires Agrees(s, b) && !IsControl(e) && Step(s, e).Some?
    ensures Agrees(Step(s, e).value, b)
  {
    DatapathEffect(s, e);
    if b.quiet {
      SameResidue(s, e, b.left);
      forall i | i in b.veths && i !in b.used
        ensures Unused(Step(s, e).value, i)
      {
        UnusedStays(s, e, i);
      }
    }
  }

  /** An operation the books call quiet is one in the order the machine's results need. */
  lemma EntryIsQuiet(s: State, b: Books, e: Event)
    requires Agrees(s, b) && b.quiet && IsControl(e) && Step(s, e).Some? && Entered(b, s.cfg.uplink, e).quiet
    ensures Quiet(s, e)
  {
  }

  lemma CreatedUnused(s: State, i: nat, v: nat)
    requires Inv(s) && Clean(s, i) && Step(s, CreateVeth(i, v)).Some?
    ensures Unused(Step(s, CreateVeth(i, v)).value, i)
  {
    RunsHold(s);
    assert Step(s, CreateVeth(i, v)).value.runs == s.runs;
  }

  lemma DeletedUnused(s: State, b: Books, i: nat)
    requires Agrees(s, b) && b.quiet && Ordered(s, DeleteVeth(i)) && Step(s, DeleteVeth(i)).Some? && i !in b.used
    ensures Residue(Step(s, DeleteVeth(i)).value, b.left.flow, b.left.frag, b.left.rows)
  {
    ResidueStays(s, DeleteVeth(i), b.left.flow, b.left.frag, b.left.rows);
    assert Unused(s, i);
  }

  lemma EntryKeepsResidue(s: State, b: Books, e: Event)
    requires Agrees(s, b) && b.quiet && Quiet(s, e) && IsControl(e) && Step(s, e).Some?
    ensures var n := Entered(b, s.cfg.uplink, e).left; Residue(Step(s, e).value, n.flow, n.frag, n.rows)
  {
    if e.SweepFlow? || e.SweepFrag? || e.SweepRows? {
      SweepSettles(s, e, b.left.flow, b.left.frag, b.left.rows);
    } else if !e.DeleteVeth? {
      SameResidue(s, e, b.left);
    } else if e.ifindex in b.used {
      ResidueStays(s, e, b.left.flow, b.left.frag, b.left.rows);
    } else {
      DeletedUnused(s, b, e.ifindex);
    }
  }

  lemma UnusedKept(s: State, e: Event, i: nat)
    requires Unused(s, i) && IsControl(e) && Step(s, e).Some?
    requires !(e.Attach? && e.ifindex == i) && !(e.Insert? && e.info.ifindex == i)
    ensures Unused(Step(s, e).value, i)
  {
    FlowEffect(s, e);
    FragEffect(s, e);
    RowsEffect(s, e);
    ControlEffect(s, e);
  }

  lemma EntryKeepsUnused(s: State, b: Books, e: Event, i: nat)
    requires Agrees(s, b) && b.quiet && Quiet(s, e) && IsControl(e) && Step(s, e).Some?
    requires var c := Entered(b, s.cfg.uplink, e); i in c.veths && i !in c.used
    ensures Unused(Step(s, e).value, i)
  {
    if e.CreateVeth? && e.ifindex == i {
      CreatedUnused(s, i, e.vpce);
    } else {
      UnusedKept(s, e, i);
    }
  }

  lemma EntryAgrees(s: State, b: Books, e: Event)
    requires Agrees(s, b) && IsControl(e) && Step(s, e).Some?
    ensures Agrees(Step(s, e).value, Entered(b, s.cfg.uplink, e))
    ensures Entered(b, s.cfg.uplink, e).quiet ==> Quiet(s, e)
  {
    var c := Entered(b, s.cfg.uplink, e);
    if c.quiet {
      EntryIsQuiet(s, b, e);
      EntryKeepsResidue(s, b, e);
      forall i | i in c.veths && i !in c.used
        ensures Unused(Step(s, e).value, i)
      {
        EntryKeepsUnused(s, b, e, i);
      }
    }
  }

  /** Over a whole run: as long as the books stay quiet, the run is in order and the machine agrees with them. */
  lemma {:induction false} RunAgrees(s: State, b: Books, evs: seq<Event>)
    requires Agrees(s, b) && Exec(s, evs).Some?
    ensures Agrees(Exec(s, evs).value, Posted(b, s.cfg.uplink, Controls(evs)))
    ensures Posted(b, s.cfg.uplink, Controls(evs)).quiet ==> b.quiet && AllQuiet(s, evs)
    decreases |evs|
  {
    if evs != [] {
      var e := evs[0];
      FlowEffect(s, e);
      if IsControl(e) {
        EntryAgrees(s, b, e);
        assert Controls(evs)[1..] == Controls(evs[1..]);
        RunAgrees(Step(s, e).value, Entered(b, s.cfg.uplink, e), evs[1..]);
      } else {
        DatapathAgrees(s, b, e);
        assert Controls(evs) == Controls(evs[1..]);
        RunAgrees(Step(s, e).value, b, evs[1..]);
      }
    }
  }

  lemma {:induction false} QuietIsOrdered(s: State, evs: seq<Event>)
    requires AllQuiet(s, evs)
    ensures AllOrdered(s, evs)
    decreases |evs|
  {
    if evs != [] && Step(s, evs[0]).Some? {
      QuietIsOrdered(Step(s, evs[0]).value, evs[1..]);
    }
  }

  /** What a host in order can rely on: all it sent and delivered is its endpoint's own, and no count is lost. */
  ghost predicate Guaranteed(s: State) {
    && (forall n :: 0 <= n < |s.sent| ==> Isolated(s, s.sent[n]))
    && (forall n :: 0 <= n < |s.handed| && s.handed[n].Delivered? ==> RightlyDelivered(s, s.handed[n]))
    && s.lost == 0 && forall row, cpu :: Value(s.rows, row, cpu) == Get(s.tally, (row, cpu))
  }

  /**
   Whatever happens on a host whose log kept to the order, in whatever interleaving: isolation, no lost count, and
   nothing of any interface in the maps that has neither a veth nor a sweep to come.
   */
  lemma OrderGuarantees(cfg: Config, policy: Policy, evs: seq<Event>)
    requires Exec(Init(cfg, policy), evs).Some? && Posted(BLANK, cfg.uplink, Controls(evs)).quiet
    ensures var s, b := Exec(Init(cfg, policy), evs).value, Posted(BLANK, cfg.uplink, Controls(evs));
            && Guaranteed(s) && s.veths == b.veths && s.endpoints == b.endpoints
            && forall i :: i !in b.veths && i != cfg.uplink && !Owes(b, i) ==> Clean(s, i)
  {
    LogIsQuiet(cfg, policy, evs);
    QuietIsOrdered(Init(cfg, policy), evs);
    EndpointIsolation(cfg, policy, evs);
    EndpointDelivery(cfg, policy, evs);
    NoCountLost(cfg, policy, evs);
  }

  lemma InitAgrees(cfg: Config, policy: Policy)
    ensures Agrees(Init(cfg, policy), BLANK)
  {
  }

  lemma LogIsQuiet(cfg: Config, policy: Policy, evs: seq<Event>)
    requires Exec(Init(cfg, policy), evs).Some? && Posted(BLANK, cfg.uplink, Controls(evs)).quiet
    ensures AllQuiet(Init(cfg, policy), evs)
    ensures var s, b := Exec(Init(cfg, policy), evs).value, Posted(BLANK, cfg.uplink, Controls(evs));
            && s.veths == b.veths && s.endpoints == b.endpoints
            && forall i :: i !in b.veths && i != cfg.uplink && !Owes(b, i) ==> Clean(s, i)
  {
    InitAgrees(cfg, policy);
    RunAgrees(Init(cfg, policy), BLANK, evs);
    SettingsKept(Init(cfg, policy), evs);
    CleanUnlessOwed(Exec(Init(cfg, policy), evs).value, Posted(BLANK, cfg.uplink, Controls(evs)));
  }

  lemma CleanUnlessOwed(s: State, b: Books)
    requires Agrees(s, b) && b.quiet
    ensures forall i :: i !in b.veths && i != s.cfg.uplink && !Owes(b, i) ==> Clean(s, i)
  {
  }

  /** The kernel can do an operation as soon as the runs in flight let it: the books alone say whether it ever can. */
  predicate Possible(b: Books, cfg: Config, e: Event) {
    match e
    case Insert(v, _) => v !in b.endpoints && |b.endpoints| < cfg.maxEndpoints
    case Delete(v) => v in b.endpoints
    case CreateVeth(i, _) => i !in b.veths && i != cfg.uplink && i != 0
    case DeleteVeth(i) => i in b.veths
    case Attach(i) => i in b.veths
    case _ => IsControl(e)
  }

  lemma {:induction false} DatapathKeepsTables(s: State, evs: seq<Event>)
    requires OnlyDatapath(evs) && Exec(s, evs).Some?
    ensures var t := Exec(s, evs).value; t.cfg == s.cfg && t.endpoints == s.endpoints && t.veths == s.veths
    decreases |evs|
  {
    if evs != [] {
      DatapathEffect(s, evs[0]);
      DatapathKeepsTables(Step(s, evs[0]).value, evs[1..]);
    }
  }

  /** No operation waits for ever: packets already on their way are all there is to wait for. */
  lemma Happens(s: State, b: Books, e: Event) returns (evs: seq<Event>)
    requires AllReady(s) && s.endpoints == b.endpoints && s.veths == b.veths && Possible(b, s.cfg, e)
    ensures OnlyDatapath(evs) && Exec(s, evs).Some? && Step(Exec(s, evs).value, e).Some?
    ensures var u, c := Step(Exec(s, evs).value, e).value, Entered(b, s.cfg.uplink, e);
            AllReady(u) && u.cfg == s.cfg && u.endpoints == c.endpoints && u.veths == c.veths
  {
    evs := [];
    if e.DeleteVeth? {
      evs := GracePeriodEnds(s, e.ifindex);
    }
    DatapathKeepsTables(s, evs);
    var t := Exec(s, evs).value;
    ReadyStays(t, e);
    FlowEffect(t, e);
  }

  /** Each operation in turn is one the kernel could do. */
  predicate AllPossible(b: Books, cfg: Config, log: seq<Event>)
    decreases |log|
  {
    log == [] || (Possible(b, cfg, log[0]) && AllPossible(Entered(b, cfg.uplink, log[0]), cfg, log[1..]))
  }

  lemma {:induction false} PossibleOnce(b: Books, cfg: Config, log: seq<Event>, e: Event)
    requires AllPossible(b, cfg, log) && Possible(Posted(b, cfg.uplink, log), cfg, e)
    ensures AllPossible(b, cfg, log + [e])
    decreases |log|
  {
    var all := log + [e];
    if log == [] {
      assert all[1..] == [];
    } else {
      assert all[0] == log[0] && all[1..] == log[1..] + [e];
      PossibleOnce(Entered(b, cfg.uplink, log[0]), cfg, log[1..], e);
    }
  }

  lemma {:induction false} ControlsAfter(first: seq<Event>, e: Event, rest: seq<Event>)
    requires OnlyDatapath(first) && IsControl(e)
    ensures Controls(first + ([e] + rest)) == [e] + Controls(rest)
    decreases |first|
  {
    var all := first + ([e] + rest);
    if first == [] {
      assert all[1..] == rest;
    } else {
      assert all[0] == first[0] && all[1..] == first[1..] + ([e] + rest);
      ControlsAfter(first[1..], e, rest);
    }
  }

  /** Every such log is one of a run of the machine, packets in flight or not. */
  lemma {:induction false} LogHappens(s: State, b: Books, log: seq<Event>) returns (evs: seq<Event>)
    requires AllReady(s) && s.endpoints == b.endpoints && s.veths == b.veths && AllPossible(b, s.cfg, log)
    ensures Exec(s, evs).Some? && Controls(evs) == log
    decreases |log|
  {
    evs := [];
    if log != [] {
      var e := log[0];
      var first := Happens(s, b, e);
      var t := Exec(s, first).value;
      var rest := LogHappens(Step(t, e).value, Entered(b, s.cfg.uplink, e), log[1..]);
      evs := first + ([e] + rest);
      assert ([e] + rest)[1..] == rest;
      ExecAppend(s, first, [e] + rest);
      ControlsAfter(first, e, rest);
    }
  }
}
