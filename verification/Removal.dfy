/**
 What a removed endpoint leaves in the maps: entries keyed by its ifindex can be written only while its veth
 lives, so the sweep that follows the veth's deletion is final until the ifindex gets a new veth.
 */
module Removal {
  import opened Bytes
  import opened InnerPacket
  import opened OuterHeader
  import opened Programs
  import opened DecapRules
  import opened EncapRules
  import opened RoundTrip
  import opened Machine
  import opened Isolation

  /** Every flow_state key's ifindex is a live veth's, or among `extra`. */
  predicate FlowWithin(s: State, extra: set<nat>) {
    forall k :: k in s.flow ==> k.ifindex in s.veths || k.ifindex in extra
  }

  predicate FragWithin(s: State, extra: set<nat>) {
    forall k :: k in s.frag ==> k.ifindex in s.veths || k.ifindex in extra
  }

  predicate RowsWithin(s: State, extra: set<nat>) {
    forall k :: k in s.rows ==> k.ifindex in s.veths || k.ifindex == s.cfg.uplink || k.ifindex in extra
  }

  /** A run counts on the interface it holds and nowhere else. */
  predicate CountsItsOwn(r: Run) {
    forall n :: 0 <= n < |r.todo| ==> r.todo[n].row.ifindex == r.ifindex
  }

  predicate CountsOk(s: State) {
    forall c :: c in s.runs ==> CountsItsOwn(s.runs[c])
  }

  /** The maps hold nothing of dead interfaces but the ones in these three sets. */
  ghost predicate Residue(s: State, flow: set<nat>, frag: set<nat>, rows: set<nat>) {
    Inv(s) && CountsOk(s) && FlowWithin(s, flow) && FragWithin(s, frag) && RowsWithin(s, rows)
  }

  lemma DecapCountsItsOwn(cfg: Config, endpoints: map<nat, Info>, f: seq<Byte>)
    ensures CountsItsOwn(StartDecap(Decide(cfg, endpoints, f), f))
  {
    var d := Decide(cfg, endpoints, f);
    if d.Settle? {
      assert forall n :: 0 <= n < |d.bumps| ==> d.bumps[n] in d.bumps;
    }
  }

  lemma EncapCountsItsOwn(s: State, i: nat, f: seq<Byte>, headroom: nat)
    ensures CountsItsOwn(StartEncap(s, i, f, headroom))
  {
    match Classify(s.cfg, i, f) {
      case Ignore =>
      case Refuse(_) =>
      case Ask(_, _, _) =>
    }
  }

  lemma CountsStayOk(s: State, e: Event)
    requires CountsOk(s) && Step(s, e).Some?
    ensures CountsOk(Step(s, e).value)
  {
    var t := Step(s, e).value;
    RunsEffect(s, e);
    if e.DecapStart? {
      DecapCountsItsOwn(s.cfg, s.endpoints, e.frame);
    } else if e.EncapStart? {
      EncapCountsItsOwn(s, e.ifindex, e.frame, e.headroom);
    }
  }

  // ---- Writes stay within live interfaces ----

  /** The interface of what an event writes, if it writes to a map at all. */
  lemma WritesAreLive(s: State, e: Event)
    requires RunsOk(s) && CountsOk(s) && Step(s, e).Some?
    ensures var t := Step(s, e).value;
            && (forall k :: k in t.flow ==> k in s.flow || k.ifindex in s.veths)
            && (forall k :: k in t.frag ==> k in s.frag || k.ifindex in s.veths)
            && (forall k :: k in t.rows ==> k in s.rows || k.ifindex in s.veths || k.ifindex == s.cfg.uplink)
  {
    FlowEffect(s, e);
    FragEffect(s, e);
    RowsEffect(s, e);
    if (e.DecapWrite? || e.EncapRecord? || e.CountStep?) && e.cpu in s.runs {
      LiveRun(s, e.cpu);
    }
  }

  lemma LiveRun(s: State, cpu: nat)
    requires RunsOk(s) && CountsOk(s) && cpu in s.runs
    ensures var r := s.runs[cpu];
            && (r.ifindex == s.cfg.uplink || r.ifindex in s.veths)
            && (r.key.Some? ==> r.key.value.ifindex in s.veths)
            && (r.todo != [] ==> r.todo[0].row.ifindex == r.ifindex)
  {
    assert RunOk(s, s.runs[cpu]) && CountsItsOwn(s.runs[cpu]);
  }

  /**
   No event makes an interface without a veth appear in the maps; deleting a veth is the only one that leaves
   something behind.
   */
  lemma ResidueStays(s: State, e: Event, flow: set<nat>, frag: set<nat>, rows: set<nat>)
    requires Residue(s, flow, frag, rows) && Ordered(s, e) && Step(s, e).Some?
    ensures var more := if e.DeleteVeth? then {e.ifindex} else {};
            Residue(Step(s, e).value, flow + more, frag + more, rows + more)
  {
    StepKeepsInv(s, e);
    CountsStayOk(s, e);
    FlowEffect(s, e);
    VethEffect(s, e);
    WritesAreLive(s, e);
  }

  /** Each sweep of an interface settles its map. */
  lemma SweepSettles(s: State, e: Event, flow: set<nat>, frag: set<nat>, rows: set<nat>)
    requires Residue(s, flow, frag, rows) && (e.SweepFlow? || e.SweepFrag? || e.SweepRows?)
    ensures Residue(Step(s, e).value,
                    if e.SweepFlow? then flow - {e.ifindex} else flow,
                    if e.SweepFrag? then frag - {e.ifindex} else frag,
                    if e.SweepRows? then rows - {e.ifindex} else rows)
  {
    StepKeepsInv(s, e);
    CountsStayOk(s, e);
    SweepRemoves(s, e);
  }

  lemma SweepRemoves(s: State, e: Event)
    requires e.SweepFlow? || e.SweepFrag? || e.SweepRows?
    ensures Step(s, e).Some?
    ensures var t := Step(s, e).value;
            && t.cfg == s.cfg && t.veths == s.veths
            && (forall k :: k in t.flow ==> k in s.flow && !(e.SweepFlow? && k.ifindex == e.ifindex))
            && (forall k :: k in t.frag ==> k in s.frag && !(e.SweepFrag? && k.ifindex == e.ifindex))
            && (forall k :: k in t.rows ==> k in s.rows && !(e.SweepRows? && k.ifindex == e.ifindex))
  {
  }

  function CacheOf(s: State, frag: bool): map<FlowKey, Header> {
    if frag then s.frag else s.flow
  }

  function Evict(frag: bool, k: FlowKey): Event {
    if frag then EvictFrag(k) else EvictFlow(k)
  }

  predicate Evictions(evs: seq<Event>, frag: bool, i: nat) {
    forall n :: 0 <= n < |evs| ==>
      (if frag then evs[n].EvictFrag? else evs[n].EvictFlow?) && evs[n].key.ifindex == i
  }

  function SweepOf(frag: bool, i: nat): Event {
    if frag then SweepFrag(i) else SweepFlow(i)
  }

  lemma OneLess(m: map<FlowKey, Header>, k: FlowKey)
    requires k in m
    ensures |m - {k}| < |m| && Without(m - {k}, k.ifindex) == Without(m, k.ifindex)
  {
    assert m.Keys == (m - {k}).Keys + {k};
  }

  lemma EvictFlowThenSweep(s: State, k: FlowKey)
    requires k in s.flow
    ensures Step(s.(flow := s.flow - {k}), SweepFlow(k.ifindex)) == Step(s, SweepFlow(k.ifindex))
  {
    OneLess(s.flow, k);
  }

  lemma EvictFragThenSweep(s: State, k: FlowKey)
    requires k in s.frag
    ensures Step(s.(frag := s.frag - {k}), SweepFrag(k.ifindex)) == Step(s, SweepFrag(k.ifindex))
  {
    OneLess(s.frag, k);
  }

  function Evicted(s: State, frag: bool, k: FlowKey): State {
    if frag then s.(frag := s.frag - {k}) else s.(flow := s.flow - {k})
  }

  lemma EvictThenSweep(s: State, frag: bool, k: FlowKey)
    requires k in CacheOf(s, frag)
    ensures var t := Evicted(s, frag, k);
            && Step(s, Evict(frag, k)) == Some(t) && |CacheOf(t, frag)| < |CacheOf(s, frag)|
            && Step(t, SweepOf(frag, k.ifindex)) == Step(s, SweepOf(frag, k.ifindex))
  {
    OneLess(CacheOf(s, frag), k);
    if frag {
      EvictFragThenSweep(s, k);
    } else {
      EvictFlowThenSweep(s, k);
    }
  }

  lemma NothingToSweep(s: State, frag: bool, i: nat)
    requires forall k :: k in CacheOf(s, frag) ==> k.ifindex != i
    ensures Step(s, SweepOf(frag, i)) == Some(s)
  {
    assert Without(CacheOf(s, frag), i) == CacheOf(s, frag);
  }

  /**
   Sweeping a cache at once is deleting its keys one by one, which are evictions, and evictions may come at any time
   in a run: a sweep that deletes key by key, whatever comes between, is in order wherever the sweep at its end is.
   */
  lemma {:induction false} SweepIsEvictions(s: State, frag: bool, i: nat) returns (evs: seq<Event>)
    ensures Evictions(evs, frag, i) && Exec(s, evs) == Step(s, SweepOf(frag, i))
    decreases |CacheOf(s, frag)|
  {
    evs := [];
    if k :| k in CacheOf(s, frag) && k.ifindex == i {
      EvictThenSweep(s, frag, k);
      var rest := SweepIsEvictions(Evicted(s, frag, k), frag, i);
      evs := [Evict(frag, k)] + rest;
      ExecCons(s, Evict(frag, k), rest);
    } else {
      NothingToSweep(s, frag, i);
    }
  }

  /**
   Removal leaves nothing behind: once an interface is clean and has no veth, it stays clean through every
   run, whatever is still in flight, until an event gives it a veth.
   */
  lemma {:induction false} StaysCleanUntilCreated(s: State, evs: seq<Event>, i: nat)
    requires Inv(s) && CountsOk(s) && AllOrdered(s, evs) && Exec(s, evs).Some?
    requires Clean(s, i) && i !in s.veths && i != s.cfg.uplink
    requires forall n :: 0 <= n < |evs| ==> !(evs[n].CreateVeth? && evs[n].ifindex == i)
    ensures Clean(Exec(s, evs).value, i) && i !in Exec(s, evs).value.veths
    decreases |evs|
  {
    if evs != [] {
      var e, t := evs[0], Step(s, evs[0]).value;
      StepStaysClean(s, e, i);
      StepKeepsInv(s, e);
      CountsStayOk(s, e);
      forall n | 0 <= n < |evs[1..]|
        ensures !(evs[1..][n].CreateVeth? && evs[1..][n].ifindex == i)
      {
        assert evs[1..][n] == evs[n + 1];
      }
      StaysCleanUntilCreated(t, evs[1..], i);
    }
  }

  lemma StepStaysClean(s: State, e: Event, i: nat)
    requires Inv(s) && CountsOk(s) && Step(s, e).Some?
    requires Clean(s, i) && i !in s.veths && i != s.cfg.uplink && !(e.CreateVeth? && e.ifindex == i)
    ensures Clean(Step(s, e).value, i) && i !in Step(s, e).value.veths && Step(s, e).value.cfg == s.cfg
  {
    FlowEffect(s, e);
    VethEffect(s, e);
    WritesAreLive(s, e);
  }

  // ---- Why the ifindex must be clean ----

  /** `v` is removed and its ifindex `i` given to `w`, with no sweep in between. */
  function Reuse(i: nat, v: nat, w: nat): seq<Event> {
    [Delete(v), DeleteVeth(i), CreateVeth(i, w), Attach(i)]
  }

  function Reused(s: State, i: nat, v: nat, w: nat): State {
    s.(endpoints := s.endpoints - {v}, veths := (s.veths - {i})[i := w], attached := s.attached - {i} + {i})
  }

  /** The events lead there, in order or not. */
  predicate Leads(s: State, evs: seq<Event>, t: State, ordered: bool) {
    Exec(s, evs) == Some(t) && (AllOrdered(s, evs) <==> ordered)
  }

  lemma LeadsOn(s: State, e: Event, t: State, evs: seq<Event>, u: State, first: bool, rest: bool)
    requires Step(s, e) == Some(t) && (Ordered(s, e) <==> first) && Leads(t, evs, u, rest)
    ensures Leads(s, [e] + evs, u, first && rest)
  {
    assert ([e] + evs)[1..] == evs;
  }

  /** The kernel gives a dead interface away; in order if and only if nothing of it was left. */
  lemma GivenAway(s: State, i: nat, w: nat)
    requires i !in s.veths && i != s.cfg.uplink && i != 0
    ensures Leads(s, [CreateVeth(i, w)] + ([Attach(i)] + []),
                  s.(veths := s.veths[i := w], attached := s.attached + {i}), Clean(s, i))
  {
    var t := s.(veths := s.veths[i := w]);
    var u := s.(veths := s.veths[i := w], attached := s.attached + {i});
    assert Leads(u, [], u, true);
    LeadsOn(t, Attach(i), u, [], u, true, true);
    LeadsOn(s, CreateVeth(i, w), t, [Attach(i)] + [], u, Clean(s, i), true);
  }

  function TakenDown(s: State, i: nat, v: nat): State {
    s.(endpoints := s.endpoints - {v}, veths := s.veths - {i}, attached := s.attached - {i})
  }

  /** An endpoint and its veth go, in order, whatever follows. */
  lemma TakesDown(s: State, i: nat, v: nat, evs: seq<Event>, u: State, rest: bool)
    requires EndpointsOk(s) && !Holds(s, i) && v in s.endpoints && s.endpoints[v].ifindex == i
    requires Leads(TakenDown(s, i, v), evs, u, rest)
    ensures Leads(s, [Delete(v)] + ([DeleteVeth(i)] + evs), u, rest)
  {
    var t := s.(endpoints := s.endpoints - {v});
    assert Ordered(t, DeleteVeth(i)) && Step(t, DeleteVeth(i)) == Some(TakenDown(s, i, v));
    LeadsOn(t, DeleteVeth(i), TakenDown(s, i, v), evs, u, true, rest);
    LeadsOn(s, Delete(v), t, [DeleteVeth(i)] + evs, u, true, rest);
  }

  lemma ReuseHappens(s: State, i: nat, v: nat, w: nat)
    requires EndpointsOk(s) && !Holds(s, i) && i != 0 && v in s.endpoints && s.endpoints[v].ifindex == i
    ensures Leads(s, Reuse(i, v, w), Reused(s, i, v, w), Clean(s, i))
  {
    var give := [CreateVeth(i, w)] + ([Attach(i)] + []);
    GivenAway(TakenDown(s, i, v), i, w);
    TakesDown(s, i, v, give, Reused(s, i, v, w), Clean(s, i));
    assert Reuse(i, v, w) == [Delete(v)] + ([DeleteVeth(i)] + give);
  }

  /**
   The sweep is what isolation rests on: if an entry of `v` survives, the four operations, which the kernel does
   all the same, lead to where encap wraps a reply from `w`'s veth that asks for the entry in `v`'s header.
   */
  lemma StaleEntryLeaks(s: State, i: nat, v: nat, w: nat, k: FlowKey, r: seq<Byte>) returns (t: State)
    requires Inv(s) && !Holds(s, i) && i != 0 && v in s.endpoints && s.endpoints[v].ifindex == i
    requires k in s.flow && k.ifindex == i
    requires var a := Classify(s.cfg, i, r); a.Ask? && !a.inFrag && a.key == k
    ensures Leads(s, Reuse(i, v, w), t, false) && i in t.veths && t.veths[i] == w && i in t.attached
    ensures var q := StartEncap(t, i, r, OVERHEAD);
            q.out.Some? && CheckOuter(q.out.value, ANY_ORIGIN) == ForEndpoint(v)
  {
    t := Reused(s, i, v, w);
    ReuseHappens(s, i, v, w);
    StaleOut(s, t, i, v, k, r);
  }

  /** What encap makes of a surviving entry. */
  lemma StaleOut(s: State, t: State, i: nat, v: nat, k: FlowKey, r: seq<Byte>)
    requires Inv(s) && i in s.veths && s.veths[i] == v && k in s.flow && k.ifindex == i
    requires t.flow == s.flow && t.cfg == s.cfg
    requires var a := Classify(s.cfg, i, r); a.Ask? && !a.inFrag && a.key == k
    ensures var q := StartEncap(t, i, r, OVERHEAD);
            q.out.Some? && CheckOuter(q.out.value, ANY_ORIGIN) == ForEndpoint(v)
  {
    var a := Classify(s.cfg, i, r);
    var g := HeaderOrigin(s, i, a);
    assert CheckOuter((v, g).1, s.cfg.origin) == ForEndpoint(v);
    ReturnedPasses(s.cfg.origin, v, g, r[ETH_LEN..]);
    FoundIsSent(t, i, r, g);
  }

  lemma FoundIsSent(t: State, i: nat, r: seq<Byte>, g: seq<Byte>)
    requires Classify(t.cfg, i, r).Ask? && |g| >= HDR_LEN
    requires Found(t.flow, t.frag, Classify(t.cfg, i, r)) == Some(ReplyForm(g[..HDR_LEN]))
    ensures StartEncap(t, i, r, OVERHEAD).out == Some(Returned(g, r[ETH_LEN..]))
  {
  }
}
