/**
 The datapath and the control plane as one step machine. Every choice the world makes (which frame arrives
 where, which entry is evicted, which run moves) is in the event, so a run of the system is a sequence of
 events. XDP runs are split at each map access; each CPU has at most one.
 */
module Machine {
  import opened Bytes
  import opened InnerPacket
  import opened OuterHeader
  import opened Programs
  import opened DecapRules
  import opened EncapRules

  /** Where a call of increment_metric is: before its lookup, the create, the second lookup, or the store. */
  datatype Micro = Look | Create | LookAgain | Add(loaded: nat)

  /**
   Publish: a decap run before its flow_state lookup. Decided: after it. Record: an encap run whose lookup
   hit, before its frag_state update. Counting: nothing left but counters, then the verdict.
   */
  datatype Phase = Publish | Decided(write: bool) | Record | Counting(micro: Micro)

  /** What a run leaves on this host: nothing, its frame for the kernel's own stack, or a packet for the veth. */
  datatype Local = Nothing | ToStack | ToVeth(packet: seq<Byte>)

  /** One XDP run in flight: the interface it holds, the entry it is about to write, what it will count and send. */
  datatype Run = Run(
    ifindex: nat, frame: seq<Byte>,
    phase: Phase, key: Option<FlowKey>, hdr: Header,
    todo: seq<Bump>, out: Option<seq<Byte>>, local: Local)

  /** A frame redirected to the uplink: by which CPU and veth, whose the veth was, and for which reply. */
  datatype Sent = Sent(cpu: nat, ifindex: nat, vpce: nat, reply: seq<Byte>, frame: seq<Byte>)

  /** A frame left to the kernel as it came, or a packet redirected to a veth: whose it was, and from which frame. */
  datatype Handed =
    | Passed(cpu: nat, frame: seq<Byte>)
    | Delivered(cpu: nat, ifindex: nat, vpce: nat, frame: seq<Byte>, packet: seq<Byte>)

  /** Whether decap compares before it writes (the code), or writes every time (the plain cache it stands for). */
  datatype Policy = WriteChanged | WriteAlways

  /** The octets sent from one veth by one CPU. */
  function SentOctets(sent: seq<Sent>, ifindex: nat, cpu: nat): nat {
    if sent == [] then 0
    else
      var x := sent[|sent| - 1];
      SentOctets(sent[..|sent| - 1], ifindex, cpu) + if x.ifindex == ifindex && x.cpu == cpu then |x.frame| else 0
  }

  type Rows = map<RowKey, map<nat, nat>>

  datatype State = State(
    cfg: Config, policy: Policy,
    endpoints: map<nat, Info>,      // vpce_to_ifindex
    flow: map<FlowKey, Header>,     // flow_state
    frag: map<FlowKey, Header>,     // frag_state
    rows: Rows,                     // metrics: per row, each CPU's value
    veths: map<nat, nat>,           // live outer veths, and the endpoint each was created for
    attached: set<nat>,             // interfaces encap is attached to
    runs: map<nat, Run>,            // in-flight runs, by CPU
    // What has happened so far.
    accepted: set<(nat, seq<Byte>)>, // frames decap accepted, with their endpoint
    replies: set<(nat, nat, seq<Byte>)>, // frames encap was given, with the endpoint and the ifindex of their veth
    sent: seq<Sent>,
    handed: seq<Handed>,
    lost: nat,                       // increments that found no row
    tally: map<(RowKey, nat), nat>,  // increments performed, by row and CPU, since the row's interface was last swept
    octets: map<(nat, nat), nat>)    // octets sent, by veth and CPU, since then

  function Init(cfg: Config, policy: Policy): State {
    State(cfg, policy, map[], map[], map[], map[], map[], {}, map[], {}, {}, [], [], 0, map[], map[])
  }

  datatype Event =
    | DecapStart(cpu: nat, frame: seq<Byte>)
    | DecapDecide(cpu: nat)
    | DecapWrite(cpu: nat)
    | EncapStart(cpu: nat, ifindex: nat, frame: seq<Byte>, headroom: nat)
    | EncapRecord(cpu: nat)
    | CountStep(cpu: nat)
    | Finish(cpu: nat)
    | EvictFlow(key: FlowKey)
    | EvictFrag(key: FlowKey)
    | Insert(vpce: nat, info: Info)
    | Delete(vpce: nat)
    | CreateVeth(ifindex: nat, vpce: nat)
    | DeleteVeth(ifindex: nat)
    | Attach(ifindex: nat)
    | Detach(ifindex: nat)
    | SweepFlow(ifindex: nat)
    | SweepFrag(ifindex: nat)
    | SweepRows(ifindex: nat)

  const NO_HEADER: Header := Zeros(HDR_LEN)

  /** metrics' max_entries: twenty rows for each endpoint and for the uplink. */
  function MaxRows(cfg: Config): nat {
    20 * (cfg.maxEndpoints + 1)
  }

  function Get<K>(m: map<K, nat>, k: K): nat {
    if k in m then m[k] else 0
  }

  /** One CPU's value of a row; an absent row reads as zero. */
  function Value(rows: Rows, row: RowKey, cpu: nat): nat {
    if row in rows then Get(rows[row], cpu) else 0
  }

  function Without<V>(m: map<FlowKey, V>, ifindex: nat): map<FlowKey, V> {
    map k | k in m && k.ifindex != ifindex :: m[k]
  }

  // ---- The runs ----

  /** The run of one decision of decap about `f`. */
  function StartDecap(d: Decision, f: seq<Byte>): Run
    requires d.Deliver? ==> |f| >= HDR_LEN
  {
    match d
    case Settle(v, i, bumps) =>
      Run(i, f, Counting(Look), None, NO_HEADER, bumps, None, if v.XdpPass? then ToStack else Nothing)
    case Deliver(_, i, store, out) =>
      Run(i, f, if store.Some? then Publish else Counting(Look), store, ReplyForm(f[..HDR_LEN]),
          Pair(i, DecapOk, |f|), None, ToVeth(out))
  }

  function NowAccepted(acc: set<(nat, seq<Byte>)>, d: Decision, f: seq<Byte>): set<(nat, seq<Byte>)> {
    if d.Deliver? then acc + {(d.vpce, f)} else acc
  }

  function NowGiven(s: State, i: nat, f: seq<Byte>): set<(nat, nat, seq<Byte>)> {
    if i in s.veths then s.replies + {(s.veths[i], i, f)} else s.replies
  }

  /** Nothing is recorded or sent but the entry the lookup found. */
  function StartEncap(s: State, i: nat, f: seq<Byte>, headroom: nat): (r: Run)
    ensures r.ifindex == i && r.frame == f && (r.phase.Record? || r.phase == Counting(Look)) && !r.local.ToVeth?
    ensures r.key.Some? ==> r.key.value.ifindex == i
    ensures var a := Classify(s.cfg, i, f);
            && (r.phase.Record? ==>
                  a.Ask? && a.record.Some? && r.key == a.record && Found(s.flow, s.frag, a) == Some(r.hdr))
            && (r.out.Some? ==>
                  a.Ask? && Found(s.flow, s.frag, a).Some? &&
                  r.out.value == Encapsulated(Found(s.flow, s.frag, a).value, f[ETH_LEN..]))
  {
    match Classify(s.cfg, i, f)
    case Ignore => Run(i, f, Counting(Look), None, NO_HEADER, [], None, ToStack)
    case Refuse(c) => Run(i, f, Counting(Look), None, NO_HEADER, Pair(i, c, |f|), None, Nothing)
    case Ask(inFrag, key, record) =>
      var hit := Found(s.flow, s.frag, Ask(inFrag, key, record));
      var e := EncapRules.Finish(i, f, hit, headroom);
      Run(i, f, if record.Some? && hit.Some? then Record else Counting(Look), record,
          hit.GetOr(NO_HEADER), e.bumps, e.out, Nothing)
  }

  function Moved(s: State, cpu: nat, phase: Phase): State
    requires cpu in s.runs
  {
    s.(runs := s.runs[cpu := s.runs[cpu].(phase := phase)])
  }

  // ---- Counting ----

  /** The metrics map and what has been counted, and how far one run's counting has got. */
  datatype Progress = Progress(rows: Rows, lost: nat, tally: map<(RowKey, nat), nat>, micro: Micro, todo: seq<Bump>)

  /** The first pending increment is over. */
  function Done(p: Progress, cpu: nat): (q: Progress)
    requires p.todo != []
    ensures q.rows == p.rows && q.todo == p.todo[1..]
  {
    var at := (p.todo[0].row, cpu);
    p.(micro := Look, todo := p.todo[1..], tally := p.tally[at := Get(p.tally, at) + p.todo[0].amount])
  }

  /** The rows with one CPU's value of `row` set. */
  function Put(rows: Rows, row: RowKey, cpu: nat, value: nat): (r: Rows)
    requires row in rows
    ensures r.Keys == rows.Keys
  {
    var values: map<nat, nat> := rows[row][cpu := value];
    rows[row := values]
  }

  /** One step of increment_metric on one CPU, for the first pending increment. */
  function CountOne(p: Progress, maxRows: nat, cpu: nat): Progress
    requires p.todo != []
  {
    var row := p.todo[0].row;
    match p.micro
    case Look =>
      p.(micro := if row in p.rows then Add(Value(p.rows, row, cpu)) else Create)
    case Create =>
      // BPF_NOEXIST: fails harmlessly if another CPU made the row first.
      p.(micro := LookAgain, rows := if row !in p.rows && |p.rows| < maxRows then p.rows[row := map[]] else p.rows)
    case LookAgain =>
      if row in p.rows then p.(micro := Add(Value(p.rows, row, cpu))) else Done(p.(lost := p.lost + 1), cpu)
    case Add(v) =>
      if row in p.rows then Done(p.(rows := Put(p.rows, row, cpu, v + p.todo[0].amount)), cpu)
      else Done(p.(lost := p.lost + 1), cpu)
  }

  predicate IsCounting(s: State, cpu: nat) {
    cpu in s.runs && s.runs[cpu].phase.Counting? && s.runs[cpu].todo != []
  }

  function ProgressOf(s: State, cpu: nat): Progress
    requires IsCounting(s, cpu)
  {
    Progress(s.rows, s.lost, s.tally, s.runs[cpu].phase.micro, s.runs[cpu].todo)
  }

  function CountOnce(s: State, cpu: nat): Option<State> {
    if !IsCounting(s, cpu) then None
    else
      var p := CountOne(ProgressOf(s, cpu), MaxRows(s.cfg), cpu);
      Some(s.(rows := p.rows, lost := p.lost, tally := p.tally,
              runs := s.runs[cpu := s.runs[cpu].(phase := Counting(p.micro), todo := p.todo)]))
  }

  /** What is on the wire, and counted as sent, once the run `r` has returned its verdict. */
  function SentBy(s: State, cpu: nat, r: Run): seq<Sent> {
    if r.out.Some? && r.ifindex in s.veths
      then s.sent + [Sent(cpu, r.ifindex, s.veths[r.ifindex], r.frame, r.out.value)]
    else s.sent
  }

  /** What is left on this host, once it has; a redirect to a device that is gone drops the packet. */
  function HandedBy(s: State, cpu: nat, r: Run): seq<Handed> {
    match r.local
    case Nothing => s.handed
    case ToStack => s.handed + [Passed(cpu, r.frame)]
    case ToVeth(packet) =>
      if r.ifindex in s.veths then s.handed + [Delivered(cpu, r.ifindex, s.veths[r.ifindex], r.frame, packet)]
      else s.handed
  }

  function OctetsBy(s: State, cpu: nat, r: Run): map<(nat, nat), nat> {
    var at := (r.ifindex, cpu);
    if r.out.Some? && r.ifindex in s.veths then s.octets[at := Get(s.octets, at) + |r.out.value|] else s.octets
  }

  /** The run returns its verdict: its frame goes onto the wire, to a veth, to the kernel's stack, or nowhere. */
  function End(s: State, cpu: nat): Option<State> {
    if cpu !in s.runs || s.runs[cpu].phase != Counting(Look) || s.runs[cpu].todo != [] then None
    else
      var r := s.runs[cpu];
      Some(s.(runs := s.runs - {cpu}, sent := SentBy(s, cpu, r), handed := HandedBy(s, cpu, r),
              octets := OctetsBy(s, cpu, r)))
  }

  function Write(s: State, cpu: nat): Option<State> {
    if cpu !in s.runs || s.runs[cpu].key.None? then None
    else
      var r := s.runs[cpu];
      var ready := if s.policy.WriteChanged? then r.phase.Decided? else r.phase.Publish?;
      if !ready then None
      else
        var flow := if r.phase.Decided? && !r.phase.write then s.flow else s.flow[r.key.value := r.hdr];
        Some(Moved(s.(flow := flow), cpu, Counting(Look)))
  }

  predicate Holds(s: State, ifindex: nat) {
    exists c :: c in s.runs && s.runs[c].ifindex == ifindex
  }

  function Step(s: State, e: Event): Option<State> {
    match e
    case DecapStart(cpu, f) =>
      if cpu in s.runs then None
      else
        var d := Decide(s.cfg, s.endpoints, f);
        Some(s.(runs := s.runs[cpu := StartDecap(d, f)], accepted := NowAccepted(s.accepted, d, f)))
    case DecapDecide(cpu) =>
      if cpu !in s.runs || !s.runs[cpu].phase.Publish? || s.runs[cpu].key.None? || s.policy.WriteAlways? then None
      else
        var r := s.runs[cpu];
        Some(Moved(s, cpu, Decided(!(r.key.value in s.flow && StableEq(s.flow[r.key.value], r.hdr)))))
    case DecapWrite(cpu) => Write(s, cpu)
    case EncapStart(cpu, i, f, headroom) =>
      if cpu in s.runs || i !in s.attached then None
      else Some(s.(runs := s.runs[cpu := StartEncap(s, i, f, headroom)], replies := NowGiven(s, i, f)))
    case EncapRecord(cpu) =>
      if cpu !in s.runs || !s.runs[cpu].phase.Record? || s.runs[cpu].key.None? then None
      else Some(Moved(s.(frag := s.frag[s.runs[cpu].key.value := s.runs[cpu].hdr]), cpu, Counting(Look)))
    case CountStep(cpu) => CountOnce(s, cpu)
    case Finish(cpu) => End(s, cpu)
    case EvictFlow(k) => Some(s.(flow := s.flow - {k}))
    case EvictFrag(k) => Some(s.(frag := s.frag - {k}))
    case _ => ControlStep(s, e)
  }

  /** The kernel operations add and remove are made of. */
  function ControlStep(s: State, e: Event): Option<State> {
    match e
    case Insert(v, info) =>
      if v in s.endpoints || |s.endpoints| >= s.cfg.maxEndpoints then None
      else Some(s.(endpoints := s.endpoints[v := info]))
    case Delete(v) =>
      if v !in s.endpoints then None else Some(s.(endpoints := s.endpoints - {v}))
    case CreateVeth(i, v) =>
      if i in s.veths || i == s.cfg.uplink || i == 0 then None else Some(s.(veths := s.veths[i := v]))
    case DeleteVeth(i) =>
      // Deleting a device waits out a grace period: every run that still holds it has ended.
      if i !in s.veths || Holds(s, i) then None
      else Some(s.(veths := s.veths - {i}, attached := s.attached - {i}))
    case Attach(i) =>
      if i !in s.veths then None else Some(s.(attached := s.attached + {i}))
    case Detach(i) => Some(s.(attached := s.attached - {i}))
    case SweepFlow(i) => Some(s.(flow := Without(s.flow, i)))
    case SweepFrag(i) => Some(s.(frag := Without(s.frag, i)))
    case SweepRows(i) =>
      Some(s.(rows := map k | k in s.rows && k.ifindex != i :: s.rows[k],
              tally := map k | k in s.tally && k.0.ifindex != i :: s.tally[k],
              octets := map k | k in s.octets && k.0 != i :: s.octets[k]))
    case _ => None
  }

  predicate IsControl(e: Event) {
    e.Insert? || e.Delete? || e.CreateVeth? || e.DeleteVeth? || e.Attach? || e.Detach? ||
    e.SweepFlow? || e.SweepFrag? || e.SweepRows?
  }

  /** A whole run: None as soon as an event is not enabled. */
  function Exec(s: State, evs: seq<Event>): Option<State>
    decreases |evs|
  {
    if evs == [] then Some(s)
    else
      match Step(s, evs[0])
      case None => None
      case Some(t) => Exec(t, evs[1..])
  }

  lemma {:induction false} ExecAppend(s: State, a: seq<Event>, b: seq<Event>)
    ensures Exec(s, a + b) == (match Exec(s, a) case None => None case Some(t) => Exec(t, b))
    decreases |a|
  {
    if a == [] {
      assert a + b == b;
    } else {
      assert (a + b)[0] == a[0] && (a + b)[1..] == a[1..] + b;
      if Step(s, a[0]).Some? {
        ExecAppend(Step(s, a[0]).value, a[1..], b);
      }
    }
  }

  lemma ExecOne(s: State, e: Event)
    ensures Exec(s, [e]) == Step(s, e)
  {
    if Step(s, e).Some? {
      assert [e][1..] == [];
    }
  }

  lemma ExecCons(s: State, e: Event, rest: seq<Event>)
    requires Step(s, e).Some?
    ensures Exec(s, [e] + rest) == Exec(Step(s, e).value, rest)
  {
    assert ([e] + rest)[1..] == rest;
  }

  // ---- The order of kernel operations add and remove keep to ----

  /** No entry of the three maps is keyed by `i`. */
  predicate Clean(s: State, i: nat) {
    && (forall k :: k in s.flow ==> k.ifindex != i)
    && (forall k :: k in s.frag ==> k.ifindex != i)
    && (forall k :: k in s.rows ==> k.ifindex != i)
  }

  /**
   A veth is created on a clean ifindex, an endpoint is inserted only for its own live veth, and a veth is
   deleted only once no endpoint points to it.
   */
  predicate Ordered(s: State, e: Event) {
    match e
    case Insert(v, info) => info.ifindex in s.veths && s.veths[info.ifindex] == v
    case CreateVeth(i, v) => Clean(s, i)
    case DeleteVeth(i) => forall v :: v in s.endpoints ==> s.endpoints[v].ifindex != i
    case _ => true
  }

  predicate AllOrdered(s: State, evs: seq<Event>)
    decreases |evs|
  {
    evs == [] || (Ordered(s, evs[0]) && (Step(s, evs[0]).Some? ==> AllOrdered(Step(s, evs[0]).value, evs[1..])))
  }

  // ---- What one event changes ----

  lemma FlowEffect(s: State, e: Event)
    requires Step(s, e).Some?
    ensures var t := Step(s, e).value;
            && t.cfg == s.cfg && t.policy == s.policy
            && forall k :: k in t.flow ==>
                 k in s.flow || (e.DecapWrite? && e.cpu in s.runs && s.runs[e.cpu].key == Some(k))
  {
  }

  lemma FragEffect(s: State, e: Event)
    requires Step(s, e).Some?
    ensures var t := Step(s, e).value;
            forall k :: k in t.frag ==>
              k in s.frag || (e.EncapRecord? && e.cpu in s.runs && s.runs[e.cpu].key == Some(k))
  {
  }

  /** What counting can add to, and how far it gets. */
  lemma CountEffect(p: Progress, maxRows: nat, cpu: nat)
    requires p.todo != []
    ensures var q := CountOne(p, maxRows, cpu);
            && q.rows.Keys <= p.rows.Keys + {p.todo[0].row}
            && (q.todo == p.todo || q.todo == p.todo[1..])
  {
  }

  lemma RowsShrink(s: State, e: Event)
    requires Step(s, e).Some? && !e.CountStep?
    ensures Step(s, e).value.rows.Keys <= s.rows.Keys
  {
  }

  lemma RowsEffect(s: State, e: Event)
    requires Step(s, e).Some?
    ensures var t := Step(s, e).value;
            if e.CountStep? then
              e.cpu in s.runs && s.runs[e.cpu].todo != [] && t.rows.Keys <= s.rows.Keys + {s.runs[e.cpu].todo[0].row}
            else t.rows.Keys <= s.rows.Keys
  {
    if e.CountStep? {
      CountEffect(ProgressOf(s, e.cpu), MaxRows(s.cfg), e.cpu);
    } else {
      RowsShrink(s, e);
    }
  }

  /** The datapath never touches endpoints, devices or attachments. */
  lemma DatapathEffect(s: State, e: Event)
    requires Step(s, e).Some? && !IsControl(e)
    ensures var t := Step(s, e).value;
            t.cfg == s.cfg && t.endpoints == s.endpoints && t.veths == s.veths && t.attached == s.attached
  {
  }

  /** The kernel's operations leave runs in flight alone, and tables shrink but for an insertion and an attachment. */
  lemma ControlEffect(s: State, e: Event)
    requires IsControl(e) && Step(s, e).Some?
    ensures var t := Step(s, e).value;
            && t.runs == s.runs && t.sent == s.sent && t.handed == s.handed && t.lost == s.lost
            && (!e.SweepRows? ==> t.rows == s.rows && t.tally == s.tally && t.octets == s.octets)
            && (e.Attach? || t.attached <= s.attached) && (e.Attach? ==> t.attached == s.attached + {e.ifindex})
            && forall v :: v in t.endpoints ==>
                 (v in s.endpoints && t.endpoints[v] == s.endpoints[v]) || (e.Insert? && t.endpoints[v] == e.info)
  {
    match e {
      case Insert(_, _) =>
      case Delete(_) =>
      case CreateVeth(_, _) =>
      case DeleteVeth(_) =>
      case Attach(_) =>
      case Detach(_) =>
      case SweepRows(_) =>
      case _ =>
    }
  }

  lemma VethEffect(s: State, e: Event)
    requires Step(s, e).Some?
    ensures var t := Step(s, e).value;
            t.veths == match e
              case CreateVeth(i, v) => s.veths[i := v]
              case DeleteVeth(i) => s.veths - {i}
              case _ => s.veths
  {
    if !IsControl(e) {
      DatapathEffect(s, e);
    }
  }

  /** `r` is further on than `q`, but holds, publishes and sends the same. */
  predicate FurtherOn(q: Run, r: Run) {
    r == q.(phase := r.phase, todo := r.todo) && (r.todo == q.todo || (q.todo != [] && r.todo == q.todo[1..]))
  }

  /** A run starts by its own event, and otherwise only gets further on. */
  lemma RunsEffect(s: State, e: Event)
    requires Step(s, e).Some?
    ensures var t := Step(s, e).value;
            forall c :: c in t.runs ==>
              || (e.DecapStart? && c == e.cpu && t.runs[c] == StartDecap(Decide(s.cfg, s.endpoints, e.frame), e.frame))
              || (e.EncapStart? && c == e.cpu && t.runs[c] == StartEncap(s, e.ifindex, e.frame, e.headroom))
              || (c in s.runs && FurtherOn(s.runs[c], t.runs[c]))
  {
    if e.CountStep? {
      CountRuns(s, e.cpu);
    } else if !e.DecapStart? && !e.EncapStart? {
      OtherRuns(s, e);
    }
  }

  lemma CountRuns(s: State, cpu: nat)
    requires CountOnce(s, cpu).Some?
    ensures var t := CountOnce(s, cpu).value;
            forall c :: c in t.runs ==> c in s.runs && FurtherOn(s.runs[c], t.runs[c])
  {
    CountEffect(ProgressOf(s, cpu), MaxRows(s.cfg), cpu);
  }

  lemma OtherRuns(s: State, e: Event)
    requires Step(s, e).Some? && !e.DecapStart? && !e.EncapStart? && !e.CountStep?
    ensures forall c :: c in Step(s, e).value.runs ==> c in s.runs && FurtherOn(s.runs[c], Step(s, e).value.runs[c])
  {
  }

  lemma {:induction false} SettingsKept(s: State, evs: seq<Event>)
    requires Exec(s, evs).Some?
    ensures Exec(s, evs).value.cfg == s.cfg
    decreases |evs|
  {
    if evs != [] {
      FlowEffect(s, evs[0]);
      SettingsKept(Step(s, evs[0]).value, evs[1..]);
    }
  }
}
