/**
 Endpoint isolation: over every run of the machine whose kernel operations keep to the order add and remove
 use, whatever the interleaving, evictions and ifindex reuse, a frame sent for a reply from the veth of an
 endpoint carries the outer header of a packet decap accepted for that same endpoint, of the flow it asked for.
 */
module Isolation {
  import opened Bytes
  import opened InnerPacket
  import opened OuterHeader
  import opened Programs
  import opened DecapRules
  import opened EncapRules
  import opened RoundTrip
  import opened Machine

  type Accepted = set<(nat, seq<Byte>)>

  type Replies = set<(nat, nat, seq<Byte>)>

  /** `h` is the reply form of a packet accepted for `v` that decap stores under `k`. */
  ghost predicate Genuine(acc: Accepted, v: nat, k: FlowKey, h: Header) {
    exists f :: (v, f) in acc && |f| >= HDR_LEN && h == ReplyForm(f[..HDR_LEN]) && StoreKey(k.ifindex, f) == Some(k)
  }

  /** The reply `g` is a first fragment that asks for the flow of `f`, and its answer is recorded under `k`. */
  predicate Opens(cfg: Config, k: FlowKey, g: seq<Byte>, f: seq<Byte>)
    requires |f| >= HDR_LEN
  {
    var a := Classify(cfg, k.ifindex, g);
    a.Ask? && a.record == Some(k) && !a.inFrag && StoreKey(k.ifindex, f) == Some(a.key)
  }

  /** Some first fragment of the datagram `k` identifies, from the veth of `v`, asked for the flow of `f`. */
  ghost predicate Opened(cfg: Config, given: Replies, v: nat, k: FlowKey, f: seq<Byte>)
    requires |f| >= HDR_LEN
  {
    exists g :: (v, k.ifindex, g) in given && Opens(cfg, k, g, f)
  }

  /** `h` is the reply form of a packet accepted for `v`, of a flow that datagram `k`'s first fragment asked for. */
  ghost predicate Authentic(cfg: Config, acc: Accepted, given: Replies, v: nat, k: FlowKey, h: Header) {
    exists f :: (v, f) in acc && |f| >= HDR_LEN && h == ReplyForm(f[..HDR_LEN]) && Opened(cfg, given, v, k, f)
  }

  /**
   `f` is of the very flow encap asked for; if it asked by fragment identification, of the flow a first fragment of
   the same datagram asked for, which encap was given from the same endpoint's veth.
   */
  ghost predicate Asked(cfg: Config, given: Replies, v: nat, ifindex: nat, reply: seq<Byte>, f: seq<Byte>)
    requires |f| >= HDR_LEN
  {
    var a := Classify(cfg, ifindex, reply);
    a.Ask? && if a.inFrag then Opened(cfg, given, v, a.key, f) else StoreKey(ifindex, f) == Some(a.key)
  }

  /** `g` is `reply` in the outer header of a packet accepted for `v`, of the reply's own flow. */
  ghost predicate RightlySent(cfg: Config, acc: Accepted, given: Replies, v: nat, i: nat, reply: seq<Byte>,
                              g: seq<Byte>) {
    && ETH_LEN <= |reply| <= ETH_LEN + cfg.maxInner
    && exists f :: (v, f) in acc && |f| >= HDR_LEN && Asked(cfg, given, v, i, reply, f) &&
                   g == Returned(f, reply[ETH_LEN..])
  }

  /** `p` is the inner packet of `f`, accepted for `v`, behind a new Ethernet header of the same protocol. */
  predicate RightlyHanded(acc: Accepted, v: nat, f: seq<Byte>, p: seq<Byte>) {
    && (v, f) in acc && |f| >= HDR_LEN && |p| >= ETH_LEN
    && p[ETH_LEN..] == f[HDR_LEN..] && p[12..14] == f[PROTO_TYPE..PROTO_TYPE + 2]
  }

  // ---- The invariant ----

  predicate EndpointsOk(s: State) {
    && s.cfg.uplink !in s.veths
    && s.attached <= s.veths.Keys
    && forall v :: v in s.endpoints ==> s.endpoints[v].ifindex in s.veths && s.veths[s.endpoints[v].ifindex] == v
  }

  predicate AcceptedOk(s: State) {
    forall a :: a in s.accepted ==> CheckOuter(a.1, s.cfg.origin) == ForEndpoint(a.0)
  }

  /** What a run may still write or send is its interface's own endpoint's. */
  ghost predicate RunOk(s: State, r: Run) {
    && (r.ifindex == s.cfg.uplink || r.ifindex in s.veths)
    && (r.key.Some? ==> r.ifindex in s.veths && r.key.value.ifindex == r.ifindex)
    && (r.phase.Publish? || r.phase.Decided? ==>
          r.key.Some? && r.ifindex in s.veths && Genuine(s.accepted, s.veths[r.ifindex], r.key.value, r.hdr))
    && (r.phase.Record? ==>
          r.key.Some? && r.ifindex in s.veths &&
          Authentic(s.cfg, s.accepted, s.replies, s.veths[r.ifindex], r.key.value, r.hdr))
    && (r.out.Some? ==>
          r.ifindex in s.veths &&
          RightlySent(s.cfg, s.accepted, s.replies, s.veths[r.ifindex], r.ifindex, r.frame, r.out.value))
    && (r.local.ToVeth? ==>
          r.ifindex in s.veths && RightlyHanded(s.accepted, s.veths[r.ifindex], r.frame, r.local.packet))
  }

  ghost predicate RunsOk(s: State) {
    forall c :: c in s.runs ==> RunOk(s, s.runs[c])
  }

  /** An entry keyed by a live veth's ifindex is that veth's endpoint's. */
  ghost predicate FlowOk(s: State) {
    forall k :: k in s.flow && k.ifindex in s.veths ==> Genuine(s.accepted, s.veths[k.ifindex], k, s.flow[k])
  }

  ghost predicate FragOk(s: State) {
    forall k :: k in s.frag && k.ifindex in s.veths ==>
      Authentic(s.cfg, s.accepted, s.replies, s.veths[k.ifindex], k, s.frag[k])
  }

  ghost predicate Right(cfg: Config, acc: Accepted, given: Replies, x: Sent) {
    RightlySent(cfg, acc, given, x.vpce, x.ifindex, x.reply, x.frame)
  }

  ghost predicate SentOk(s: State) {
    forall n :: 0 <= n < |s.sent| ==> Right(s.cfg, s.accepted, s.replies, s.sent[n])
  }

  predicate HandedOk(s: State) {
    forall n :: 0 <= n < |s.handed| && s.handed[n].Delivered? ==>
      RightlyHanded(s.accepted, s.handed[n].vpce, s.handed[n].frame, s.handed[n].packet)
  }

  ghost predicate Inv(s: State) {
    EndpointsOk(s) && AcceptedOk(s) && RunsOk(s) && FlowOk(s) && FragOk(s) && SentOk(s) && HandedOk(s)
  }

  /** Every run works for the uplink or for a live veth. */
  lemma RunsHold(s: State)
    requires RunsOk(s)
    ensures forall c :: c in s.runs ==> s.runs[c].ifindex == s.cfg.uplink || s.runs[c].ifindex in s.veths
  {
    forall c | c in s.runs
      ensures s.runs[c].ifindex == s.cfg.uplink || s.runs[c].ifindex in s.veths
    {
      assert RunOk(s, s.runs[c]);
    }
  }

  // ---- Every event keeps it ----

  lemma MoreOpened(cfg: Config, given: Replies, given': Replies, v: nat, k: FlowKey, f: seq<Byte>)
    requires given <= given' && |f| >= HDR_LEN && Opened(cfg, given, v, k, f)
    ensures Opened(cfg, given', v, k, f)
  {
    var g :| (v, k.ifindex, g) in given && Opens(cfg, k, g, f);
    assert (v, k.ifindex, g) in given';
  }

  lemma StaysAuthentic(cfg: Config, acc: Accepted, acc': Accepted, given: Replies, given': Replies, v: nat,
                       k: FlowKey, h: Header)
    requires acc <= acc' && given <= given' && Authentic(cfg, acc, given, v, k, h)
    ensures Authentic(cfg, acc', given', v, k, h)
  {
    var f :| (v, f) in acc && |f| >= HDR_LEN && h == ReplyForm(f[..HDR_LEN]) && Opened(cfg, given, v, k, f);
    MoreOpened(cfg, given, given', v, k, f);
    assert (v, f) in acc';
  }

  lemma StaysGenuine(acc: Accepted, acc': Accepted, v: nat, k: FlowKey, h: Header)
    requires acc <= acc' && Genuine(acc, v, k, h)
    ensures Genuine(acc', v, k, h)
  {
    var f :| (v, f) in acc && |f| >= HDR_LEN && h == ReplyForm(f[..HDR_LEN]) && StoreKey(k.ifindex, f) == Some(k);
    assert (v, f) in acc';
  }

  lemma StaysRight(cfg: Config, acc: Accepted, acc': Accepted, given: Replies, given': Replies, v: nat, i: nat,
                   r: seq<Byte>, g: seq<Byte>)
    requires acc <= acc' && given <= given' && RightlySent(cfg, acc, given, v, i, r, g)
    ensures RightlySent(cfg, acc', given', v, i, r, g)
  {
    var f :| (v, f) in acc && |f| >= HDR_LEN && Asked(cfg, given, v, i, r, f) && g == Returned(f, r[ETH_LEN..]);
    var a := Classify(cfg, i, r);
    if a.inFrag {
      MoreOpened(cfg, given, given', v, a.key, f);
    }
    assert (v, f) in acc' && Asked(cfg, given', v, i, r, f);
  }

  /** Nothing seen is forgotten, and the veths are the same. */
  predicate SeenMore(s: State, t: State) {
    s.cfg == t.cfg && s.accepted <= t.accepted && s.replies <= t.replies && s.veths == t.veths
  }

  lemma RunStaysOk(s: State, t: State, r: Run)
    requires RunOk(s, r) && SeenMore(s, t)
    ensures RunOk(t, r)
  {
    if r.ifindex in s.veths {
      var v := s.veths[r.ifindex];
      if r.phase.Publish? || r.phase.Decided? {
        StaysGenuine(s.accepted, t.accepted, v, r.key.value, r.hdr);
      }
      if r.phase.Record? {
        StaysAuthentic(s.cfg, s.accepted, t.accepted, s.replies, t.replies, v, r.key.value, r.hdr);
      }
      if r.out.Some? {
        StaysRight(s.cfg, s.accepted, t.accepted, s.replies, t.replies, v, r.ifindex, r.frame, r.out.value);
      }
    }
  }

  /** What entries and sent frames claim stays true as more packets are accepted. */
  lemma HistoryKept(s: State, t: State)
    requires Inv(s) && SeenMore(s, t)
    requires s.flow == t.flow && s.frag == t.frag && s.sent == t.sent && s.handed == t.handed
    ensures FlowOk(t) && FragOk(t) && SentOk(t) && HandedOk(t)
  {
    forall k | k in t.flow && k.ifindex in t.veths
      ensures Genuine(t.accepted, t.veths[k.ifindex], k, t.flow[k])
    {
      StaysGenuine(s.accepted, t.accepted, s.veths[k.ifindex], k, s.flow[k]);
    }
    forall k | k in t.frag && k.ifindex in t.veths
      ensures Authentic(t.cfg, t.accepted, t.replies, t.veths[k.ifindex], k, t.frag[k])
    {
      StaysAuthentic(s.cfg, s.accepted, t.accepted, s.replies, t.replies, s.veths[k.ifindex], k, s.frag[k]);
    }
    forall n | 0 <= n < |t.sent|
      ensures Right(t.cfg, t.accepted, t.replies, t.sent[n])
    {
      var x := s.sent[n];
      assert Right(s.cfg, s.accepted, s.replies, x);
      StaysRight(s.cfg, s.accepted, t.accepted, s.replies, t.replies, x.vpce, x.ifindex, x.reply, x.frame);
    }
  }

  /** A decap run that will publish holds the endpoint's own veth and its own packet's header. */
  lemma StartDecapOk(s: State, d: Decision, f: seq<Byte>, acc: Accepted)
    requires d.ifindex == s.cfg.uplink || d.ifindex in s.veths
    requires d.Deliver? ==> d.ifindex in s.veths && s.veths[d.ifindex] == d.vpce && |f| >= HDR_LEN
    requires d.Deliver? && d.store.Some? ==> d.store.value.ifindex == d.ifindex
    requires d.Deliver? && d.store.Some? ==> Genuine(acc, d.vpce, d.store.value, ReplyForm(f[..HDR_LEN]))
    requires d.Deliver? ==> RightlyHanded(acc, d.vpce, f, d.out)
    ensures RunOk(s.(accepted := acc), StartDecap(d, f))
  {
    SilentRunOk(s.(accepted := acc), StartDecap(d, f));
  }

  /** What decap delivers is the inner packet of the frame it accepted. */
  lemma HandsInner(cfg: Config, endpoints: map<nat, Info>, f: seq<Byte>, acc: Accepted)
    requires Decide(cfg, endpoints, f).Deliver? && (Decide(cfg, endpoints, f).vpce, f) in acc
    ensures RightlyHanded(acc, Decide(cfg, endpoints, f).vpce, f, Decide(cfg, endpoints, f).out)
  {
    var d := Decide(cfg, endpoints, f);
    var eth := endpoints[d.vpce].dst + endpoints[d.vpce].src;
    assert d.out == eth + f[PROTO_TYPE..PROTO_TYPE + 2] + f[HDR_LEN..];
  }

  /** What decap accepts is genuine from then on. */
  lemma DeliveredIsGenuine(s: State, f: seq<Byte>)
    requires var d := Decide(s.cfg, s.endpoints, f); d.Deliver? && d.store.Some?
    ensures var d := Decide(s.cfg, s.endpoints, f);
            && d.store.value.ifindex == d.ifindex
            && Genuine(NowAccepted(s.accepted, d, f), d.vpce, d.store.value, ReplyForm(f[..HDR_LEN]))
  {
    var d := Decide(s.cfg, s.endpoints, f);
    AcceptedIsGenuine(NowAccepted(s.accepted, d, f), d.vpce, f, d.store.value);
  }

  lemma AcceptedIsGenuine(acc: Accepted, v: nat, f: seq<Byte>, k: FlowKey)
    requires (v, f) in acc && |f| >= HDR_LEN && StoreKey(k.ifindex, f) == Some(k)
    ensures Genuine(acc, v, k, ReplyForm(f[..HDR_LEN]))
  {
  }

  /** A run that sends nothing is right if what it may publish is. */
  lemma SilentRunOk(s: State, r: Run)
    requires r.out.None? && (r.phase.Publish? || r.phase.Counting?)
    requires r.ifindex == s.cfg.uplink || r.ifindex in s.veths
    requires r.phase.Publish? ==> r.key.Some?
    requires r.key.Some? ==> r.ifindex in s.veths && r.key.value.ifindex == r.ifindex
    requires r.key.Some? ==> Genuine(s.accepted, s.veths[r.ifindex], r.key.value, r.hdr)
    requires r.local.ToVeth? ==>
               r.ifindex in s.veths && RightlyHanded(s.accepted, s.veths[r.ifindex], r.frame, r.local.packet)
    ensures RunOk(s, r)
  {
  }

  /** A decap run works for the uplink or for a provisioned endpoint's veth. */
  lemma DecideIfindex(s: State, f: seq<Byte>)
    requires EndpointsOk(s)
    ensures var d := Decide(s.cfg, s.endpoints, f);
            && (d.ifindex == s.cfg.uplink || d.ifindex in s.veths)
            && (d.Deliver? ==> d.ifindex in s.veths && s.veths[d.ifindex] == d.vpce)
  {
    var d := Decide(s.cfg, s.endpoints, f);
    if d.Settle? {
      SettleIfindex(s.cfg, s.endpoints, f);
    }
  }

  lemma SettleIfindex(cfg: Config, endpoints: map<nat, Info>, f: seq<Byte>)
    requires Decide(cfg, endpoints, f).Settle?
    ensures var d := Decide(cfg, endpoints, f);
            d.ifindex == cfg.uplink || exists v :: v in endpoints && d.ifindex == endpoints[v].ifindex
  {
  }

  /** An encap run, its reply among those given, has what its own veth's entry holds. */
  lemma StartEncapOk(s: State, i: nat, f: seq<Byte>, headroom: nat)
    requires Inv(s) && i in s.attached && (s.veths[i], i, f) in s.replies
    ensures RunOk(s, StartEncap(s, i, f, headroom))
  {
    var a := Classify(s.cfg, i, f);
    assert i in s.veths;
    if a.Ask? && Found(s.flow, s.frag, a).Some? {
      var g := HeaderOrigin(s, i, a);
      AskedForOk(s, i, f, headroom, g);
    }
  }

  /** The packet whose header a lookup for a live veth finds. */
  lemma HeaderOrigin(s: State, i: nat, a: Request) returns (g: seq<Byte>)
    requires FlowOk(s) && FragOk(s) && i in s.veths
    requires a.Ask? && a.key.ifindex == i && Found(s.flow, s.frag, a).Some?
    ensures (s.veths[i], g) in s.accepted && |g| >= HDR_LEN
    ensures Found(s.flow, s.frag, a) == Some(ReplyForm(g[..HDR_LEN]))
    ensures if a.inFrag then Opened(s.cfg, s.replies, s.veths[i], a.key, g) else StoreKey(i, g) == Some(a.key)
  {
    var h, v := Found(s.flow, s.frag, a).value, s.veths[i];
    if a.inFrag {
      assert Authentic(s.cfg, s.accepted, s.replies, v, a.key, h);
      g :| (v, g) in s.accepted && |g| >= HDR_LEN && h == ReplyForm(g[..HDR_LEN])
           && Opened(s.cfg, s.replies, v, a.key, g);
    } else {
      assert Genuine(s.accepted, v, a.key, h);
      g :| (v, g) in s.accepted && |g| >= HDR_LEN && h == ReplyForm(g[..HDR_LEN]) && StoreKey(i, g) == Some(a.key);
    }
  }

  lemma AskedForOk(s: State, i: nat, f: seq<Byte>, headroom: nat, g: seq<Byte>)
    requires EndpointsOk(s) && i in s.attached && (s.veths[i], i, f) in s.replies
    requires Classify(s.cfg, i, f).Ask?
    requires (s.veths[i], g) in s.accepted && |g| >= HDR_LEN
    requires Found(s.flow, s.frag, Classify(s.cfg, i, f)) == Some(ReplyForm(g[..HDR_LEN]))
    requires Asked(s.cfg, s.replies, s.veths[i], i, f, g)
    ensures RunOk(s, StartEncap(s, i, f, headroom))
  {
    var r, v := StartEncap(s, i, f, headroom), s.veths[i];
    if r.phase.Record? {
      assert Opens(s.cfg, r.key.value, f, g);
      assert Authentic(s.cfg, s.accepted, s.replies, v, r.key.value, r.hdr);
    }
    if r.out.Some? {
      assert r.out.value == Returned(g, f[ETH_LEN..]);
      assert RightlySent(s.cfg, s.accepted, s.replies, v, i, f, r.out.value);
    }
  }

  // ---- The datapath's events ----

  /** A new run that is right, and perhaps one more accepted packet. */
  lemma NewRunKeepsInv(s: State, t: State, cpu: nat, r: Run)
    requires Inv(s) && cpu !in s.runs && s.accepted <= t.accepted && s.replies <= t.replies
    requires t == s.(runs := s.runs[cpu := r], accepted := t.accepted, replies := t.replies)
    requires RunOk(s.(accepted := t.accepted, replies := t.replies), r) && AcceptedOk(t)
    ensures Inv(t)
  {
    forall c | c in t.runs
      ensures RunOk(t, t.runs[c])
    {
      if c != cpu {
        RunStaysOk(s, t, s.runs[c]);
      } else {
        RunStaysOk(s.(accepted := t.accepted, replies := t.replies), t, r);
      }
    }
    HistoryKept(s, t);
  }

  lemma DecapStartKeepsInv(s: State, cpu: nat, f: seq<Byte>)
    requires Inv(s) && cpu !in s.runs
    ensures Inv(Step(s, DecapStart(cpu, f)).value)
  {
    var t, d := Step(s, DecapStart(cpu, f)).value, Decide(s.cfg, s.endpoints, f);
    if d.Deliver? && d.store.Some? {
      DeliveredIsGenuine(s, f);
    }
    if d.Deliver? {
      HandsInner(s.cfg, s.endpoints, f, t.accepted);
    }
    DecideIfindex(s, f);
    StartDecapOk(s, d, f, t.accepted);
    NewRunKeepsInv(s, t, cpu, StartDecap(d, f));
  }

  lemma RunsStayOk(s: State, t: State)
    requires RunsOk(s) && SeenMore(s, t) && t.runs == s.runs
    ensures RunsOk(t)
  {
    forall c | c in t.runs
      ensures RunOk(t, t.runs[c])
    {
      RunStaysOk(s, t, s.runs[c]);
    }
  }

  lemma EncapStartKeepsInv(s: State, cpu: nat, i: nat, f: seq<Byte>, headroom: nat)
    requires Inv(s) && cpu !in s.runs && i in s.attached
    ensures Inv(Step(s, EncapStart(cpu, i, f, headroom)).value)
  {
    var t := Step(s, EncapStart(cpu, i, f, headroom)).value;
    var given := s.(replies := t.replies);
    HistoryKept(s, given);
    RunsStayOk(s, given);
    StartEncapOk(given, i, f, headroom);
    assert StartEncap(given, i, f, headroom) == StartEncap(s, i, f, headroom);
    NewRunKeepsInv(s, t, cpu, StartEncap(s, i, f, headroom));
  }

  /** All but one run unchanged, the maps and history too: what is left is that run. */
  lemma OneRunMoves(s: State, t: State, cpu: nat, r: Run)
    requires Inv(s) && cpu in s.runs && t.runs == s.runs[cpu := r]
    requires s.cfg == t.cfg && s.accepted == t.accepted && s.replies == t.replies && s.veths == t.veths
    requires RunOk(s, r)
    ensures RunsOk(t)
  {
    forall c | c in t.runs
      ensures RunOk(t, t.runs[c])
    {
      RunStaysOk(s, t, t.runs[c]);
    }
  }

  /** The maps a run's step may change, and the run itself. */
  lemma RunStepKeepsInv(s: State, t: State, cpu: nat, r: Run)
    requires Inv(s) && cpu in s.runs && t.runs == s.runs[cpu := r] && RunOk(s, r)
    requires s.cfg == t.cfg && s.accepted == t.accepted && s.replies == t.replies && s.veths == t.veths
    requires s.endpoints == t.endpoints && s.attached == t.attached
    requires s.sent == t.sent && s.handed == t.handed
    requires FlowOk(t) && FragOk(t)
    ensures Inv(t)
  {
    OneRunMoves(s, t, cpu, r);
  }

  lemma DecideKeepsInv(s: State, cpu: nat)
    requires Inv(s) && Step(s, DecapDecide(cpu)).Some?
    ensures Inv(Step(s, DecapDecide(cpu)).value)
  {
    var t := Step(s, DecapDecide(cpu)).value;
    assert RunOk(s, s.runs[cpu]);
    RunStepKeepsInv(s, t, cpu, t.runs[cpu]);
  }

  lemma WriteKeepsInv(s: State, cpu: nat)
    requires Inv(s) && Write(s, cpu).Some?
    ensures Inv(Write(s, cpu).value)
  {
    var t := Write(s, cpu).value;
    assert RunOk(s, s.runs[cpu]);
    RunStepKeepsInv(s, t, cpu, t.runs[cpu]);
  }

  lemma RecordKeepsInv(s: State, cpu: nat)
    requires Inv(s) && Step(s, EncapRecord(cpu)).Some?
    ensures Inv(Step(s, EncapRecord(cpu)).value)
  {
    var t := Step(s, EncapRecord(cpu)).value;
    assert RunOk(s, s.runs[cpu]);
    RunStepKeepsInv(s, t, cpu, t.runs[cpu]);
  }

  lemma CountKeepsInv(s: State, cpu: nat)
    requires Inv(s) && CountOnce(s, cpu).Some?
    ensures Inv(CountOnce(s, cpu).value)
  {
    var t := CountOnce(s, cpu).value;
    assert RunOk(s, s.runs[cpu]);
    RunStepKeepsInv(s, t, cpu, t.runs[cpu]);
  }

  lemma FinishKeepsRuns(s: State, cpu: nat)
    requires RunsOk(s) && End(s, cpu).Some?
    ensures RunsOk(End(s, cpu).value)
  {
    var t := End(s, cpu).value;
    forall c | c in t.runs
      ensures RunOk(t, t.runs[c])
    {
      RunStaysOk(s, t, s.runs[c]);
    }
  }

  lemma FinishKeepsInv(s: State, cpu: nat)
    requires Inv(s) && End(s, cpu).Some?
    ensures Inv(End(s, cpu).value)
  {
    var t := End(s, cpu).value;
    assert RunOk(s, s.runs[cpu]);
    FinishKeepsRuns(s, cpu);
    assert FlowOk(t) && FragOk(t) && EndpointsOk(t) && AcceptedOk(t);
  }

  // ---- The kernel's ----

  /** A veth's entries, runs and endpoint are untouched by one more veth on a clean ifindex. */
  lemma CreateKeepsInv(s: State, i: nat, v: nat)
    requires Inv(s) && Ordered(s, CreateVeth(i, v)) && Step(s, CreateVeth(i, v)).Some?
    ensures Inv(Step(s, CreateVeth(i, v)).value)
  {
    var t := Step(s, CreateVeth(i, v)).value;
    forall c | c in t.runs
      ensures RunOk(t, t.runs[c])
    {
      assert RunOk(s, s.runs[c]);
    }
  }

  lemma DeleteKeepsInv(s: State, i: nat)
    requires Inv(s) && Ordered(s, DeleteVeth(i)) && Step(s, DeleteVeth(i)).Some?
    ensures Inv(Step(s, DeleteVeth(i)).value)
  {
    var t := Step(s, DeleteVeth(i)).value;
    forall c | c in t.runs
      ensures RunOk(t, t.runs[c])
    {
      assert RunOk(s, s.runs[c]) && s.runs[c].ifindex != i;
    }
  }

  lemma EntriesKeepInv(s: State, e: Event)
    requires Inv(s) && Step(s, e).Some?
    requires e.EvictFlow? || e.EvictFrag? || e.SweepFlow? || e.SweepFrag? || e.SweepRows?
    ensures Inv(Step(s, e).value)
  {
    RunsStayOk(s, Step(s, e).value);
  }

  lemma TablesKeepInv(s: State, e: Event)
    requires Inv(s) && Ordered(s, e) && Step(s, e).Some?
    requires e.Insert? || e.Delete? || e.Attach? || e.Detach?
    ensures Inv(Step(s, e).value)
  {
    RunsStayOk(s, Step(s, e).value);
  }

  lemma StepKeepsInv(s: State, e: Event)
    requires Inv(s) && Ordered(s, e) && Step(s, e).Some?
    ensures Inv(Step(s, e).value)
  {
    match e {
      case DecapStart(cpu, f) => DecapStartKeepsInv(s, cpu, f);
      case EncapStart(cpu, i, f, headroom) => EncapStartKeepsInv(s, cpu, i, f, headroom);
      case Finish(cpu) => FinishKeepsInv(s, cpu);
      case CreateVeth(i, v) => CreateKeepsInv(s, i, v);
      case DeleteVeth(i) => DeleteKeepsInv(s, i);
      case DecapDecide(cpu) => DecideKeepsInv(s, cpu);
      case DecapWrite(cpu) => WriteKeepsInv(s, cpu);
      case EncapRecord(cpu) => RecordKeepsInv(s, cpu);
      case CountStep(cpu) => CountKeepsInv(s, cpu);
      case Insert(_, _) => TablesKeepInv(s, e);
      case Delete(_) => TablesKeepInv(s, e);
      case Attach(_) => TablesKeepInv(s, e);
      case Detach(_) => TablesKeepInv(s, e);
      case _ => EntriesKeepInv(s, e);
    }
  }

  lemma {:induction false} RunsKeepInv(s: State, evs: seq<Event>)
    requires Inv(s) && AllOrdered(s, evs) && Exec(s, evs).Some?
    ensures Inv(Exec(s, evs).value)
    decreases |evs|
  {
    if evs != [] {
      StepKeepsInv(s, evs[0]);
      RunsKeepInv(Step(s, evs[0]).value, evs[1..]);
    }
  }

  // ---- The results ----

  /** What isolation means for one sent frame, in terms of the octets on the wire. */
  ghost predicate Isolated(s: State, x: Sent) {
    && |x.reply| >= ETH_LEN && |x.frame| >= HDR_LEN
    // The header is of a packet decap accepted for this endpoint, of the reply's own flow.
    && RightlySent(s.cfg, s.accepted, s.replies, x.vpce, x.ifindex, x.reply, x.frame)
    // On the wire it names this endpoint and the reply's family, and carries the reply untouched.
    && CheckOuter(x.frame, ANY_ORIGIN) == ForEndpoint(x.vpce)
    && Family(BE16(x.frame, PROTO_TYPE)) == Family(BE16(x.reply, 12))
    && x.frame[HDR_LEN..] == x.reply[ETH_LEN..]
    && |x.reply| - ETH_LEN <= s.cfg.maxInner
  }

  /** Whichever way it was asked for, the packet found is of the reply's family. */
  lemma AskedFamily(cfg: Config, given: Replies, v: nat, i: nat, reply: seq<Byte>, f: seq<Byte>)
    requires |f| >= HDR_LEN && Asked(cfg, given, v, i, reply, f)
    ensures |reply| >= ETH_LEN && Family(BE16(f, PROTO_TYPE)) == Family(BE16(reply, 12))
  {
    var a := Classify(cfg, i, reply);
    if a.inFrag {
      var g :| (v, a.key.ifindex, g) in given && Opens(cfg, a.key, g, f);
      assert Classify(cfg, a.key.ifindex, g).key.isV6 == a.key.isV6;
    }
  }

  lemma SentIsIsolated(s: State, x: Sent)
    requires AcceptedOk(s) && Right(s.cfg, s.accepted, s.replies, x)
    ensures Isolated(s, x)
  {
    var f :| (x.vpce, f) in s.accepted && |f| >= HDR_LEN && Asked(s.cfg, s.replies, x.vpce, x.ifindex, x.reply, f)
          && x.frame == Returned(f, x.reply[ETH_LEN..]);
    assert CheckOuter((x.vpce, f).1, s.cfg.origin) == ForEndpoint(x.vpce);
    AskedFamily(s.cfg, s.replies, x.vpce, x.ifindex, x.reply, f);
    ReturnedPasses(s.cfg.origin, x.vpce, f, x.reply[ETH_LEN..]);
  }

  /** Endpoint isolation, for every run from the empty system. */
  lemma EndpointIsolation(cfg: Config, policy: Policy, evs: seq<Event>)
    requires AllOrdered(Init(cfg, policy), evs) && Exec(Init(cfg, policy), evs).Some?
    ensures var s := Exec(Init(cfg, policy), evs).value;
            forall n :: 0 <= n < |s.sent| ==> Isolated(s, s.sent[n])
  {
    var s := Exec(Init(cfg, policy), evs).value;
    RunsKeepInv(Init(cfg, policy), evs);
    forall n | 0 <= n < |s.sent|
      ensures Isolated(s, s.sent[n])
    {
      SentIsIsolated(s, s.sent[n]);
    }
  }

  /**
   The other way, for every run from the empty system: whatever was redirected to a veth is the inner packet of a
   frame whose own option names the endpoint that veth, live at that moment, was created for.
   */
  lemma EndpointDelivery(cfg: Config, policy: Policy, evs: seq<Event>)
    requires AllOrdered(Init(cfg, policy), evs) && Exec(Init(cfg, policy), evs).Some?
    ensures var s := Exec(Init(cfg, policy), evs).value;
            forall n :: 0 <= n < |s.handed| && s.handed[n].Delivered? ==> RightlyDelivered(s, s.handed[n])
  {
    var s := Exec(Init(cfg, policy), evs).value;
    RunsKeepInv(Init(cfg, policy), evs);
    forall n | 0 <= n < |s.handed| && s.handed[n].Delivered?
      ensures RightlyDelivered(s, s.handed[n])
    {
      var x := s.handed[n];
      assert CheckOuter((x.vpce, x.frame).1, s.cfg.origin) == ForEndpoint(x.vpce);
    }
  }

  predicate RightlyDelivered(s: State, x: Handed)
    requires x.Delivered?
  {
    RightlyHanded(s.accepted, x.vpce, x.frame, x.packet) && CheckOuter(x.frame, s.cfg.origin) == ForEndpoint(x.vpce)
  }

  /** And nothing accepted goes astray: the run of an accepted frame ends by redirecting it to its endpoint's veth. */
  lemma AcceptedArrives(s: State, cpu: nat)
    requires Inv(s) && End(s, cpu).Some? && s.runs[cpu].local.ToVeth?
    ensures var r := s.runs[cpu];
            && r.ifindex in s.veths && (s.veths[r.ifindex], r.frame) in s.accepted
            && End(s, cpu).value.handed
            == s.handed + [Delivered(cpu, r.ifindex, s.veths[r.ifindex], r.frame, r.local.packet)]
  {
    assert RunOk(s, s.runs[cpu]);
  }
}
