/** What encap decides about one frame from an endpoint's veth (bpf/encap/_encap.c). */
module EncapRules {
  import opened Bytes
  import opened InnerPacket
  import opened OuterHeader
  import opened Programs
  import opened DecapRules

  /**
   What the parse of a reply leads to: Ignore passes it to the kernel, Refuse drops and counts it, Ask looks
   `key` up in one of the two maps and, for a first fragment, records what it finds under `record`.
   */
  datatype Request =
    | Ignore
    | Refuse(counter: Counter)
    | Ask(inFrag: bool, key: FlowKey, record: Option<FlowKey>)

  /** Whatever encap asks for or records is keyed by the interface and family of the reply. */
  function Classify(cfg: Config, ifindex: nat, f: seq<Byte>): (r: Request)
    ensures r.Ask? ==> |f| >= ETH_LEN && r.key.ifindex == ifindex && |f| - ETH_LEN <= cfg.maxInner
    ensures r.Ask? ==> Family(BE16(f, 12)) == Some(r.key.isV6)
    ensures r.Refuse? ==> !r.counter.EncapOk?
    ensures r.Ask? && r.record.Some? ==>
              r.record.value.ifindex == ifindex && r.record.value.isV6 == r.key.isV6 && !r.inFrag
  {
    if |f| < ETH_LEN then Refuse(EncapDropMalformed)
    else
      match Family(BE16(f, 12))
      case None => Ignore
      case Some(isV6) =>
        match Parse(isV6, f[ETH_LEN..])
        case None => Refuse(EncapDropMalformed)
        case Some(p) =>
          if isV6 && LinkLocalControl(p.t) then Ignore
          else if |f| - ETH_LEN > cfg.maxInner then Refuse(EncapDropOversize)
          else ClassifyParsed(cfg.transparent, ifindex, isV6, f[ETH_LEN..], p)
  }

  /** The choice between the three lookups. */
  function ClassifyParsed(transparent: bool, ifindex: nat, isV6: bool, inner: seq<Byte>, p: Parsed): (r: Request)
    requires Parse(isV6, inner) == Some(p)
    ensures r.Refuse? ==> !r.counter.EncapOk?
    ensures r.Ask? ==> r.key.ifindex == ifindex && r.key.isV6 == isV6
    ensures r.Ask? && r.record.Some? ==> r.record.value.ifindex == ifindex && r.record.value.isV6 == isV6 && !r.inFrag
  {
    var record := if p.t.frag.First? then Some(FragKey(ifindex, isV6, p.t)) else None;
    if QuotesPacket(isV6, p.t) then
      QuoteInside(isV6, inner);
      match Parse(isV6, inner[p.l4 + 8..])
      case None => Refuse(EncapDropMalformed)
      case Some(q) =>
        Ask(false, ForwardKey(ifindex, isV6, q.t), record)
    else if p.t.frag.Later? then Ask(true, FragKey(ifindex, isV6, p.t), None)
    else Ask(false, ReplyKey(ifindex, isV6, transparent, p.t), record)
  }

  /** The eight octets of an ICMP header that was read are in the packet. */
  lemma QuoteInside(isV6: bool, inner: seq<Byte>)
    requires Parse(isV6, inner).Some? && Parse(isV6, inner).value.t.hasL4
    ensures Parse(isV6, inner).value.l4 + 8 <= |inner|
  {
  }

  /** The entry a request finds. */
  function Found(flow: map<FlowKey, Header>, frag: map<FlowKey, Header>, r: Request): Option<Header>
    requires r.Ask?
  {
    if r.inFrag then if r.key in frag then Some(frag[r.key]) else None
    else if r.key in flow then Some(flow[r.key]) else None
  }

  /** How the run ends once the lookup answered `hit`, in a buffer with `headroom` octets before the frame. */
  datatype Ending = Ending(out: Option<seq<Byte>>, bumps: seq<Bump>)

  function Finish(ifindex: nat, f: seq<Byte>, hit: Option<Header>, headroom: nat): Ending
    requires |f| >= ETH_LEN
  {
    match hit
    case None => Ending(None, Pair(ifindex, EncapDropFlowMiss, |f|))
    case Some(h) =>
      if headroom < OVERHEAD then Ending(None, Pair(ifindex, EncapDropMalformed, |f|))
      else Ending(Some(Encapsulated(h, f[ETH_LEN..])), Pair(ifindex, EncapOk, |f| + OVERHEAD))
  }

  /** frag_state once a first fragment's match has been recorded. */
  function Recorded(frag: map<FlowKey, Header>, record: Option<FlowKey>, hit: Option<Header>): map<FlowKey, Header> {
    if record.Some? && hit.Some? then frag[record.value := hit.value] else frag
  }
}
