/** What both programs share with the loader: settings, map values, counters and verdicts. */
module Programs {
  import opened Bytes

  /** allowed_origin_addr and allowed_origin_mask, as stored. */
  datatype Origin = Origin(addr: seq<Byte>, mask: seq<Byte>)

  const ANY_ORIGIN := Origin(Zeros(4), Zeros(4))

  /** The source filter. */
  predicate Allows(o: Origin, saddr: seq<Byte>)
    requires |saddr| == 4
  {
    |o.mask| == 4 && Masked(saddr, o.mask) == o.addr
  }

  /** The .rodata of both programs, and the sizes the maps were created with. */
  datatype Config = Config(
    uplink: nat,
    origin: Origin,
    maxInner: nat,
    transparent: bool,
    maxEndpoints: nat)

  type Mac = a: seq<Byte> | |a| == 6 witness Zeros(6)

  /** struct vpce_info. */
  datatype Info = Info(ifindex: nat, dst: Mac, src: Mac)

  datatype Verdict = XdpDrop | XdpPass | XdpRedirect(ifindex: nat)

  /** The packets and bytes pairs of enum metric. */
  datatype Counter =
    | DecapPassNotGeneve | DecapDropMalformed | DecapDropUnknownEndpoint | DecapOk
    | EncapDropMalformed | EncapDropFlowMiss | EncapOk
    | DecapDropOrigin | DecapDropOversize | EncapDropOversize

  /** struct metric_key: one counter of one interface, packets or bytes. */
  datatype RowKey = RowKey(ifindex: nat, counter: Counter, bytes: bool)

  /** One call of increment_metric. */
  datatype Bump = Bump(row: RowKey, amount: nat)

  /** The two calls that count one packet of `len` octets. */
  function Pair(ifindex: nat, counter: Counter, len: nat): seq<Bump> {
    [Bump(RowKey(ifindex, counter, false), 1), Bump(RowKey(ifindex, counter, true), len)]
  }

  /** Nothing to count, or one packets/bytes pair of one interface. */
  predicate OnePair(bumps: seq<Bump>, ifindex: nat, len: nat) {
    bumps == [] || exists c :: bumps == Pair(ifindex, c, len)
  }

  /** increment_metric on one CPU's values: the row is created if absent, unless the map is full. */
  function Count(rows: map<RowKey, nat>, maxRows: nat, b: Bump): map<RowKey, nat> {
    if b.row in rows then rows[b.row := rows[b.row] + b.amount]
    else if |rows| < maxRows then rows[b.row := b.amount]
    else rows
  }

  function CountAll(rows: map<RowKey, nat>, maxRows: nat, bumps: seq<Bump>): map<RowKey, nat>
    decreases |bumps|
  {
    if bumps == [] then rows else CountAll(Count(rows, maxRows, bumps[0]), maxRows, bumps[1..])
  }
}
