/** Counter deltas across ticks, resets and failed samples (cmd/serve.go, and Metrics of bpf/maps.go). */
module Deltas {
  import opened Bytes

  /** The length of CounterNames. */
  const COUNTERS := 20

  datatype CounterKey = CounterKey(ifindex: nat, counter: nat)

  type Sample = map<CounterKey, nat>

  /** A row as the metrics map's iterator returns it. */
  datatype Row = Row(key: CounterKey, perCPU: seq<nat>)

  /** A row under its counter's name. */
  datatype Metric = Metric(ifindex: nat, perCPU: seq<nat>)

  /** A Go map read: a missing key is zero. */
  function At(s: Sample, k: CounterKey): nat {
    if k in s then s[k] else 0
  }

  // ---- Sampling ----

  function Sum(values: seq<nat>): nat {
    if values == [] then 0 else Sum(values[..|values| - 1]) + values[|values| - 1]
  }

  /** All that was read for one key. */
  function Total(read: seq<Row>, k: CounterKey): nat {
    if read == [] then 0
    else
      var last := read[|read| - 1];
      Total(read[..|read| - 1], k) + if last.key == k then Sum(last.perCPU) else 0
  }

  function Grouped(read: seq<Row>, counter: nat): seq<Metric> {
    if read == [] then []
    else
      var last := read[|read| - 1];
      Grouped(read[..|read| - 1], counter) +
      if last.key.counter == counter then [Metric(last.key.ifindex, last.perCPU)] else []
  }

  function TotalOf(metrics: seq<Metric>, ifindex: nat): nat {
    if metrics == [] then 0
    else
      var last := metrics[|metrics| - 1];
      TotalOf(metrics[..|metrics| - 1], ifindex) + if last.ifindex == ifindex then Sum(last.perCPU) else 0
  }

  predicate Has(metrics: seq<Metric>, ifindex: nat) {
    metrics != [] && (Has(metrics[..|metrics| - 1], ifindex) || metrics[|metrics| - 1].ifindex == ifindex)
  }

  /** How often a key was read. */
  function Times(read: seq<Row>, k: CounterKey): nat {
    if read == [] then 0 else Times(read[..|read| - 1], k) + if read[|read| - 1].key == k then 1 else 0
  }

  function KeysRead(read: seq<Row>): set<CounterKey> {
    set n | 0 <= n < |read| :: read[n].key
  }

  /** What sampleCounters makes of what the iterator returned. */
  function Sampled(read: seq<Row>): Sample {
    map k | k in KeysRead(read) && k.counter < COUNTERS :: Total(read, k)
  }

  lemma {:induction false} GroupingKeeps(read: seq<Row>, k: CounterKey)
    ensures TotalOf(Grouped(read, k.counter), k.ifindex) == Total(read, k)
    ensures Has(Grouped(read, k.counter), k.ifindex) <==> k in KeysRead(read)
    decreases |read|
  {
    if read != [] {
      assert KeysRead(read) == KeysRead(read[..|read| - 1]) + {read[|read| - 1].key};
      var n, last := |read| - 1, read[|read| - 1];
      var before, all := Grouped(read[..n], k.counter), Grouped(read, k.counter);
      GroupingKeeps(read[..n], k);
      if last.key.counter == k.counter {
        assert all[..|all| - 1] == before && all[|all| - 1] == Metric(last.key.ifindex, last.perCPU);
      } else {
        assert all == before;
      }
    }
  }

  lemma OneMoreGrouped(read: seq<Row>, n: nat)
    requires n < |read|
    ensures forall c :: Grouped(read[..n + 1], c) == Grouped(read[..n], c) +
                        if read[n].key.counter == c then [Metric(read[n].key.ifindex, read[n].perCPU)] else []
  {
    assert read[..n + 1][..n] == read[..n];
  }

  /** Rows grouped by counter; a counter this build does not know is skipped. */
  method Metrics(read: seq<Row>) returns (byName: map<nat, seq<Metric>>)
    ensures forall c: nat :: c in byName <==> c < COUNTERS && Grouped(read, c) != []
    ensures forall c: nat :: c in byName ==> byName[c] == Grouped(read, c)
  {
    byName := map[];
    for n := 0 to |read|
      invariant forall c: nat :: c in byName <==> c < COUNTERS && Grouped(read[..n], c) != []
      invariant forall c: nat :: c in byName ==> byName[c] == Grouped(read[..n], c)
    {
      var row := read[n];
      OneMoreGrouped(read, n);
      if row.key.counter >= COUNTERS {
        continue;
      }
      var c := row.key.counter;
      byName := byName[c := (if c in byName then byName[c] else []) + [Metric(row.key.ifindex, row.perCPU)]];
    }
    assert read[..|read|] == read;
  }

  method SumAcross(values: seq<nat>) returns (sum: nat)
    ensures sum == Sum(values)
  {
    sum := 0;
    for n := 0 to |values|
      invariant sum == Sum(values[..n])
    {
      assert values[..n + 1][..n] == values[..n];
      sum := sum + values[n];
    }
    assert values[..|values|] == values;
  }

  /** Each known counter row, summed across CPUs. */
  method SampleCounters(read: seq<Row>) returns (cur: Sample)
    ensures cur == Sampled(read)
  {
    var byName := Metrics(read);
    cur := map[];
    for c := 0 to COUNTERS
      invariant forall k :: k in cur <==> k.counter < c && Has(Grouped(read, k.counter), k.ifindex)
      invariant forall k :: k in cur ==> cur[k] == TotalOf(Grouped(read, k.counter), k.ifindex)
    {
      var metrics := if c in byName then byName[c] else [];
      assert metrics == Grouped(read, c);
      cur := AddMetrics(cur, c, metrics);
    }
    forall k: CounterKey
      ensures TotalOf(Grouped(read, k.counter), k.ifindex) == Total(read, k)
      ensures Has(Grouped(read, k.counter), k.ifindex) <==> k in KeysRead(read)
    {
      GroupingKeeps(read, k);
    }
  }

  method AddMetrics(before: Sample, c: nat, metrics: seq<Metric>) returns (cur: Sample)
    requires forall k :: k in before ==> k.counter < c
    ensures forall k :: k in cur <==> k in before || (k.counter == c && Has(metrics, k.ifindex))
    ensures forall k :: k in cur ==> cur[k] == if k in before then before[k] else TotalOf(metrics, k.ifindex)
  {
    cur := before;
    for n := 0 to |metrics|
      invariant forall k :: k in cur <==> k in before || (k.counter == c && Has(metrics[..n], k.ifindex))
      invariant forall k :: k in before ==> cur[k] == before[k]
      invariant forall i :: At(cur, CounterKey(i, c)) == TotalOf(metrics[..n], i)
    {
      var m := metrics[n];
      assert metrics[..n + 1][..n] == metrics[..n];
      var sum := SumAcross(m.perCPU);
      var key := CounterKey(m.ifindex, c);
      cur := cur[key := At(cur, key) + sum];
    }
    assert metrics[..|metrics|] == metrics;
    assert forall k :: k in cur && k !in before ==> k == CounterKey(k.ifindex, c);
  }

  /** A row that keeps its value while it is read counts once for each time the iterator returns it. */
  lemma {:induction false} SampledPerRead(read: seq<Row>, k: CounterKey, v: nat)
    requires k.counter < COUNTERS && forall n :: 0 <= n < |read| && read[n].key == k ==> Sum(read[n].perCPU) == v
    ensures At(Sampled(read), k) == Times(read, k) * v
  {
    TotalPerRead(read, k, v);
  }

  lemma {:induction false} TotalPerRead(read: seq<Row>, k: CounterKey, v: nat)
    requires forall n :: 0 <= n < |read| && read[n].key == k ==> Sum(read[n].perCPU) == v
    ensures Total(read, k) == Times(read, k) * v && (k in KeysRead(read) <==> Times(read, k) > 0)
    decreases |read|
  {
    if read != [] {
      var front := read[..|read| - 1];
      assert KeysRead(read) == KeysRead(front) + {read[|read| - 1].key};
      TotalPerRead(front, k, v);
      assert (Times(front, k) + 1) * v == Times(front, k) * v + v;
    }
  }

  // ---- Deltas ----

  /** How much a row grew, judging by two samples: all of its value if it went down. */
  function Delta(was: nat, now: nat): (d: nat)
    ensures d <= now
  {
    if now >= was then now - was else now
  }

  datatype Line = Line(key: CounterKey, delta: nat, tags: string)

  predicate LineOf(cur: Sample, prev: Sample, labels: map<nat, string>, x: Line) {
    && x.key in cur && x.key.ifindex in labels
    && x.delta == Delta(At(prev, x.key), cur[x.key]) && x.tags == labels[x.key.ifindex]
  }

  predicate NoneTwice(lines: seq<Line>) {
    forall a, b :: 0 <= a < b < |lines| ==> lines[a].key != lines[b].key
  }

  type Lines = map<nat, seq<Line>>

  predicate LinesOnly(perIface: Lines, cur: Sample, prev: Sample, labels: map<nat, string>) {
    forall i :: i in perIface ==>
      NoneTwice(perIface[i]) && forall x :: x in perIface[i] ==> x.key.ifindex == i && LineOf(cur, prev, labels, x)
  }

  predicate LineFor(perIface: Lines, k: CounterKey) {
    k.ifindex in perIface && exists x :: x in perIface[k.ifindex] && x.key == k
  }

  lemma LineAdded(perIface: Lines, cur: Sample, prev: Sample, labels: map<nat, string>, x: Line)
    requires LinesOnly(perIface, cur, prev, labels) && LineOf(cur, prev, labels, x) && !LineFor(perIface, x.key)
    ensures var i := x.key.ifindex;
            var more := perIface[i := (if i in perIface then perIface[i] else []) + [x]];
            LinesOnly(more, cur, prev, labels) && forall k :: LineFor(more, k) <==> LineFor(perIface, k) || k == x.key
  {
    var i := x.key.ifindex;
    var lines := if i in perIface then perIface[i] else [];
    var more := perIface[i := lines + [x]];
    assert forall n :: 0 <= n < |lines| ==> lines[n] in lines;
    forall k
      ensures LineFor(more, k) <==> LineFor(perIface, k) || k == x.key
    {
      assert x in lines + [x];
      assert k.ifindex == i && i in perIface ==> forall y :: y in perIface[i] ==> y in more[i];
    }
  }

  /** Each labelled row gets one line, under its own interface, and nothing else does. */
  method CounterLines(cur: Sample, prev: Sample, labels: map<nat, string>) returns (perIface: Lines)
    ensures LinesOnly(perIface, cur, prev, labels)
    ensures forall k :: LineFor(perIface, k) <==> k in cur && k.ifindex in labels
  {
    perIface := map[];
    var todo := cur.Keys;
    while todo != {}
      invariant todo <= cur.Keys
      invariant LinesOnly(perIface, cur, prev, labels)
      invariant forall k :: LineFor(perIface, k) <==> k in cur && k !in todo && k.ifindex in labels
    {
      var key :| key in todo;
      if key.ifindex in labels {
        var tags, val := labels[key.ifindex], cur[key];
        var delta := val;
        var p := At(prev, key);
        if val >= p {
          delta := val - p;
        }
        LineAdded(perIface, cur, prev, labels, Line(key, delta, tags));
        var lines := if key.ifindex in perIface then perIface[key.ifindex] else [];
        perIface := perIface[key.ifindex := lines + [Line(key, delta, tags)]];
      }
      todo := todo - {key};
    }
  }

  /** What one tick leaves for the next, and what it pushes for each row. */
  datatype Flushed = Flushed(prev: Option<Sample>, pushed: Sample)

  function Flush(prev: Option<Sample>, sample: Option<Sample>, labels: Option<map<nat, string>>): Flushed {
    match sample
    case None => Flushed(prev, map[])
    case Some(cur) =>
      if prev.None? then Flushed(sample, map[])
      else if labels.None? then Flushed(prev, map[])
      else Flushed(sample, map k | k in cur && k.ifindex in labels.value :: Delta(At(prev.value, k), cur[k]))
  }

  function SampleOf(read: Option<seq<Row>>): Option<Sample> {
    if read.None? then None else Some(Sampled(read.value))
  }

  /** flushCounters, but for formatting the lines and writing the datagrams. */
  method FlushCounters(prev: Option<Sample>, read: Option<seq<Row>>, labels: Option<map<nat, string>>)
    returns (next: Option<Sample>, perIface: Lines)
    ensures next == Flush(prev, SampleOf(read), labels).prev
    ensures var pushed := Flush(prev, SampleOf(read), labels).pushed;
            && (forall k :: LineFor(perIface, k) <==> k in pushed)
            && (forall i :: i in perIface ==> NoneTwice(perIface[i]))
            && (forall i, x :: i in perIface && x in perIface[i] ==>
                  x.key.ifindex == i && x.key in pushed && x.delta == pushed[x.key])
  {
    perIface := map[];
    if read.None? {
      return prev, perIface;
    }
    var cur := SampleCounters(read.value);
    if prev.None? {
      return Some(cur), perIface;
    }
    if labels.None? {
      return prev, perIface;
    }
    perIface := CounterLines(cur, prev.value, labels.value);
    next := Some(cur);
  }

  // ---- What the deltas add up to ----

  /** What happens to the counter rows between ticks. */
  datatype Event = Grew(key: CounterKey, n: nat) | Swept(ifindex: nat)

  function After(rows: Sample, e: Event): Sample {
    match e
    case Grew(k, n) => rows[k := At(rows, k) + n]
    case Swept(i) => map k | k in rows && k.ifindex != i :: rows[k]
  }

  function Happened(rows: Sample, evs: seq<Event>): Sample
    decreases |evs|
  {
    if evs == [] then rows else Happened(After(rows, evs[0]), evs[1..])
  }

  function Growth(evs: seq<Event>, k: CounterKey): nat {
    if evs == [] then 0
    else (if evs[0].Grew? && evs[0].key == k then evs[0].n else 0) + Growth(evs[1..], k)
  }

  predicate WasSwept(evs: seq<Event>, k: CounterKey) {
    exists n :: 0 <= n < |evs| && evs[n] == Swept(k.ifindex)
  }

  /** A row's value is what it has grown since it was last swept. */
  lemma {:induction false} RowValue(rows: Sample, evs: seq<Event>, k: CounterKey)
    ensures var now := At(Happened(rows, evs), k);
            if WasSwept(evs, k) then now <= Growth(evs, k) else now == At(rows, k) + Growth(evs, k)
    decreases |evs|
  {
    if evs != [] {
      RowValue(After(rows, evs[0]), evs[1..], k);
      assert WasSwept(evs, k) <==> evs[0] == Swept(k.ifindex) || WasSwept(evs[1..], k) by {
        assert forall n :: 1 <= n < |evs| ==> evs[n] == evs[1..][n - 1];
      }
    }
  }

  /**
   The delta of an interval never exceeds the row's true growth. It is the growth exactly when the row was not
   swept, or grew only after it was and either counted nothing before or shows a lower value than before.
   */
  lemma DeltaIsGrowth(rows: Sample, evs: seq<Event>, k: CounterKey)
    ensures var was, now, g := At(rows, k), At(Happened(rows, evs), k), Growth(evs, k);
            && Delta(was, now) <= g
            && (Delta(was, now) == g <==> !WasSwept(evs, k) || (now == g && (was == 0 || now < was)))
  {
    RowValue(rows, evs, k);
  }

  /** One tick: what happened since the last, and what the iterator and the interface list returned, if they could. */
  datatype Tick = Tick(evs: seq<Event>, read: Option<seq<Row>>, labels: Option<map<nat, string>>)

  /** serve's state at a tick: the true rows, the last completed sample, and all it has pushed for one row. */
  datatype Watch = Watch(rows: Sample, prev: Option<Sample>, pushed: nat)

  function Ticked(w: Watch, t: Tick, k: CounterKey): Watch {
    var f := Flush(w.prev, SampleOf(t.read), t.labels);
    Watch(Happened(w.rows, t.evs), f.prev, w.pushed + At(f.pushed, k))
  }

  function Watched(w: Watch, ticks: seq<Tick>, k: CounterKey): Watch
    decreases |ticks|
  {
    if ticks == [] then w else Watched(Ticked(w, ticks[0], k), ticks[1..], k)
  }

  function GrowthOver(ticks: seq<Tick>, k: CounterKey): nat {
    if ticks == [] then 0 else Growth(ticks[0].evs, k) + GrowthOver(ticks[1..], k)
  }

  /** The iterator returned the row as it was, however often: none of its reads fell amid a change. */
  predicate ReadAs(read: seq<Row>, k: CounterKey, v: nat) {
    k.counter < COUNTERS && forall n :: 0 <= n < |read| && read[n].key == k ==> Sum(read[n].perCPU) == v
  }

  lemma RepeatedDelta(was: nat, n: nat, v: nat, m: nat)
    requires m == n * v
    ensures Delta(was, m) == Delta(was, v) <==>
              n == 1 || v == 0 || (n == 0 && v == was) || (n > 1 && v < was && m == was + v)
  {
    if n > 1 {
      assert m == 2 * v + (n - 2) * v && (n - 2) * v >= 0;
    }
  }

  /**
   What one completed, labelled tick pushes for a row that stood at `v`, read any number of times: its delta, if
   and only if it was read once, or there was nothing to count, or it was missed when it had not changed, or its
   repeated value happens to exceed the last sample by the value itself.
   */
  lemma OneTickPushes(prev: Sample, read: seq<Row>, labels: map<nat, string>, k: CounterKey, v: nat)
    requires ReadAs(read, k, v) && k.ifindex in labels
    ensures var n, was := Times(read, k), At(prev, k);
            var pushed := At(Flush(Some(prev), Some(Sampled(read)), Some(labels)).pushed, k);
            && pushed == Delta(was, n * v)
            && (pushed == Delta(was, v) <==>
                  n == 1 || v == 0 || (n == 0 && v == was) || (n > 1 && v < was && n * v == was + v))
  {
    SampledPerRead(read, k, v);
    RepeatedDelta(At(prev, k), Times(read, k), v, At(Sampled(read), k));
  }

  // ---- Exactly when the bound holds ----

  predicate Completes(t: Tick) {
    t.read.Some? && t.labels.Some?
  }

  /** The row is not swept, is read as it stands however often, and is listed whenever a flush completes. */
  predicate Undisturbed(rows: Sample, ticks: seq<Tick>, k: CounterKey)
    decreases |ticks|
  {
    ticks != [] ==>
      var t, now := ticks[0], Happened(rows, ticks[0].evs);
      && !WasSwept(t.evs, k) && (t.read.Some? ==> ReadAs(t.read.value, k, At(now, k)))
      && (Completes(t) ==> k.ifindex in t.labels.value) && Undisturbed(now, ticks[1..], k)
  }

  /** After no tick have the deltas pushed since `w` added up to more than `owed` and what the row has grown since. */
  predicate NeverOver(w: Watch, ticks: seq<Tick>, k: CounterKey, owed: nat) {
    forall n :: 0 <= n <= |ticks| ==>
      Watched(w, ticks[..n], k).pushed - w.pushed <= owed + GrowthOver(ticks[..n], k)
  }

  /** What completed flushes have made of the row: nothing, a true sample, or, after one, none. */
  datatype Seen = Unseen | Counted | Missed

  /** The row as the next flush finds it; None if this one reads it, once it counts, twice, or again after a miss. */
  function SeenNext(rows: Sample, t: Tick, k: CounterKey, seen: Seen): Option<Seen> {
    if !Completes(t) || At(Happened(rows, t.evs), k) == 0 then Some(seen)
    else if Times(t.read.value, k) == 0 then Some(if seen.Unseen? then Unseen else Missed)
    else if Times(t.read.value, k) == 1 && !seen.Missed? then Some(Counted)
    else None
  }

  /** No completed flush reads the row, once it counts, more than once, or at all after another has missed it. */
  predicate ReadSteadily(rows: Sample, ticks: seq<Tick>, k: CounterKey, seen: Seen)
    decreases |ticks|
  {
    ticks != [] ==>
      var next := SeenNext(rows, ticks[0], k, seen);
      next.Some? && ReadSteadily(Happened(rows, ticks[0].evs), ticks[1..], k, next.value)
  }

  /** Of the row's value `counted` has been sampled or pushed, and `owed` has not. */
  predicate Standing(w: Watch, k: CounterKey, counted: nat, owed: nat, seen: Seen) {
    && w.prev.Some? && At(w.rows, k) == counted + owed
    && match seen
       case Unseen => counted == 0 && At(w.prev.value, k) == 0
       case Counted => counted == At(w.prev.value, k) > 0
       case Missed => counted > 0 && At(w.prev.value, k) == 0
  }

  /** What a flush pushes for a row sampled `n` times at `v`, of which `counted` was, and `all` is not yet, pushed. */
  lemma PushWithin(was: nat, n: nat, v: nat, m: nat, counted: nat, all: nat, missed: bool)
    requires m == n * v && v == counted + all && v > 0
    requires if missed then was == 0 && counted > 0 else was == counted
    ensures Delta(was, m) <= all <==> n == 0 || (n == 1 && !missed)
  {
    if n > 1 {
      assert m == v + (n - 1) * v && (n - 1) * v > 0;
    }
  }

  /** What a completed flush pushes for the row, from the sample before it. */
  lemma CompletedPushes(w: Watch, t: Tick, k: CounterKey)
    requires w.prev.Some? && Undisturbed(w.rows, [t], k) && Completes(t)
    ensures var w', n, v := Ticked(w, t, k), Times(t.read.value, k), At(Happened(w.rows, t.evs), k);
            w'.prev.Some? && At(w'.prev.value, k) == n * v && w'.pushed == w.pushed + Delta(At(w.prev.value, k), n * v)
  {
    var v := At(Happened(w.rows, t.evs), k);
    SampledPerRead(t.read.value, k, v);
    OneTickPushes(w.prev.value, t.read.value, t.labels.value, k, v);
  }

  function ReadAgain(k: CounterKey, v: nat, labels: map<nat, string>): seq<Tick> {
    [Tick([], Some([Row(k, [v]), Row(k, [v])]), Some(labels)), Tick([], Some([Row(k, [v])]), Some(labels))]
  }

  /** A row of value `v` that never grows: read twice at one tick and once at the next, it is pushed twice over. */
  lemma DoubleReadOverReports(k: CounterKey, v: nat, labels: map<nat, string>)
    requires k.counter < COUNTERS && k.ifindex in labels && v > 0
    ensures var w := Watch(map[k := v], Some(map[k := v]), 0);
            Watched(w, ReadAgain(k, v, labels), k).pushed == 2 * v && GrowthOver(ReadAgain(k, v, labels), k) == 0
  {
    var ticks, row := ReadAgain(k, v, labels), Row(k, [v]);
    var w, last := Watch(map[k := v], Some(map[k := v]), 0), ticks[1..];
    assert Sum([v]) == v && [row, row][..1] == [row];
    assert Times([row], k) == 1 && Times([row, row], k) == 2;
    CompletedPushes(w, ticks[0], k);
    var after := Ticked(w, ticks[0], k);
    CompletedPushes(after, ticks[1], k);
    assert last == [ticks[1]] && last[1..] == [];
    assert GrowthOver(last, k) == Growth(ticks[1].evs, k) + GrowthOver(last[1..], k);
    assert Watched(w, ticks, k) == Watched(after, last, k) == Ticked(after, ticks[1], k);
  }

  /** The bound survives a completed flush exactly if it is steady; then the row's standing is known again. */
  lemma SteadyFlush(w: Watch, t: Tick, k: CounterKey, counted: nat, owed: nat, seen: Seen)
    requires Standing(w, k, counted, owed, seen) && Undisturbed(w.rows, [t], k) && Completes(t)
    ensures var pushed, all := Ticked(w, t, k).pushed - w.pushed, owed + Growth(t.evs, k);
            var next := SeenNext(w.rows, t, k, seen);
            && (pushed <= all <==> next.Some?)
            && (next.Some? ==> Standing(Ticked(w, t, k), k, counted + pushed, all - pushed, next.value))
  {
    var v, n := At(Happened(w.rows, t.evs), k), Times(t.read.value, k);
    RowValue(w.rows, t.evs, k);
    CompletedPushes(w, t, k);
    if v > 0 {
      PushWithin(At(w.prev.value, k), n, v, n * v, counted, owed + Growth(t.evs, k), seen.Missed?);
    }
  }

  /** Any other tick pushes nothing. */
  lemma SteadyTick(w: Watch, t: Tick, k: CounterKey, counted: nat, owed: nat, seen: Seen)
    requires Standing(w, k, counted, owed, seen) && Undisturbed(w.rows, [t], k)
    ensures var pushed, all := Ticked(w, t, k).pushed - w.pushed, owed + Growth(t.evs, k);
            var next := SeenNext(w.rows, t, k, seen);
            && (pushed <= all <==> next.Some?)
            && (next.Some? ==> Standing(Ticked(w, t, k), k, counted + pushed, all - pushed, next.value))
  {
    RowValue(w.rows, t.evs, k);
    if Completes(t) {
      SteadyFlush(w, t, k, counted, owed, seen);
    }
  }

  lemma FirstTick(w: Watch, ticks: seq<Tick>, k: CounterKey, owed: nat)
    requires ticks != []
    ensures var t := ticks[0];
            var pushed, all := Ticked(w, t, k).pushed - w.pushed, owed + Growth(t.evs, k);
            NeverOver(w, ticks, k, owed) <==>
              pushed <= all && NeverOver(Ticked(w, t, k), ticks[1..], k, all - pushed)
  {
    var t, rest := ticks[0], ticks[1..];
    var w' := Ticked(w, t, k);
    forall n | 1 <= n <= |ticks|
      ensures Watched(w, ticks[..n], k) == Watched(w', rest[..n - 1], k)
      ensures GrowthOver(ticks[..n], k) == Growth(t.evs, k) + GrowthOver(rest[..n - 1], k)
    {
      assert ticks[..n][1..] == rest[..n - 1] && ticks[..n][0] == t;
    }
    var pushed, all := w'.pushed - w.pushed, owed + Growth(t.evs, k);
    if NeverOver(w, ticks, k, owed) {
      assert ticks[..1] == [t];
      assert Watched(w, ticks[..1], k) == Watched(w', rest[..0], k) == w';
      forall n | 0 <= n <= |rest|
        ensures Watched(w', rest[..n], k).pushed - w'.pushed <= all - pushed + GrowthOver(rest[..n], k)
      {
        assert Watched(w, ticks[..n + 1], k) == Watched(w', rest[..n], k);
      }
    }
    if pushed <= all && NeverOver(w', rest, k, all - pushed) {
      forall n | 0 <= n <= |ticks|
        ensures Watched(w, ticks[..n], k).pushed - w.pushed <= owed + GrowthOver(ticks[..n], k)
      {
        if n > 0 {
          assert Watched(w', rest[..n - 1], k).pushed - w'.pushed <= all - pushed + GrowthOver(rest[..n - 1], k);
        }
      }
    }
  }

  lemma {:induction false} StandingDecides(w: Watch, ticks: seq<Tick>, k: CounterKey, counted: nat, owed: nat,
                                           seen: Seen)
    requires Standing(w, k, counted, owed, seen) && Undisturbed(w.rows, ticks, k)
    ensures NeverOver(w, ticks, k, owed) <==> ReadSteadily(w.rows, ticks, k, seen)
    decreases |ticks|
  {
    if ticks != [] {
      var t := ticks[0];
      var w' := Ticked(w, t, k);
      var pushed, all := w'.pushed - w.pushed, owed + Growth(t.evs, k);
      assert [t][1..] == [];
      var next := SeenNext(w.rows, t, k, seen);
      SteadyTick(w, t, k, counted, owed, seen);
      FirstTick(w, ticks, k, owed);
      if pushed <= all {
        StandingDecides(w', ticks[1..], k, counted + pushed, all - pushed, next.value);
      }
    }
  }

  /**
   From a true sample on, for a row left alone: the deltas never add up to more than its growth if and only if no
   completed flush reads it, once it counts, more than once, or at all after another has missed it. Samples and
   listings may fail in between.
   */
  lemma BoundedExactlyIfSteady(w: Watch, ticks: seq<Tick>, k: CounterKey, owed: nat)
    requires w.prev.Some? && At(w.rows, k) == At(w.prev.value, k) + owed && Undisturbed(w.rows, ticks, k)
    ensures NeverOver(w, ticks, k, owed) <==>
              ReadSteadily(w.rows, ticks, k, if At(w.prev.value, k) > 0 then Counted else Unseen)
  {
    var seen := if At(w.prev.value, k) > 0 then Counted else Unseen;
    StandingDecides(w, ticks, k, At(w.prev.value, k), owed, seen);
  }

  /** At each tick the iterator returns the row, if it is there, once and as it is. */
  predicate ReadOnce(rows: Sample, ticks: seq<Tick>, k: CounterKey)
    decreases |ticks|
  {
    ticks != [] ==>
      var now := Happened(rows, ticks[0].evs);
      && (ticks[0].read.Some? ==>
            ReadAs(ticks[0].read.value, k, At(now, k)) && Times(ticks[0].read.value, k) == if k in now then 1 else 0)
      && ReadOnce(now, ticks[1..], k)
  }

  /** What may still be unreported of a row: `g` grown since the baseline sample, `swept` or not. */
  predicate Accounts(w: Watch, k: CounterKey, g: nat, swept: bool) {
    w.prev.Some? ==> if swept then At(w.rows, k) <= g else At(w.rows, k) == At(w.prev.value, k) + g
  }

  lemma OnceIsValue(read: seq<Row>, k: CounterKey, now: Sample)
    requires ReadAs(read, k, At(now, k)) && Times(read, k) == if k in now then 1 else 0
    ensures At(Sampled(read), k) == At(now, k)
  {
    SampledPerRead(read, k, At(now, k));
  }

  lemma TickAccounts(w: Watch, t: Tick, k: CounterKey, g: nat, swept: bool)
    requires Accounts(w, k, g, swept) && ReadOnce(w.rows, [t], k)
    ensures var w' := Ticked(w, t, k);
            var all := g + Growth(t.evs, k);
            && w.pushed <= w'.pushed <= w.pushed + all
            && if t.read.Some? && (w.prev.None? || t.labels.Some?) then Accounts(w', k, 0, false)
               else w'.pushed == w.pushed && Accounts(w', k, all, swept || WasSwept(t.evs, k))
  {
    RowValue(w.rows, t.evs, k);
    if t.read.Some? {
      OnceIsValue(t.read.value, k, Happened(w.rows, t.evs));
    }
  }

  /** Deltas never exceed growth, whatever is swept, fails or goes unlabelled, as long as rows are read once. */
  lemma {:induction false} NeverMoreThanGrowth(w: Watch, ticks: seq<Tick>, k: CounterKey, g: nat, swept: bool)
    requires Accounts(w, k, g, swept) && ReadOnce(w.rows, ticks, k)
    ensures Watched(w, ticks, k).pushed - w.pushed <= g + GrowthOver(ticks, k)
    decreases |ticks|
  {
    if ticks != [] {
      var t := ticks[0];
      assert [t][1..] == [];
      TickAccounts(w, t, k, g, swept);
      if t.read.Some? && (w.prev.None? || t.labels.Some?) {
        NeverMoreThanGrowth(Ticked(w, t, k), ticks[1..], k, 0, false);
      } else {
        NeverMoreThanGrowth(Ticked(w, t, k), ticks[1..], k, g + Growth(t.evs, k), swept || WasSwept(t.evs, k));
      }
    }
  }

  /**
   Deltas telescope: for a row left alone and read once at each tick, what was pushed and what the next completed
   flush will push are together exactly its growth since the baseline, over failed samples too.
   */
  lemma {:induction false} DeltasTelescope(w: Watch, ticks: seq<Tick>, k: CounterKey)
    requires w.prev.Some? && At(w.rows, k) >= At(w.prev.value, k) && Undisturbed(w.rows, ticks, k)
    requires ReadOnce(w.rows, ticks, k)
    ensures var e := Watched(w, ticks, k);
            && e.prev.Some? && At(e.rows, k) >= At(e.prev.value, k)
            && (e.pushed - w.pushed) + (At(e.rows, k) - At(e.prev.value, k))
            == At(w.rows, k) - At(w.prev.value, k) + GrowthOver(ticks, k)
    decreases |ticks|
  {
    if ticks != [] {
      var t := ticks[0];
      RowValue(w.rows, t.evs, k);
      if t.read.Some? {
        OnceIsValue(t.read.value, k, Happened(w.rows, t.evs));
      }
      DeltasTelescope(Ticked(w, t, k), ticks[1..], k);
    }
  }

  /** All an interval's growth is in its delta: there is none, or it is listed and not cut by a sweep that hides any. */
  predicate Reported(base: Sample, evs: seq<Event>, labels: map<nat, string>, k: CounterKey) {
    var was, now, g := At(base, k), At(Happened(base, evs), k), Growth(evs, k);
    g == 0 || (k.ifindex in labels && (!WasSwept(evs, k) || (now == g && (was == 0 || now < was))))
  }

  /** The same for every interval between completed flushes, `since` being what has happened after the rows `base`. */
  predicate AllReported(base: Sample, since: seq<Event>, ticks: seq<Tick>, k: CounterKey)
    decreases |ticks|
  {
    if ticks == [] then Growth(since, k) == 0
    else
      var t, evs := ticks[0], since + ticks[0].evs;
      if !Completes(t) then AllReported(base, evs, ticks[1..], k)
      else Reported(base, evs, t.labels.value, k) && AllReported(Happened(base, evs), [], ticks[1..], k)
  }

  lemma {:induction false} EventsAppend(rows: Sample, a: seq<Event>, b: seq<Event>, k: CounterKey)
    ensures Happened(rows, a + b) == Happened(Happened(rows, a), b)
    ensures Growth(a + b, k) == Growth(a, k) + Growth(b, k)
    decreases |a|
  {
    if a == [] {
      assert a + b == b;
    } else {
      assert (a + b)[0] == a[0] && (a + b)[1..] == a[1..] + b;
      EventsAppend(After(rows, a[0]), a[1..], b, k);
    }
  }

  /** One completed flush pushes at most the interval's growth, and all of it exactly if it is reported. */
  lemma FlushReports(w: Watch, base: Sample, since: seq<Event>, t: Tick, k: CounterKey)
    requires w.prev.Some? && At(w.prev.value, k) == At(base, k) && w.rows == Happened(base, since)
    requires ReadOnce(w.rows, [t], k) && Completes(t)
    ensures var w', evs := Ticked(w, t, k), since + t.evs;
            && w'.prev.Some? && At(w'.prev.value, k) == At(w'.rows, k) && w'.rows == Happened(base, evs)
            && 0 <= w'.pushed - w.pushed <= Growth(evs, k)
            && (w'.pushed - w.pushed == Growth(evs, k) <==> Reported(base, evs, t.labels.value, k))
  {
    EventsAppend(base, since, t.evs, k);
    OnceIsValue(t.read.value, k, Happened(w.rows, t.evs));
    DeltaIsGrowth(base, since + t.evs, k);
  }

  /**
   From a true sample on, whatever is swept, fails or goes unlisted, for a row read once at each tick: the deltas
   never add up to more than its growth, and to exactly that if and only if every interval is reported.
   */
  lemma {:induction false} GrowthExactlyIfReported(w: Watch, base: Sample, since: seq<Event>, ticks: seq<Tick>,
                                                   k: CounterKey)
    requires w.prev.Some? && At(w.prev.value, k) == At(base, k) && w.rows == Happened(base, since)
    requires ReadOnce(w.rows, ticks, k)
    ensures var pushed, g := Watched(w, ticks, k).pushed - w.pushed, Growth(since, k) + GrowthOver(ticks, k);
            pushed <= g && (pushed == g <==> AllReported(base, since, ticks, k))
    decreases |ticks|
  {
    if ticks != [] {
      var t, evs := ticks[0], since + ticks[0].evs;
      assert [t][1..] == [];
      EventsAppend(base, since, t.evs, k);
      if Completes(t) {
        FlushReports(w, base, since, t, k);
        GrowthExactlyIfReported(Ticked(w, t, k), Happened(base, evs), [], ticks[1..], k);
      } else {
        GrowthExactlyIfReported(Ticked(w, t, k), base, evs, ticks[1..], k);
      }
    }
  }

  function SweptAround(k: CounterKey): seq<Event> {
    [Grew(k, 6), Swept(k.ifindex), Grew(k, 1)]
  }

  /** A sweep forgets growth, which may cover for a row read twice: the bound is exact for rows left alone only. */
  lemma SweepHidesDouble(k: CounterKey, labels: map<nat, string>)
    requires k.counter < COUNTERS && k.ifindex in labels
    ensures var t := Tick(SweptAround(k), Some([Row(k, [1]), Row(k, [1])]), Some(labels));
            var w := Watch(map[k := 5], Some(map[k := 5]), 0);
            && At(Happened(w.rows, t.evs), k) == 1 && ReadAs(t.read.value, k, 1) && Times(t.read.value, k) == 2
            && Ticked(w, t, k).pushed == 2 && Growth(t.evs, k) == 7
  {
    var row, prev: Sample := Row(k, [1]), map[k := 5];
    var read := [row, row];
    GrewAround(prev, k);
    assert Sum([1]) == 1 && read[..1] == [row];
    assert ReadAs(read, k, 1);
    assert Times([row], k) == 1 && Times(read, k) == 2;
    OneTickPushes(prev, read, labels, k, 1);
    assert At(Flush(Some(prev), Some(Sampled(read)), Some(labels)).pushed, k) == Delta(5, 2) == 2;
  }

  lemma GrewAround(rows: Sample, k: CounterKey)
    ensures At(Happened(rows, SweptAround(k)), k) == 1 && Growth(SweptAround(k), k) == 7
  {
    var evs, r1 := SweptAround(k), After(rows, Grew(k, 6));
    var r2 := After(r1, Swept(k.ifindex));
    assert evs[1..] == [Swept(k.ifindex), Grew(k, 1)] && evs[2..] == [Grew(k, 1)] && evs[3..] == [];
    assert evs[1..][1..] == evs[2..] && evs[2..][1..] == evs[3..];
    assert Happened(rows, evs) == Happened(r1, evs[1..]) == Happened(r2, evs[2..]) == After(r2, Grew(k, 1));
    assert Growth(evs[3..], k) == 0 && Growth(evs[2..], k) == 1 + Growth(evs[3..], k);
    assert Growth(evs, k) == 6 + Growth(evs[1..], k) == 6 + Growth(evs[2..], k);
  }
}
