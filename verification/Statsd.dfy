/** How counter lines are packed into statsd datagrams (packLines of cmd/serve.go). */
module Statsd {

  /** What the loop makes of the lines that are left, given the datagram it has begun. */
  function PackFrom(cur: string, lines: seq<string>, max: int): (datagrams: seq<string>)
    decreases |lines|
  {
    if lines == [] then if |cur| > 0 then [cur] else []
    else if |cur| > 0 && |cur| + 1 + |lines[0]| > max then [cur] + PackFrom(lines[0], lines[1..], max)
    else PackFrom(Continued(cur, lines[0]), lines[1..], max)
  }

  function Continued(cur: string, line: string): (r: string)
    ensures r == if cur == "" then line else cur + "\n" + line
  {
    (if |cur| > 0 then cur + "\n" else cur) + line
  }

  method PackLines(lines: seq<string>, max: int) returns (datagrams: seq<string>)
    ensures datagrams == PackFrom("", lines, max)
  {
    datagrams := [];
    var cur := "";
    for i := 0 to |lines|
      invariant datagrams + PackFrom(cur, lines[i..], max) == PackFrom("", lines, max)
    {
      var line := lines[i];
      assert lines[i..][0] == line && lines[i..][1..] == lines[i + 1..];
      ghost var begun, packed := cur, datagrams;
      if |cur| > 0 && |cur| + 1 + |line| > max {
        datagrams := datagrams + [cur];
        cur := "";
      }
      if |cur| > 0 {
        cur := cur + "\n";
      }
      cur := cur + line;
      if packed == datagrams {
        assert cur == Continued(begun, line);
      } else {
        assert cur == line;
        Regroup(packed, begun, PackFrom(line, lines[i + 1..], max));
      }
    }
    if |cur| > 0 {
      datagrams := datagrams + [cur];
    }
  }

  lemma Regroup(a: seq<string>, s: string, b: seq<string>)
    ensures a + ([s] + b) == a + [s] + b
  {
  }

  // ---- Reading datagrams back ----

  predicate Plain(line: string) {
    line != "" && '\n' !in line
  }

  predicate AllPlain(lines: seq<string>) {
    forall n :: 0 <= n < |lines| ==> Plain(lines[n])
  }

  /** What a statsd server makes of one datagram. */
  function Split(s: string): (lines: seq<string>)
    ensures lines != []
  {
    if s == "" then [""]
    else
      var rest := Split(s[1..]);
      if s[0] == '\n' then [""] + rest else [[s[0]] + rest[0]] + rest[1..]
  }

  function SplitAll(datagrams: seq<string>): seq<string> {
    if datagrams == [] then [] else Split(datagrams[0]) + SplitAll(datagrams[1..])
  }

  function Joined(lines: seq<string>): (s: string)
    requires lines != []
  {
    var n := |lines| - 1;
    if n == 0 then lines[0] else Joined(lines[..n]) + "\n" + lines[n]
  }

  lemma {:induction false} SplitPlain(line: string)
    requires '\n' !in line
    ensures Split(line) == [line]
  {
    if line != "" {
      assert line[0] in line && line == [line[0]] + line[1..];
      SplitPlain(line[1..]);
    }
  }

  lemma {:induction false} SplitAtNewline(a: string, b: string)
    ensures Split(a + "\n" + b) == Split(a) + Split(b)
  {
    if a == "" {
      assert ("" + "\n" + b)[1..] == b;
    } else {
      assert (a + "\n" + b)[1..] == a[1..] + "\n" + b;
      SplitAtNewline(a[1..], b);
    }
  }

  lemma {:induction false} SplitJoined(lines: seq<string>)
    requires lines != [] && AllPlain(lines)
    ensures Split(Joined(lines)) == lines && |Joined(lines)| > 0
    decreases |lines|
  {
    var n := |lines| - 1;
    assert Plain(lines[n]);
    SplitPlain(lines[n]);
    if n > 0 {
      SplitJoined(lines[..n]);
      SplitAtNewline(Joined(lines[..n]), lines[n]);
    }
  }

  lemma {:induction false} PackKeepsLines(begun: seq<string>, lines: seq<string>, max: int)
    requires begun != [] && AllPlain(begun) && AllPlain(lines)
    ensures SplitAll(PackFrom(Joined(begun), lines, max)) == begun + lines
    decreases |lines|
  {
    SplitJoined(begun);
    if lines == [] {
      assert SplitAll([Joined(begun)]) == Split(Joined(begun)) + SplitAll([]);
    } else {
      var line := lines[0];
      assert Plain(line);
      if |Joined(begun)| + 1 + |line| > max {
        PackKeepsLines([line], lines[1..], max);
      } else {
        assert (begun + [line])[..|begun|] == begun;
        PackKeepsLines(begun + [line], lines[1..], max);
      }
    }
  }

  /** Splitting the datagrams gives back the lines, all of them, in order. */
  lemma LinesComeBack(lines: seq<string>, max: int)
    requires AllPlain(lines)
    ensures SplitAll(PackFrom("", lines, max)) == lines
  {
    if lines != [] {
      StartsWith(lines, max);
      assert Plain(lines[0]);
      PackKeepsLines([lines[0]], lines[1..], max);
    }
  }

  /** A datagram is over the limit only if it is one of the lines by itself. */
  lemma {:induction false} WithinLimit(cur: string, lines: seq<string>, max: int, all: seq<string>)
    requires |cur| <= max || cur in all || cur == ""
    requires forall n :: 0 <= n < |lines| ==> lines[n] in all
    ensures forall d :: d in PackFrom(cur, lines, max) ==> d != "" && (|d| <= max || d in all)
    decreases |lines|
  {
    if lines != [] {
      if |cur| > 0 && |cur| + 1 + |lines[0]| > max {
        WithinLimit(lines[0], lines[1..], max, all);
      } else {
        WithinLimit(Continued(cur, lines[0]), lines[1..], max, all);
      }
    }
  }

  // ---- No grouping does better ----

  predicate Fits(group: seq<string>, max: int)
    requires group != []
  {
    |group| == 1 || |Joined(group)| <= max
  }

  /** An order-preserving way to pack: groups of consecutive lines, each within the limit or a single line. */
  predicate Grouping(groups: seq<seq<string>>, max: int) {
    forall n :: 0 <= n < |groups| ==> groups[n] != [] && Fits(groups[n], max)
  }

  function Flat(groups: seq<seq<string>>): seq<string> {
    if groups == [] then [] else groups[0] + Flat(groups[1..])
  }

  lemma {:induction false} JoinedGrows(a: seq<string>, b: seq<string>)
    requires a != []
    ensures |Joined(a)| <= |Joined(a + b)|
    decreases |b|
  {
    if b == [] {
      assert a + b == a;
    } else {
      var n := |b| - 1;
      assert (a + b)[..|a + b| - 1] == a + b[..n];
      JoinedGrows(a, b[..n]);
    }
  }

  /**
   Greedy packing against another way that has `done` in its current datagram and `todo` and `groups` still to
   come. If greedy's current datagram is no longer, it ends with no more datagrams; else with at most one more.
   */
  lemma {:induction false} GreedyStaysAhead(cur: string, done: seq<string>, todo: seq<string>, groups: seq<seq<string>>,
                                            max: int, ahead: bool)
    requires cur != "" && done != [] && (ahead ==> |cur| <= |Joined(done)|)
    requires AllPlain(todo + Flat(groups))
    requires Grouping(groups, max) && Fits(done + todo, max)
    ensures |PackFrom(cur, todo + Flat(groups), max)| <= 1 + |groups| + if ahead then 0 else 1
    decreases |groups|, |todo|
  {
    var lines := todo + Flat(groups);
    if todo != [] {
      var line, rest := todo[0], todo[1..];
      var more := done + [line];
      assert lines[0] == line && lines[1..] == rest + Flat(groups);
      assert done + todo == more + rest && more[..|done|] == done;
      assert Plain(lines[0]);
      JoinedGrows(more, rest);
      if |cur| + 1 + |line| > max {
        GreedyStaysAhead(line, more, rest, groups, max, true);
      } else {
        GreedyStaysAhead(Continued(cur, line), more, rest, groups, max, ahead);
      }
    } else if groups != [] {
      var line, rest := groups[0][0], groups[0][1..];
      assert groups[0] == [line] + rest;
      assert lines[0] == line && lines[1..] == rest + Flat(groups[1..]);
      assert Plain(lines[0]);
      if |cur| + 1 + |line| > max {
        GreedyStaysAhead(line, [line], rest, groups[1..], max, true);
      } else {
        GreedyStaysAhead(Continued(cur, line), [line], rest, groups[1..], max, false);
      }
    }
  }

  /** Greedy packing is optimal: no grouping of the same lines within the limit has fewer datagrams. */
  lemma FewestDatagrams(lines: seq<string>, max: int, groups: seq<seq<string>>)
    requires AllPlain(lines) && Grouping(groups, max) && Flat(groups) == lines
    ensures |PackFrom("", lines, max)| <= |groups|
  {
    if lines != [] {
      assert groups != [];
      var line, rest := groups[0][0], groups[0][1..];
      assert groups[0] == [line] + rest;
      assert lines[0] == line && lines[1..] == rest + Flat(groups[1..]);
      assert Plain(lines[0]);
      StartsWith(lines, max);
      GreedyStaysAhead(line, [line], rest, groups[1..], max, true);
    }
  }

  lemma StartsWith(lines: seq<string>, max: int)
    requires lines != []
    ensures PackFrom("", lines, max) == PackFrom(lines[0], lines[1..], max)
  {
  }
}
