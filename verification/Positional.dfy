/** Numbers written in a base, most significant digit first: what the ID printers and parsers share. */
module Positional {

  predicate IsDigits(ds: seq<nat>, base: nat) {
    forall i :: 0 <= i < |ds| ==> ds[i] < base
  }

  function Eval(ds: seq<nat>, base: nat): nat {
    if ds == [] then 0 else Eval(ds[..|ds| - 1], base) * base + ds[|ds| - 1]
  }

  /** The digits of `v` without leading zeroes: none at all for zero. */
  function Minimal(v: nat, base: nat): (ds: seq<nat>)
    requires base >= 2
    ensures IsDigits(ds, base) && (ds != [] ==> ds[0] != 0)
    ensures Eval(ds, base) == v
  {
    if v == 0 then [] else Minimal(v / base, base) + [v % base]
  }

  function Noughts(n: nat): (ds: seq<nat>)
    ensures |ds| == n && forall i :: 0 <= i < n ==> ds[i] == 0
  {
    seq(n, _ => 0)
  }

  function Leading(ds: seq<nat>): (n: nat)
    ensures n <= |ds| && ds[..n] == Noughts(n) && (n < |ds| ==> ds[n] != 0)
  {
    if ds == [] || ds[0] != 0 then 0
    else
      var rest := Leading(ds[1..]);
      assert ds == [ds[0]] + ds[1..];
      rest + 1
  }

  function Power(base: nat, n: nat): nat {
    if n == 0 then 1 else base * Power(base, n - 1)
  }

  /** The same number in another base, each leading zero digit staying one zero digit: base58's convention. */
  function Rebase(ds: seq<nat>, from: nat, to: nat): (r: seq<nat>)
    requires to >= 2
    ensures IsDigits(r, to)
  {
    Noughts(Leading(ds)) + Minimal(Eval(ds, from), to)
  }

  lemma {:induction false} EvalPadded(n: nat, ds: seq<nat>, base: nat)
    ensures Eval(Noughts(n) + ds, base) == Eval(ds, base)
    decreases |ds|, n
  {
    var all := Noughts(n) + ds;
    if ds != [] {
      assert all[..|all| - 1] == Noughts(n) + ds[..|ds| - 1];
      EvalPadded(n, ds[..|ds| - 1], base);
    } else if n > 0 {
      assert all[..n - 1] == Noughts(n - 1) + [];
      EvalPadded(n - 1, [], base);
    }
  }

  /** Digits without a leading zero are the minimal ones of their value. */
  lemma {:induction false} MinimalOfEval(ds: seq<nat>, base: nat)
    requires base >= 2 && IsDigits(ds, base) && (ds != [] ==> ds[0] != 0)
    ensures Minimal(Eval(ds, base), base) == ds
    decreases |ds|
  {
    if ds != [] {
      var front, last := ds[..|ds| - 1], ds[|ds| - 1];
      MinimalOfEval(front, base);
      Carry(Eval(front, base), last, base);
      assert Eval(ds, base) != 0 by {
        if front != [] {
          assert Minimal(Eval(front, base), base) == front;
        }
      }
    }
  }

  lemma Scale(a: nat, b: nat, c: nat)
    requires a <= b
    ensures a * c <= b * c
  {
    assert (b - a) * c >= 0;
    assert (b - a) * c == b * c - a * c;
  }

  lemma Successor(q: nat, base: nat)
    ensures (q + 1) * base == q * base + base
  {
  }

  lemma Carry(q: nat, r: nat, base: nat)
    requires r < base
    ensures (q * base + r) / base == q && (q * base + r) % base == r
    ensures q > 0 ==> q * base + r > 0
  {
    var x := q * base + r;
    var d, m := x / base, x % base;
    assert x == d * base + m;
    Successor(d, base);
    Successor(q, base);
    if d < q {
      Scale(d + 1, q, base);
    } else if q < d {
      Scale(q + 1, d, base);
    }
    if q > 0 {
      Scale(1, q, base);
    }
  }

  lemma {:induction false} LeadingIs(ds: seq<nat>, n: nat)
    requires n <= |ds| && (forall i :: 0 <= i < n ==> ds[i] == 0) && (n < |ds| ==> ds[n] != 0)
    ensures Leading(ds) == n
    decreases n
  {
    if n > 0 {
      LeadingIs(ds[1..], n - 1);
    }
  }

  lemma LeadingOfPadded(n: nat, ds: seq<nat>)
    requires ds != [] ==> ds[0] != 0
    ensures Leading(Noughts(n) + ds) == n
  {
    LeadingIs(Noughts(n) + ds, n);
  }

  /** Rebasing back gives every digit back, leading zeroes included. */
  lemma RebaseBack(ds: seq<nat>, from: nat, to: nat)
    requires from >= 2 && to >= 2 && IsDigits(ds, from)
    ensures Rebase(Rebase(ds, from, to), to, from) == ds
  {
    var n, v := Leading(ds), Eval(ds, from);
    var tail := ds[n..];
    assert ds == Noughts(n) + tail;
    EvalPadded(n, tail, from);
    MinimalOfEval(tail, from);
    LeadingOfPadded(n, Minimal(v, to));
    EvalPadded(n, Minimal(v, to), to);
  }

  lemma {:induction false} EvalBound(ds: seq<nat>, base: nat)
    requires IsDigits(ds, base)
    ensures Eval(ds, base) < Power(base, |ds|)
    decreases |ds|
  {
    if ds != [] {
      var front := ds[..|ds| - 1];
      EvalBound(front, base);
      var e, p := Eval(front, base), Power(base, |front|);
      Scale(e + 1, p, base);
      Successor(e, base);
      assert p * base == Power(base, |ds|);
    }
  }

  lemma DivBelow(v: nat, base: nat, p: nat)
    requires base > 0 && v < base * p
    ensures v / base < p
  {
    if v / base >= p {
      Scale(p, v / base, base);
    }
  }

  /** A value below base^n has at most n minimal digits. */
  lemma {:induction false} MinimalFits(v: nat, base: nat, n: nat)
    requires base >= 2 && v < Power(base, n)
    ensures |Minimal(v, base)| <= n
    decreases n
  {
    if v > 0 {
      assert n > 0;
      DivBelow(v, base, Power(base, n - 1));
      MinimalFits(v / base, base, n - 1);
    }
  }

  /** Distinct digit strings of one length have distinct values. */
  lemma {:induction false} EvalInjective(a: seq<nat>, b: seq<nat>, base: nat)
    requires base >= 2 && |a| == |b| && IsDigits(a, base) && IsDigits(b, base) && Eval(a, base) == Eval(b, base)
    ensures a == b
    decreases |a|
  {
    if a != [] {
      var n := |a| - 1;
      Carry(Eval(a[..n], base), a[n], base);
      Carry(Eval(b[..n], base), b[n], base);
      EvalInjective(a[..n], b[..n], base);
      assert a == a[..n] + [a[n]] && b == b[..n] + [b[n]];
    }
  }
}
