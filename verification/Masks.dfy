/** Bitwise AND of fixed-width words, by octets and by halves, and with prefix masks. */
module Masks {
  import opened Bytes
  import opened Positional

  lemma AndStep(x: nat, y: nat)
    ensures And(x, y) == 2 * And(x / 2, y / 2) + if x % 2 == 1 && y % 2 == 1 then 1 else 0
  {
  }

  /** `a` shifted left by `n` bits. */
  function Shifted(a: nat, n: nat): nat {
    if n == 0 then a else 2 * Shifted(a, n - 1)
  }

  lemma {:induction false} ShiftedIsTimes(a: nat, n: nat)
    ensures Shifted(a, n) == a * Power(2, n)
  {
    if n == 0 {
      assert Power(2, 0) == 1;
    } else {
      var q := Power(2, n - 1);
      ShiftedIsTimes(a, n - 1);
      assert a * (2 * q) == 2 * (a * q);
    }
  }

  lemma Half(x: nat, aq: nat, b: nat)
    requires x == 2 * aq + b
    ensures x / 2 == aq + b / 2 && x % 2 == b % 2
  {
  }

  lemma JoinBits(x: nat, y: nat, aq: nat, b: nat, cq: nat, d: nat, ep: nat, eq: nat)
    requires x == 2 * aq + b && y == 2 * cq + d && ep == 2 * eq
    requires And(aq + b / 2, cq + d / 2) == eq + And(b / 2, d / 2)
    ensures And(x, y) == ep + And(b, d)
  {
    Half(x, aq, b);
    Half(y, cq, d);
    AndStep(x, y);
    AndStep(b, d);
  }

  /** `x` and `y` meet in `high` above what their low parts meet in. */
  predicate Meet(x: nat, b: nat, y: nat, d: nat, high: nat) {
    And(x + b, y + d) == high + And(b, d)
  }

  lemma MeetTwice(ap: nat, aq: nat, b: nat, cp: nat, cq: nat, d: nat, ep: nat, eq: nat)
    requires ap == 2 * aq && cp == 2 * cq && ep == 2 * eq
    requires Meet(aq, b / 2, cq, d / 2, eq)
    ensures Meet(ap, b, cp, d, ep)
  {
    JoinBits(ap + b, cp + d, aq, b, cq, d, ep, eq);
  }

  /** AND acts on the two parts of a word separately. */
  lemma {:induction false} AndParts(a: nat, b: nat, c: nat, d: nat, n: nat)
    requires b < Power(2, n) && d < Power(2, n)
    ensures Meet(Shifted(a, n), b, Shifted(c, n), d, Shifted(And(a, c), n))
  {
    if n == 0 {
      assert Power(2, 0) == 1;
    } else {
      var e := And(a, c);
      assert b / 2 < Power(2, n - 1) && d / 2 < Power(2, n - 1);
      AndParts(a, b / 2, c, d / 2, n - 1);
      assert Shifted(a, n) == 2 * Shifted(a, n - 1) && Shifted(c, n) == 2 * Shifted(c, n - 1);
      MeetTwice(Shifted(a, n), Shifted(a, n - 1), b, Shifted(c, n), Shifted(c, n - 1), d,
                Shifted(e, n), Shifted(e, n - 1));
    }
  }

  lemma PowersOf2()
    ensures Power(2, 8) == 256 && Power(2, 16) == 0x1_0000 && Power(2, 32) == 0x1_0000_0000
  {
    assert Power(2, 8) == 256;
    assert Power(2, 16) == 0x1_0000;
    assert Power(2, 24) == 0x100_0000;
  }

  lemma ShiftedWords(a: nat)
    ensures Shifted(a, 8) == a * 256 && Shifted(a, 16) == a * 0x1_0000
  {
    PowersOf2();
    ShiftedIsTimes(a, 8);
    ShiftedIsTimes(a, 16);
  }

  lemma WordIsShifted(a: Byte, b: Byte)
    ensures Word(a, b) == Shifted(a, 8) + b
  {
    ShiftedWords(a);
  }

  lemma AndWord(a: Byte, b: Byte, c: Byte, d: Byte)
    ensures And(Word(a, b), Word(c, d)) == Word(And(a, c), And(b, d))
  {
    PowersOf2();
    AndParts(a, b, c, d, 8);
    WordIsShifted(a, b);
    WordIsShifted(c, d);
    WordIsShifted(And(a, c), And(b, d));
  }

  lemma AndDouble(a: nat, b: nat, c: nat, d: nat)
    requires b < 0x1_0000 && d < 0x1_0000
    ensures And(a * 0x1_0000 + b, c * 0x1_0000 + d) == And(a, c) * 0x1_0000 + And(b, d)
  {
    PowersOf2();
    AndParts(a, b, c, d, 16);
    ShiftedWords(a);
    ShiftedWords(c);
    ShiftedWords(And(a, c));
  }

  lemma OddStep(x: nat, y: nat, half: nat)
    requires y == 2 * half + 1 && And(x / 2, half) == x / 2
    ensures And(x, y) == x
  {
    Half(y, half, 1);
    AndStep(x, y);
  }

  lemma {:induction false} AndOnes(x: nat, n: nat)
    requires x < Power(2, n)
    ensures And(x, Power(2, n) - 1) == x
  {
    if n > 0 {
      AndOnes(x / 2, n - 1);
      OddStep(x, Power(2, n) - 1, Power(2, n - 1) - 1);
    }
  }

  lemma Regrouped(p: nat, q: nat)
    ensures 2 * p * q == 2 * (p * q) && p * q - q == (p - 1) * q
  {
  }

  lemma {:induction false} PowersAdd(m: nat, n: nat)
    ensures Power(2, m) * Power(2, n) == Power(2, m + n)
  {
    if m > 0 {
      PowersAdd(m - 1, n);
      Regrouped(Power(2, m - 1), Power(2, n));
    }
  }

  /** AND with ones above `m` zero bits leaves of a word what lies above its low `m` bits. */
  lemma AndHighBits(d: nat, r: nat, k: nat, m: nat)
    requires r < Power(2, m) && d < Power(2, k)
    ensures And(Shifted(d, m) + r, Shifted(Power(2, k) - 1, m)) == Shifted(d, m)
  {
    AndParts(d, r, Power(2, k) - 1, 0, m);
    AndOnes(d, k);
  }

  type Address = a: seq<Byte> | |a| == 4 witness Zeros(4)

  lemma MaskedOctets(a: Address, m: Address)
    ensures Masked(a, m) == [And(a[0], m[0]), And(a[1], m[1]), And(a[2], m[2]), And(a[3], m[3])]
  {
    assert Masked(a[1..], m[1..]) == [And(a[1], m[1])] + Masked(a[2..], m[2..]) by {
      assert a[1..][1..] == a[2..] && m[1..][1..] == m[2..];
    }
    assert Masked(a[2..], m[2..]) == [And(a[2], m[2])] + Masked(a[3..], m[3..]) by {
      assert a[2..][1..] == a[3..] && m[2..][1..] == m[3..];
    }
    assert Masked(a[3..], m[3..]) == [And(a[3], m[3])] by {
      assert a[3..][1..] == [] && m[3..][1..] == [];
    }
  }

  /** The word of four octets, most significant first. */
  function Word32(a: Byte, b: Byte, c: Byte, d: Byte): nat {
    Word(a, b) * 0x1_0000 + Word(c, d)
  }

  lemma AndOctets(a: Byte, b: Byte, c: Byte, d: Byte, a': Byte, b': Byte, c': Byte, d': Byte)
    ensures And(Word32(a, b, c, d), Word32(a', b', c', d')) == Word32(And(a, a'), And(b, b'), And(c, c'), And(d, d'))
  {
    AndWord(a, b, a', b');
    AndWord(c, d, c', d');
    AndDouble(Word(a, b), Word(c, d), Word(a', b'), Word(c', d'));
  }

  lemma WordOf(a: Address)
    ensures BE32(a, 0) == Word32(a[0], a[1], a[2], a[3]) && LE32(a, 0) == Word32(a[3], a[2], a[1], a[0])
  {
  }

  /** The octet-wise AND is the word-wide AND of the addresses in network order. */
  lemma MaskedIsAnd(a: Address, m: Address)
    ensures BE32(Masked(a, m), 0) == And(BE32(a, 0), BE32(m, 0))
  {
    WordOf(a);
    WordOf(m);
    WordOf(Masked(a, m));
    MaskedOctets(a, m);
    AndOctets(a[0], a[1], a[2], a[3], m[0], m[1], m[2], m[3]);
  }

  /** And in host order, as the program loads them. */
  lemma MaskedIsAndHost(a: Address, m: Address)
    ensures LE32(Masked(a, m), 0) == And(LE32(a, 0), LE32(m, 0))
  {
    WordOf(a);
    WordOf(m);
    WordOf(Masked(a, m));
    MaskedOctets(a, m);
    AndOctets(a[3], a[2], a[1], a[0], m[3], m[2], m[1], m[0]);
  }

  lemma SameWord(a: Byte, b: Byte, c: Byte, d: Byte, a': Byte, b': Byte, c': Byte, d': Byte)
    ensures Word32(a, b, c, d) == Word32(a', b', c', d') <==> a == a' && b == b' && c == c' && d == d'
  {
  }

  lemma SameOctets(a: Address, b: Address)
    ensures a == b <==> a[0] == b[0] && a[1] == b[1] && a[2] == b[2] && a[3] == b[3]
  {
  }

  /** An address is told by its value, in either byte order. */
  lemma SameNetworkOrder(a: Address, b: Address)
    ensures BE32(a, 0) == BE32(b, 0) <==> a == b
  {
    SameOctets(a, b);
    SameWord(a[0], a[1], a[2], a[3], b[0], b[1], b[2], b[3]);
    WordOf(a);
    WordOf(b);
  }

  lemma SameHostOrder(a: Address, b: Address)
    ensures LE32(a, 0) == LE32(b, 0) <==> a == b
  {
    SameOctets(a, b);
    SameWord(a[3], a[2], a[1], a[0], b[3], b[2], b[1], b[0]);
    WordOf(a);
    WordOf(b);
  }

  /** The program's comparison, of words loaded in host order, is the octet-wise one. */
  lemma MaskedIsAndOfLoads(a: Address, m: Address, addr: Address)
    ensures And(LE32(a, 0), LE32(m, 0)) == LE32(addr, 0) <==> Masked(a, m) == addr
  {
    MaskedIsAndHost(a, m);
    SameHostOrder(Masked(a, m), addr);
  }
}
