/** encap's IPv4 header checksum (RFC 1071), which sums host-order words of a network-order header. */
module Checksum {
  import opened Bytes

  function WordAt(h: seq<Byte>, i: nat, bigEndian: bool): (w: nat)
    requires 2 * i + 2 <= |h|
    ensures w < 0x1_0000
  {
    if bigEndian then BE16(h, 2 * i) else LE16(h, 2 * i)
  }

  /** The sum of the first `n` words of `h` in the given byte order. */
  function WordSum(h: seq<Byte>, n: nat, bigEndian: bool): (sum: nat)
    requires 2 * n <= |h|
    ensures sum <= n * 0xFFFF
  {
    if n == 0 then 0 else WordSum(h, n - 1, bigEndian) + WordAt(h, n - 1, bigEndian)
  }

  /** One's complement folding, as far as it takes: what a receiver does with the sum. */
  function Fold(sum: nat): (r: nat)
    ensures r < 0x1_0000
    ensures r == if sum == 0 then 0 else (sum - 1) % 0xFFFF + 1
    decreases sum
  {
    if sum < 0x1_0000 then sum else Fold(sum % 0x1_0000 + sum / 0x1_0000)
  }

  /** csum_fold: four rounds reach 16 bits from any 32-bit sum. */
  method CsumFold(sum: nat) returns (r: nat)
    requires sum < 0x1_0000_0000
    ensures r < 0x1_0000
    ensures r == 0xFFFF - Fold(sum)
  {
    var csum := sum;
    for i := 0 to 4
      invariant Fold(csum) == Fold(sum)
      invariant csum < 0x1_0000_0000
      invariant i >= 1 ==> csum <= 0x1_FFFE
      invariant i >= 2 ==> csum < 0x1_0000
    {
      if csum / 0x1_0000 != 0 {
        csum := csum % 0x1_0000 + csum / 0x1_0000;
      }
    }
    r := 0xFFFF - csum;
  }

  /** The checksum of a 20-octet header, whatever its checksum field holds. */
  function HeaderChecksum(h: seq<Byte>): (c: nat)
    requires |h| == 20
    ensures c < 0x1_0000
  {
    0xFFFF - Fold(WordSum(Splice(h, 10, [0, 0]), 10, false))
  }

  /** `h` carrying its own checksum. */
  function WithChecksum(h: seq<Byte>): (r: seq<Byte>)
    requires |h| == 20
    ensures |r| == 20
  {
    Splice(h, 10, PutLE16(HeaderChecksum(h)))
  }

  /** ipv4_checksum on the header at `at` of a packet buffer; the caller stores the result. */
  method IPv4Checksum(buf: array<Byte>, at: nat) returns (check: nat)
    requires at + 20 <= buf.Length
    modifies buf
    ensures buf[..] == Splice(old(buf[..]), at + 10, [0, 0])
    ensures check == HeaderChecksum(old(buf[at..at + 20]))
  {
    ghost var was := buf[at..at + 20];
    buf[at + 10], buf[at + 11] := 0, 0;
    ghost var zeroed := Splice(was, 10, [0, 0]);
    assert buf[at..at + 20] == zeroed;
    var csum := 0;
    for i := 0 to 10
      invariant csum == WordSum(zeroed, i, false)
    {
      assert zeroed[2 * i] == buf[at + 2 * i] && zeroed[2 * i + 1] == buf[at + 2 * i + 1];
      csum := csum + Word(buf[at + 2 * i + 1], buf[at + 2 * i]);
    }
    check := CsumFold(csum);
  }

  /** verifyIPChecksum of the test suite: a receiver's check, on network-order words. */
  predicate Verifies(h: seq<Byte>)
    requires |h| % 2 == 0
  {
    Fold(WordSum(h, |h| / 2, true)) == 0xFFFF
  }

  /** RFC 1071 section 2(B): summing in the other byte order multiplies the sum by 256, modulo 65535. */
  lemma {:induction false} ByteOrderIndependence(h: seq<Byte>, n: nat) returns (q: int)
    requires 2 * n <= |h|
    ensures WordSum(h, n, true) == 256 * WordSum(h, n, false) + 0xFFFF * q
  {
    q := 0;
    if n > 0 {
      q := ByteOrderIndependence(h, n - 1);
      q := q - h[2 * n - 1];
    }
  }

  /** Filling in a checksum field of zero, word 5, adds it to the sum. */
  lemma {:induction false} SumWithField(zeroed: seq<Byte>, filled: seq<Byte>, n: nat)
    requires |zeroed| == |filled| == 20 && n <= 10 && zeroed[10] == zeroed[11] == 0
    requires forall k :: 0 <= k < 20 && !(10 <= k < 12) ==> filled[k] == zeroed[k]
    ensures WordSum(filled, n, false) == WordSum(zeroed, n, false) + if n > 5 then WordAt(filled, 5, false) else 0
  {
    if n > 0 {
      SumWithField(zeroed, filled, n - 1);
    }
  }

  lemma {:induction false} SumPositive(h: seq<Byte>, n: nat, bigEndian: bool)
    requires 2 * n <= |h| && WordSum(h, n, bigEndian) > 0
    ensures WordSum(h, n, !bigEndian) > 0
  {
    if n > 0 && WordAt(h, n - 1, bigEndian) == 0 {
      SumPositive(h, n - 1, bigEndian);
    }
  }

  /** The sum of a header that carries its checksum is a positive multiple of 65535. */
  lemma SumIsMultiple(s: nat) returns (m: nat)
    ensures m > 0 && s + (0xFFFF - Fold(s)) == 0xFFFF * m
  {
    if s == 0 {
      m := 1;
    } else {
      m := (s - 1) / 0xFFFF + 1;
      assert s - 1 == (s - 1) / 0xFFFF * 0xFFFF + (s - 1) % 0xFFFF;
    }
  }

  /** With the checksum in its field, the host-order words sum to a positive multiple of 65535. */
  lemma FilledSum(h: seq<Byte>) returns (m: nat)
    requires |h| == 20
    ensures m > 0 && WordSum(WithChecksum(h), 10, false) == 0xFFFF * m
  {
    var zeroed, c := Splice(h, 10, [0, 0]), PutLE16(HeaderChecksum(h));
    assert WithChecksum(h)[10] == c[0] && WithChecksum(h)[11] == c[1];
    SumWithField(zeroed, WithChecksum(h), 10);
    m := SumIsMultiple(WordSum(zeroed, 10, false));
  }

  /** A header given its checksum by encap passes every receiver's check. */
  lemma ChecksumVerifies(h: seq<Byte>)
    requires |h| == 20
    ensures Verifies(WithChecksum(h))
  {
    var m := FilledSum(h);
    MultipleVerifies(WithChecksum(h), m);
  }

  lemma FoldOfMultiple(s: nat, k: int)
    requires s > 0 && s == 0xFFFF * k
    ensures Fold(s) == 0xFFFF
  {
    assert s - 1 == 0xFFFF * (k - 1) + 0xFFFE;
  }

  lemma MultipleVerifies(w: seq<Byte>, m: nat)
    requires |w| == 20 && m > 0 && WordSum(w, 10, false) == 0xFFFF * m
    ensures Verifies(w)
  {
    SumPositive(w, 10, false);
    var q := ByteOrderIndependence(w, 10);
    var k := 256 * m + q;
    FoldOfMultiple(WordSum(w, 10, true), k);
  }
}
