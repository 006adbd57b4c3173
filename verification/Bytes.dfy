/** Octets, the two byte orders, and the fixed-width unsigned arithmetic the programs use. */
module Bytes {

  type Byte = x: int | 0 <= x < 256

  datatype Option<+T> = None | Some(value: T) {
    function GetOr(default: T): T {
      if Some? then value else default
    }
  }

  /** The 16-bit value whose most significant octet is `hi`. */
  function Word(hi: Byte, lo: Byte): (w: nat)
    ensures w < 0x1_0000
  {
    hi * 256 + lo
  }

  /** bpf_ntohs of the field at `i`: network byte order. */
  function BE16(s: seq<Byte>, i: nat): (w: nat)
    requires i + 2 <= |s|
    ensures w < 0x1_0000
  {
    Word(s[i], s[i + 1])
  }

  /** A plain 16-bit load at `i` on the little-endian hosts the programs are built for. */
  function LE16(s: seq<Byte>, i: nat): (w: nat)
    requires i + 2 <= |s|
    ensures w < 0x1_0000
  {
    Word(s[i + 1], s[i])
  }

  function BE32(s: seq<Byte>, i: nat): (w: nat)
    requires i + 4 <= |s|
    ensures w < 0x1_0000_0000
  {
    BE16(s, i) * 0x1_0000 + BE16(s, i + 2)
  }

  function LE32(s: seq<Byte>, i: nat): (w: nat)
    requires i + 4 <= |s|
    ensures w < 0x1_0000_0000
  {
    LE16(s, i + 2) * 0x1_0000 + LE16(s, i)
  }

  function BE64(s: seq<Byte>, i: nat): (w: nat)
    requires i + 8 <= |s|
    ensures w < 0x1_0000_0000_0000_0000
  {
    BE32(s, i) * 0x1_0000_0000 + BE32(s, i + 4)
  }

  function PutBE16(w: nat): (s: seq<Byte>)
    requires w < 0x1_0000
    ensures |s| == 2 && BE16(s, 0) == w
  {
    [w / 256, w % 256]
  }

  function PutLE16(w: nat): (s: seq<Byte>)
    requires w < 0x1_0000
    ensures |s| == 2 && LE16(s, 0) == w
  {
    [w % 256, w / 256]
  }

  function PutLE32(w: nat): (s: seq<Byte>)
    requires w < 0x1_0000_0000
    ensures |s| == 4 && LE32(s, 0) == w
  {
    PutLE16(w % 0x1_0000) + PutLE16(w / 0x1_0000)
  }

  function Zeros(n: nat): (s: seq<Byte>)
    ensures |s| == n && forall i :: 0 <= i < n ==> s[i] == 0
  {
    seq(n, i => 0)
  }

  /** `s` with the octets from `i` on overwritten by `v`: one memcpy into a buffer. */
  function Splice(s: seq<Byte>, i: nat, v: seq<Byte>): (r: seq<Byte>)
    requires i + |v| <= |s|
    ensures |r| == |s|
    ensures forall j :: 0 <= j < |s| ==> r[j] == if i <= j < i + |v| then v[j - i] else s[j]
  {
    s[..i] + v + s[i + |v|..]
  }

  lemma SpliceInFront(a: seq<Byte>, b: seq<Byte>, i: nat, v: seq<Byte>)
    requires i + |v| <= |a|
    ensures Splice(a + b, i, v) == Splice(a, i, v) + b
  {
  }

  /** Unsigned 32-bit subtraction, which wraps below zero. */
  function Sub32(a: nat, b: nat): (r: nat)
    requires a < 0x1_0000_0000 && b < 0x1_0000_0000
    ensures r < 0x1_0000_0000
    ensures r == a - b <==> b <= a
  {
    (a - b) % 0x1_0000_0000
  }

  /** Bitwise AND of two unsigned integers. */
  function And(x: nat, y: nat): (r: nat)
    ensures r <= x && r <= y
  {
    if x == 0 || y == 0 then 0 else 2 * And(x / 2, y / 2) + if x % 2 == 1 && y % 2 == 1 then 1 else 0
  }

  /** Bitwise AND of two addresses, octet by octet: a word-wide AND is the same in either byte order. */
  function Masked(a: seq<Byte>, mask: seq<Byte>): (r: seq<Byte>)
    requires |a| == |mask|
    ensures |r| == |a|
  {
    if a == [] then [] else [And(a[0], mask[0])] + Masked(a[1..], mask[1..])
  }
}
