/**
 The 82 octets of Ethernet, IPv4, UDP, GENEVE and GWLB options around an inner packet: how decap turns
 them into what a reply carries, when two cached copies count as equal, and how encap replays one.
 */
module OuterHeader {
  import opened Bytes
  import opened Checksum

  const ETH_LEN := 14
  const HDR_LEN := 82
  const OVERHEAD := 68
  const IPV4_TYPE := 0x0800
  const IPV6_TYPE := 0x86DD
  const REPLY_TTL: Byte := 64

  type Header = h: seq<Byte> | |h| == HDR_LEN witness Zeros(HDR_LEN)

  // Offsets of the fields the programs touch.
  const TOS := 15
  const TOT_LEN := 16
  const ID := 18
  const FRAG_OFF := 20
  const TTL := 22
  const CHECK := 24
  const SADDR := 26
  const DADDR := 30
  const UDP_LEN := 38
  const UDP_CHECK := 40
  const PROTO_TYPE := 44
  const VPCE := 54

  /** The octets of a reply's header: addresses swapped, TTL, ECN, DF and ID a fresh datagram's. */
  function ReplyForm(h: Header): (r: Header)
  {
    seq(HDR_LEN, i requires 0 <= i < HDR_LEN =>
      if i < 6 then h[i + 6]
      else if i < 12 then h[i - 6]
      else if i == TOS then h[TOS] / 4 * 4
      else if ID <= i < ID + 2 then 0
      else if i == FRAG_OFF then 0x40
      else if i == FRAG_OFF + 1 then 0
      else if i == TTL then REPLY_TTL
      else if SADDR <= i < DADDR then h[i + 4]
      else if DADDR <= i < DADDR + 4 then h[i - 4]
      else h[i])
  }

  /** Octets the cache comparison skips: total length, ID, checksum, UDP length and UDP checksum. */
  predicate Skipped(i: nat) {
    TOT_LEN <= i < ID + 2 || CHECK <= i < CHECK + 2 || UDP_LEN <= i < UDP_CHECK + 2
  }

  predicate StableEq(a: Header, b: Header) {
    forall i :: 0 <= i < HDR_LEN && !Skipped(i) ==> a[i] == b[i]
  }

  /** outer_hdr_stable_eq, on two struct outer_hdr_cache. */
  method OuterHdrStableEq(a: seq<Byte>, b: seq<Byte>) returns (eq: bool)
    requires |a| == |b| == HDR_LEN
    ensures eq <==> StableEq(a, b)
  {
    for i := 0 to HDR_LEN / 2
      invariant forall j :: 0 <= j < 2 * i && !Skipped(j) ==> a[j] == b[j]
    {
      if i == (14 + 2) / 2 || i == (14 + 4) / 2 || i == (14 + 10) / 2 || i == (34 + 4) / 2 || i == (34 + 6) / 2 {
        continue;
      }
      if LE16(a, 2 * i) != LE16(b, 2 * i) {
        assert !Skipped(2 * i) && !Skipped(2 * i + 1);
        return false;
      }
    }
    return true;
  }

  /** The cached header with a reply's two lengths, each cut to 16 bits, and neither checksum. */
  function Sized(h: Header, innerLen: nat): (r: Header)
  {
    var total, udp := PutBE16((innerLen + OVERHEAD) % 0x1_0000), PutBE16((innerLen + OVERHEAD - 20) % 0x1_0000);
    seq(HDR_LEN, i requires 0 <= i < HDR_LEN =>
      if TOT_LEN <= i < TOT_LEN + 2 then total[i - TOT_LEN]
      else if UDP_LEN <= i < UDP_LEN + 2 then udp[i - UDP_LEN]
      else if CHECK <= i < CHECK + 2 || UDP_CHECK <= i < UDP_CHECK + 2 then 0
      else h[i])
  }

  lemma SizedBySplices(h: Header, innerLen: nat)
    ensures var total, udp := PutBE16((innerLen + OVERHEAD) % 0x1_0000), PutBE16((innerLen + OVERHEAD - 20) % 0x1_0000);
            var sized := Splice(Splice(Splice(h, TOT_LEN, total), CHECK, [0, 0]), UDP_LEN, udp);
            Splice(sized, UDP_CHECK, [0, 0]) == Sized(h, innerLen)
  {
  }

  /** Both lengths for an inner packet of `n` octets, cut to 16 bits, a verifying checksum, and no UDP checksum. */
  predicate FieldsFor(r: Header, n: nat) {
    && BE16(r, TOT_LEN) == (n + OVERHEAD) % 0x1_0000
    && BE16(r, UDP_LEN) == (n + OVERHEAD - 20) % 0x1_0000
    && r[UDP_CHECK] == r[UDP_CHECK + 1] == 0
    && Verifies(r[ETH_LEN..ETH_LEN + 20])
  }

  lemma SizedFields(h: Header, innerLen: nat)
    ensures var r := Sized(h, innerLen);
            && BE16(r, TOT_LEN) == (innerLen + OVERHEAD) % 0x1_0000
            && BE16(r, UDP_LEN) == (innerLen + OVERHEAD - 20) % 0x1_0000
            && r[UDP_CHECK] == r[UDP_CHECK + 1] == 0
  {
  }

  /** The cached header as encap sends it: sized, then checksummed; what it does not recompute is the cache's. */
  function Replay(h: Header, innerLen: nat): (r: Header)
    ensures FieldsFor(r, innerLen)
    ensures forall i :: 0 <= i < HDR_LEN && (Skipped(i) ==> ID <= i < ID + 2) ==> r[i] == h[i]
  {
    var sized := Sized(h, innerLen);
    var ip := sized[ETH_LEN..ETH_LEN + 20];
    SizedFields(h, innerLen);
    ChecksumVerifies(ip);
    var r := Splice(sized, ETH_LEN, WithChecksum(ip));
    assert r[ETH_LEN..ETH_LEN + 20] == WithChecksum(ip);
    r
  }

  /** The frame encap puts on the uplink for the inner packet of a reply. */
  function Encapsulated(h: Header, inner: seq<Byte>): (f: seq<Byte>)
    ensures |f| == HDR_LEN + |inner|
    ensures f[HDR_LEN..] == inner
  {
    Replay(h, |inner|) + inner
  }

  /** Two octets that make equal slices are equal. */
  lemma SameSlice(a: seq<Byte>, b: seq<Byte>, i: nat)
    requires i + 2 <= |a| && i + 2 <= |b|
    ensures a[i..i + 2] == b[i..i + 2] <==> a[i] == b[i] && a[i + 1] == b[i + 1]
  {
    assert a[i..i + 2] == [a[i], a[i + 1]] && b[i..i + 2] == [b[i], b[i + 1]];
  }

  /**
   Copies the comparison calls equal replay alike exactly when their IDs are: the ID is skipped like the
   fields encap recomputes, but encap does not recompute it. decap zeroes it instead.
   */
  lemma ReplayOfStable(a: Header, b: Header, n: nat)
    requires StableEq(a, b)
    ensures Replay(a, n) == Replay(b, n) <==> a[ID..ID + 2] == b[ID..ID + 2]
  {
    SameSlice(a, b, ID);
    if a[ID] == b[ID] && a[ID + 1] == b[ID + 1] {
      assert Sized(a, n) == Sized(b, n);
    } else {
      OtherId(a, b, n);
    }
  }

  lemma OtherId(a: Header, b: Header, n: nat)
    requires a[ID] != b[ID] || a[ID + 1] != b[ID + 1]
    ensures Replay(a, n) != Replay(b, n)
  {
    var x, y := Replay(a, n), Replay(b, n);
    assert x[ID] == a[ID] && x[ID + 1] == a[ID + 1] && y[ID] == b[ID] && y[ID + 1] == b[ID + 1];
  }

  /** Turning a header round twice restores its addressing; everything else is settled by the first time. */
  lemma ReplyFormTwice(h: Header)
    ensures ReplyForm(ReplyForm(ReplyForm(h))) == ReplyForm(h)
    ensures forall i :: 0 <= i < HDR_LEN && !(i == TOS || ID <= i <= TTL) ==> ReplyForm(ReplyForm(h))[i] == h[i]
    ensures forall i :: i == TOS || ID <= i <= TTL ==> ReplyForm(ReplyForm(h))[i] == ReplyForm(h)[i]
  {
    assert forall b: Byte :: b / 4 * 4 / 4 * 4 == b / 4 * 4;
  }
}
