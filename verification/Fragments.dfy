/**
 Fragmented replies (RFC 791 section 3.2, RFC 8200 section 4.5): how the pieces of one datagram parse and
 which keys encap uses for them. A fragmentation is any set of pieces, each given by where its payload starts
 and how long it is.
 */
module Fragments {
  import opened Bytes
  import opened InnerPacket
  import opened OuterHeader
  import opened EncapRules
  import opened Keys

  /**
   Piece of `len` octets at `units` times eight of a payload of `total`: more than one piece, and all but the last
   eight octets or more. (Fragments are multiples of eight; all that matters here is that none is shorter.)
   */
  predicate Cut(total: nat, units: nat, len: nat) {
    && 0 < len < total < 0x1_0000 && 8 * units + len <= total
    && (8 * units + len < total ==> len >= 8)
  }

  /** A flags and offset field: MF and the offset are as given, the reserved bit and DF anything. */
  predicate Field4(v: nat, more: bool, units: nat) {
    var f := units + if more then 0x2000 else 0;
    v == f || v == f + 0x4000 || v == f + 0x8000 || v == f + 0xC000
  }

  /** An IPv4 datagram that is not a fragment. */
  predicate Whole4(d: seq<Byte>) {
    |d| >= 20 && HeaderLen4(d) >= 20 && HeaderLen4(d) <= |d| && Field4(BE16(d, 6), false, 0)
  }

  /**
   `x` is an IPv4 fragment of `d`: identification, protocol and addresses copied, offset and MF as the cut
   says. Options, lengths, TTL, DF and checksum may be the fragment's own.
   */
  predicate Piece4(d: seq<Byte>, units: nat, len: nat, x: seq<Byte>)
    requires Whole4(d)
  {
    var h, total := HeaderLen4(d), |d| - HeaderLen4(d);
    && Cut(total, units, len)
    && |x| >= 20 && HeaderLen4(x) >= 20
    && x[4..6] == d[4..6] && x[9] == d[9] && x[12..20] == d[12..20]
    && Field4(BE16(x, 6), 8 * units + len < total, units)
    && |x| == HeaderLen4(x) + len && x[HeaderLen4(x)..] == d[h + 8 * units..h + 8 * units + len]
  }

  const ROUTING: Byte := 43
  const DESTOPTS: Byte := 60

  /** The end of an unfragmentable part, and the header in it that names what follows. */
  datatype Part = Part(end: nat, last: nat)

  /** The last routing header of a chain of extension headers; destination options may come before it. */
  function PastRouting(d: seq<Byte>, proto: Byte, at: nat): (p: Option<Part>)
    ensures p.Some? ==> (proto == ROUTING || proto == DESTOPTS) && at <= p.value.last && p.value.last + 8 <= p.value.end
    decreases if at < |d| then |d| - at else 0
  {
    if (proto != ROUTING && proto != DESTOPTS) || |d| < at + 2 then None
    else
      var end := at + 8 + 8 * (d[at + 1] as int);
      match PastRouting(d, d[at], end)
      case Some(p) => Some(p)
      case None => if proto == ROUTING then Some(Part(end, at)) else None
  }

  /** RFC 8200's unfragmentable part of a packet with a routing header: everything through that header. */
  function RoutedPart(d: seq<Byte>): Option<Part>
    requires |d| >= 40
  {
    match PastHopByHop(d)
    case None => None
    case Some(c) => PastRouting(d, c.proto, c.next)
  }

  /** And of one without: the header and any hop-by-hop options. */
  function Unfragmentable(d: seq<Byte>): Option<nat>
    requires |d| >= 40
  {
    match PastHopByHop(d)
    case None => None
    case Some(c) => if c.next <= |d| && c.proto != FRAGMENT then Some(c.next) else None
  }

  predicate Whole6(d: seq<Byte>) {
    |d| >= 40 && Unfragmentable(d).Some? && RoutedPart(d).None?
  }

  /** Where the unfragmentable part names the header that follows it. */
  function NextAt(d: seq<Byte>): nat
    requires |d| >= 40
  {
    if d[6] == HOPOPTS then 40 else 6
  }

  /**
   `x` is an IPv6 fragment, with identification `id`, of a datagram whose unfragmentable part is its first `u` octets
   and names what follows it at `next`.
   */
  predicate PieceAfter(d: seq<Byte>, u: nat, next: nat, id: nat, units: nat, len: nat, x: seq<Byte>)
    requires next < u <= |d|
  {
    && Cut(|d| - u, units, len) && |x| == u + 8 + len
    && (forall i :: 0 <= i < u && i != next && i != 4 && i != 5 && i != 7 ==> x[i] == d[i])
    && x[next] == FRAGMENT
    && x[u] == d[next]
    && BE16(x, u + 2) == 8 * units + (if 8 * units + len < |d| - u then 1 else 0)
    && BE32(x, u + 4) == id
    && x[u + 8..] == d[u + 8 * units..u + 8 * units + len]
  }

  predicate Piece6(d: seq<Byte>, id: nat, units: nat, len: nat, x: seq<Byte>)
    requires Whole6(d)
  {
    PieceAfter(d, Unfragmentable(d).value, NextAt(d), id, units, len, x)
  }

  predicate IsWhole(isV6: bool, d: seq<Byte>) {
    if isV6 then Whole6(d) else Whole4(d)
  }

  /** One family's notion of a piece; an IPv4 datagram carries its identification itself. */
  predicate Piece(isV6: bool, d: seq<Byte>, id: nat, units: nat, len: nat, x: seq<Byte>)
    requires IsWhole(isV6, d)
  {
    if isV6 then Piece6(d, id, units, len, x) else Piece4(d, units, len, x) && id == BE16(d, 4)
  }

  /** What every piece of a datagram keeps of its tuple. */
  predicate SameDatagram(w: Tuple, x: Tuple, id: nat) {
    x.saddr == w.saddr && x.daddr == w.daddr && x.proto == w.proto && x.fragId == id
  }

  /** The flags and offset of a packet classify it: First exactly for MF at offset 0. */
  lemma FieldClassifies(v: nat, more: bool, units: nat)
    requires Field4(v, more, units) && units < 0x2000
    ensures Frag4(v) == if units > 0 then Later else if more then First else Whole
  {
  }

  lemma Header4OfPiece(d: seq<Byte>, units: nat, len: nat, x: seq<Byte>)
    requires Whole4(d) && Piece4(d, units, len, x)
    ensures Header4(d).frag.Whole?
    ensures Header4(x) == Header4(d).(frag := if units == 0 then First else Later, fragId := BE16(d, 4))
  {
    assert x[12..16] == x[12..20][..4] && x[16..20] == x[12..20][4..];
    assert d[12..16] == d[12..20][..4] && d[16..20] == d[12..20][4..];
    SameSlice(x, d, 4);
    FieldClassifies(BE16(x, 6), 8 * units + len < |d| - HeaderLen4(d), units);
    FieldClassifies(BE16(d, 6), false, 0);
  }

  /** The L4 octets of a first piece are the datagram's own. */
  lemma L4OfPiece(t: Tuple, u: Tuple, d: seq<Byte>, at: nat, x: seq<Byte>, at': nat)
    requires at' + 8 <= |x| && at <= |d| && |x| - at' <= |d| - at && x[at'..] == d[at..at + |x| - at']
    requires u == t.(frag := u.frag, fragId := u.fragId)
    ensures ParseL4(t, d, at).Some? && ParseL4(u, x, at').Some?
    ensures ParseL4(u, x, at').value == ParseL4(t, d, at).value.(frag := u.frag, fragId := u.fragId)
  {
    assert forall i :: 0 <= i < 8 ==> x[at' + i] == x[at'..][i] == d[at + i];
  }

  lemma Header6OfPiece(d: seq<Byte>, id: nat, units: nat, len: nat, x: seq<Byte>)
    requires Whole6(d) && Piece6(d, id, units, len, x)
    ensures var u, c := Unfragmentable(d).value, PastHopByHop(d).value;
            && PastHopByHop(x) == Some(Chain(FRAGMENT, u))
            && PastFragment(d, c) == Some(Parsed(PastFragment(d, c).value.t, u))
            && PastFragment(d, c).value.t.frag.Whole?
            && PastFragment(x, Chain(FRAGMENT, u))
            == Some(Parsed(PastFragment(d, c).value.t.(frag := if units == 0 then First else Later, fragId := id),
                           u + 8))
  {
    var u := Unfragmentable(d).value;
    assert x[8..24] == d[8..24] && x[24..40] == d[24..40];
    assert BE16(x, u + 2) / 8 == units;
  }

  /**
   The offset-0 piece parses as First and otherwise exactly like the whole datagram, which parses because a
   first piece carries at least eight octets; its L4 header starts the same payload.
   */
  lemma FirstPiece(isV6: bool, d: seq<Byte>, id: nat, len: nat, x: seq<Byte>)
    requires IsWhole(isV6, d) && Piece(isV6, d, id, 0, len, x)
    ensures Parse(isV6, d).Some? && Parse(isV6, x).Some?
    ensures var w, y := Parse(isV6, d).value, Parse(isV6, x).value;
            && y.t == w.t.(frag := First, fragId := id) && w.t.frag.Whole?
            && w.l4 <= |d| && y.l4 + len == |x| && x[y.l4..] == d[w.l4..w.l4 + len]
  {
    if isV6 {
      Header6OfPiece(d, id, 0, len, x);
      var u, c := Unfragmentable(d).value, PastHopByHop(d).value;
      L4OfPiece(PastFragment(d, c).value.t, PastFragment(x, Chain(FRAGMENT, u)).value.t, d, u, x, u + 8);
    } else {
      Header4OfPiece(d, 0, len, x);
      L4OfPiece(Header4(d), Header4(x), d, HeaderLen4(d), x, HeaderLen4(x));
    }
  }

  /** Every other piece parses as Later, with the datagram's addresses, protocol and identification. */
  lemma LaterPiece(isV6: bool, d: seq<Byte>, id: nat, units: nat, len: nat, x: seq<Byte>)
    requires IsWhole(isV6, d) && Piece(isV6, d, id, units, len, x) && units > 0
    requires Parse(isV6, d).Some?
    ensures Parse(isV6, x).Some? && Parse(isV6, x).value.t.frag.Later? && !Parse(isV6, x).value.t.hasL4
    ensures SameDatagram(Parse(isV6, d).value.t, Parse(isV6, x).value.t, id)
  {
    if isV6 {
      Header6OfPiece(d, id, units, len, x);
    } else {
      Header4OfPiece(d, units, len, x);
    }
  }

  /** The key every piece of a datagram is tracked under, given the tuple of any of them or of the whole. */
  function PieceKey(ifindex: nat, isV6: bool, t: Tuple, id: nat): FlowKey
    requires TupleFits(t) && id < 0x1_0000_0000
  {
    FragKey(ifindex, isV6, t.(fragId := id))
  }

  /** What encap asks for a packet, its size aside. */
  function Asks(transparent: bool, ifindex: nat, isV6: bool, d: seq<Byte>): Request
    requires Parse(isV6, d).Some?
  {
    ClassifyParsed(transparent, ifindex, isV6, d, Parse(isV6, d).value)
  }

  /** The quote inside a first piece begins the quote inside the datagram. */
  lemma QuoteInPiece(d: seq<Byte>, at: nat, len: nat, x: seq<Byte>, at': nat)
    requires at' + 8 <= |x| && at' + len == |x| && at + len <= |d| && x[at'..] == d[at..at + len]
    ensures x[at' + 8..] <= d[at + 8..]
  {
    assert x[at' + 8..] == x[at'..][8..] == d[at..at + len][8..] == d[at + 8..][..len - 8];
  }

  /**
   The first piece is looked up exactly like the whole datagram would be, and recorded under the key the
   other pieces ask for. Only an ICMP error whose quote does not fit the first piece is refused.
   */
  lemma FirstPieceAsks(transparent: bool, ifindex: nat, isV6: bool, d: seq<Byte>, id: nat, len: nat, x: seq<Byte>)
    requires IsWhole(isV6, d) && Piece(isV6, d, id, 0, len, x)
    ensures Parse(isV6, d).Some? && Parse(isV6, x).Some? && id < 0x1_0000_0000
    ensures var w, y := Parse(isV6, d).value, Parse(isV6, x).value;
            var a := Asks(transparent, ifindex, isV6, x);
            && (QuotesPacket(isV6, w.t) ==> y.l4 + 8 <= |x|)
            && (a.Ask? <==> QuotesPacket(isV6, w.t) ==> Parse(isV6, x[y.l4 + 8..]).Some?)
            && (a.Ask? ==>
                  var b := Asks(transparent, ifindex, isV6, d);
                  b.Ask? && !a.inFrag && !b.inFrag && a.key == b.key && b.record.None? &&
                  a.record == Some(PieceKey(ifindex, isV6, w.t, id)))
  {
    FirstPiece(isV6, d, id, len, x);
    var w, y := Parse(isV6, d).value, Parse(isV6, x).value;
    assert y.t.(fragId := id) == y.t;
    if QuotesPacket(isV6, w.t) {
      QuotingPieceAsks(transparent, ifindex, isV6, d, len, x);
    }
  }

  /** A first piece of an ICMP error, given that it parses like the whole. */
  lemma QuotingPieceAsks(transparent: bool, ifindex: nat, isV6: bool, d: seq<Byte>, len: nat, x: seq<Byte>)
    requires Parse(isV6, d).Some? && Parse(isV6, x).Some?
    requires var w, y := Parse(isV6, d).value, Parse(isV6, x).value;
             && QuotesPacket(isV6, w.t) && y.t == w.t.(frag := First, fragId := y.t.fragId)
             && w.l4 + len <= |d| && y.l4 + len == |x| && x[y.l4..] == d[w.l4..w.l4 + len]
    ensures var w, y := Parse(isV6, d).value, Parse(isV6, x).value;
            && w.l4 + 8 <= |d| && y.l4 + 8 <= |x|
            && (Parse(isV6, x[y.l4 + 8..]).Some? ==> Parse(isV6, d[w.l4 + 8..]) == Parse(isV6, x[y.l4 + 8..]))
  {
    var w, y := Parse(isV6, d).value, Parse(isV6, x).value;
    QuoteInside(isV6, x);
    QuoteInside(isV6, d);
    QuoteInPiece(d, w.l4, len, x, y.l4);
    if Parse(isV6, x[y.l4 + 8..]).Some? {
      ParsePrefix(isV6, x[y.l4 + 8..], d[w.l4 + 8..]);
    }
  }

  /** Every later piece asks frag_state for the key the first piece was recorded under. */
  lemma LaterPieceAsks(transparent: bool, ifindex: nat, isV6: bool, d: seq<Byte>, id: nat, units: nat, len: nat,
                       x: seq<Byte>)
    requires IsWhole(isV6, d) && Piece(isV6, d, id, units, len, x) && units > 0
    requires Parse(isV6, d).Some?
    ensures Parse(isV6, x).Some? && id < 0x1_0000_0000
    ensures Asks(transparent, ifindex, isV6, x)
         == Ask(true, PieceKey(ifindex, isV6, Parse(isV6, d).value.t, id), None)
  {
    LaterPiece(isV6, d, id, units, len, x);
  }

  /**
   An error that quotes a later fragment of a datagram finds the datagram's flow exactly when the flow has
   no ports: a later fragment shows none, and the first fragment stored them.
   */
  lemma QuotedLaterPiece(ifindex: nat, isV6: bool, d: seq<Byte>, id: nat, units: nat, len: nat, x: seq<Byte>)
    requires IsWhole(isV6, d) && Piece(isV6, d, id, units, len, x) && units > 0
    requires Parse(isV6, d).Some?
    ensures Parse(isV6, x).Some?
    ensures var w := Parse(isV6, d).value.t;
            ForwardKey(ifindex, isV6, Parse(isV6, x).value.t) == ForwardKey(ifindex, isV6, w) <==>
              w.sport == 0 && w.dport == 0
  {
    LaterPiece(isV6, d, id, units, len, x);
    LaterHasNoPorts(isV6, x);
  }

  lemma LaterHasNoPorts(isV6: bool, x: seq<Byte>)
    requires Parse(isV6, x).Some? && Parse(isV6, x).value.t.frag.Later?
    ensures Parse(isV6, x).value.t.sport == 0 && Parse(isV6, x).value.t.dport == 0
  {
  }

  /**
   Behind a routing header the parser sees no fragment header. Every piece of such a datagram, the first or not,
   parses exactly like the whole, asks for the same key, and records nothing.
   */
  lemma RoutedPieceAsks(transparent: bool, ifindex: nat, d: seq<Byte>, id: nat, units: nat, len: nat, x: seq<Byte>)
    requires |d| >= 40 && RoutedPart(d).Some? && RoutedPart(d).value.end <= |d|
    requires PieceAfter(d, RoutedPart(d).value.end, RoutedPart(d).value.last, id, units, len, x)
    ensures Parse(true, d).Some? && Parse(true, x) == Parse(true, d)
    ensures var a := Asks(transparent, ifindex, true, x);
            a == Asks(transparent, ifindex, true, d) && a.Ask? && !a.inFrag && a.record.None?
  {
    assert PastHopByHop(x) == PastHopByHop(d);
    assert x[8..24] == d[8..24] && x[24..40] == d[24..40];
  }
}
