/** Endpoint IDs and interface names (cmd/utils.go), printed and parsed. */
module Names {
  import opened Bytes
  import opened Positional

  const ID_LIMIT := 0x1_0000_0000_0000_0000

  type Id = v: nat | v < ID_LIMIT

  // ---- Endpoint IDs ----

  function HexChar(d: nat): char
    requires d < 16
  {
    if d < 10 then ('0' as int + d) as char else ('a' as int + d - 10) as char
  }

  function HexValue(c: char): (d: Option<nat>)
    ensures d.Some? ==> d.value < 16
  {
    if '0' <= c <= '9' then Some(c as int - '0' as int)
    else if 'a' <= c <= 'f' then Some(c as int - 'a' as int + 10)
    else if 'A' <= c <= 'F' then Some(c as int - 'A' as int + 10)
    else None
  }

  function HexString(ds: seq<nat>): (s: string)
    requires IsDigits(ds, 16)
    ensures |s| == |ds|
  {
    seq(|ds|, i requires 0 <= i < |ds| => HexChar(ds[i]))
  }

  predicate IsHex(s: string) {
    forall i :: 0 <= i < |s| ==> HexValue(s[i]).Some?
  }

  function HexDigits(s: string): (ds: seq<nat>)
    requires IsHex(s)
    ensures |ds| == |s| && IsDigits(ds, 16)
  {
    seq(|s|, i requires 0 <= i < |s| => HexValue(s[i]).value)
  }

  /** strconv.ParseUint in base 16 at 64 bits. */
  function ParseUint(s: string): Option<nat> {
    if s == "" || !IsHex(s) || Eval(HexDigits(s), 16) >= ID_LIMIT then None
    else Some(Eval(HexDigits(s), 16))
  }

  const VPCE_PREFIX := "vpce-"

  function ParseVPCEID(s: string): (id: Option<nat>)
    ensures id.Some? ==> id.value < ID_LIMIT
  {
    if !(VPCE_PREFIX <= s) || (|s| != 5 + 17 && |s| != 5 + 8) then None
    else ParseUint(s[5..])
  }

  /** Padding with zeroes on the left to `width`, cutting nothing. */
  function Padded(ds: seq<nat>, width: nat): (r: seq<nat>)
    ensures Eval(r, 16) == Eval(ds, 16) && Eval(r, 256) == Eval(ds, 256)
    ensures |r| == if |ds| < width then width else |ds|
  {
    var n := if |ds| < width then width - |ds| else 0;
    EvalPadded(n, ds, 16);
    EvalPadded(n, ds, 256);
    Noughts(n) + ds
  }

  function FormatVPCEID(id: Id): string {
    VPCE_PREFIX + HexString(Padded(Minimal(id, 16), if id <= 0xFFFF_FFFF then 8 else 17))
  }

  function LowerChar(c: char): char {
    if 'A' <= c <= 'F' then (c as int + 32) as char else c
  }

  function Lower(s: string): (r: string)
    ensures |r| == |s|
  {
    seq(|s|, i requires 0 <= i < |s| => LowerChar(s[i]))
  }

  lemma HexRoundTrip(ds: seq<nat>)
    requires IsDigits(ds, 16)
    ensures IsHex(HexString(ds)) && HexDigits(HexString(ds)) == ds
  {
  }

  lemma HexLowers(s: string)
    requires IsHex(s)
    ensures HexString(HexDigits(s)) == Lower(s)
  {
  }

  /** The printed form has exactly 8 or 17 digits: no ID is cut and none overflows its width. */
  lemma FormatWidth(id: Id)
    ensures |FormatVPCEID(id)| == 5 + if id < 0x1_0000_0000 then 8 else 17
  {
    PowerOf16();
    MinimalFits(id, 16, if id < 0x1_0000_0000 then 8 else 16);
  }

  /** Parsing the printed form returns the ID, for every 64-bit value. */
  lemma ParsesAsPrinted(id: Id)
    ensures ParseVPCEID(FormatVPCEID(id)) == Some(id)
  {
    FormatWidth(id);
    var ds := Padded(Minimal(id, 16), if id <= 0xFFFF_FFFF then 8 else 17);
    HexRoundTrip(ds);
    assert FormatVPCEID(id)[5..] == HexString(ds);
  }

  lemma {:induction false} EvalFront(d: nat, ds: seq<nat>, base: nat)
    ensures Eval([d] + ds, base) == d * Power(base, |ds|) + Eval(ds, base)
    decreases |ds|
  {
    var all := [d] + ds;
    if ds == [] {
      assert all[..0] == [];
    } else {
      var n := |ds| - 1;
      assert all[..|all| - 1] == [d] + ds[..n];
      EvalFront(d, ds[..n], base);
      Distribute(d, Power(base, n), Eval(ds[..n], base), base);
    }
  }

  lemma Distribute(d: nat, p: nat, e: nat, base: nat)
    ensures (d * p + e) * base == d * (base * p) + e * base
  {
  }

  lemma TopDigit(d: nat, p: nat, e: nat)
    requires e < p
    ensures d * p + e < p <==> d == 0
  {
    if d > 0 {
      Scale(1, d, p);
    }
  }

  /** Seventeen digits are 68 bits: they fit in 64 exactly when the first is zero. */
  lemma SeventeenDigits(ds: seq<nat>)
    requires |ds| == 17 && IsDigits(ds, 16)
    ensures Eval(ds, 16) < ID_LIMIT <==> ds[0] == 0
  {
    var rest := ds[1..];
    assert ds == [ds[0]] + rest;
    EvalFront(ds[0], rest, 16);
    EvalBound(rest, 16);
    PowerOf16();
    TopDigit(ds[0], Power(16, |rest|), Eval(rest, 16));
  }

  lemma PowerOf16()
    ensures Power(16, 8) == 0x1_0000_0000 && Power(16, 16) == ID_LIMIT
  {
  }

  /** Exactly these spellings are accepted: 8 hex digits, or 17 that begin with zero, in either case. */
  lemma AcceptedSpellings(s: string)
    ensures ParseVPCEID(s).Some? <==>
              && VPCE_PREFIX <= s && IsHex(s[5..])
              && (|s| == 5 + 8 || (|s| == 5 + 17 && s[5] == '0'))
  {
    if VPCE_PREFIX <= s && IsHex(s[5..]) {
      var hex := s[5..];
      if |hex| == 17 {
        SeventeenDigits(HexDigits(hex));
      } else if |hex| == 8 {
        EvalBound(HexDigits(hex), 16);
        PowerOf16();
      }
    }
  }

  /**
   Printing a parsed ID is canonical: it reads back as the same ID, and is the accepted spelling itself in
   lower case unless that gave a 32-bit ID in 17 digits.
   */
  lemma PrintsCanonically(s: string)
    requires ParseVPCEID(s).Some?
    ensures var c := FormatVPCEID(ParseVPCEID(s).value);
            && ParseVPCEID(c) == ParseVPCEID(s)
            && (c == VPCE_PREFIX + Lower(s[5..]) <==> |s| == 5 + 8 || ParseVPCEID(s).value >= 0x1_0000_0000)
  {
    var id, hex := ParseVPCEID(s).value, s[5..];
    var c := FormatVPCEID(id);
    ParsesAsPrinted(id);
    FormatWidth(id);
    if |s| == |c| {
      var ds := Padded(Minimal(id, 16), if id <= 0xFFFF_FFFF then 8 else 17);
      EvalInjective(ds, HexDigits(hex), 16);
      HexLowers(hex);
    }
    if |s| == 5 + 8 {
      EvalBound(HexDigits(hex), 16);
      PowerOf16();
    }
  }

  // ---- Interface names ----

  /** base58's alphabet leaves out 0, I, O and l. */
  function Char58(d: nat): char
    requires d < 58
  {
    if d < 9 then ('1' as int + d) as char
    else if d < 17 then ('A' as int + d - 9) as char
    else if d < 22 then ('J' as int + d - 17) as char
    else if d < 33 then ('P' as int + d - 22) as char
    else if d < 44 then ('a' as int + d - 33) as char
    else ('m' as int + d - 44) as char
  }

  function Value58(c: char): (d: Option<nat>)
    ensures d.Some? ==> d.value < 58 && Char58(d.value) == c
  {
    if '1' <= c <= '9' then Some(c as int - '1' as int)
    else if 'A' <= c <= 'H' then Some(c as int - 'A' as int + 9)
    else if 'J' <= c <= 'N' then Some(c as int - 'J' as int + 17)
    else if 'P' <= c <= 'Z' then Some(c as int - 'P' as int + 22)
    else if 'a' <= c <= 'k' then Some(c as int - 'a' as int + 33)
    else if 'm' <= c <= 'z' then Some(c as int - 'm' as int + 44)
    else None
  }

  function String58(ds: seq<nat>): (s: string)
    requires IsDigits(ds, 58)
    ensures |s| == |ds|
  {
    seq(|ds|, i requires 0 <= i < |ds| => Char58(ds[i]))
  }

  predicate Is58(s: string) {
    forall i :: 0 <= i < |s| ==> Value58(s[i]).Some?
  }

  function Digits58(s: string): (ds: seq<nat>)
    requires Is58(s)
    ensures |ds| == |s| && IsDigits(ds, 58) && String58(ds) == s
  {
    seq(|s|, i requires 0 <= i < |s| => Value58(s[i]).value)
  }

  lemma CharRoundTrip58(d: nat)
    requires d < 58
    ensures Value58(Char58(d)) == Some(d)
  {
  }

  lemma RoundTrip58(ds: seq<nat>)
    requires IsDigits(ds, 58)
    ensures Is58(String58(ds)) && Digits58(String58(ds)) == ds
  {
    forall i | 0 <= i < |ds|
      ensures Value58(String58(ds)[i]) == Some(ds[i])
    {
      CharRoundTrip58(ds[i]);
    }
  }

  /** base58.Encode. */
  function Encode58(buf: seq<nat>): string {
    String58(Rebase(buf, 256, 58))
  }

  /** base58.Decode. */
  function Decode58(s: string): Option<seq<nat>> {
    if s == "" || !Is58(s) then None else Some(Rebase(Digits58(s), 58, 256))
  }

  /** The eight octets of an ID, most significant first. */
  function PutUint64(id: Id): (buf: seq<nat>)
    ensures |buf| == 8 && IsDigits(buf, 256) && Eval(buf, 256) == id
  {
    assert Power(256, 8) == ID_LIMIT;
    MinimalFits(id, 256, 8);
    Padded(Minimal(id, 256), 8)
  }

  function Prefix(inner: bool): string {
    if inner then "gwlb" else "gxdp"
  }

  function FormatInterfaceName(id: Id, inner: bool): string {
    Prefix(inner) + Encode58(PutUint64(id))
  }

  function DecodeId(suffix: string): Option<nat> {
    match Decode58(suffix)
    case None => None
    case Some(buf) => if |buf| != 8 then None else Some(Eval(buf, 256))
  }

  function ParseInterfaceName(name: string): Option<nat> {
    if Prefix(true) <= name then DecodeId(name[4..])
    else if Prefix(false) <= name then DecodeId(name[4..])
    else None
  }

  lemma NothingRebased(from: nat, to: nat)
    requires to >= 2
    ensures Rebase([], from, to) == []
  {
  }

  /** base58 gives back every non-empty string of octets. */
  lemma Base58RoundTrip(buf: seq<nat>)
    requires buf != [] && IsDigits(buf, 256)
    ensures Decode58(Encode58(buf)) == Some(buf)
  {
    var ds := Rebase(buf, 256, 58);
    RoundTrip58(ds);
    RebaseBack(buf, 256, 58);
    NothingRebased(58, 256);
  }

  lemma DecodesAsEncoded(id: Id)
    ensures DecodeId(Encode58(PutUint64(id))) == Some(id)
  {
    Base58RoundTrip(PutUint64(id));
  }

  /** Nothing else decodes to the ID. */
  lemma EncodesAsDecoded(s: string, id: Id)
    requires DecodeId(s) == Some(id)
    ensures s == Encode58(PutUint64(id))
  {
    var ds := Digits58(s);
    var buf := Rebase(ds, 58, 256);
    EvalInjective(buf, PutUint64(id), 256);
    RebaseBack(ds, 58, 256);
  }

  lemma NameParts(id: Id, inner: bool)
    ensures FormatInterfaceName(id, inner)[..4] == Prefix(inner)
    ensures FormatInterfaceName(id, inner)[4..] == Encode58(PutUint64(id))
    ensures Prefix(true)[1] != Prefix(false)[1]
  {
  }

  /** An interface name decodes to an ID exactly when it is one of the two names of that ID's veth pair. */
  lemma NamesOfId(name: string, id: Id)
    ensures ParseInterfaceName(name) == Some(id) <==>
              name == FormatInterfaceName(id, true) || name == FormatInterfaceName(id, false)
  {
    DecodesAsEncoded(id);
    NameParts(id, true);
    NameParts(id, false);
    if ParseInterfaceName(name) == Some(id) {
      EncodesAsDecoded(name[4..], id);
      assert name == name[..4] + name[4..];
    }
  }

  /** Names are distinct across IDs and ends. */
  lemma NamesDistinct(a: Id, b: Id, inner: bool, inner': bool)
    requires FormatInterfaceName(a, inner) == FormatInterfaceName(b, inner')
    ensures a == b && inner == inner'
  {
    NamesOfId(FormatInterfaceName(a, inner), a);
    NamesOfId(FormatInterfaceName(b, inner'), b);
    NameParts(a, inner);
    NameParts(b, inner');
  }

  /** Eleven base58 digits for eight octets, leading zeroes included. */
  lemma EightOctetsFit(buf: seq<nat>)
    requires |buf| == 8 && IsDigits(buf, 256)
    ensures |Rebase(buf, 256, 58)| <= 11
  {
    var n := Leading(buf);
    assert buf == Noughts(n) + buf[n..];
    EvalPadded(n, buf[n..], 256);
    EvalBound(buf[n..], 256);
    PowersCompare(8 - n);
    MinimalFits(Eval(buf, 256), 58, 11 - n);
  }

  /** A name never exceeds 15 characters. */
  lemma NameFits(id: Id, inner: bool)
    ensures |FormatInterfaceName(id, inner)| <= 15
  {
    EightOctetsFit(PutUint64(id));
  }

  lemma PowersCompare(k: nat)
    requires k <= 8
    ensures Power(256, k) <= Power(58, k + 3)
  {
    assert Power(256, 8) <= Power(58, 11) && Power(256, 7) <= Power(58, 10) && Power(256, 6) <= Power(58, 9);
    assert Power(256, 5) <= Power(58, 8) && Power(256, 4) <= Power(58, 7) && Power(256, 3) <= Power(58, 6);
    assert Power(256, 2) <= Power(58, 5) && Power(256, 1) <= Power(58, 4) && Power(256, 0) <= Power(58, 3);
  }
}
