// Percent-encoding of a URI component (RFC 3986, section 2.1), over strings of UTF-16
// code units: each code point goes through UTF-8.
module PercentEncoding {
  import opened Basics

  type CodeUnit = n: int | 0 <= n < 0x10000

  type Text = seq<CodeUnit>

  type Byte = n: int | 0 <= n < 0x100

  const PERCENT: CodeUnit := 37

  predicate IsHighSurrogate(u: CodeUnit) { 0xD800 <= u < 0xDC00 }

  predicate IsLowSurrogate(u: CodeUnit) { 0xDC00 <= u < 0xE000 }

  predicate IsAlphanumeric(u: CodeUnit) {
    48 <= u <= 57 || 65 <= u <= 90 || 97 <= u <= 122
  }

  // A letter, a digit, or one of - _ . ! ~ * ' ( ).
  predicate Unreserved(u: CodeUnit) {
    IsAlphanumeric(u) || u in {45, 95, 46, 33, 126, 42, 39, 40, 41}
  }

  // Every surrogate is half of a pair.
  predicate WellFormed(t: Text) {
    if t == [] then true
    else if IsHighSurrogate(t[0]) then |t| >= 2 && IsLowSurrogate(t[1]) && WellFormed(t[2..])
    else !IsLowSurrogate(t[0]) && WellFormed(t[1..])
  }

  predicate IsScalar(cp: int) {
    0 <= cp < 0x110000 && !(0xD800 <= cp < 0xE000)
  }

  // How many units the first code point takes.
  function Width(t: Text): nat
    requires t != [] && WellFormed(t)
  {
    if IsHighSurrogate(t[0]) then 2 else 1
  }

  function PairPoint(high: int, low: int): (cp: int)
    requires 0xD800 <= high < 0xDC00 <= low < 0xE000
    ensures 0x10000 <= cp < 0x110000
  {
    0x10000 + (high - 0xD800) * 0x400 + (low - 0xDC00)
  }

  function FirstPoint(t: Text): (cp: int)
    requires t != [] && WellFormed(t)
    ensures IsScalar(cp)
  {
    if IsHighSurrogate(t[0]) then PairPoint(t[0], t[1]) else t[0]
  }

  function Units(cp: int): Text
    requires IsScalar(cp)
  {
    if cp < 0x10000 then [cp] else [0xD800 + (cp - 0x10000) / 0x400, 0xDC00 + (cp - 0x10000) % 0x400]
  }

  lemma UnitsOfFirstPoint(t: Text)
    requires t != [] && WellFormed(t)
    ensures Units(FirstPoint(t)) == t[..Width(t)]
  {
  }

  function HexDigit(n: int): (u: CodeUnit)
    requires 0 <= n < 16
  {
    if n < 10 then 48 + n else 55 + n
  }

  function FromHex(u: CodeUnit): Option<int> {
    if 48 <= u <= 57 then Some(u - 48)
    else if 65 <= u <= 70 then Some(u - 55)
    else if 97 <= u <= 102 then Some(u - 87)
    else None
  }

  function Escape(b: Byte): (t: Text)
    ensures |t| == 3
  {
    [PERCENT, HexDigit(b / 16), HexDigit(b % 16)]
  }

  function Escape1(cp: int): Text
    requires 0 <= cp < 0x80
  {
    Escape(cp)
  }

  function Escape2(cp: int): Text
    requires 0x80 <= cp < 0x800
  {
    Escape(0xC0 + cp / 0x40) + Escape(0x80 + cp % 0x40)
  }

  function Escape3(cp: int): Text
    requires 0x800 <= cp < 0x10000
  {
    Escape(0xE0 + cp / 0x40 / 0x40) + Escape(0x80 + cp / 0x40 % 0x40) + Escape(0x80 + cp % 0x40)
  }

  function Escape4(cp: int): Text
    requires 0x10000 <= cp < 0x110000
  {
    Escape(0xF0 + cp / 0x40 / 0x40 / 0x40) + Escape(0x80 + cp / 0x40 / 0x40 % 0x40) + Escape(0x80 + cp / 0x40 % 0x40)
    + Escape(0x80 + cp % 0x40)
  }

  function EscapePoint(cp: int): Text
    requires IsScalar(cp)
  {
    if cp < 0x80 then Escape1(cp)
    else if cp < 0x800 then Escape2(cp)
    else if cp < 0x10000 then Escape3(cp)
    else Escape4(cp)
  }

  datatype Component = Component(text: Text) | UriError

  function Prepend(t: Text, c: Component): Component {
    match c
    case UriError => UriError
    case Component(rest) => Component(t + rest)
  }

  function EncodeURIComponent(t: Text): Component {
    if t == [] then Component([])
    else if Unreserved(t[0]) then Prepend([t[0]], EncodeURIComponent(t[1..]))
    else if IsLowSurrogate(t[0]) then UriError
    else if !IsHighSurrogate(t[0]) then Prepend(EscapePoint(t[0]), EncodeURIComponent(t[1..]))
    else if |t| < 2 || !IsLowSurrogate(t[1]) then UriError
    else Prepend(EscapePoint(PairPoint(t[0], t[1])), EncodeURIComponent(t[2..]))
  }

  // The byte escaped at the start of s.
  function EscapedByte(s: Text): Option<int> {
    if |s| < 3 || s[0] != PERCENT then None
    else
      match (FromHex(s[1]), FromHex(s[2]))
      case (Some(high), Some(low)) => Some(high * 16 + low)
      case _ => None
  }

  function Continuation(s: Text): Option<int> {
    match EscapedByte(s)
    case Some(b) => if 0x80 <= b < 0xC0 then Some(b - 0x80) else None
    case None => None
  }

  // The code point escaped at the start of s and the units it takes there.
  function EscapedPoint(s: Text): (r: Option<(int, nat)>)
    ensures r.Some? ==> IsScalar(r.value.0) && 3 <= r.value.1 <= |s|
  {
    match EscapedByte(s)
    case None => None
    case Some(b) =>
      if b < 0x80 then Some((b, 3))
      else if b < 0xC0 then None
      else if b < 0xE0 then
        if |s| < 6 then None
        else
          match Continuation(s[3..])
          case Some(c1) =>
            var cp := (b - 0xC0) * 0x40 + c1;
            if 0x80 <= cp then Some((cp, 6)) else None
          case None => None
      else if b < 0xF0 then
        if |s| < 9 then None
        else
          match (Continuation(s[3..]), Continuation(s[6..]))
          case (Some(c1), Some(c2)) =>
            var cp := (b - 0xE0) * 0x1000 + c1 * 0x40 + c2;
            if 0x800 <= cp && IsScalar(cp) then Some((cp, 9)) else None
          case _ => None
      else if b < 0xF8 then
        if |s| < 12 then None
        else
          match (Continuation(s[3..]), Continuation(s[6..]), Continuation(s[9..]))
          case (Some(c1), Some(c2), Some(c3)) =>
            var cp := (b - 0xF0) * 0x40000 + c1 * 0x1000 + c2 * 0x40 + c3;
            if 0x10000 <= cp && IsScalar(cp) then Some((cp, 12)) else None
          case _ => None
      else None
  }

  function DecodeURIComponent(s: Text): Component
    decreases |s|
  {
    if s == [] then Component([])
    else if s[0] != PERCENT then Prepend([s[0]], DecodeURIComponent(s[1..]))
    else
      match EscapedPoint(s)
      case None => UriError
      case Some(p) => Prepend(Units(p.0), DecodeURIComponent(s[p.1..]))
  }

  // ---------- the round trip ----------

  lemma EscapedByteOf(b: Byte, rest: Text)
    ensures EscapedByte(Escape(b) + rest) == Some(b)
    ensures (Escape(b) + rest)[3..] == rest
  {
  }

  lemma Escaped2(cp: int, rest: Text)
    requires 0x80 <= cp < 0x800
    ensures EscapedPoint(Escape2(cp) + rest) == Some((cp, 6)) && (Escape2(cp) + rest)[6..] == rest
  {
    var first, second := 0xC0 + cp / 0x40, 0x80 + cp % 0x40;
    var s := Escape2(cp) + rest;
    assert s == Escape(first) + (Escape(second) + rest);
    EscapedByteOf(first, Escape(second) + rest);
    EscapedByteOf(second, rest);
    assert s[3..] == Escape(second) + rest;
  }

  lemma Escaped3(cp: int, rest: Text)
    requires 0x800 <= cp < 0x10000 && IsScalar(cp)
    ensures EscapedPoint(Escape3(cp) + rest) == Some((cp, 9)) && (Escape3(cp) + rest)[9..] == rest
  {
    hide Escape;
    var b0, b1, b2 := 0xE0 + cp / 0x40 / 0x40, 0x80 + cp / 0x40 % 0x40, 0x80 + cp % 0x40;
    var s := Escape3(cp) + rest;
    assert s == Escape(b0) + (Escape(b1) + (Escape(b2) + rest));
    EscapedByteOf(b0, Escape(b1) + (Escape(b2) + rest));
    EscapedByteOf(b1, Escape(b2) + rest);
    EscapedByteOf(b2, rest);
    assert s[3..] == Escape(b1) + (Escape(b2) + rest);
    assert s[6..] == Escape(b2) + rest;
  }

  lemma Escaped4(cp: int, rest: Text)
    requires 0x10000 <= cp < 0x110000
    ensures EscapedPoint(Escape4(cp) + rest) == Some((cp, 12)) && (Escape4(cp) + rest)[12..] == rest
  {
    hide Escape;
    var b0, b1, b2 := 0xF0 + cp / 0x40 / 0x40 / 0x40, 0x80 + cp / 0x40 / 0x40 % 0x40, 0x80 + cp / 0x40 % 0x40;
    var b3 := 0x80 + cp % 0x40;
    var s := Escape4(cp) + rest;
    assert s == Escape(b0) + (Escape(b1) + (Escape(b2) + (Escape(b3) + rest)));
    EscapedByteOf(b0, Escape(b1) + (Escape(b2) + (Escape(b3) + rest)));
    EscapedByteOf(b1, Escape(b2) + (Escape(b3) + rest));
    EscapedByteOf(b2, Escape(b3) + rest);
    EscapedByteOf(b3, rest);
    assert s[3..] == Escape(b1) + (Escape(b2) + (Escape(b3) + rest));
    assert s[6..] == Escape(b2) + (Escape(b3) + rest);
    assert s[9..] == Escape(b3) + rest;
  }

  lemma EscapedPointOf(cp: int, rest: Text)
    requires IsScalar(cp)
    ensures EscapedPoint(EscapePoint(cp) + rest) == Some((cp, |EscapePoint(cp)|))
    ensures (EscapePoint(cp) + rest)[|EscapePoint(cp)|..] == rest
    ensures EscapePoint(cp) != [] && EscapePoint(cp)[0] == PERCENT
  {
    if cp < 0x80 {
      EscapedByteOf(cp, rest);
    } else if cp < 0x800 {
      Escaped2(cp, rest);
    } else if cp < 0x10000 {
      Escaped3(cp, rest);
    } else {
      Escaped4(cp, rest);
    }
  }

  // What encoding yields for one code point and the rest.
  lemma EncodeFirst(t: Text)
    requires t != [] && WellFormed(t)
    ensures WellFormed(t[Width(t)..])
    ensures EncodeURIComponent(t)
         == Prepend(if Unreserved(t[0]) then [t[0]] else EscapePoint(FirstPoint(t)), EncodeURIComponent(t[Width(t)..]))
  {
  }

  // Encoding fails on a lone surrogate and on nothing else, and what it yields decodes to what was encoded.
  lemma {:induction false} EncodingRoundTrips(t: Text)
    ensures EncodeURIComponent(t).Component? <==> WellFormed(t)
    ensures EncodeURIComponent(t).Component? ==> DecodeURIComponent(EncodeURIComponent(t).text) == Component(t)
    decreases |t|
  {
    hide EscapedPoint, EscapePoint, Units;
    if t == [] {
    } else if WellFormed(t) {
      var rest := t[Width(t)..];
      EncodeFirst(t);
      EncodingRoundTrips(rest);
      var tail := EncodeURIComponent(rest).text;
      UnitsOfFirstPoint(t);
      assert t == t[..Width(t)] + rest;
      if Unreserved(t[0]) {
        assert ([t[0]] + tail)[1..] == tail;
        assert t[..Width(t)] == [t[0]];
      } else {
        EscapedPointOf(FirstPoint(t), tail);
        assert (EscapePoint(FirstPoint(t)) + tail)[0] == PERCENT;
      }
    } else if IsHighSurrogate(t[0]) {
      if |t| >= 2 && IsLowSurrogate(t[1]) {
        EncodingRoundTrips(t[2..]);
      }
    } else if !IsLowSurrogate(t[0]) {
      EncodingRoundTrips(t[1..]);
    }
  }

  // A character that percent-encoding leaves in its output.
  predicate IsEncoded(u: CodeUnit) {
    Unreserved(u) || u == PERCENT
  }

  lemma EscapeIsEncoded(cp: int)
    requires IsScalar(cp)
    ensures forall u | u in EscapePoint(cp) :: IsEncoded(u)
  {
    forall n: int | 0 <= n < 16 ensures IsEncoded(HexDigit(n)) {
    }
  }

  lemma {:induction false} EncodingIsPlain(t: Text)
    requires EncodeURIComponent(t).Component?
    ensures forall u | u in EncodeURIComponent(t).text :: IsEncoded(u)
    decreases |t|
  {
    hide EscapePoint;
    EncodingRoundTrips(t);
    if t != [] {
      EncodeFirst(t);
      EncodingIsPlain(t[Width(t)..]);
      EscapeIsEncoded(FirstPoint(t));
    }
  }

  // A letter or a digit, or a mark that RFC 3986 does not reserve, or one that older rules left alone.
  ghost predicate NeedsNoEscape(u: CodeUnit) {
    || 48 <= u <= 57 || 65 <= u <= 90 || 97 <= u <= 122
    || u == 45 || u == 46 || u == 95 || u == 126
    || u == 33 || u == 39 || u == 40 || u == 41 || u == 42
  }

  // What needs no escape begins the encoding as it is; anything else begins it with a percent sign.
  lemma EscapesExactly(t: Text)
    requires t != [] && WellFormed(t)
    ensures EncodeURIComponent(t).Component? && EncodeURIComponent(t).text != []
    ensures EncodeURIComponent(t).text[0] == if NeedsNoEscape(t[0]) then t[0] else PERCENT
  {
    EncodingRoundTrips(t);
    EncodingRoundTrips(t[Width(t)..]);
  }
}
