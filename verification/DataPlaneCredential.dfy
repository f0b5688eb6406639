// A data-plane credential: the first 16 bytes of a keyed hash, laid out as a version 4
// UUID (RFC 4122, section 4.4).
module DataPlaneCredential {
  import opened Basics
  import opened PercentEncoding

  const DASH: CodeUnit := 45

  function LowerHex(n: bv8): (u: CodeUnit)
  {
    if n == 0 then 48 else if n == 1 then 49 else if n == 2 then 50 else if n == 3 then 51
    else if n == 4 then 52 else if n == 5 then 53 else if n == 6 then 54 else if n == 7 then 55
    else if n == 8 then 56 else if n == 9 then 57 else if n == 10 then 97 else if n == 11 then 98
    else if n == 12 then 99 else if n == 13 then 100 else if n == 14 then 101 else 102
  }

  predicate IsLowerHex(u: CodeUnit) {
    48 <= u <= 57 || 97 <= u <= 102
  }

  function HighDigit(b: bv8): CodeUnit { LowerHex(b >> 4) }

  function LowDigit(b: bv8): CodeUnit { LowerHex(b & 0x0f) }

  function Hex(bytes: seq<bv8>): (t: Text)
    ensures |t| == 2 * |bytes|
    ensures forall i | 0 <= i < |t| :: t[i] == if i % 2 == 0 then HighDigit(bytes[i / 2]) else LowDigit(bytes[i / 2])
  {
    seq(2 * |bytes|, i requires 0 <= i < 2 * |bytes| =>
      if i % 2 == 0 then HighDigit(bytes[i / 2]) else LowDigit(bytes[i / 2]))
  }

  // Groups of 8, 4, 4, 4 and 12 hexadecimal digits; the third begins with the version,
  // the fourth with the variant.
  predicate CredentialShape(t: Text) {
    && |t| == 36
    && (forall i | 0 <= i < 36 :: if i in {8, 13, 18, 23} then t[i] == DASH else IsLowerHex(t[i]))
    && t[14] == 52
    && t[19] in {56, 57, 97, 98}
  }

  function Grouped(hex: Text): Text
    requires |hex| == 32
  {
    hex[..8] + [DASH] + hex[8..12] + [DASH] + hex[12..16] + [DASH] + hex[16..20] + [DASH] + hex[20..]
  }

  function Stamped(digest: seq<bv8>): seq<bv8>
    requires |digest| == 16
  {
    digest[6 := (digest[6] & 0x0f) | 0x40][8 := (digest[8] & 0x3f) | 0x80]
  }

  lemma StampIsVersionFour(b: bv8)
    ensures HighDigit((b & 0x0f) | 0x40) == 52
    ensures HighDigit((b & 0x3f) | 0x80) in {56, 57, 97, 98}
  {
  }

  lemma HexDigits(bytes: seq<bv8>, i: nat)
    requires i < 2 * |bytes|
    ensures IsLowerHex(Hex(bytes)[i])
  {
    hide Hex;
  }

  lemma GroupedShape(hex: Text)
    requires |hex| == 32 && (forall i | 0 <= i < 32 :: IsLowerHex(hex[i]))
    requires hex[12] == 52 && hex[16] in {56, 57, 97, 98}
    ensures CredentialShape(Grouped(hex))
  {
    hide IsLowerHex;
  }

  // Whatever the hash, the credential has the shape that route rendering demands.
  lemma DerivedHasShape(digest: seq<bv8>)
    requires |digest| == 16
    ensures CredentialShape(Grouped(Hex(Stamped(digest))))
  {
    var hex := Hex(Stamped(digest));
    StampIsVersionFour(digest[6]);
    StampIsVersionFour(digest[8]);
    forall i | 0 <= i < 32 ensures IsLowerHex(hex[i]) {
      HexDigits(Stamped(digest), i);
    }
    hide HighDigit, LowDigit, IsLowerHex, Grouped, CredentialShape;
    assert hex[12] == HighDigit(Stamped(digest)[6]);
    assert hex[16] == HighDigit(Stamped(digest)[8]);
    GroupedShape(hex);
  }

  method DeriveDataPlaneCredential(mac: array<bv8>) returns (credential: Text)
    requires mac.Length == 32
    modifies mac
    ensures mac[..16] == Stamped(old(mac[..16])) && mac[16..] == old(mac[16..])
    ensures credential == Grouped(Hex(Stamped(old(mac[..16]))))
    ensures CredentialShape(credential)
  {
    hide LowerHex, Hex;
    ghost var digest := mac[..16];
    mac[6] := (mac[6] & 0x0f) | 0x40;
    mac[8] := (mac[8] & 0x3f) | 0x80;
    assert mac[..16] == Stamped(digest);
    DerivedHasShape(digest);
    credential := Grouped(Hex(mac[..16]));
  }

  // ---------- reading a credential ----------

  // The digits without the dashes.
  function Ungrouped(t: Text): Text {
    if t == [] then [] else (if t[0] == DASH then [] else [t[0]]) + Ungrouped(t[1..])
  }

  // The number that each pair of hexadecimal digits writes.
  function Octets(hex: Text): Option<seq<int>> {
    if |hex| < 2 then if hex == [] then Some([]) else None
    else
      match (FromHex(hex[0]), FromHex(hex[1]), Octets(hex[2..]))
      case (Some(high), Some(low), Some(rest)) => Some([16 * high + low] + rest)
      case _ => None
  }

  // The bytes as numbers.
  function Numbers(bytes: seq<bv8>): seq<int> {
    seq(|bytes|, i requires 0 <= i < |bytes| => bytes[i] as int)
  }

  lemma DigitsWriteByte(b: bv8)
    ensures FromHex(HighDigit(b)).Some? && FromHex(LowDigit(b)).Some?
    ensures 16 * FromHex(HighDigit(b)).value + FromHex(LowDigit(b)).value == b as int
  {
  }

  lemma {:induction false} HexWritesBytes(bytes: seq<bv8>)
    ensures Octets(Hex(bytes)) == Some(Numbers(bytes))
  {
    hide HighDigit, LowDigit, FromHex;
    if bytes != [] {
      assert Hex(bytes)[2..] == Hex(bytes[1..]);
      HexWritesBytes(bytes[1..]);
      DigitsWriteByte(bytes[0]);
      assert Numbers(bytes) == [bytes[0] as int] + Numbers(bytes[1..]);
    } else {
      assert Numbers(bytes) == [];
    }
  }

  lemma {:induction false} UngroupedParts(a: Text, b: Text)
    requires DASH !in a
    ensures Ungrouped(a + b) == a + Ungrouped(b)
  {
    if a == [] {
      assert a + b == b;
    } else {
      assert (a + b)[1..] == a[1..] + b && a == [a[0]] + a[1..];
      UngroupedParts(a[1..], b);
    }
  }

  lemma DashIsDropped(t: Text)
    ensures Ungrouped([DASH] + t) == Ungrouped(t)
  {
    assert ([DASH] + t)[1..] == t;
  }

  lemma UngroupedGrouped(hex: Text)
    requires |hex| == 32 && DASH !in hex
    ensures Ungrouped(Grouped(hex)) == hex
  {
    hide Ungrouped;
    var a, b, c, d, e := hex[..8], hex[8..12], hex[12..16], hex[16..20], hex[20..];
    var afterC := d + ([DASH] + e);
    var afterB := c + ([DASH] + afterC);
    var afterA := b + ([DASH] + afterB);
    assert Grouped(hex) == a + ([DASH] + afterA);
    UngroupedParts(a, [DASH] + afterA);
    DashIsDropped(afterA);
    UngroupedParts(b, [DASH] + afterB);
    DashIsDropped(afterB);
    UngroupedParts(c, [DASH] + afterC);
    DashIsDropped(afterC);
    UngroupedParts(d, [DASH] + e);
    DashIsDropped(e);
    UngroupedParts(e, []);
    assert e + [] == e && Ungrouped([]) == [] by {
      NothingGrouped();
    }
    assert hex == a + (b + (c + (d + e)));
  }

  lemma NothingGrouped()
    ensures Ungrouped([]) == []
  {
  }

  // The version takes the upper four bits of the seventh byte, the variant the upper two of the ninth.
  ghost function StampedNumber(digest: seq<bv8>, i: nat): int
    requires i < |digest|
  {
    if i == 6 then 64 + digest[6] as int % 16
    else if i == 8 then 128 + digest[8] as int % 64
    else digest[i] as int
  }

  lemma StampsVersion(b: bv8)
    ensures ((b & 0x0f) | 0x40) as int == 64 + b as int % 16
  {
  }

  lemma StampsVariant(b: bv8)
    ensures ((b & 0x3f) | 0x80) as int == 128 + b as int % 64
  {
  }

  // The digits of a credential are those of the sixteen stamped bytes of the hash.
  lemma CredentialReadsBack(digest: seq<bv8>)
    requires |digest| == 16
    ensures Octets(Ungrouped(Grouped(Hex(Stamped(digest)))))
         == Some(seq(16, i requires 0 <= i < 16 => StampedNumber(digest, i)))
  {
    hide Hex, LowerHex, Octets;
    var hex := Hex(Stamped(digest));
    forall i | 0 <= i < 32 ensures hex[i] != DASH {
      HexDigits(Stamped(digest), i);
    }
    UngroupedGrouped(hex);
    HexWritesBytes(Stamped(digest));
    StampsVersion(digest[6]);
    StampsVariant(digest[8]);
    assert Numbers(Stamped(digest)) == seq(16, i requires 0 <= i < 16 => StampedNumber(digest, i));
  }
}
