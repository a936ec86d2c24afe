/** The `getRandomValues` branch of the UUID generator: sixteen random bytes have
    their version and variant bits forced as section 4.4 of RFC 4122 prescribes
    for a version-4 UUID, and are rendered as 36 lowercase characters in the
    8-4-4-4-12 layout. The bytes the random source produces are a parameter. */
module Uuid {
  import opened Domain

  predicate IsLowerHex(c: char) {
    '0' <= c <= '9' || 'a' <= c <= 'f'
  }

  /** The lowercase digit of a number below 16. */
  function DigitOf(n: nat): (c: char)
    requires n < 16
    ensures IsLowerHex(c)
  {
    if n < 10 then ('0' as int + n) as char else ('a' as int + n - 10) as char
  }

  /** The lowercase digit of one nibble. */
  function HexDigit(n: bv8): (c: char)
    requires n < 16
    ensures IsLowerHex(c)
  {
    DigitOf(n as int)
  }

  /** The nibble a lowercase hex digit stands for. */
  function HexValue(c: char): (n: bv8)
    ensures n < 16
    ensures IsLowerHex(c) ==> HexDigit(n) == c
  {
    if '0' <= c <= '9' then (c as int - '0' as int) as bv8
    else if 'a' <= c <= 'f' then (c as int - 'a' as int + 10) as bv8
    else 0
  }

  lemma HexValueOfDigit(n: bv8)
    requires n < 16
    ensures HexValue(HexDigit(n)) == n
  {
  }

  /** `n.toString(16)`: base-16 digits, lowercase, no leading zeros. */
  function ToStringRadix16(n: nat): string
    decreases n
  {
    if n < 16 then [DigitOf(n)] else ToStringRadix16(n / 16) + [DigitOf(n % 16)]
  }

  /** `s.padStart(width, fill)` for a one-character fill. */
  function PadStart(s: string, width: nat, fill: char): string {
    if |s| >= width then s else seq(width - |s|, _ => fill) + s
  }

  /** `b.toString(16).padStart(2, "0")`. */
  function ByteToHex(b: bv8): string {
    PadStart(ToStringRadix16(b as int), 2, '0')
  }

  /** Each byte becomes exactly two zero-padded lowercase digits, high nibble first. */
  lemma ByteToHexDigits(b: bv8)
    ensures ByteToHex(b) == [HexDigit(b >> 4), HexDigit(b & 0x0f)]
  {
    var n := b as int;
    assert (b >> 4) as int == n / 16;
    assert (b & 0x0f) as int == n % 16;
    assert HexDigit(b >> 4) == DigitOf(n / 16) && HexDigit(b & 0x0f) == DigitOf(n % 16);
    if n >= 16 {
      assert ToStringRadix16(n / 16) == [DigitOf(n / 16)];
    }
  }

  /** The byte values after the version nibble (byte 6) and variant bits (byte 8)
      are forced. */
  function Stamp(bytes: seq<bv8>): (r: seq<bv8>)
    requires |bytes| == 16
    ensures |r| == 16
    ensures r[6] >> 4 == 4 && r[6] & 0x0f == bytes[6] & 0x0f
    ensures r[8] >> 6 == 2 && r[8] & 0x3f == bytes[8] & 0x3f
    ensures forall k :: 0 <= k < 16 && k != 6 && k != 8 ==> r[k] == bytes[k]
  {
    bytes[6 := (bytes[6] & 0x0f) | 0x40][8 := (bytes[8] & 0x3f) | 0x80]
  }

  /** Stamping bytes that are already stamped changes nothing. */
  lemma StampIdempotent(bytes: seq<bv8>)
    requires |bytes| == 16
    ensures Stamp(Stamp(bytes)) == Stamp(bytes)
  {
  }

  /** The in-place update of the `Uint8Array`. */
  method SetVersionAndVariant(bytes: array<bv8>)
    requires bytes.Length == 16
    modifies bytes
    ensures bytes[..] == Stamp(old(bytes[..]))
  {
    bytes[6] := (bytes[6] & 0x0f) | 0x40; // version 4
    bytes[8] := (bytes[8] & 0x3f) | 0x80; // variant 10
  }

  /** `Array.from(bytes, b => ...)`: the two-digit text of every byte. */
  function HexOf(bytes: seq<bv8>): (hex: seq<string>)
    ensures |hex| == |bytes|
  {
    seq(|bytes|, k requires 0 <= k < |bytes| => ByteToHex(bytes[k]))
  }

  /** The five dash-separated groups, concatenated digit pair by digit pair as the
      source writes it. */
  function Join(hex: seq<string>): string
    requires |hex| == 16
  {
    hex[0] + hex[1] + hex[2] + hex[3] + "-" +
    hex[4] + hex[5] + "-" +
    hex[6] + hex[7] + "-" +
    hex[8] + hex[9] + "-" +
    hex[10] + hex[11] + hex[12] + hex[13] + hex[14] + hex[15]
  }

  /** The text rendering of sixteen bytes. */
  function Format(bytes: seq<bv8>): string
    requires |bytes| == 16
  {
    Join(HexOf(bytes))
  }

  predicate IsDashPosition(i: int) {
    i == 8 || i == 13 || i == 18 || i == 23
  }

  /** Where the two digits of byte k start in the 36-character text. */
  function HexPosition(k: nat): (p: nat)
    requires k < 16
    ensures p + 1 < 36 && !IsDashPosition(p) && !IsDashPosition(p + 1)
  {
    2 * k + (if k >= 4 then 1 else 0) + (if k >= 6 then 1 else 0)
          + (if k >= 8 then 1 else 0) + (if k >= 10 then 1 else 0)
  }

  /** Which byte the character at a non-dash position renders. */
  function ByteAt(i: nat): (k: nat)
    requires i < 36 && !IsDashPosition(i)
    ensures k < 16 && (i == HexPosition(k) || i == HexPosition(k) + 1)
  {
    var j := i - (if i > 8 then 1 else 0) - (if i > 13 then 1 else 0)
              - (if i > 18 then 1 else 0) - (if i > 23 then 1 else 0);
    j / 2
  }

  /** The canonical text shape: 36 characters, dashes at 8, 13, 18 and 23,
      lowercase hex digits everywhere else. */
  predicate WellFormed(s: string) {
    && |s| == 36
    && forall i :: 0 <= i < 36 ==> if IsDashPosition(i) then s[i] == '-' else IsLowerHex(s[i])
  }

  /** The byte whose high nibble is `hi` and whose low nibble is `lo`. */
  function JoinNibbles(hi: bv8, lo: bv8): (b: bv8)
    requires hi < 16 && lo < 16
    ensures b >> 4 == hi && b & 0x0f == lo
  {
    (hi << 4) | lo
  }

  /** Reads the sixteen bytes back from a well-formed text. */
  function Decode(s: string): (r: Option<seq<bv8>>)
    ensures r.Some? <==> WellFormed(s)
    ensures r.Some? ==> |r.value| == 16
  {
    if WellFormed(s) then
      Some(seq(16, k requires 0 <= k < 16 =>
        JoinNibbles(HexValue(s[HexPosition(k)]), HexValue(s[HexPosition(k) + 1]))))
    else None
  }

  /** Where each digit pair and each dash lands in the joined text. */
  lemma JoinLayout(hex: seq<string>)
    requires |hex| == 16
    requires forall k :: 0 <= k < 16 ==> |hex[k]| == 2
    ensures |Join(hex)| == 36
    ensures forall i :: 0 <= i < 36 && IsDashPosition(i) ==> Join(hex)[i] == '-'
    ensures forall k :: 0 <= k < 16 ==>
      Join(hex)[HexPosition(k)] == hex[k][0] && Join(hex)[HexPosition(k) + 1] == hex[k][1]
  {
    var s := Join(hex);
    var g1 := hex[0] + hex[1] + hex[2] + hex[3];
    var g2 := g1 + "-" + hex[4] + hex[5];
    var g3 := g2 + "-" + hex[6] + hex[7];
    var g4 := g3 + "-" + hex[8] + hex[9];
    assert s == g4 + "-" + hex[10] + hex[11] + hex[12] + hex[13] + hex[14] + hex[15];
    assert |g1| == 8 && |g2| == 13 && |g3| == 18 && |g4| == 23;
    forall k | 0 <= k < 16
      ensures s[HexPosition(k)] == hex[k][0] && s[HexPosition(k) + 1] == hex[k][1]
    {
      var p := HexPosition(k);
      if k < 4 {
        assert s[p] == g1[p] && s[p + 1] == g1[p + 1];
      } else if k < 6 {
        assert s[p] == g2[p] && s[p + 1] == g2[p + 1];
      } else if k < 8 {
        assert s[p] == g3[p] && s[p + 1] == g3[p + 1];
      } else if k < 10 {
        assert s[p] == g4[p] && s[p + 1] == g4[p + 1];
      }
    }
  }

  /** `s` is the text of `bytes`: dashes in their places, and the two digits of
      byte k, high nibble first, at `HexPosition(k)`. */
  predicate Renders(s: string, bytes: seq<bv8>) {
    && |bytes| == 16
    && |s| == 36
    && (forall i :: 0 <= i < 36 && IsDashPosition(i) ==> s[i] == '-')
    && forall k :: 0 <= k < 16 ==>
         s[HexPosition(k)] == HexDigit(bytes[k] >> 4) && s[HexPosition(k) + 1] == HexDigit(bytes[k] & 0x0f)
  }

  /** The source's rendering puts every dash and every digit pair where it belongs. */
  lemma FormatLayout(bytes: seq<bv8>)
    requires |bytes| == 16
    ensures Renders(Format(bytes), bytes)
  {
    var hex := HexOf(bytes);
    forall k | 0 <= k < 16
      ensures hex[k] == [HexDigit(bytes[k] >> 4), HexDigit(bytes[k] & 0x0f)]
    {
      ByteToHexDigits(bytes[k]);
    }
    JoinLayout(hex);
  }

  lemma RendersWellFormed(s: string, bytes: seq<bv8>)
    requires Renders(s, bytes)
    ensures WellFormed(s)
  {
    forall i | 0 <= i < 36 && !IsDashPosition(i)
      ensures IsLowerHex(s[i])
    {
      var k := ByteAt(i);
    }
  }

  lemma RendersDecode(s: string, bytes: seq<bv8>)
    requires Renders(s, bytes)
    ensures Decode(s) == Some(bytes)
  {
    RendersWellFormed(s, bytes);
    var d := Decode(s).value;
    forall k | 0 <= k < 16
      ensures d[k] == bytes[k]
    {
      HexValueOfDigit(bytes[k] >> 4);
      HexValueOfDigit(bytes[k] & 0x0f);
      assert JoinNibbles(bytes[k] >> 4, bytes[k] & 0x0f) == bytes[k];
    }
    assert d == bytes;
  }

  /** A byte sequence has only one text. */
  lemma RendersUnique(s: string, t: string, bytes: seq<bv8>)
    requires Renders(s, bytes) && Renders(t, bytes)
    ensures s == t
  {
    forall i | 0 <= i < 36
      ensures s[i] == t[i]
    {
      if !IsDashPosition(i) {
        var k := ByteAt(i);
      }
    }
  }

  /** A well-formed text is the text of the bytes it decodes to. */
  lemma WellFormedRenders(s: string)
    requires WellFormed(s)
    ensures Renders(s, Decode(s).value)
  {
    var d := Decode(s).value;
    forall k | 0 <= k < 16
      ensures s[HexPosition(k)] == HexDigit(d[k] >> 4) && s[HexPosition(k) + 1] == HexDigit(d[k] & 0x0f)
    {
      var hi, lo := HexValue(s[HexPosition(k)]), HexValue(s[HexPosition(k) + 1]);
      assert d[k] == JoinNibbles(hi, lo);
    }
  }

  /** The rendering always has the canonical shape. */
  lemma FormatWellFormed(bytes: seq<bv8>)
    requires |bytes| == 16
    ensures WellFormed(Format(bytes))
  {
    FormatLayout(bytes);
    RendersWellFormed(Format(bytes), bytes);
  }

  /** Decoding a rendering gives back the bytes. */
  lemma DecodeFormat(bytes: seq<bv8>)
    requires |bytes| == 16
    ensures Decode(Format(bytes)) == Some(bytes)
  {
    FormatLayout(bytes);
    RendersDecode(Format(bytes), bytes);
  }

  /** Rendering decoded bytes gives back the text: well-formed texts and 16-byte
      sequences correspond one to one. */
  lemma FormatDecode(s: string)
    requires WellFormed(s)
    ensures Format(Decode(s).value) == s
  {
    var d := Decode(s).value;
    WellFormedRenders(s);
    FormatLayout(d);
    RendersUnique(Format(d), s, d);
  }

  /** The `getRandomValues` branch of `uuid()`, given the bytes the random source
      writes into the fresh 16-byte buffer. */
  method UuidFromRandomBytes(random: seq<bv8>) returns (s: string)
    requires |random| == 16
    ensures WellFormed(s)
    ensures s[14] == '4'
    ensures s[19] in "89ab"
    ensures Decode(s) == Some(Stamp(random))
  {
    var bytes := new bv8[16](k requires 0 <= k < 16 => random[k]);
    SetVersionAndVariant(bytes);
    s := Format(bytes[..]);
    var stamped := Stamp(random);
    assert bytes[..] == stamped;
    FormatLayout(stamped);
    RendersWellFormed(s, stamped);
    RendersDecode(s, stamped);
    assert HexPosition(6) == 14 && HexPosition(8) == 19;
    var v := stamped[8] >> 4;
    assert v == 8 || v == 9 || v == 10 || v == 11;
  }
}
