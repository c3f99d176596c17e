/**
 * MongoDB ObjectIds as the controllers see them: a 12-byte value, written
 * as 24 hexadecimal digits. `IdString` is `ObjectId.toString()` (lower-case
 * digits); `Cast` is how Mongoose casts a route parameter to an ObjectId in
 * `findById` and `$push`: exactly 24 hexadecimal digits, in either case.
 * Other accepted input forms are not part of this model.
 */
module ObjectIds {
  import opened Wrappers

  const Width := 24

  function Pow16(k: nat): (r: nat)
    ensures r >= 1
  {
    if k == 0 then 1 else 16 * Pow16(k - 1)
  }

  /** Twelve bytes: 16^24 values. */
  type ObjectId = n: nat | n < Pow16(Width)

  predicate IsHexDigit(c: char) {
    '0' <= c <= '9' || 'a' <= c <= 'f' || 'A' <= c <= 'F'
  }

  predicate IsLowerHexDigit(c: char) {
    '0' <= c <= '9' || 'a' <= c <= 'f'
  }

  predicate AllHex(s: string) {
    forall i :: 0 <= i < |s| ==> IsHexDigit(s[i])
  }

  /** The spelling `toString()` produces: 24 lower-case hexadecimal digits. */
  predicate IsCanonical(s: string) {
    |s| == Width && forall i :: 0 <= i < |s| ==> IsLowerHexDigit(s[i])
  }

  function DigitValue(c: char): (v: nat)
    requires IsHexDigit(c)
    ensures v < 16
  {
    if '0' <= c <= '9' then c as int - '0' as int
    else if 'a' <= c <= 'f' then c as int - 'a' as int + 10
    else c as int - 'A' as int + 10
  }

  function HexDigit(v: nat): (c: char)
    requires v < 16
    ensures IsLowerHexDigit(c) && IsHexDigit(c) && DigitValue(c) == v
  {
    if v < 10 then ('0' as int + v) as char else ('a' as int + v - 10) as char
  }

  /** `n` written with exactly `width` digits, most significant first. */
  function ToHex(n: nat, width: nat): (s: string)
    ensures |s| == width && forall i :: 0 <= i < |s| ==> IsLowerHexDigit(s[i])
  {
    if width == 0 then [] else ToHex(n / 16, width - 1) + [HexDigit(n % 16)]
  }

  /** The value of a string of hexadecimal digits, most significant first. */
  function ParseHex(s: string): (n: nat)
    requires AllHex(s)
    ensures n < Pow16(|s|)
  {
    if s == [] then 0
    else
      var p := ParseHex(s[..|s| - 1]);
      assert p * 16 <= (Pow16(|s| - 1) - 1) * 16;
      p * 16 + DigitValue(s[|s| - 1])
  }

  /** `ObjectId.toString()`. */
  function IdString(id: ObjectId): (s: string)
    ensures IsCanonical(s)
  {
    ToHex(id, Width)
  }

  /** Casting a string to an ObjectId; `None` is the cast error. */
  function Cast(s: string): (r: Option<ObjectId>)
    ensures r.Some? <==> |s| == Width && AllHex(s)
  {
    if |s| == Width && AllHex(s) then Some(ParseHex(s)) else None
  }

  lemma {:induction false} ParseToHex(n: nat, width: nat)
    requires n < Pow16(width)
    ensures AllHex(ToHex(n, width)) && ParseHex(ToHex(n, width)) == n
  {
    if width > 0 {
      var s := ToHex(n, width);
      ParseToHex(n / 16, width - 1);
      assert s[..|s| - 1] == ToHex(n / 16, width - 1);
    }
  }

  lemma {:induction false} ToHexParse(s: string)
    requires forall i :: 0 <= i < |s| ==> IsLowerHexDigit(s[i])
    ensures AllHex(s) && ToHex(ParseHex(s), |s|) == s
  {
    if s != [] {
      var p, c := s[..|s| - 1], s[|s| - 1];
      ToHexParse(p);
      var n := ParseHex(s);
      assert n / 16 == ParseHex(p) && n % 16 == DigitValue(c);
      assert HexDigit(DigitValue(c)) == c;
      assert s == p + [c];
    }
  }

  /** Casting the string `toString()` gives back the same id. */
  lemma CastIdString(id: ObjectId)
    ensures Cast(IdString(id)) == Some(id)
  {
    ParseToHex(id, Width);
  }

  /** Every canonical string is the `toString()` of the id it casts to. */
  lemma CanonicalIsIdString(s: string)
    requires IsCanonical(s)
    ensures Cast(s).Some? && IdString(Cast(s).value) == s
  {
    ToHexParse(s);
  }

  /** Two ids with the same `toString()` are the same id. */
  lemma IdStringInjective(a: ObjectId, b: ObjectId)
    requires IdString(a) == IdString(b)
    ensures a == b
  {
    CastIdString(a);
    CastIdString(b);
  }

  function Zeros(k: nat): (s: string)
    ensures |s| == k
  {
    if k == 0 then [] else Zeros(k - 1) + ['0']
  }

  lemma {:induction false} ZerosAreZero(k: nat)
    ensures ToHex(0, k) == Zeros(k)
    ensures AllHex(Zeros(k)) && ParseHex(Zeros(k)) == 0
  {
    if k > 0 {
      ZerosAreZero(k - 1);
      assert Zeros(k)[..k - 1] == Zeros(k - 1);
    }
  }

  /** A small id, written once as `toString()` does and once with an upper-case last digit. */
  lemma UpperCaseSpelling()
    ensures IdString(10) == Zeros(Width - 1) + ['a']
    ensures Cast(Zeros(Width - 1) + ['A']) == Some(10)
    ensures Zeros(Width - 1) + ['A'] != IdString(10)
  {
    ZerosAreZero(Width - 1);
    var upper := Zeros(Width - 1) + ['A'];
    assert upper[..Width - 1] == Zeros(Width - 1);
    assert upper[Width - 1] != IdString(10)[Width - 1];
  }
}
