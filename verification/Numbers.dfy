/** Decimal text: the number parsers and CRLF search of src/wish/util.rs, and the
    decimal printing the program takes from the itoa crate. */
module Numbers {
  import opened Bytes

  const I32_MAX: int := 0x7fff_ffff
  const I64_MAX: int := 0x7fff_ffff_ffff_ffff
  const I64_MIN: int := -0x8000_0000_0000_0000
  const U64_MAX: int := 0xffff_ffff_ffff_ffff
  const USIZE_MAX: int := U64_MAX

  predicate IsDigit(b: byte) {
    48 <= b <= 57
  }

  predicate AllDigits(s: Bytes) {
    forall i :: 0 <= i < |s| ==> IsDigit(s[i])
  }

  /** The number a digit string denotes, most significant digit first. */
  function Magnitude(s: Bytes): nat
    requires AllDigits(s)
  {
    if s == [] then 0 else Magnitude(s[..|s| - 1]) * 10 + (s[|s| - 1] as int - 48)
  }

  /** What an unsigned parser accepts: a non-empty digit string within the type's range. */
  function ParseNat(s: Bytes, max: nat): Option<nat> {
    if s != [] && AllDigits(s) && Magnitude(s) <= max then Some(Magnitude(s)) else None
  }

  /** What a signed parser accepts. The magnitude is bounded by MAX on both sides of zero. */
  function ParseInt(s: Bytes, max: nat): Option<int> {
    if s != [] && s[0] == MINUS then
      match ParseNat(s[1..], max)
      case Some(n) => Some(-(n as int))
      case None => None
    else
      ParseNat(s, max)
  }

  /** Plain decimal printing of a natural number. */
  function Decimal(n: nat): Bytes {
    if n < 10 then [(48 + n) as byte] else Decimal(n / 10) + [(48 + n % 10) as byte]
  }

  /** Plain decimal printing of an integer. */
  function SignedDecimal(v: int): Bytes {
    if v < 0 then [MINUS] + Decimal(-v) else Decimal(v)
  }

  lemma {:induction false} PrefixMagnitude(s: Bytes, i: nat)
    requires AllDigits(s) && i <= |s|
    ensures AllDigits(s[..i]) && Magnitude(s[..i]) <= Magnitude(s)
    decreases |s|
  {
    if i == |s| {
      assert s[..i] == s;
    } else {
      PrefixMagnitude(s[..|s| - 1], i);
      assert s[..|s| - 1][..i] == s[..i];
    }
  }

  /** The digit loop with checked multiplication and addition. An overflow on a prefix
      already settles the answer for the whole text. */
  method ParseDigits(s: Bytes, start: nat, max: nat) returns (r: Option<nat>)
    requires start < |s|
    ensures r == ParseNat(s[start..], max)
  {
    var result: nat := 0;
    ghost var digits := s[start..];
    for i := start to |s|
      invariant AllDigits(s[start..i])
      invariant result == Magnitude(s[start..i]) <= max
    {
      assert digits[i - start] == s[i];
      if !IsDigit(s[i]) {
        return None;
      }
      assert s[start..i + 1][..i - start] == s[start..i];
      assert digits[..i + 1 - start] == s[start..i + 1];
      if AllDigits(digits) {
        PrefixMagnitude(digits, i + 1 - start);
      }
      if result * 10 > max {
        return None;
      }
      if result * 10 + (s[i] as int - 48) > max {
        return None;
      }
      result := result * 10 + (s[i] as int - 48);
    }
    assert s[start..|s|] == digits;
    return Some(result);
  }

  /** bytes_to_u64 and bytes_to_usize. */
  method BytesToUnsigned(bytes: Bytes, max: nat) returns (r: Option<nat>)
    ensures r == ParseNat(bytes, max)
  {
    if |bytes| == 0 {
      return None;
    }
    r := ParseDigits(bytes, 0, max);
  }

  /** bytes_to_i32 and bytes_to_i64. */
  method BytesToSigned(bytes: Bytes, max: nat) returns (r: Option<int>)
    ensures r == ParseInt(bytes, max)
  {
    if |bytes| == 0 {
      return None;
    }
    var isNeg := bytes[0] == MINUS;
    var start := if isNeg then 1 else 0;
    if |bytes| == start {
      return None;
    }
    var magnitude := ParseDigits(bytes, start, max);
    match magnitude {
      case None => return None;
      case Some(n) => return Some(if isNeg then -(n as int) else n);
    }
  }

  lemma {:induction false} DecimalDenotes(n: nat)
    ensures Decimal(n) != [] && AllDigits(Decimal(n)) && Magnitude(Decimal(n)) == n
  {
    if n >= 10 {
      DecimalDenotes(n / 10);
      var d := Decimal(n);
      assert d[..|d| - 1] == Decimal(n / 10);
    } else {
      assert Decimal(n)[..0] == [];
    }
  }

  /** Reading back printed decimals: exactly the values between -max and max come back,
      so a type's MIN, one below -MAX, is refused. */
  lemma ParsePrinted(v: int, max: nat)
    ensures ParseInt(SignedDecimal(v), max) == if -(max as int) <= v <= max then Option<int>.Some(v) else None
  {
    if v < 0 {
      ParsePrintedNat(-v, max);
      assert SignedDecimal(v)[1..] == Decimal(-v);
    } else {
      ParsePrintedNat(v, max);
    }
  }

  lemma ParsePrintedNat(n: nat, max: nat)
    ensures ParseNat(Decimal(n), max) == if n <= max then Some(n) else None
    ensures Decimal(n) != [] && Decimal(n)[0] != MINUS
  {
    DecimalDenotes(n);
    assert IsDigit(Decimal(n)[0]);
  }

  function Zeros(n: nat): Bytes {
    seq(n, i => 48)
  }

  /** A digit string is the decimal text of what it denotes, behind leading zeros. */
  lemma {:induction false} DigitsAreDecimal(s: Bytes) returns (z: nat)
    requires s != [] && AllDigits(s)
    ensures s == Zeros(z) + Decimal(Magnitude(s))
    decreases |s|
  {
    var p, d := s[..|s| - 1], s[|s| - 1] as int - 48;
    assert s == p + [s[|s| - 1]];
    if p == [] {
      z := 0;
    } else {
      var y := DigitsAreDecimal(p);
      z := if Magnitude(p) == 0 then y + 1 else y;
      if Magnitude(p) == 0 {
        assert Zeros(y) + [48] == Zeros(y + 1);
      }
    }
  }

  lemma {:induction false} LeadingZeros(z: nat, n: nat)
    ensures var s := Zeros(z) + Decimal(n); s != [] && AllDigits(s) && Magnitude(s) == n
    decreases z + n
  {
    var s := Zeros(z) + Decimal(n);
    DecimalDenotes(n);
    if n >= 10 {
      LeadingZeros(z, n / 10);
      assert s[..|s| - 1] == Zeros(z) + Decimal(n / 10);
    } else if z > 0 {
      LeadingZeros(z - 1, 0);
      assert s[..|s| - 1] == Zeros(z - 1) + Decimal(0);
    } else {
      assert s == Decimal(n);
    }
  }

  /** The texts an unsigned parser accepts: exactly the decimal texts of the type's values, with any number of
      zeros in front. */
  lemma AcceptsDecimalTexts(s: Bytes, max: nat, n: nat)
    ensures ParseNat(s, max) == Some(n) <==> n <= max && exists z: nat :: s == Zeros(z) + Decimal(n)
  {
    if ParseNat(s, max) == Some(n) {
      var z := DigitsAreDecimal(s);
      assert s == Zeros(z) + Decimal(n);
    }
    if z: nat :| s == Zeros(z) + Decimal(n) {
      LeadingZeros(z, n);
    }
  }

  /** And a signed parser those, and those of their negatives behind a minus. Minus zero is zero. */
  lemma AcceptsSignedTexts(s: Bytes, max: nat, n: int)
    ensures ParseInt(s, max) == Some(n) <==>
            || (0 <= n <= max && exists z: nat :: s == Zeros(z) + Decimal(n))
            || (-(max as int) <= n <= 0 && exists z: nat :: s == [MINUS] + (Zeros(z) + Decimal(-n)))
  {
    if s != [] && s[0] == MINUS {
      if n <= 0 {
        AcceptsDecimalTexts(s[1..], max, -n);
        assert s == [MINUS] + s[1..];
      }
      forall z: nat, k: nat ensures s != Zeros(z) + Decimal(k) {
        LeadingZeros(z, k);
      }
    } else if n >= 0 {
      AcceptsDecimalTexts(s, max, n);
    }
  }

  /** find_crlf: the first position of the two-byte line end. */
  function FindCrlf(s: Bytes): (r: Option<nat>)
    ensures r.Some? ==> r.value + 1 < |s| && s[r.value] == CR && s[r.value + 1] == LF
    ensures r.Some? ==> forall j :: 0 <= j < r.value ==> !(s[j] == CR && s[j + 1] == LF)
    ensures r.None? ==> forall j :: 0 <= j < |s| - 1 ==> !(s[j] == CR && s[j + 1] == LF)
  {
    if |s| < 2 then None
    else if s[0] == CR && s[1] == LF then Some(0)
    else match FindCrlf(s[1..])
      case Some(i) => Some(i + 1)
      case None => None
  }

  /** A line whose content has no carriage return ends exactly at its own CRLF. */
  lemma {:induction false} CrlfAfterLine(line: Bytes, rest: Bytes)
    requires forall i :: 0 <= i < |line| ==> line[i] != CR
    ensures FindCrlf(line + CRLF + rest) == Some(|line|)
  {
    var s := line + CRLF + rest;
    assert s[|line|] == CR && s[|line| + 1] == LF;
    assert forall j :: 0 <= j < |line| ==> s[j] == line[j];
  }
}
