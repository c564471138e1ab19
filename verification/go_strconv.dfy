/** Go's `strconv.ParseInt(s, 10, 32)`, which `parseArgs` uses to read the
    seconds argument: an optional sign, then decimal digits, within the signed
    32-bit range. */
module GoStrconv {
  import opened Wrappers

  /** The error kinds `ParseInt` reports. */
  datatype NumError = ErrSyntax | ErrRange

  /** Largest value of a 32-bit unsigned parse (`1<<32 - 1`). */
  const MaxUint32: int := 0xFFFF_FFFF
  /** `1 << 31`: one past the largest signed 32-bit value, and minus the least. */
  const Int32Cutoff: int := 0x8000_0000

  predicate IsDigit(c: char)
  {
    '0' <= c <= '9'
  }

  function DigitValue(c: char): nat
    requires IsDigit(c)
  {
    (c as int) - ('0' as int)
  }

  predicate AllDigits(s: string)
  {
    forall i :: 0 <= i < |s| ==> IsDigit(s[i])
  }

  /** The number a string of decimal digits denotes, most significant first. */
  function DecimalValue(s: string): nat
    requires AllDigits(s)
    decreases |s|
  {
    if |s| == 0 then 0 else DecimalValue(s[..|s| - 1]) * 10 + DigitValue(s[|s| - 1])
  }

  /** The digit loop of `ParseUint` for base 10 and 32 bits, from position `i`
      with `n` accumulated so far: a non-digit is a syntax error, and the
      loop stops with a range error as soon as the value passes `1<<32 - 1`,
      even if a non-digit follows. */
  function ParseUintFrom(s: string, i: nat, n: nat): Result<nat, NumError>
    requires i <= |s|
    decreases |s| - i
  {
    if i == |s| then Ok(n)
    else if !IsDigit(s[i]) then Err(ErrSyntax)
    else
      var n1 := n * 10 + DigitValue(s[i]);
      if n1 > MaxUint32 then Err(ErrRange) else ParseUintFrom(s, i + 1, n1)
  }

  /** `strconv.ParseUint(s, 10, 32)`. */
  function ParseUint(s: string): Result<nat, NumError>
  {
    if s == "" then Err(ErrSyntax) else ParseUintFrom(s, 0, 0)
  }

  /** Some leading run of digits of `s`, ending after position `i`, already
      denotes more than `1<<32 - 1`. */
  predicate OverflowsAfter(s: string, i: nat)
  {
    exists k :: i < k <= |s| && AllDigits(s[..k]) && DecimalValue(s[..k]) > MaxUint32
  }

  lemma DecimalValueStep(s: string, k: nat)
    requires k < |s| && AllDigits(s[..k + 1])
    ensures AllDigits(s[..k])
    ensures DecimalValue(s[..k + 1]) == DecimalValue(s[..k]) * 10 + DigitValue(s[k])
  {
    assert s[..k + 1][..k] == s[..k];
  }

  /** A longer run of digits never denotes less. */
  lemma {:induction false} DecimalValueMonotone(s: string, j: nat, k: nat)
    requires j <= k <= |s| && AllDigits(s[..k])
    ensures AllDigits(s[..j]) && DecimalValue(s[..j]) <= DecimalValue(s[..k])
    decreases k - j
  {
    assert forall m :: 0 <= m < j ==> s[..j][m] == s[..k][m];
    if j < k {
      assert forall m :: 0 <= m < k - 1 ==> s[..k - 1][m] == s[..k][m];
      DecimalValueStep(s, k - 1);
      DecimalValueMonotone(s, j, k - 1);
    }
  }

  /** The loop succeeds exactly when the rest of the string is digits and the
      whole denotes at most `1<<32 - 1`, and yields that value; it stops with a
      range error exactly when some leading run of digits overflows. */
  lemma {:induction false} ParseUintFromSpec(s: string, i: nat)
    requires i <= |s| && AllDigits(s[..i]) && DecimalValue(s[..i]) <= MaxUint32
    ensures var r := ParseUintFrom(s, i, DecimalValue(s[..i]));
      && (r.Ok? <==> AllDigits(s) && DecimalValue(s) <= MaxUint32)
      && (r.Ok? ==> r.value == DecimalValue(s))
      && (r == Err(ErrRange) <==> OverflowsAfter(s, i))
    decreases |s| - i
  {
    var n := DecimalValue(s[..i]);
    var r := ParseUintFrom(s, i, n);
    if i == |s| {
      assert s[..i] == s;
      assert !OverflowsAfter(s, i);
    } else if !IsDigit(s[i]) {
      assert !AllDigits(s);
      assert !OverflowsAfter(s, i) by {
        forall k | i < k <= |s| ensures !AllDigits(s[..k]) {
          assert s[..k][i] == s[i];
        }
      }
    } else {
      assert AllDigits(s[..i + 1]) by {
        assert s[..i + 1] == s[..i] + [s[i]];
      }
      DecimalValueStep(s, i);
      var n1 := n * 10 + DigitValue(s[i]);
      if n1 > MaxUint32 {
        assert r == Err(ErrRange);
        assert OverflowsAfter(s, i) by {
          assert AllDigits(s[..i + 1]) && DecimalValue(s[..i + 1]) > MaxUint32;
        }
        if AllDigits(s) {
          assert s[..|s|] == s;
          DecimalValueMonotone(s, i + 1, |s|);
        }
      } else {
        ParseUintFromSpec(s, i + 1);
        assert OverflowsAfter(s, i) <==> OverflowsAfter(s, i + 1) by {
          if OverflowsAfter(s, i) {
            var k :| i < k <= |s| && AllDigits(s[..k]) && DecimalValue(s[..k]) > MaxUint32;
            assert k != i + 1;
          }
        }
      }
    }
  }

  /** `ParseUint` accepts exactly the non-empty digit strings denoting at most
      `1<<32 - 1`, and returns the number they denote. */
  lemma ParseUintSpec(s: string)
    ensures ParseUint(s).Ok? <==> s != "" && AllDigits(s) && DecimalValue(s) <= MaxUint32
    ensures ParseUint(s).Ok? ==> ParseUint(s).value == DecimalValue(s)
    ensures ParseUint(s) == Err(ErrRange) <==> OverflowsAfter(s, 0)
  {
    if s != "" {
      assert s[..0] == "";
      ParseUintFromSpec(s, 0);
    } else {
      assert !OverflowsAfter(s, 0);
    }
  }

  /** A leading `+` or `-`. */
  predicate HasSign(s: string)
  {
    |s| > 0 && (s[0] == '+' || s[0] == '-')
  }

  /** What follows the sign. */
  function Magnitude(s: string): string
  {
    if HasSign(s) then s[1..] else s
  }

  /** An optional sign followed by at least one decimal digit. */
  predicate IsDecimalInt(s: string)
  {
    Magnitude(s) != "" && AllDigits(Magnitude(s))
  }

  /** The integer such a string denotes. */
  function IntValue(s: string): int
    requires IsDecimalInt(s)
  {
    if s[0] == '-' then -(DecimalValue(Magnitude(s)) as int) else DecimalValue(Magnitude(s))
  }

  /** `strconv.ParseInt(s, 10, 32)`: strip the sign, parse the magnitude as an
      unsigned number (a range error there reads as the largest magnitude),
      then check the signed 32-bit range. */
  function ParseInt32(s: string): Result<int, NumError>
  {
    if s == "" then Err(ErrSyntax)
    else
      var neg := s[0] == '-';
      match ParseUint(Magnitude(s))
      case Err(ErrSyntax) => Err(ErrSyntax)
      case u =>
        var un := if u.Ok? then u.value else MaxUint32;
        if !neg && un >= Int32Cutoff then Err(ErrRange)
        else if neg && un > Int32Cutoff then Err(ErrRange)
        else Ok(if neg then -un else un)
  }

  /** `ParseInt` accepts exactly a signed decimal integer in
      `[-2147483648, 2147483647]` and returns its value; a well-formed number
      outside that range is a range error. */
  lemma ParseInt32Spec(s: string)
    ensures ParseInt32(s).Ok? <==> IsDecimalInt(s) && -Int32Cutoff <= IntValue(s) < Int32Cutoff
    ensures ParseInt32(s).Ok? ==> ParseInt32(s).value == IntValue(s)
    ensures IsDecimalInt(s) && !(-Int32Cutoff <= IntValue(s) < Int32Cutoff) ==> ParseInt32(s) == Err(ErrRange)
  {
    ParseUintSpec(Magnitude(s));
    if IsDecimalInt(s) && DecimalValue(Magnitude(s)) > MaxUint32 {
      assert Magnitude(s)[..|Magnitude(s)|] == Magnitude(s);
      assert OverflowsAfter(Magnitude(s), 0);
    }
  }
}
