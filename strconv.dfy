/** Go's `strconv.ParseUint(s, 10, 64)`: a strict base-10 parse into an
    unsigned 64-bit integer, with the error kind the scan meets first. */
module Strconv {
  import opened Outcomes

  const MaxUint64: nat := 0xFFFF_FFFF_FFFF_FFFF

  type Uint64 = x: nat | x <= MaxUint64

  /** `strconv.ErrSyntax` and `strconv.ErrRange`. */
  datatype NumErrorKind = ErrSyntax | ErrRange

  /** `strconv.NumError`: the text that failed and why. */
  datatype NumError = NumError(num: string, err: NumErrorKind)

  predicate IsDigit(c: char) {
    '0' <= c <= '9'
  }

  function DigitValue(c: char): (d: nat)
    requires IsDigit(c)
    ensures d < 10
  {
    c as int - '0' as int
  }

  predicate AllDigits(s: string) {
    forall i :: 0 <= i < |s| ==> IsDigit(s[i])
  }

  /** The positional value of a string of decimal digits (leading zeros
      allowed, the empty string is 0). */
  function DecimalValue(s: string): nat
    requires AllDigits(s)
  {
    if s == [] then 0 else DecimalValue(s[..|s| - 1]) * 10 + DigitValue(s[|s| - 1])
  }

  /** The length of the longest prefix of `s` made of digits. */
  function DigitRun(s: string): (k: nat)
    ensures k <= |s| && AllDigits(s[..k])
    ensures k < |s| ==> !IsDigit(s[k])
    decreases |s|
  {
    if s == [] || !IsDigit(s[0]) then 0
    else
      var k := DigitRun(s[1..]);
      assert s[..k + 1] == [s[0]] + s[1..][..k];
      k + 1
  }

  /** The digit loop of `ParseUint`, one byte at a time, with `n` the value
      read so far. The library's two overflow tests (`n >= cutoff` before the
      multiplication, and the wrap-around test `n1 < n` after the addition)
      together fail exactly when `n * 10 + d` exceeds the 64-bit maximum. */
  function ScanDecimal(rest: string, n: Uint64): Result<Uint64, NumErrorKind>
    decreases |rest|
  {
    if rest == [] then Ok(n)
    else if !IsDigit(rest[0]) then Err(ErrSyntax)
    else if n * 10 + DigitValue(rest[0]) > MaxUint64 then Err(ErrRange)
    else ScanDecimal(rest[1..], n * 10 + DigitValue(rest[0]))
  }

  /** Extending a string of digits never lowers its value. */
  lemma {:induction false} DecimalValueMonotone(s: string, a: nat, b: nat)
    requires a <= b <= |s| && AllDigits(s[..b])
    ensures AllDigits(s[..a]) && DecimalValue(s[..a]) <= DecimalValue(s[..b])
    decreases b
  {
    assert forall i :: 0 <= i < a ==> s[..a][i] == s[..b][i];
    if a < b {
      assert s[..b][..b - 1] == s[..b - 1];
      assert AllDigits(s[..b - 1]) by {
        assert forall i :: 0 <= i < b - 1 ==> s[..b - 1][i] == s[..b][i];
      }
      DecimalValueMonotone(s, a, b - 1);
    }
  }

  /** What `ParseUint` returns on the whole of `s`, stated through the digit
      run at its head: an overflow inside the run wins over a bad byte after
      it, and a bad byte over success. */
  function ParseUintOutcome(s: string): Result<Uint64, NumErrorKind>
  {
    var k := DigitRun(s);
    if s == [] then Err(ErrSyntax)
    else if DecimalValue(s[..k]) > MaxUint64 then Err(ErrRange)
    else if k < |s| then Err(ErrSyntax)
    else assert s[..k] == s; Ok(DecimalValue(s))
  }

  /** Scanning from any point inside the digit run, having read the value of
      the prefix, ends in the outcome stated above. */
  lemma {:induction false} ScanDecimalFrom(s: string, j: nat)
    requires s != [] && j <= DigitRun(s) && DecimalValue(s[..j]) <= MaxUint64
    ensures ScanDecimal(s[j..], DecimalValue(s[..j])) == ParseUintOutcome(s)
    decreases |s| - j
  {
    var k := DigitRun(s);
    if j == |s| {
      assert s[..j] == s;
    } else if j == k {
      assert s[j..][0] == s[j];
    } else {
      DigitRunStep(s, j);
      var next := DecimalValue(s[..j]) * 10 + DigitValue(s[j]);
      if next > MaxUint64 {
        DecimalValueMonotone(s, j + 1, k);
      } else {
        ScanDecimalFrom(s, j + 1);
      }
    }
  }

  /** One more digit inside the digit run: the prefix read grows by it. */
  lemma DigitRunStep(s: string, j: nat)
    requires j < DigitRun(s)
    ensures s[j..] != [] && s[j..][0] == s[j] && IsDigit(s[j]) && s[j..][1..] == s[j + 1..]
    ensures AllDigits(s[..j]) && AllDigits(s[..j + 1])
    ensures DecimalValue(s[..j + 1]) == DecimalValue(s[..j]) * 10 + DigitValue(s[j])
  {
    var k := DigitRun(s);
    assert s[..k][j] == s[j];
    DigitsPrefix(s[..k], j + 1);
    assert s[..k][..j + 1] == s[..j + 1];
    assert s[..j + 1][..j] == s[..j];
  }

  lemma DigitsPrefix(t: string, m: nat)
    requires AllDigits(t) && m <= |t|
    ensures AllDigits(t[..m])
  {
    assert forall i :: 0 <= i < m ==> t[..m][i] == t[i];
  }

  /** `strconv.ParseUint(s, 10, 64)`. It succeeds exactly on a non-empty
      string of ASCII digits whose value fits in 64 bits, and then returns
      that value; a failure names the text and the kind the scan met first. */
  function ParseUint(s: string): (r: Result<Uint64, NumError>)
    ensures r.Ok? <==> s != [] && AllDigits(s) && DecimalValue(s) <= MaxUint64
    ensures r.Ok? ==> r.value == DecimalValue(s)
    ensures r.Err? ==> r.error.num == s
    ensures r.Err? ==> r.error.err == ParseUintOutcome(s).error
  {
    if s == [] then Err(NumError(s, ErrSyntax))
    else
      assert s[..0] == [];
      ScanDecimalFrom(s, 0);
      assert s[0..] == s;
      assert AllDigits(s) ==> DigitRun(s) == |s| && s[..|s|] == s;
      match ScanDecimal(s, 0)
      case Ok(v) => Ok(v)
      case Err(kind) => Err(NumError(s, kind))
  }

  /** Appending a digit shifts the value one decimal place. */
  lemma DecimalValueSnoc(s: string, c: char)
    requires AllDigits(s) && IsDigit(c)
    ensures AllDigits(s + [c]) && DecimalValue(s + [c]) == DecimalValue(s) * 10 + DigitValue(c)
  {
    assert (s + [c])[..|s|] == s;
  }
}
