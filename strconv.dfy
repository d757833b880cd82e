/** Go's `strconv.Atoi` as the engine uses it to read array indices from
    pointer tokens, and its inverse on naturals (`strconv.Itoa`), which states
    what Atoi accepts. */
module Strconv {
  import opened Values

  /** The largest and smallest values of Go's 64-bit `int`. */
  const MaxInt: int := 0x7fff_ffff_ffff_ffff
  const MinInt: int := -0x8000_0000_0000_0000

  predicate IsDigit(c: char) {
    '0' <= c <= '9'
  }

  /** A non-empty run of decimal digits. */
  predicate IsDigits(s: string) {
    |s| > 0 && forall i :: 0 <= i < |s| ==> IsDigit(s[i])
  }

  function DigitValue(c: char): nat
    requires IsDigit(c)
  {
    c as int - '0' as int
  }

  /** The value of a run of decimal digits, leading zeros allowed. */
  function DecimalValue(s: string): nat
    requires forall i :: 0 <= i < |s| ==> IsDigit(s[i])
  {
    if s == [] then 0
    else 10 * DecimalValue(s[..|s| - 1]) + DigitValue(s[|s| - 1])
  }

  /** `strconv.Atoi`: an optional sign, then at least one decimal digit, and
      the value must fit a 64-bit `int`; anything else is an error (None). */
  function Atoi(s: string): (r: Option<int>)
    ensures r.Some? ==> MinInt <= r.value <= MaxInt
    ensures r.Some? ==> |s| > 0 && (IsDigit(s[0]) || s[0] == '+' || s[0] == '-')
  {
    var negative := |s| > 0 && s[0] == '-';
    var body := if |s| > 0 && (s[0] == '+' || s[0] == '-') then s[1..] else s;
    if !IsDigits(body) then None
    else
      var n: int := if negative then -(DecimalValue(body) as int) else DecimalValue(body);
      if n < MinInt || MaxInt < n then None else Some(n)
  }

  /** What Atoi accepts and the value it reads: digits after at most one
      sign, read in decimal and negated after '-', when the value fits. */
  lemma AtoiReads(s: string)
    ensures Atoi(s).Some? ==> IsDigits(s) || (|s| > 0 && (s[0] == '+' || s[0] == '-') && IsDigits(s[1..]))
    ensures IsDigits(s) ==> Atoi(s) == if DecimalValue(s) <= MaxInt then Some(DecimalValue(s)) else None
    ensures |s| > 0 && s[0] == '+' && IsDigits(s[1..]) ==>
      Atoi(s) == if DecimalValue(s[1..]) <= MaxInt then Some(DecimalValue(s[1..])) else None
    ensures |s| > 0 && s[0] == '-' && IsDigits(s[1..]) ==>
      Atoi(s) == if DecimalValue(s[1..]) <= -MinInt then Some(-(DecimalValue(s[1..]) as int)) else None
  {
  }

  /** `strconv.Itoa` on naturals: the shortest decimal spelling. */
  function Itoa(n: nat): (s: string)
    ensures IsDigits(s)
    decreases n
  {
    var d := ['0' + (n % 10) as char];
    if n < 10 then d else Itoa(n / 10) + d
  }

  lemma {:induction false} DecimalValueOfItoa(n: nat)
    ensures DecimalValue(Itoa(n)) == n
    decreases n
  {
    var s := Itoa(n);
    if n >= 10 {
      DecimalValueOfItoa(n / 10);
      assert s[..|s| - 1] == Itoa(n / 10);
    }
  }

  /** Atoi reads back what Itoa writes, for every index a Go slice can have. */
  lemma AtoiItoa(n: nat)
    requires n <= MaxInt
    ensures Atoi(Itoa(n)) == Some(n)
  {
    DecimalValueOfItoa(n);
  }

  /** The append sentinel is never an index, nor is the empty token. */
  lemma AtoiRejectsSentinels()
    ensures Atoi("-") == None
    ensures Atoi("") == None
    ensures Atoi("+") == None
  {
  }
}
