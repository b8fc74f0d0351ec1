/** The few operations of Go's `strings` and `strconv` packages that CPU-Pooler
    relies on, written out over Dafny strings. */
module GoText {
  import opened Wrappers

  const UINT32_RANGE := 0x1_0000_0000
  const INT64_RANGE := 0x8000_0000_0000_0000

  /** strings.HasPrefix */
  predicate HasPrefix(s: string, prefix: string) {
    prefix <= s
  }

  predicate OccursAt(s: string, sub: string, i: nat) {
    i + |sub| <= |s| && s[i..i + |sub|] == sub
  }

  /** strings.Contains */
  predicate Contains(s: string, sub: string) {
    exists i | 0 <= i <= |s| :: OccursAt(s, sub, i)
  }

  /** strings.TrimPrefix */
  function TrimPrefix(s: string, prefix: string): string {
    if prefix <= s then s[|prefix|..] else s
  }

  predicate IsDigit(c: char) {
    '0' <= c <= '9'
  }

  predicate AllDigits(s: string) {
    forall i | 0 <= i < |s| :: IsDigit(s[i])
  }

  function DigitChar(d: nat): (c: char)
    requires d < 10
    ensures IsDigit(c) && c as int - '0' as int == d
  {
    ('0' as int + d) as char
  }

  /** strconv.Itoa on the non-negative integers */
  function Itoa(n: nat): string {
    if n < 10 then [DigitChar(n)] else Itoa(n / 10) + [DigitChar(n % 10)]
  }

  /** strconv.Itoa on every integer */
  function ItoaSigned(n: int): string {
    if n < 0 then "-" + Itoa(-n) else Itoa(n)
  }

  function DigitsValue(s: string): nat
    requires AllDigits(s)
  {
    if s == "" then 0 else 10 * DigitsValue(s[..|s| - 1]) + (s[|s| - 1] as int - '0' as int)
  }

  /** strconv.ParseUint(s, 10, 32); None stands for its error result. */
  function ParseUint32(s: string): Option<nat> {
    if s != "" && AllDigits(s) && DigitsValue(s) < UINT32_RANGE then Some(DigitsValue(s)) else None
  }

  /** strconv.Atoi on a 64-bit platform; None stands for its error result. */
  function Atoi(s: string): Option<int> {
    var signed := s != "" && (s[0] == '-' || s[0] == '+');
    var body := if signed then s[1..] else s;
    if body == "" || !AllDigits(body) then None
    else if signed && s[0] == '-' then
      if DigitsValue(body) <= INT64_RANGE then Some(0 - DigitsValue(body) as int) else None
    else
      if DigitsValue(body) < INT64_RANGE then Some(DigitsValue(body)) else None
  }

  /** Printing a number and reading it back gives the number. */
  lemma {:induction false} ItoaDigits(n: nat)
    ensures Itoa(n) != "" && AllDigits(Itoa(n)) && DigitsValue(Itoa(n)) == n
  {
    if n < 10 {
      assert Itoa(n)[..0] == "";
    } else {
      ItoaDigits(n / 10);
      assert Itoa(n)[..|Itoa(n)| - 1] == Itoa(n / 10);
    }
  }

  /** What the readers make of a printed number, with and without a sign. */
  lemma PrintedRead(n: nat)
    ensures ParseUint32(Itoa(n)) == if n < 0x1_0000_0000 then Some(n) else None
    ensures Atoi(Itoa(n)) == if n < 0x8000_0000_0000_0000 then Some(n) else None
    ensures Atoi("+" + Itoa(n)) == if n < 0x8000_0000_0000_0000 then Some(n) else None
    ensures Atoi("-" + Itoa(n)) == if n <= 0x8000_0000_0000_0000 then Some(0 - n as int) else None
  {
    ItoaDigits(n);
    assert IsDigit(Itoa(n)[0]);
    assert ("+" + Itoa(n))[1..] == Itoa(n) && ("-" + Itoa(n))[1..] == Itoa(n);
  }

  /** Every 64-bit integer that is printed reads back. */
  lemma SignedRead(n: int)
    requires -0x8000_0000_0000_0000 <= n < 0x8000_0000_0000_0000
    ensures Atoi(ItoaSigned(n)) == Some(n)
  {
    PrintedRead(if n < 0 then -n else n);
  }

  /** On every 32-bit device number the two readers of a device ID agree. */
  lemma ItoaRoundTrip(n: nat)
    requires n < UINT32_RANGE
    ensures ParseUint32(Itoa(n)) == Some(n)
    ensures Atoi(Itoa(n)) == Some(n)
  {
    ItoaDigits(n);
    assert IsDigit(Itoa(n)[0]);
  }

  lemma ItoaInjective(m: nat, n: nat)
    ensures Itoa(m) == Itoa(n) <==> m == n
  {
    ItoaDigits(m);
    ItoaDigits(n);
  }
}
