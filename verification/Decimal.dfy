/** Decimal notation of integers. */
module Decimal {
  import opened Wrappers

  function Digit(n: nat): char
    requires n < 10
  {
    "0123456789"[n]
  }

  function DigitValue(c: char): Option<nat>
  {
    if '0' <= c <= '9' then Some(c as int - '0' as int) else None
  }

  function Digits(n: nat): (s: string)
    ensures s != [] && s[0] != '-'
  {
    if n < 10 then [Digit(n)] else Digits(n / 10) + [Digit(n % 10)]
  }

  function Show(n: int): (s: string)
    ensures s != []
  {
    if n < 0 then "-" + Digits(-n) else Digits(n)
  }

  function ReadDigits(s: string): Option<nat>
  {
    if s == [] then None
    else
      var d := DigitValue(s[|s| - 1]);
      if |s| == 1 || d.None? then d
      else match ReadDigits(s[..|s| - 1])
        case None => None
        case Some(n) => Some(10 * n + d.value)
  }

  function Read(s: string): Option<int>
  {
    if s != [] && s[0] == '-' then
      match ReadDigits(s[1..])
      case None => None
      case Some(n) => var m: int := n; Some(-m)
    else ReadDigits(s)
  }

  lemma {:induction false} ReadShowDigits(n: nat)
    ensures ReadDigits(Digits(n)) == Some(n)
  {
    if n >= 10 {
      ReadShowDigits(n / 10);
      assert Digits(n)[..|Digits(n)| - 1] == Digits(n / 10);
    }
  }

  lemma ReadShow(n: int)
    ensures Read(Show(n)) == Some(n)
  {
    ReadShowDigits(if n < 0 then -n else n);
    if n < 0 { assert Show(n)[1..] == Digits(-n); }
  }

  /** The spelling `Show` uses: no sign but a minus, no leading zero. */
  predicate Canonical(s: string)
  {
    Read(s).Some? && Show(Read(s).value) == s
  }

  /** The notation is decimal: digits from 0 to 9, the last the least, after a minus for
      a negative number. */
  lemma ShowStandard(n: nat, d: nat)
    requires d < 10
    ensures Show(d) == [('0' as int + d) as char] && (n > 0 ==> Show(10 * n + d) == Show(n) + Show(d))
    ensures n > 0 ==> Show(0 - (n as int)) == "-" + Show(n)
  {
    assert (10 * n + d) / 10 == n && (10 * n + d) % 10 == d;
  }
}
