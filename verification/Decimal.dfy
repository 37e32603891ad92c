/** Decimal integers as the cutoff marker stores and reads them. */
module Decimal {
  import opened Base

  function Digit(d: int): (c: char)
    requires 0 <= d < 10
    ensures '0' <= c <= '9' && c as int - '0' as int == d
  {
    ('0' as int + d) as char
  }

  function FormatNat(n: nat): (s: string)
    ensures |s| > 0 && '0' <= s[0] <= '9'
  {
    if n < 10 then [Digit(n)] else FormatNat(n / 10) + [Digit(n % 10)]
  }

  /** fmt's %d. */
  function FormatInt(n: int): string {
    if n < 0 then "-" + FormatNat(-n) else FormatNat(n)
  }

  function ParseNat(s: string): Option<int> {
    if s == [] then None
    else
      var n := |s| - 1;
      if !('0' <= s[n] <= '9') then None
      else
        var d := s[n] as int - '0' as int;
        if n == 0 then Some(d)
        else match ParseNat(s[..n])
          case None => None
          case Some(high) => Some(10 * high + d)
  }

  /** strconv.ParseInt in base 10; instants outside 64 bits of seconds are beyond the model's use. */
  function ParseInt(s: string): Option<int> {
    if s == [] then None
    else if s[0] == '-' then
      var n := ParseNat(s[1..]);
      if n.None? then None else Some(0 - n.value)
    else if s[0] == '+' then ParseNat(s[1..])
    else ParseNat(s)
  }

  lemma {:induction false} ParseFormatNat(n: nat)
    ensures ParseNat(FormatNat(n)) == Some(n)
  {
    if n >= 10 {
      ParseFormatNat(n / 10);
      var s := FormatNat(n);
      assert s[..|s| - 1] == FormatNat(n / 10);
    }
  }

  /** Reading back a written integer gives that integer. */
  lemma ParseFormat(n: int)
    ensures FormatInt(n) != "" && ParseInt(FormatInt(n)) == Some(n)
  {
    if n < 0 {
      ParseFormatNat(-n);
      assert FormatInt(n)[1..] == FormatNat(-n);
    } else {
      ParseFormatNat(n);
    }
  }
}
