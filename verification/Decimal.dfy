/** Base-10 text of 64-bit integers: strconv.FormatInt and strconv.ParseInt. */
module Decimal {
  import opened Wrappers

  const INT64_MAX := 0x7FFF_FFFF_FFFF_FFFF

  predicate InInt64(n: int) {
    -INT64_MAX - 1 <= n <= INT64_MAX
  }

  predicate IsDigit(c: char) {
    '0' <= c <= '9'
  }

  predicate AllDigits(s: string) {
    forall k | 0 <= k < |s| :: IsDigit(s[k])
  }

  function Digits(n: nat): (s: string)
    ensures s != [] && AllDigits(s)
  {
    var last := ['0' + (n % 10) as char];
    if n < 10 then last else Digits(n / 10) + last
  }

  function FormatInt(n: int): string {
    if n < 0 then "-" + Digits(-n) else Digits(n)
  }

  function Value(s: string): nat
    requires AllDigits(s)
  {
    if s == [] then 0 else 10 * Value(s[..|s| - 1]) + (s[|s| - 1] as int - '0' as int)
  }

  /** An optional sign and at least one digit, of any size. */
  function Read(s: string): Option<int> {
    var signed := s != [] && (s[0] == '-' || s[0] == '+');
    var body := if signed then s[1..] else s;
    if body == [] || !AllDigits(body) then None
    else
      var v: int := Value(body);
      Some(if signed && s[0] == '-' then -v else v)
  }

  /** ParseInt(s, 10, 64): out-of-range text is an error. */
  function ParseInt(s: string): Option<int> {
    var v := Read(s);
    if v.Some? && InInt64(v.value) then v else None
  }

  lemma {:induction false} ValueOfDigits(n: nat)
    ensures Value(Digits(n)) == n
  {
    var s := Digits(n);
    if n >= 10 {
      ValueOfDigits(n / 10);
      assert s[..|s| - 1] == Digits(n / 10);
    } else {
      assert s[..|s| - 1] == [];
    }
  }

  /** Reading back what was written. */
  lemma ReadFormat(n: int)
    ensures Read(FormatInt(n)) == Some(n)
    ensures InInt64(n) ==> ParseInt(FormatInt(n)) == Some(n)
  {
    var d := Digits(if n < 0 then -n else n);
    ValueOfDigits(if n < 0 then -n else n);
    assert ("-" + d)[1..] == d;
  }

  /** Different numbers have different texts. */
  lemma FormatInjective(m: int, n: int)
    requires FormatInt(m) == FormatInt(n)
    ensures m == n
  {
    ReadFormat(m);
    ReadFormat(n);
  }

  /** A minus sign can only be the first character. */
  lemma FormatNonEmpty(n: int)
    ensures FormatInt(n) != [] && forall k | 0 < k < |FormatInt(n)| :: IsDigit(FormatInt(n)[k])
  {
  }
}
