/** Numbers and coverage edges as text: the decimal digits of a natural number, and two of them
    joined by a separator. */
module Decimal {

  datatype Edge = Edge(src: nat, dst: nat)

  predicate IsDigit(c: char) { '0' <= c <= '9' }

  predicate AllDigits(s: string) { forall i :: 0 <= i < |s| ==> IsDigit(s[i]) }

  function Digits(n: nat): (s: string)
    ensures s != [] && AllDigits(s)
  {
    if n < 10 then ['0' + n as char] else Digits(n / 10) + ['0' + (n % 10) as char]
  }

  function Parse(s: string): nat
    requires AllDigits(s)
  {
    if s == [] then 0 else 10 * Parse(s[..|s| - 1]) + (s[|s| - 1] - '0') as nat
  }

  lemma {:induction false} ParseDigits(n: nat)
    ensures Parse(Digits(n)) == n
  {
    if n >= 10 {
      ParseDigits(n / 10);
      assert Digits(n)[..|Digits(n)| - 1] == Digits(n / 10);
    } else {
      assert Digits(n)[..0] == [];
    }
  }

  function Join(e: Edge, separator: string): string {
    Digits(e.src) + separator + Digits(e.dst)
  }

  /** How many digits a text starts with. */
  function Leading(s: string): (n: nat)
    ensures n <= |s| && AllDigits(s[..n]) && (n < |s| ==> !IsDigit(s[n]))
  {
    if s == [] || !IsDigit(s[0]) then 0
    else
      var n := Leading(s[1..]);
      assert s[..n + 1] == [s[0]] + s[1..][..n];
      n + 1
  }

  /** Splits at the first character that is no digit, over a separator of the given length. */
  function Split(s: string, width: nat): Edge
    requires Leading(s) + width <= |s| && AllDigits(s[Leading(s) + width..])
  {
    Edge(Parse(s[..Leading(s)]), Parse(s[Leading(s) + width..]))
  }

  lemma {:induction false} LeadingOfDigits(digits: string, rest: string)
    requires AllDigits(digits) && rest != [] && !IsDigit(rest[0])
    ensures Leading(digits + rest) == |digits|
  {
    if digits == [] {
      assert digits + rest == rest;
    } else {
      LeadingOfDigits(digits[1..], rest);
      assert (digits + rest)[1..] == digits[1..] + rest;
    }
  }

  /** Splitting a joined edge gives the edge back. */
  lemma SplitJoin(e: Edge, separator: string)
    requires separator != [] && !IsDigit(separator[0])
    ensures var s := Join(e, separator);
            Leading(s) + |separator| <= |s| && AllDigits(s[Leading(s) + |separator|..]) && Split(s, |separator|) == e
  {
    var s := Join(e, separator);
    LeadingOfDigits(Digits(e.src), separator + Digits(e.dst));
    assert s == Digits(e.src) + (separator + Digits(e.dst));
    assert s[..|Digits(e.src)|] == Digits(e.src);
    assert s[|Digits(e.src)| + |separator|..] == Digits(e.dst);
    ParseDigits(e.src);
    ParseDigits(e.dst);
  }

  lemma JoinInjective(e: Edge, f: Edge, separator: string)
    requires separator != [] && !IsDigit(separator[0]) && Join(e, separator) == Join(f, separator)
    ensures e == f
  {
    SplitJoin(e, separator);
    SplitJoin(f, separator);
  }
}
