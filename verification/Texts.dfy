/** Text that both sides of a call agree on: the method before a dash, the suffix of a return name,
    and integers as `std::to_string` writes and `std::stoi` reads them. */
module Texts {
  import opened Bytes
  import opened Options

  const RETURN_SUFFIX := "-RETURN_VALUE"

  /** The text before the first dash, or all of it: `s.substr(0, s.find('-'))`. */
  function BeforeDash(s: string): (r: string)
    ensures r <= s && '-' !in r
    ensures |r| < |s| ==> s[|r|] == '-'
  {
    if s == [] || s[0] == '-' then [] else [s[0]] + BeforeDash(s[1..])
  }

  lemma {:induction false} BeforeDashOf(a: string, b: string)
    requires '-' !in a
    ensures BeforeDash(a + "-" + b) == a
  {
    if a == "" {
      assert (a + "-" + b)[0] == '-';
    } else {
      assert (a + "-" + b)[0] == a[0] && (a + "-" + b)[1..] == a[1..] + "-" + b;
      BeforeDashOf(a[1..], b);
      assert [a[0]] + a[1..] == a;
    }
  }

  function Decimal(n: nat): (s: string)
    ensures s != "" && forall c <- s :: '0' <= c <= '9'
  {
    if n < 10 then ['0' + n as char] else Decimal(n / 10) + ['0' + (n % 10) as char]
  }

  lemma DecimalTexts()
    ensures Decimal(0) == "0" && Decimal(7) == "7" && Decimal(10) == "10" && Decimal(203) == "203"
  {
    assert Decimal(2) == "2" && Decimal(20) == "20";
  }

  predicate Digit(c: char) {
    '0' <= c <= '9'
  }

  function DigitPrefix(s: string): (k: nat)
    ensures k <= |s| && (forall i | 0 <= i < k :: Digit(s[i])) && (k < |s| ==> !Digit(s[k]))
  {
    if s == [] || !Digit(s[0]) then 0 else 1 + DigitPrefix(s[1..])
  }

  function ValueOf(digits: string): nat
    requires forall i | 0 <= i < |digits| :: Digit(digits[i])
  {
    if digits == [] then 0
    else
      assert Digit(digits[|digits| - 1]);
      10 * ValueOf(digits[..|digits| - 1]) + (digits[|digits| - 1] as int - '0' as int)
  }

  function Itoa(i: int): string {
    if i < 0 then "-" + Decimal(-i) else Decimal(i)
  }

  /** As many digits as there are; no digits and overflow throw. */
  function Number(body: string, negative: bool): Option<int> {
    var k := DigitPrefix(body);
    if k == 0 then None else
    var n: int := ValueOf(body[..k]);
    var v := if negative then -n else n;
    if -0x8000_0000 <= v < 0x8000_0000 then Some(v) else None
  }

  /** An optional sign, then a number. */
  function Stoi(s: string): Option<int> {
    if s != [] && (s[0] == '-' || s[0] == '+') then Number(s[1..], s[0] == '-') else Number(s, false)
  }

  lemma {:induction false} DecimalRoundTrip(n: nat)
    ensures (forall i | 0 <= i < |Decimal(n)| :: Digit(Decimal(n)[i])) && ValueOf(Decimal(n)) == n
  {
    var s := Decimal(n);
    if n < 10 {
      assert s == ['0' + n as char] && s[..|s| - 1] == [];
    } else {
      DecimalRoundTrip(n / 10);
      assert s == Decimal(n / 10) + ['0' + (n % 10) as char];
      assert s[..|s| - 1] == Decimal(n / 10);
    }
  }

  lemma {:induction false} DigitsThen(d: string, tail: string)
    requires (forall i | 0 <= i < |d| :: Digit(d[i])) && (tail == "" || !Digit(tail[0]))
    ensures DigitPrefix(d + tail) == |d|
  {
    if d == "" {
      assert d + tail == tail;
    } else {
      assert (d + tail)[0] == d[0] && (d + tail)[1..] == d[1..] + tail;
      DigitsThen(d[1..], tail);
    }
  }

  lemma NumberOfPrefix(d: string, n: int, tail: string, negative: bool)
    requires (forall i | 0 <= i < |d| :: Digit(d[i])) && ValueOf(d) == n && (tail == "" || !Digit(tail[0]))
    ensures Number(d + tail, negative) ==
            if d == "" then None
            else if negative then (if n <= 0x8000_0000 then Some(-n) else None)
            else if n < 0x8000_0000 then Some(n) else None
  {
    hide ValueOf, DigitPrefix, Digit;
    DigitsThen(d, tail);
    assert (d + tail)[..|d|] == d;
  }

  /** A sign or none, digits, and anything behind them, which is not looked at. */
  lemma StoiOfPrefix(d: string, n: int, tail: string)
    requires (forall i | 0 <= i < |d| :: Digit(d[i])) && ValueOf(d) == n && (tail == "" || !Digit(tail[0]))
    ensures Stoi("+" + (d + tail)) == if d == "" || n >= 0x8000_0000 then None else Some(n)
    ensures Stoi("-" + (d + tail)) == if d == "" || n > 0x8000_0000 then None else Some(-n)
    ensures d != "" ==> Stoi(d + tail) == if n >= 0x8000_0000 then None else Some(n)
  {
    hide ValueOf, Number;
    NumberOfPrefix(d, n, tail, true);
    NumberOfPrefix(d, n, tail, false);
    var body := d + tail;
    assert ("+" + body)[0] == '+' && ("+" + body)[1..] == body;
    assert ("-" + body)[0] == '-' && ("-" + body)[1..] == body;
    if d != "" { assert body[0] == d[0] && Digit(d[0]); }
  }

  /** Every 32-bit integer survives as text. */
  lemma IntegerTextRoundTrip(i: I32)
    ensures Stoi(Itoa(i)) == Some(i)
  {
    hide Stoi, ValueOf, Decimal, Digit;
    var x: int := i;
    var n: nat := if x < 0 then -x else x;
    DecimalRoundTrip(n);
    StoiOfPrefix(Decimal(n), n, "");
    assert Decimal(n) + "" == Decimal(n);
  }
}
