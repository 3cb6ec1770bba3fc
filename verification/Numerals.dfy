/** Positional numerals: what `%ld`, `%d` and toString(16) print, and a reader for them. */
module Numerals {
  import opened Options
  import opened Text

  datatype Base = Dec | Hex {
    function Radix(): nat { if Dec? then 10 else 16 }
    function Times(n: nat): nat { if Dec? then n * 10 else n * 16 }
    function Quotient(n: nat): nat { if Dec? then n / 10 else n / 16 }
    function Remainder(n: nat): nat { if Dec? then n % 10 else n % 16 }
  }

  function DigitChar(d: nat): char
    requires d < 16
  {
    if d < 10 then '0' + d as char else 'a' + (d - 10) as char
  }

  /** Hexadecimal digits are read in either letter case. */
  function DigitValue(c: char): Option<nat> {
    if '0' <= c <= '9' then Some((c - '0') as nat)
    else if 'a' <= c <= 'f' then Some((c - 'a') as nat + 10)
    else if 'A' <= c <= 'F' then Some((c - 'A') as nat + 10)
    else None
  }

  function Digit(c: char): nat {
    match DigitValue(c) case Some(d) => d case None => 0
  }

  predicate IsDigit(c: char, b: Base) {
    DigitValue(c).Some? && DigitValue(c).value < b.Radix()
  }

  lemma DigitRoundTrip(d: nat)
    requires d < 16
    ensures DigitValue(DigitChar(d)) == Some(d)
  {
  }

  function Print(n: nat, b: Base): (s: string)
    ensures s != ""
    decreases n
  {
    if n < b.Radix() then [DigitChar(n)] else Print(b.Quotient(n), b) + [DigitChar(b.Remainder(n))]
  }

  function Digits(): string { "0123456789abcdef" }

  /** The number without its last k digits. */
  function Shifted(n: nat, b: Base, k: nat): nat {
    if k == 0 then n else Shifted(match b { case Dec => n / 10 case Hex => n / 16 }, b, k - 1)
  }

  /** The digit k places from the right. */
  function Place(n: nat, b: Base, k: nat): (d: nat)
    ensures d < 16
  {
    Shifted(n, b, k) % match b { case Dec => 10 case Hex => 16 }
  }

  lemma DigitText(d: nat)
    requires d < 16
    ensures |Digits()| == 16 && DigitChar(d) == Digits()[d]
  {
  }

  /** What is printed is the usual numeral: each place holds the digit of that place, without leading
      zeros. */
  lemma PrintPositional(n: nat, b: Base)
    ensures var s := Print(n, b);
      && |Digits()| == 16 && (|s| > 1 ==> s[0] != '0')
      && forall i :: 0 <= i < |s| ==> s[i] == Digits()[Place(n, b, |s| - 1 - i)]
  {
    hide Print, Place, Digits;
    DigitText(0);
    NoLeadingZero(n, b);
    forall i | 0 <= i < |Print(n, b)| ensures Print(n, b)[i] == Digits()[Place(n, b, |Print(n, b)| - 1 - i)] {
      PrintPlace(n, b, i);
    }
  }

  lemma {:induction false} PrintPlace(n: nat, b: Base, i: nat)
    requires i < |Print(n, b)|
    ensures |Digits()| == 16 && Print(n, b)[i] == Digits()[Place(n, b, |Print(n, b)| - 1 - i)]
    decreases n
  {
    hide Place, Digits, DigitChar;
    var s := Print(n, b);
    LastPlace(n, b);
    DigitText(b.Remainder(n));
    if n >= b.Radix() && i < |s| - 1 {
      PlaceStep(n, b, |s| - 2 - i);
      PrintPlace(b.Quotient(n), b, i);
    }
  }

  lemma {:induction false} NoLeadingZero(n: nat, b: Base)
    ensures n > 0 ==> Print(n, b)[0] != '0'
    ensures n == 0 ==> |Print(n, b)| == 1
    decreases n
  {
    if n >= b.Radix() {
      NoLeadingZero(b.Quotient(n), b);
    } else if n > 0 {
      NoZero(n);
    }
  }

  lemma LastPlace(n: nat, b: Base)
    ensures Place(n, b, 0) == b.Remainder(n)
  {
  }

  lemma PlaceStep(n: nat, b: Base, k: nat)
    ensures Place(n, b, k + 1) == Place(b.Quotient(n), b, k)
  {
  }

  lemma NoZero(d: nat)
    requires 0 < d < 16
    ensures DigitChar(d) != '0'
  {
  }

  predicate AllDigits(s: string, b: Base) {
    forall c <- s :: IsDigit(c, b)
  }

  function Value(s: string, b: Base): nat {
    if s == "" then 0 else b.Times(Value(s[..|s| - 1], b)) + Digit(s[|s| - 1])
  }

  function Read(s: string, b: Base): Option<nat> {
    if s != "" && AllDigits(s, b) then Some(Value(s, b)) else None
  }

  /** Reading a printed numeral gives the number back. */
  lemma {:induction false} PrintRead(n: nat, b: Base)
    ensures AllDigits(Print(n, b), b)
    ensures Value(Print(n, b), b) == n
    ensures Read(Print(n, b), b) == Some(n)
    decreases n
  {
    hide DigitValue, DigitChar;
    var s := Print(n, b);
    if n < b.Radix() {
      DigitRoundTrip(n);
      assert s[..0] == "";
    } else {
      PrintRead(b.Quotient(n), b);
      DigitRoundTrip(b.Remainder(n));
      assert s[..|s| - 1] == Print(b.Quotient(n), b);
    }
  }

  function PrintInt(n: int): string {
    if n < 0 then "-" + Print(-n, Dec) else Print(n, Dec)
  }

  lemma PrintIntChars(n: int)
    ensures forall c <- PrintInt(n) :: c == '-' || IsDigit(c, Dec)
    ensures PrintInt(n) == if n < 0 then "-" + Print(-n, Dec) else Print(n, Dec)
  {
    hide Print, Value, DigitValue;
    PrintRead(if n < 0 then -n else n, Dec);
  }

  lemma TwoDigits(n: nat)
    ensures |Print(n, Dec)| == 2 <==> 10 <= n <= 99
  {
  }

  lemma ThreeDigits(n: nat)
    ensures |Print(n, Dec)| == 3 <==> 100 <= n <= 999
  {
    assert |Print(n, Dec)| == if n < 10 then 1 else |Print(n / 10, Dec)| + 1;
    if n >= 10 {
      TwoDigits(n / 10);
    }
  }

  lemma MinusIsNoDigit()
    ensures !IsDigit('-', Dec)
  {
  }
}
