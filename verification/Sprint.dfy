/**
 * The text fmt.Sprint gives for a list of integers, "[1 -2 30]", and why it can
 * serve as a map key: different lists have different texts.
 */
module Sprint {

  function Digit(n: nat): (ch: char)
    requires n < 10
    ensures '0' <= ch <= '9'
  {
    ('0' as int + n) as char
  }

  function Digits(n: nat): (s: string)
    ensures |s| > 0
    ensures forall i :: 0 <= i < |s| ==> '0' <= s[i] <= '9'
  {
    if n < 10 then [Digit(n)] else Digits(n / 10) + [Digit(n % 10)]
  }

  function Decimal(n: int): (s: string)
    ensures |s| > 0
    ensures forall i :: 0 <= i < |s| ==> s[i] != ' '
  {
    if n < 0 then "-" + Digits(-n) else Digits(n)
  }

  // The numbers, each with a space in front.
  function Spaced(ids: seq<int>): string {
    if ids == [] then "" else " " + (Decimal(ids[0]) + Spaced(ids[1..]))
  }

  function SprintInts(ids: seq<int>): string {
    if ids == [] then "[]" else "[" + Spaced(ids)[1..] + "]"
  }

  // ----- reading a number back ----------------------------------------------

  function DigitValue(ch: char): nat {
    if '0' <= ch <= '9' then ch as int - '0' as int else 0
  }

  function ValueOf(s: string): nat {
    if s == "" then 0 else 10 * ValueOf(s[..|s| - 1]) + DigitValue(s[|s| - 1])
  }

  lemma {:induction false} ValueSnoc(s: string, ch: char)
    ensures ValueOf(s + [ch]) == 10 * ValueOf(s) + DigitValue(ch)
  {
  }

  lemma {:induction false} ValueOfDigits(n: nat)
    ensures ValueOf(Digits(n)) == n
  {
    if n < 10 {
      hide ValueOf;
      ValueSnoc("", Digit(n));
      assert "" + [Digit(n)] == Digits(n);
      assert ValueOf("") == 0 by { ValueOfNothing(); }
    } else {
      ValueOfDigits(n / 10);
      hide ValueOf;
      ValueSnoc(Digits(n / 10), Digit(n % 10));
    }
  }

  lemma ValueOfNothing()
    ensures ValueOf("") == 0
  {
  }

  lemma DigitsInjective(m: nat, n: nat)
    requires Digits(m) == Digits(n)
    ensures m == n
  {
    hide Digits, ValueOf;
    ValueOfDigits(m);
    ValueOfDigits(n);
  }

  lemma DecimalInjective(m: int, n: int)
    requires Decimal(m) == Decimal(n)
    ensures m == n
  {
    hide Digits;
    assert m < 0 <==> Decimal(m)[0] == '-';
    assert n < 0 <==> Decimal(n)[0] == '-';
    if m < 0 {
      assert Decimal(m)[1..] == Digits(-m) && Decimal(n)[1..] == Digits(-n);
      DigitsInjective(-m, -n);
    } else {
      DigitsInjective(m, n);
    }
  }

  // ----- reading a list back ------------------------------------------------

  function WordLength(s: string): nat {
    if s == "" || s[0] == ' ' then 0 else 1 + WordLength(s[1..])
  }

  // A word without spaces, followed by nothing or a space, ends where the first space is.
  lemma {:induction false} WordEnds(v: string, x: string)
    requires forall i :: 0 <= i < |v| ==> v[i] != ' '
    requires |x| == 0 || x[0] == ' '
    ensures WordLength(v + x) == |v|
  {
    if v == "" {
      assert v + x == x;
    } else {
      assert (v + x)[1..] == v[1..] + x;
      WordEnds(v[1..], x);
    }
  }

  lemma {:induction false} SpacedShape(ids: seq<int>)
    ensures ids == [] ==> Spaced(ids) == ""
    ensures ids != [] ==> Spaced(ids) == " " + (Decimal(ids[0]) + Spaced(ids[1..]))
  {
  }

  lemma {:induction false} SpacedInjective(a: seq<int>, b: seq<int>)
    requires Spaced(a) == Spaced(b)
    ensures a == b
  {
    hide Spaced, Decimal, WordLength;
    SpacedShape(a);
    SpacedShape(b);
    if a != [] {
      var v, x := Decimal(a[0]), Spaced(a[1..]);
      var w, y := Decimal(b[0]), Spaced(b[1..]);
      assert v + x == Spaced(a)[1..] == Spaced(b)[1..] == w + y;
      SpacedShape(a[1..]);
      SpacedShape(b[1..]);
      WordEnds(v, x);
      WordEnds(w, y);
      assert v == (v + x)[..|v|] == (w + y)[..|w|] == w;
      assert x == (v + x)[|v|..] == (w + y)[|w|..] == y;
      DecimalInjective(a[0], b[0]);
      SpacedInjective(a[1..], b[1..]);
      assert a == [a[0]] + a[1..] && b == [b[0]] + b[1..];
    }
  }

  // Lists of integers with the same text are the same list.
  lemma SprintInjective(a: seq<int>, b: seq<int>)
    requires SprintInts(a) == SprintInts(b)
    ensures a == b
  {
    hide Spaced, Decimal;
    SpacedShape(a);
    SpacedShape(b);
    var s, t := SprintInts(a), SprintInts(b);
    if a != [] && b != [] {
      assert Spaced(a)[1..] == s[1..|s| - 1] == t[1..|t| - 1] == Spaced(b)[1..];
      assert Spaced(a) == " " + Spaced(a)[1..] && Spaced(b) == " " + Spaced(b)[1..];
      SpacedInjective(a, b);
    } else {
      assert |s| == 2 <==> a == [];
      assert |t| == 2 <==> b == [];
    }
  }
}
