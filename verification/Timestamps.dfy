/** The text of a timestamp column (storage/db/setup.go, FormatTime): UTC in RFC 3339 with a fraction of up to nine
    digits whose trailing zeros are dropped. SQLite compares these texts character by character. */
module Timestamps {
  import opened Text


  /** An instant: whole seconds since the epoch, and nanoseconds below one second. */
  datatype Instant = Instant(seconds: nat, nanos: nat) {
    predicate Valid() {
      nanos < 1_000_000_000
    }

    predicate Before(other: Instant) {
      seconds < other.seconds || (seconds == other.seconds && nanos < other.nanos)
    }
  }

  type Time = i: Instant | i.Valid() witness Instant(0, 0)

  /** The text up to the seconds has the same width for all instants of four-digit years, so it compares like the
      number of seconds; `suffix` is the text after it. */
  datatype Stamp = Stamp(seconds: nat, suffix: string)

  predicate TextLess(a: Stamp, b: Stamp) {
    a.seconds < b.seconds || (a.seconds == b.seconds && LexLess(a.suffix, b.suffix))
  }

  function DigitChar(d: nat): (c: char)
    requires d < 10
    ensures '0' <= c <= '9'
  {
    '0' + d as char
  }

  /** The last `k` decimal digits of `n`, leading zeros included. */
  function Digits(n: nat, k: nat): (s: string)
    ensures |s| == k && forall i :: 0 <= i < k ==> '0' <= s[i] <= '9'
  {
    if k == 0 then "" else Digits(n / 10, k - 1) + [DigitChar(n % 10)]
  }

  function TrimZeros(s: string): (r: string)
    ensures |r| <= |s| && r == s[..|r|] && forall i :: |r| <= i < |s| ==> s[i] == '0'
    ensures r != "" ==> r[|r| - 1] != '0'
  {
    if s != "" && s[|s| - 1] == '0' then TrimZeros(s[..|s| - 1]) else s
  }

  /** The fraction digits as written: nine of them, without the zeros at the end. */
  function Fraction(t: Time): (r: string) {
    TrimZeros(Digits(t.nanos, 9))
  }

  function FormatTime(t: Time): Stamp {
    Stamp(t.seconds, if t.nanos == 0 then "Z" else "." + Fraction(t) + "Z")
  }

  // ---- Digits compare like numbers ----

  function Pow10(k: nat): (p: nat)
    ensures p > 0
  {
    if k == 0 then 1 else 10 * Pow10(k - 1)
  }

  lemma {:induction false} LexLessSnoc(a: string, b: string, x: char, y: char)
    requires |a| == |b|
    ensures LexLess(a + [x], b + [y]) <==> LexLess(a, b) || (a == b && x < y)
  {
    if a == "" {
      assert a + [x] == [x] && b + [y] == [y] && b == "";
    } else {
      assert (a + [x])[1..] == a[1..] + [x] && (b + [y])[1..] == b[1..] + [y];
      LexLessSnoc(a[1..], b[1..], x, y);
      assert a == [a[0]] + a[1..] && b == [b[0]] + b[1..];
    }
  }

  lemma {:induction false} DigitsOrder(m: nat, n: nat, k: nat)
    requires m < Pow10(k) && n < Pow10(k)
    ensures LexLess(Digits(m, k), Digits(n, k)) <==> m < n
    ensures Digits(m, k) == Digits(n, k) <==> m == n
  {
    if k > 0 {
      DigitsOrder(m / 10, n / 10, k - 1);
      var a, b := Digits(m / 10, k - 1), Digits(n / 10, k - 1);
      var x, y := DigitChar(m % 10), DigitChar(n % 10);
      LexLessSnoc(a, b, x, y);
      assert m == 10 * (m / 10) + m % 10 && n == 10 * (n / 10) + n % 10;
      assert (x < y <==> m % 10 < n % 10) && (x == y <==> m % 10 == n % 10);
      if a + [x] == b + [y] {
        assert (a + [x])[..k - 1] == a && (b + [y])[..k - 1] == b;
        assert (a + [x])[k - 1] == x && (b + [y])[k - 1] == y;
      }
    }
  }

  lemma NanosBound(t: Time)
    ensures t.nanos < Pow10(9)
  {
  }

  // ---- Where text order and time order part ----

  /** Appending a "Z", which sorts behind every digit, turns the order of digit texts around exactly when one is a
      proper beginning of the other. */
  lemma {:induction false} ZuluOrder(a: string, b: string)
    requires forall i :: 0 <= i < |a| ==> '0' <= a[i] <= '9'
    requires forall i :: 0 <= i < |b| ==> '0' <= b[i] <= '9'
    ensures LexLess(a + "Z", b + "Z")
      <==> if |a| <= |b| && a == b[..|a|] then false
           else if |b| <= |a| && b == a[..|b|] then true
           else LexLess(a, b)
    decreases |a|
  {
    if a == "" || b == "" {
      assert a == "" ==> a + "Z" == "Z";
      assert b == "" ==> b + "Z" == "Z";
      if a != "" { assert (a + "Z")[0] == a[0]; }
      if b != "" { assert (b + "Z")[0] == b[0]; }
    } else {
      assert (a + "Z")[1..] == a[1..] + "Z" && (b + "Z")[1..] == b[1..] + "Z";
      if a[0] == b[0] {
        ZuluOrder(a[1..], b[1..]);
        HeadPrefix(a, b);
        HeadPrefix(b, a);
      }
    }
  }

  lemma HeadPrefix(a: string, b: string)
    requires a != "" && b != "" && a[0] == b[0]
    ensures |a| <= |b| ==> (a == b[..|a|] <==> a[1..] == b[1..][..|a| - 1])
  {
  }

  /** `a`'s fraction digits are the beginning of `b`'s. */
  predicate FractionBegins(a: Time, b: Time) {
    |Fraction(a)| <= |Fraction(b)| && Fraction(a) == Fraction(b)[..|Fraction(a)|]
  }

  lemma {:induction false} TrimmedOrder(a: string, b: string)
    requires |a| == |b| && LexLess(a, b)
    requires forall i :: 0 <= i < |a| ==> '0' <= a[i] <= '9'
    requires forall i :: 0 <= i < |b| ==> '0' <= b[i] <= '9'
    ensures var x, y := TrimZeros(a), TrimZeros(b);
      !(|y| <= |x| && y == x[..|y|]) && LexLess(x, y)
    decreases |a|
  {
    TrimCons(a);
    TrimCons(b);
    var x, y := TrimZeros(a), TrimZeros(b);
    if a[0] < b[0] {
      assert y[0] == b[0];
      if x != "" { assert x[0] == a[0]; }
    } else {
      TrimmedOrder(a[1..], b[1..]);
      assert y[0] == b[0] && y[1..] == TrimZeros(b[1..]);
      if x != "" {
        assert x[0] == a[0] && x[1..] == TrimZeros(a[1..]);
        HeadPrefix(y, x);
      }
    }
  }

  lemma {:induction false} TrimCons(s: string)
    requires s != ""
    ensures TrimZeros(s) == if TrimZeros(s[1..]) == "" && s[0] == '0' then "" else [s[0]] + TrimZeros(s[1..])
  {
  }

  lemma TrimAllZeros(k: nat)
    ensures TrimZeros(Digits(0, k)) == ""
  {
  }

  /** The digits alone: written without their zeros, the earlier instant's never continue the later one's. */
  lemma FractionOrder(a: Time, b: Time)
    requires a.nanos < b.nanos
    ensures LexLess(Fraction(a), Fraction(b)) && !FractionBegins(b, a)
    ensures a.nanos == 0 ==> Fraction(a) == ""
  {
    hide Digits, TrimZeros, Pow10, LexLess;
    NanosBound(a);
    NanosBound(b);
    DigitsOrder(a.nanos, b.nanos, 9);
    TrimmedOrder(Digits(a.nanos, 9), Digits(b.nanos, 9));
    if a.nanos == 0 { TrimAllZeros(9); }
  }

  lemma FractionDigits(t: Time)
    ensures forall i :: 0 <= i < |Fraction(t)| ==> '0' <= Fraction(t)[i] <= '9'
  {
  }

  /** Text order, exactly: of two different instants the earlier one sorts first, unless they lie in the same second
      and its fraction digits begin those of the later one; then the later one sorts first. */
  lemma {:induction false} TextOrder(a: Time, b: Time)
    requires a.Before(b)
    ensures TextLess(FormatTime(a), FormatTime(b)) <==> !(a.seconds == b.seconds && FractionBegins(a, b))
    ensures TextLess(FormatTime(b), FormatTime(a)) <==> a.seconds == b.seconds && FractionBegins(a, b)
  {
    if a.seconds == b.seconds {
      hide Fraction, LexLess;
      var x, y := Fraction(a), Fraction(b);
      FractionOrder(a, b);
      FractionDigits(a);
      FractionDigits(b);
      ZuluOrder(x, y);
      ZuluOrder(y, x);
      LexAsym(y, x);
      Dotted(x, y);
      Dotted(y, x);
    }
  }

  lemma {:induction false} LexAsym(a: string, b: string)
    requires LexLess(b, a)
    ensures !LexLess(a, b) && a != b
  {
    if b != "" && a[0] == b[0] { LexAsym(a[1..], b[1..]); }
  }

  lemma Dotted(x: string, y: string)
    ensures LexLess("." + x + "Z", "." + y + "Z") == LexLess(x + "Z", y + "Z")
    ensures LexLess("." + x + "Z", "Z") && !LexLess("Z", "." + x + "Z")
  {
    assert ("." + x + "Z")[0] == '.' && ("." + y + "Z")[0] == '.';
    assert ("." + x + "Z")[1..] == x + "Z" && ("." + y + "Z")[1..] == y + "Z";
  }

  /** Equal instants, and only those, have equal texts. */
  lemma FormatInjective(a: Time, b: Time)
    requires FormatTime(a) == FormatTime(b)
    ensures a == b
  {
    if a.Before(b) {
      TextOrder(a, b);
      NotLessSelf(FormatTime(a));
    } else if b.Before(a) {
      TextOrder(b, a);
      NotLessSelf(FormatTime(a));
    }
  }

  lemma NotLessSelf(s: Stamp)
    ensures !TextLess(s, s)
  {
    if LexLess(s.suffix, s.suffix) { LexAsym(s.suffix, s.suffix); }
  }

  /** Half a second after a full second sorts before it: "...00.5Z" is less than "...00Z". */
  lemma HalfSecondSortsFirst(s: nat)
    ensures TextLess(FormatTime(Instant(s, 500_000_000)), FormatTime(Instant(s, 0)))
  {
  }
}
