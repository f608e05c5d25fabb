/** Decimal numerals as keys: printing, reading back, and their alphabetical order. */
module Numerals {
  import opened Basics

  function Digit(d: nat): char
    requires d < 10
  {
    "0123456789"[d]
  }

  predicate IsDigit(c: char) {
    '0' <= c <= '9'
  }

  function DigitValue(c: char): nat
    requires IsDigit(c)
  {
    (c as int) - ('0' as int)
  }

  /** The usual decimal numeral, without padding. */
  function Decimal(n: nat): (s: string)
    ensures s != [] && forall i :: 0 <= i < |s| ==> IsDigit(s[i])
  {
    if n < 10 then [Digit(n)] else Decimal(n / 10) + [Digit(n % 10)]
  }

  function Value(s: string): nat
    requires forall i :: 0 <= i < |s| ==> IsDigit(s[i])
  {
    if s == [] then 0 else Value(s[..|s| - 1]) * 10 + DigitValue(s[|s| - 1])
  }

  lemma {:induction false} DecimalRoundTrip(n: nat)
    ensures Value(Decimal(n)) == n
  {
    if n >= 10 {
      DecimalRoundTrip(n / 10);
      var s := Decimal(n / 10);
      assert (s + [Digit(n % 10)])[..|s|] == s;
    } else {
      assert Value([]) == 0;
      assert Decimal(n)[..0] == [];
    }
  }

  // ----- Reading a number the way the C library does

  datatype Parsed = Number(n: nat) | NoNumber | OutOfRange

  predicate IsSpace(c: char) {
    c == ' ' || c == '\t' || c == '\n' || c == '\r' || c == '\U{0B}' || c == '\U{0C}'
  }

  function SkipSpaces(s: string): string {
    if s != [] && IsSpace(s[0]) then SkipSpaces(s[1..]) else s
  }

  function LeadingDigits(s: string): (d: string)
    ensures forall i :: 0 <= i < |d| ==> IsDigit(d[i])
  {
    if s != [] && IsDigit(s[0]) then [s[0]] + LeadingDigits(s[1..]) else []
  }

  /** Leading spaces, an optional sign, then the longest run of digits; the rest is ignored and a
      minus sign negates modulo 2^64. */
  function Stoull(s: string): Parsed {
    var t := SkipSpaces(s);
    var negative := t != [] && t[0] == '-';
    FromDigits(LeadingDigits(if t != [] && (t[0] == '-' || t[0] == '+') then t[1..] else t), negative)
  }

  function FromDigits(d: string, negative: bool): Parsed
    requires forall i :: 0 <= i < |d| ==> IsDigit(d[i])
  {
    if d == [] then NoNumber
    else if Value(d) >= TWO64 then OutOfRange
    else Number(if negative then Wrap(0 - Value(d)) else Value(d))
  }

  lemma {:induction false} AllLeading(s: string)
    requires forall i :: 0 <= i < |s| ==> IsDigit(s[i])
    ensures LeadingDigits(s) == s
  {
    if s != [] {
      AllLeading(s[1..]);
    }
  }

  lemma {:induction false} SpacesSkipped(w: string, s: string)
    requires (forall i :: 0 <= i < |w| ==> IsSpace(w[i])) && (s == [] || !IsSpace(s[0]))
    ensures SkipSpaces(w + s) == s
  {
    if w == [] {
      assert w + s == s;
    } else {
      assert (w + s)[1..] == w[1..] + s;
      SpacesSkipped(w[1..], s);
    }
  }

  lemma {:induction false} DigitsRead(d: string, s: string)
    requires (forall i :: 0 <= i < |d| ==> IsDigit(d[i])) && (s == [] || !IsDigit(s[0]))
    ensures LeadingDigits(d + s) == d
  {
    if d == [] {
      assert d + s == s;
    } else {
      assert (d + s)[1..] == d[1..] + s;
      DigitsRead(d[1..], s);
    }
  }

  /** Spaces, a sign if any, the longest run of digits: their value is read, negated modulo 2^64 after a
      minus sign, and what follows is ignored; without digits nothing is read. */
  lemma StoullReads(w: string, sign: string, d: string, rest: string)
    requires forall i :: 0 <= i < |w| ==> IsSpace(w[i])
    requires sign == "" || sign == "+" || sign == "-"
    requires forall i :: 0 <= i < |d| ==> IsDigit(d[i])
    requires rest == [] || !IsDigit(rest[0])
    requires sign == "" && d == [] && rest != [] ==> !IsSpace(rest[0]) && rest[0] != '+' && rest[0] != '-'
    ensures Stoull(w + (sign + (d + rest))) ==
      if d == [] then NoNumber else if Value(d) >= TWO64 then OutOfRange
      else if sign == "-" && Value(d) > 0 then Number(TWO64 - Value(d)) else Number(Value(d))
  {
    hide Stoull, Value, IsSpace, IsDigit;
    SignedReads(w, sign, d, rest);
    if d != [] && Value(d) < TWO64 {
      assert Wrap(0 - Value(d)) == if Value(d) > 0 then TWO64 - Value(d) else 0;
    }
  }

  lemma SignedReads(w: string, sign: string, d: string, rest: string)
    requires forall i :: 0 <= i < |w| ==> IsSpace(w[i])
    requires sign == "" || sign == "+" || sign == "-"
    requires forall i :: 0 <= i < |d| ==> IsDigit(d[i])
    requires rest == [] || !IsDigit(rest[0])
    requires sign == "" && d == [] && rest != [] ==> !IsSpace(rest[0]) && rest[0] != '+' && rest[0] != '-'
    ensures Stoull(w + (sign + (d + rest))) == FromDigits(d, sign == "-")
  {
    hide SkipSpaces, LeadingDigits, FromDigits, IsSpace, IsDigit;
    SignedStart(sign, d, rest);
    SpacesSkipped(w, sign + (d + rest));
    DigitsRead(d, rest);
  }

  lemma SignedStart(sign: string, d: string, rest: string)
    requires sign == "" || sign == "+" || sign == "-"
    requires forall i :: 0 <= i < |d| ==> IsDigit(d[i])
    requires sign == "" && d == [] && rest != [] ==> !IsSpace(rest[0]) && rest[0] != '+' && rest[0] != '-'
    ensures var t := sign + (d + rest);
      && (t == [] || !IsSpace(t[0]))
      && (sign == "" ==> t == d + rest && (t == [] || (t[0] != '-' && t[0] != '+')))
      && (sign != "" ==> t != [] && t[0] == sign[0] && t[1..] == d + rest)
  {
    if sign == "" {
      assert sign + (d + rest) == d + rest;
    }
  }

  /** Every 64-bit number is read back as printed. */
  lemma StoullInvertsDecimal(n: nat)
    ensures Stoull(Decimal(n)) == if n < TWO64 then Number(n) else OutOfRange
  {
    var s := Decimal(n);
    assert IsDigit(s[0]);
    AllLeading(s);
    DecimalRoundTrip(n);
  }

  lemma DecimalInjective(a: nat, b: nat)
    requires Decimal(a) == Decimal(b)
    ensures a == b
  {
    DecimalRoundTrip(a);
    DecimalRoundTrip(b);
  }

  // ----- Alphabetical order

  predicate Less(a: string, b: string) {
    b != [] && (a == [] || a[0] < b[0] || (a[0] == b[0] && Less(a[1..], b[1..])))
  }

  lemma {:induction false} LessTotal(a: string, b: string)
    ensures a == b || Less(a, b) || Less(b, a)
    ensures !(Less(a, b) && Less(b, a)) && !Less(a, a)
  {
    if a != [] && b != [] && a[0] == b[0] {
      LessTotal(a[1..], b[1..]);
      assert a == [a[0]] + a[1..] && b == [b[0]] + b[1..];
    }
    if a != [] {
      LessTotal(a[1..], a[1..]);
    }
  }

  lemma {:induction false} LessTrans(a: string, b: string, c: string)
    requires Less(a, b) && Less(b, c)
    ensures Less(a, c)
  {
    if a != [] && a[0] == b[0] && b[0] == c[0] {
      LessTrans(a[1..], b[1..], c[1..]);
    }
  }

  lemma {:induction false} LessPrepend(p: string, a: string, b: string)
    ensures Less(p + a, p + b) <==> Less(a, b)
  {
    if p == [] {
      assert p + a == a && p + b == b;
    } else {
      assert (p + a)[1..] == p[1..] + a && (p + b)[1..] == p[1..] + b;
      LessPrepend(p[1..], a, b);
    }
  }

  lemma {:induction false} LessSnoc(p: string, q: string, x: char, y: char)
    requires |p| == |q|
    ensures Less(p + [x], q + [y]) <==> Less(p, q) || (p == q && x < y)
  {
    if p == [] {
      assert p + [x] == [x] && q + [y] == [y];
    } else {
      assert (p + [x])[1..] == p[1..] + [x] && (q + [y])[1..] == q[1..] + [y];
      LessSnoc(p[1..], q[1..], x, y);
      assert p == [p[0]] + p[1..] && q == [q[0]] + q[1..];
    }
  }

  /** Among numerals of equal length, alphabetical order is numeric order. */
  lemma {:induction false} SameLengthOrder(a: nat, b: nat)
    requires |Decimal(a)| == |Decimal(b)|
    ensures Less(Decimal(a), Decimal(b)) <==> a < b
  {
    if a < 10 || b < 10 {
      OneDigit(a);
      OneDigit(b);
      LessSnoc([], [], Digit(a), Digit(b));
      DigitOrder(a, b);
    } else {
      SameLengthOrder(a / 10, b / 10);
      LessSnoc(Decimal(a / 10), Decimal(b / 10), Digit(a % 10), Digit(b % 10));
      DigitOrder(a % 10, b % 10);
      hide Less, Digit;
      if Decimal(a / 10) == Decimal(b / 10) {
        DecimalInjective(a / 10, b / 10);
      }
    }
  }

  lemma OneDigit(n: nat)
    ensures |Decimal(n)| == 1 <==> n < 10
    ensures n < 10 ==> Decimal(n) == [] + [Digit(n)]
  {
  }

  lemma DigitOrder(x: nat, y: nat)
    requires x < 10 && y < 10
    ensures Digit(x) < Digit(y) <==> x < y
  {
  }

  lemma {:induction false} LengthMonotone(a: nat, b: nat)
    requires a <= b
    ensures |Decimal(a)| <= |Decimal(b)|
  {
    if b >= 10 && a >= 10 {
      LengthMonotone(a / 10, b / 10);
    }
  }

  /** Where the numerals get longer, the longer one comes first alphabetically. */
  lemma {:induction false} LongerSortsFirst(m: nat)
    requires |Decimal(m)| < |Decimal(m + 1)|
    ensures Decimal(m)[0] == '9' && Decimal(m + 1)[0] == '1'
    ensures Less(Decimal(m + 1), Decimal(m))
  {
    if m < 10 {
      assert m == 9;
      assert Decimal(1) == ['1'];
      assert Decimal(10) == Decimal(1) + ['0'];
    } else {
      assert m % 10 == 9;
      assert (m + 1) / 10 == m / 10 + 1;
      LongerSortsFirst(m / 10);
    }
  }

  /** The number formed by the first `k` digits. */
  function Leading(n: nat, k: nat): nat
    requires k >= 1
  {
    if |Decimal(n)| <= k then n else Leading(n / 10, k)
  }

  lemma {:induction false} LessExtend(x: string, y: string, c: char)
    requires |x| <= |y|
    ensures Less(x, y + [c]) <==> Less(x, y) || x == y
  {
    if x != [] {
      assert (y + [c])[1..] == y[1..] + [c];
      LessExtend(x[1..], y[1..], c);
      assert x == [x[0]] + x[1..] && y == [y[0]] + y[1..];
    }
  }

  /** The smaller number comes first alphabetically exactly when the larger one, cut to as many
      digits, is not below it. */
  lemma {:induction false} NumeralOrder(a: nat, b: nat)
    requires a < b
    ensures Less(Decimal(a), Decimal(b)) <==> a <= Leading(b, |Decimal(a)|)
    decreases b
  {
    LengthMonotone(a, b);
    if |Decimal(a)| == |Decimal(b)| {
      SameLengthOrder(a, b);
    } else {
      CutDigit(a, b);
      var c := b / 10;
      if a < c {
        NumeralOrder(a, c);
      } else if |Decimal(a)| == |Decimal(c)| {
        SameLengthOrder(a, c);
      } else {
        LengthMonotone(c, a);
        assert false;
      }
    }
  }

  /** In terms of the numbers: which of two comes first alphabetically. */
  predicate Precedes(a: nat, b: nat) {
    if a < b then a <= Leading(b, |Decimal(a)|) else a > b && Leading(a, |Decimal(b)|) < b
  }

  lemma NumeralPrecedes(a: nat, b: nat)
    ensures Less(Decimal(a), Decimal(b)) <==> Precedes(a, b)
  {
    hide Less, Leading, Decimal;
    LessTotal(Decimal(a), Decimal(b));
    if a < b {
      NumeralOrder(a, b);
    } else if a > b {
      NumeralOrder(b, a);
      if Decimal(a) == Decimal(b) {
        DecimalInjective(a, b);
      }
    }
  }

  lemma CutDigit(a: nat, b: nat)
    requires |Decimal(a)| < |Decimal(b)|
    ensures b >= 10 && |Decimal(a)| <= |Decimal(b / 10)|
    ensures Less(Decimal(a), Decimal(b)) <==> Less(Decimal(a), Decimal(b / 10)) || a == b / 10
  {
    LessExtend(Decimal(a), Decimal(b / 10), Digit(b % 10));
    if Decimal(a) == Decimal(b / 10) {
      DecimalInjective(a, b / 10);
    }
  }
}
