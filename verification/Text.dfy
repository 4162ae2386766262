/** Byte order of texts. A text is the sequence of its UTF-8 bytes, each as the char of its code. */
module Texts {
  import Sorting

  predicate LexLess(a: string, b: string) {
    b != "" && (a == "" || a[0] < b[0] || (a[0] == b[0] && LexLess(a[1..], b[1..])))
  }

  lemma {:induction false} LexIrreflexive(a: string)
    ensures !LexLess(a, a)
  {
    if a != "" { LexIrreflexive(a[1..]); }
  }

  lemma {:induction false} LexTransitive(a: string, b: string, c: string)
    requires LexLess(a, b) && LexLess(b, c)
    ensures LexLess(a, c)
  {
    if a != "" && a[0] == b[0] && b[0] == c[0] { LexTransitive(a[1..], b[1..], c[1..]); }
  }

  lemma {:induction false} LexTotal(a: string, b: string)
    ensures a == b || LexLess(a, b) || LexLess(b, a)
  {
    if a != "" && b != "" && a[0] == b[0] {
      LexTotal(a[1..], b[1..]);
      assert a == [a[0]] + a[1..] && b == [b[0]] + b[1..];
    }
  }

  lemma LexIsStrict()
    ensures Sorting.StrictOrder(LexLess)
  {
    forall a: string ensures !LexLess(a, a) { LexIrreflexive(a); }
    forall a: string, b: string, c: string | LexLess(a, b) && LexLess(b, c) ensures LexLess(a, c) {
      LexTransitive(a, b, c);
    }
  }

  lemma LexIsTotal()
    ensures Sorting.TotalOrder(LexLess)
  {
    LexIsStrict();
    forall a: string, b: string ensures a == b || LexLess(a, b) || LexLess(b, a) { LexTotal(a, b); }
  }

  /** A common start does not matter. */
  lemma {:induction false} LexSame(x: string, p: string, q: string)
    requires LexLess(p, q)
    ensures LexLess(x + p, x + q)
  {
    if x == "" {
      assert x + p == p && x + q == q;
    } else {
      var a, b := x + p, x + q;
      LexSame(x[1..], p, q);
      assert a[0] == b[0] == x[0];
      assert a[1..] == x[1..] + p && b[1..] == x[1..] + q;
    }
  }

  /** Between starts of one length, the starts decide. */
  lemma {:induction false} LexFirst(x: string, y: string, p: string, q: string)
    requires |x| == |y| && LexLess(x, y)
    ensures LexLess(x + p, y + q)
  {
    assert (x + p)[1..] == x[1..] + p && (y + q)[1..] == y[1..] + q;
    if x[0] == y[0] { LexFirst(x[1..], y[1..], p, q); }
  }
}

/** Decimal digits: the source's digit fold and its zero-padded formatting. */
module Decimals {
  import opened Wrappers
  import opened Texts

  predicate IsDigit(c: char) {
    '0' <= c <= '9'
  }

  function DigitValue(c: char): (d: nat)
    requires IsDigit(c)
    ensures d < 10
  {
    c as int - '0' as int
  }

  function DigitChar(d: nat): (c: char)
    requires d < 10
    ensures IsDigit(c) && DigitValue(c) == d
  {
    ('0' as int + d) as char
  }

  /** The value of a text of digits, first digit first; anything else has none. */
  function Number(digits: string): Option<nat> {
    if digits == "" then
      Some(0)
    else
      var front, last := Number(digits[..|digits| - 1]), digits[|digits| - 1];
      if front.Some? && IsDigit(last) then Some(front.value * 10 + DigitValue(last)) else None
  }

  /** Decimal digits with zeros in front up to `width`, as `{:0width}` writes them. */
  function Padded(n: nat, width: nat): (s: string)
    ensures s != ""
    decreases n + width
  {
    if width <= 1 && n < 10 then
      [DigitChar(n)]
    else
      Padded(n / 10, if width > 1 then width - 1 else 1) + [DigitChar(n % 10)]
  }

  function Pow10(n: nat): (p: nat)
    ensures p >= 1
  {
    if n == 0 then 1 else 10 * Pow10(n - 1)
  }

  method ReadNumber(digits: string) returns (value: Option<nat>)
    ensures value == Number(digits)
  {
    var sum := 0;
    for i := 0 to |digits|
      invariant Number(digits[..i]) == Some(sum)
    {
      assert digits[..i + 1][..i] == digits[..i];
      if !IsDigit(digits[i]) {
        NumberStops(digits, i + 1);
        return None;
      }
      sum := sum * 10 + DigitValue(digits[i]);
    }
    assert digits[..|digits|] == digits;
    value := Some(sum);
  }

  lemma {:induction false} NumberStops(digits: string, n: nat)
    requires n <= |digits| && Number(digits[..n]).None?
    ensures Number(digits).None?
  {
    if n < |digits| {
      assert digits[..|digits| - 1][..n] == digits[..n];
      NumberStops(digits[..|digits| - 1], n);
    } else {
      assert digits[..n] == digits;
    }
  }

  /** Reading what was written gives the number, whatever the padding. */
  lemma {:induction false} PaddedReads(n: nat, width: nat)
    ensures Number(Padded(n, width)) == Some(n)
    decreases n + width
  {
    var s := Padded(n, width);
    if width <= 1 && n < 10 {
      assert s[..0] == "";
    } else {
      PaddedReads(n / 10, if width > 1 then width - 1 else 1);
      assert s[..|s| - 1] == Padded(n / 10, if width > 1 then width - 1 else 1);
    }
  }

  /** The width is exact for every number it has room for, and never less. */
  lemma {:induction false} PaddedWidth(n: nat, width: nat)
    requires 1 <= width
    ensures |Padded(n, width)| >= width
    ensures |Padded(n, width)| == width <==> n < Pow10(width)
    decreases n + width
  {
    if width > 1 || n >= 10 {
      PaddedWidth(n / 10, if width > 1 then width - 1 else 1);
      assert width > 1 ==> (n < Pow10(width) <==> n / 10 < Pow10(width - 1));
      assert Pow10(1) == 10;
    } else {
      assert Pow10(1) == 10;
    }
  }

  /** Writing what was read gives the digits back. */
  lemma {:induction false} NumberPads(digits: string)
    requires digits != "" && Number(digits).Some?
    ensures Padded(Number(digits).value, |digits|) == digits
  {
    var front, last := digits[..|digits| - 1], digits[|digits| - 1];
    assert digits == front + [last];
    if front != "" {
      NumberPads(front);
      PaddedNext(Number(front).value, last, |front|);
    }
  }

  lemma PaddedNext(n: nat, last: char, width: nat)
    requires 1 <= width && IsDigit(last)
    ensures Padded(n * 10 + DigitValue(last), width + 1) == Padded(n, width) + [last]
  {
    assert DigitChar(DigitValue(last)) == last;
  }

  lemma {:induction false} NumberBound(digits: string)
    requires Number(digits).Some?
    ensures Number(digits).value < Pow10(|digits|)
  {
    if digits != "" { NumberBound(digits[..|digits| - 1]); }
  }

  lemma {:induction false} LexLast(p: string, q: string, c: char, d: char)
    requires |p| == |q| && (LexLess(p, q) || (p == q && c < d))
    ensures LexLess(p + [c], q + [d])
  {
    if LexLess(p, q) {
      LexFirst(p, q, [c], [d]);
    } else {
      LexSame(p, [c], [d]);
    }
  }

  /** Numbers of one width are ordered as their digits. */
  lemma {:induction false} PaddedOrder(a: nat, b: nat, width: nat)
    requires 1 <= width && a < b < Pow10(width)
    ensures LexLess(Padded(a, width), Padded(b, width))
    decreases width
  {
    if width == 1 {
      assert Pow10(1) == 10;
      assert Padded(a, 1) == "" + [DigitChar(a)] && Padded(b, 1) == "" + [DigitChar(b)];
      LexLast("", "", DigitChar(a), DigitChar(b));
    } else {
      PaddedWidth(a / 10, width - 1);
      PaddedWidth(b / 10, width - 1);
      if a / 10 < b / 10 { PaddedOrder(a / 10, b / 10, width - 1); }
      LexLast(Padded(a / 10, width - 1), Padded(b / 10, width - 1), DigitChar(a % 10), DigitChar(b % 10));
    }
  }

  /** A field of fixed width decides the order, and passes a tie on to the rest. */
  lemma FieldOrder(a: nat, b: nat, width: nat, separator: string, p: string, q: string)
    requires 1 <= width && a < Pow10(width) && b < Pow10(width)
    requires a < b || (a == b && LexLess(p, q))
    ensures LexLess(Padded(a, width) + (separator + p), Padded(b, width) + (separator + q))
  {
    PaddedWidth(a, width);
    PaddedWidth(b, width);
    if a < b {
      PaddedOrder(a, b, width);
      LexFirst(Padded(a, width), Padded(b, width), separator + p, separator + q);
    } else {
      LexSame(separator, p, q);
      LexSame(Padded(a, width), separator + p, separator + q);
    }
  }
}
