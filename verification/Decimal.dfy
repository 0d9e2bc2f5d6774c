/**
 Zero-padded decimal digits as Go's time package prints and reads them, and the
 bytewise order of strings that the database sorts by. A char stands for a byte.
 */
module Decimal {

  predicate IsDigit(c: char) {
    '0' <= c <= '9'
  }

  predicate DigitAt(s: string, i: nat) {
    i < |s| && IsDigit(s[i])
  }

  predicate AllDigits(s: string) {
    forall i :: 0 <= i < |s| ==> IsDigit(s[i])
  }

  function DigitValue(c: char): (d: int)
    requires IsDigit(c)
    ensures 0 <= d < 10
  {
    c as int - '0' as int
  }

  function Digit(d: int): (c: char)
    requires 0 <= d < 10
    ensures IsDigit(c) && DigitValue(c) == d
  {
    ('0' as int + d) as char
  }

  // The digits of n, zero-padded on the left to at least `width` places.
  function Padded(n: nat, width: nat): (s: string)
    ensures AllDigits(s)
    ensures |s| >= width && |s| >= 1
    decreases n + width
  {
    if n < 10 && width <= 1 then [Digit(n)]
    else Padded(n / 10, if width > 0 then width - 1 else 0) + [Digit(n % 10)]
  }

  // A negative number prints its sign before the padded digits.
  function SignedPadded(n: int, width: nat): string {
    if n < 0 then "-" + Padded(-n, width) else Padded(n, width)
  }

  // The number a run of digits denotes.
  function Number(s: string): nat
    requires AllDigits(s)
  {
    if s == "" then 0 else 10 * Number(s[..|s| - 1]) + DigitValue(s[|s| - 1])
  }

  function Pow10(n: nat): (p: nat)
    ensures p >= 1
  {
    if n == 0 then 1 else 10 * Pow10(n - 1)
  }

  lemma {:induction false} NumberOfPadded(n: nat, width: nat)
    ensures Number(Padded(n, width)) == n
    decreases n + width
  {
    var s := Padded(n, width);
    if n < 10 && width <= 1 {
      assert s[..0] == "";
    } else {
      var rest := if width > 0 then width - 1 else 0;
      assert s[..|s| - 1] == Padded(n / 10, rest);
      NumberOfPadded(n / 10, rest);
    }
  }

  // A negative number reads as its sign and then its digits, padded as well.
  lemma SignedDenotes(n: int, width: nat)
    ensures var s := SignedPadded(n, width);
            var digits := if n < 0 then s[1..] else s;
            && s != "" && (s[0] == '-' <==> n < 0)
            && AllDigits(digits) && |digits| >= width
            && n == (if n < 0 then -1 else 1) * Number(digits)
  {
    NumberOfPadded(if n < 0 then -n else n, width);
    if n < 0 {
      assert SignedPadded(n, width)[1..] == Padded(-n, width);
    }
  }

  lemma {:induction false} PaddedLength(n: nat, width: nat)
    requires width >= 1
    ensures |Padded(n, width)| == width <==> n < Pow10(width)
    decreases n + width
  {
    if n < 10 && width <= 1 {
      assert Pow10(1) == 10;
    } else if width == 1 {
      assert Pow10(1) == 10;
    } else {
      PaddedLength(n / 10, width - 1);
      assert Pow10(width) == 10 * Pow10(width - 1);
    }
  }

  lemma {:induction false} NumberBound(s: string)
    requires AllDigits(s)
    ensures Number(s) < Pow10(|s|)
  {
    if s != "" {
      NumberBound(s[..|s| - 1]);
    }
  }

  // Bytewise order of strings.
  predicate Less(a: string, b: string) {
    if b == "" then false
    else if a == "" then true
    else a[0] < b[0] || (a[0] == b[0] && Less(a[1..], b[1..]))
  }

  // A text is less when it goes on, after what the two share, with a smaller
  // byte or not at all.
  ghost predicate PartsLower(a: string, b: string, k: nat) {
    k <= |a| && k < |b| && a[..k] == b[..k] && (k == |a| || a[k] < b[k])
  }

  lemma {:induction false} LessExactly(a: string, b: string)
    ensures Less(a, b) <==> exists k: nat :: PartsLower(a, b, k)
  {
    if b == "" {
    } else if a == "" || a[0] < b[0] {
      assert PartsLower(a, b, 0);
    } else if a[0] == b[0] {
      LessExactly(a[1..], b[1..]);
      if k: nat :| PartsLower(a[1..], b[1..], k) {
        assert a[..k + 1] == [a[0]] + a[1..][..k] && b[..k + 1] == [b[0]] + b[1..][..k];
        assert PartsLower(a, b, k + 1);
      }
      if k: nat :| PartsLower(a, b, k) {
        assert k > 0;
        assert a[1..][..k - 1] == a[..k][1..] && b[1..][..k - 1] == b[..k][1..];
        assert PartsLower(a[1..], b[1..], k - 1);
      }
    } else {
      forall k: nat ensures !PartsLower(a, b, k) {
        if k > 0 && k <= |a| && k < |b| {
          assert a[..k][0] == a[0] && b[..k][0] == b[0];
        }
      }
    }
  }

  lemma {:induction false} LessAfterPrefix(p: string, a: string, b: string)
    ensures Less(p + a, p + b) <==> Less(a, b)
  {
    if p == "" {
      assert p + a == a && p + b == b;
    } else {
      assert (p + a)[1..] == p[1..] + a && (p + b)[1..] == p[1..] + b;
      LessAfterPrefix(p[1..], a, b);
    }
  }

  lemma LessByDigit(i: int, j: int, a: string, b: string)
    requires 0 <= i < 10 && 0 <= j < 10
    ensures Less([Digit(i)] + a, [Digit(j)] + b) <==> i < j || (i == j && Less(a, b))
  {
    assert ([Digit(i)] + a)[1..] == a && ([Digit(j)] + b)[1..] == b;
  }

  lemma SplitOrder(m: nat, n: nat)
    ensures m < n <==> m / 10 < n / 10 || (m / 10 == n / 10 && m % 10 < n % 10)
    ensures m == n <==> m / 10 == n / 10 && m % 10 == n % 10
  {
  }

  // Texts of one length order as their numbers do, and ties pass to what follows.
  lemma {:induction false} LessByLength(m: nat, n: nat, width: nat, a: string, b: string)
    requires |Padded(m, width)| == |Padded(n, width)|
    ensures Less(Padded(m, width) + a, Padded(n, width) + b) <==> m < n || (m == n && Less(a, b))
    decreases m + width
  {
    if m < 10 && width <= 1 {
      LessByDigit(m, n, a, b);
    } else {
      var rest := if width > 0 then width - 1 else 0;
      var a', b' := [Digit(m % 10)] + a, [Digit(n % 10)] + b;
      assert Padded(m, width) + a == Padded(m / 10, rest) + a';
      assert Padded(n, width) + b == Padded(n / 10, rest) + b';
      LessByLength(m / 10, n / 10, rest, a', b');
      LessByDigit(m % 10, n % 10, a, b);
      SplitOrder(m, n);
    }
  }

  lemma LessByNumber(m: nat, n: nat, width: nat, a: string, b: string)
    requires width >= 1 && m < Pow10(width) && n < Pow10(width)
    ensures Less(Padded(m, width) + a, Padded(n, width) + b) <==> m < n || (m == n && Less(a, b))
  {
    PaddedLength(m, width);
    PaddedLength(n, width);
    LessByLength(m, n, width, a, b);
  }

  lemma PaddedTens(n: nat, width: nat)
    requires n >= 10 || width > 1
    ensures Padded(n, width) == Padded(n / 10, if width > 0 then width - 1 else 0) + [Digit(n % 10)]
    ensures Padded(n, width)[0] == Padded(n / 10, if width > 0 then width - 1 else 0)[0]
  {
  }

  lemma Tens(n: nat)
    requires n > 0
    ensures if n % 10 == 0 then n / 10 > 0 && (n - 1) / 10 == n / 10 - 1 else (n - 1) / 10 == n / 10
  {
  }

  // The next number is no wider, or by one digit: past all nines.
  lemma {:induction false} WidthStep(n: nat, width: nat)
    requires n > 0
    ensures var p, q := Padded(n - 1, width), Padded(n, width);
            |q| == |p| || (|q| == |p| + 1 && p[0] == '9' && q[0] == '1')
    decreases n + width
  {
    if n < 10 && width <= 1 {
    } else if n == 10 && width <= 1 {
      PaddedTens(10, width);
      assert Padded(1, 0) == [Digit(1)];
    } else {
      Tens(n);
      PaddedTens(n, width);
      PaddedTens(n - 1, width);
      if n % 10 == 0 {
        WidthStep(n / 10, if width > 0 then width - 1 else 0);
      }
    }
  }

  lemma {:induction false} WidthsAscend(m: nat, n: nat, width: nat)
    requires m <= n
    ensures |Padded(m, width)| <= |Padded(n, width)|
    decreases n - m
  {
    if m < n {
      WidthStep(n, width);
      WidthsAscend(m, n - 1, width);
    }
  }
}
