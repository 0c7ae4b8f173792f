/** Small helpers shared by the model: an Option type, ASCII case folding,
    decimal digits and a few sequence facts. */
module Basics {

  datatype Option<+T> = None | Some(value: T)

  /** Lower-cases an ASCII letter and leaves every other character alone. */
  function LowerChar(c: char): char
  {
    if 'A' <= c <= 'Z' then (c as int + 32) as char else c
  }

  /** `str.lower()`, restricted to ASCII letters. */
  function Lower(s: string): string
  {
    seq(|s|, i requires 0 <= i < |s| => LowerChar(s[i]))
  }

  lemma LowerIsIdempotent(s: string)
    ensures Lower(Lower(s)) == Lower(s)
  {
  }

  predicate IsDigitChar(c: char)
  {
    '0' <= c <= '9'
  }

  /** `str.isdigit()` for ASCII digits: non-empty and every character a digit. */
  predicate IsDigits(s: string)
  {
    |s| > 0 && forall k :: 0 <= k < |s| ==> IsDigitChar(s[k])
  }

  function DigitValue(c: char): nat
  {
    if IsDigitChar(c) then c as int - '0' as int else 0
  }

  function DigitChar(d: nat): char
    requires d < 10
  {
    ('0' as int + d) as char
  }

  /** The natural number a string of decimal digits spells, most significant first. */
  function DigitsValue(s: string): nat
  {
    if s == [] then 0 else DigitsValue(s[..|s| - 1]) * 10 + DigitValue(s[|s| - 1])
  }

  /** 10 to the power n. */
  function Pow10(n: nat): (p: nat)
    ensures p >= 1
  {
    if n == 0 then 1 else 10 * Pow10(n - 1)
  }

  /** A string of n digits spells a number below 10^n. */
  lemma {:induction false} DigitsBelowPower(s: string)
    ensures DigitsValue(s) < Pow10(|s|)
  {
    if s != [] {
      var init := s[..|s| - 1];
      DigitsBelowPower(init);
      assert DigitValue(s[|s| - 1]) <= 9;
      assert DigitsValue(s) <= (Pow10(|init|) - 1) * 10 + 9;
    }
  }

  /** Place value: the digits of a followed by those of b spell a * 10^|b| + b. */
  lemma {:induction false} DigitsValueAppend(a: string, b: string)
    ensures DigitsValue(a + b) == DigitsValue(a) * Pow10(|b|) + DigitsValue(b)
    decreases |b|
  {
    if b == [] {
      assert a + b == a;
    } else {
      var b' := b[..|b| - 1];
      var d := DigitValue(b[|b| - 1]);
      assert (a + b)[..|a + b| - 1] == a + b';
      assert (a + b)[|a + b| - 1] == b[|b| - 1];
      DigitsValueAppend(a, b');
      var x, p, y := DigitsValue(a), Pow10(|b'|), DigitsValue(b');
      assert DigitsValue(a + b) == (x * p + y) * 10 + d;
      assert Pow10(|b|) == p * 10;
      ShiftDigit(x, p, y, d);
    }
  }

  /** The arithmetic step of appending one digit. */
  lemma ShiftDigit(x: int, p: int, y: int, d: int)
    ensures (x * p + y) * 10 + d == x * (p * 10) + (y * 10 + d)
  {
  }

  /** Python's `str(n)` for a natural number. */
  function Decimal(n: nat): string
  {
    if n < 10 then [DigitChar(n)] else Decimal(n / 10) + [DigitChar(n % 10)]
  }

  predicate StartsWith(s: string, prefix: string)
  {
    |prefix| <= |s| && s[..|prefix|] == prefix
  }

  /** The set of elements of a sequence. */
  function Elements<T>(s: seq<T>): set<T>
  {
    set x | x in s
  }

  lemma {:induction false} SubsetCardinality<T>(a: set<T>, b: set<T>)
    requires a <= b
    ensures |a| <= |b|
    decreases b
  {
    if a != {} {
      var x :| x in a;
      SubsetCardinality(a - {x}, b - {x});
    }
  }

  /** Lower-casing every element of a set never makes it larger. */
  lemma {:induction false} LowerImageCardinality(s: set<string>)
    ensures |set x | x in s :: Lower(x)| <= |s|
    decreases s
  {
    if s != {} {
      var x :| x in s;
      var rest := s - {x};
      LowerImageCardinality(rest);
      var img := set y | y in s :: Lower(y);
      var restImg := set y | y in rest :: Lower(y);
      assert img == restImg + {Lower(x)};
    }
  }

  /** The list comprehension `[f(x) for x in xs if keep(x)]`: the images of
      the kept elements, in their original order. */
  function FilterMap<T, U>(xs: seq<T>, keep: T -> bool, f: T -> U): (r: seq<U>)
    ensures |r| <= |xs|
  {
    if xs == [] then []
    else
      var last := xs[|xs| - 1];
      FilterMap(xs[..|xs| - 1], keep, f) + (if keep(last) then [f(last)] else [])
  }

  /** One more element extends the result by its image, if it is kept. */
  lemma FilterMapSnoc<T, U>(xs: seq<T>, i: nat, keep: T -> bool, f: T -> U)
    requires i < |xs|
    ensures FilterMap(xs[..i + 1], keep, f) ==
      FilterMap(xs[..i], keep, f) + (if keep(xs[i]) then [f(xs[i])] else [])
  {
    assert xs[..i + 1][..i] == xs[..i];
  }

  /** Filtering commutes with concatenation, so relative order is kept. */
  lemma {:induction false} FilterMapAppend<T, U>(a: seq<T>, b: seq<T>, keep: T -> bool, f: T -> U)
    ensures FilterMap(a + b, keep, f) == FilterMap(a, keep, f) + FilterMap(b, keep, f)
    decreases |b|
  {
    if b == [] {
      assert a + b == a;
    } else {
      var b' := b[..|b| - 1];
      assert (a + b)[..|a + b| - 1] == a + b';
      assert (a + b)[|a + b| - 1] == b[|b| - 1];
      FilterMapAppend(a, b', keep, f);
    }
  }

  /** Every element of the result is the image of a kept element. */
  lemma {:induction false} FilterMapSound<T, U>(xs: seq<T>, keep: T -> bool, f: T -> U, y: U)
    requires y in FilterMap(xs, keep, f)
    ensures exists i :: 0 <= i < |xs| && keep(xs[i]) && y == f(xs[i])
  {
    var n := |xs| - 1;
    var init := xs[..n];
    if y in FilterMap(init, keep, f) {
      FilterMapSound(init, keep, f, y);
      var i :| 0 <= i < |init| && keep(init[i]) && y == f(init[i]);
      assert xs[i] == init[i];
    } else {
      assert keep(xs[n]) && y == f(xs[n]);
    }
  }

  /** Every kept element contributes its image. */
  lemma {:induction false} FilterMapComplete<T, U>(xs: seq<T>, keep: T -> bool, f: T -> U, i: nat)
    requires i < |xs| && keep(xs[i])
    ensures f(xs[i]) in FilterMap(xs, keep, f)
  {
    var n := |xs| - 1;
    var init := xs[..n];
    if i < n {
      assert init[i] == xs[i];
      FilterMapComplete(init, keep, f, i);
    }
  }

  /** Nothing is kept exactly when no element passes the test. */
  lemma {:induction false} FilterMapEmpty<T, U>(xs: seq<T>, keep: T -> bool, f: T -> U)
    ensures FilterMap(xs, keep, f) == [] <==> forall i :: 0 <= i < |xs| ==> !keep(xs[i])
  {
    if xs != [] {
      var n := |xs| - 1;
      var init := xs[..n];
      FilterMapEmpty(init, keep, f);
      if FilterMap(xs, keep, f) == [] {
        forall i | 0 <= i < |xs| ensures !keep(xs[i]) {
          if i < n {
            assert xs[i] == init[i];
          }
        }
      }
    }
  }
}
