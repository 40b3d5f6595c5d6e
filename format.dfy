/**
 * The pieces of Rust's integer semantics that `Transcript::as_lrc` relies on:
 * `/` and `%` on `i64`, which truncate toward zero, and the `{:02}` format
 * specifier, which prints a decimal number zero-padded to a minimum width of two.
 */
module Format {

  predicate IsDigit(c: char) {
    '0' <= c <= '9'
  }

  predicate AllDigits(s: string) {
    forall i :: 0 <= i < |s| ==> IsDigit(s[i])
  }

  function DigitValue(c: char): (d: nat)
    requires IsDigit(c)
    ensures d < 10
  {
    c as int - '0' as int
  }

  function DigitChar(d: nat): (c: char)
    requires d < 10
    ensures IsDigit(c) && DigitValue(c) == d
  {
    ('0' as int + d) as char
  }

  /** The number a string of decimal digits denotes (the empty string denotes 0). */
  function DecimalValue(s: string): nat
    requires AllDigits(s)
  {
    if s == [] then 0 else DecimalValue(s[..|s| - 1]) * 10 + DigitValue(s[|s| - 1])
  }

  /** The shortest decimal rendering of `n`, as Rust's `Display` for integers prints it. */
  function Decimal(n: nat): (s: string)
    ensures AllDigits(s) && DecimalValue(s) == n
    ensures 1 <= |s| && (|s| == 1 <==> n < 10)
    ensures n < 100 ==> |s| <= 2
    ensures |s| > 1 ==> s[0] != '0'
    decreases n
  {
    if n < 10 then [DigitChar(n)]
    else
      var prefix := Decimal(n / 10);
      assert |prefix| == 1 ==> DecimalValue(prefix) == DigitValue(prefix[0]) by {
        if |prefix| == 1 { assert prefix[..0] == []; }
      }
      var s := prefix + [DigitChar(n % 10)];
      assert s[..|s| - 1] == prefix;
      s
  }

  function Max(a: int, b: int): int {
    if a < b then b else a
  }

  /** `k` copies of the character `c`. */
  function Repeat(c: char, k: nat): (s: string)
    ensures |s| == k && forall i :: 0 <= i < k ==> s[i] == c
  {
    seq(k, _ => c)
  }

  function Abs(n: int): nat {
    if n < 0 then -n else n
  }

  /**
   * `format!("{:02}", n)`: the sign of a negative value, a `0` before a single
   * digit, then the digits of the magnitude. The result has at least two
   * characters, and a value wider than two digits is printed in full.
   */
  function Pad2(n: int): (s: string)
    ensures |s| >= 2
    ensures n >= 0 ==> AllDigits(s) && DecimalValue(s) == n && |s| == Max(2, |Decimal(n)|)
    ensures 0 <= n < 10 ==> s[0] == '0'
    ensures 0 <= n < 100 ==> |s| == 2
    ensures n < 0 ==> s[0] == '-' && AllDigits(s[1..]) && DecimalValue(s[1..]) == -n
  {
    // Sign and fill are built with Repeat rather than a string-valued if-then-else,
    // which makes every proof mentioning a stamp far more expensive.
    var sign, fill, digits := Repeat('-', if n < 0 then 1 else 0), Repeat('0', if 0 <= n < 10 then 1 else 0), Decimal(Abs(n));
    var s := sign + fill + digits;
    assert n >= 0 ==> sign == [] && s == fill + digits;
    assert n >= 10 ==> fill == [] && s == digits;
    assert 0 <= n < 10 ==> DecimalValue(s) == n by {
      if 0 <= n < 10 {
        assert s == ['0', digits[0]];
        assert s[..1] == ['0'] && s[..1][..0] == [];
      }
    }
    assert n < 0 ==> s[1..] == digits;
    s
  }

  lemma LastDigit(x: int, d: int, y: int, e: int)
    requires 0 <= d < 10 && 0 <= e < 10 && x * 10 + d == y * 10 + e
    ensures x == y && d == e
  {
  }

  /** Two digit strings of one width with one value are the same string. */
  lemma {:induction false} DigitsUnique(a: string, b: string)
    requires AllDigits(a) && AllDigits(b) && |a| == |b|
    requires DecimalValue(a) == DecimalValue(b)
    ensures a == b
  {
    if a != [] {
      var n := |a| - 1;
      assert a[..n] == b[..n] && a[n] == b[n] by {
        LastDigit(DecimalValue(a[..n]), DigitValue(a[n]), DecimalValue(b[..n]), DigitValue(b[n]));
        DigitsUnique(a[..n], b[..n]);
      }
      assert a == a[..n] + [a[n]] && b == b[..n] + [b[n]];
    }
  }

  /** A negative value prints as `-` and its magnitude, unpadded, as Rust's `{:02}` prints it. */
  lemma Pad2Negative(n: int)
    requires n < 0
    ensures Pad2(n) == "-" + Decimal(-n)
  {
    assert Repeat('-', 1) == "-" && Repeat('0', 0) == [];
  }

  lemma Pad2OfMinus5()
    ensures Pad2(-5) == "-5"
  {
    Pad2Negative(-5);
  }

  /** Euclidean division of a non-negative dividend, stated for the truncating versions below. */
  lemma DivMod(a: int, b: int)
    requires a >= 0 && b > 0
    ensures 0 <= a / b && (a / b) * b + a % b == a && 0 <= a % b < b
  {
  }

  /** Rust's `a / b` for a positive divisor: the quotient rounded toward zero. */
  function TruncDiv(a: int, b: int): (q: int)
    requires b > 0
    ensures a >= 0 ==> 0 <= q && q * b <= a < q * b + b
    ensures a < 0 ==> q <= 0 && q * b - b < a <= q * b
  {
    if a >= 0 then DivMod(a, b); a / b
    else
      var p := (-a) / b;
      DivMod(-a, b);
      assert (-p) * b == -(p * b);
      -p
  }

  /** Rust's `a % b` for a positive divisor: the remainder takes the sign of `a`. */
  function TruncRem(a: int, b: int): (r: int)
    requires b > 0
    ensures TruncDiv(a, b) * b + r == a
    ensures a >= 0 ==> 0 <= r < b
    ensures a < 0 ==> -b < r <= 0
  {
    if a >= 0 then DivMod(a, b); a % b
    else
      DivMod(-a, b);
      assert (-((-a) / b)) * b == -(((-a) / b) * b);
      -((-a) % b)
  }

  // ---------------------------------------------------------------------
  // Sequence identities, stated apart so that proofs about rendered text
  // need not look inside the pieces

  lemma SeqAssoc<T>(x: seq<T>, y: seq<T>, z: seq<T>)
    ensures (x + y) + z == x + (y + z)
  {
  }

  lemma SeqEmptyLeft<T>(x: seq<T>)
    ensures [] + x == x
  {
  }

  lemma SeqEmptyRight<T>(x: seq<T>)
    ensures x + [] == x
  {
  }
}
