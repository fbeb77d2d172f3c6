/** The `Option` wrapper used wherever the app has a value that may be absent
    (`null` refs, `undefined` array reads, `NaN` parses). */
module Wrappers {
  datatype Option<+T> = None | Some(value: T)
}

/** The string operations the app relies on: `Number.prototype.toString`,
    `padStart(2, '0')`, `String.prototype.split(":")` and `Number(s)`. */
module Text {
  import opened Wrappers

  const Colon: char := ':'

  predicate IsDigit(c: char) { '0' <= c <= '9' }

  predicate AllDigits(s: string) { forall i :: 0 <= i < |s| ==> IsDigit(s[i]) }

  function DigitChar(d: nat): (c: char)
    requires d < 10
    ensures IsDigit(c)
  {
    ('0' as int + d) as char
  }

  function DigitValue(c: char): (d: nat)
    requires IsDigit(c)
    ensures d < 10
  {
    c as int - '0' as int
  }

  /** `n.toString()`: decimal numeral without leading zeros. */
  function Digits(n: nat): (s: string)
    ensures 1 <= |s| && AllDigits(s)
    ensures |s| == 1 <==> n < 10
    ensures |s| == 2 <==> 10 <= n < 100
    decreases n
  {
    if n < 10 then [DigitChar(n)] else Digits(n / 10) + [DigitChar(n % 10)]
  }

  /** Value of a string of decimal digits; the empty string has value 0, as `Number("")` does. */
  function DecimalValue(s: string): nat
    requires AllDigits(s)
    decreases |s|
  {
    if s == [] then 0 else DecimalValue(s[..|s| - 1]) * 10 + DigitValue(s[|s| - 1])
  }

  /** `Number(s)` on the strings the model covers: digit strings give their value,
      every other string is reported as not a number. */
  function ParseNumber(s: string): (r: Option<nat>)
    ensures r.Some? <==> AllDigits(s)
  {
    if AllDigits(s) then Some(DecimalValue(s)) else None
  }

  lemma {:induction false} DecimalValueOfDigits(n: nat)
    ensures DecimalValue(Digits(n)) == n
    decreases n
  {
    if n >= 10 {
      var s := Digits(n);
      assert s[..|s| - 1] == Digits(n / 10);
      DecimalValueOfDigits(n / 10);
    }
  }

  /** `n.toString().padStart(2, '0')`. */
  function PadStart2(n: nat): (s: string)
    ensures AllDigits(s)
    ensures |s| == if n < 100 then 2 else |Digits(n)|
  {
    if n < 10 then ['0'] + Digits(n) else Digits(n)
  }

  lemma PadStart2RoundTrip(n: nat)
    ensures ParseNumber(PadStart2(n)) == Some(n)
  {
    DecimalValueOfDigits(n);
    if n < 10 {
      var s := PadStart2(n);
      assert s[..|s| - 1] == ['0'];
      assert ['0'][..0] == [];
      assert DecimalValue(['0']) == 0;
      assert DecimalValue(s) == DigitValue(s[1]) == n;
    }
  }

  /** `s.split(sep)` for a one-character separator: the pieces between separators, in order. */
  function Split(s: string, sep: char): (parts: seq<string>)
    ensures |parts| >= 1
    ensures forall k :: 0 <= k < |parts| ==> sep !in parts[k]
    decreases |s|
  {
    if s == [] then [[]]
    else if s[0] == sep then [[]] + Split(s[1..], sep)
    else
      var rest := Split(s[1..], sep);
      [[s[0]] + rest[0]] + rest[1..]
  }

  /** `parts.join(sep)`. */
  function Join(parts: seq<string>, sep: char): string
    requires |parts| >= 1
    decreases |parts|
  {
    if |parts| == 1 then parts[0] else parts[0] + [sep] + Join(parts[1..], sep)
  }

  /** Joining the pieces back together gives the string that was split. */
  lemma {:induction false} JoinSplit(s: string, sep: char)
    ensures Join(Split(s, sep), sep) == s
    decreases |s|
  {
    if s != [] {
      JoinSplit(s[1..], sep);
      var rest := Split(s[1..], sep);
      if s[0] != sep {
        if |rest| == 1 {
          assert Split(s, sep) == [[s[0]] + rest[0]];
        } else {
          assert Split(s, sep)[1..] == rest[1..];
          assert Join(Split(s, sep), sep) == [s[0]] + rest[0] + [sep] + Join(rest[1..], sep);
        }
      }
    }
  }

  /** A separator-free head followed by the separator splits off as the first piece. */
  lemma {:induction false} SplitAtFirst(a: string, sep: char, b: string)
    requires sep !in a
    ensures Split(a + [sep] + b, sep) == [a] + Split(b, sep)
    decreases |a|
  {
    if a == [] {
      assert a + [sep] + b == [sep] + b;
      assert ([sep] + b)[1..] == b;
    } else {
      var s := a + [sep] + b;
      assert s[1..] == a[1..] + [sep] + b;
      SplitAtFirst(a[1..], sep, b);
      assert [a[0]] + a[1..] == a;
    }
  }

  lemma {:induction false} SplitNoSeparator(a: string, sep: char)
    requires sep !in a
    ensures Split(a, sep) == [a]
    decreases |a|
  {
    if a != [] {
      SplitNoSeparator(a[1..], sep);
      assert [a[0]] + a[1..] == a;
    }
  }

  /** The `"HH:MM"` text the app builds from two numbers, each padded to two digits. */
  function ClockText(h: nat, m: nat): (s: string)
    ensures |s| == |PadStart2(h)| + 1 + |PadStart2(m)| >= 5
    ensures s[|PadStart2(h)|] == Colon
    ensures forall i :: 0 <= i < |s| && i != |PadStart2(h)| ==> IsDigit(s[i])
  {
    PadStart2(h) + [Colon] + PadStart2(m)
  }

  /** `const [h, m] = s.split(":").map(Number)`: the first two pieces as numbers,
      None when a piece is missing or is not a number. */
  function ParseClock(s: string): (r: Option<(nat, nat)>)
    ensures r.Some? ==> |Split(s, Colon)| >= 2
  {
    var parts := Split(s, Colon);
    if |parts| < 2 then None
    else
      match (ParseNumber(parts[0]), ParseNumber(parts[1]))
      case (Some(h), Some(m)) => Some((h, m))
      case _ => None
  }

  /** Splitting a clock text on ':' recovers both numbers. */
  lemma ParseClockText(h: nat, m: nat)
    ensures ParseClock(ClockText(h, m)) == Some((h, m))
    ensures |ClockText(h, m)| == 5 <==> h < 100 && m < 100
  {
    var a, b := PadStart2(h), PadStart2(m);
    assert Colon !in a && Colon !in b by {
      assert forall i :: 0 <= i < |a| ==> IsDigit(a[i]);
      assert forall i :: 0 <= i < |b| ==> IsDigit(b[i]);
    }
    SplitAtFirst(a, Colon, b);
    SplitNoSeparator(b, Colon);
    PadStart2RoundTrip(h);
    PadStart2RoundTrip(m);
    if h >= 100 { assert |Digits(h)| >= 3; }
    if m >= 100 { assert |Digits(m)| >= 3; }
  }
}

/** JavaScript's `Math.round`, `Math.ceil` and `Math.floor` applied to a quotient of integers. */
module JsMath {
  /** `Math.round(a / b)`: the nearest integer, halves rounded up. */
  function RoundDiv(a: int, b: int): (r: int)
    requires b > 0
    ensures (2 * r - 1) * b <= 2 * a < (2 * r + 1) * b
  {
    var q := (2 * a + b) / (2 * b);
    assert 2 * a + b == 2 * b * q + (2 * a + b) % (2 * b);
    q
  }

  /** `Math.ceil(a / b)`: the least integer not below the quotient. */
  function CeilDiv(a: int, b: int): (r: int)
    requires b > 0
    ensures (r - 1) * b < a <= r * b
  {
    var q := (a + b - 1) / b;
    assert a + b - 1 == b * q + (a + b - 1) % b;
    q
  }

  /** `Math.floor(a / b)`: the greatest integer not above the quotient. */
  function FloorDiv(a: int, b: int): (r: int)
    requires b > 0
    ensures r * b <= a < (r + 1) * b
  {
    var q := a / b;
    assert a == b * q + a % b;
    q
  }

  /** JavaScript's `a % n`: the remainder takes the sign of the dividend. */
  function JsRem(a: int, n: int): (r: int)
    requires n > 0
    ensures a >= 0 ==> r == a % n && 0 <= r < n
    ensures a < 0 ==> -n < r <= 0 && r == a + n * ((-a) / n)
  {
    if a >= 0 then a % n
    else
      assert -a == n * ((-a) / n) + (-a) % n;
      -((-a) % n)
  }
}

/** Facts about Euclidean division that the solver does not find on its own. */
module Arith {
  /** A product with a factor of at least one is at least the other factor. */
  lemma {:induction false} MulAtLeast(n: int, d: int)
    requires n > 0 && d >= 1
    ensures n * d >= n
    decreases d
  {
    if d > 1 {
      MulAtLeast(n, d - 1);
      assert n * d == n * (d - 1) + n;
    }
  }

  /** Multiples of `n` step by at least `n`. */
  lemma MulStrict(n: int, a: int, b: int)
    requires n > 0 && a < b
    ensures n * a + n <= n * b
  {
    MulAtLeast(n, b - a);
    assert n * b == n * a + n * (b - a);
  }

  /** Quotient and remainder are the only pair that rebuilds the dividend with a
      remainder in range. */
  lemma DivMod(a: int, n: int, q: int, r: int)
    requires n > 0 && 0 <= r < n && a == n * q + r
    ensures a / n == q && a % n == r
  {
    var q0, r0 := a / n, a % n;
    assert a == n * q0 + r0;
    if q0 > q {
      MulStrict(n, q, q0);
      assert false;
    } else if q0 < q {
      MulStrict(n, q0, q);
      assert false;
    }
  }
}
