/** The text format of a generated instance: decimal and zero-padded integers, fields
    joined by one space, lines ended by a newline, and the matching readers. */
module Text {

  predicate IsDigit(c: char) {
    '0' <= c <= '9'
  }

  predicate AllDigits(s: string) {
    forall t :: 0 <= t < |s| ==> IsDigit(s[t])
  }

  function DigitChar(d: nat): (c: char)
    requires d < 10
    ensures IsDigit(c) && c as int - '0' as int == d
  {
    ('0' as int + d) as char
  }

  function DigitValue(c: char): nat
    requires IsDigit(c)
  {
    c as int - '0' as int
  }

  // ---------------------------------------------------------------- integers

  /** Plain decimal formatting: the digits of `n`, without leading zeros. */
  function Decimal(n: nat): (s: string)
    ensures |s| >= 1 && AllDigits(s)
  {
    if n < 10 then [DigitChar(n)] else Decimal(n / 10) + [DigitChar(n % 10)]
  }

  /** `int(s)` for a string of digits. */
  function ParseDecimal(s: string): nat
    requires AllDigits(s)
  {
    if s == [] then 0 else 10 * ParseDecimal(s[..|s| - 1]) + DigitValue(s[|s| - 1])
  }

  /** Reading a written number gives the number back. */
  lemma {:induction false} DecimalRoundTrip(n: nat)
    ensures ParseDecimal(Decimal(n)) == n
  {
    if n >= 10 {
      var s := Decimal(n);
      assert s[..|s| - 1] == Decimal(n / 10);
      DecimalRoundTrip(n / 10);
    }
  }

  /** `Decimal` writes no leading zero, so it is the only digit string without one that
      reads as `n`. */
  lemma {:induction false} DecimalCanonical(s: string)
    requires |s| >= 1 && AllDigits(s) && (|s| == 1 || s[0] != '0')
    ensures Decimal(ParseDecimal(s)) == s
  {
    if |s| > 1 {
      var front := s[..|s| - 1];
      DecimalCanonical(front);
      PositiveParse(front);
      var n := ParseDecimal(s);
      assert n / 10 == ParseDecimal(front) && n % 10 == DigitValue(s[|s| - 1]);
      assert s == front + [s[|s| - 1]];
    } else {
      assert s == [DigitChar(DigitValue(s[0]))];
    }
  }

  lemma {:induction false} PositiveParse(s: string)
    requires |s| >= 1 && AllDigits(s) && s[0] != '0'
    ensures ParseDecimal(s) >= 1
  {
    if |s| > 1 {
      PositiveParse(s[..|s| - 1]);
    }
  }

  function Zeros(m: nat): (s: string)
    ensures |s| == m && AllDigits(s)
  {
    seq(m, _ => '0')
  }

  /** Zero-padded decimal formatting: the digits of `n`, padded on the left with zeros to
      at least `width` characters. */
  function ZeroPad(n: nat, width: nat): string {
    var digits := Decimal(n);
    if |digits| < width then Zeros(width - |digits|) + digits else digits
  }

  lemma {:induction false} LeadingZeros(m: nat, s: string)
    requires AllDigits(s)
    ensures AllDigits(Zeros(m) + s)
    ensures ParseDecimal(Zeros(m) + s) == ParseDecimal(s)
    decreases |s|
  {
    if s == [] {
      assert Zeros(m) + s == Zeros(m);
      ZerosParse(m);
    } else {
      var front := s[..|s| - 1];
      assert (Zeros(m) + s)[..|Zeros(m) + s| - 1] == Zeros(m) + front;
      LeadingZeros(m, front);
    }
  }

  lemma {:induction false} ZerosParse(m: nat)
    ensures ParseDecimal(Zeros(m)) == 0
  {
    if m > 0 {
      assert Zeros(m)[..m - 1] == Zeros(m - 1);
      ZerosParse(m - 1);
    }
  }

  /** A zero-padded number is a digit string of exactly `max(width, |Decimal(n)|)`
      characters, which reads back as `n`. */
  lemma ZeroPadFacts(n: nat, width: nat)
    ensures AllDigits(ZeroPad(n, width))
    ensures |ZeroPad(n, width)| == if |Decimal(n)| < width then width else |Decimal(n)|
    ensures |ZeroPad(n, width)| >= width
    ensures ParseDecimal(ZeroPad(n, width)) == n
  {
    var digits := Decimal(n);
    DecimalRoundTrip(n);
    if |digits| < width {
      LeadingZeros(width - |digits|, digits);
    }
  }

  // ---------------------------------------------------------------- fields and lines

  /** `sep.join(tokens)`. */
  function Join(sep: char, tokens: seq<string>): string {
    if |tokens| == 0 then []
    else if |tokens| == 1 then tokens[0]
    else tokens[0] + [sep] + Join(sep, tokens[1..])
  }

  /** `s.split(sep)` with an explicit separator: the pieces between separators, empty
      pieces included, so there is always at least one piece. */
  function Split(sep: char, s: string): (pieces: seq<string>)
    ensures |pieces| >= 1
  {
    if s == [] then [[]]
    else
      var rest := Split(sep, s[1..]);
      if s[0] == sep then [[]] + rest else [[s[0]] + rest[0]] + rest[1..]
  }

  /** Text without the separator glues onto the first piece. */
  lemma {:induction false} SplitGlue(sep: char, a: string, s: string)
    requires sep !in a
    ensures Split(sep, a + s) == [a + Split(sep, s)[0]] + Split(sep, s)[1..]
  {
    var pieces := Split(sep, s);
    if a == [] {
      assert a + s == s;
      assert a + pieces[0] == pieces[0];
      assert [pieces[0]] + pieces[1..] == pieces;
    } else {
      assert (a + s)[0] == a[0] != sep;
      assert (a + s)[1..] == a[1..] + s;
      SplitGlue(sep, a[1..], s);
      var rest := Split(sep, a[1..] + s);
      assert rest[0] == a[1..] + pieces[0];
      assert Split(sep, a + s) == [[a[0]] + rest[0]] + rest[1..];
      assert [a[0]] + (a[1..] + pieces[0]) == a + pieces[0];
    }
  }

  /** A piece followed by the separator is split off whole. */
  lemma SplitPiece(sep: char, a: string, s: string)
    requires sep !in a
    ensures Split(sep, a + [sep] + s) == [a] + Split(sep, s)
  {
    assert a + [sep] + s == a + ([sep] + s);
    assert ([sep] + s)[1..] == s;
    assert Split(sep, [sep] + s) == [[]] + Split(sep, s);
    SplitGlue(sep, a, [sep] + s);
    assert a + [] == a;
  }

  /** Splitting joined tokens gives the tokens back, as long as none holds the separator. */
  lemma {:induction false} SplitJoin(sep: char, tokens: seq<string>)
    requires |tokens| >= 1
    requires forall t :: 0 <= t < |tokens| ==> sep !in tokens[t]
    ensures Split(sep, Join(sep, tokens)) == tokens
  {
    if |tokens| == 1 {
      SplitGlue(sep, tokens[0], []);
      assert tokens[0] + [] == tokens[0];
    } else {
      SplitPiece(sep, tokens[0], Join(sep, tokens[1..]));
      SplitJoin(sep, tokens[1..]);
    }
  }

  /** Joining two non-empty token lists with one more separator between them. */
  lemma {:induction false} JoinAppend(sep: char, a: seq<string>, b: seq<string>)
    requires |a| >= 1 && |b| >= 1
    ensures Join(sep, a) + [sep] + Join(sep, b) == Join(sep, a + b)
  {
    if |a| > 1 {
      JoinAppend(sep, a[1..], b);
      assert (a + b)[1..] == a[1..] + b;
    } else {
      assert (a + b)[1..] == b;
    }
  }

  /** A character that is neither the separator nor in any token is not in the join. */
  lemma {:induction false} JoinAvoids(sep: char, tokens: seq<string>, c: char)
    requires c != sep
    requires forall t :: 0 <= t < |tokens| ==> c !in tokens[t]
    ensures c !in Join(sep, tokens)
  {
    if |tokens| > 1 {
      JoinAvoids(sep, tokens[1..], c);
    }
  }

  lemma DigitsAvoid(s: string, c: char)
    requires AllDigits(s) && !IsDigit(c)
    ensures c !in s
  {
  }
}
