/** The few java.lang.String / java.lang.Integer operations the engine and the
    learning book rely on, with Java's semantics written out: decimal
    conversion of 32-bit ints, String.join, and String.split (which drops
    trailing empty strings, and returns the input itself when the separator
    never occurs). */
module JavaText {

  datatype Option<T> = None | Some(value: T)

  const MinInt32: int := -0x8000_0000
  const MaxInt32: int := 0x7FFF_FFFF

  predicate IsInt32(x: int) { MinInt32 <= x <= MaxInt32 }

  /** Two's-complement wrap-around of a Java int addition or subtraction. */
  function Wrap32(x: int): (r: int)
    ensures IsInt32(r)
    ensures IsInt32(x) ==> r == x
  {
    (x - MinInt32) % 0x1_0000_0000 + MinInt32
  }

  /** The wrapped value differs from the exact one by a multiple of 2^32. */
  lemma Wrap32Congruent(x: int)
    ensures (Wrap32(x) - x) % 0x1_0000_0000 == 0
  {
  }

  /** Java's `/` on ints by a positive divisor: the quotient truncated
      toward zero, so the remainder left has the dividend's sign and is
      smaller than the divisor. */
  function JDiv(a: int, b: int): (q: int)
    requires b > 0
    ensures a >= 0 ==> 0 <= a - q * b < b
    ensures a < 0 ==> -b < a - q * b <= 0
    ensures a >= 0 ==> q == a / b
  {
    if a >= 0 then a / b else -((-a) / b)
  }

  /** Java's `%` on ints by a positive divisor: the remainder takes the sign
      of the dividend, and quotient and remainder recompose the dividend. */
  function JRem(a: int, b: int): (m: int)
    requires b > 0
    ensures JDiv(a, b) * b + m == a
    ensures a >= 0 ==> 0 <= m < b
    ensures a < 0 ==> -b < m <= 0
  {
    if a >= 0 then a % b else -((-a) % b)
  }

  /** Math.max. */
  function Max(a: int, b: int): (r: int)
    ensures r >= a && r >= b && (r == a || r == b)
  {
    if a >= b then a else b
  }

  /** Math.min. */
  function Min(a: int, b: int): (r: int)
    ensures r <= a && r <= b && (r == a || r == b)
  {
    if a <= b then a else b
  }

  // ---------------------------------------------------------------- digits

  predicate IsDigit(ch: char) { '0' <= ch <= '9' }

  function DigitChar(d: nat): (ch: char)
    requires d < 10
    ensures IsDigit(ch)
  {
    ['0', '1', '2', '3', '4', '5', '6', '7', '8', '9'][d]
  }

  function DigitValue(ch: char): (d: nat)
    requires IsDigit(ch)
    ensures d < 10 && DigitChar(d) == ch
  {
    (ch as int - '0' as int) as nat
  }

  /** The value of a string of decimal digits, most significant first. */
  function DigitsValue(s: string): nat
    requires forall i :: 0 <= i < |s| ==> IsDigit(s[i])
  {
    if |s| == 0 then 0 else DigitsValue(s[..|s| - 1]) * 10 + DigitValue(s[|s| - 1])
  }

  /** Decimal text of a non-negative number, without leading zeros. */
  function NatToString(n: nat): (s: string)
    ensures |s| >= 1
    ensures forall i :: 0 <= i < |s| ==> IsDigit(s[i])
    ensures DigitsValue(s) == n
  {
    if n < 10 then [DigitChar(n)]
    else
      var s := NatToString(n / 10) + [DigitChar(n % 10)];
      assert s[..|s| - 1] == NatToString(n / 10);
      s
  }

  /** Integer.toString: a minus sign for negative values, then the digits. */
  function IntToString(n: int): (s: string)
    ensures |s| >= 1
    ensures n >= 0 ==> forall i :: 0 <= i < |s| ==> IsDigit(s[i])
    ensures forall i :: 0 <= i < |s| ==> IsDigit(s[i]) || (i == 0 && s[i] == '-')
  {
    if n < 0 then "-" + NatToString(-n) else NatToString(n)
  }

  predicate AllDigits(s: string) { forall i :: 0 <= i < |s| ==> IsDigit(s[i]) }

  /** Integer.parseInt with radix 10: an optional sign, then at least one
      digit, and the value must fit in 32 bits; anything else is a
      NumberFormatException, here None. */
  function ParseInt(s: string): (r: Option<int>)
    ensures r.Some? ==> IsInt32(r.value)
    ensures s == "" ==> r == None
  {
    if |s| == 0 then None
    else
      var neg := s[0] == '-';
      var body := if s[0] == '-' || s[0] == '+' then s[1..] else s;
      if |body| == 0 || !AllDigits(body) then None
      else
        var v: int := if neg then -(DigitsValue(body) as int) else DigitsValue(body);
        if IsInt32(v) then Some(v) else None
  }

  /** Printing a Java int and parsing the text back gives the int again. */
  lemma ParseIntToString(n: int)
    requires IsInt32(n)
    ensures ParseInt(IntToString(n)) == Some(n)
  {
    var s := IntToString(n);
    if n < 0 {
      assert s[1..] == NatToString(-n);
    }
  }

  // ------------------------------------------------------- join and split

  /** String.join(sep, xs). */
  function Join(sep: char, xs: seq<string>): (s: string)
    ensures xs == [] ==> s == ""
  {
    if |xs| == 0 then ""
    else if |xs| == 1 then xs[0]
    else Join(sep, xs[..|xs| - 1]) + [sep] + xs[|xs| - 1]
  }

  /** Every field of s between separators, empty ones included; the
      pattern-matching core of String.split. */
  function Fields(s: string, sep: char): (r: seq<string>)
    ensures |r| >= 1
  {
    if |s| == 0 then [""]
    else
      var rest := Fields(s[1..], sep);
      if s[0] == sep then [""] + rest else [[s[0]] + rest[0]] + rest[1..]
  }

  function DropTrailingEmpty(xs: seq<string>): (r: seq<string>)
    ensures |r| <= |xs| && r == xs[..|r|]
    ensures |r| > 0 ==> r[|r| - 1] != ""
    ensures forall i :: |r| <= i < |xs| ==> xs[i] == ""
  {
    if |xs| == 0 then []
    else if xs[|xs| - 1] == "" then DropTrailingEmpty(xs[..|xs| - 1])
    else xs
  }

  /** String.split(sep) with limit 0. */
  function Split(s: string, sep: char): seq<string>
  {
    if sep in s then DropTrailingEmpty(Fields(s, sep)) else [s]
  }

  /** String.split(sep, 2): the text before the first separator and all the
      text after it, or the whole string when there is none. */
  function SplitFirst(s: string, sep: char): (r: seq<string>)
    ensures sep !in s ==> r == [s]
    ensures sep in s ==> |r| == 2 && s == r[0] + [sep] + r[1] && sep !in r[0]
  {
    if |s| == 0 then [s]
    else if s[0] == sep then ["", s[1..]]
    else
      var rest := SplitFirst(s[1..], sep);
      assert s == [s[0]] + s[1..];
      if |rest| == 2 then [[s[0]] + rest[0], rest[1]] else [s]
  }

  lemma {:induction false} SplitFirstJoin(a: string, b: string, sep: char)
    requires sep !in a
    ensures SplitFirst(a + [sep] + b, sep) == [a, b]
  {
    if |a| == 0 {
      assert a + [sep] + b == [sep] + b;
    } else {
      assert (a + [sep] + b)[1..] == a[1..] + [sep] + b;
      assert (a + [sep] + b)[0] == a[0] && a[0] != sep;
      SplitFirstJoin(a[1..], b, sep);
      assert [a[0]] + a[1..] == a;
    }
  }

  lemma {:induction false} FieldsAppend(a: string, b: string, sep: char)
    requires sep !in a
    ensures Fields(a + [sep] + b, sep) == [a] + Fields(b, sep)
  {
    if |a| == 0 {
      assert a + [sep] + b == [sep] + b;
      assert ([sep] + b)[1..] == b;
    } else {
      assert (a + [sep] + b)[1..] == a[1..] + [sep] + b;
      FieldsAppend(a[1..], b, sep);
      assert [a[0]] + a[1..] == a;
    }
  }

  lemma {:induction false} FieldsNoSep(a: string, sep: char)
    requires sep !in a
    ensures Fields(a, sep) == [a]
  {
    if |a| > 0 {
      FieldsNoSep(a[1..], sep);
      assert [a[0]] + a[1..] == a;
    }
  }

  /** Splitting a join gives the parts back, as long as no part contains the
      separator. */
  lemma {:induction false} FieldsJoin(xs: seq<string>, sep: char)
    requires |xs| >= 1
    requires forall i :: 0 <= i < |xs| ==> sep !in xs[i]
    ensures Fields(Join(sep, xs), sep) == xs
  {
    if |xs| == 1 {
      FieldsNoSep(xs[0], sep);
    } else {
      var init := xs[..|xs| - 1];
      JoinFields(init, xs[|xs| - 1], sep);
      FieldsNoSep(xs[|xs| - 1], sep);
      assert init + [xs[|xs| - 1]] == xs;
    }
  }

  /** Concatenation regrouped. */
  lemma AppendAssoc<T>(a: seq<T>, b: seq<T>, c: seq<T>)
    ensures a + b + c == a + (b + c)
  {
  }

  /** Fields of "Join(xs) + sep + tail" are xs followed by the fields of tail. */
  lemma {:induction false} JoinFields(xs: seq<string>, tail: string, sep: char)
    requires |xs| >= 1
    requires forall i :: 0 <= i < |xs| ==> sep !in xs[i]
    ensures Fields(Join(sep, xs) + [sep] + tail, sep) == xs + Fields(tail, sep)
    decreases |xs|
  {
    if |xs| == 1 {
      FieldsAppend(xs[0], tail, sep);
    } else {
      var init := xs[..|xs| - 1];
      var last := xs[|xs| - 1];
      var j := Join(sep, init);
      var rest := last + [sep] + tail;
      assert Join(sep, xs) == j + [sep] + last;
      assert j + [sep] + last + [sep] + tail == j + [sep] + rest;
      assert forall i :: 0 <= i < |init| ==> init[i] == xs[i];
      JoinFields(init, rest, sep);
      FieldsAppend(last, tail, sep);
      assert init + [last] == xs;
      AppendAssoc(init, [last], Fields(tail, sep));
    }
  }

  /** Split undoes Join when the parts are free of the separator, there are
      at least two of them, and the last one is not empty. */
  lemma SplitJoin(xs: seq<string>, sep: char)
    requires |xs| >= 2
    requires forall i :: 0 <= i < |xs| ==> sep !in xs[i]
    requires xs[|xs| - 1] != ""
    ensures Split(Join(sep, xs), sep) == xs
  {
    FieldsJoin(xs, sep);
    var init := xs[..|xs| - 1];
    assert Join(sep, xs)[|Join(sep, init)|] == sep;
  }

  /** A single part with no separator splits to itself. */
  lemma SplitSingle(x: string, sep: char)
    requires sep !in x
    ensures Split(x, sep) == [x]
  {
  }

  // ------------------------------------------------- counting a character

  function Occurrences(s: string, ch: char): nat
  {
    if |s| == 0 then 0 else Occurrences(s[..|s| - 1], ch) + (if s[|s| - 1] == ch then 1 else 0)
  }

  lemma {:induction false} OccurrencesAppend(a: string, b: string, ch: char)
    ensures Occurrences(a + b, ch) == Occurrences(a, ch) + Occurrences(b, ch)
    decreases |b|
  {
    if |b| > 0 {
      assert (a + b)[..|a + b| - 1] == a + b[..|b| - 1];
      OccurrencesAppend(a, b[..|b| - 1], ch);
    } else {
      assert a + b == a;
    }
  }

  lemma {:induction false} OccurrencesNone(s: string, ch: char)
    requires ch !in s
    ensures Occurrences(s, ch) == 0
  {
    if |s| > 0 {
      OccurrencesNone(s[..|s| - 1], ch);
    }
  }

  /** A join of n >= 1 separator-free parts holds exactly n - 1 separators. */
  lemma {:induction false} JoinSeparatorCount(xs: seq<string>, sep: char)
    requires |xs| >= 1
    requires forall i :: 0 <= i < |xs| ==> sep !in xs[i]
    ensures Occurrences(Join(sep, xs), sep) == |xs| - 1
  {
    if |xs| == 1 {
      OccurrencesNone(xs[0], sep);
    } else {
      var init := xs[..|xs| - 1];
      JoinSeparatorCount(init, sep);
      OccurrencesAppend(Join(sep, init) + [sep], xs[|xs| - 1], sep);
      OccurrencesAppend(Join(sep, init), [sep], sep);
      OccurrencesNone(xs[|xs| - 1], sep);
      assert Occurrences([sep], sep) == 1 by {
        assert [sep][..0] == [];
      }
    }
  }

  /** A join of parts whose first part is non-empty is non-empty. */
  lemma {:induction false} JoinNonEmpty(xs: seq<string>, sep: char)
    requires |xs| >= 1 && xs[0] != ""
    ensures |Join(sep, xs)| >= 1
  {
    if |xs| > 1 {
      JoinNonEmpty(xs[..|xs| - 1], sep);
    }
  }
}
