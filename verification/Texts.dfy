/**
  Python strings and byte strings.  A `str` is a sequence of code points,
  surrogates included; a `bytes` value is a Text whose codes are below 256.
 */
module Texts {
  type Code = c: int | 0 <= c < 0x110000

  type Text = seq<Code>

  const LF: Code := 10
  const CR: Code := 13
  const TAB: Code := 9
  const SPACE: Code := 32
  const SLASH: Code := 47
  const DOT: Code := 46

  /** The code points of a literal. */
  function Lit(s: string): (t: Text)
    ensures |t| == |s|
    ensures forall i | 0 <= i < |s| :: t[i] == s[i] as int
  {
    seq(|s|, i requires 0 <= i < |s| => s[i] as int)
  }

  /** Python compares strings code point by code point. */
  function TextKey(t: Text): seq<int> { t }

  /** Lowercase base16 digits. */
  predicate LowerHex(t: Text) {
    forall i | 0 <= i < |t| :: 48 <= t[i] <= 57 || 97 <= t[i] <= 102
  }

  /** [0-9a-f]{64} */
  predicate IsDigest(t: Text) { |t| == 64 && LowerHex(t) }

  predicate IsBytes(t: Text) {
    forall i | 0 <= i < |t| :: t[i] < 256
  }

  predicate IsAscii(t: Text) {
    forall i | 0 <= i < |t| :: t[i] < 128
  }

  lemma ConcatAssociative<T>(a: seq<T>, b: seq<T>, c: seq<T>)
    ensures a + (b + c) == (a + b) + c
  {}

  lemma TakeMore<T>(s: seq<T>, n: nat)
    requires n < |s|
    ensures s[..n + 1] == s[..n] + [s[n]]
  {}

  lemma TakeAll<T>(s: seq<T>)
    ensures s[..|s|] == s
  {}

  // ----- s.split(sep) and sep.join(parts) -----

  function Split(s: Text, sep: Code): (parts: seq<Text>)
    ensures |parts| >= 1
  {
    if s == [] then [[]]
    else
      var rest := Split(s[1..], sep);
      if s[0] == sep then [[]] + rest
      else [[s[0]] + rest[0]] + rest[1..]
  }

  function Join(parts: seq<Text>, sep: Code): Text {
    if |parts| == 0 then []
    else if |parts| == 1 then parts[0]
    else parts[0] + [sep] + Join(parts[1..], sep)
  }

  lemma {:induction false} SplitIsClean(s: Text, sep: Code)
    ensures forall p | p in Split(s, sep) :: sep !in p
  {
    if s != [] {
      SplitIsClean(s[1..], sep);
      var rest := Split(s[1..], sep);
      assert rest == [rest[0]] + rest[1..];
      forall p | p in Split(s, sep) ensures sep !in p {
        if p !in rest { assert s[0] == sep ==> p == []; }
      }
    }
  }

  lemma {:induction false} JoinSplit(s: Text, sep: Code)
    ensures Join(Split(s, sep), sep) == s
  {
    if s != [] {
      JoinSplit(s[1..], sep);
      var rest := Split(s[1..], sep);
      var all := Split(s, sep);
      if s[0] == sep {
        assert all[1..] == rest;
        assert s == [] + [sep] + s[1..];
      } else if |rest| == 1 {
        assert s == [s[0]] + rest[0];
      } else {
        assert all[1..] == rest[1..];
        assert s == [s[0]] + s[1..];
        assert s == [s[0]] + rest[0] + [sep] + Join(rest[1..], sep);
      }
    }
  }

  lemma {:induction false} SplitOfClean(s: Text, sep: Code)
    requires sep !in s
    ensures Split(s, sep) == [s]
  {
    if s != [] {
      SplitOfClean(s[1..], sep);
      assert s == [s[0]] + s[1..];
    }
  }

  lemma {:induction false} SplitAppend(a: Text, b: Text, sep: Code)
    ensures Split(a + [sep] + b, sep) == Split(a, sep) + Split(b, sep)
  {
    if a == [] {
      assert ([] + [sep] + b)[1..] == b;
    } else {
      SplitAppend(a[1..], b, sep);
      SplitHead(a, sep);
      SplitHead(a + [sep] + b, sep);
      assert (a + [sep] + b)[1..] == a[1..] + [sep] + b;
      GlueAppend(a[0], sep, Split(a[1..], sep), Split(b, sep));
    }
  }

  function Glue(c: Code, sep: Code, rest: seq<Text>): seq<Text>
    requires rest != []
  {
    if c == sep then [[]] + rest else [[c] + rest[0]] + rest[1..]
  }

  lemma SplitHead(s: Text, sep: Code)
    requires s != []
    ensures Split(s, sep) == Glue(s[0], sep, Split(s[1..], sep))
  {}

  lemma GlueAppend(c: Code, sep: Code, l: seq<Text>, r: seq<Text>)
    requires l != []
    ensures Glue(c, sep, l + r) == Glue(c, sep, l) + r
  {
    assert (l + r)[0] == l[0] && (l + r)[1..] == l[1..] + r;
  }

  lemma {:induction false} SplitJoin(parts: seq<Text>, sep: Code)
    requires |parts| >= 1
    requires forall p | p in parts :: sep !in p
    ensures Split(Join(parts, sep), sep) == parts
  {
    SplitOfClean(parts[0], sep);
    if |parts| > 1 {
      SplitJoin(parts[1..], sep);
      SplitAppend(parts[0], Join(parts[1..], sep), sep);
      assert parts == [parts[0]] + parts[1..];
    }
  }

  // ----- s.find(pattern) -----

  function Find(s: Text, p: Text): (i: int)
    ensures -1 <= i
    ensures i >= 0 ==> i + |p| <= |s| && s[i..i + |p|] == p
    ensures i >= 0 ==> forall j | 0 <= j < i :: !(p <= s[j..])
    ensures i == -1 ==> forall j | 0 <= j <= |s| :: !(p <= s[j..])
  {
    if p <= s then 0
    else if s == [] then -1
    else
      var i := Find(s[1..], p);
      assert forall j | 1 <= j <= |s| :: s[j..] == s[1..][j - 1..];
      if i < 0 then -1 else i + 1
  }

  // ----- decimal numerals -----

  /** Python refuses to convert longer decimal numerals to or from int. */
  const INT_DIGITS := 4300

  predicate IsDigit(c: Code) { 48 <= c <= 57 }

  predicate AllDigits(t: Text) {
    forall c | c in t :: IsDigit(c)
  }

  /** str(n) for a natural number. */
  function Digits(n: nat): (t: Text)
    ensures |t| >= 1
    ensures AllDigits(t)
    ensures t[0] == 48 ==> t == [48]
    ensures t[0] == 48 ==> n == 0
  {
    if n < 10 then [48 + n] else Digits(n / 10) + [48 + n % 10]
  }

  /** int(t) for a run of digits. */
  function Number(t: Text): (n: int)
    requires AllDigits(t)
    ensures n >= 0
  {
    if t == [] then 0
    else 10 * Number(t[..|t| - 1]) + DigitValue(t[|t| - 1])
  }

  function DigitValue(c: Code): nat
    requires IsDigit(c)
  {
    c as int - 48
  }

  /** A numeral without a superfluous leading zero: `0|[1-9][0-9]*`. */
  predicate Numeral(t: Text) {
    |t| >= 1 && AllDigits(t) && (t[0] == 48 ==> |t| == 1)
  }

  lemma {:induction false} NumberOfDigits(n: nat)
    ensures Numeral(Digits(n)) && Number(Digits(n)) == n
  {
    if n >= 10 {
      NumberOfDigits(n / 10);
      var d := Digits(n / 10);
      assert (d + [48 + n % 10])[..|d|] == d;
    }
  }

  lemma DigitsStep(n: nat, d: nat)
    requires n >= 1 && d < 10
    ensures Digits(10 * n + d) == Digits(n) + [48 + d]
  {
    var m := 10 * n + d;
    assert m >= 10 && m / 10 == n && m % 10 == d;
  }

  lemma OneDigit(t: Text)
    requires |t| == 1 && AllDigits(t)
    ensures Digits(Number(t)) == t
  {
    assert t[..0] == [];
    assert t[0] in t && IsDigit(t[0]);
    assert Number(t) == DigitValue(t[0]);
    assert t == [t[0]];
  }

  lemma {:induction false} DigitsOfNumber(t: Text)
    requires Numeral(t)
    ensures Digits(Number(t)) == t
  {
    if |t| == 1 {
      OneDigit(t);
    } else {
      var init, last := t[..|t| - 1], t[|t| - 1];
      assert init[0] == t[0];
      DigitsOfNumber(init);
      NumeralPositive(init);
      DigitsStep(Number(init), DigitValue(last));
      assert t == init + [last];
    }
  }

  lemma {:induction false} NumeralPositive(t: Text)
    requires Numeral(t) && t[0] != 48
    ensures Number(t) >= 1
  {
    assert t[0] in t && IsDigit(t[0]);
    if |t| == 1 {
      assert t[..0] == [];
    } else {
      var init := t[..|t| - 1];
      assert forall c | c in init :: c in t;
      NumeralPositive(init);
      assert t[|t| - 1] in t && IsDigit(t[|t| - 1]);
    }
  }
}
