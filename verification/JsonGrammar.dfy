/**
  The texts that json.loads reads, as a grammar: RFC 8259 with NaN, the infinities, lone surrogates and
  Python's bound on decimal numerals.
 */
module JsonGrammar {
  import opened Texts
  import opened Wrappers
  import opened Json

  // ----- strings -----

  predicate HexLetter(c: Code) { 48 <= c <= 57 || 65 <= c <= 70 || 97 <= c <= 102 }

  function HexMeaning(c: Code): (n: nat)
    requires HexLetter(c)
    ensures n < 16
  {
    if c <= 57 then c - 48 else if c <= 70 then c - 55 else c - 87
  }

  /** \u and four hexadecimal digits. */
  predicate IsUnit(p: Text) {
    |p| == 6 && p[0] == 92 && p[1] == 117 && HexLetter(p[2]) && HexLetter(p[3]) && HexLetter(p[4]) && HexLetter(p[5])
  }

  function UnitOf(p: Text): (n: nat)
    requires IsUnit(p)
    ensures n < 0x10000
  {
    ((HexMeaning(p[2]) * 16 + HexMeaning(p[3])) * 16 + HexMeaning(p[4])) * 16 + HexMeaning(p[5])
  }

  predicate HighUnit(p: Text) { IsUnit(p) && 0xD800 <= UnitOf(p) <= 0xDBFF }

  predicate LowUnit(p: Text) { IsUnit(p) && 0xDC00 <= UnitOf(p) <= 0xDFFF }

  /** A backslash and one character. */
  predicate ShortPiece(c: Code, p: Text) {
    |p| == 2 && p[0] == 92
    && ((p[1] == 34 && c == 34) || (p[1] == 92 && c == 92) || (p[1] == 47 && c == 47) || (p[1] == 98 && c == 8)
        || (p[1] == 102 && c == 12) || (p[1] == 110 && c == 10) || (p[1] == 114 && c == 13) || (p[1] == 116 && c == 9))
  }

  /** Two units for one character. */
  predicate PairPiece(c: Code, p: Text) {
    |p| == 12 && HighUnit(p[..6]) && LowUnit(p[6..])
    && c == 0x10000 + (UnitOf(p[..6]) - 0xD800) * 0x400 + (UnitOf(p[6..]) - 0xDC00)
  }

  /** How a character may be written: as itself, by a short escape, as a unit, or as a pair of units. */
  predicate Piece(c: Code, p: Text) {
    || (p == [c] && c >= 32 && c != 34 && c != 92) || ShortPiece(c, p) || (IsUnit(p) && c == UnitOf(p)) || PairPiece(c, p)
  }

  /** A high unit right before a low one is one character with it. */
  predicate Joins(p: Text, rest: Text) { HighUnit(p) && |rest| >= 6 && LowUnit(rest[..6]) }

  /** Between the quotes: a piece for each character, and no two of them a pair. */
  ghost predicate StringBody(s: Text, t: Text)
    decreases |s|
  {
    if s == [] then t == [] else exists k: nat :: FirstPiece(s[0], t, k) && StringBody(s[1..], t[k..])
  }

  predicate FirstPiece(c: Code, t: Text, k: nat) {
    0 < k <= |t| && Piece(c, t[..k]) && !Joins(t[..k], t[k..])
  }

  lemma HexIs(c: Code)
    ensures HexValue(c) >= 0 <==> HexLetter(c)
    ensures HexLetter(c) ==> HexValue(c) == HexMeaning(c)
  {}

  /** Reading four digits after \u. */
  lemma UnitRead(s: Text)
    requires |s| >= 2 && s[0] == BACKSLASH && s[1] == LETTER_U
    ensures Unhex4(s[2..]) >= 0 <==> |s| >= 6 && IsUnit(s[..6])
    ensures Unhex4(s[2..]) >= 0 ==> UnitOf(s[..6]) == Unhex4(s[2..])
  {
    if |s| >= 6 {
      HexIs(s[2]);
      HexIs(s[3]);
      HexIs(s[4]);
      HexIs(s[5]);
    }
  }

  lemma ShortIs(letter: Code, c: Code)
    ensures ShortMeaning(letter) == c <==> ShortPiece(c, [92, letter])
  {}

  lemma EscapeShort(s: Text)
    requires |s| >= 2 && s[0] == BACKSLASH && ShortMeaning(s[1]) >= 0
    ensures ScanEscape(s) == Some((ShortMeaning(s[1]), s[2..])) && FirstPiece(ShortMeaning(s[1]), s, 2)
  {
    ShortIs(s[1], ShortMeaning(s[1]));
    assert s[..2] == [92, s[1]];
  }

  /** A unit not followed by \u. */
  lemma EscapeUnit(s: Text)
    requires |s| >= 6 && IsUnit(s[..6]) && !(HighUnit(s[..6]) && |s| >= 8 && s[6] == BACKSLASH && s[7] == LETTER_U)
    ensures ScanEscape(s) == Some((UnitOf(s[..6]), s[6..])) && FirstPiece(UnitOf(s[..6]), s, 6)
  {
    UnitRead(s);
    assert s[0] == s[..6][0] && s[1] == s[..6][1];
    if |s| >= 12 { assert s[6..][..6][0] == s[6] && s[6..][..6][1] == s[7]; }
  }

  /** A high unit followed by \u. */
  lemma EscapeTwo(s: Text)
    requires |s| >= 8 && HighUnit(s[..6]) && s[6] == BACKSLASH && s[7] == LETTER_U
    ensures ScanEscape(s) ==
      if |s| < 12 || !IsUnit(s[6..][..6]) then None
      else if LowUnit(s[6..][..6])
      then Some((0x10000 + (UnitOf(s[..6]) - 0xD800) * 0x400 + (UnitOf(s[6..][..6]) - 0xDC00), s[12..]))
      else Some((UnitOf(s[..6]), s[6..]))
  {
    UnitRead(s);
    assert s[0] == s[..6][0] && s[1] == s[..6][1];
    UnitRead(s[6..]);
    assert s[6..][2..] == s[8..] && s[6..][0] == s[6] && s[6..][1] == s[7];
  }

  /** Whatever is read after a backslash is the first piece. */
  lemma EscapeSound(s: Text, c: Code, rest: Text) returns (k: nat)
    requires s != [] && s[0] == BACKSLASH && ScanEscape(s) == Some((c, rest))
    ensures FirstPiece(c, s, k) && rest == s[k..]
  {
    if ShortMeaning(s[1]) >= 0 {
      EscapeShort(s);
      k := 2;
    } else {
      UnitRead(s);
      if HighUnit(s[..6]) && |s| >= 8 && s[6] == BACKSLASH && s[7] == LETTER_U {
        EscapeTwo(s);
        k := if LowUnit(s[6..][..6]) then 12 else 6;
        if LowUnit(s[6..][..6]) { PairHere(s); }
      } else {
        EscapeUnit(s);
        k := 6;
      }
    }
  }

  lemma PairHere(s: Text)
    requires |s| >= 12 && HighUnit(s[..6]) && LowUnit(s[6..][..6])
    ensures FirstPiece(0x10000 + (UnitOf(s[..6]) - 0xD800) * 0x400 + (UnitOf(s[6..][..6]) - 0xDC00), s, 12)
  {
    assert s[..12][..6] == s[..6] && s[..12][6..] == s[6..][..6];
  }

  /** Pieces are read off whatever follows. */
  lemma EscapeComplete(s: Text, c: Code, k: nat)
    requires FirstPiece(c, s, k) && s[0] == BACKSLASH
    requires k == 6 && |s| >= 8 && s[6] == BACKSLASH && s[7] == LETTER_U ==> |s| >= 12 && IsUnit(s[6..][..6])
    ensures ScanEscape(s) == Some((c, s[k..]))
  {
    var p := s[..k];
    assert p[0] == s[0];
    if ShortPiece(c, p) {
      assert p == [92, s[1]];
      ShortIs(s[1], c);
      EscapeShort(s);
    } else if IsUnit(p) && c == UnitOf(p) {
      if HighUnit(p) && |s| >= 8 && s[6] == BACKSLASH && s[7] == LETTER_U { EscapeTwo(s); } else { EscapeUnit(s); }
    } else {
      assert p[..6] == s[..6] && p[6..] == s[6..][..6];
      assert s[6] == p[6..][0] && s[7] == p[6..][1];
      EscapeTwo(s);
    }
  }

  // ----- a whole string -----

  /** A first piece stays one when less or more follows, as long as a pair is neither made nor broken. */
  lemma PieceWithin(c: Code, body: Text, k: nat, s: Text)
    requires body <= s && 0 < k <= |body|
    ensures FirstPiece(c, s, k) ==> FirstPiece(c, body, k)
    ensures FirstPiece(c, body, k) && (|body| < k + 6 && Joins(s[..k], s[k..]) ==> false) ==> FirstPiece(c, s, k)
  {
    assert s[..k] == body[..k];
    if |body| >= k + 6 { assert s[k..][..6] == body[k..][..6]; }
  }

  lemma {:induction false} ScanSound(s: Text, v: Text, end: Text) returns (body: Text)
    requires ScanString(s) == Some((v, end))
    ensures s == body + [QUOTE] + end && StringBody(v, body)
    decreases |s|
  {
    if s[0] == QUOTE {
      body := [];
      assert s == [] + [QUOTE] + end;
    } else {
      var k: nat, rest := 1, s[1..];
      if s[0] == BACKSLASH {
        var (c, r) := ScanEscape(s).value;
        k := EscapeSound(s, c, r);
        rest := r;
      } else {
        assert s[..1] == [s[0]];
      }
      var more := ScanSound(rest, v[1..], end);
      body := s[..k] + more;
      Glue(s, k, more, end);
      PieceWithin(v[0], body, k, s);
    }
  }

  lemma Glue(s: Text, k: nat, more: Text, end: Text)
    requires k <= |s| && s[k..] == more + [QUOTE] + end
    ensures var body := s[..k] + more; s == body + [QUOTE] + end && body <= s && body[k..] == more && k <= |body|
  {
    var body := s[..k] + more;
    assert s == s[..k] + s[k..];
    assert s == body + [QUOTE] + end;
  }

  /** After a backslash a body goes on as one of its pieces does. */
  lemma BodyUnit(v: Text, t: Text)
    requires StringBody(v, t) && t != [] && t[0] == 92
    ensures |t| >= 2 && (t[1] == 117 ==> |t| >= 6 && IsUnit(t[..6]))
  {
    var k: nat :| FirstPiece(v[0], t, k) && StringBody(v[1..], t[k..]);
    assert t[..k][0] == t[0];
    if PairPiece(v[0], t[..k]) { assert t[..k][..6] == t[..6]; }
    else if IsUnit(t[..k]) { assert t[..k] == t[..6]; }
    else { assert t[..k][1] == t[1]; }
  }

  /** The quote ends every unit. */
  lemma NoUnitAcross(body: Text, k: nat, tail: Text)
    requires k <= |body| < k + 6
    ensures var s := body + [QUOTE] + tail; |s| >= k + 6 ==> !IsUnit(s[k..][..6])
  {
    var s := body + [QUOTE] + tail;
    if |s| >= k + 6 { assert s[k..][..6][|body| - k] == QUOTE; }
  }

  lemma PieceBefore(c: Code, body: Text, k: nat, tail: Text)
    requires FirstPiece(c, body, k)
    ensures FirstPiece(c, body + [QUOTE] + tail, k)
  {
    var s := body + [QUOTE] + tail;
    assert body <= s;
    if |body| < k + 6 { NoUnitAcross(body, k, tail); }
    PieceWithin(c, body, k, s);
  }

  lemma DropInto(body: Text, k: nat, tail: Text)
    requires k <= |body|
    ensures (body + [QUOTE] + tail)[k..] == body[k..] + [QUOTE] + tail
  {}

  /** What has to follow a unit for it to be read alone or paired. */
  lemma UnitFollows(v: Text, t: Text, tail: Text)
    requires StringBody(v, t)
    ensures var s := t + [QUOTE] + tail;
      |s| >= 2 && s[0] == BACKSLASH && s[1] == LETTER_U ==> |s| >= 6 && IsUnit(s[..6])
  {
    var s := t + [QUOTE] + tail;
    if |s| >= 2 && s[0] == BACKSLASH && s[1] == LETTER_U {
      assert t != [] && t[0] == s[0];
      BodyUnit(v, t);
      assert t[1] == s[1] && s[..6] == t[..6];
    }
  }

  lemma {:induction false} ScanComplete(v: Text, body: Text, tail: Text)
    requires StringBody(v, body)
    ensures ScanString(body + [QUOTE] + tail) == Some((v, tail))
    decreases |v|
  {
    var s := body + [QUOTE] + tail;
    if v == [] {
      assert s == [QUOTE] + tail && s[1..] == tail;
    } else {
      var k: nat :| FirstPiece(v[0], body, k) && StringBody(v[1..], body[k..]);
      PieceBefore(v[0], body, k, tail);
      DropInto(body, k, tail);
      ScanComplete(v[1..], body[k..], tail);
      FirstThenRest(s, v, k, body[k..], tail);
    }
  }

  lemma FirstThenRest(s: Text, v: Text, k: nat, body: Text, tail: Text)
    requires v != [] && FirstPiece(v[0], s, k) && s[k..] == body + [QUOTE] + tail && StringBody(v[1..], body)
    requires ScanString(s[k..]) == Some((v[1..], tail))
    ensures ScanString(s) == Some((v, tail))
  {
    assert s[0] == s[..k][0];
    assert [v[0]] + v[1..] == v;
    if s[0] == BACKSLASH {
      UnitFollows(v[1..], body, tail);
      if k == 6 && |s| >= 8 { assert s[6] == s[6..][0] && s[7] == s[6..][1]; }
      EscapeComplete(s, v[0], k);
      ScanAfterEscape(s, v[0], s[k..], v[1..], tail);
    } else {
      assert s[..k] == [v[0]];
    }
  }

  // ----- white space -----

  predicate White(t: Text) { forall i | 0 <= i < |t| :: t[i] == 32 || t[i] == 9 || t[i] == 10 || t[i] == 13 }

  lemma {:induction false} SkipWhite(a: Text, rest: Text)
    requires White(a) && (rest != [] ==> !IsSpace(rest[0]))
    ensures SkipSpace(a + rest) == rest
  {
    if a == [] {
      assert a + rest == rest;
    } else {
      assert (a + rest)[1..] == a[1..] + rest;
      SkipWhite(a[1..], rest);
    }
  }

  lemma {:induction false} SkipSound(s: Text) returns (a: Text)
    ensures White(a) && s == a + SkipSpace(s) && (SkipSpace(s) != [] ==> !IsSpace(SkipSpace(s)[0]))
  {
    if s != [] && IsSpace(s[0]) {
      var b := SkipSound(s[1..]);
      a := [s[0]] + b;
      assert s == [s[0]] + s[1..];
    } else {
      a := [];
    }
  }

  // ----- numbers -----

  predicate DecimalDigits(t: Text) { t != [] && forall i | 0 <= i < |t| :: 48 <= t[i] <= 57 }

  /** Digits that do not start with a superfluous zero. */
  predicate Integer(t: Text) { DecimalDigits(t) && (t[0] == 48 ==> |t| == 1) }

  /** Nothing, or a point and digits. */
  predicate Fraction(t: Text) { t == [] || (t[0] == 46 && DecimalDigits(t[1..])) }

  /** Nothing, or e or E, a sign or none, and digits. */
  predicate Exponent(t: Text) {
    t == [] || ((t[0] == 101 || t[0] == 69) && |t| >= 2
                && DecimalDigits(if t[1] == 43 || t[1] == 45 then t[2..] else t[1..]))
  }

  /** The text cannot be read further as a number. */
  predicate Ends(tail: Text) { tail != [] ==> !(48 <= tail[0] <= 57) && tail[0] != 46 && tail[0] != 101 && tail[0] != 69 }

  lemma DigitsAre(t: Text)
    ensures DecimalDigits(t) <==> t != [] && AllDigits(t)
  {
    if DecimalDigits(t) { forall c | c in t ensures IsDigit(c) {} }
    if AllDigits(t) { forall i | 0 <= i < |t| ensures 48 <= t[i] <= 57 { assert t[i] in t; } }
  }

  lemma RunOf(d: Text, tail: Text)
    requires DecimalDigits(d) && (tail != [] ==> !IsDigit(tail[0]))
    ensures DigitRun(d + tail) == |d|
  {
    DigitsAre(d);
    DigitRunOf(d, tail);
  }

  lemma FractionRead(f: Text, tail: Text)
    requires Fraction(f) && (tail != [] ==> !IsDigit(tail[0])) && (f == [] ==> tail == [] || tail[0] != 46)
    ensures FractionLength(f + tail) == |f|
  {
    if f == [] {
      assert f + tail == tail;
    } else {
      assert (f + tail)[1..] == f[1..] + tail && (f + tail)[1] == f[1..][0];
      RunOf(f[1..], tail);
    }
  }

  lemma ExponentRead(e: Text, tail: Text)
    requires Exponent(e) && (tail != [] ==> !IsDigit(tail[0]) && tail[0] != 101 && tail[0] != 69)
    ensures ExponentLength(e + tail) == |e|
  {
    if e == [] {
      assert e + tail == tail;
    } else {
      var sign := if e[1] == PLUS || e[1] == MINUS then 2 else 1;
      assert (e + tail)[1] == e[1] && (e + tail)[sign..] == e[sign..] + tail;
      RunOf(e[sign..], tail);
    }
  }

  lemma FractionSound(s: Text)
    ensures Fraction(s[..FractionLength(s)])
  {
    var k := FractionLength(s);
    if k > 0 {
      var run := DigitRun(s[1..]);
      assert s[..k][1..] == s[1..][..run] && s[1..][0] == s[1];
      DigitsAre(s[1..][..run]);
    }
  }

  lemma ExponentSound(s: Text)
    ensures Exponent(s[..ExponentLength(s)])
  {
    var k := ExponentLength(s);
    if k > 0 {
      var sign := if s[1] == PLUS || s[1] == MINUS then 2 else 1;
      var run := DigitRun(s[sign..]);
      assert s[..k][1] == s[1] && s[..k][sign..] == s[sign..][..run];
      DigitsAre(s[sign..][..run]);
    }
  }

  predicate Lengths(s: Text, k: nat, f: nat, e: nat) {
    && s != [] && IsDigit(s[0]) && k == IntegerLength(s) && f == FractionLength(s[k..]) && k + f <= |s|
    && e == ExponentLength(s[k + f..]) && k + f + e <= |s|
  }

  lemma MagnitudeScanned(s: Text, k: nat, f: nat, e: nat)
    requires Lengths(s, k, f, e)
    ensures AllDigits(s[..k]) && ScanMagnitude(s) == MagnitudeAt(s, k, f, e)
  {}

  lemma MagnitudeThere(s: Text, k: nat, f: nat, e: nat, d: Text, rest: Text)
    requires k + f + e <= |s| && AllDigits(s[..k]) && d == s[..k] && rest == s[k + f + e..]
    ensures MagnitudeAt(s, k, f, e) == MagnitudeOf(d, f + e, rest)
  {}

  lemma MagnitudeIs(s: Text, k: nat, f: nat, e: nat, d: Text, rest: Text)
    requires Lengths(s, k, f, e) && d == s[..k] && rest == s[k + f + e..] && AllDigits(d)
    ensures ScanMagnitude(s) == MagnitudeOf(d, f + e, rest)
  {
    MagnitudeScanned(s, k, f, e);
    MagnitudeThere(s, k, f, e, d, rest);
  }

  lemma FourSlices(s: Text, d: Text, f: Text, e: Text, tail: Text)
    requires s == d + (f + (e + tail))
    ensures |d| + |f| + |e| <= |s| && s[..|d|] == d && s[|d|..] == f + (e + tail)
    ensures s[|d| + |f|..] == e + tail && s[|d| + |f| + |e|..] == tail
  {}

  lemma IntegerRead(d: Text, tail: Text)
    requires Integer(d) && (tail != [] ==> !IsDigit(tail[0]))
    ensures IsDigit((d + tail)[0]) && IntegerLength(d + tail) == |d|
  {
    RunOf(d, tail);
    assert (d + tail)[0] == d[0];
  }

  lemma AfterFraction(f: Text, e: Text, tail: Text)
    requires Fraction(f) && Exponent(e) && Ends(tail)
    ensures var et := e + tail; et != [] ==> !IsDigit(et[0]) && et[0] != 46
    ensures var ft := f + (e + tail); ft != [] ==> !IsDigit(ft[0])
  {}

  lemma LengthsRead(s: Text, d: Text, f: Text, e: Text, tail: Text)
    requires Integer(d) && Fraction(f) && Exponent(e) && Ends(tail) && s == d + (f + (e + tail))
    ensures Lengths(s, |d|, |f|, |e|)
  {
    FourSlices(s, d, f, e, tail);
    AfterFraction(f, e, tail);
    IntegerRead(d, f + (e + tail));
    FractionRead(f, e + tail);
    ExponentRead(e, tail);
  }

  /** What the digits of a number make of it. */
  lemma MagnitudeParts(d: Text, f: Text, e: Text, tail: Text)
    requires AllDigits(d) && (f == [] && e == [] ==> |d| <= 4300)
    ensures MagnitudeOf(d, |f| + |e|, tail) == Some((if f == [] && e == [] then Some(Number(d)) else None, tail))
  {}

  /** An unsigned number of an integer, a fraction and an exponent. */
  lemma MagnitudeRead(s: Text, d: Text, f: Text, e: Text, tail: Text)
    requires Integer(d) && Fraction(f) && Exponent(e) && Ends(tail) && s == d + (f + (e + tail)) && AllDigits(d)
    ensures ScanMagnitude(s) == MagnitudeOf(d, |f| + |e|, tail)
  {
    LengthsRead(s, d, f, e, tail);
    MagnitudeCut(s, d, f, e, tail);
  }

  lemma MagnitudeCut(s: Text, d: Text, f: Text, e: Text, tail: Text)
    requires Lengths(s, |d|, |f|, |e|) && s == d + (f + (e + tail)) && AllDigits(d)
    ensures ScanMagnitude(s) == MagnitudeOf(d, |f| + |e|, tail)
  {
    FourSlices(s, d, f, e, tail);
    MagnitudeIs(s, |d|, |f|, |e|, d, tail);
  }

  lemma IntegerSound(s: Text)
    requires s != [] && IsDigit(s[0])
    ensures Integer(s[..IntegerLength(s)])
  {
    DigitsAre(s[..IntegerLength(s)]);
  }

  lemma FourJoin(s: Text, k: nat, x: nat, y: nat)
    requires k + x + y <= |s|
    ensures s == s[..k] + (s[k..][..x] + (s[k + x..][..y] + s[k + x + y..]))
  {}

  lemma MagnitudeSound(s: Text, m: Option<int>, rest: Text) returns (d: Text, f: Text, e: Text)
    requires ScanMagnitude(s) == Some((m, rest))
    ensures s == d + (f + (e + rest)) && Integer(d) && Fraction(f) && Exponent(e)
    ensures AllDigits(d) && m == if f == [] && e == [] then Some(Number(d)) else None
    ensures f == [] && e == [] ==> |d| <= 4300
  {
    var k := IntegerLength(s);
    var x := FractionLength(s[k..]);
    var y := ExponentLength(s[k + x..]);
    d, f, e := s[..k], s[k..][..x], s[k + x..][..y];
    MagnitudeIs(s, k, x, y, d, s[k + x + y..]);
    IntegerSound(s);
    FractionSound(s[k..]);
    ExponentSound(s[k + x..]);
    FourJoin(s, k, x, y);
  }

  // ----- scalars -----

  /** A number is an integer when it has neither fraction nor exponent; otherwise its text is kept. */
  ghost predicate NumberParts(v: Value, t: Text, negative: bool, d: Text, f: Text, e: Text) {
    && Integer(d) && Fraction(f) && Exponent(e) && AllDigits(d) && t == (if negative then [45] else []) + (d + (f + e))
    && if f == [] && e == [] then |d| <= 4300 && v == Int(if negative then -Number(d) else Number(d)) else v == Float(t)
  }

  /** What is neither a string nor a container. */
  ghost predicate ScalarText(v: Value, t: Text) {
    ConstantText(v, t) || exists negative, d, f, e :: NumberParts(v, t, negative, d, f, e)
  }

  lemma Reassociate(sign: Text, d: Text, f: Text, e: Text, tail: Text)
    ensures sign + (d + (f + e)) + tail == sign + (d + (f + (e + tail)))
  {
    ConcatAssociative(sign, d + (f + e), tail);
    ConcatAssociative(d, f + e, tail);
    ConcatAssociative(f, e, tail);
  }

  lemma SignedOf(s: Text, v: Value, t: Text, negative: bool, d: Text, f: Text, e: Text, tail: Text)
    requires NumberParts(v, t, negative, d, f, e) && s == t + tail && |tail| < |s|
    ensures WithSign(negative, s, MagnitudeOf(d, |f| + |e|, tail)) == Some((v, tail))
  {
    MagnitudeParts(d, f, e, tail);
    WholeBefore(t, tail);
  }

  lemma SignedText(negative: bool, d: Text, f: Text, e: Text, tail: Text)
    ensures var m := d + (f + (e + tail));
      (if negative then [45] else []) + (d + (f + e)) + tail == if negative then [45] + m else m
  {
    Reassociate(if negative then [45] else [], d, f, e, tail);
  }

  lemma SignedRead(v: Value, t: Text, negative: bool, d: Text, f: Text, e: Text, tail: Text)
    requires NumberParts(v, t, negative, d, f, e) && Ends(tail)
    ensures SignedHeadOf(t + tail) && ScanNumber(t + tail) == Some((v, tail))
  {
    var m := d + (f + (e + tail));
    LengthsRead(m, d, f, e, tail);
    MagnitudeRead(m, d, f, e, tail);
    SignedText(negative, d, f, e, tail);
    SignScanned(t + tail, negative, m);
    SignedOf(t + tail, v, t, negative, d, f, e, tail);
  }

  lemma WholeBefore(t: Text, tail: Text)
    ensures (t + tail)[..|t + tail| - |tail|] == t
  {}

  /** A digit, or a minus and a digit. */
  predicate SignedHeadOf(s: Text) { s != [] && (IsDigit(s[0]) || (s[0] == MINUS && |s| > 1 && IsDigit(s[1]))) }

  lemma LiteralRead(word: string, t: Text, tail: Text)
    requires t == Lit(word)
    ensures Lit(word) <= t + tail && (t + tail)[|t|..] == tail && (t + tail)[..|t|] == t
  {}

  /** The text of a value starts with none of these. */
  predicate Begins(t: Text) { t != [] && !IsSpace(t[0]) && t[0] != RBRACKET && t[0] != RBRACE }

  predicate Opens(t: Text) { t != [] && (t[0] == QUOTE || t[0] == LBRACE || t[0] == LBRACKET) }

  lemma NumberRead(v: Value, t: Text, negative: bool, d: Text, f: Text, e: Text, tail: Text)
    requires NumberParts(v, t, negative, d, f, e) && Ends(tail)
    ensures Begins(t) && !Opens(t) && ParseScalar(t + tail) == Some((v, tail))
  {
    SignedRead(v, t, negative, d, f, e, tail);
    ScalarNumber(t + tail);
    assert t[0] == (t + tail)[0];
  }

  ghost predicate ConstantText(v: Value, t: Text) {
    || (v == Null && t == Lit("null")) || (v == Bool(true) && t == Lit("true")) || (v == Bool(false) && t == Lit("false"))
    || (v == Float(t) && (t == Lit("NaN") || t == Lit("Infinity") || t == Lit("-Infinity")))
  }

  lemma NanParsed(s: Text, tail: Text)
    requires Lit("NaN") <= s && s[3..] == tail && s[..3] == Lit("NaN")
    ensures ParseScalar(s) == Some((Float(Lit("NaN")), tail))
  {
    assert s[0] == Lit("NaN")[0] == 78;
  }

  lemma InfinityParsed(s: Text, tail: Text)
    requires Lit("Infinity") <= s && s[8..] == tail && s[..8] == Lit("Infinity")
    ensures ParseScalar(s) == Some((Float(Lit("Infinity")), tail))
  {
    assert s[0] == Lit("Infinity")[0] == 73;
  }

  lemma MinusInfinityParsed(s: Text, tail: Text)
    requires Lit("-Infinity") <= s && s[9..] == tail && s[..9] == Lit("-Infinity")
    ensures ParseScalar(s) == Some((Float(Lit("-Infinity")), tail))
  {
    assert s[0] == Lit("-Infinity")[0] == MINUS && s[1] == Lit("-Infinity")[1] == 73;
  }

  lemma FloatBegins(t: Text)
    requires t == Lit("NaN") || t == Lit("Infinity") || t == Lit("-Infinity")
    ensures Begins(t) && !Opens(t)
  {
    assert t[0] == 78 || t[0] == 73 || t[0] == MINUS;
  }

  lemma FloatRead(v: Value, t: Text, tail: Text)
    requires v == Float(t) && (t == Lit("NaN") || t == Lit("Infinity") || t == Lit("-Infinity"))
    ensures Begins(t) && !Opens(t) && ParseScalar(t + tail) == Some((v, tail))
  {
    FloatBegins(t);
    if t == Lit("NaN") {
      LiteralRead("NaN", t, tail);
      NanParsed(t + tail, tail);
    } else if t == Lit("Infinity") {
      LiteralRead("Infinity", t, tail);
      InfinityParsed(t + tail, tail);
    } else {
      LiteralRead("-Infinity", t, tail);
      MinusInfinityParsed(t + tail, tail);
    }
  }

  lemma ConstantRead(v: Value, t: Text, tail: Text)
    requires ConstantText(v, t)
    ensures Begins(t) && !Opens(t) && ParseScalar(t + tail) == Some((v, tail))
  {
    if v == Null { LiteralRead("null", t, tail); }
    else if v == Bool(true) { LiteralRead("true", t, tail); }
    else if v == Bool(false) { LiteralRead("false", t, tail); }
    else { FloatRead(v, t, tail); }
  }

  lemma ScalarRead(v: Value, t: Text, tail: Text)
    requires ScalarText(v, t) && Ends(tail)
    ensures Begins(t) && !Opens(t) && ParseScalar(t + tail) == Some((v, tail))
  {
    if ConstantText(v, t) {
      ConstantRead(v, t, tail);
    } else {
      var negative, d, f, e :| NumberParts(v, t, negative, d, f, e);
      NumberRead(v, t, negative, d, f, e, tail);
    }
  }

  /** What was scanned after the sign. */
  lemma SignedRest(s: Text, v: Value, rest: Text, negative: bool, after: Text)
    requires ScanNumber(s) == Some((v, rest)) && negative == (s != [] && s[0] == MINUS) && after == if negative then s[1..] else s
    ensures ScanMagnitude(after).Some? && ScanMagnitude(after).value.1 == rest
  {}

  lemma SignedValue(s: Text, v: Value, rest: Text, negative: bool, after: Text, m: Option<int>, t: Text)
    requires ScanNumber(s) == Some((v, rest)) && negative == (s != [] && s[0] == MINUS) && after == if negative then s[1..] else s
    requires ScanMagnitude(after) == Some((m, rest)) && s == t + rest
    ensures v == match m case Some(n) => Int(if negative then -n else n) case None => Float(t)
  {
    WholeBefore(t, rest);
  }

  lemma SignedSound(s: Text, v: Value, rest: Text) returns (t: Text)
    requires ScanNumber(s) == Some((v, rest))
    ensures s == t + rest && ScalarText(v, t)
  {
    var negative := s != [] && s[0] == MINUS;
    var after := if negative then s[1..] else s;
    SignedRest(s, v, rest, negative, after);
    var m := ScanMagnitude(after).value.0;
    var d, f, e := MagnitudeSound(after, m, rest);
    t := (if negative then [45] else []) + (d + (f + e));
    SignedLayout(s, negative, after, d, f, e, rest);
    SignedValue(s, v, rest, negative, after, m, t);
    NumberIs(v, t, negative, d, f, e, m);
  }

  lemma SignedLayout(s: Text, negative: bool, after: Text, d: Text, f: Text, e: Text, rest: Text)
    requires negative == (s != [] && s[0] == MINUS) && after == (if negative then s[1..] else s)
    requires after == d + (f + (e + rest))
    ensures s == (if negative then [45] else []) + (d + (f + e)) + rest
  {
    var sign: Text := if negative then [45] else [];
    assert s == sign + after;
    Reassociate(sign, d, f, e, rest);
  }

  lemma NumberIs(v: Value, t: Text, negative: bool, d: Text, f: Text, e: Text, m: Option<int>)
    requires Integer(d) && Fraction(f) && Exponent(e) && AllDigits(d) && t == (if negative then [45] else []) + (d + (f + e))
    requires m == (if f == [] && e == [] then Some(Number(d)) else None) && (f == [] && e == [] ==> |d| <= 4300)
    requires v == match m case Some(n) => Int(if negative then -n else n) case None => Float(t)
    ensures ScalarText(v, t)
  {
    assert NumberParts(v, t, negative, d, f, e);
  }

  lemma Cut(s: Text, word: Text)
    requires word <= s
    ensures s == word + s[|word|..] && s[..|word|] == word
  {}

  lemma ScalarSound(s: Text, v: Value, rest: Text) returns (t: Text)
    requires ParseScalar(s) == Some((v, rest))
    ensures s == t + rest && ScalarText(v, t)
  {
    if s[0] == 110 { Cut(s, Lit("null")); t := Lit("null"); }
    else if s[0] == 116 { Cut(s, Lit("true")); t := Lit("true"); }
    else if s[0] == 102 { Cut(s, Lit("false")); t := Lit("false"); }
    else if s[0] == 78 { Cut(s, Lit("NaN")); t := Lit("NaN"); }
    else if s[0] == 73 { Cut(s, Lit("Infinity")); t := Lit("Infinity"); }
    else if |s| > 1 && s[0] == MINUS && s[1] == 73 { Cut(s, Lit("-Infinity")); t := Lit("-Infinity"); }
    else { t := SignedSound(s, v, rest); }
  }

  // ----- documents -----

  /** A value as it is written, with the white space in it. */
  datatype Doc =
    | Scalar(value: Value, text: Text)
    | Quoted(s: Text, body: Text)
    | NoItems(white: Text)
    | List(items: Items)
    | NoMembers(white: Text)
    | Object(members: Members)

  /** Items with white space around each, separated by commas. */
  datatype Items =
    | LastItem(before: Text, item: Doc, after: Text)
    | MoreItems(before: Text, item: Doc, after: Text, rest: Items)

  /** A name, its text between the quotes, and white space before it and before the colon. */
  datatype Key = Key(name: Text, body: Text, before: Text, after: Text)

  datatype Members =
    | LastMember(key: Key, before: Text, item: Doc, after: Text)
    | MoreMembers(key: Key, before: Text, item: Doc, after: Text, rest: Members)

  function TextOf(d: Doc): Text {
    match d
    case Scalar(_, t) => t
    case Quoted(_, body) => [34] + (body + [34])
    case NoItems(w) => [91] + (w + [93])
    case List(items) => [91] + (ItemsText(items) + [93])
    case NoMembers(w) => [123] + (w + [125])
    case Object(members) => [123] + (MembersText(members) + [125])
  }

  function ItemsText(items: Items): Text {
    match items
    case LastItem(a, x, b) => a + (TextOf(x) + b)
    case MoreItems(a, x, b, rest) => a + (TextOf(x) + (b + ([44] + ItemsText(rest))))
  }

  function KeyText(k: Key): Text { k.before + ([34] + (k.body + ([34] + (k.after + [58])))) }

  function MembersText(members: Members): Text {
    match members
    case LastMember(k, a, x, b) => KeyText(k) + (a + (TextOf(x) + b))
    case MoreMembers(k, a, x, b, rest) => KeyText(k) + (a + (TextOf(x) + (b + ([44] + MembersText(rest)))))
  }

  function ValueOf(d: Doc): Value {
    match d
    case Scalar(v, _) => v
    case Quoted(s, _) => Str(s)
    case NoItems(_) => Arr([])
    case List(items) => Arr(ItemsOf(items))
    case NoMembers(_) => Obj([])
    case Object(members) => Obj(FieldsOf(members))
  }

  function ItemsOf(items: Items): seq<Value> {
    match items
    case LastItem(_, x, _) => [ValueOf(x)]
    case MoreItems(_, x, _, rest) => [ValueOf(x)] + ItemsOf(rest)
  }

  function FieldsOf(members: Members): seq<Field> {
    match members
    case LastMember(k, _, x, _) => [Field(k.name, ValueOf(x))]
    case MoreMembers(k, _, x, _, rest) => [Field(k.name, ValueOf(x))] + FieldsOf(rest)
  }

  /** Properly written, with at most this many containers open at once. */
  ghost predicate Proper(d: Doc, depth: nat) {
    match d
    case Scalar(v, t) => ScalarText(v, t)
    case Quoted(s, body) => StringBody(s, body)
    case NoItems(w) => depth > 0 && White(w)
    case List(items) => depth > 0 && ProperItems(items, depth - 1)
    case NoMembers(w) => depth > 0 && White(w)
    case Object(members) => depth > 0 && ProperMembers(members, depth - 1)
  }

  ghost predicate ProperItems(items: Items, depth: nat) {
    White(items.before) && White(items.after) && Proper(items.item, depth) && (items.MoreItems? ==> ProperItems(items.rest, depth))
  }

  ghost predicate ProperKey(k: Key) { White(k.before) && White(k.after) && StringBody(k.name, k.body) }

  ghost predicate ProperMembers(members: Members, depth: nat) {
    && ProperKey(members.key) && White(members.before) && White(members.after) && Proper(members.item, depth)
    && (members.MoreMembers? ==> ProperMembers(members.rest, depth))
  }

  // ----- every document is read -----

  /** What may follow a value in a container. */
  lemma WhiteEnds(b: Text, after: Text)
    requires White(b) && (after == [] || after[0] == COMMA || after[0] == RBRACKET || after[0] == RBRACE)
    ensures Ends(b + after) && SkipSpace(b + after) == after
  {
    SkipWhite(b, after);
  }

  lemma BeginsAfterWhite(a: Text, x: Text, after: Text)
    requires White(a) && Begins(x)
    ensures SkipSpace(a + (x + after)) == x + after && Begins(x + after)
  {
    SkipWhite(a, x + after);
  }

  lemma QuotedLayout(body: Text, tail: Text)
    ensures var s := [34] + (body + [34]) + tail; s[0] == 34 && s[1..] == body + [34] + tail
  {}

  lemma QuotedRead(s: Text, x: Text, rest: Text, depth: nat)
    requires s != [] && s[0] == 34 && ScanString(s[1..]) == Some((x, rest))
    ensures ParseValue(s, depth) == Some((Str(x), rest))
  {}

  lemma StringRead(s: Text, body: Text, depth: nat, tail: Text)
    requires StringBody(s, body)
    ensures var t := [34] + (body + [34]); ParseValue(t + tail, depth) == Some((Str(s), tail)) && Begins(t)
  {
    ScanComplete(s, body, tail);
    QuotedLayout(body, tail);
    QuotedRead([34] + (body + [34]) + tail, s, tail, depth);
  }

  lemma ArrayRead(items: seq<Value>, inner: Text, depth: nat, tail: Text)
    requires depth > 0 && (items == [] ==> White(inner))
    requires items != [] ==> var s := SkipSpace(inner + ([93] + tail));
      ParseItems(s, depth - 1) == Some((items, tail)) && Begins(s)
    ensures var t := [91] + (inner + [93]); ParseValue(t + tail, depth) == Some((Arr(items), tail)) && Begins(t)
  {
    var s := [91] + (inner + [93]) + tail;
    assert s[1..] == inner + ([93] + tail);
    if items == [] {
      WhiteEnds(inner, [93] + tail);
      assert ([93] + tail)[1..] == tail;
    }
  }

  lemma ObjectRead(fields: seq<Field>, inner: Text, depth: nat, tail: Text)
    requires depth > 0 && (fields == [] ==> White(inner))
    requires fields != [] ==> var s := SkipSpace(inner + ([125] + tail));
      ParseFields(s, depth - 1) == Some((fields, tail)) && Begins(s)
    ensures var t := [123] + (inner + [125]); ParseValue(t + tail, depth) == Some((Obj(fields), tail)) && Begins(t)
  {
    var s := [123] + (inner + [125]) + tail;
    assert s[1..] == inner + ([125] + tail);
    if fields == [] {
      WhiteEnds(inner, [125] + tail);
      assert ([125] + tail)[1..] == tail;
    }
  }

  lemma ScalarDocRead(v: Value, t: Text, depth: nat, tail: Text)
    requires ScalarText(v, t) && Ends(tail)
    ensures ParseValue(t + tail, depth) == Some((v, tail)) && Begins(t)
  {
    ScalarRead(v, t, tail);
    assert (t + tail)[0] == t[0];
    ParseNonContainer(t + tail, depth);
  }

  lemma SomeItems(items: Items)
    ensures ItemsOf(items) != []
  {}

  lemma SomeFields(members: Members)
    ensures FieldsOf(members) != []
  {}

  lemma {:induction false} DocRead(d: Doc, depth: nat, tail: Text)
    requires Proper(d, depth) && Ends(tail)
    ensures ParseValue(TextOf(d) + tail, depth) == Some((ValueOf(d), tail)) && Begins(TextOf(d))
  {
    match d
    case Scalar(v, t) => ScalarDocRead(v, t, depth, tail);
    case Quoted(s, body) => StringRead(s, body, depth, tail);
    case NoItems(w) => ArrayRead([], w, depth, tail);
    case List(items) =>
      ItemsRead(items, depth - 1, tail);
      SomeItems(items);
      ArrayRead(ItemsOf(items), ItemsText(items), depth, tail);
    case NoMembers(w) => ObjectRead([], w, depth, tail);
    case Object(members) =>
      MembersRead(members, depth - 1, tail);
      SomeFields(members);
      ObjectRead(FieldsOf(members), MembersText(members), depth, tail);
  }

  /** The last item, and what comes after it. */
  lemma LastRead(a: Text, x: Text, b: Text, v: Value, depth: nat, tail: Text)
    requires White(a) && White(b) && Begins(x)
    requires ParseValue(x + (b + ([93] + tail)), depth) == Some((v, b + ([93] + tail)))
    ensures var s := SkipSpace(a + (x + b) + ([93] + tail)); ParseItems(s, depth) == Some(([v], tail)) && Begins(s)
  {
    var close := [93] + tail;
    WhiteEnds(b, close);
    BeginsAfterWhite(a, x, b + close);
    LastItemText(a, x, b, close);
    ItemRead(x + (b + close), depth, v, b + close);
    assert close[1..] == tail;
  }

  lemma LastItemText(a: Text, x: Text, b: Text, close: Text)
    ensures a + (x + b) + close == a + (x + (b + close))
  {
    ConcatAssociative(a, x + b, close);
    ConcatAssociative(x, b, close);
  }

  /** ParseItems from the first value on. */
  lemma ItemRead(s: Text, depth: nat, v: Value, behind: Text)
    requires ParseValue(s, depth) == Some((v, behind))
    ensures ParseItems(s, depth) ==
      var rest := SkipSpace(behind);
      if rest == [] then None
      else if rest[0] == RBRACKET then Some(([v], rest[1..]))
      else if rest[0] == COMMA then
        var r := ParseItems(SkipSpace(rest[1..]), depth);
        if r.None? then None else Some(([v] + r.value.0, r.value.1))
      else None
  {}

  lemma NextRead(a: Text, x: Text, b: Text, rest: Text, v: Value, more: seq<Value>, depth: nat, tail: Text)
    requires White(a) && White(b) && Begins(x)
    requires var after := [44] + (rest + ([93] + tail)); ParseValue(x + (b + after), depth) == Some((v, b + after))
    requires ParseItems(SkipSpace(rest + ([93] + tail)), depth) == Some((more, tail))
    ensures var s := SkipSpace(a + (x + (b + ([44] + rest))) + ([93] + tail));
      ParseItems(s, depth) == Some(([v] + more, tail)) && Begins(s)
  {
    var close := [93] + tail;
    var after := [44] + (rest + close);
    WhiteEnds(b, after);
    BeginsAfterWhite(a, x, b + after);
    ItemLayout(a, x, b, rest, close);
    ItemRead(x + (b + after), depth, v, b + after);
    assert after[1..] == rest + close;
  }

  lemma ItemLayout(a: Text, x: Text, b: Text, rest: Text, close: Text)
    ensures a + (x + (b + ([44] + rest))) + close == a + (x + (b + ([44] + (rest + close))))
  {
    ConcatAssociative(a, x + (b + ([44] + rest)), close);
    ConcatAssociative(x, b + ([44] + rest), close);
    ConcatAssociative(b, [44] + rest, close);
    ConcatAssociative([44], rest, close);
  }

  lemma {:induction false} ItemsRead(items: Items, depth: nat, tail: Text)
    requires ProperItems(items, depth)
    ensures var s := SkipSpace(ItemsText(items) + ([93] + tail));
      ParseItems(s, depth) == Some((ItemsOf(items), tail)) && Begins(s)
  {
    var close := [93] + tail;
    match items
    case LastItem(a, x, b) =>
      WhiteEnds(b, close);
      DocRead(x, depth, b + close);
      LastRead(a, TextOf(x), b, ValueOf(x), depth, tail);
    case MoreItems(a, x, b, rest) =>
      var after := [44] + (ItemsText(rest) + close);
      WhiteEnds(b, after);
      DocRead(x, depth, b + after);
      ItemsRead(rest, depth, tail);
      NextRead(a, TextOf(x), b, ItemsText(rest), ValueOf(x), ItemsOf(rest), depth, tail);
  }

  /** A name and its colon. */
  lemma KeyRead(k: Key, rest: Text)
    requires ProperKey(k)
    ensures var s := SkipSpace(KeyText(k) + rest);
      Begins(s) && s[0] == QUOTE && ScanString(s[1..]) == Some((k.name, k.after + ([58] + rest)))
      && SkipSpace(k.after + ([58] + rest)) == [58] + rest
  {
    var colon := k.after + ([58] + rest);
    var s := [34] + (k.body + [QUOTE] + colon);
    assert KeyText(k) + rest == k.before + s;
    SkipWhite(k.before, s);
    ScanComplete(k.name, k.body, colon);
    assert s[1..] == k.body + [QUOTE] + colon;
    SkipWhite(k.after, [58] + rest);
  }

  /** ParseFields from the name on. */
  lemma FieldRead(s: Text, depth: nat, name: Text, after: Text, value: Text, v: Value, behind: Text)
    requires s != [] && s[0] == QUOTE && ScanString(s[1..]) == Some((name, after)) && SkipSpace(after) == [58] + value
    requires ParseValue(SkipSpace(value), depth) == Some((v, behind))
    ensures ParseFields(s, depth) ==
      var rest := SkipSpace(behind);
      if rest == [] then None
      else if rest[0] == RBRACE then Some(([Field(name, v)], rest[1..]))
      else if rest[0] == COMMA then
        var r := ParseFields(SkipSpace(rest[1..]), depth);
        if r.None? then None else Some(([Field(name, v)] + r.value.0, r.value.1))
      else None
  {
    assert ([58] + value)[1..] == value;
  }

  lemma KeyLastLayout(key: Text, a: Text, x: Text, b: Text, close: Text)
    ensures key + (a + (x + b)) + close == key + (a + (x + (b + close)))
  {
    ConcatAssociative(key, a + (x + b), close);
    LastItemText(a, x, b, close);
  }

  lemma KeyNextLayout(key: Text, a: Text, x: Text, b: Text, rest: Text, close: Text)
    ensures key + (a + (x + (b + ([44] + rest)))) + close == key + (a + (x + (b + ([44] + (rest + close)))))
  {
    ConcatAssociative(key, a + (x + (b + ([44] + rest))), close);
    ItemLayout(a, x, b, rest, close);
  }

  lemma LastMemberRead(k: Key, a: Text, x: Text, b: Text, v: Value, depth: nat, tail: Text)
    requires ProperKey(k) && White(a) && White(b) && Begins(x)
    requires ParseValue(x + (b + ([125] + tail)), depth) == Some((v, b + ([125] + tail)))
    ensures var s := SkipSpace(KeyText(k) + (a + (x + b)) + ([125] + tail));
      ParseFields(s, depth) == Some(([Field(k.name, v)], tail)) && Begins(s)
  {
    var close := [125] + tail;
    var value := a + (x + (b + close));
    WhiteEnds(b, close);
    BeginsAfterWhite(a, x, b + close);
    KeyRead(k, value);
    KeyLastLayout(KeyText(k), a, x, b, close);
    assert close[1..] == tail;
    FieldEnds(SkipSpace(KeyText(k) + value), depth, k.name, k.after + ([58] + value), value, v, b + close, close, tail);
  }

  lemma FieldEnds(s: Text, depth: nat, name: Text, colon: Text, value: Text, v: Value, behind: Text, after: Text, tail: Text)
    requires s != [] && s[0] == QUOTE && ScanString(s[1..]) == Some((name, colon)) && SkipSpace(colon) == [58] + value
    requires ParseValue(SkipSpace(value), depth) == Some((v, behind)) && SkipSpace(behind) == after
    requires after != [] && after[0] == RBRACE && after[1..] == tail
    ensures ParseFields(s, depth) == Some(([Field(name, v)], tail))
  {
    FieldRead(s, depth, name, colon, value, v, behind);
  }

  lemma NextMemberRead(k: Key, a: Text, x: Text, b: Text, rest: Text, v: Value, more: seq<Field>, depth: nat, tail: Text)
    requires ProperKey(k) && White(a) && White(b) && Begins(x)
    requires var after := [44] + (rest + ([125] + tail)); ParseValue(x + (b + after), depth) == Some((v, b + after))
    requires ParseFields(SkipSpace(rest + ([125] + tail)), depth) == Some((more, tail))
    ensures var s := SkipSpace(KeyText(k) + (a + (x + (b + ([44] + rest)))) + ([125] + tail));
      ParseFields(s, depth) == Some(([Field(k.name, v)] + more, tail)) && Begins(s)
  {
    var close := [125] + tail;
    var after := [44] + (rest + close);
    var value := a + (x + (b + after));
    WhiteEnds(b, after);
    BeginsAfterWhite(a, x, b + after);
    KeyRead(k, value);
    KeyNextLayout(KeyText(k), a, x, b, rest, close);
    assert after[1..] == rest + close;
    FieldGoesOn(SkipSpace(KeyText(k) + value), depth, k.name, k.after + ([58] + value), value, v, b + after, after, more, tail);
  }

  lemma FieldGoesOn(s: Text, depth: nat, name: Text, colon: Text, value: Text, v: Value, behind: Text, after: Text,
                    more: seq<Field>, tail: Text)
    requires s != [] && s[0] == QUOTE && ScanString(s[1..]) == Some((name, colon)) && SkipSpace(colon) == [58] + value
    requires ParseValue(SkipSpace(value), depth) == Some((v, behind)) && SkipSpace(behind) == after
    requires after != [] && after[0] == COMMA && ParseFields(SkipSpace(after[1..]), depth) == Some((more, tail))
    ensures ParseFields(s, depth) == Some(([Field(name, v)] + more, tail))
  {
    FieldRead(s, depth, name, colon, value, v, behind);
  }

  lemma {:induction false} MembersRead(members: Members, depth: nat, tail: Text)
    requires ProperMembers(members, depth)
    ensures var s := SkipSpace(MembersText(members) + ([125] + tail));
      ParseFields(s, depth) == Some((FieldsOf(members), tail)) && Begins(s)
  {
    var close := [125] + tail;
    match members
    case LastMember(k, a, x, b) =>
      WhiteEnds(b, close);
      DocRead(x, depth, b + close);
      LastMemberRead(k, a, TextOf(x), b, ValueOf(x), depth, tail);
    case MoreMembers(k, a, x, b, rest) =>
      var after := [44] + (MembersText(rest) + close);
      WhiteEnds(b, after);
      DocRead(x, depth, b + after);
      MembersRead(rest, depth, tail);
      NextMemberRead(k, a, TextOf(x), b, MembersText(rest), ValueOf(x), FieldsOf(rest), depth, tail);
  }

  // ----- only documents are read -----

  lemma Wrapped(s: Text, open: Code, inner: Text, close: Code, rest: Text)
    requires s != [] && s[0] == open && s[1..] == inner + ([close] + rest)
    ensures s == [open] + (inner + [close]) + rest
  {
    assert s == [open] + s[1..];
  }

  lemma QuotedSound(s: Text, depth: nat, x: Text, rest: Text) returns (d: Doc)
    requires s != [] && s[0] == QUOTE && ScanString(s[1..]) == Some((x, rest))
    ensures Proper(d, depth) && ValueOf(d) == Str(x) && s == TextOf(d) + rest
  {
    var body := ScanSound(s[1..], x, rest);
    d := Quoted(x, body);
    ConcatAssociative(body, [QUOTE], rest);
    Wrapped(s, QUOTE, body, QUOTE, rest);
  }

  lemma QuotedParts(s: Text, depth: nat, v: Value, rest: Text)
    requires ParseValue(s, depth) == Some((v, rest)) && s[0] == QUOTE
    ensures v.Str? && ScanString(s[1..]) == Some((v.s, rest))
  {}

  lemma OpenedAt(s: Text, open: Code, a: Text, inner: Text)
    requires s != [] && s[0] == open && White(a) && s[1..] == a + inner
    ensures Opened(s, open, a, inner)
  {
    assert s == [open] + s[1..];
  }

  /** The document that was read, without the white space before it. */
  lemma {:induction false} DocSound(s: Text, depth: nat, v: Value, rest: Text) returns (d: Doc)
    requires ParseValue(s, depth) == Some((v, rest))
    ensures Proper(d, depth) && ValueOf(d) == v && s == TextOf(d) + rest
    decreases |s|, 0
  {
    if s[0] == QUOTE {
      QuotedParts(s, depth, v, rest);
      d := QuotedSound(s, depth, v.s, rest);
    } else if s[0] == LBRACE {
      d := BracedSound(s, depth, v, rest);
    } else if s[0] == LBRACKET {
      d := BracketedSound(s, depth, v, rest);
    } else {
      ParseNonContainer(s, depth);
      var t := ScalarSound(s, v, rest);
      d := Scalar(v, t);
    }
  }

  lemma {:induction false} BracedSound(s: Text, depth: nat, v: Value, rest: Text) returns (d: Doc)
    requires ParseValue(s, depth) == Some((v, rest)) && s[0] == LBRACE
    ensures Proper(d, depth) && ValueOf(d) == v && s == TextOf(d) + rest
    decreases |s|, 0, 1
  {
    var a := SkipSound(s[1..]);
    var inner := SkipSpace(s[1..]);
    ObjectParts(s, depth, v, rest, inner);
    if inner != [] && inner[0] == RBRACE {
      d := NoMembersMade(s, a, inner, depth, rest);
    } else {
      OpenedAt(s, LBRACE, a, inner);
      d := ObjectSound(s, a, inner, depth, v.fields, rest);
    }
  }

  lemma {:induction false} BracketedSound(s: Text, depth: nat, v: Value, rest: Text) returns (d: Doc)
    requires ParseValue(s, depth) == Some((v, rest)) && s[0] == LBRACKET
    ensures Proper(d, depth) && ValueOf(d) == v && s == TextOf(d) + rest
    decreases |s|, 0, 1
  {
    var a := SkipSound(s[1..]);
    var inner := SkipSpace(s[1..]);
    ArrayParts(s, depth, v, rest, inner);
    if inner != [] && inner[0] == RBRACKET {
      d := NoItemsMade(s, a, inner, depth, rest);
    } else {
      OpenedAt(s, LBRACKET, a, inner);
      d := ArraySound(s, a, inner, depth, v.items, rest);
    }
  }

  /** What ParseValue went through after an opening bracket. */
  lemma ArrayParts(s: Text, depth: nat, v: Value, rest: Text, inner: Text)
    requires ParseValue(s, depth) == Some((v, rest)) && s[0] == LBRACKET && inner == SkipSpace(s[1..])
    ensures depth > 0 && v.Arr? && |inner| < |s|
    ensures if inner != [] && inner[0] == RBRACKET then v == Arr([]) && rest == inner[1..]
            else ParseItems(inner, depth - 1) == Some((v.items, rest))
  {}

  lemma ObjectParts(s: Text, depth: nat, v: Value, rest: Text, inner: Text)
    requires ParseValue(s, depth) == Some((v, rest)) && s[0] == LBRACE && inner == SkipSpace(s[1..])
    ensures depth > 0 && v.Obj? && |inner| < |s|
    ensures if inner != [] && inner[0] == RBRACE then v == Obj([]) && rest == inner[1..]
            else ParseFields(inner, depth - 1) == Some((v.fields, rest))
  {}

  /** An opening character, white space, what is inside, and a closing character. */
  lemma Enclosed(s: Text, open: Code, a: Text, inner: Text, t: Text, close: Code, rest: Text)
    requires s != [] && s[0] == open && s[1..] == a + inner && inner == t + ([close] + rest)
    ensures s == [open] + ((a + t) + [close]) + rest
  {
    ConcatAssociative(a, t, [close] + rest);
    Wrapped(s, open, a + t, close, rest);
  }

  lemma EmptyEnclosed(s: Text, open: Code, a: Text, inner: Text, close: Code, rest: Text)
    requires s != [] && s[0] == open && s[1..] == a + inner && inner != [] && inner[0] == close && rest == inner[1..]
    ensures s == [open] + (a + [close]) + rest
  {
    assert inner == [close] + rest;
    Wrapped(s, open, a, close, rest);
  }

  lemma NoItemsMade(s: Text, a: Text, inner: Text, depth: nat, rest: Text) returns (d: Doc)
    requires s != [] && s[0] == LBRACKET && White(a) && s[1..] == a + inner && depth > 0
    requires inner != [] && inner[0] == RBRACKET && rest == inner[1..]
    ensures Proper(d, depth) && ValueOf(d) == Arr([]) && s == TextOf(d) + rest
  {
    d := NoItems(a);
    EmptyEnclosed(s, LBRACKET, a, inner, RBRACKET, rest);
  }

  lemma ArrayMade(s: Text, a: Text, inner: Text, items: Items, depth: nat, values: seq<Value>, rest: Text) returns (d: Doc)
    requires depth > 0 && ProperItems(items, depth - 1) && ItemsOf(items) == values
    requires Opened(s, LBRACKET, a, inner) && inner == ItemsText(items) + ([93] + rest)
    ensures Proper(d, depth) && ValueOf(d) == Arr(values) && s == TextOf(d) + rest
  {
    var more := WithItemsBefore(a, items, depth - 1);
    d := List(more);
    Enclosed(s, LBRACKET, a, inner, ItemsText(items), RBRACKET, rest);
  }

  lemma {:induction false} ObjectSound(s: Text, a: Text, inner: Text, depth: nat, fields: seq<Field>, rest: Text) returns (d: Doc)
    requires Opened(s, LBRACE, a, inner) && depth > 0 && ParseFields(inner, depth - 1) == Some((fields, rest))
    ensures Proper(d, depth) && ValueOf(d) == Obj(fields) && s == TextOf(d) + rest
    decreases |s|, 0, 0
  {
    var r := MembersSound(inner, depth - 1, fields, rest);
    d := ObjectMade(s, a, inner, r, depth, fields, rest);
  }

  lemma {:induction false} ArraySound(s: Text, a: Text, inner: Text, depth: nat, items: seq<Value>, rest: Text) returns (d: Doc)
    requires Opened(s, LBRACKET, a, inner) && depth > 0 && ParseItems(inner, depth - 1) == Some((items, rest))
    ensures Proper(d, depth) && ValueOf(d) == Arr(items) && s == TextOf(d) + rest
    decreases |s|, 0, 0
  {
    var r := ItemsSound(inner, depth - 1, items, rest);
    d := ArrayMade(s, a, inner, r, depth, items, rest);
  }

  /** An opening character, white space, and what follows. */
  predicate Opened(s: Text, open: Code, a: Text, inner: Text) {
    White(a) && |inner| < |s| && s == [open] + (a + inner)
  }

  lemma NoMembersMade(s: Text, a: Text, inner: Text, depth: nat, rest: Text) returns (d: Doc)
    requires s != [] && s[0] == LBRACE && White(a) && s[1..] == a + inner && depth > 0
    requires inner != [] && inner[0] == RBRACE && rest == inner[1..]
    ensures Proper(d, depth) && ValueOf(d) == Obj([]) && s == TextOf(d) + rest
  {
    d := NoMembers(a);
    EmptyEnclosed(s, LBRACE, a, inner, RBRACE, rest);
  }

  lemma ObjectMade(s: Text, a: Text, inner: Text, members: Members, depth: nat, fields: seq<Field>, rest: Text) returns (d: Doc)
    requires depth > 0 && ProperMembers(members, depth - 1) && FieldsOf(members) == fields
    requires Opened(s, LBRACE, a, inner) && inner == MembersText(members) + ([125] + rest)
    ensures Proper(d, depth) && ValueOf(d) == Obj(fields) && s == TextOf(d) + rest
  {
    var more := WithMembersBefore(a, members, depth - 1);
    d := Object(more);
    Enclosed(s, LBRACE, a, inner, MembersText(members), RBRACE, rest);
  }

  lemma WhiteJoined(a: Text, b: Text)
    requires White(a) && White(b)
    ensures White(a + b)
  {}

  /** More white space before the first item. */
  lemma WithItemsBefore(a: Text, items: Items, depth: nat) returns (more: Items)
    requires White(a) && ProperItems(items, depth)
    ensures ProperItems(more, depth) && ItemsOf(more) == ItemsOf(items) && ItemsText(more) == a + ItemsText(items)
  {
    WhiteJoined(a, items.before);
    match items
    case LastItem(b, x, c) =>
      more := LastItem(a + b, x, c);
      ConcatAssociative(a, b, TextOf(x) + c);
    case MoreItems(b, x, c, rest) =>
      more := MoreItems(a + b, x, c, rest);
      ConcatAssociative(a, b, TextOf(x) + (c + ([44] + ItemsText(rest))));
  }

  lemma KeyBefore(a: Text, k: Key)
    requires White(a) && ProperKey(k)
    ensures ProperKey(k.(before := a + k.before)) && KeyText(k.(before := a + k.before)) == a + KeyText(k)
  {
    WhiteJoined(a, k.before);
    ConcatAssociative(a, k.before, [34] + (k.body + ([34] + (k.after + [58]))));
  }

  lemma WithMembersBefore(a: Text, members: Members, depth: nat) returns (more: Members)
    requires White(a) && ProperMembers(members, depth)
    ensures ProperMembers(more, depth) && FieldsOf(more) == FieldsOf(members) && MembersText(more) == a + MembersText(members)
  {
    KeyBefore(a, members.key);
    match members
    case LastMember(k, b, x, c) =>
      more := LastMember(k.(before := a + k.before), b, x, c);
      ConcatAssociative(a, KeyText(k), b + (TextOf(x) + c));
    case MoreMembers(k, b, x, c, rest) =>
      more := MoreMembers(k.(before := a + k.before), b, x, c, rest);
      ConcatAssociative(a, KeyText(k), b + (TextOf(x) + (c + ([44] + MembersText(rest)))));
  }

  /** What ParseItems went through. */
  lemma ItemsParts(s: Text, depth: nat, items: seq<Value>, rest: Text) returns (v: Value, behind: Text, after: Text)
    requires ParseItems(s, depth) == Some((items, rest))
    ensures ParseValue(s, depth) == Some((v, behind)) && after == SkipSpace(behind) && |behind| < |s|
    ensures after != [] && (after[0] == RBRACKET || after[0] == COMMA)
    ensures after[0] == RBRACKET ==> items == [v] && rest == after[1..]
    ensures after[0] == COMMA ==> items != [] && items[0] == v
    ensures after[0] == COMMA ==> ParseItems(SkipSpace(after[1..]), depth) == Some((items[1..], rest))
  {
    v, behind := ParseValue(s, depth).value.0, ParseValue(s, depth).value.1;
    after := SkipSpace(behind);
  }

  lemma LastItemLayout(s: Text, x: Text, b: Text, after: Text, close: Code, rest: Text)
    requires s == x + (b + after) && after != [] && after[0] == close && rest == after[1..]
    ensures s == [] + (x + b) + ([close] + rest)
  {
    assert after == [close] + rest;
    ConcatAssociative(x, b, after);
  }

  lemma {:induction false} ItemsSound(s: Text, depth: nat, items: seq<Value>, rest: Text) returns (r: Items)
    requires ParseItems(s, depth) == Some((items, rest))
    ensures ProperItems(r, depth) && ItemsOf(r) == items && s == ItemsText(r) + ([93] + rest)
    decreases |s|, 1
  {
    var v, behind, after := ItemsParts(s, depth, items, rest);
    var x := DocSound(s, depth, v, behind);
    var b := SkipSound(behind);
    if after[0] == RBRACKET {
      r := LastItem([], x, b);
      LastItemLayout(s, TextOf(x), b, after, RBRACKET, rest);
    } else {
      r := ItemsGoOn(s, depth, items, rest, v, x, b, after);
    }
  }

  lemma {:induction false} ItemsGoOn(s: Text, depth: nat, items: seq<Value>, rest: Text, v: Value, x: Doc, b: Text, after: Text)
    returns (r: Items)
    requires Proper(x, depth) && ValueOf(x) == v && White(b) && s == TextOf(x) + (b + after)
    requires after != [] && after[0] == COMMA && items != [] && items[0] == v
    requires ParseItems(SkipSpace(after[1..]), depth) == Some((items[1..], rest))
    ensures ProperItems(r, depth) && ItemsOf(r) == items && s == ItemsText(r) + ([93] + rest)
    decreases |s|, 0
  {
    var w := SkipSound(after[1..]);
    var inner := SkipSpace(after[1..]);
    var tail := ItemsSound(inner, depth, items[1..], rest);
    var more := WithItemsBefore(w, tail, depth);
    r := MoreItems([], x, b, more);
    ConcatAssociative(w, ItemsText(tail), [93] + rest);
    assert [] + (TextOf(x) + (b + after)) == s;
    CommaLayout(s, [], TextOf(x), b, after, ItemsText(more), [93] + rest);
    assert [v] + items[1..] == items;
  }

  lemma CommaLayout(s: Text, head: Text, x: Text, b: Text, after: Text, more: Text, close: Text)
    requires s == head + (x + (b + after)) && after != [] && after[0] == COMMA && after[1..] == more + close
    ensures s == head + (x + (b + ([44] + more))) + close
  {
    assert after == [44] + (more + close);
    ItemLayout(head, x, b, more, close);
  }

  lemma KeyLayout(s: Text, body: Text, b: Text, after: Text, colon: Text, rest: Text)
    requires s != [] && s[0] == QUOTE && s[1..] == body + [QUOTE] + after && after == b + colon && colon == [58] + rest
    ensures s == [] + ([34] + (body + ([34] + (b + [58])))) + rest
  {
    assert s == [34] + s[1..];
    assert s == [34] + body + [34] + b + [58] + rest;
  }

  /** What ParseFields went through up to the colon. */
  lemma KeySound(s: Text, depth: nat, fields: seq<Field>, rest: Text) returns (k: Key, value: Text)
    requires ParseFields(s, depth) == Some((fields, rest))
    ensures ProperKey(k) && s == KeyText(k) + value && |value| < |s|
    ensures fields != [] && fields[0].name == k.name
    ensures s[0] == QUOTE && ScanString(s[1..]).Some?
    ensures var after := ScanString(s[1..]).value.1;
      SkipSpace(after) == [58] + value && ScanString(s[1..]).value.0 == k.name
  {
    var (name, after) := ScanString(s[1..]).value;
    var body := ScanSound(s[1..], name, after);
    var b := SkipSound(after);
    var colon := SkipSpace(after);
    value := colon[1..];
    k := Key(name, body, [], b);
    assert colon == [58] + value;
    KeyLayout(s, body, b, after, colon, value);
  }

  lemma FieldsParts(s: Text, depth: nat, fields: seq<Field>, rest: Text, name: Text, value: Text)
    returns (v: Value, behind: Text, after: Text)
    requires ParseFields(s, depth) == Some((fields, rest))
    requires s[0] == QUOTE && ScanString(s[1..]).Some? && ScanString(s[1..]).value.0 == name
    requires SkipSpace(ScanString(s[1..]).value.1) == [58] + value
    ensures ParseValue(SkipSpace(value), depth) == Some((v, behind)) && after == SkipSpace(behind) && |behind| < |s|
    ensures after != [] && (after[0] == RBRACE || after[0] == COMMA)
    ensures after[0] == RBRACE ==> fields == [Field(name, v)] && rest == after[1..]
    ensures after[0] == COMMA ==> fields != [] && fields[0] == Field(name, v)
    ensures after[0] == COMMA ==> ParseFields(SkipSpace(after[1..]), depth) == Some((fields[1..], rest))
  {
    assert ([58] + value)[1..] == value;
    var r := ParseValue(SkipSpace(value), depth);
    v, behind := r.value.0, r.value.1;
    after := SkipSpace(behind);
    FieldRead(s, depth, name, ScanString(s[1..]).value.1, value, v, behind);
  }

  lemma LastMemberLayout(s: Text, key: Text, a: Text, x: Text, b: Text, after: Text, value: Text, close: Code, rest: Text)
    requires s == key + value && value == a + (x + (b + after)) && after != [] && after[0] == close && rest == after[1..]
    ensures s == key + (a + (x + b)) + ([close] + rest)
  {
    assert after == [close] + rest;
    LastLayout(key, a, x, b, after);
  }

  lemma {:induction false} MembersSound(s: Text, depth: nat, fields: seq<Field>, rest: Text) returns (r: Members)
    requires ParseFields(s, depth) == Some((fields, rest))
    ensures ProperMembers(r, depth) && FieldsOf(r) == fields && s == MembersText(r) + ([125] + rest)
    decreases |s|, 1
  {
    var k, value := KeySound(s, depth, fields, rest);
    var v, behind, after := FieldsParts(s, depth, fields, rest, k.name, value);
    var a := SkipSound(value);
    var x := DocSound(SkipSpace(value), depth, v, behind);
    var b := SkipSound(behind);
    if after[0] == RBRACE {
      r := LastMember(k, a, x, b);
      LastMemberLayout(s, KeyText(k), a, TextOf(x), b, after, value, RBRACE, rest);
    } else {
      r := MembersGoOn(s, depth, fields, rest, k, a, v, x, b, after, value);
    }
  }

  lemma {:induction false} MembersGoOn(s: Text, depth: nat, fields: seq<Field>, rest: Text, k: Key, a: Text, v: Value, x: Doc,
                                       b: Text, after: Text, value: Text) returns (r: Members)
    requires ProperKey(k) && White(a) && Proper(x, depth) && ValueOf(x) == v && White(b)
    requires s == KeyText(k) + value && value == a + (TextOf(x) + (b + after))
    requires after != [] && after[0] == COMMA && fields != [] && fields[0] == Field(k.name, v)
    requires ParseFields(SkipSpace(after[1..]), depth) == Some((fields[1..], rest))
    ensures ProperMembers(r, depth) && FieldsOf(r) == fields && s == MembersText(r) + ([125] + rest)
    decreases |s|, 0
  {
    var w := SkipSound(after[1..]);
    var inner := SkipSpace(after[1..]);
    var tail := MembersSound(inner, depth, fields[1..], rest);
    var more := WithMembersBefore(w, tail, depth);
    r := MembersMade(k, a, x, b, more, depth);
    ConcatAssociative(w, MembersText(tail), [125] + rest);
    KeyCommaLayout(s, KeyText(k), value, a, TextOf(x), b, after, MembersText(more), [125] + rest);
    assert [fields[0]] + fields[1..] == fields;
  }

  lemma MembersMade(k: Key, a: Text, x: Doc, b: Text, more: Members, depth: nat) returns (r: Members)
    requires ProperKey(k) && White(a) && Proper(x, depth) && White(b) && ProperMembers(more, depth)
    ensures ProperMembers(r, depth) && FieldsOf(r) == [Field(k.name, ValueOf(x))] + FieldsOf(more)
    ensures MembersText(r) == KeyText(k) + (a + (TextOf(x) + (b + ([44] + MembersText(more)))))
  {
    r := MoreMembers(k, a, x, b, more);
  }

  lemma KeyCommaLayout(s: Text, key: Text, value: Text, a: Text, x: Text, b: Text, after: Text, more: Text, close: Text)
    requires s == key + value && value == a + (x + (b + after))
    requires after != [] && after[0] == COMMA && after[1..] == more + close
    ensures s == key + (a + (x + (b + ([44] + more)))) + close
  {
    CommaLayout(value, a, x, b, after, more, close);
    ConcatAssociative(key, a + (x + (b + ([44] + more))), close);
  }

  lemma LastLayout(key: Text, a: Text, x: Text, b: Text, after: Text)
    ensures key + (a + (x + (b + after))) == key + (a + (x + b)) + after
  {
    ConcatAssociative(x, b, after);
    ConcatAssociative(a, x + b, after);
    ConcatAssociative(key, a + (x + b), after);
  }

  // ----- json.loads -----

  /** A text is a document of a value between white space. */
  ghost predicate Writes(s: Text, depth: nat, v: Value, before: Text, d: Doc, after: Text) {
    White(before) && White(after) && Proper(d, depth) && ValueOf(d) == v && s == before + (TextOf(d) + after)
  }

  /** json.loads gives a value exactly for the documents of that value. */
  lemma LoadsIff(s: Text, depth: nat, v: Value)
    ensures Loads(s, depth) == Some(v) <==> exists before, d, after :: Writes(s, depth, v, before, d, after)
  {
    if Loads(s, depth) == Some(v) {
      var before := SkipSound(s);
      var rest := ParseValue(SkipSpace(s), depth).value.1;
      var d := DocSound(SkipSpace(s), depth, v, rest);
      var after := SkipSound(rest);
      assert after + [] == after;
      assert Writes(s, depth, v, before, d, rest);
    }
    forall before, d, after | Writes(s, depth, v, before, d, after) ensures Loads(s, depth) == Some(v) {
      WhiteIsNone(after);
      DocRead(d, depth, after);
      BeginsAfterWhite(before, TextOf(d), after);
    }
  }

  lemma WhiteIsNone(after: Text)
    requires White(after)
    ensures Ends(after) && SkipSpace(after) == []
  {
    SkipWhite(after, []);
    assert after + [] == after;
  }
}
