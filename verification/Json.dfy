/**
  Python's json module as the scripts use it: `dumps` with ensure_ascii, and
  `loads`.  Numbers with a fraction or exponent, and NaN and the infinities, are
  kept as their source text.
 */
module Json {
  import opened Texts
  import opened Wrappers
  import Sorting

  datatype Value =
    | Null
    | Bool(b: bool)
    | Int(n: int)
    | Float(lexeme: Text)
    | Str(s: Text)
    | Arr(items: seq<Value>)
    | Obj(fields: seq<Field>)

  datatype Field = Field(name: Text, value: Value)

  const QUOTE: Code := 34
  const PLUS: Code := 43
  const COMMA: Code := 44
  const MINUS: Code := 45
  const COLON: Code := 58
  const LBRACKET: Code := 91
  const BACKSLASH: Code := 92
  const RBRACKET: Code := 93
  const LETTER_U: Code := 117
  const LBRACE: Code := 123
  const RBRACE: Code := 125

  // ----- string literals -----

  predicate High(c: Code) { 0xD800 <= c <= 0xDBFF }
  predicate Low(c: Code) { 0xDC00 <= c <= 0xDFFF }

  function Combine(h: Code, l: Code): Code
    requires High(h) && Low(l)
  {
    0x10000 + (h - 0xD800) * 0x400 + (l - 0xDC00)
  }

  function HexDigit(d: nat): (c: Code)
    requires d < 16
    ensures HexValue(c) == d
    ensures 32 <= c <= 126
  {
    if d < 10 then 48 + d else 87 + d
  }

  function HexValue(c: Code): (v: int)
    ensures -1 <= v < 16
  {
    if 48 <= c <= 57 then c - 48
    else if 97 <= c <= 102 then c - 87
    else if 65 <= c <= 70 then c - 55
    else -1
  }

  function Hex4(c: Code): (t: Text)
    requires c < 0x10000
    ensures |t| == 4
  {
    [HexDigit(c / 4096), HexDigit(c / 256 % 16), HexDigit(c / 16 % 16), HexDigit(c % 16)]
  }

  function Unhex4(s: Text): (v: int)
    ensures -1 <= v < 0x10000
    ensures v >= 0 ==> |s| >= 4
  {
    if |s| < 4 then -1
    else
      var a, b, c, d := HexValue(s[0]), HexValue(s[1]), HexValue(s[2]), HexValue(s[3]);
      if a < 0 || b < 0 || c < 0 || d < 0 then -1 else ((a * 16 + b) * 16 + c) * 16 + d
  }

  function UEscape(c: Code): (t: Text)
    requires c < 0x10000
    ensures |t| == 6
  {
    [BACKSLASH, LETTER_U] + Hex4(c)
  }

  predicate Plain(c: Code) { 32 <= c <= 126 && c != QUOTE && c != BACKSLASH }

  /** The letter of a two-character escape for c; 0 when there is none. */
  function ShortLetter(c: Code): Code {
    if c == QUOTE || c == BACKSLASH then c
    else if c == LF then 110
    else if c == CR then 114
    else if c == TAB then 116
    else if c == 12 then 102
    else if c == 8 then 98
    else 0
  }

  /** What a two-character escape stands for; -1 when it is not one. */
  function ShortMeaning(letter: Code): (c: int)
    ensures -1 <= c < 128
  {
    if letter == QUOTE || letter == BACKSLASH || letter == SLASH then letter
    else if letter == 110 then LF
    else if letter == 114 then CR
    else if letter == 116 then TAB
    else if letter == 102 then 12
    else if letter == 98 then 8
    else -1
  }

  function HighOf(c: Code): (h: Code)
    requires c >= 0x10000
    ensures High(h)
  {
    0xD800 + (c - 0x10000) / 0x400
  }

  function LowOf(c: Code): (l: Code)
    requires c >= 0x10000
    ensures Low(l)
  {
    0xDC00 + (c - 0x10000) % 0x400
  }

  function Escape(c: Code): (t: Text)
    ensures |t| >= 1
  {
    if Plain(c) then [c]
    else if ShortLetter(c) != 0 then [BACKSLASH, ShortLetter(c)]
    else if c < 0x10000 then UEscape(c)
    else UEscape(HighOf(c)) + UEscape(LowOf(c))
  }

  /** The escaped characters of s, followed by tail. */
  function EscapedTo(s: Text, tail: Text): Text {
    if s == [] then tail else Escape(s[0]) + EscapedTo(s[1..], tail)
  }

  function StringTo(s: Text, tail: Text): Text {
    [QUOTE] + EscapedTo(s, [QUOTE] + tail)
  }

  /** One escape sequence at the head of s. */
  function ScanEscape(s: Text): (r: Option<(Code, Text)>)
    requires s != []
    ensures r.Some? ==> |r.value.1| < |s|
  {
    if |s| < 2 then None
    else if ShortMeaning(s[1]) >= 0 then Some((ShortMeaning(s[1]), s[2..]))
    else if s[1] == LETTER_U then
      var u := Unhex4(s[2..]);
      if u < 0 then None
      else if High(u) && |s| >= 8 && s[6] == BACKSLASH && s[7] == LETTER_U then
        var u2 := Unhex4(s[8..]);
        if u2 < 0 then None
        else if Low(u2) then Some((Combine(u, u2), s[12..]))
        else Some((u, s[6..]))
      else Some((u, s[6..]))
    else None
  }

  /** The rest of a string literal whose opening quote has been read. */
  function ScanString(s: Text): (r: Option<(Text, Text)>)
    ensures r.Some? ==> |r.value.1| < |s|
  {
    if s == [] then None
    else if s[0] == QUOTE then Some(([], s[1..]))
    else if s[0] == BACKSLASH then
      var (c, rest) :- ScanEscape(s);
      var (more, end) :- ScanString(rest);
      Some(([c] + more, end))
    else if s[0] < 32 then None
    else
      var (more, end) :- ScanString(s[1..]);
      Some(([s[0]] + more, end))
  }

  // ----- loads -----

  predicate IsSpace(c: Code) { c == SPACE || c == TAB || c == LF || c == CR }

  function SkipSpace(s: Text): (r: Text)
    ensures |r| <= |s|
  {
    if s != [] && IsSpace(s[0]) then SkipSpace(s[1..]) else s
  }

  function DigitRun(s: Text): (k: nat)
    ensures k <= |s| && AllDigits(s[..k])
    ensures k < |s| ==> !IsDigit(s[k])
  {
    if s != [] && IsDigit(s[0]) then
      var k := DigitRun(s[1..]);
      assert s[..k + 1] == [s[0]] + s[1..][..k];
      k + 1
    else 0
  }

  function FractionLength(s: Text): (k: nat)
    ensures k <= |s|
  {
    if |s| >= 2 && s[0] == DOT && IsDigit(s[1]) then 1 + DigitRun(s[1..]) else 0
  }

  function ExponentLength(s: Text): (k: nat)
    ensures k <= |s|
  {
    if |s| >= 2 && (s[0] == 101 || s[0] == 69) then
      var sign := if s[1] == PLUS || s[1] == MINUS then 2 else 1;
      var run := DigitRun(s[sign..]);
      if run > 0 then sign + run else 0
    else 0
  }

  /** The digits of an integer: a zero stands alone. */
  function IntegerLength(s: Text): (k: nat)
    requires s != [] && IsDigit(s[0])
    ensures 0 < k <= |s| && AllDigits(s[..k])
  {
    if s[0] == 48 then (assert s[..1] == [48]; 1) else DigitRun(s)
  }

  /** An unsigned number: its value when it is an integer, and what follows it. */
  function ScanMagnitude(s: Text): (r: Option<(Option<int>, Text)>)
    ensures r.Some? ==> |r.value.1| < |s|
  {
    if s == [] || !IsDigit(s[0]) then None
    else
      var k := IntegerLength(s);
      var f := FractionLength(s[k..]);
      var e := ExponentLength(s[k + f..]);
      MagnitudeAt(s, k, f, e)
  }

  /** The number whose integer, fraction and exponent have these lengths. */
  function MagnitudeAt(s: Text, k: nat, f: nat, e: nat): (r: Option<(Option<int>, Text)>)
    requires k + f + e <= |s| && AllDigits(s[..k])
    ensures r.Some? ==> |r.value.1| == |s| - k - f - e
  {
    MagnitudeOf(s[..k], f + e, s[k + f + e..])
  }

  /** Without fraction and exponent the digits are an integer, unless there are too many of them. */
  function MagnitudeOf(digits: Text, further: nat, rest: Text): (r: Option<(Option<int>, Text)>)
    requires AllDigits(digits)
    ensures r.Some? ==> r.value.1 == rest
  {
    if further > 0 then Some((None, rest)) else if |digits| > INT_DIGITS then None else Some((Some(Number(digits)), rest))
  }

  function ScanNumber(s: Text): (r: Option<(Value, Text)>)
    ensures r.Some? ==> |r.value.1| < |s|
  {
    if s != [] && s[0] == MINUS then WithSign(true, s, ScanMagnitude(s[1..]))
    else WithSign(false, s, ScanMagnitude(s))
  }

  function WithSign(negative: bool, s: Text, m: Option<(Option<int>, Text)>): (r: Option<(Value, Text)>)
    requires m.Some? ==> |m.value.1| < |s|
    ensures r.Some? ==> |r.value.1| < |s|
  {
    match m
    case Some((Some(n), rest)) => Some((Int(if negative then -n else n), rest))
    case Some((None, rest)) => Some((Float(s[..|s| - |rest|]), rest))
    case None => None
  }

  /** A value that is neither a string nor a container. */
  function ParseScalar(s: Text): (r: Option<(Value, Text)>)
    ensures r.Some? ==> |r.value.1| < |s|
  {
    if s == [] then None
    else if s[0] == 110 then if Lit("null") <= s then Some((Null, s[4..])) else None
    else if s[0] == 116 then if Lit("true") <= s then Some((Bool(true), s[4..])) else None
    else if s[0] == 102 then if Lit("false") <= s then Some((Bool(false), s[5..])) else None
    else if s[0] == 78 then if Lit("NaN") <= s then Some((Float(s[..3]), s[3..])) else None
    else if s[0] == 73 then if Lit("Infinity") <= s then Some((Float(s[..8]), s[8..])) else None
    else if |s| > 1 && s[0] == MINUS && s[1] == 73 then
      if Lit("-Infinity") <= s then Some((Float(s[..9]), s[9..])) else None
    else ScanNumber(s)
  }

  /** One value at the head of s; at most depth containers may be open at once. */
  function ParseValue(s: Text, depth: nat): (r: Option<(Value, Text)>)
    ensures r.Some? ==> |r.value.1| < |s|
    decreases |s|, 0
  {
    if s == [] then None
    else if s[0] == QUOTE then
      var (t, rest) :- ScanString(s[1..]);
      Some((Str(t), rest))
    else if s[0] == LBRACE then
      if depth == 0 then None
      else
        var inner := SkipSpace(s[1..]);
        if inner != [] && inner[0] == RBRACE then Some((Obj([]), inner[1..]))
        else
          var (fields, rest) :- ParseFields(inner, depth - 1);
          Some((Obj(fields), rest))
    else if s[0] == LBRACKET then
      if depth == 0 then None
      else
        var inner := SkipSpace(s[1..]);
        if inner != [] && inner[0] == RBRACKET then Some((Arr([]), inner[1..]))
        else
          var (items, rest) :- ParseItems(inner, depth - 1);
          Some((Arr(items), rest))
    else ParseScalar(s)
  }

  function ParseItems(s: Text, depth: nat): (r: Option<(seq<Value>, Text)>)
    ensures r.Some? ==> |r.value.1| < |s|
    decreases |s|, 1
  {
    var (v, afterValue) :- ParseValue(s, depth);
    var rest := SkipSpace(afterValue);
    if rest == [] then None
    else if rest[0] == RBRACKET then Some(([v], rest[1..]))
    else if rest[0] == COMMA then
      var (more, end) :- ParseItems(SkipSpace(rest[1..]), depth);
      Some(([v] + more, end))
    else None
  }

  function ParseFields(s: Text, depth: nat): (r: Option<(seq<Field>, Text)>)
    ensures r.Some? ==> |r.value.1| < |s|
    decreases |s|, 1
  {
    if s == [] || s[0] != QUOTE then None
    else
      var (name, afterName) :- ScanString(s[1..]);
      var colon := SkipSpace(afterName);
      if colon == [] || colon[0] != COLON then None
      else
        var (v, afterValue) :- ParseValue(SkipSpace(colon[1..]), depth);
        var rest := SkipSpace(afterValue);
        if rest == [] then None
        else if rest[0] == RBRACE then Some(([Field(name, v)], rest[1..]))
        else if rest[0] == COMMA then
          var (more, end) :- ParseFields(SkipSpace(rest[1..]), depth);
          Some(([Field(name, v)] + more, end))
        else None
  }

  /** json.loads; None stands for JSONDecodeError, ValueError and RecursionError. */
  function Loads(s: Text, depth: nat): Option<Value> {
    var (v, rest) :- ParseValue(SkipSpace(s), depth);
    if SkipSpace(rest) == [] then Some(v) else None
  }

  // ----- dumps -----

  function Signed(n: int): (t: Text)
    ensures |t| >= 1
  {
    if n < 0 then [MINUS] + Digits(-n) else Digits(n)
  }

  /** The separators are "," and ":" when compact, ", " and ": " otherwise. */
  function Gap(compact: bool): Text {
    if compact then [] else [SPACE]
  }

  /** The text of v followed by tail. */
  function PrintTo(v: Value, compact: bool, tail: Text): Text
    decreases v, 0
  {
    match v
    case Null => Lit("null") + tail
    case Bool(b) => (if b then Lit("true") else Lit("false")) + tail
    case Int(n) => Signed(n) + tail
    case Float(lexeme) => lexeme + tail
    case Str(s) => StringTo(s, tail)
    case Arr(items) =>
      if items == [] then [LBRACKET, RBRACKET] + tail
      else [LBRACKET] + ItemsTo(items, compact, tail)
    case Obj(fields) =>
      if fields == [] then [LBRACE, RBRACE] + tail
      else [LBRACE] + FieldsTo(fields, compact, tail)
  }

  function ItemsTo(items: seq<Value>, compact: bool, tail: Text): Text
    requires items != []
    decreases items, 1
  {
    PrintTo(items[0], compact, ItemsRest(items, compact, tail))
  }

  function ItemsRest(items: seq<Value>, compact: bool, tail: Text): (t: Text)
    requires items != []
    ensures Delimited(t)
    decreases items, 0
  {
    if |items| == 1 then [RBRACKET] + tail
    else [COMMA] + (Gap(compact) + ItemsTo(items[1..], compact, tail))
  }

  function FieldsTo(fields: seq<Field>, compact: bool, tail: Text): Text
    requires fields != []
    decreases fields, 1
  {
    StringTo(fields[0].name,
             [COLON] + (Gap(compact) + PrintTo(fields[0].value, compact, FieldsRest(fields, compact, tail))))
  }

  function FieldsRest(fields: seq<Field>, compact: bool, tail: Text): (t: Text)
    requires fields != []
    ensures Delimited(t)
    decreases fields, 0
  {
    if |fields| == 1 then [RBRACE] + tail
    else [COMMA] + (Gap(compact) + FieldsTo(fields[1..], compact, tail))
  }

  /** A tail that cannot be read as more of a number. */
  predicate Delimited(tail: Text) {
    tail != [] ==> !IsDigit(tail[0]) && tail[0] != DOT && tail[0] != 101 && tail[0] != 69
  }

  /** json.dumps(v) with its default separators. */
  function Dumps(v: Value): Text {
    PrintTo(v, false, [])
  }

  // ----- what a round trip does to strings -----

  /** Adjacent high and low surrogates become the one code point they encode. */
  function Merge(s: Text): Text {
    if |s| >= 2 && High(s[0]) && Low(s[1]) then [Combine(s[0], s[1])] + Merge(s[2..])
    else if s == [] then []
    else [s[0]] + Merge(s[1..])
  }

  predicate Paired(s: Text) {
    exists i | 0 <= i < |s| - 1 :: High(s[i]) && Low(s[i + 1])
  }

  lemma PairedTail(s: Text)
    requires s != [] && !(|s| >= 2 && High(s[0]) && Low(s[1]))
    ensures Paired(s) <==> Paired(s[1..])
  {
    var t := s[1..];
    assert forall i | 0 <= i < |t| - 1 :: High(t[i]) && Low(t[i + 1]) <==> High(s[i + 1]) && Low(s[i + 1 + 1]);
    assert forall i | 1 <= i < |s| - 1 :: High(s[i]) && Low(s[i + 1]) <==> High(t[i - 1]) && Low(t[i - 1 + 1]);
  }

  lemma {:induction false} MergeLength(s: Text)
    ensures |Merge(s)| <= |s|
    ensures Paired(s) ==> |Merge(s)| < |s|
    ensures !Paired(s) ==> Merge(s) == s
  {
    if |s| >= 2 && High(s[0]) && Low(s[1]) {
      assert High(s[0]) && Low(s[0 + 1]);
      MergeLength(s[2..]);
    } else if s != [] {
      PairedTail(s);
      MergeLength(s[1..]);
      assert s == [s[0]] + s[1..];
    }
  }

  /** A string survives exactly when it holds no adjacent surrogate pair. */
  lemma MergeFixed(s: Text)
    ensures Merge(s) == s <==> !Paired(s)
  {
    MergeLength(s);
  }

  function Merged(v: Value): Value {
    match v
    case Str(s) => Str(Merge(s))
    case Arr(items) => Arr(MergedItems(items))
    case Obj(fields) => Obj(MergedFields(fields))
    case _ => v
  }

  function MergedItems(items: seq<Value>): (r: seq<Value>)
    ensures |r| == |items|
  {
    if items == [] then [] else [Merged(items[0])] + MergedItems(items[1..])
  }

  function MergedFields(fields: seq<Field>): (r: seq<Field>)
    ensures |r| == |fields|
  {
    if fields == [] then []
    else [Field(Merge(fields[0].name), Merged(fields[0].value))] + MergedFields(fields[1..])
  }

  /** No Float, and every integer short enough to convert. */
  predicate Exact(v: Value) {
    match v
    case Float(_) => false
    case Int(n) => |Digits(if n < 0 then -n else n)| <= INT_DIGITS
    case Arr(items) => forall i | 0 <= i < |items| :: Exact(items[i])
    case Obj(fields) => forall i | 0 <= i < |fields| :: Exact(fields[i].value)
    case _ => true
  }

  /** Containers nested no deeper than depth. */
  predicate Within(v: Value, depth: nat)
    decreases v
  {
    match v
    case Arr(items) => depth > 0 && forall i | 0 <= i < |items| :: Within(items[i], depth - 1)
    case Obj(fields) => depth > 0 && forall i | 0 <= i < |fields| :: Within(fields[i].value, depth - 1)
    case _ => true
  }

  // ----- loads undoes dumps -----

  lemma HexArithmetic(c: nat)
    ensures ((c / 4096 * 16 + c / 256 % 16) * 16 + c / 16 % 16) * 16 + c % 16 == c
  {
    var a, b := c / 256, c / 16;
    assert a == a / 16 * 16 + a % 16 && a / 16 == c / 4096;
    assert b == b / 16 * 16 + b % 16 && b / 16 == a;
    assert c == b * 16 + c % 16;
  }

  lemma HexRoundTrip(c: Code, tail: Text)
    requires c < 0x10000
    ensures Unhex4(Hex4(c) + tail) == c
  {
    HexArithmetic(c);
  }

  lemma UEscapeShape(c: Code, tail: Text)
    requires c < 0x10000
    ensures var t := UEscape(c) + tail;
      t[0] == BACKSLASH && t[1] == LETTER_U && t[6..] == tail && Unhex4(t[2..]) == c
  {
    var t := UEscape(c) + tail;
    assert t[2..] == Hex4(c) + tail;
    HexRoundTrip(c, tail);
  }

  /** An escape other than a merged pair is read back alone. */
  lemma ScanUEscape(c: Code, tail: Text)
    requires c < 0x10000
    requires High(c) && |tail| >= 2 && tail[0] == BACKSLASH && tail[1] == LETTER_U ==>
               0 <= Unhex4(tail[2..]) && !Low(Unhex4(tail[2..]))
    ensures ScanEscape(UEscape(c) + tail) == Some((c, tail))
  {
    var t := UEscape(c) + tail;
    UEscapeShape(c, tail);
    if |tail| >= 2 {
      assert t[6] == tail[0] && t[7] == tail[1] && t[8..] == tail[2..];
    }
  }

  lemma ScanPair(h: Code, l: Code, tail: Text)
    requires High(h) && Low(l)
    ensures ScanEscape(UEscape(h) + (UEscape(l) + tail)) == Some((Combine(h, l), tail))
  {
    var t := UEscape(h) + (UEscape(l) + tail);
    UEscapeShape(h, UEscape(l) + tail);
    UEscapeShape(l, tail);
    assert t[6..] == UEscape(l) + tail;
    assert t[6] == BACKSLASH && t[7] == LETTER_U;
    assert t[8..] == (UEscape(l) + tail)[2..];
    assert t[12..] == (UEscape(l) + tail)[6..];
  }

  lemma ScanAfterEscape(s: Text, c: Code, rest: Text, more: Text, end: Text)
    requires s != [] && s[0] == BACKSLASH
    requires ScanEscape(s) == Some((c, rest)) && ScanString(rest) == Some((more, end))
    ensures ScanString(s) == Some(([c] + more, end))
  {}

  lemma ScanShort(c: Code, tail: Text)
    requires ShortLetter(c) != 0
    ensures ScanEscape([BACKSLASH, ShortLetter(c)] + tail) == Some((c, tail))
  {
    var t := [BACKSLASH, ShortLetter(c)] + tail;
    assert t[1] == ShortLetter(c) && t[2..] == tail;
  }

  /** What the text of an escaped character followed by more can look like. */
  lemma EscapeHead(c: Code, more: Text)
    ensures var t := Escape(c) + more;
      (t[0] == BACKSLASH && |t| >= 2 && t[1] == LETTER_U) ==>
        0 <= Unhex4(t[2..]) && (Low(Unhex4(t[2..])) <==> Low(c))
  {
    if c < 0x10000 {
      UEscapeShape(c, more);
    } else {
      UEscapeShape(HighOf(c), UEscape(LowOf(c)) + more);
      assert Escape(c) + more == UEscape(HighOf(c)) + (UEscape(LowOf(c)) + more);
    }
  }

  /** The escaped text of a string starts `\uDCxx` only for a low surrogate. */
  lemma EscapedHead(s: Text, tail: Text)
    ensures var t := EscapedTo(s, [QUOTE] + tail);
      |t| >= 2 && t[0] == BACKSLASH && t[1] == LETTER_U ==>
        0 <= Unhex4(t[2..]) && (Low(Unhex4(t[2..])) <==> (s != [] && Low(s[0])))
  {
    if s != [] { EscapeHead(s[0], EscapedTo(s[1..], [QUOTE] + tail)); }
  }

  lemma {:induction false} ScanEscaped(s: Text, tail: Text)
    ensures ScanString(EscapedTo(s, [QUOTE] + tail)) == Some((Merge(s), tail))
    decreases |s|, 1
  {
    var t := EscapedTo(s, [QUOTE] + tail);
    if s == [] {
      assert t[1..] == tail;
    } else if ShortLetter(s[0]) != 0 || Plain(s[0]) {
      ScanAscii(s, tail);
    } else if s[0] < 0x10000 {
      ScanCode(s, tail);
    } else {
      ScanAstral(s, tail);
    }
  }

  lemma EscapedAstral(s: Text, end: Text, after: Text)
    requires s != [] && s[0] >= 0x10000 && after == EscapedTo(s[1..], end)
    ensures EscapedTo(s, end) == UEscape(HighOf(s[0])) + (UEscape(LowOf(s[0])) + after)
  {
    ConcatAssociative(UEscape(HighOf(s[0])), UEscape(LowOf(s[0])), after);
  }

  lemma MergeAstral(s: Text)
    requires s != [] && s[0] >= 0x10000
    ensures Merge(s) == [s[0]] + Merge(s[1..])
  {}

  lemma ScanAstralHead(c: Code, after: Text, more: Text, tail: Text)
    requires c >= 0x10000 && ScanString(after) == Some((more, tail))
    ensures ScanString(UEscape(HighOf(c)) + (UEscape(LowOf(c)) + after)) == Some(([c] + more, tail))
  {
    ScanPair(HighOf(c), LowOf(c), after);
    ScanAfterEscape(UEscape(HighOf(c)) + (UEscape(LowOf(c)) + after), c, after, more, tail);
  }

  lemma {:induction false} ScanAstral(s: Text, tail: Text)
    requires s != [] && s[0] >= 0x10000
    ensures ScanString(EscapedTo(s, [QUOTE] + tail)) == Some((Merge(s), tail))
    decreases |s|, 0
  {
    var after := EscapedTo(s[1..], [QUOTE] + tail);
    ScanEscaped(s[1..], tail);
    ScanAstralHead(s[0], after, Merge(s[1..]), tail);
    MergeAstral(s);
    EscapedAstral(s, [QUOTE] + tail, after);
  }

  lemma {:induction false} ScanAscii(s: Text, tail: Text)
    requires s != [] && (ShortLetter(s[0]) != 0 || Plain(s[0]))
    ensures ScanString(EscapedTo(s, [QUOTE] + tail)) == Some((Merge(s), tail))
    decreases |s|, 0
  {
    var t, after := EscapedTo(s, [QUOTE] + tail), EscapedTo(s[1..], [QUOTE] + tail);
    ScanEscaped(s[1..], tail);
    if Plain(s[0]) {
      assert t == [s[0]] + after && t[1..] == after;
    } else {
      ScanShort(s[0], after);
      ScanAfterEscape(t, s[0], after, Merge(s[1..]), tail);
    }
  }

  lemma {:induction false} ScanCode(s: Text, tail: Text)
    requires s != [] && s[0] < 0x10000 && ShortLetter(s[0]) == 0 && !Plain(s[0])
    ensures ScanString(EscapedTo(s, [QUOTE] + tail)) == Some((Merge(s), tail))
    decreases |s|, 0
  {
    var c, after := s[0], EscapedTo(s[1..], [QUOTE] + tail);
    var t := UEscape(c) + after;
    if |s| >= 2 && High(c) && Low(s[1]) {
      var last := EscapedTo(s[2..], [QUOTE] + tail);
      assert s[1..][1..] == s[2..];
      assert after == UEscape(s[1]) + last;
      ScanPair(c, s[1], last);
      ScanEscaped(s[2..], tail);
      ScanAfterEscape(t, Combine(c, s[1]), last, Merge(s[2..]), tail);
    } else {
      EscapedHead(s[1..], tail);
      ScanUEscape(c, after);
      ScanEscaped(s[1..], tail);
      ScanAfterEscape(t, c, after, Merge(s[1..]), tail);
    }
  }

  lemma {:induction false} DigitRunOf(digits: Text, tail: Text)
    requires AllDigits(digits) && (tail != [] ==> !IsDigit(tail[0]))
    ensures DigitRun(digits + tail) == |digits|
  {
    if digits == [] {
      assert digits + tail == tail;
    } else {
      assert digits[0] in digits;
      assert (digits + tail)[1..] == digits[1..] + tail;
      DigitRunOf(digits[1..], tail);
    }
  }

  lemma ScanPrintedNat(digits: Text, tail: Text)
    requires Delimited(tail) && Numeral(digits) && |digits| <= INT_DIGITS
    ensures ScanMagnitude(digits + tail) == Some((Some(Number(digits)), tail))
  {
    var s := digits + tail;
    assert digits[0] in digits && s[0] == digits[0];
    DigitRunOf(digits, tail);
    assert s[|digits|..] == tail && s[..|digits|] == digits;
  }

  predicate Signless(m: Text) { m != [] && IsDigit(m[0]) }

  lemma SignScanned(s: Text, negative: bool, m: Text)
    requires Signless(m) && s == if negative then [MINUS] + m else m
    ensures ScanNumber(s) == WithSign(negative, s, ScanMagnitude(m))
    ensures IsDigit(s[0]) || (|s| > 1 && s[0] == MINUS && IsDigit(s[1]))
  {
    if negative { assert s[1..] == m; }
  }

  lemma WithSignInt(negative: bool, s: Text, n: int, tail: Text)
    requires |tail| < |s|
    ensures WithSign(negative, s, Some((Some(n), tail))) == Some((Int(if negative then -n else n), tail))
  {}

  lemma NumberAfterSign(negative: bool, t: Text, n: int, tail: Text)
    requires Signless(t) && ScanMagnitude(t) == Some((Some(n), tail))
    ensures ScanNumber(if negative then [MINUS] + t else t) == Some((Int(if negative then -n else n), tail))
  {
    var s := if negative then [MINUS] + t else t;
    SignScanned(s, negative, t);
    WithSignInt(negative, s, n, tail);
  }

  lemma ScanPrintedInt(n: int, tail: Text)
    requires Delimited(tail) && Exact(Int(n))
    ensures ScanNumber(Signed(n) + tail) == Some((Int(n), tail))
  {
    var m := if n < 0 then -n else n;
    var digits := Digits(m);
    assert digits[0] in digits && (digits + tail)[0] == digits[0];
    NumberOfDigits(m);
    ScanPrintedNat(digits, tail);
    NumberAfterSign(n < 0, digits + tail, m, tail);
    assert [MINUS] + digits + tail == [MINUS] + (digits + tail);
  }

  lemma SignedHead(n: int, tail: Text)
    ensures var s := Signed(n) + tail;
      IsDigit(s[0]) || (s[0] == MINUS && |s| > 1 && IsDigit(s[1]))
  {
    var d := Digits(if n < 0 then -n else n);
    assert d[0] in d;
  }

  lemma ParseNumber(s: Text, depth: nat)
    requires s != [] && (IsDigit(s[0]) || (s[0] == MINUS && |s| > 1 && IsDigit(s[1])))
    ensures ParseValue(s, depth) == ScanNumber(s)
  {
    ParseNonContainer(s, depth);
    ScalarNumber(s);
  }

  lemma ParseNonContainer(s: Text, depth: nat)
    requires s != [] && s[0] != QUOTE && s[0] != LBRACE && s[0] != LBRACKET
    ensures ParseValue(s, depth) == ParseScalar(s)
  {}

  lemma ScalarNumber(s: Text)
    requires s != [] && (IsDigit(s[0]) || (s[0] == MINUS && |s| > 1 && IsDigit(s[1])))
    ensures ParseScalar(s) == ScanNumber(s)
  {}

  predicate Starts(t: Text) {
    t != [] && (t[0] == QUOTE || t[0] == LBRACE || t[0] == LBRACKET || t[0] == MINUS
                || IsDigit(t[0]) || t[0] == 110 || t[0] == 116 || t[0] == 102)
  }

  lemma PrintStarts(v: Value, compact: bool, tail: Text)
    requires Exact(v)
    ensures Starts(PrintTo(v, compact, tail))
  {
    match v
    case Int(n) =>
      var d := Digits(if n < 0 then -n else n);
      assert d[0] in d;
    case _ =>
  }

  lemma SkipNothing(s: Text)
    requires s != [] ==> !IsSpace(s[0])
    ensures SkipSpace(s) == s
  {}

  lemma SkipGap(compact: bool, s: Text)
    requires s != [] && !IsSpace(s[0])
    ensures SkipSpace(Gap(compact) + s) == s
  {
    if compact {
      assert Gap(compact) + s == s;
    } else {
      assert (Gap(compact) + s)[1..] == s;
    }
  }

  lemma ParseScalarPrinted(v: Value, compact: bool, tail: Text, depth: nat)
    requires v.Null? || v.Bool? || v.Int?
    requires Exact(v) && Delimited(tail)
    ensures ParseValue(PrintTo(v, compact, tail), depth) == Some((v, tail))
  {
    var s := PrintTo(v, compact, tail);
    match v
    case Null => assert s[4..] == tail;
    case Bool(b) => assert s[if b then 4 else 5..] == tail;
    case Int(n) =>
      SignedHead(n, tail);
      ParseNumber(s, depth);
      ScanPrintedInt(n, tail);
    case _ =>
  }

  lemma ParseEmpty(open: Code, close: Code, tail: Text)
    requires !IsSpace(close)
    ensures var s := [open, close] + tail; SkipSpace(s[1..]) == [close] + tail && ([close] + tail)[1..] == tail
  {
    assert ([open, close] + tail)[1..] == [close] + tail;
  }

  lemma ParseArr(s: Text, depth: nat, items: seq<Value>, rest: Text)
    requires s != [] && s[0] == LBRACKET && depth > 0
    requires s[1..] != [] && !IsSpace(s[1]) && s[1] != RBRACKET
    requires ParseItems(s[1..], depth - 1) == Some((items, rest))
    ensures ParseValue(s, depth) == Some((Arr(items), rest))
  {}

  lemma ParseObj(s: Text, depth: nat, fields: seq<Field>, rest: Text)
    requires s != [] && s[0] == LBRACE && depth > 0
    requires s[1..] != [] && s[1] == QUOTE
    requires ParseFields(s[1..], depth - 1) == Some((fields, rest))
    ensures ParseValue(s, depth) == Some((Obj(fields), rest))
  {}

  /** Parsing what was printed returns the value, its strings merged, and the tail. */
  lemma {:induction false} ParsePrinted(v: Value, compact: bool, tail: Text, depth: nat)
    requires Exact(v) && Within(v, depth) && Delimited(tail)
    ensures ParseValue(PrintTo(v, compact, tail), depth) == Some((Merged(v), tail))
    decreases v, 2
  {
    match v
    case Str(t) => ParsePrintedStr(t, compact, tail, depth);
    case Arr(items) => ParsePrintedArr(v, compact, tail, depth);
    case Obj(fields) => ParsePrintedObj(v, compact, tail, depth);
    case Float(_) =>
    case _ => ParseScalarPrinted(v, compact, tail, depth);
  }

  lemma ParsePrintedStr(t: Text, compact: bool, tail: Text, depth: nat)
    ensures ParseValue(PrintTo(Str(t), compact, tail), depth) == Some((Str(Merge(t)), tail))
  {
    var s := StringTo(t, tail);
    assert s[1..] == EscapedTo(t, [QUOTE] + tail);
    ScanEscaped(t, tail);
  }

  lemma {:induction false} ParsePrintedArr(v: Value, compact: bool, tail: Text, depth: nat)
    requires v.Arr? && Exact(v) && Within(v, depth)
    ensures ParseValue(PrintTo(v, compact, tail), depth) == Some((Merged(v), tail))
    decreases v, 1
  {
    if v.items == [] {
      ParseEmpty(LBRACKET, RBRACKET, tail);
    } else {
      var s, inner := PrintTo(v, compact, tail), ItemsTo(v.items, compact, tail);
      PrintStarts(v.items[0], compact, ItemsRest(v.items, compact, tail));
      assert inner != [] && s[1..] == inner && s[1] == inner[0];
      ParsePrintedItems(v.items, compact, tail, depth - 1);
      ParseArr(s, depth, MergedItems(v.items), tail);
    }
  }

  lemma {:induction false} ParsePrintedObj(v: Value, compact: bool, tail: Text, depth: nat)
    requires v.Obj? && Exact(v) && Within(v, depth)
    ensures ParseValue(PrintTo(v, compact, tail), depth) == Some((Merged(v), tail))
    decreases v, 1
  {
    if v.fields == [] {
      ParseEmpty(LBRACE, RBRACE, tail);
    } else {
      var s, inner := PrintTo(v, compact, tail), FieldsTo(v.fields, compact, tail);
      FieldsStart(v.fields, compact, tail);
      assert s[1..] == inner && s[1] == inner[0];
      ParsePrintedFields(v.fields, compact, tail, depth - 1);
      ParseObj(s, depth, MergedFields(v.fields), tail);
    }
  }

  lemma ParseLastItem(s: Text, depth: nat, v: Value, tail: Text)
    requires ParseValue(s, depth) == Some((v, [RBRACKET] + tail))
    ensures ParseItems(s, depth) == Some(([v], tail))
  {
    assert ([RBRACKET] + tail)[1..] == tail;
  }

  lemma ParseMoreItems(s: Text, depth: nat, v: Value, compact: bool, more: Text, items: seq<Value>, tail: Text)
    requires ParseValue(s, depth) == Some((v, [COMMA] + (Gap(compact) + more)))
    requires more != [] && !IsSpace(more[0])
    requires ParseItems(more, depth) == Some((items, tail))
    ensures ParseItems(s, depth) == Some(([v] + items, tail))
  {
    assert ([COMMA] + (Gap(compact) + more))[1..] == Gap(compact) + more;
    SkipGap(compact, more);
  }

  lemma {:induction false} ParsePrintedItems(items: seq<Value>, compact: bool, tail: Text, depth: nat)
    requires items != []
    requires forall i | 0 <= i < |items| :: Exact(items[i]) && Within(items[i], depth)
    ensures ParseItems(ItemsTo(items, compact, tail), depth) == Some((MergedItems(items), tail))
    decreases items, 1
  {
    var s := ItemsTo(items, compact, tail);
    ParsePrinted(items[0], compact, ItemsRest(items, compact, tail), depth);
    if |items| == 1 {
      assert MergedItems(items) == [Merged(items[0])];
      ParseLastItem(s, depth, Merged(items[0]), tail);
    } else {
      ParsePrintedItems(items[1..], compact, tail, depth);
      PrintStarts(items[1], compact, ItemsRest(items[1..], compact, tail));
      ParseMoreItems(s, depth, Merged(items[0]), compact, ItemsTo(items[1..], compact, tail),
                     MergedItems(items[1..]), tail);
    }
  }

  /** Reading `"name": ` and then a value. */
  lemma ParseFieldHead(name: Text, compact: bool, value: Text, depth: nat)
    requires value != [] && !IsSpace(value[0])
    ensures var colon := [COLON] + (Gap(compact) + value);
      var s := StringTo(name, colon);
      s != [] && s[0] == QUOTE && ScanString(s[1..]) == Some((Merge(name), colon))
      && SkipSpace(colon) == colon && colon[0] == COLON && SkipSpace(colon[1..]) == value
  {
    var colon := [COLON] + (Gap(compact) + value);
    assert StringTo(name, colon)[1..] == EscapedTo(name, [QUOTE] + colon);
    ScanEscaped(name, colon);
    assert colon[1..] == Gap(compact) + value;
    SkipGap(compact, value);
  }

  lemma ParseLastField(s: Text, depth: nat, name: Text, colon: Text, v: Value, tail: Text)
    requires s != [] && s[0] == QUOTE && ScanString(s[1..]) == Some((name, colon))
    requires SkipSpace(colon) == colon && colon != [] && colon[0] == COLON
    requires ParseValue(SkipSpace(colon[1..]), depth) == Some((v, [RBRACE] + tail))
    ensures ParseFields(s, depth) == Some(([Field(name, v)], tail))
  {
    assert ([RBRACE] + tail)[1..] == tail;
  }

  lemma ParseMoreFields(s: Text, depth: nat, name: Text, colon: Text, v: Value,
                        compact: bool, more: Text, fields: seq<Field>, tail: Text)
    requires s != [] && s[0] == QUOTE && ScanString(s[1..]) == Some((name, colon))
    requires SkipSpace(colon) == colon && colon != [] && colon[0] == COLON
    requires ParseValue(SkipSpace(colon[1..]), depth) == Some((v, [COMMA] + (Gap(compact) + more)))
    requires more != [] && !IsSpace(more[0])
    requires ParseFields(more, depth) == Some((fields, tail))
    ensures ParseFields(s, depth) == Some(([Field(name, v)] + fields, tail))
  {
    assert ([COMMA] + (Gap(compact) + more))[1..] == Gap(compact) + more;
    SkipGap(compact, more);
  }

  /** The fields' text, given that the first value is read back from its place. */
  lemma ParseFirstField(fields: seq<Field>, compact: bool, tail: Text, depth: nat)
    requires fields != [] && Exact(fields[0].value)
    requires var last := FieldsRest(fields, compact, tail);
      ParseValue(PrintTo(fields[0].value, compact, last), depth) == Some((Merged(fields[0].value), last))
    requires |fields| > 1 ==>
      ParseFields(FieldsTo(fields[1..], compact, tail), depth) == Some((MergedFields(fields[1..]), tail))
    ensures ParseFields(FieldsTo(fields, compact, tail), depth) == Some((MergedFields(fields), tail))
  {
    var f, last := fields[0], FieldsRest(fields, compact, tail);
    var value := PrintTo(f.value, compact, last);
    var colon := [COLON] + (Gap(compact) + value);
    var s := StringTo(f.name, colon);
    PrintStarts(f.value, compact, last);
    ParseFieldHead(f.name, compact, value, depth);
    assert FieldsTo(fields, compact, tail) == s;
    assert MergedFields(fields) == [Field(Merge(f.name), Merged(f.value))] + MergedFields(fields[1..]);
    if |fields| == 1 {
      assert MergedFields(fields[1..]) == [];
      assert MergedFields(fields) == [Field(Merge(f.name), Merged(f.value))];
      ParseLastField(s, depth, Merge(f.name), colon, Merged(f.value), tail);
    } else {
      var more := FieldsTo(fields[1..], compact, tail);
      FieldsStart(fields[1..], compact, tail);
      ParseMoreFields(s, depth, Merge(f.name), colon, Merged(f.value), compact, more, MergedFields(fields[1..]), tail);
    }
  }

  lemma FieldsStart(fields: seq<Field>, compact: bool, tail: Text)
    requires fields != []
    ensures var t := FieldsTo(fields, compact, tail); t != [] && t[0] == QUOTE
  {}

  lemma {:induction false} ParsePrintedFields(fields: seq<Field>, compact: bool, tail: Text, depth: nat)
    requires fields != []
    requires forall i | 0 <= i < |fields| :: Exact(fields[i].value) && Within(fields[i].value, depth)
    ensures ParseFields(FieldsTo(fields, compact, tail), depth) == Some((MergedFields(fields), tail))
    decreases fields, 1
  {
    ParsePrinted(fields[0].value, compact, FieldsRest(fields, compact, tail), depth);
    if |fields| > 1 { ParsePrintedFields(fields[1..], compact, tail, depth); }
    ParseFirstField(fields, compact, tail, depth);
  }

  /** json.loads(json.dumps(v)) is v with its surrogate pairs merged. */
  lemma LoadsDumps(v: Value, compact: bool, end: Text, depth: nat)
    requires Exact(v) && Within(v, depth)
    requires end == [] || end == [LF]
    ensures Loads(PrintTo(v, compact, end), depth) == Some(Merged(v))
  {
    PrintStarts(v, compact, end);
    SkipNothing(PrintTo(v, compact, end));
    ParsePrinted(v, compact, end, depth);
    assert SkipSpace(end) == [] by { if end == [LF] { assert end[1..] == []; } }
  }

  /** What dumps adds before the tail is printable ASCII. */
  predicate Printable(t: Text, tail: Text) {
    forall c | c in t :: 32 <= c <= 126 || c in tail
  }

  lemma EscapePrintable(c: Code)
    ensures forall x | x in Escape(c) :: 32 <= x <= 126
  {}

  lemma {:induction false} StringPrintable(s: Text, tail: Text)
    ensures Printable(EscapedTo(s, tail), tail)
  {
    if s != [] {
      StringPrintable(s[1..], tail);
      EscapePrintable(s[0]);
      PrintableAppend(Escape(s[0]), EscapedTo(s[1..], tail), tail);
    }
  }

  lemma PrintableAppend(a: Text, b: Text, tail: Text)
    requires forall x | x in a :: 32 <= x <= 126
    requires Printable(b, tail)
    ensures Printable(a + b, tail)
  {}

  lemma DigitsPrintable(n: int, tail: Text)
    ensures Printable(Signed(n) + tail, tail)
  {}

  lemma {:induction false} PrintPrintable(v: Value, compact: bool, tail: Text)
    requires Exact(v)
    ensures Printable(PrintTo(v, compact, tail), tail)
    decreases v, 0
  {
    match v
    case Int(n) => DigitsPrintable(n, tail);
    case Str(s) => StringPrintable(s, [QUOTE] + tail);
    case Arr(items) => if items != [] { ItemsPrintable(items, compact, tail); }
    case Obj(fields) => if fields != [] { FieldsPrintable(fields, compact, tail); }
    case _ =>
  }

  lemma {:induction false} ItemsPrintable(items: seq<Value>, compact: bool, tail: Text)
    requires items != [] && forall i | 0 <= i < |items| :: Exact(items[i])
    ensures Printable(ItemsTo(items, compact, tail), tail)
    decreases items, 1
  {
    PrintPrintable(items[0], compact, ItemsRest(items, compact, tail));
    if |items| > 1 { ItemsPrintable(items[1..], compact, tail); }
  }

  lemma {:induction false} FieldsPrintable(fields: seq<Field>, compact: bool, tail: Text)
    requires fields != [] && forall i | 0 <= i < |fields| :: Exact(fields[i].value)
    ensures Printable(FieldsTo(fields, compact, tail), tail)
    decreases fields, 1
  {
    var last := FieldsRest(fields, compact, tail);
    var value := Gap(compact) + PrintTo(fields[0].value, compact, last);
    PrintPrintable(fields[0].value, compact, last);
    StringPrintable(fields[0].name, [QUOTE] + ([COLON] + value));
    if |fields| > 1 { FieldsPrintable(fields[1..], compact, tail); }
  }
}
