/** The texts that json.dumps prints, character by character. */
module JsonPrinting {
  import opened Texts
  import opened Wrappers
  import opened Json
  import opened JsonGrammar

  // ----- strings -----

  predicate LowerHexUnit(p: Text) { IsUnit(p) && forall i | 2 <= i < 6 :: p[i] <= 57 || 97 <= p[i] }

  /** A printable character as itself, six others by a letter, and the rest as units in lowercase. */
  ghost predicate EscapedAs(c: Code, p: Text) {
    if c == 34 || c == 92 then p == [92, c]
    else if 32 <= c <= 126 then p == [c]
    else if c == 8 then p == [92, 98]
    else if c == 9 then p == [92, 116]
    else if c == 10 then p == [92, 110]
    else if c == 12 then p == [92, 102]
    else if c == 13 then p == [92, 114]
    else if c < 0x10000 then LowerHexUnit(p) && UnitOf(p) == c
    else PairPiece(c, p) && LowerHexUnit(p[..6]) && LowerHexUnit(p[6..])
  }

  lemma DigitIs(d: nat)
    requires d < 16
    ensures var c := HexDigit(d); HexLetter(c) && HexMeaning(c) == d && (c <= 57 || 97 <= c)
  {}

  lemma UnitIs(c: Code)
    requires c < 0x10000
    ensures LowerHexUnit(UEscape(c)) && UnitOf(UEscape(c)) == c
  {
    DigitIs(c / 4096);
    DigitIs(c / 256 % 16);
    DigitIs(c / 16 % 16);
    DigitIs(c % 16);
    HexArithmetic(c);
  }

  lemma PairIs(c: Code)
    requires c >= 0x10000
    ensures Combine(HighOf(c), LowOf(c)) == c
  {
    var n := c - 0x10000;
    assert n == 0x400 * (n / 0x400) + n % 0x400;
  }

  lemma EscapeIs(c: Code)
    ensures EscapedAs(c, Escape(c))
  {
    if c >= 0x10000 {
      PairEscapeIs(c, Escape(c));
    } else if !Plain(c) && ShortLetter(c) == 0 {
      UnitIs(c);
    }
  }

  lemma PairEscapeIs(c: Code, p: Text)
    requires c >= 0x10000 && p == UEscape(HighOf(c)) + UEscape(LowOf(c))
    ensures PairPiece(c, p) && LowerHexUnit(p[..6]) && LowerHexUnit(p[6..])
  {
    UnitIs(HighOf(c));
    UnitIs(LowOf(c));
    PairIs(c);
    assert p[..6] == UEscape(HighOf(c)) && p[6..] == UEscape(LowOf(c));
  }

  /** The characters of a string one after another. */
  function Escaped(s: Text): Text { if s == [] then [] else Escape(s[0]) + Escaped(s[1..]) }

  lemma {:induction false} EscapedToIs(s: Text, tail: Text)
    ensures EscapedTo(s, tail) == Escaped(s) + tail
  {
    if s == [] {
      assert [] + tail == tail;
    } else {
      EscapedToIs(s[1..], tail);
      ConcatAssociative(Escape(s[0]), Escaped(s[1..]), tail);
    }
  }

  lemma StringToIs(s: Text, tail: Text)
    ensures StringTo(s, tail) == [34] + (Escaped(s) + [34]) + tail
  {
    EscapedToIs(s, [QUOTE] + tail);
    ConcatAssociative([QUOTE], Escaped(s) + [QUOTE], tail);
    ConcatAssociative(Escaped(s), [QUOTE], tail);
  }

  // ----- values -----

  /** The text of a value; the gap stands after every comma and colon. */
  function Printed(v: Value, gap: Text): Text
    decreases v, 0
  {
    match v
    case Null => Lit("null")
    case Bool(b) => if b then Lit("true") else Lit("false")
    case Int(n) => if n < 0 then [45] + Digits(-n) else Digits(n)
    case Float(lexeme) => lexeme
    case Str(s) => [34] + (Escaped(s) + [34])
    case Arr(items) => [91] + (PrintedItems(items, gap) + [93])
    case Obj(fields) => [123] + (PrintedFields(fields, gap) + [125])
  }

  function PrintedItems(items: seq<Value>, gap: Text): Text
    decreases items, 1
  {
    if items == [] then []
    else if |items| == 1 then Printed(items[0], gap)
    else Printed(items[0], gap) + ([44] + (gap + PrintedItems(items[1..], gap)))
  }

  function PrintedField(f: Field, gap: Text): Text
    decreases f, 1
  {
    [34] + (Escaped(f.name) + [34]) + ([58] + (gap + Printed(f.value, gap)))
  }

  function PrintedFields(fields: seq<Field>, gap: Text): Text
    decreases fields, 2
  {
    if fields == [] then []
    else if |fields| == 1 then PrintedField(fields[0], gap)
    else PrintedField(fields[0], gap) + ([44] + (gap + PrintedFields(fields[1..], gap)))
  }

  lemma Around(open: Code, inner: Text, close: Code, tail: Text)
    ensures [open] + (inner + [close]) + tail == [open] + (inner + ([close] + tail))
  {
    ConcatAssociative([open], inner + [close], tail);
    ConcatAssociative(inner, [close], tail);
  }

  lemma CommaThen(x: Text, gap: Text, rest: Text, tail: Text)
    ensures x + ([44] + (gap + rest)) + tail == x + ([44] + (gap + (rest + tail)))
  {
    ConcatAssociative(x, [44] + (gap + rest), tail);
    ConcatAssociative([44], gap + rest, tail);
    ConcatAssociative(gap, rest, tail);
  }

  lemma {:induction false} PrintToIs(v: Value, compact: bool, tail: Text)
    ensures PrintTo(v, compact, tail) == Printed(v, Gap(compact)) + tail
    decreases v, 0
  {
    match v
    case Str(s) => StringToIs(s, tail);
    case Arr(items) =>
      Around(91, PrintedItems(items, Gap(compact)), 93, tail);
      if items == [] { EmptyPrinted(91, 93, tail); } else { ItemsToIs(items, compact, tail); }
    case Obj(fields) =>
      Around(123, PrintedFields(fields, Gap(compact)), 125, tail);
      if fields == [] { EmptyPrinted(123, 125, tail); } else { FieldsToIs(fields, compact, tail); }
    case _ =>
  }

  lemma EmptyPrinted(open: Code, close: Code, tail: Text)
    ensures [open] + ([] + ([close] + tail)) == [open, close] + tail
  {}

  lemma {:induction false} ItemsToIs(items: seq<Value>, compact: bool, tail: Text)
    requires items != []
    ensures ItemsTo(items, compact, tail) == PrintedItems(items, Gap(compact)) + ([93] + tail)
    decreases items, 1
  {
    PrintToIs(items[0], compact, ItemsRest(items, compact, tail));
    if |items| > 1 {
      ItemsToIs(items[1..], compact, tail);
      CommaThen(Printed(items[0], Gap(compact)), Gap(compact), PrintedItems(items[1..], Gap(compact)), [93] + tail);
    }
  }

  lemma FieldLayout(name: Text, gap: Text, value: Text, rest: Text)
    ensures [34] + (name + [34]) + ([58] + (gap + value)) + rest == [34] + (name + [34]) + ([58] + (gap + (value + rest)))
  {
    ConcatAssociative([34] + (name + [34]), [58] + (gap + value), rest);
    ConcatAssociative([58], gap + value, rest);
    ConcatAssociative(gap, value, rest);
  }

  lemma {:induction false} FieldsToIs(fields: seq<Field>, compact: bool, tail: Text)
    requires fields != []
    ensures FieldsTo(fields, compact, tail) == PrintedFields(fields, Gap(compact)) + ([125] + tail)
    decreases fields, 1
  {
    var gap, f, rest := Gap(compact), fields[0], FieldsRest(fields, compact, tail);
    PrintToIs(f.value, compact, rest);
    StringToIs(f.name, [COLON] + (gap + (Printed(f.value, gap) + rest)));
    FieldLayout(Escaped(f.name), gap, Printed(f.value, gap), rest);
    if |fields| > 1 {
      FieldsToIs(fields[1..], compact, tail);
      CommaThen(PrintedField(f, gap), gap, PrintedFields(fields[1..], gap), [125] + tail);
    }
  }

  /** json.dumps puts a space after every comma and colon; the canonical form none, and a line feed at the end. */
  lemma DumpsIs(v: Value)
    ensures Dumps(v) == Printed(v, [32])
    ensures PrintTo(v, true, [10]) == Printed(v, []) + [10]
  {
    PrintToIs(v, false, []);
    PrintToIs(v, true, [LF]);
    assert Printed(v, [32]) + [] == Printed(v, [32]);
  }
}
