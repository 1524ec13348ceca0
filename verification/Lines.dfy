/** str.splitlines. */
module Lines {
  import opened Texts

  /** The characters str.splitlines breaks on. */
  predicate IsBreak(c: Code) {
    10 <= c <= 13 || 28 <= c <= 30 || c == 0x85 || c == 0x2028 || c == 0x2029
  }

  predicate Unbroken(t: Text) {
    forall i | 0 <= i < |t| :: !IsBreak(t[i])
  }

  /** The length of the first line. */
  function LineLength(s: Text): (n: nat)
    ensures n <= |s| && Unbroken(s[..n])
    ensures n < |s| ==> IsBreak(s[n])
  {
    if s == [] || IsBreak(s[0]) then 0
    else
      var n := LineLength(s[1..]);
      assert s[..n + 1] == [s[0]] + s[1..][..n];
      n + 1
  }

  /** What follows the first line and its break; CR LF is one break. */
  function AfterLine(s: Text): (r: Text)
    requires s != []
    ensures |r| < |s|
  {
    var n := LineLength(s);
    if n == |s| then [] else s[n + BreakWidth(s, n)..]
  }

  function BreakWidth(s: Text, n: nat): (k: nat)
    requires n < |s|
    ensures 1 <= k <= |s| - n
  {
    if s[n] == CR && n + 1 < |s| && s[n + 1] == LF then 2 else 1
  }

  function Splitlines(s: Text): seq<Text>
    decreases |s|
  {
    if s == [] then [] else [s[..LineLength(s)]] + Splitlines(AfterLine(s))
  }

  lemma {:induction false} SplitlinesUnbroken(s: Text)
    ensures forall l | l in Splitlines(s) :: Unbroken(l)
    decreases |s|
  {
    if s != [] { SplitlinesUnbroken(AfterLine(s)); }
  }

  lemma {:induction false} LineLengthOf(l: Text, c: Code, rest: Text)
    requires Unbroken(l) && IsBreak(c)
    ensures LineLength(l + [c] + rest) == |l|
  {
    var s := l + [c] + rest;
    if l != [] {
      assert s[1..] == l[1..] + [c] + rest;
      LineLengthOf(l[1..], c, rest);
    }
  }

  /** A whole line is split off on its own. */
  lemma SplitlinesFirst(l: Text, rest: Text)
    requires Unbroken(l)
    ensures Splitlines(l + [LF] + rest) == [l] + Splitlines(rest)
  {
    var s := l + [LF] + rest;
    LineLengthOf(l, LF, rest);
    assert s[..|l|] == l && s[|l| + 1..] == rest;
  }

  lemma LineLengthPrefix(a: Text, b: Text)
    requires LineLength(a) < |a|
    ensures LineLength(a + b) == LineLength(a)
  {
    var n := LineLength(a);
    assert a + b == a[..n] + [a[n]] + (a[n + 1..] + b);
    LineLengthOf(a[..n], a[n], a[n + 1..] + b);
  }

  /** Where the second line of a starts. */
  function SecondLine(a: Text): (k: nat)
    requires LineLength(a) < |a|
    ensures 1 <= k <= |a| && AfterLine(a) == a[k..]
  {
    LineLength(a) + BreakWidth(a, LineLength(a))
  }

  lemma LfEndsLine(a: Text)
    requires a != [] && a[|a| - 1] == LF
    ensures LineLength(a) < |a|
  {}

  lemma SecondLineAppend(a: Text, b: Text)
    requires a != [] && a[|a| - 1] == LF && LineLength(a) < |a|
    ensures LineLength(a + b) == LineLength(a) && SecondLine(a + b) == SecondLine(a)
  {
    LineLengthPrefix(a, b);
    BreakWidthAppend(a, b, LineLength(a));
  }

  lemma BreakWidthAppend(a: Text, b: Text, n: nat)
    requires n < |a| && a[|a| - 1] == LF
    ensures BreakWidth(a + b, n) == BreakWidth(a, n)
  {}

  lemma DropAppend(a: Text, b: Text, k: nat)
    requires k <= |a|
    ensures (a + b)[k..] == a[k..] + b
  {}

  lemma SplitCons(s: Text, l: Text, rest: Text, tail: seq<Text>)
    requires s != [] && s[..LineLength(s)] == l && AfterLine(s) == rest && Splitlines(rest) == tail
    ensures Splitlines(s) == [l] + tail
  {}

  lemma SplitlinesAppendStep(a: Text, b: Text, r: Text, x: seq<Text>, y: seq<Text>)
    requires a != [] && a[|a| - 1] == LF && LineLength(a) < |a| && r == a[SecondLine(a)..]
    requires Splitlines(r) == x && Splitlines(r + b) == x + y
    ensures Splitlines(a + b) == Splitlines(a) + y
  {
    var l := a[..LineLength(a)];
    SecondLineAppend(a, b);
    DropAppend(a, b, SecondLine(a));
    assert (a + b)[..LineLength(a)] == l;
    SplitCons(a, l, r, x);
    SplitCons(a + b, l, r + b, x + y);
    ConcatAssociative([l], x, y);
  }

  /** Text that ends a line splits independently of what follows. */
  lemma {:induction false} SplitlinesAppend(a: Text, b: Text)
    requires a != [] && a[|a| - 1] == LF
    ensures Splitlines(a + b) == Splitlines(a) + Splitlines(b)
    decreases |a|
  {
    LfEndsLine(a);
    var r := a[SecondLine(a)..];
    if r == [] {
      assert r + b == b && Splitlines(r) == [];
    } else {
      SplitlinesAppend(r, b);
    }
    SplitlinesAppendStep(a, b, r, Splitlines(r), Splitlines(b));
  }

  /** Lines written out, each with its LF. */
  function Unlines(lines: seq<Text>): Text {
    if lines == [] then [] else lines[0] + [LF] + Unlines(lines[1..])
  }

  lemma {:induction false} SplitUnlines(lines: seq<Text>)
    requires forall l | l in lines :: Unbroken(l)
    ensures Splitlines(Unlines(lines)) == lines
  {
    if lines != [] {
      assert lines[0] in lines;
      assert forall l | l in lines[1..] :: l in lines;
      SplitUnlines(lines[1..]);
      SplitlinesFirst(lines[0], Unlines(lines[1..]));
    }
  }

  lemma {:induction false} UnlinesAppend(a: seq<Text>, b: seq<Text>)
    ensures Unlines(a + b) == Unlines(a) + Unlines(b)
  {
    if a == [] {
      assert a + b == b;
    } else {
      assert (a + b)[1..] == a[1..] + b;
      UnlinesAppend(a[1..], b);
    }
  }

  // ----- exactly the lines of a text -----

  /** LF, VT, FF, CR, the three separators, NEL, and the two of Unicode's own. */
  predicate BreakCode(c: Code) {
    || c == 0x0A || c == 0x0B || c == 0x0C || c == 0x0D || c == 0x1C || c == 0x1D || c == 0x1E || c == 0x85
    || c == 0x2028 || c == 0x2029
  }

  lemma BreakIs(c: Code)
    ensures IsBreak(c) <==> BreakCode(c)
  {}

  /** One break, CR LF together, or none at the end of the text. */
  predicate LineEnd(b: Text, rest: Text) {
    || (b == [] && rest == []) || b == [0x0D, 0x0A]
    || (|b| == 1 && BreakCode(b[0]) && !(b[0] == 0x0D && rest != [] && rest[0] == 0x0A))
  }

  /** A line without breaks, its end, and what follows. */
  ghost predicate LineFirst(s: Text, line: Text, b: Text, rest: Text) {
    s != [] && s == line + (b + rest) && (forall i | 0 <= i < |line| :: !BreakCode(line[i])) && LineEnd(b, rest)
  }

  /** The text is these lines, each with its end. */
  ghost predicate BreaksInto(s: Text, lines: seq<Text>)
    decreases |lines|
  {
    if lines == [] then s == [] else exists b, rest :: LineFirst(s, lines[0], b, rest) && BreaksInto(rest, lines[1..])
  }

  lemma LengthIs(s: Text, line: Text, b: Text, rest: Text)
    requires LineFirst(s, line, b, rest)
    ensures LineLength(s) == |line| && s[..|line|] == line
  {
    forall i | 0 <= i < |line| ensures !IsBreak(line[i]) { BreakIs(line[i]); }
    if b == [] {
      assert s == line;
      NoBreakLength(line);
    } else {
      BreakIs(b[0]);
      assert s == line + [b[0]] + (b[1..] + rest);
      LineLengthOf(line, b[0], b[1..] + rest);
    }
  }

  lemma {:induction false} NoBreakLength(line: Text)
    requires Unbroken(line)
    ensures LineLength(line) == |line|
  {
    if line != [] { NoBreakLength(line[1..]); }
  }

  /** The first line is cut off in one way only. */
  lemma FirstIs(s: Text, line: Text, b: Text, rest: Text)
    requires LineFirst(s, line, b, rest)
    ensures s[..LineLength(s)] == line && AfterLine(s) == rest
  {
    LengthIs(s, line, b, rest);
    var n := |line|;
    if b == [] {
      assert n == |s|;
    } else {
      assert s[n] == b[0];
      if n + 1 < |s| { assert s[n + 1] == if |b| == 2 then b[1] else rest[0]; }
      assert s[n + |b|..] == rest;
    }
  }

  lemma FirstExists(s: Text) returns (b: Text)
    requires s != []
    ensures LineFirst(s, s[..LineLength(s)], b, AfterLine(s))
  {
    var n := LineLength(s);
    b := if n == |s| then [] else s[n..n + BreakWidth(s, n)];
    forall i | 0 <= i < n ensures !BreakCode(s[..n][i]) { BreakIs(s[i]); }
    if n < |s| {
      BreakIs(s[n]);
      assert s == s[..n] + (b + AfterLine(s));
      if BreakWidth(s, n) == 2 { assert b == [0x0D, 0x0A]; } else { assert b == [s[n]]; }
    } else {
      assert s == s[..n] + ([] + []);
    }
  }

  lemma {:induction false} SplitBreaks(s: Text)
    ensures BreaksInto(s, Splitlines(s))
    decreases |s|
  {
    if s != [] {
      var lines, rest := Splitlines(s), AfterLine(s);
      var b := FirstExists(s);
      SplitBreaks(rest);
      assert lines[0] == s[..LineLength(s)] && lines[1..] == Splitlines(rest);
      assert LineFirst(s, lines[0], b, rest);
    }
  }

  lemma FirstLineSplit(s: Text, lines: seq<Text>, b: Text, rest: Text)
    requires lines != [] && LineFirst(s, lines[0], b, rest) && Splitlines(rest) == lines[1..]
    ensures Splitlines(s) == lines
  {
    FirstIs(s, lines[0], b, rest);
    SplitCons(s, lines[0], rest, lines[1..]);
    assert [lines[0]] + lines[1..] == lines;
  }

  lemma RestIsShorter(s: Text, line: Text, b: Text, rest: Text)
    requires LineFirst(s, line, b, rest)
    ensures |rest| < |s|
  {}

  lemma {:induction false} BreaksSplit(s: Text, lines: seq<Text>)
    requires BreaksInto(s, lines)
    ensures Splitlines(s) == lines
    decreases |s|
  {
    if lines == [] {
      assert Splitlines(s) == [];
    } else {
      var b, rest :| LineFirst(s, lines[0], b, rest) && BreaksInto(rest, lines[1..]);
      RestIsShorter(s, lines[0], b, rest);
      BreaksSplit(rest, lines[1..]);
      FirstLineSplit(s, lines, b, rest);
    }
  }

  /** str.splitlines gives exactly the lines of a text. */
  lemma SplitlinesIff(s: Text, lines: seq<Text>)
    ensures Splitlines(s) == lines <==> BreaksInto(s, lines)
  {
    SplitBreaks(s);
    if BreaksInto(s, lines) { BreaksSplit(s, lines); }
  }
}
