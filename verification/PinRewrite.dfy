/** Rewriting the one acquisition step of a workflow in its own line endings (scripts/bump_codex_pin.py, apply). */
module PinRewrite {
  import opened Texts
  import opened Wrappers

  const CRLF: Text := [CR, LF]
  const NEWLINE: Text := [LF]

  // ----- bytes.count and bytes.replace -----

  /** Occurrences from left to right without overlap. */
  function Count(s: Text, p: Text): (n: nat)
    requires p != []
    decreases |s|
  {
    if s == [] then 0 else if p <= s then 1 + Count(s[|p|..], p) else Count(s[1..], p)
  }

  function Replace(s: Text, p: Text, q: Text): Text
    requires p != []
    decreases |s|
  {
    if s == [] then [] else if p <= s then q + Replace(s[|p|..], p, q) else [s[0]] + Replace(s[1..], p, q)
  }

  function Normalise(s: Text): Text { Replace(s, CRLF, NEWLINE) }
  function Restore(s: Text): Text { Replace(s, NEWLINE, CRLF) }

  lemma {:induction false} ReplaceNothing(s: Text, p: Text, q: Text)
    requires p != [] && Count(s, p) == 0
    ensures Replace(s, p, q) == s
  {
    if s != [] {
      ReplaceNothing(s[1..], p, q);
      assert s == [s[0]] + s[1..];
    }
  }

  lemma Regroup(head: Text, before: Text, p: Text, after: Text)
    ensures head + (before + p + after) == (head + before) + p + after
  {
    ConcatAssociative(head, before + p, after);
    ConcatAssociative(head, before, p);
  }

  /** One character further in front. */
  lemma OneInFront(s: Text, p: Text, q: Text, before: Text, after: Text)
    requires s != [] && !(p <= s) && p != [] && s[1..] == before + p + after && Replace(s[1..], p, q) == before + q + after
    ensures s == ([s[0]] + before) + p + after && Replace(s, p, q) == ([s[0]] + before) + q + after
  {
    Regroup([s[0]], before, p, after);
    Regroup([s[0]], before, q, after);
    assert s == [s[0]] + s[1..];
  }

  /** A single occurrence splits the text, and replacing it keeps what is around it. */
  lemma {:induction false} ReplaceOnce(s: Text, p: Text, q: Text) returns (before: Text, after: Text)
    requires p != [] && Count(s, p) == 1
    ensures s == before + p + after && Replace(s, p, q) == before + q + after
    decreases |s|
  {
    if p <= s {
      before, after := [], s[|p|..];
      ReplaceNothing(after, p, q);
      assert s == [] + p + after;
    } else {
      before, after := ReplaceOnce(s[1..], p, q);
      OneInFront(s, p, q, before, after);
      before := [s[0]] + before;
    }
  }

  // ----- line endings -----

  /** Every LF has its CR: the counts of LF and CRLF agree. */
  predicate Uniform(s: Text) { Count(s, NEWLINE) == Count(s, CRLF) }

  lemma NormaliseStep(s: Text)
    requires s != []
    ensures CRLF <= s ==> Normalise(s) == [LF] + Normalise(s[2..]) && Count(s, CRLF) == 1 + Count(s[2..], CRLF)
    ensures CRLF <= s ==> Count(s, NEWLINE) == 1 + Count(s[2..], NEWLINE)
    ensures !(CRLF <= s) ==> Normalise(s) == [s[0]] + Normalise(s[1..]) && Count(s, CRLF) == Count(s[1..], CRLF)
    ensures !(CRLF <= s) ==> Count(s, NEWLINE) == Count(s[1..], NEWLINE) + (if s[0] == LF then 1 else 0)
  {
    assert NEWLINE <= s <==> s[0] == LF;
    if CRLF <= s {
      assert s[0] == CR && s[1] == LF;
      assert NEWLINE <= s[1..] && s[1..][1..] == s[2..];
      assert !(NEWLINE <= s);
    }
  }

  lemma RestoreStep(c: Code, rest: Text)
    ensures Restore([c] + rest) == (if c == LF then CRLF else [c]) + Restore(rest)
  {
    var s := [c] + rest;
    assert s[1..] == rest && s[0] == c;
    if c == LF { assert NEWLINE <= s; } else { assert NEWLINE[0] != s[0]; }
  }

  /** Restoring what was normalised adds a CR for every LF that had none. */
  lemma {:induction false} RestoredSize(s: Text)
    ensures Count(s, CRLF) <= Count(s, NEWLINE)
    ensures |Restore(Normalise(s))| == |s| + Count(s, NEWLINE) - Count(s, CRLF)
    decreases |s|
  {
    if s != [] {
      NormaliseStep(s);
      if CRLF <= s {
        RestoredSize(s[2..]);
        RestoreStep(LF, Normalise(s[2..]));
      } else {
        RestoredSize(s[1..]);
        RestoreStep(s[0], Normalise(s[1..]));
      }
    }
  }

  lemma {:induction false} UniformRestores(s: Text)
    requires Uniform(s)
    ensures Restore(Normalise(s)) == s
    decreases |s|
  {
    if s != [] {
      NormaliseStep(s);
      if CRLF <= s {
        UniformRestores(s[2..]);
        RestoreStep(LF, Normalise(s[2..]));
        assert s == CRLF + s[2..];
      } else {
        RestoredSize(s[1..]);
        UniformRestores(s[1..]);
        RestoreStep(s[0], Normalise(s[1..]));
        assert s == [s[0]] + s[1..];
      }
    }
  }

  /** Normalising and restoring is the identity exactly on texts whose counts of LF and CRLF agree. */
  lemma RestoreNormaliseIff(s: Text)
    ensures Restore(Normalise(s)) == s <==> Uniform(s)
  {
    RestoredSize(s);
    if Uniform(s) { UniformRestores(s); }
  }

  lemma {:induction false} RestoreAppend(a: Text, b: Text)
    ensures Restore(a + b) == Restore(a) + Restore(b)
  {
    if a == [] {
      assert a + b == b;
    } else {
      assert a == [a[0]] + a[1..] && a + b == [a[0]] + (a[1..] + b);
      RestoreAppend(a[1..], b);
      RestoreStep(a[0], a[1..] + b);
      RestoreStep(a[0], a[1..]);
      ConcatAssociative(if a[0] == LF then CRLF else [a[0]], Restore(a[1..]), Restore(b));
    }
  }

  /** A restored text is uniform. */
  lemma {:induction false} RestoredIsUniform(t: Text)
    ensures Uniform(Restore(t))
  {
    if t != [] {
      RestoredIsUniform(t[1..]);
      assert t == [t[0]] + t[1..];
      RestoreStep(t[0], t[1..]);
      var r := Restore(t);
      NormaliseStep(r);
      if t[0] == LF {
        assert CRLF <= r && r[2..] == Restore(t[1..]);
      } else {
        assert r[1..] == Restore(t[1..]) && r[0] == t[0];
        RestoreStarts(t[1..]);
      }
    }
  }

  /** A restored text never starts with a bare LF. */
  lemma RestoreStarts(t: Text)
    ensures Restore(t) != [] ==> Restore(t)[0] != LF
  {
    if t != [] {
      assert t == [t[0]] + t[1..];
      RestoreStep(t[0], t[1..]);
    }
  }

  // ----- apply -----

  datatype Pin = Pin(codexUrl: Text, codexSha256: Text, catalogUrl: Text, catalogSha256: Text)

  /** How a pin's step is written, and the pin a workflow is read as. */
  datatype Workflows = Workflows(render: Pin -> Text, parse: Text -> Option<Pin>)

  datatype Refusal = MixedEndings | NotThePinnedStep | NotTheNewPin | ChangedMeanwhile

  predicate HasCrlf(s: Text) { Count(s, CRLF) > 0 }

  /** The bytes to write for a workflow read as `original`. */
  function Rewritten(w: Workflows, original: Text, current: Pin, target: Pin): Result<Text, Refusal>
    requires w.render(current) != []
  {
    var crlf, text := HasCrlf(original), Normalise(original);
    if crlf && !Uniform(original) then Err(MixedEndings)
    else if Count(text, w.render(current)) != 1 then Err(NotThePinnedStep)
    else
      var updated := Replace(text, w.render(current), w.render(target));
      if w.parse(updated) != Some(target) then Err(NotTheNewPin)
      else Ok(if crlf then Restore(updated) else updated)
  }

  /** A step in the endings of a file. */
  function InEndingsOf(original: Text, step: Text): Text {
    if HasCrlf(original) then Restore(step) else step
  }

  /**
    The rewrite keeps every byte around the step: the file is the old step, in the file's own endings, between
    two stretches, and the result is the new step in the same endings between the same stretches.
   */
  lemma RewriteKeepsTheRest(w: Workflows, original: Text, current: Pin, target: Pin) returns (before: Text, after: Text)
    requires w.render(current) != [] && Rewritten(w, original, current, target).Ok?
    ensures original == before + InEndingsOf(original, w.render(current)) + after
    ensures Rewritten(w, original, current, target).value == before + InEndingsOf(original, w.render(target)) + after
  {
    var text, o, n := Normalise(original), w.render(current), w.render(target);
    var p, q := ReplaceOnce(text, o, n);
    if HasCrlf(original) {
      UniformRestores(original);
      RestoreThree(p, o, q);
      RestoreThree(p, n, q);
      before, after := Restore(p), Restore(q);
    } else {
      ReplaceNothing(original, CRLF, NEWLINE);
      before, after := p, q;
    }
  }

  lemma RestoreThree(a: Text, b: Text, c: Text)
    ensures Restore(a + b + c) == Restore(a) + Restore(b) + Restore(c)
  {
    RestoreAppend(a + b, c);
    RestoreAppend(a, b);
  }

  /** No CRLF at any position. */
  lemma {:induction false} CrlfFree(s: Text)
    ensures Count(s, CRLF) == 0 <==> forall i | 0 <= i < |s| - 1 :: !(s[i] == CR && s[i + 1] == LF)
    decreases |s|
  {
    if s != [] {
      assert CRLF <= s <==> |s| >= 2 && s[0] == CR && s[1] == LF;
      CrlfFree(s[1..]);
      var rest := s[1..];
      if forall i | 0 <= i < |rest| - 1 :: !(rest[i] == CR && rest[i + 1] == LF) {
        forall i | 1 <= i < |s| - 1 ensures !(s[i] == CR && s[i + 1] == LF) { assert s[i] == rest[i - 1] && s[i + 1] == rest[i]; }
      }
    }
  }

  /**
    The file's line-ending style is kept, for a step without CR that does not start with LF: a file in CRLF
    stays uniform, and a file without CRLF gets none.
   */
  lemma StyleIsKept(w: Workflows, original: Text, current: Pin, target: Pin)
    requires w.render(current) != [] && Rewritten(w, original, current, target).Ok?
    requires var n := w.render(target); CR !in n && n != [] && n[0] != LF
    ensures var data := Rewritten(w, original, current, target).value;
      if HasCrlf(original) then Uniform(data) else !HasCrlf(data)
  {
    var data := Rewritten(w, original, current, target).value;
    if HasCrlf(original) {
      RestoredIsUniform(Replace(Normalise(original), w.render(current), w.render(target)));
    } else {
      var before, after := RewriteKeepsTheRest(w, original, current, target);
      var n, o := w.render(target), w.render(current);
      CrlfFree(original);
      CrlfFree(data);
      assert data == before + n + after && original == before + o + after;
      forall i | 0 <= i < |data| - 1 ensures !(data[i] == CR && data[i + 1] == LF) {
        JoinHasNoCrlf(before, n, o, after, i);
      }
    }
  }

  lemma JoinHasNoCrlf(before: Text, n: Text, o: Text, after: Text, i: nat)
    requires CR !in n && n != [] && n[0] != LF && i < |before + n + after| - 1
    requires var original := before + o + after; forall j | 0 <= j < |original| - 1 :: !(original[j] == CR && original[j + 1] == LF)
    ensures var data := before + n + after; !(data[i] == CR && data[i + 1] == LF)
  {
    var data, original := before + n + after, before + o + after;
    if i + 1 < |before| {
      assert data[i] == original[i] && data[i + 1] == original[i + 1];
    } else if i + 1 == |before| {
      assert data[i + 1] == n[0];
    } else if i < |before| + |n| {
      assert data[i] == n[i - |before|] && data[i] in n;
    } else {
      var j := i - |n| + |o|;
      assert data[i] == original[j] && data[i + 1] == original[j + 1];
    }
  }

  // ----- exactly when, and what -----

  ghost predicate SomeCrlf(s: Text) { exists i | 0 <= i < |s| - 1 :: s[i] == CR && s[i + 1] == LF }

  ghost predicate SomeBareLf(s: Text) { exists i | 0 <= i < |s| :: BareAt(s, i) }

  predicate BareAt(s: Text, i: nat)
    requires i < |s|
  {
    s[i] == LF && (i == 0 || s[i - 1] != CR)
  }

  /** Every LF as CR LF. */
  function Expanded(t: Text): Text {
    if t == [] then [] else (if t[0] == 10 then [13, 10] else [t[0]]) + Expanded(t[1..])
  }

  lemma {:induction false} RestoreIsExpanded(t: Text)
    ensures Restore(t) == Expanded(t)
  {
    if t != [] {
      RestoreIsExpanded(t[1..]);
      assert t == [t[0]] + t[1..];
      RestoreStep(t[0], t[1..]);
    }
  }

  lemma {:induction false} ExpandedInjective(a: Text, b: Text)
    requires Expanded(a) == Expanded(b)
    ensures a == b
  {
    if a != [] && b != [] {
      var x, y := Expanded(a), Expanded(b);
      ExpandedStarts(a[1..]);
      ExpandedStarts(b[1..]);
      assert x[0] == (if a[0] == LF then CR else a[0]) && y[0] == (if b[0] == LF then CR else b[0]);
      if a[0] == LF {
        assert x[1] == LF && x[2..] == Expanded(a[1..]);
        assert y[2..] == Expanded(b[1..]);
      } else {
        assert x[1..] == Expanded(a[1..]);
        assert y[1..] == Expanded(b[1..]);
      }
      ExpandedInjective(a[1..], b[1..]);
      assert a == [a[0]] + a[1..] && b == [b[0]] + b[1..];
    }
  }

  lemma ExpandedStarts(t: Text)
    ensures Expanded(t) != [] ==> Expanded(t)[0] != LF
  {}

  lemma BareStep(s: Text, k: nat)
    requires k <= |s| && (k < |s| && s[k] == LF ==> k > 0 && s[k - 1] != CR) && forall i | 0 <= i < k :: !BareAt(s, i)
    ensures SomeBareLf(s) <==> SomeBareLf(s[k..])
  {
    if SomeBareLf(s) {
      var i :| 0 <= i < |s| && BareAt(s, i);
      assert BareAt(s[k..], i - k);
    }
    if SomeBareLf(s[k..]) {
      var i :| 0 <= i < |s[k..]| && BareAt(s[k..], i);
      assert BareAt(s, i + k);
    }
  }

  /** Uniform texts are those without a bare LF. */
  lemma {:induction false} UniformIff(s: Text)
    ensures Uniform(s) <==> !SomeBareLf(s)
    decreases |s|
  {
    if s != [] {
      NormaliseStep(s);
      if CRLF <= s {
        UniformIff(s[2..]);
        assert s[0] == CR && s[1] == LF;
        BareStep(s, 2);
      } else if s[0] == LF {
        RestoredSize(s[1..]);
        assert BareAt(s, 0);
      } else {
        UniformIff(s[1..]);
        assert |s| >= 2 && s[0] == CR ==> s[1] != LF;
        BareStep(s, 1);
      }
    }
  }

  /** p stands in t between these stretches, nowhere earlier, and nowhere in what follows it. */
  ghost predicate OnceIn(t: Text, p: Text, before: Text, after: Text) {
    && t == before + p + after && (forall i | 0 <= i < |before| :: !(p <= t[i..]))
    && forall i | 0 <= i <= |after| :: !(p <= after[i..])
  }

  lemma {:induction false} CountZero(s: Text, p: Text)
    requires p != []
    ensures Count(s, p) == 0 <==> forall i | 0 <= i <= |s| :: !(p <= s[i..])
    decreases |s|
  {
    if s != [] {
      CountZero(s[1..], p);
      assert s[0..] == s;
      assert forall i | 1 <= i <= |s| :: s[i..] == s[1..][i - 1..];
      assert forall i | 0 <= i <= |s[1..]| :: s[1..][i..] == s[i + 1..];
    }
  }

  lemma {:induction false} CountOnce(t: Text, p: Text) returns (before: Text, after: Text)
    requires p != [] && Count(t, p) == 1
    ensures OnceIn(t, p, before, after)
    decreases |t|
  {
    if p <= t {
      before, after := [], t[|p|..];
      CountZero(after, p);
      assert t == [] + p + after;
    } else {
      before, after := CountOnce(t[1..], p);
      Regroup([t[0]], before, p, after);
      assert t == [t[0]] + t[1..] && t[0..] == t;
      assert forall i | 1 <= i <= |t| :: t[i..] == t[1..][i - 1..];
      before := [t[0]] + before;
    }
  }

  lemma OnceHere(t: Text, p: Text, q: Text, after: Text)
    requires p != [] && t == p + after && Count(after, p) == 0
    ensures Count(t, p) == 1 && Replace(t, p, q) == q + after
  {
    assert p <= t && t[|p|..] == after;
    ReplaceNothing(after, p, q);
  }

  /** One character less in front. */
  lemma OnceLater(t: Text, p: Text, before: Text, after: Text)
    requires before != [] && OnceIn(t, p, before, after)
    ensures t != [] && !(p <= t) && t[0] == before[0] && OnceIn(t[1..], p, before[1..], after)
  {
    assert t[0..] == t;
    assert t[1..] == before[1..] + p + after;
    forall i | 0 <= i < |before[1..]| ensures !(p <= t[1..][i..]) { assert t[1..][i..] == t[i + 1..]; }
  }

  lemma {:induction false} OnceCount(t: Text, p: Text, q: Text, before: Text, after: Text)
    requires p != [] && OnceIn(t, p, before, after)
    ensures Count(t, p) == 1 && Replace(t, p, q) == before + q + after
    decreases |before|
  {
    if before == [] {
      CountZero(after, p);
      assert t == p + after;
      OnceHere(t, p, q, after);
      assert before + q + after == q + after;
    } else {
      OnceLater(t, p, before, after);
      OnceCount(t[1..], p, q, before[1..], after);
      Regroup([t[0]], before[1..], q, after);
      assert before == [t[0]] + before[1..];
    }
  }

  /** The text of a file whose endings are not mixed: in a CRLF file every ending as one LF. */
  ghost predicate TextOf(original: Text, text: Text) {
    if SomeCrlf(original) then Expanded(text) == original else text == original
  }

  lemma TextIsNormalised(original: Text, text: Text)
    requires !(SomeCrlf(original) && SomeBareLf(original))
    ensures TextOf(original, text) <==> text == Normalise(original)
    ensures HasCrlf(original) <==> SomeCrlf(original)
  {
    CrlfFree(original);
    UniformIff(original);
    if SomeCrlf(original) {
      UniformRestores(original);
      RestoreIsExpanded(Normalise(original));
      if Expanded(text) == original { ExpandedInjective(text, Normalise(original)); }
    } else {
      ReplaceNothing(original, CRLF, NEWLINE);
    }
  }

  lemma MixedIff(w: Workflows, original: Text, current: Pin, target: Pin)
    requires w.render(current) != []
    ensures Rewritten(w, original, current, target) == Err(MixedEndings) <==> SomeCrlf(original) && SomeBareLf(original)
  {
    CrlfFree(original);
    UniformIff(original);
  }

  /** The bytes written for this text of a file, with its old step here. */
  ghost predicate Written(w: Workflows, original: Text, text: Text, before: Text, after: Text, current: Pin, target: Pin, data: Text) {
    var updated := before + w.render(target) + after;
    && TextOf(original, text) && OnceIn(text, w.render(current), before, after) && w.parse(updated) == Some(target)
    && data == if SomeCrlf(original) then Expanded(updated) else updated
  }

  /**
    A rewrite is refused for its endings exactly when the file has both kinds, for its step exactly when the
    text of the file does not hold it once, and otherwise given exactly when the new text reads as the new pin.
   */
  lemma RewrittenIff(w: Workflows, original: Text, current: Pin, target: Pin)
    requires w.render(current) != []
    ensures Rewritten(w, original, current, target) == Err(MixedEndings) <==> SomeCrlf(original) && SomeBareLf(original)
    ensures Rewritten(w, original, current, target) == Err(NotThePinnedStep) <==>
      && !(SomeCrlf(original) && SomeBareLf(original))
      && forall text, before, after | TextOf(original, text) :: !OnceIn(text, w.render(current), before, after)
    ensures forall data :: Rewritten(w, original, current, target) == Ok(data) <==>
      && !(SomeCrlf(original) && SomeBareLf(original))
      && exists text, before, after :: Written(w, original, text, before, after, current, target, data)
  {
    MixedIff(w, original, current, target);
    if !(SomeCrlf(original) && SomeBareLf(original)) {
      var t := Normalise(original);
      forall text ensures TextOf(original, text) <==> text == t { TextIsNormalised(original, text); }
      TextIsNormalised(original, t);
      UniformIff(original);
      if Count(t, w.render(current)) == 1 {
        StepIsOnce(w, original, t, current, target);
      } else {
        forall before, after ensures !OnceIn(t, w.render(current), before, after) {
          if OnceIn(t, w.render(current), before, after) { OnceCount(t, w.render(current), [], before, after); }
        }
      }
    }
  }

  lemma StepIsOnce(w: Workflows, original: Text, t: Text, current: Pin, target: Pin)
    requires w.render(current) != [] && !(SomeCrlf(original) && SomeBareLf(original))
    requires t == Normalise(original) && Count(t, w.render(current)) == 1 && TextOf(original, t)
    requires forall text :: TextOf(original, text) <==> text == t
    requires HasCrlf(original) <==> SomeCrlf(original)
    requires HasCrlf(original) ==> Uniform(original)
    ensures exists before, after :: OnceIn(t, w.render(current), before, after)
    ensures Rewritten(w, original, current, target) != Err(NotThePinnedStep)
    ensures forall data :: Rewritten(w, original, current, target) == Ok(data) <==>
      exists text, before, after :: Written(w, original, text, before, after, current, target, data)
  {
    var o, n := w.render(current), w.render(target);
    var b, a := CountOnce(t, o);
    OnceCount(t, o, n, b, a);
    RestoreIsExpanded(b + n + a);
    forall before, after | OnceIn(t, o, before, after) ensures before + n + after == b + n + a {
      OnceCount(t, o, n, before, after);
    }
    forall data | Rewritten(w, original, current, target) == Ok(data) ensures Written(w, original, t, b, a, current, target, data) {}
  }

  class WorkflowFile {
    var bytes: Text

    constructor (bytes: Text)
      ensures this.bytes == bytes
    {
      this.bytes := bytes;
    }

    /** apply: the file is replaced only while it is still `original`; every refusal leaves it as it is. */
    method Apply(w: Workflows, original: Text, current: Pin, target: Pin) returns (r: Option<Refusal>)
      requires w.render(current) != []
      modifies this
      ensures Rewritten(w, original, current, target).Err? ==> r == Some(Rewritten(w, original, current, target).error)
      ensures Rewritten(w, original, current, target).Ok? ==> r == if old(bytes) == original then None else Some(ChangedMeanwhile)
      ensures bytes == if r.None? then Rewritten(w, original, current, target).value else old(bytes)
    {
      var crlf := HasCrlf(original);
      if crlf && Count(original, NEWLINE) != Count(original, CRLF) {
        return Some(MixedEndings);
      }
      var text := Replace(original, CRLF, NEWLINE);
      var before, after := w.render(current), w.render(target);
      if Count(text, before) != 1 {
        return Some(NotThePinnedStep);
      }
      var updated := Replace(text, before, after);
      if w.parse(updated) != Some(target) {
        return Some(NotTheNewPin);
      }
      var data := if crlf then Replace(updated, NEWLINE, CRLF) else updated;
      if bytes != original {
        return Some(ChangedMeanwhile);
      }
      bytes := data;
      r := None;
    }
  }
}
