/**
  The byte stream behind the harness's source digest: sorted names and contents,
  each framed by its length in eight big-endian bytes (scripts/_mutations.py).
 */
module SourceSnapshot {
  import opened Texts
  import opened Wrappers
  import opened Sorting

  const WORD := 0x1_0000_0000_0000_0000

  // ----- length framing -----

  function Pow256(width: nat): nat {
    if width == 0 then 1 else 256 * Pow256(width - 1)
  }

  /** n.to_bytes(width, "big"). */
  function BigEndian(n: nat, width: nat): (t: Text)
    ensures |t| == width
  {
    if width == 0 then [] else BigEndian(n / 256, width - 1) + [n % 256]
  }

  lemma {:induction false} BigEndianInjective(a: nat, b: nat, width: nat)
    requires a < Pow256(width) && b < Pow256(width)
    requires BigEndian(a, width) == BigEndian(b, width)
    ensures a == b
  {
    if width > 0 {
      var x, y := BigEndian(a / 256, width - 1), BigEndian(b / 256, width - 1);
      assert (x + [a % 256])[..width - 1] == x && (y + [b % 256])[..width - 1] == y;
      assert (x + [a % 256])[width - 1] == (y + [b % 256])[width - 1];
      BigEndianInjective(a / 256, b / 256, width - 1);
    }
  }

  lemma PowWord()
    ensures Pow256(8) == WORD
  {
    assert Pow256(4) == 0x1_0000_0000;
  }

  function Frame(t: Text): Text {
    BigEndian(|t|, 8) + t
  }

  /** A framed text can be cut off the front in one way only. */
  lemma FrameInjective(a: Text, b: Text, p: Text, q: Text)
    requires |a| < WORD && |b| < WORD
    requires Frame(a) + p == Frame(b) + q
    ensures a == b && p == q
  {
    var s, t := Frame(a) + p, Frame(b) + q;
    assert s[..8] == BigEndian(|a|, 8) && t[..8] == BigEndian(|b|, 8);
    PowWord();
    BigEndianInjective(|a|, |b|, 8);
    assert s[8..8 + |a|] == a && t[8..8 + |b|] == b;
    assert s[8 + |a|..] == p && t[8 + |b|..] == q;
  }

  /** The number that bytes stand for, the first being the most significant. */
  function Base256(t: Text): nat {
    if t == [] then 0 else 256 * Base256(t[..|t| - 1]) + t[|t| - 1]
  }

  lemma {:induction false} BigEndianIs(n: nat, width: nat)
    requires n < Pow256(width)
    ensures Base256(BigEndian(n, width)) == n && IsBytes(BigEndian(n, width))
  {
    if width > 0 {
      BigEndianIs(n / 256, width - 1);
      var init := BigEndian(n / 256, width - 1);
      assert (init + [n % 256])[..width - 1] == init;
    }
  }

  /** A frame is eight bytes that stand for the length, then the text. */
  lemma FrameIs(t: Text, head: Text, body: Text)
    requires |t| < 0x1_0000_0000_0000_0000 && |head| == 8 && Frame(t) == head + body
    ensures IsBytes(head) && Base256(head) == |t| && body == t
  {
    PowWord();
    BigEndianIs(|t|, 8);
    assert Frame(t)[..8] == head && Frame(t)[..8] == BigEndian(|t|, 8);
    assert Frame(t)[8..] == body && Frame(t)[8..] == t;
  }

  // ----- the listing -----

  function NonEmpty(parts: seq<Text>): (r: seq<Text>)
    ensures forall p :: p in r <==> p in parts && p != []
  {
    if parts == [] then []
    else
      assert parts == [parts[0]] + parts[1..];
      (if parts[0] == [] then [] else [parts[0]]) + NonEmpty(parts[1..])
  }

  /** sorted(set(listed.split(NUL)) - {b""}). */
  function ListedNames(listed: Text): seq<Text> {
    SortDistinct(NonEmpty(Split(listed, 0)), TextKey)
  }

  /** Everything the digest is fed; None when a file cannot be read or framed. */
  function Stream(names: seq<Text>, contentOf: Text -> Option<Text>): Option<Text> {
    if names == [] then Some([])
    else
      var content :- contentOf(names[0]);
      if |names[0]| >= WORD || |content| >= WORD then None
      else
        var rest :- Stream(names[1..], contentOf);
        Some(Frame(names[0]) + (Frame(content) + rest))
  }

  /** The stream so far, continued by the rest of the listing. */
  function Continued(stream: Text, rest: Option<Text>): Option<Text> {
    match rest
    case Some(t) => Some(stream + t)
    case None => None
  }

  lemma StreamStep(names: seq<Text>, i: nat, stream: Text, contentOf: Text -> Option<Text>)
    requires i < |names|
    ensures var content := contentOf(names[i]);
      Continued(stream, Stream(names[i..], contentOf)) ==
        if content.None? || |names[i]| >= WORD || |content.value| >= WORD then None
        else Continued(stream + (Frame(names[i]) + Frame(content.value)), Stream(names[i + 1..], contentOf))
  {
    var content, rest := contentOf(names[i]), Stream(names[i + 1..], contentOf);
    assert names[i..][0] == names[i] && names[i..][1..] == names[i + 1..];
    if content.Some? && rest.Some? {
      var n, c := Frame(names[i]), Frame(content.value);
      ConcatAssociative(n, c, rest.value);
      ConcatAssociative(stream, n + c, rest.value);
    }
  }

  method Snapshot(listed: Text, contentOf: Text -> Option<Text>) returns (digested: Option<Text>)
    ensures digested == Stream(ListedNames(listed), contentOf)
  {
    var names := ListedNames(listed);
    var stream: Text := [];
    assert names[0..] == names;
    EmptyStart(Stream(names, contentOf));
    for i := 0 to |names|
      invariant Stream(names, contentOf) == Continued(stream, Stream(names[i..], contentOf))
    {
      var content := contentOf(names[i]);
      StreamStep(names, i, stream, contentOf);
      if content.None? || |names[i]| >= WORD || |content.value| >= WORD {
        return None;
      }
      stream := stream + (Frame(names[i]) + Frame(content.value));
    }
    assert names[|names|..] == [] && stream + [] == stream;
    return Some(stream);
  }

  lemma EmptyStart(rest: Option<Text>)
    ensures Continued([], rest) == rest
  {
    if rest.Some? { assert [] + rest.value == rest.value; }
  }

  /** Equal streams were fed the same names and contents, in the same order. */
  lemma {:induction false} StreamInjective(a: seq<Text>, f: Text -> Option<Text>, b: seq<Text>, g: Text -> Option<Text>)
    requires Stream(a, f).Some? && Stream(a, f) == Stream(b, g)
    ensures a == b && forall n | n in a :: f(n).Some? && f(n) == g(n)
  {
    if a != [] && b != [] {
      var p, q := Stream(a[1..], f).value, Stream(b[1..], g).value;
      var x, y := f(a[0]).value, g(b[0]).value;
      FrameInjective(a[0], b[0], Frame(x) + p, Frame(y) + q);
      FrameInjective(x, y, p, q);
      StreamInjective(a[1..], f, b[1..], g);
      assert a == [a[0]] + a[1..] && b == [b[0]] + b[1..];
    }
  }

  lemma {:induction false} StreamSame(names: seq<Text>, f: Text -> Option<Text>, g: Text -> Option<Text>)
    requires forall n | n in names :: f(n) == g(n)
    ensures Stream(names, f) == Stream(names, g)
  {
    if names != [] { StreamSame(names[1..], f, g); }
  }

  /** Frames of the names and of what they hold, in order. */
  ghost predicate Feeds(names: seq<Text>, contentOf: Text -> Option<Text>, stream: Text) {
    if names == [] then stream == [] else exists rest :: FeedsFirst(names, contentOf, stream, rest) && Feeds(names[1..], contentOf, rest)
  }

  ghost predicate FeedsFirst(names: seq<Text>, contentOf: Text -> Option<Text>, stream: Text, rest: Text)
    requires names != []
  {
    && |names[0]| < 0x1_0000_0000_0000_0000 && contentOf(names[0]).Some?
    && |contentOf(names[0]).value| < 0x1_0000_0000_0000_0000
    && stream == Frame(names[0]) + (Frame(contentOf(names[0]).value) + rest)
  }

  /** The listed names without repeats or empty ones, in ascending order. */
  lemma ListedNamesAre(listed: Text)
    ensures StrictlyAscending(ListedNames(listed), TextKey)
    ensures forall n :: n in ListedNames(listed) <==> n != [] && n in Split(listed, 0)
  {
    SortDistinctOrder(NonEmpty(Split(listed, 0)), TextKey);
  }

  /** The digest is fed exactly when every file can be read and framed: the frames of names and contents. */
  lemma {:induction false} StreamIs(names: seq<Text>, contentOf: Text -> Option<Text>, stream: Text)
    ensures Stream(names, contentOf) == Some(stream) <==> Feeds(names, contentOf, stream)
  {
    if names != [] {
      if Stream(names, contentOf) == Some(stream) {
        var rest := Stream(names[1..], contentOf).value;
        StreamIs(names[1..], contentOf, rest);
        assert FeedsFirst(names, contentOf, stream, rest);
      }
      forall rest | FeedsFirst(names, contentOf, stream, rest) && Feeds(names[1..], contentOf, rest)
        ensures Stream(names, contentOf) == Some(stream)
      {
        StreamIs(names[1..], contentOf, rest);
      }
    }
  }

  /** The files a listing names, with what they hold. */
  function Files(listed: Text, contentOf: Text -> Option<Text>): map<Text, Option<Text>> {
    map n | n in Split(listed, 0) && n != [] :: contentOf(n)
  }

  /** Two snapshots digest the same bytes exactly when they saw the same files with the same contents. */
  lemma SnapshotsEqualIffFilesEqual(l1: Text, f1: Text -> Option<Text>, l2: Text, f2: Text -> Option<Text>)
    requires Stream(ListedNames(l1), f1).Some? && Stream(ListedNames(l2), f2).Some?
    ensures Stream(ListedNames(l1), f1) == Stream(ListedNames(l2), f2) <==> Files(l1, f1) == Files(l2, f2)
  {
    var n1, n2 := NonEmpty(Split(l1, 0)), NonEmpty(Split(l2, 0));
    SortDistinctOrder(n1, TextKey);
    SortDistinctOrder(n2, TextKey);
    var m1, m2 := Files(l1, f1), Files(l2, f2);
    assert forall n :: n in m1 <==> n in ListedNames(l1);
    assert forall n :: n in m2 <==> n in ListedNames(l2);
    if Stream(ListedNames(l1), f1) == Stream(ListedNames(l2), f2) {
      StreamInjective(ListedNames(l1), f1, ListedNames(l2), f2);
    }
    if m1 == m2 {
      SortDistinctCanonical(n1, n2, TextKey);
      forall n | n in ListedNames(l1) ensures f1(n) == f2(n) {
        assert m1[n] == f1(n) && m2[n] == f2(n);
      }
      StreamSame(ListedNames(l1), f1, f2);
    }
  }
}
