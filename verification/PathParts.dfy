/** PurePosixPath(name).parts, and the paths rendered from parts. */
module PathParts {
  import opened Texts

  const HERE := [DOT]
  const DOTDOT := [DOT, DOT]

  predicate IsPart(t: Text) { t != [] && t != HERE }

  function KeepParts(pieces: seq<Text>): (r: seq<Text>)
    ensures |r| <= |pieces|
    ensures forall p | p in r :: p in pieces && IsPart(p)
  {
    if pieces == [] then []
    else (if IsPart(pieces[0]) then [pieces[0]] else []) + KeepParts(pieces[1..])
  }

  /** "/" for an absolute path, "//" for exactly two leading slashes. */
  function Root(name: Text): seq<Text> {
    if Relative(name) then []
    else if |name| >= 2 && name[1] == SLASH && (|name| == 2 || name[2] != SLASH) then [[SLASH, SLASH]]
    else [[SLASH]]
  }

  function Parts(name: Text): seq<Text> {
    Root(name) + KeepParts(Split(name, SLASH))
  }

  /** str(PurePosixPath(*parts)). */
  function Render(parts: seq<Text>): Text {
    if parts == [] then HERE else Join(parts, SLASH)
  }

  predicate PlainParts(parts: seq<Text>) {
    forall p | p in parts :: IsPart(p) && SLASH !in p
  }

  predicate Relative(name: Text) { name != [] ==> name[0] != SLASH }

  lemma {:induction false} KeepAll(pieces: seq<Text>)
    requires forall p | p in pieces :: IsPart(p)
    ensures KeepParts(pieces) == pieces
  {
    if pieces != [] {
      assert pieces[0] in pieces && forall p | p in pieces[1..] :: p in pieces;
      KeepAll(pieces[1..]);
    }
  }

  lemma PartsPlain(name: Text)
    requires Relative(name)
    ensures PlainParts(Parts(name))
  {
    SplitIsClean(name, SLASH);
    assert Parts(name) == KeepParts(Split(name, SLASH));
  }

  /** A rendered path parses back to its parts. */
  lemma PartsOfRender(parts: seq<Text>)
    requires PlainParts(parts)
    ensures Relative(Render(parts)) && Parts(Render(parts)) == parts
  {
    if parts != [] { assert parts[0] in parts; }
    assert Relative(Render(parts));
    if parts == [] {
      SplitOfClean(HERE, SLASH);
      assert KeepParts([HERE]) == [];
    } else {
      SplitJoin(parts, SLASH);
      KeepAll(parts);
    }
  }

  lemma RenderInjective(a: seq<Text>, b: seq<Text>)
    requires PlainParts(a) && PlainParts(b) && Render(a) == Render(b)
    ensures a == b
  {
    PartsOfRender(a);
    PartsOfRender(b);
  }

  lemma {:induction false} KeepAppend(a: seq<Text>, b: seq<Text>)
    ensures KeepParts(a + b) == KeepParts(a) + KeepParts(b)
  {
    if a == [] {
      assert a + b == b;
    } else {
      assert (a + b)[1..] == a[1..] + b;
      KeepAppend(a[1..], b);
    }
  }

  /** prefix if name == "." else f"{prefix}/{name}". */
  function Under(prefix: Text, name: Text): Text {
    if name == HERE then prefix else prefix + [SLASH] + name
  }

  /** Prefixing a name puts one part in front. */
  lemma PartsUnder(prefix: Text, name: Text)
    requires IsPart(prefix) && SLASH !in prefix && Relative(name)
    ensures Relative(Under(prefix, name)) && Parts(Under(prefix, name)) == [prefix] + Parts(name)
  {
    SplitOfClean(prefix, SLASH);
    assert prefix[0] in prefix && Under(prefix, name)[0] == prefix[0];
    assert KeepParts([prefix]) == [prefix];
    if name == HERE {
      SplitOfClean(HERE, SLASH);
      assert KeepParts([HERE]) == [];
    } else {
      SplitAppend(prefix, name, SLASH);
      KeepAppend([prefix], Split(name, SLASH));
    }
  }
}
