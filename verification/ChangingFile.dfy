/** Reading a bounded regular file that others may change meanwhile (scripts/claude_host_artifacts.py). */
module ChangingFile {
  import opened Texts
  import opened Wrappers
  import opened FileSystem
  import opened ArtifactTree

  /** A file as its identity, a device and inode number, gives it at one moment. */
  datatype Inode = Inode(regular: bool, content: Text)

  /** What the path names at one moment, and the files by identity. */
  datatype Moment = Moment(name: Option<int>, files: int -> Inode)

  /**
    The moments of one reading: lstat at 0, open at 1, fstat at 2 and read k at 3 + k. Open may fail, a read may
    fail, and how much of what it is asked for read k gives is not up to the caller.
   */
  datatype History = History(at: nat -> Moment, opens: bool, fails: nat -> bool, gives: nat -> nat) {
    function File(t: nat, id: int): Inode { at(t).files(id) }
  }

  /** One read of a regular file: empty only at its end. */
  function Piece(content: Text, from: nat, most: nat, give: nat): (r: Text)
    requires most > 0
    ensures |r| <= most && (r == [] <==> from >= |content|)
    ensures from < |content| ==> from + |r| <= |content| && r == content[from..from + |r|]
  {
    if from >= |content| then []
    else
      var left := |content| - from;
      var top := if most < left then most else left;
      content[from..from + if give < 1 then 1 else if give > top then top else give]
  }

  function Most(remaining: nat): nat { if CHUNK_BYTES < remaining then CHUNK_BYTES else remaining }

  function ReadAt(h: History, id: int, k: nat, from: nat, remaining: nat): (r: Option<Text>)
    requires remaining > 0
    ensures r.Some? ==> |r.value| <= remaining
  {
    if h.fails(k) then None else Some(Piece(h.File(3 + k, id).content, from, Most(remaining), h.gives(k)))
  }

  /** What the reads from the k-th on give together. */
  function Reads(h: History, id: int, k: nat, from: nat, remaining: nat): Option<Text>
    decreases remaining
  {
    if remaining == 0 then Some([])
    else
      var chunk :- ReadAt(h, id, k, from, remaining);
      if chunk == [] then Some([])
      else
        var rest :- Reads(h, id, k + 1, from + |chunk|, remaining - |chunk|);
        Some(chunk + rest)
  }

  /** The path named one regular file at lstat, small enough then, and the same file when it was opened. */
  predicate OneFile(h: History, limit: nat, id: int) {
    && h.at(0).name == Some(id) && h.File(0, id).regular && |h.File(0, id).content| <= limit
    && h.opens && h.at(1).name == Some(id) && h.File(2, id).regular
  }

  function Outcome(h: History, limit: nat): Option<Text> {
    var id :- h.at(0).name;
    if !OneFile(h, limit, id) then None
    else
      var raw :- Reads(h, id, 0, 0, limit + 1);
      if |raw| <= limit && |raw| == |h.File(2, id).content| then Some(raw) else None
  }

  /** What has been read so far, and what is still to come, are all there is to read. */
  ghost predicate Going(all: Option<Text>, raw: Text, rest: Option<Text>) {
    all == match rest case None => None case Some(more) => Some(raw + more)
  }

  lemma Starts(all: Option<Text>)
    ensures Going(all, [], all)
  {
    if all.Some? { assert [] + all.value == all.value; }
  }

  lemma Ends(all: Option<Text>, raw: Text)
    requires Going(all, raw, Some([]))
    ensures all == Some(raw)
  {
    assert raw + [] == raw;
  }

  lemma GoesOn(h: History, id: int, k: nat, remaining: nat, all: Option<Text>, raw: Text, chunk: Option<Text>)
    requires remaining > 0 && chunk == ReadAt(h, id, k, |raw|, remaining)
    requires Going(all, raw, Reads(h, id, k, |raw|, remaining))
    ensures chunk.None? ==> all.None?
    ensures chunk == Some([]) ==> all == Some(raw)
    ensures chunk.Some? && chunk.value != [] ==>
      Going(all, raw + chunk.value, Reads(h, id, k + 1, |raw + chunk.value|, remaining - |chunk.value|))
  {
    if chunk.None? {
      assert Reads(h, id, k, |raw|, remaining).None?;
    } else if chunk.value == [] {
      assert Reads(h, id, k, |raw|, remaining) == Some([]);
      Ends(all, raw);
    } else {
      var rest := Reads(h, id, k + 1, |raw| + |chunk.value|, remaining - |chunk.value|);
      if rest.Some? { ConcatAssociative(raw, chunk.value, rest.value); }
    }
  }

  /** The loop of reads. */
  method ReadAll(h: History, id: int, limit: nat) returns (all: Option<Text>)
    ensures all == Reads(h, id, 0, 0, limit + 1)
  {
    var raw: Text := [];
    var remaining: nat, k: nat := limit + 1, 0;
    ghost var expected := Reads(h, id, 0, 0, limit + 1);
    Starts(expected);
    while remaining > 0
      invariant Going(expected, raw, Reads(h, id, k, |raw|, remaining))
      decreases remaining
    {
      var chunk := ReadAt(h, id, k, |raw|, remaining);
      GoesOn(h, id, k, remaining, expected, raw, chunk);
      if chunk.None? {
        return None;
      }
      if chunk.value == [] {
        return Some(raw);
      }
      raw, remaining, k := raw + chunk.value, remaining - |chunk.value|, k + 1;
    }
    Ends(expected, raw);
    return Some(raw);
  }

  /** read_bounded_regular, whatever happens to the path and the file between its calls. */
  method ReadBounded(h: History, limit: nat) returns (r: Option<Text>)
    ensures r == Outcome(h, limit)
  {
    if h.at(0).name.None? {
      return None;
    }
    var id := h.at(0).name.value;
    if !h.File(0, id).regular || |h.File(0, id).content| > limit || !h.opens {
      return None;
    }
    if h.at(1).name != Some(id) || !h.File(2, id).regular {
      return None;
    }
    var raw := ReadAll(h, id, limit);
    if raw.None? || |raw.value| > limit || |raw.value| != |h.File(2, id).content| {
      return None;
    }
    return raw;
  }

  /** At read t the file had this byte at position i. */
  ghost predicate HadByte(h: History, id: int, t: nat, i: nat, b: Code) {
    var content := h.File(3 + t, id).content;
    i < |content| && content[i] == b
  }

  /** Every byte was read from the file at its own position, the earlier ones no later than the later ones. */
  ghost predicate ReadInOrder(h: History, id: int, from: nat, k: nat, raw: Text, times: seq<nat>) {
    && |times| == |raw| && (forall i | 0 <= i < |times| :: k <= times[i])
    && (forall i, j | 0 <= i <= j < |times| :: times[i] <= times[j])
    && (forall i | 0 <= i < |raw| :: HadByte(h, id, times[i], from + i, raw[i]))
  }

  lemma NothingInOrder(h: History, id: int, from: nat, k: nat, raw: Text)
    requires raw == []
    ensures ReadInOrder(h, id, from, k, raw, [])
  {}

  lemma ChunkInOrder(h: History, id: int, from: nat, k: nat, remaining: nat, chunk: Text) returns (times: seq<nat>)
    requires remaining > 0 && ReadAt(h, id, k, from, remaining) == Some(chunk)
    ensures ReadInOrder(h, id, from, k, chunk, times) && forall i | 0 <= i < |times| :: times[i] == k
  {
    times := seq(|chunk|, i => k);
    forall i | 0 <= i < |chunk| ensures HadByte(h, id, k, from + i, chunk[i]) {}
  }

  lemma OrderJoins(h: History, id: int, from: nat, k: nat, chunk: Text, first: seq<nat>, rest: Text, later: seq<nat>, raw: Text)
    returns (times: seq<nat>)
    requires ReadInOrder(h, id, from, k, chunk, first) && (forall i | 0 <= i < |first| :: first[i] == k)
    requires ReadInOrder(h, id, from + |chunk|, k + 1, rest, later) && raw == chunk + rest
    ensures ReadInOrder(h, id, from, k, raw, times)
  {
    times := first + later;
    forall i | 0 <= i < |raw| ensures HadByte(h, id, times[i], from + i, raw[i]) {
      if i < |chunk| { assert HadByte(h, id, first[i], from + i, chunk[i]); }
      else { assert HadByte(h, id, later[i - |chunk|], from + |chunk| + (i - |chunk|), rest[i - |chunk|]); }
    }
  }

  /** The first read, and the others. */
  lemma FirstRead(h: History, id: int, k: nat, from: nat, remaining: nat, raw: Text) returns (chunk: Text, rest: Text)
    requires Reads(h, id, k, from, remaining) == Some(raw) && remaining > 0
    ensures ReadAt(h, id, k, from, remaining) == Some(chunk) && raw == chunk + rest && |chunk| <= remaining
    ensures if chunk == [] then raw == [] else Reads(h, id, k + 1, from + |chunk|, remaining - |chunk|) == Some(rest)
  {
    chunk, rest := ReadAt(h, id, k, from, remaining).value, [];
    if chunk != [] { rest := Reads(h, id, k + 1, from + |chunk|, remaining - |chunk|).value; }
  }

  lemma {:induction false} ReadsInOrder(h: History, id: int, k: nat, from: nat, remaining: nat, raw: Text) returns (times: seq<nat>)
    requires Reads(h, id, k, from, remaining) == Some(raw)
    ensures ReadInOrder(h, id, from, k, raw, times)
    decreases remaining
  {
    if remaining == 0 {
      times := [];
      NothingInOrder(h, id, from, k, raw);
    } else {
      var chunk, rest := FirstRead(h, id, k, from, remaining, raw);
      if chunk == [] {
        times := [];
        NothingInOrder(h, id, from, k, raw);
      } else {
        var first := ChunkInOrder(h, id, from, k, remaining, chunk);
        var later := ReadsInOrder(h, id, k + 1, from + |chunk|, remaining - |chunk|, rest);
        times := OrderJoins(h, id, from, k, chunk, first, rest, later, raw);
      }
    }
  }

  /**
    Whatever happens between the calls, a success returns bytes of the one file that lstat saw and open opened,
    each read at its own place and in order, no more than the bound and as many as fstat gave.
   */
  lemma SuccessIsOneFile(h: History, limit: nat, r: Text) returns (id: int, times: seq<nat>)
    requires Outcome(h, limit) == Some(r)
    ensures OneFile(h, limit, id) && ReadInOrder(h, id, 0, 0, r, times)
    ensures |r| <= limit && |r| == |h.File(2, id).content|
  {
    id := h.at(0).name.value;
    times := ReadsInOrder(h, id, 0, 0, limit + 1, r);
  }

  /** From fstat on, the file only grows. */
  ghost predicate OnlyGrows(h: History, id: int) {
    forall t | t >= 2 :: h.File(2, id).content <= h.File(t, id).content
  }

  /** Of a file that only grows, a success is exactly what it held at fstat. */
  lemma GrowingIsExact(h: History, limit: nat, r: Text)
    requires Outcome(h, limit) == Some(r) && OnlyGrows(h, h.at(0).name.value)
    ensures r == h.File(2, h.at(0).name.value).content
  {
    var id, times := SuccessIsOneFile(h, limit, r);
    forall i | 0 <= i < |r| ensures r[i] == h.File(2, id).content[i] {
      assert HadByte(h, id, times[i], 0 + i, r[i]) && h.File(2, id).content <= h.File(3 + times[i], id).content;
    }
  }

  /** Nothing changes, and nothing fails. */
  ghost predicate Still(h: History, id: int, node: Inode) {
    h.opens && forall t :: h.at(t).name == Some(id) && h.File(t, id) == node && !h.fails(t)
  }

  lemma RestOf(content: Text, from: nat, chunk: Text)
    requires from <= |content| && |chunk| <= |content| - from && chunk == content[from..from + |chunk|]
    ensures chunk + content[from + |chunk|..] == content[from..]
  {}

  lemma {:induction false} StillReads(h: History, id: int, node: Inode, k: nat, from: nat, remaining: nat)
    requires Still(h, id, node) && from <= |node.content| < from + remaining
    ensures Reads(h, id, k, from, remaining) == Some(node.content[from..])
    decreases remaining
  {
    assert h.File(3 + k, id) == node && !h.fails(k);
    var chunk := Piece(node.content, from, Most(remaining), h.gives(k));
    if from < |node.content| {
      StillReads(h, id, node, k + 1, from + |chunk|, remaining - |chunk|);
      RestOf(node.content, from, chunk);
    } else {
      assert node.content[from..] == [];
    }
  }

  /** A file that holds still is read whole, or refused for its kind or its size. */
  lemma StillIsWhole(h: History, id: int, node: Inode, limit: nat)
    requires Still(h, id, node)
    ensures Outcome(h, limit) == if node.regular && |node.content| <= limit then Some(node.content) else None
  {
    assert h.at(0).name == Some(id) && h.File(0, id) == node;
    assert h.at(1).name == Some(id) && h.File(2, id) == node;
    if node.regular && |node.content| <= limit {
      StillReads(h, id, node, 0, 0, limit + 1);
      assert node.content[0..] == node.content;
    }
  }

  /** On a tree that holds still this is BoundedRead. */
  lemma StillIsBounded(h: History, id: int, nodes: Tree, user: int, p: Path, limit: nat)
    requires p in nodes && Reachable(nodes, user, p) && nodes[p].FileNode? && MayRead(nodes[p], user)
    requires Still(h, id, Inode(true, nodes[p].data))
    ensures Outcome(h, limit) == BoundedRead(nodes, user, p, limit)
  {
    StillIsWhole(h, id, Inode(true, nodes[p].data), limit);
  }

  // ----- what a success does not say -----

  /** A file of two bytes that is overwritten between the first read and the second. */
  function Overwritten(): History {
    History(t => Moment(Some(0), id => Inode(true, if t <= 3 then [1, 1] else [2, 2])), true, k => false, k => 1)
  }

  lemma SecondByte(h: History)
    requires h == Overwritten()
    ensures Reads(h, 0, 1, 1, 2) == Some([2])
  {
    assert Piece([2, 2], 1, 2, 1) == [2] && ReadAt(h, 0, 1, 1, 2) == Some([2]);
    assert Reads(h, 0, 2, 2, 1) == Some([]);
    assert [2] + [] == [2];
  }

  lemma BothBytes(h: History)
    requires h == Overwritten()
    ensures Reads(h, 0, 0, 0, 3) == Some([1, 2])
  {
    SecondByte(h);
    assert Piece([1, 1], 0, 3, 1) == [1] && ReadAt(h, 0, 0, 0, 3) == Some([1]);
    assert [1] + [2] == [1, 2];
  }

  /** Overwritten in place, a file is accepted with bytes that it never held together. */
  lemma TornReadIsAccepted()
    ensures Outcome(Overwritten(), 2) == Some([1, 2])
    ensures forall t: nat :: Overwritten().File(t, 0).content != [1, 2]
  {
    var h := Overwritten();
    BothBytes(h);
    forall t: nat ensures h.File(t, 0).content != [1, 2] { assert [1, 1][1] != [1, 2][1] && [2, 2][0] != [1, 2][0]; }
  }
}
