/**
  Python's `sorted(xs, key=...)`: stable and ascending.  Keys are sequences of
  integers in lexicographic order, which covers str, bytes and tuples of them.
 */
module Sorting {
  import opened Texts

  type Key = seq<int>

  predicate Less(a: Key, b: Key) {
    b != [] && (a == [] || a[0] < b[0] || (a[0] == b[0] && Less(a[1..], b[1..])))
  }

  lemma {:induction false} LessIrreflexive(a: Key)
    ensures !Less(a, a)
  {
    if a != [] { LessIrreflexive(a[1..]); }
  }

  lemma {:induction false} LessTransitive(a: Key, b: Key, c: Key)
    requires Less(a, b) && Less(b, c)
    ensures Less(a, c)
  {
    if a != [] && a[0] == b[0] == c[0] { LessTransitive(a[1..], b[1..], c[1..]); }
  }

  lemma {:induction false} LessTotal(a: Key, b: Key)
    ensures a == b || Less(a, b) || Less(b, a)
  {
    if a != [] && b != [] && a[0] == b[0] {
      LessTotal(a[1..], b[1..]);
      assert a == [a[0]] + a[1..] && b == [b[0]] + b[1..];
    }
  }

  lemma {:induction false} PrefixLess(p: Key, a: Key)
    requires a != []
    ensures Less(p, p + a)
  {
    if p != [] {
      PrefixLess(p[1..], a);
      assert (p + a)[1..] == p[1..] + a;
    }
  }

  /** No later element has a smaller key than an earlier one. */
  ghost predicate Ascending<T>(s: seq<T>, key: T -> Key) {
    forall i, j | 0 <= i < j < |s| :: !Less(key(s[j]), key(s[i]))
  }

  ghost predicate StrictlyAscending<T>(s: seq<T>, key: T -> Key) {
    forall i, j | 0 <= i < j < |s| :: Less(key(s[i]), key(s[j]))
  }

  /** The elements of s whose key is k, in the order of s. */
  function Having<T>(s: seq<T>, key: T -> Key, k: Key): seq<T> {
    if s == [] then []
    else (if key(s[0]) == k then [s[0]] else []) + Having(s[1..], key, k)
  }

  function Insert<T>(x: T, s: seq<T>, key: T -> Key): (r: seq<T>)
    ensures |r| == |s| + 1
    ensures multiset(r) == multiset([x]) + multiset(s)
  {
    if s == [] then [x]
    else if Less(key(s[0]), key(x)) then
      assert s == [s[0]] + s[1..];
      [s[0]] + Insert(x, s[1..], key)
    else [x] + s
  }

  function Sort<T>(s: seq<T>, key: T -> Key): (r: seq<T>)
    ensures |r| == |s|
    ensures multiset(r) == multiset(s)
  {
    if s == [] then []
    else
      assert s == [s[0]] + s[1..];
      Insert(s[0], Sort(s[1..], key), key)
  }

  /** x if its key is k. */
  function Match<T>(x: T, key: T -> Key, k: Key): seq<T> { if key(x) == k then [x] else [] }

  lemma HavingCons<T>(x: T, s: seq<T>, key: T -> Key, k: Key)
    ensures Having([x] + s, key, k) == Match(x, key, k) + Having(s, key, k)
  {
    assert ([x] + s)[1..] == s && ([x] + s)[0] == x;
  }

  lemma {:induction false} HavingAppend<T>(a: seq<T>, b: seq<T>, key: T -> Key, k: Key)
    ensures Having(a + b, key, k) == Having(a, key, k) + Having(b, key, k)
  {
    if a == [] {
      assert a + b == b;
    } else {
      HavingAppend(a[1..], b, key, k);
      assert a + b == [a[0]] + (a[1..] + b);
      HavingCons(a[0], a[1..] + b, key, k);
      ConcatAssociative(Match(a[0], key, k), Having(a[1..], key, k), Having(b, key, k));
    }
  }

  lemma NotLessTransitive(a: Key, b: Key, c: Key)
    requires !Less(b, a) && !Less(c, b)
    ensures !Less(c, a)
  {
    LessTotal(a, b);
    LessTotal(b, c);
    if Less(c, a) {
      if Less(a, b) { LessTransitive(c, a, b); }
      if Less(b, c) { LessTransitive(b, c, a); }
    }
  }

  /** Putting x before an ascending s keeps order when x is no greater than its head. */
  lemma ConsAscending<T>(x: T, s: seq<T>, key: T -> Key)
    requires Ascending(s, key)
    requires s != [] ==> !Less(key(s[0]), key(x))
    ensures Ascending([x] + s, key)
  {
    var r := [x] + s;
    forall i, j | 0 <= i < j < |r| ensures !Less(key(r[j]), key(r[i])) {
      if i == 0 && j > 1 { NotLessTransitive(key(x), key(s[0]), key(s[j - 1])); }
    }
  }

  lemma {:induction false} InsertAscending<T>(x: T, s: seq<T>, key: T -> Key)
    requires Ascending(s, key)
    ensures Ascending(Insert(x, s, key), key)
  {
    if s == [] {
      assert Insert(x, s, key) == [x];
    } else if Less(key(s[0]), key(x)) {
      InsertAscending(x, s[1..], key);
      var t := Insert(x, s[1..], key);
      assert t[0] == x || (|s| > 1 && t[0] == s[1]);
      if Less(key(x), key(s[0])) {
        LessTransitive(key(x), key(s[0]), key(x));
        LessIrreflexive(key(x));
      }
      ConsAscending(s[0], t, key);
    } else {
      ConsAscending(x, s, key);
    }
  }

  lemma PassHead<T>(x: T, s: seq<T>, key: T -> Key, k: Key)
    requires s != [] && Less(key(s[0]), key(x))
    ensures Having(Insert(x, s, key), key, k) == Match(s[0], key, k) + Having(Insert(x, s[1..], key), key, k)
  {
    var rest := Insert(x, s[1..], key);
    assert Insert(x, s, key) == [s[0]] + rest;
    HavingCons(s[0], rest, key, k);
  }

  lemma TwoInFront<T>(x: T, y: T, s: seq<T>, key: T -> Key, k: Key)
    ensures Having([x] + ([y] + s), key, k) == Match(x, key, k) + (Match(y, key, k) + Having(s, key, k))
  {
    HavingCons(x, [y] + s, key, k);
    HavingCons(y, s, key, k);
  }

  lemma OneIsEmpty<T>(a: seq<T>, b: seq<T>, c: seq<T>)
    requires a == [] || b == []
    ensures a + (b + c) == b + (a + c)
  {}

  lemma {:induction false} InsertHaving<T>(x: T, s: seq<T>, key: T -> Key, k: Key)
    ensures Having(Insert(x, s, key), key, k) == Having([x] + s, key, k)
  {
    if s != [] && Less(key(s[0]), key(x)) {
      InsertHaving(x, s[1..], key, k);
      PassHead(x, s, key, k);
      HavingCons(x, s[1..], key, k);
      TwoInFront(x, s[0], s[1..], key, k);
      assert s == [s[0]] + s[1..];
      if key(s[0]) == k && key(x) == k { LessIrreflexive(k); }
      OneIsEmpty(Match(s[0], key, k), Match(x, key, k), Having(s[1..], key, k));
    }
  }

  /** sorted() returns an ascending rearrangement that keeps ties in order. */
  lemma {:induction false} SortStable<T>(s: seq<T>, key: T -> Key)
    ensures Ascending(Sort(s, key), key)
    ensures forall k :: Having(Sort(s, key), key, k) == Having(s, key, k)
  {
    if s != [] {
      SortStable(s[1..], key);
      InsertAscending(s[0], Sort(s[1..], key), key);
      forall k ensures Having(Sort(s, key), key, k) == Having(s, key, k) {
        InsertHaving(s[0], Sort(s[1..], key), key, k);
        assert ([s[0]] + Sort(s[1..], key))[1..] == Sort(s[1..], key);
      }
    }
  }

  lemma {:induction false} HavingMember<T>(s: seq<T>, key: T -> Key, i: nat)
    requires i < |s|
    ensures Having(s, key, key(s[i])) != []
    ensures i == 0 ==> Having(s, key, key(s[0]))[0] == s[0]
  {
    if i > 0 { HavingMember(s[1..], key, i - 1); }
  }

  lemma {:induction false} HavingSource<T>(s: seq<T>, key: T -> Key, k: Key)
    ensures forall x | x in Having(s, key, k) :: x in s && key(x) == k
  {
    if s != [] { HavingSource(s[1..], key, k); }
  }

  lemma HavingNothing<T>(s: seq<T>, key: T -> Key)
    ensures (forall k :: Having(s, key, k) == []) ==> s == []
  {
    if s != [] { assert Having(s, key, key(s[0])) != []; }
  }

  lemma HavingTail<T>(a: seq<T>, b: seq<T>, key: T -> Key, q: Key)
    requires a != [] && b != [] && a[0] == b[0] && Having(a, key, q) == Having(b, key, q)
    ensures Having(a[1..], key, q) == Having(b[1..], key, q)
  {
    var h := if key(a[0]) == q then [a[0]] else [];
    var x, y := Having(a[1..], key, q), Having(b[1..], key, q);
    assert (h + x)[|h|..] == x && (h + y)[|h|..] == y;
  }

  /** Ascending sequences that agree under every key start alike. */
  lemma HeadsAgree<T>(a: seq<T>, b: seq<T>, key: T -> Key)
    requires Ascending(a, key) && Ascending(b, key) && a != [] && b != []
    requires forall k :: Having(a, key, k) == Having(b, key, k)
    ensures a[0] == b[0]
  {
    var k := key(a[0]);
    HavingMember(a, key, 0);
    HavingSource(b, key, k);
    var i :| 0 <= i < |b| && b[i] == a[0];
    HavingMember(b, key, 0);
    HavingSource(a, key, key(b[0]));
    var j :| 0 <= j < |a| && a[j] == b[0];
    LessTotal(k, key(b[0]));
    assert key(b[0]) == k;
  }

  /** A stable ascending rearrangement is unique. */
  lemma {:induction false} SortedUnique<T>(a: seq<T>, b: seq<T>, key: T -> Key)
    requires Ascending(a, key) && Ascending(b, key)
    requires forall k :: Having(a, key, k) == Having(b, key, k)
    ensures a == b
  {
    if a == [] {
      HavingNothing(b, key);
    } else {
      HavingMember(a, key, 0);
      assert b != [];
      HeadsAgree(a, b, key);
      forall q ensures Having(a[1..], key, q) == Having(b[1..], key, q) { HavingTail(a, b, key, q); }
      SortedUnique(a[1..], b[1..], key);
      assert a == [a[0]] + a[1..] && b == [b[0]] + b[1..];
    }
  }

  lemma SortFixed<T>(s: seq<T>, key: T -> Key)
    requires Ascending(s, key)
    ensures Sort(s, key) == s
  {
    SortStable(s, key);
    SortedUnique(Sort(s, key), s, key);
  }

  // ----- mapping sorted sequences -----

  function Map<T, U>(f: T -> U, s: seq<T>): (r: seq<U>)
    ensures |r| == |s|
    ensures forall i | 0 <= i < |s| :: r[i] == f(s[i])
  {
    if s == [] then [] else [f(s[0])] + Map(f, s[1..])
  }

  lemma {:induction false} HavingNone<T>(s: seq<T>, key: T -> Key, k: Key)
    requires forall x | x in s :: key(x) != k
    ensures Having(s, key, k) == []
  {
    if s != [] {
      assert s[0] in s && forall x | x in s[1..] :: x in s;
      HavingNone(s[1..], key, k);
    }
  }

  /** Elements picked by a key before mapping are those picked by the image key after. */
  lemma {:induction false} MapHaving<T, U>(f: T -> U, s: seq<T>, key: T -> Key, image: U -> Key, k: Key, q: Key)
    requires forall x | x in s :: image(f(x)) == q <==> key(x) == k
    ensures Having(Map(f, s), image, q) == Map(f, Having(s, key, k))
  {
    if s != [] {
      assert s[0] in s && forall x | x in s[1..] :: x in s;
      MapHaving(f, s[1..], key, image, k, q);
      var rest := Having(s[1..], key, k);
      assert Map(f, s)[1..] == Map(f, s[1..]);
      assert ([s[0]] + rest)[1..] == rest;
    }
  }

  lemma MapAscending<T, U>(f: T -> U, s: seq<T>, key: T -> Key, image: U -> Key)
    requires Ascending(s, key) && forall x | x in s :: image(f(x)) == key(x)
    ensures Ascending(Map(f, s), image)
  {
    forall i, j | 0 <= i < j < |s| ensures !Less(image(Map(f, s)[j]), image(Map(f, s)[i])) {
      assert s[i] in s && s[j] in s;
    }
  }

  /** A map that keeps every key commutes with sorting. */
  lemma MapSort<T, U>(f: T -> U, s: seq<T>, key: T -> Key, image: U -> Key)
    requires forall x | x in s :: image(f(x)) == key(x)
    ensures Map(f, Sort(s, key)) == Sort(Map(f, s), image)
  {
    SortStable(s, key);
    SortStable(Map(f, s), image);
    SortElements(s, key);
    MapAscending(f, Sort(s, key), key, image);
    forall k ensures Having(Map(f, Sort(s, key)), image, k) == Having(Sort(Map(f, s), image), image, k) {
      MapHaving(f, Sort(s, key), key, image, k, k);
      MapHaving(f, s, key, image, k, k);
    }
    SortedUnique(Map(f, Sort(s, key)), Sort(Map(f, s), image), image);
  }

  lemma SortElements<T>(s: seq<T>, key: T -> Key)
    ensures forall x | x in Sort(s, key) :: x in s
    ensures forall x | x in s :: x in Sort(s, key)
  {
    forall x | x in Sort(s, key) ensures x in s { assert x in multiset(Sort(s, key)); }
    forall x | x in s ensures x in Sort(s, key) { assert x in multiset(s); }
  }

  /** A stretch may be replaced by one with the same elements under every key. */
  lemma SortAbsorbs<T>(a: seq<T>, x: seq<T>, y: seq<T>, b: seq<T>, key: T -> Key)
    requires forall k :: Having(x, key, k) == Having(y, key, k)
    ensures Sort(a + x + b, key) == Sort(a + y + b, key)
  {
    SortStable(a + x + b, key);
    SortStable(a + y + b, key);
    forall k ensures Having(a + x + b, key, k) == Having(a + y + b, key, k) {
      HavingAppend(a + x, b, key, k);
      HavingAppend(a, x, key, k);
      HavingAppend(a + y, b, key, k);
      HavingAppend(a, y, key, k);
    }
    SortedUnique(Sort(a + x + b, key), Sort(a + y + b, key), key);
  }

  // ----- sorted(set(xs)) -----

  /** The distinct elements of s, each at its last place. */
  function Dedup<T(==)>(s: seq<T>): (r: seq<T>)
    ensures forall x | x in s :: x in r
    ensures forall x | x in r :: x in s
    ensures forall i, j | 0 <= i < j < |r| :: r[i] != r[j]
  {
    if s == [] then []
    else
      var rest := Dedup(s[1..]);
      assert s == [s[0]] + s[1..];
      if s[0] in s[1..] then rest else [s[0]] + rest
  }

  ghost predicate Injective<T(!new)>(key: T -> Key) {
    forall x, y :: key(x) == key(y) ==> x == y
  }

  function SortDistinct<T(==)>(s: seq<T>, key: T -> Key): (r: seq<T>) {
    Sort(Dedup(s), key)
  }

  lemma {:induction false} SortDistinctOrder<T(!new)>(s: seq<T>, key: T -> Key)
    requires Injective(key)
    ensures StrictlyAscending(SortDistinct(s, key), key)
    ensures forall x :: x in SortDistinct(s, key) <==> x in s
  {
    var d := Dedup(s);
    var r := Sort(d, key);
    SortStable(d, key);
    forall x ensures x in r <==> x in s { assert x in multiset(r) <==> x in multiset(d); }
    forall i, j | 0 <= i < j < |r| ensures Less(key(r[i]), key(r[j])) {
      LessTotal(key(r[i]), key(r[j]));
      if r[i] == r[j] {
        TwiceIn(r, i, j);
        OnceIn(d, r[i]);
      }
    }
  }

  lemma TwiceIn<T>(s: seq<T>, i: nat, j: nat)
    requires i < j < |s| && s[i] == s[j]
    ensures multiset(s)[s[i]] >= 2
  {
    assert s == s[..j] + [s[j]] + s[j + 1..];
    assert s[i] in s[..j];
    assert multiset(s) == multiset(s[..j]) + multiset([s[j]]) + multiset(s[j + 1..]);
  }

  lemma OnceIn<T>(s: seq<T>, x: T)
    requires x in s && forall i, j | 0 <= i < j < |s| :: s[i] != s[j]
    ensures multiset(s)[x] == 1
  {
    var i :| 0 <= i < |s| && s[i] == x;
    var l, r := s[..i], s[i + 1..];
    assert s == l + [s[i]] + r;
    assert multiset(s) == multiset(l) + multiset([s[i]]) + multiset(r);
  }

  lemma SameEmptiness<T>(a: seq<T>, b: seq<T>)
    requires forall x :: x in a <==> x in b
    ensures a == [] <==> b == []
  {
    assert a != [] ==> a[0] in a;
    assert b != [] ==> b[0] in b;
  }

  /** Strictly ascending sequences with the same elements are equal. */
  lemma {:induction false} AscendingUnique<T>(a: seq<T>, b: seq<T>, key: T -> Key)
    requires StrictlyAscending(a, key) && StrictlyAscending(b, key)
    requires forall x :: x in a <==> x in b
    ensures a == b
  {
    SameEmptiness(a, b);
    if a != [] {
      assert a[0] in b && b[0] in a;
      var i :| 0 <= i < |b| && b[i] == a[0];
      var j :| 0 <= j < |a| && a[j] == b[0];
      if i != 0 && j != 0 {
        LessTransitive(key(a[0]), key(b[0]), key(a[0]));
        LessIrreflexive(key(a[0]));
      }
      assert a[0] == b[0];
      forall x ensures x in a[1..] <==> x in b[1..] {
        assert x in a <==> x == a[0] || x in a[1..] by { assert a == [a[0]] + a[1..]; }
        assert x in b <==> x == b[0] || x in b[1..] by { assert b == [b[0]] + b[1..]; }
        HeadOnce(a, key);
        HeadOnce(b, key);
      }
      AscendingUnique(a[1..], b[1..], key);
      assert a == [a[0]] + a[1..] && b == [b[0]] + b[1..];
    }
  }

  lemma HeadOnce<T>(a: seq<T>, key: T -> Key)
    requires a != [] && StrictlyAscending(a, key)
    ensures a[0] !in a[1..]
  {
    LessIrreflexive(key(a[0]));
  }

  /** sorted(set(xs)) depends on the elements alone. */
  lemma SortDistinctCanonical<T(!new)>(a: seq<T>, b: seq<T>, key: T -> Key)
    requires Injective(key) && forall x :: x in a <==> x in b
    ensures SortDistinct(a, key) == SortDistinct(b, key)
  {
    SortDistinctOrder(a, key);
    SortDistinctOrder(b, key);
    AscendingUnique(SortDistinct(a, key), SortDistinct(b, key), key);
  }
}
