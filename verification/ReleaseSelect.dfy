/** Choosing a release from its tag, and never a lower one (scripts/bump_codex_pin.py). */
module ReleaseSelect {
  import opened Texts
  import opened Wrappers
  import opened Sorting

  const TAG_PREFIX := Lit("rust-v")
  const REF_PREFIX := Lit("refs/tags/")
  const CANDIDATES := 10
  const PEEL_STEPS := 4

  datatype Version = Version(major: nat, minor: nat, patch: nat)

  /** How Python compares the tuples. */
  predicate Greater(a: Version, b: Version) {
    a.major > b.major || (a.major == b.major && (a.minor > b.minor || (a.minor == b.minor && a.patch > b.patch)))
  }

  // ----- tags -----

  /** rust-v(0|[1-9][0-9]*)\.(0|[1-9][0-9]*)\.(0|[1-9][0-9]*) */
  predicate StableTag(tag: Text) {
    TAG_PREFIX <= tag
    && var pieces := Split(tag[|TAG_PREFIX|..], DOT); |pieces| == 3 && forall i | 0 <= i < 3 :: Numeral(pieces[i])
  }

  predicate Readable(tag: Text)
    requires StableTag(tag)
  {
    var pieces := Split(tag[|TAG_PREFIX|..], DOT);
    forall i | 0 <= i < 3 :: |pieces[i]| <= INT_DIGITS
  }

  /** version_of(tag): no version, or ValueError for a numeral that int() refuses. */
  function VersionOf(tag: Text): Result<Option<Version>, ()> {
    if !StableTag(tag) then Ok(None)
    else if !Readable(tag) then Err(())
    else
      var pieces := Split(tag[|TAG_PREFIX|..], DOT);
      Ok(Some(Version(Number(pieces[0]), Number(pieces[1]), Number(pieces[2]))))
  }

  /** "rust-v{}.{}.{}".format(*version) */
  function TagOf(v: Version): Text {
    TAG_PREFIX + Join([Digits(v.major), Digits(v.minor), Digits(v.patch)], DOT)
  }

  predicate Printable(v: Version) {
    |Digits(v.major)| <= INT_DIGITS && |Digits(v.minor)| <= INT_DIGITS && |Digits(v.patch)| <= INT_DIGITS
  }

  lemma DigitsHaveNoDot(n: nat)
    ensures DOT !in Digits(n) && Numeral(Digits(n)) && Number(Digits(n)) == n
  {
    NumberOfDigits(n);
    assert DOT in Digits(n) ==> IsDigit(DOT);
  }

  /** Printing then parsing gives the version back. */
  lemma VersionOfTag(v: Version)
    ensures StableTag(TagOf(v)) && (Readable(TagOf(v)) <==> Printable(v))
    ensures Printable(v) ==> VersionOf(TagOf(v)) == Ok(Some(v))
  {
    DigitsHaveNoDot(v.major);
    DigitsHaveNoDot(v.minor);
    DigitsHaveNoDot(v.patch);
    var pieces := [Digits(v.major), Digits(v.minor), Digits(v.patch)];
    SplitJoin(pieces, DOT);
    assert TagOf(v)[|TAG_PREFIX|..] == Join(pieces, DOT);
    var split := Split(TagOf(v)[|TAG_PREFIX|..], DOT);
    assert split[0] == Digits(v.major) && split[1] == Digits(v.minor) && split[2] == Digits(v.patch);
  }

  /** A stable tag is the tag of one version, readable or not. */
  lemma StableIsTag(tag: Text) returns (v: Version)
    requires StableTag(tag)
    ensures TagOf(v) == tag && VersionOf(tag) == if Printable(v) then Ok(Some(v)) else Err(())
  {
    var pieces := Split(tag[|TAG_PREFIX|..], DOT);
    DigitsOfNumber(pieces[0]);
    DigitsOfNumber(pieces[1]);
    DigitsOfNumber(pieces[2]);
    JoinSplit(tag[|TAG_PREFIX|..], DOT);
    assert pieces == [pieces[0], pieces[1], pieces[2]];
    assert tag == TAG_PREFIX + tag[|TAG_PREFIX|..];
    v := Version(Number(pieces[0]), Number(pieces[1]), Number(pieces[2]));
  }

  /** Parsing then printing gives the tag back. */
  lemma TagOfVersion(tag: Text, v: Version)
    requires VersionOf(tag) == Ok(Some(v))
    ensures TagOf(v) == tag && Printable(v)
  {
    var u := StableIsTag(tag);
  }

  /** Distinct stable tags never share a version. */
  lemma VersionsAreDistinct(a: Text, b: Text, v: Version)
    requires VersionOf(a) == Ok(Some(v)) && VersionOf(b) == Ok(Some(v))
    ensures a == b
  {
    TagOfVersion(a, v);
    TagOfVersion(b, v);
  }

  // ----- stable_tags -----

  datatype Target = Target(kind: Text, sha: Text)

  datatype Ref = Ref(name: Text, target: Target)

  /** ref.removeprefix("refs/tags/") */
  function TagName(ref: Ref): Text {
    if REF_PREFIX <= ref.name then ref.name[|REF_PREFIX|..] else ref.name
  }

  /** The dict of versions, in the order they were first seen; a later reference replaces an earlier target. */
  datatype Tags = Tags(order: seq<Version>, targets: map<Version, Target>) {
    ghost predicate Valid() {
      && (forall v :: v in order <==> v in targets)
      && forall i, j | 0 <= i < j < |order| :: order[i] != order[j]
    }
  }

  /** How a reference's version is read; this program's way is `RefVersion`. */
  type Reading = Ref -> Result<Option<Version>, ()>

  function RefVersion(ref: Ref): Result<Option<Version>, ()> { VersionOf(TagName(ref)) }

  /** The reference that decides a version's target: the last one of its tag. */
  ghost predicate LastRef(read: Reading, refs: seq<Ref>, v: Version, t: Target) {
    exists i | 0 <= i < |refs| :: LastAt(read, refs, v, t, i)
  }

  ghost predicate LastAt(read: Reading, refs: seq<Ref>, v: Version, t: Target, i: nat)
    requires i < |refs|
  {
    && read(refs[i]) == Ok(Some(v)) && refs[i].target == t
    && forall j | i < j < |refs| :: read(refs[j]) != Ok(Some(v))
  }

  predicate AllReadable(read: Reading, refs: seq<Ref>) {
    forall i | 0 <= i < |refs| :: read(refs[i]).Ok?
  }

  /** Some reference names the version. */
  ghost predicate Tagged(read: Reading, refs: seq<Ref>, v: Version) {
    exists i | 0 <= i < |refs| :: read(refs[i]) == Ok(Some(v))
  }

  /** The dict holds every tagged version with the target of its last reference. */
  ghost predicate TagsOf(read: Reading, refs: seq<Ref>, tags: Tags) {
    && tags.Valid() && (forall v :: v in tags.targets <==> Tagged(read, refs, v))
    && forall v | v in tags.targets :: LastRef(read, refs, v, tags.targets[v])
  }

  method StableTags(read: Reading, refs: seq<Ref>) returns (r: Option<Tags>)
    ensures r.Some? <==> AllReadable(read, refs)
    ensures r.Some? ==> TagsOf(read, refs, r.value)
  {
    var tags := Tags([], map[]);
    for i := 0 to |refs|
      invariant AllReadable(read, refs[..i]) && TagsOf(read, refs[..i], tags)
    {
      var version := read(refs[i]);
      if version.Err? {
        return None;
      }
      assert refs[..i + 1] == refs[..i] + [refs[i]];
      if version.value.Some? {
        var v := version.value.value;
        AddTag(read, refs[..i], tags, refs[i], v);
        tags := WithTag(tags, v, refs[i].target);
      } else {
        PassOver(read, refs[..i], tags, refs[i]);
      }
    }
    assert refs[..|refs|] == refs;
    r := Some(tags);
  }

  /** tags[v] = t */
  function WithTag(tags: Tags, v: Version, t: Target): Tags {
    Tags(if v in tags.targets then tags.order else tags.order + [v], tags.targets[v := t])
  }

  lemma TaggedMore(read: Reading, refs: seq<Ref>, ref: Ref, v: Version)
    ensures Tagged(read, refs + [ref], v) <==> Tagged(read, refs, v) || read(ref) == Ok(Some(v))
  {
    var more := refs + [ref];
    if Tagged(read, refs, v) {
      var i :| 0 <= i < |refs| && read(refs[i]) == Ok(Some(v));
      assert more[i] == refs[i];
    }
    assert more[|refs|] == ref;
  }

  lemma AddTag(read: Reading, refs: seq<Ref>, tags: Tags, ref: Ref, v: Version)
    requires TagsOf(read, refs, tags) && read(ref) == Ok(Some(v))
    ensures TagsOf(read, refs + [ref], WithTag(tags, v, ref.target))
  {
    var more, r := refs + [ref], WithTag(tags, v, ref.target);
    forall w ensures w in r.targets <==> Tagged(read, more, w) { TaggedMore(read, refs, ref, w); }
    forall w | w in r.targets ensures LastRef(read, more, w, r.targets[w]) {
      LastRefMore(read, refs, ref, w, r.targets[w]);
    }
  }

  lemma PassOver(read: Reading, refs: seq<Ref>, tags: Tags, ref: Ref)
    requires TagsOf(read, refs, tags) && read(ref) == Ok(None)
    ensures TagsOf(read, refs + [ref], tags)
  {
    forall w ensures w in tags.targets <==> Tagged(read, refs + [ref], w) { TaggedMore(read, refs, ref, w); }
    forall w | w in tags.targets ensures LastRef(read, refs + [ref], w, tags.targets[w]) {
      LastRefMore(read, refs, ref, w, tags.targets[w]);
    }
  }

  lemma LastRefMore(read: Reading, refs: seq<Ref>, ref: Ref, v: Version, t: Target)
    ensures read(ref) == Ok(Some(v)) && ref.target == t ==> LastRef(read, refs + [ref], v, t)
    ensures read(ref) != Ok(Some(v)) && LastRef(read, refs, v, t) ==> LastRef(read, refs + [ref], v, t)
  {
    var more := refs + [ref];
    assert more[|refs|] == ref;
    if read(ref) != Ok(Some(v)) && LastRef(read, refs, v, t) {
      var k :| 0 <= k < |refs| && LastAt(read, refs, v, t, k);
      assert LastAt(read, more, v, t, k);
    } else if read(ref) == Ok(Some(v)) && ref.target == t {
      assert LastAt(read, more, v, t, |refs|);
    }
  }

  // ----- select -----

  /** A release page: published and stable, missing or a draft or prerelease, or an error that is raised. */
  datatype Page = Released(release: Text) | Unpublished | Broken

  datatype Selection = Chosen(version: Version, release: Text, target: Target) | NotSelected

  /** Greater versions first. */
  function Descending(v: Version): Key { Triple(-(v.major as int), -(v.minor as int), -(v.patch as int)) }

  function Triple(a: int, b: int, c: int): Key { [a, b, c] }

  lemma PrependOrder(a: int, x: Key, b: int, y: Key)
    ensures Less([a] + x, [b] + y) <==> a < b || (a == b && Less(x, y))
  {
    assert ([a] + x)[1..] == x && ([b] + y)[1..] == y;
  }

  lemma TripleOrder(a: int, b: int, c: int, d: int, e: int, f: int)
    ensures Less(Triple(a, b, c), Triple(d, e, f)) <==> a < d || (a == d && (b < e || (b == e && c < f)))
  {
    PrependOrder(a, [b, c], d, [e, f]);
    PrependOrder(b, [c], e, [f]);
    PrependOrder(c, [], f, []);
    assert [a] + [b, c] == Triple(a, b, c) && [d] + [e, f] == Triple(d, e, f);
    assert [b] + [c] == [b, c] && [e] + [f] == [e, f];
  }

  lemma DescendingOrder(a: Version, b: Version)
    ensures Less(Descending(a), Descending(b)) <==> Greater(a, b)
  {
    TripleOrder(-(a.major as int), -(a.minor as int), -(a.patch as int), -(b.major as int), -(b.minor as int), -(b.patch as int));
  }

  /** sorted(tags, reverse=True) */
  function Greatest(tags: Tags): (r: seq<Version>)
    ensures |r| == |tags.order|
  {
    Sort(tags.order, Descending)
  }

  function Candidates(tags: Tags): seq<Version> {
    var all := Greatest(tags);
    all[..if |all| < CANDIDATES then |all| else CANDIDATES]
  }

  lemma GreatestOrder(tags: Tags)
    requires tags.Valid()
    ensures forall v :: v in Greatest(tags) <==> v in tags.targets
    ensures forall i, j | 0 <= i < j < |Greatest(tags)| :: Greater(Greatest(tags)[i], Greatest(tags)[j])
  {
    var r := Greatest(tags);
    SortElements(tags.order, Descending);
    SortStable(tags.order, Descending);
    forall v ensures v in r <==> v in tags.targets { assert v in tags.order <==> v in tags.targets; }
    forall i, j | 0 <= i < j < |r| ensures Greater(r[i], r[j]) {
      if r[i] == r[j] {
        assert r[i] in tags.order;
        TwiceIn(r, i, j);
        OnceIn(tags.order, r[i]);
      }
      DescendingOrder(r[j], r[i]);
    }
  }

  /** The outcome of trying an order of versions one by one. */
  ghost predicate FirstOf(order: seq<Version>, tags: Tags, page: Text -> Page, r: Selection, i: nat) {
    && i <= |order| && (forall j | 0 <= j < i :: page(TagOf(order[j])) == Unpublished)
    && match r
       case NotSelected => i < |order| ==> page(TagOf(order[i])) == Broken
       case Chosen(v, release, target) =>
         i < |order| && v == order[i] && page(TagOf(v)) == Released(release) && v in tags.targets && target == tags.targets[v]
  }

  /** The loop of select over an order of versions; it stops at the first page that is not plainly unpublished. */
  method FirstPublished(order: seq<Version>, tags: Tags, page: Text -> Page) returns (r: Selection, ghost i: nat)
    requires forall v | v in order :: v in tags.targets
    ensures FirstOf(order, tags, page, r, i)
    ensures r.Chosen? ==> r.version in order && page(TagOf(r.version)) == Released(r.release)
  {
    for k := 0 to |order|
      invariant forall j | 0 <= j < k :: page(TagOf(order[j])) == Unpublished
    {
      var answer := page(TagOf(order[k]));
      if answer.Released? {
        return Chosen(order[k], answer.release, tags.targets[order[k]]), k;
      }
      if answer.Broken? {
        return NotSelected, k;
      }
    }
    return NotSelected, |order|;
  }

  /**
    The chosen release is published and among the ten greatest tags, and every greater stable tag was tried
    and found unpublished.
   */
  ghost predicate IsGreatestPublished(tags: Tags, page: Text -> Page, s: Selection) {
    && s.Chosen? && s.version in tags.targets && s.target == tags.targets[s.version]
    && page(TagOf(s.version)) == Released(s.release) && s.version in Candidates(tags)
    && forall v | v in tags.targets && Greater(v, s.version) :: v in Candidates(tags) && page(TagOf(v)) == Unpublished
  }

  lemma CandidateAt(tags: Tags, i: nat)
    requires i < |Candidates(tags)|
    ensures Candidates(tags)[i] == Greatest(tags)[i]
  {}

  lemma EarlierWhenGreater(all: seq<Version>, v: Version, i: nat) returns (m: nat)
    requires forall x, y | 0 <= x < y < |all| :: Greater(all[x], all[y])
    requires i < |all| && v in all && Greater(v, all[i])
    ensures m < i && all[m] == v
  {
    m :| 0 <= m < |all| && all[m] == v;
  }

  lemma GreaterIsEarlier(tags: Tags, v: Version, i: nat) returns (m: nat)
    requires tags.Valid() && i < |Candidates(tags)| && v in tags.targets && Greater(v, Candidates(tags)[i])
    ensures m < i && Candidates(tags)[m] == v
  {
    GreatestOrder(tags);
    CandidateAt(tags, i);
    m := EarlierWhenGreater(Greatest(tags), v, i);
    CandidateAt(tags, m);
  }

  /** What the loop gives over the ten greatest tags is the greatest published one, and nothing only if there is none. */
  lemma SelectionIsGreatest(tags: Tags, page: Text -> Page, r: Selection, i: nat)
    requires tags.Valid() && FirstOf(Candidates(tags), tags, page, r, i)
    ensures r.Chosen? ==> IsGreatestPublished(tags, page, r)
    ensures r.NotSelected? ==> forall s :: !IsGreatestPublished(tags, page, s)
  {
    var order := Candidates(tags);
    if r.Chosen? {
      forall v | v in tags.targets && Greater(v, r.version) ensures v in order && page(TagOf(v)) == Unpublished {
        var m := GreaterIsEarlier(tags, v, i);
      }
    } else {
      forall s ensures !IsGreatestPublished(tags, page, s) {
        if IsGreatestPublished(tags, page, s) { NothingGreater(tags, page, s, i); }
      }
    }
  }

  /** Where the greatest published release stands; everything tried before it is unpublished. */
  lemma GreatestPublishedAt(tags: Tags, page: Text -> Page, s: Selection, i: nat) returns (k: nat)
    requires tags.Valid() && IsGreatestPublished(tags, page, s)
    ensures k < |Candidates(tags)| && Candidates(tags)[k] == s.version
    ensures i < k ==> page(TagOf(Candidates(tags)[i])) == Unpublished
  {
    var order := Candidates(tags);
    k :| 0 <= k < |order| && order[k] == s.version;
    if i < k {
      GreatestOrder(tags);
      CandidateAt(tags, k);
      CandidateAt(tags, i);
      assert Greater(order[i], s.version) && order[i] in Greatest(tags);
    }
  }

  lemma NothingGreater(tags: Tags, page: Text -> Page, s: Selection, i: nat)
    requires tags.Valid() && FirstOf(Candidates(tags), tags, page, NotSelected, i)
    ensures !IsGreatestPublished(tags, page, s)
  {
    if IsGreatestPublished(tags, page, s) {
      var k := GreatestPublishedAt(tags, page, s, i);
    }
  }

  /** select(get, None) */
  method SelectGreatest(tags: Tags, page: Text -> Page) returns (r: Selection, ghost i: nat)
    requires tags.Valid()
    ensures FirstOf(Candidates(tags), tags, page, r, i)
    ensures r.Chosen? ==> IsGreatestPublished(tags, page, r)
    ensures r.NotSelected? ==> forall s :: !IsGreatestPublished(tags, page, s)
  {
    GreatestOrder(tags);
    forall v | v in Candidates(tags) ensures v in tags.targets { assert v in Greatest(tags); }
    r, i := FirstPublished(Candidates(tags), tags, page);
    SelectionIsGreatest(tags, page, r, i);
  }

  /** select(get, requested): exactly the requested version, if it is tagged and published. */
  method SelectRequested(tags: Tags, requested: Text, page: Text -> Page) returns (r: Selection)
    requires tags.Valid()
    ensures r.Chosen? <==> Requestable(tags, requested, page)
    ensures r.Chosen? ==> TagOf(r.version) == TAG_PREFIX + requested && page(TAG_PREFIX + requested) == Released(r.release)
    ensures r.Chosen? ==> r.version in tags.targets && r.target == tags.targets[r.version]
  {
    var version := VersionOf(TAG_PREFIX + requested);
    if version.Err? || version.value.None? || version.value.value !in tags.targets {
      return NotSelected;
    }
    TagOfVersion(TAG_PREFIX + requested, version.value.value);
    ghost var i;
    var order := [version.value.value];
    r, i := FirstPublished(order, tags, page);
    assert order[0] == version.value.value;
  }

  predicate Requestable(tags: Tags, requested: Text, page: Text -> Page) {
    var version := VersionOf(TAG_PREFIX + requested);
    && version.Ok? && version.value.Some? && version.value.value in tags.targets
    && page(TAG_PREFIX + requested).Released?
  }

  // ----- tags and references, character by character -----

  /** "rust-v" and three numerals between dots. */
  function VersionText(v: Version): Text {
    Lit("rust-v") + Digits(v.major) + [DOT] + Digits(v.minor) + [DOT] + Digits(v.patch)
  }

  /** No numeral is longer than int() converts. */
  predicate Convertible(v: Version) {
    |Digits(v.major)| <= 4300 && |Digits(v.minor)| <= 4300 && |Digits(v.patch)| <= 4300
  }

  /** The reference is to the version's own tag, its full name or the tag alone. */
  predicate Names(ref: Ref, v: Version) {
    ref.name == Lit("refs/tags/") + VersionText(v) || ref.name == VersionText(v)
  }

  lemma JoinThree(p: seq<Text>)
    requires |p| == 3
    ensures Join(p, DOT) == p[0] + [DOT] + p[1] + [DOT] + p[2]
  {
    assert Join(p[1..], DOT) == p[1] + [DOT] + p[2];
  }

  lemma TagIsText(v: Version)
    ensures TagOf(v) == VersionText(v)
  {
    JoinThree([Digits(v.major), Digits(v.minor), Digits(v.patch)]);
  }

  lemma NamesItsTag(ref: Ref, v: Version)
    ensures Names(ref, v) <==> TagName(ref) == TagOf(v)
  {
    TagIsText(v);
    var prefix, tag := Lit("refs/tags/"), VersionText(v);
    assert tag[1] == 117 && prefix[1] == 101;
    if prefix <= ref.name {
      assert ref.name == prefix + ref.name[|prefix|..];
      assert ref.name[1] == prefix[1];
    }
    assert (prefix + tag)[|prefix|..] == tag;
  }

  /** A reference carries exactly the version that it names. */
  lemma RefVersionIff(ref: Ref, v: Version)
    ensures RefVersion(ref) == Ok(Some(v)) <==> Names(ref, v) && Convertible(v)
  {
    NamesItsTag(ref, v);
    if RefVersion(ref) == Ok(Some(v)) { TagOfVersion(TagName(ref), v); }
    VersionOfTag(v);
  }

  /** A reference is refused exactly when it names a version with a numeral that int() refuses. */
  lemma RefRefusedIff(ref: Ref)
    ensures RefVersion(ref).Err? <==> exists v :: Names(ref, v) && !Convertible(v)
  {
    if RefVersion(ref).Err? {
      var v := StableIsTag(TagName(ref));
      NamesItsTag(ref, v);
    }
    forall v | Names(ref, v) && !Convertible(v) ensures RefVersion(ref).Err? {
      NamesItsTag(ref, v);
      VersionOfTag(v);
    }
  }

  /** What may be requested. */
  lemma RequestableIff(tags: Tags, requested: Text, page: Text -> Page)
    ensures Requestable(tags, requested, page) <==> exists v ::
      Lit("rust-v") + requested == VersionText(v) && Convertible(v) && v in tags.targets && page(VersionText(v)).Released?
  {
    var tag := Lit("rust-v") + requested;
    if Requestable(tags, requested, page) {
      var v := VersionOf(tag).value.value;
      TagOfVersion(tag, v);
      TagIsText(v);
    }
    forall v | tag == VersionText(v) && Convertible(v) ensures VersionOf(tag) == Ok(Some(v)) {
      TagIsText(v);
      VersionOfTag(v);
    }
  }

  // ----- select over the listed references -----

  ghost predicate Carried(refs: seq<Ref>, v: Version) {
    Convertible(v) && exists i | 0 <= i < |refs| :: Names(refs[i], v)
  }

  /** The target of the last reference to this version. */
  ghost predicate LastTarget(refs: seq<Ref>, v: Version, t: Target) {
    exists i | 0 <= i < |refs| :: Names(refs[i], v) && refs[i].target == t && forall j | i < j < |refs| :: !Names(refs[j], v)
  }

  /** All the versions that are referred to, the greatest first. */
  ghost predicate Ranking(refs: seq<Ref>, order: seq<Version>) {
    (forall v :: v in order <==> Carried(refs, v)) && forall i, j | 0 <= i < j < |order| :: Greater(order[i], order[j])
  }

  /** Down the ten greatest: the first page that is not plainly unpublished decides. */
  ghost predicate ChosenOf(refs: seq<Ref>, order: seq<Version>, page: Text -> Page, s: Selection, i: nat) {
    && i <= 10 && i <= |order| && (forall j | 0 <= j < i :: page(VersionText(order[j])) == Unpublished)
    && match s
       case NotSelected => i < 10 && i < |order| ==> page(VersionText(order[i])) == Broken
       case Chosen(v, release, target) =>
         i < 10 && i < |order| && v == order[i] && page(VersionText(v)) == Released(release) && LastTarget(refs, v, target)
  }

  lemma LastRefIsTarget(refs: seq<Ref>, v: Version, t: Target)
    requires LastRef(RefVersion, refs, v, t)
    ensures LastTarget(refs, v, t)
  {
    var i :| 0 <= i < |refs| && LastAt(RefVersion, refs, v, t, i);
    forall j | i <= j < |refs| ensures RefVersion(refs[j]) == Ok(Some(v)) <==> Names(refs[j], v) {
      RefVersionIff(refs[i], v);
      RefVersionIff(refs[j], v);
    }
  }

  lemma GreatestIsRanking(refs: seq<Ref>, tags: Tags)
    requires TagsOf(RefVersion, refs, tags)
    ensures Ranking(refs, Greatest(tags))
  {
    GreatestOrder(tags);
    forall v ensures v in Greatest(tags) <==> Carried(refs, v) {
      forall i | 0 <= i < |refs| ensures RefVersion(refs[i]) == Ok(Some(v)) <==> Names(refs[i], v) && Convertible(v) {
        RefVersionIff(refs[i], v);
      }
      assert v in tags.targets <==> Tagged(RefVersion, refs, v);
    }
  }

  lemma FirstIsChosen(refs: seq<Ref>, tags: Tags, page: Text -> Page, s: Selection, i: nat)
    requires TagsOf(RefVersion, refs, tags) && FirstOf(Candidates(tags), tags, page, s, i)
    ensures ChosenOf(refs, Greatest(tags), page, s, i)
  {
    var order := Greatest(tags);
    forall j | 0 <= j < |Candidates(tags)| ensures TagOf(order[j]) == VersionText(order[j]) && Candidates(tags)[j] == order[j] {
      TagIsText(order[j]);
      CandidateAt(tags, j);
    }
    if s.Chosen? { LastRefIsTarget(refs, s.version, s.target); }
  }

  /**
    select(get, None) on a listing: refused exactly when a reference is to a version with a numeral that cannot
    be converted; otherwise the ten greatest versions referred to are tried in order, and the chosen one comes
    with the target of its last reference.
   */
  method SelectListed(refs: seq<Ref>, page: Text -> Page) returns (r: Option<Selection>, ghost order: seq<Version>, ghost i: nat)
    ensures r.None? <==> exists k, v | 0 <= k < |refs| :: Names(refs[k], v) && !Convertible(v)
    ensures r.Some? ==> Ranking(refs, order) && ChosenOf(refs, order, page, r.value, i)
  {
    order, i := [], 0;
    forall k | 0 <= k < |refs| ensures RefVersion(refs[k]).Err? <==> exists v :: Names(refs[k], v) && !Convertible(v) {
      RefRefusedIff(refs[k]);
    }
    var tags := StableTags(RefVersion, refs);
    if tags.None? {
      return None, order, i;
    }
    var s;
    s, i := SelectGreatest(tags.value, page);
    order := Greatest(tags.value);
    GreatestIsRanking(refs, tags.value);
    FirstIsChosen(refs, tags.value, page, s, i);
    r := Some(s);
  }

  // ----- peel -----

  /** The object reached through n tag objects; `next` reads the object a tag object names. */
  function Peeled(target: Target, next: Text -> Option<Target>, n: nat): Option<Target> {
    if n == 0 then Some(target)
    else
      var t :- Peeled(target, next, n - 1);
      if t.kind == Lit("tag") then next(t.sha) else None
  }

  /** peel(target): the commit reached through at most three annotated tag objects. */
  method Peel(target: Target, next: Text -> Option<Target>) returns (r: Option<Text>)
    ensures forall sha :: r == Some(sha) <==> exists n | 0 <= n < PEEL_STEPS :: Peeled(target, next, n) == Some(Target(Lit("commit"), sha))
  {
    CommitIsNoTag();
    var current := target;
    for i := 0 to PEEL_STEPS
      invariant Peeled(target, next, i) == Some(current)
      invariant forall n | 0 <= n < i :: Peeled(target, next, n).Some? && Peeled(target, next, n).value.kind == Lit("tag")
    {
      if current.kind == Lit("commit") {
        forall n | i < n < PEEL_STEPS ensures Peeled(target, next, n) == None { StaysNone(target, next, i + 1, n); }
        return Some(current.sha);
      }
      if current.kind != Lit("tag") {
        forall n | i < n < PEEL_STEPS ensures Peeled(target, next, n) == None { StaysNone(target, next, i + 1, n); }
        return None;
      }
      var named := next(current.sha);
      if named.None? {
        forall n | i < n < PEEL_STEPS ensures Peeled(target, next, n) == None { StaysNone(target, next, i + 1, n); }
        return None;
      }
      current := named.value;
    }
    return None;
  }

  lemma CommitIsNoTag()
    ensures Lit("commit") != Lit("tag")
  {
    assert |Lit("commit")| == 6 && |Lit("tag")| == 3;
  }

  lemma {:induction false} StaysNone(target: Target, next: Text -> Option<Target>, i: nat, n: nat)
    requires i <= n && Peeled(target, next, i) == None
    ensures Peeled(target, next, n) == None
  {
    if i < n { StaysNone(target, next, i, n - 1); }
  }

  // ----- bump -----

  datatype Decision = Downgrade | DifferentBytes | Unreadable | Keep | Rewrite

  /**
    bump's checks on the two versions and pins: a rewrite is only ever to a strictly greater stable version,
    and the pinned version again is only ever a no-op.
   */
  method Decide<Pin(==)>(releaseTag: Text, pinned: Text, next: Pin, current: Pin) returns (d: Decision)
    ensures d == Rewrite <==> next != current && exists now, was :: Moves(releaseTag, pinned, now, was) && Greater(now, was)
    ensures d == Keep <==> next == current && exists now, was :: Moves(releaseTag, pinned, now, was) && !Greater(was, now)
    ensures d == DifferentBytes <==> next != current && exists now :: Moves(releaseTag, pinned, now, now)
  {
    var now, before := VersionOf(releaseTag), VersionOf(TAG_PREFIX + pinned);
    if now.Err? || before.Err? {
      return Unreadable;
    }
    if now.value.None? || before.value.None? || Greater(before.value.value, now.value.value) {
      return Downgrade;
    }
    assert Moves(releaseTag, pinned, now.value.value, before.value.value);
    if now == before && next != current {
      return DifferentBytes;
    }
    d := if next != current then Rewrite else Keep;
  }

  /** From the pinned version to the release's. */
  ghost predicate Moves(releaseTag: Text, pinned: Text, now: Version, was: Version) {
    VersionOf(releaseTag) == Ok(Some(now)) && VersionOf(TAG_PREFIX + pinned) == Ok(Some(was))
  }

  /** The tags of the two versions, character by character. */
  lemma MovesIff(releaseTag: Text, pinned: Text, now: Version, was: Version)
    ensures Moves(releaseTag, pinned, now, was) <==>
      && releaseTag == VersionText(now) && Convertible(now) && Lit("rust-v") + pinned == VersionText(was) && Convertible(was)
  {
    TagIsText(now);
    TagIsText(was);
    VersionOfTag(now);
    VersionOfTag(was);
    if Moves(releaseTag, pinned, now, was) {
      TagOfVersion(releaseTag, now);
      TagOfVersion(TAG_PREFIX + pinned, was);
    }
  }
}
