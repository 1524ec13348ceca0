/**
  What a report on the virtual machine says, member by member, and which verdict it gets
  (scripts/m8_vm_address.py, _parse).
 */
module AddressReport {
  import opened Texts
  import opened Wrappers
  import opened Json
  import opened CanonicalJson
  import opened VmAddress

  // ----- addresses -----

  /** Four decimal octets between dots. */
  function Dotted(a: nat, b: nat, c: nat, d: nat): Text {
    Digits(a) + [DOT] + Digits(b) + [DOT] + Digits(c) + [DOT] + Digits(d)
  }

  predicate Octets(a: nat, b: nat, c: nat, d: nat) { a <= 255 && b <= 255 && c <= 255 && d <= 255 }

  /** An IPv4 address in its one accepted spelling. */
  ghost predicate DottedQuad(t: Text) {
    exists a: nat, b: nat, c: nat, d: nat :: Octets(a, b, c, d) && t == Dotted(a, b, c, d)
  }

  /** 10.*, 172.16.* to 172.31.* and 192.168.*, as in section 3 of RFC 1918. */
  predicate PrivateBlock(a: nat, b: nat) { a == 10 || (a == 172 && 16 <= b <= 31) || (a == 192 && b == 168) }

  ghost predicate PrivateQuad(t: Text) {
    exists a: nat, b: nat, c: nat, d: nat :: Octets(a, b, c, d) && PrivateBlock(a, b) && t == Dotted(a, b, c, d)
  }

  lemma JoinFour(p: seq<Text>)
    requires |p| == 4
    ensures Join(p, DOT) == p[0] + [DOT] + p[1] + [DOT] + p[2] + [DOT] + p[3]
  {
    var two, three := p[1..][1..], p[1..][1..][1..];
    assert Join(three, DOT) == p[3] && Join(two, DOT) == p[2] + [DOT] + p[3];
    assert Join(p[1..], DOT) == p[1] + [DOT] + Join(two, DOT);
  }

  /** A decimal octet has at most three digits. */
  lemma OctetDigits(n: nat)
    requires n <= 255
    ensures IsOctet(Digits(n)) && Number(Digits(n)) == n && DOT !in Digits(n)
  {
    NumberOfDigits(n);
    if n >= 10 {
      assert |Digits(n)| == |Digits(n / 10)| + 1;
      if n >= 100 { assert |Digits(n / 10)| == |Digits(n / 10 / 10)| + 1 && n / 10 / 10 < 10; }
    }
    assert DOT in Digits(n) ==> IsDigit(DOT);
  }

  lemma DottedIsV4(a: nat, b: nat, c: nat, d: nat)
    requires Octets(a, b, c, d)
    ensures var t := Dotted(a, b, c, d);
      IsV4(t) && Octet(t, 0) == a && Octet(t, 1) == b && Octet(t, 2) == c && Octet(t, 3) == d
  {
    var p := [Digits(a), Digits(b), Digits(c), Digits(d)];
    OctetDigits(a);
    OctetDigits(b);
    OctetDigits(c);
    OctetDigits(d);
    JoinFour(p);
    SplitJoin(p, DOT);
  }

  lemma V4IsDotted(t: Text)
    requires IsV4(t)
    ensures Octets(Octet(t, 0), Octet(t, 1), Octet(t, 2), Octet(t, 3))
    ensures t == Dotted(Octet(t, 0), Octet(t, 1), Octet(t, 2), Octet(t, 3))
  {
    V4Canonical(t);
    JoinFour([Digits(Octet(t, 0)), Digits(Octet(t, 1)), Digits(Octet(t, 2)), Digits(Octet(t, 3))]);
  }

  lemma QuadIffV4(t: Text)
    ensures DottedQuad(t) <==> IsV4(t)
  {
    if IsV4(t) { V4IsDotted(t); }
    if DottedQuad(t) {
      var a: nat, b: nat, c: nat, d: nat :| Octets(a, b, c, d) && t == Dotted(a, b, c, d);
      DottedIsV4(a, b, c, d);
    }
  }

  lemma QuadIffPrivate(t: Text)
    ensures PrivateQuad(t) <==> IsPrivate(t)
  {
    if IsPrivate(t) {
      V4IsDotted(t);
      PrivateOctets(t);
    }
    if PrivateQuad(t) {
      var a: nat, b: nat, c: nat, d: nat :| Octets(a, b, c, d) && PrivateBlock(a, b) && t == Dotted(a, b, c, d);
      DottedIsV4(a, b, c, d);
      PrivateOctets(t);
    }
  }

  // ----- reports -----

  /** The bytes are UTF-8 for this JSON value, in which no object repeats a key. */
  ghost predicate Says(source: Text, w: World, v: Value) {
    w.decodeUtf8(source).Some? && Loads(w.decodeUtf8(source).value, w.recursion) == Some(v) && UniqueKeys(v)
  }

  /** An object of exactly these three members, in any order. */
  ghost predicate IsReport(source: Text, w: World, name: Value, state: Value, addresses: Value) {
    exists fields :: Says(source, w, Obj(fields)) && ThreeMembers(fields, name, state, addresses)
  }

  predicate ThreeMembers(fields: seq<Field>, name: Value, state: Value, addresses: Value) {
    && |fields| == 3 && Field(Lit("name"), name) in fields && Field(Lit("state"), state) in fields
    && Field(Lit("addresses"), addresses) in fields
  }

  /** At most 64 strings, none over 64 characters, each an IPv4 or an IPv6 address. */
  ghost predicate Listing(addresses: Value, w: World) {
    && addresses.Arr? && |addresses.items| <= 64
    && forall v | v in addresses.items :: v.Str? && |v.s| <= 64 && (DottedQuad(v.s) || w.isV6(v.s))
  }

  ghost predicate PrivateOne(addresses: Value, a: Text) {
    addresses.Arr? && Str(a) in addresses.items && PrivateQuad(a)
  }

  /** A report on the running machine with such a listing. */
  ghost predicate RunningReport(source: Text, w: World, addresses: Value) {
    IsReport(source, w, Str(Lit("constructicon-m8")), Str(Lit("Running")), addresses) && Listing(addresses, w)
  }

  lemma ThreeNamesDiffer()
    ensures Lit("name") != Lit("state") && Lit("name") != Lit("addresses") && Lit("state") != Lit("addresses")
  {
    assert |Lit("name")| == 4 && |Lit("state")| == 5 && |Lit("addresses")| == 9;
  }

  lemma MemberFound(fields: seq<Field>, name: Text, value: Value)
    requires DistinctNames(fields) && Field(name, value) in fields
    ensures Lookup(fields, name) == Some(value)
  {
    var i :| 0 <= i < |fields| && fields[i] == Field(name, value);
    assert name in Names(fields);
    var j :| 0 <= j < |fields| && fields[j] == Field(name, Lookup(fields, name).value);
  }

  lemma ThreeLookups(fields: seq<Field>, name: Value, state: Value, addresses: Value)
    requires DistinctNames(fields) && ThreeMembers(fields, name, state, addresses)
    ensures Lookup(fields, Lit("name")) == Some(name) && Lookup(fields, Lit("state")) == Some(state)
    ensures Lookup(fields, Lit("addresses")) == Some(addresses)
    ensures Names(fields) == {Lit("name"), Lit("state"), Lit("addresses")}
  {
    ThreeNamesDiffer();
    MemberFound(fields, Lit("name"), name);
    MemberFound(fields, Lit("state"), state);
    MemberFound(fields, Lit("addresses"), addresses);
    var i :| 0 <= i < 3 && fields[i] == Field(Lit("name"), name);
    var j :| 0 <= j < 3 && fields[j] == Field(Lit("state"), state);
    var k :| 0 <= k < 3 && fields[k] == Field(Lit("addresses"), addresses);
    forall n ensures n in Names(fields) <==> n in {Lit("name"), Lit("state"), Lit("addresses")} {
      assert n in Names(fields) <==> n == fields[0].name || n == fields[1].name || n == fields[2].name;
    }
  }

  lemma {:induction false} DistinctCount(fields: seq<Field>)
    requires DistinctNames(fields)
    ensures |Names(fields)| == |fields|
  {
    if fields != [] {
      var rest := fields[1..];
      DistinctCount(rest);
      assert fields == [fields[0]] + rest;
      assert Names(fields) == Names(rest) + {fields[0].name};
      assert fields[0].name !in Names(rest);
    }
  }

  lemma NamesMakeReport(fields: seq<Field>) returns (name: Value, state: Value, addresses: Value)
    requires DistinctNames(fields) && Names(fields) == {Lit("name"), Lit("state"), Lit("addresses")}
    ensures ThreeMembers(fields, name, state, addresses)
  {
    ThreeNamesDiffer();
    DistinctCount(fields);
    name, state := Lookup(fields, Lit("name")).value, Lookup(fields, Lit("state")).value;
    addresses := Lookup(fields, Lit("addresses")).value;
  }

  /** What is read out of a report. */
  lemma ReportIsRead(source: Text, w: World, name: Value, state: Value, addresses: Value)
    requires IsReport(source, w, name, state, addresses)
    ensures Addresses(source, w) ==
      if name != Str(Lit("constructicon-m8")) then Err(VmIdentity)
      else if state != Str(Lit("Running")) then Err(VmState)
      else if addresses.Arr? && |addresses.items| <= 64 then Ok(addresses.items) else Err(MalformedSource)
  {
    var fields :| Says(source, w, Obj(fields)) && ThreeMembers(fields, name, state, addresses);
    ThreeLookups(fields, name, state, addresses);
  }

  lemma OnlyReportsAreRead(source: Text, w: World) returns (name: Value, state: Value, addresses: Value)
    requires Addresses(source, w) != Err(MalformedSource)
    ensures IsReport(source, w, name, state, addresses)
  {
    var v := Loads(w.decodeUtf8(source).value, w.recursion).value;
    name, state, addresses := NamesMakeReport(v.fields);
    assert Says(source, w, Obj(v.fields));
  }

  lemma ListingIsAll(items: seq<Value>, w: World)
    ensures Listing(Arr(items), w) <==> |items| <= 64 && AllAddresses(items, w)
  {
    forall v ensures IsAddress(v, w) <==> v.Str? && |v.s| <= 64 && (DottedQuad(v.s) || w.isV6(v.s)) {
      if v.Str? { QuadIffV4(v.s); }
    }
    if AllAddresses(items, w) {
      forall v | v in items ensures IsAddress(v, w) {}
    }
  }

  lemma SuitableAre(items: seq<Value>, a: Text)
    ensures a in Suitable(items) <==> PrivateOne(Arr(items), a)
  {
    QuadIffPrivate(a);
    if a in Suitable(items) {
      var v :| v in items && v.Str? && IsPrivate(v.s) && v.s == a;
      assert v == Str(a);
    }
  }

  lemma VerdictOfSet(source: Text, w: World, items: seq<Value>, s: set<Text>)
    requires Addresses(source, w) == Ok(items) && AllAddresses(items, w) && s == Suitable(items)
    ensures ParseOf(source, w) == Refused(NoSuitableAddress) <==> s == {}
    ensures forall a :: ParseOf(source, w) == Found(a) <==> s == {a}
    ensures ParseOf(source, w).Found? || ParseOf(source, w).reason in {NoSuitableAddress, AmbiguousAddress}
  {
    if s != {} {
      var a :| a in s && ParseOf(source, w) == if s == {a} then Found(a) else Refused(AmbiguousAddress);
      forall b | s == {b} ensures b == a { assert a in {b}; }
    }
  }

  /** The verdict on a listing of the running machine. */
  lemma ListingVerdict(source: Text, w: World, items: seq<Value>)
    requires Addresses(source, w) == Ok(items) && Listing(Arr(items), w)
    ensures forall a :: ParseOf(source, w) == Found(a) <==>
      PrivateOne(Arr(items), a) && forall b | PrivateOne(Arr(items), b) :: b == a
    ensures ParseOf(source, w) == Refused(NoSuitableAddress) <==> forall b :: !PrivateOne(Arr(items), b)
    ensures ParseOf(source, w).Found? || ParseOf(source, w).reason in {NoSuitableAddress, AmbiguousAddress}
  {
    ListingIsAll(items, w);
    var s := Suitable(items);
    VerdictOfSet(source, w, items, s);
    forall a ensures a in s <==> PrivateOne(Arr(items), a) { SuitableAre(items, a); }
    forall a ensures s == {a} <==> PrivateOne(Arr(items), a) && forall b | PrivateOne(Arr(items), b) :: b == a {
      OnlyElement(s, a);
    }
  }

  lemma OnlyElement(s: set<Text>, a: Text)
    ensures s == {a} <==> a in s && forall b | b in s :: b == a
  {}

  // ----- the verdict in full -----

  /** A report of another machine, of a machine not running, or with no proper listing. */
  lemma RefusedReport(source: Text, w: World, name: Value, state: Value, addresses: Value)
    requires IsReport(source, w, name, state, addresses)
    ensures ParseOf(source, w) == Refused(VmIdentity) <==> name != Str(Lit("constructicon-m8"))
    ensures ParseOf(source, w) == Refused(VmState) <==> name == Str(Lit("constructicon-m8")) && state != Str(Lit("Running"))
    ensures ParseOf(source, w) == Refused(MalformedSource) <==>
      name == Str(Lit("constructicon-m8")) && state == Str(Lit("Running")) && !Listing(addresses, w)
  {
    ReportIsRead(source, w, name, state, addresses);
    if addresses.Arr? {
      ListingIsAll(addresses.items, w);
      if Addresses(source, w) == Ok(addresses.items) && Listing(addresses, w) { ListingVerdict(source, w, addresses.items); }
    }
  }

  /**
    The verdict on any bytes: an address exactly when they report the running machine with one private address
    among its listed ones, pending exactly when they report it with none, and malformed when they are no report.
   */
  lemma VerdictIs(source: Text, w: World)
    ensures forall a :: ParseOf(source, w) == Found(a) <==> exists addresses ::
      RunningReport(source, w, addresses) && PrivateOne(addresses, a) && forall b | PrivateOne(addresses, b) :: b == a
    ensures ParseOf(source, w) == Refused(NoSuitableAddress) <==> exists addresses ::
      RunningReport(source, w, addresses) && forall b :: !PrivateOne(addresses, b)
    ensures (forall name, state, addresses :: !IsReport(source, w, name, state, addresses)) ==>
      ParseOf(source, w) == Refused(MalformedSource)
    ensures (exists addresses :: RunningReport(source, w, addresses)) ==>
      ParseOf(source, w).Found? || ParseOf(source, w).reason in {NoSuitableAddress, AmbiguousAddress}
  {
    if Addresses(source, w) == Err(MalformedSource) {
      forall addresses | RunningReport(source, w, addresses) ensures false {
        ReportIsRead(source, w, Str(Lit("constructicon-m8")), Str(Lit("Running")), addresses);
      }
    } else {
      var name, state, addresses := OnlyReportsAreRead(source, w);
      ReportVerdict(source, w, name, state, addresses);
    }
  }

  lemma ReportVerdict(source: Text, w: World, name: Value, state: Value, addresses: Value)
    requires IsReport(source, w, name, state, addresses)
    ensures forall a :: ParseOf(source, w) == Found(a) <==> exists l ::
      RunningReport(source, w, l) && PrivateOne(l, a) && forall b | PrivateOne(l, b) :: b == a
    ensures ParseOf(source, w) == Refused(NoSuitableAddress) <==> exists l ::
      RunningReport(source, w, l) && forall b :: !PrivateOne(l, b)
    ensures (exists l :: RunningReport(source, w, l)) ==>
      ParseOf(source, w).Found? || ParseOf(source, w).reason in {NoSuitableAddress, AmbiguousAddress}
  {
    forall l | RunningReport(source, w, l) ensures l == addresses && name == Str(Lit("constructicon-m8")) && state == Str(Lit("Running")) {
      SameReport(source, w, name, state, addresses, Str(Lit("constructicon-m8")), Str(Lit("Running")), l);
    }
    RefusedReport(source, w, name, state, addresses);
    if RunningReport(source, w, addresses) {
      ReportIsRead(source, w, name, state, addresses);
      ListingVerdict(source, w, addresses.items);
    } else {
      assert ParseOf(source, w).Refused? && ParseOf(source, w).reason in {VmIdentity, VmState, MalformedSource};
    }
  }

  /** Bytes report one thing. */
  lemma SameReport(source: Text, w: World, n1: Value, s1: Value, a1: Value, n2: Value, s2: Value, a2: Value)
    requires IsReport(source, w, n1, s1, a1) && IsReport(source, w, n2, s2, a2)
    ensures n1 == n2 && s1 == s2 && a1 == a2
  {
    var f :| Says(source, w, Obj(f)) && ThreeMembers(f, n1, s1, a1);
    var g :| Says(source, w, Obj(g)) && ThreeMembers(g, n2, s2, a2);
    ThreeLookups(f, n1, s1, a1);
    ThreeLookups(g, n2, s2, a2);
  }
}
