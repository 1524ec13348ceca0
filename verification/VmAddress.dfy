/**
  Reading the private address of one virtual machine, and the loop that waits for it
  (scripts/m8_vm_address.py).
 */
module VmAddress {
  import opened Texts
  import opened Wrappers
  import opened Json
  import opened CanonicalJson

  const VM_NAME := Lit("constructicon-m8")
  const RUNNING := Lit("Running")
  const READINESS_SECONDS: real := 60.0
  const MAX_OBSERVATIONS := 60
  const MAX_SOURCE_BYTES := 16384
  const MAX_ADDRESSES := 64
  const MAX_ADDRESS_LENGTH := 64

  datatype Reason =
    | UnsupportedPlatform | QueryTimeout | QueryUnavailable | QueryFailed | QueryStderr | SourceLimit
    | MalformedSource | VmIdentity | VmState | NoSuitableAddress | AmbiguousAddress | ReadinessExhausted

  datatype Report = Found(address: Text) | Refused(reason: Reason)

  /** UTF-8 decoding, the depth at which json.loads gives up, and which texts are IPv6 addresses. */
  datatype World = World(decodeUtf8: Text -> Option<Text>, recursion: nat, isV6: Text -> bool)

  // ----- IPv4 addresses (ipaddress.ip_address) -----

  /** A decimal octet without a superfluous zero. */
  predicate IsOctet(t: Text) {
    1 <= |t| <= 3 && Numeral(t) && Number(t) <= 255
  }

  predicate IsV4(t: Text) {
    |Split(t, DOT)| == 4 && forall i | 0 <= i < 4 :: IsOctet(Split(t, DOT)[i])
  }

  function Octet(t: Text, i: nat): (n: nat)
    requires IsV4(t) && i < 4
    ensures n <= 255
  {
    assert IsOctet(Split(t, DOT)[i]);
    Number(Split(t, DOT)[i])
  }

  /** The address as a number. */
  function V4Number(t: Text): (n: nat)
    requires IsV4(t)
    ensures n < 0x1_0000_0000
  {
    0x100_0000 * Octet(t, 0) + 0x1_0000 * Octet(t, 1) + 0x100 * Octet(t, 2) + Octet(t, 3)
  }

  /** str(IPv4Address(...)). */
  function V4Text(a: nat, b: nat, c: nat, d: nat): Text {
    Join([Digits(a), Digits(b), Digits(c), Digits(d)], DOT)
  }

  /** An accepted IPv4 text is the canonical text of its address, so equal addresses are equal texts. */
  lemma V4Canonical(t: Text)
    requires IsV4(t)
    ensures t == V4Text(Octet(t, 0), Octet(t, 1), Octet(t, 2), Octet(t, 3))
  {
    var p := Split(t, DOT);
    forall i | 0 <= i < 4 ensures Digits(Octet(t, i)) == p[i] {
      assert IsOctet(p[i]);
      DigitsOfNumber(p[i]);
    }
    JoinSplit(t, DOT);
    assert p == [p[0], p[1], p[2], p[3]];
  }

  /** A network: the addresses that agree with it outside the low bits. */
  datatype Network = Network(address: nat, size: nat)

  /** address & netmask == network address, for a power-of-two size. */
  predicate Within(n: nat, net: Network)
    requires net.size > 0
  {
    n - n % net.size == net.address
  }

  /** 10.0.0.0/8, 172.16.0.0/12 and 192.168.0.0/16, as in section 3 of RFC 1918. */
  function PrivateNetworks(): (r: seq<Network>)
    ensures forall i | 0 <= i < |r| :: r[i].size > 0
  {
    [Network(0x0A00_0000, 0x100_0000), Network(0xAC10_0000, 0x10_0000), Network(0xC0A8_0000, 0x1_0000)]
  }

  predicate IsPrivate(t: Text) {
    IsV4(t) && exists i | 0 <= i < |PrivateNetworks()| :: Within(V4Number(t), PrivateNetworks()[i])
  }

  /** The three blocks as ranges of the first two octets. */
  lemma BlockOctets(a: nat, b: nat, c: nat, d: nat)
    requires a <= 255 && b <= 255 && c <= 255 && d <= 255
    ensures var n := 0x100_0000 * a + 0x1_0000 * b + 0x100 * c + d;
      && (Within(n, Network(0x0A00_0000, 0x100_0000)) <==> a == 10)
      && (Within(n, Network(0xAC10_0000, 0x10_0000)) <==> a == 172 && 16 <= b <= 31)
      && (Within(n, Network(0xC0A8_0000, 0x1_0000)) <==> a == 192 && b == 168)
  {
    var n := 0x100_0000 * a + 0x1_0000 * b + 0x100 * c + d;
    assert n % 0x100_0000 == 0x1_0000 * b + 0x100 * c + d;
    assert n % 0x1_0000 == 0x100 * c + d;
    assert n % 0x10_0000 == 0x1_0000 * (b % 16) + 0x100 * c + d by {
      assert n == 0x10_0000 * (16 * a + b / 16) + (0x1_0000 * (b % 16) + 0x100 * c + d);
    }
  }

  /** The private addresses are 10.*, 172.16.* to 172.31.*, and 192.168.*. */
  lemma PrivateOctets(t: Text)
    requires IsV4(t)
    ensures IsPrivate(t) <==>
      || Octet(t, 0) == 10
      || (Octet(t, 0) == 172 && 16 <= Octet(t, 1) <= 31)
      || (Octet(t, 0) == 192 && Octet(t, 1) == 168)
  {
    BlockOctets(Octet(t, 0), Octet(t, 1), Octet(t, 2), Octet(t, 3));
    InSomeNetwork(V4Number(t));
  }

  lemma InSomeNetwork(n: nat)
    ensures (exists i | 0 <= i < |PrivateNetworks()| :: Within(n, PrivateNetworks()[i])) <==>
      || Within(n, Network(0x0A00_0000, 0x100_0000)) || Within(n, Network(0xAC10_0000, 0x10_0000))
      || Within(n, Network(0xC0A8_0000, 0x1_0000))
  {
    var nets := PrivateNetworks();
    assert nets[0] == Network(0x0A00_0000, 0x100_0000) && nets[1] == Network(0xAC10_0000, 0x10_0000);
    assert nets[2] == Network(0xC0A8_0000, 0x1_0000);
  }

  // ----- one observation -----

  predicate IsAddress(v: Value, w: World) {
    v.Str? && |v.s| <= MAX_ADDRESS_LENGTH && (IsV4(v.s) || w.isV6(v.s))
  }

  /** The three fields of a report on the running machine, and the addresses it lists. */
  function Addresses(source: Text, w: World): Result<seq<Value>, Reason> {
    var text := w.decodeUtf8(source);
    var v := if text.Some? then Loads(text.value, w.recursion) else None;
    if v.None? || !UniqueKeys(v.value) || !v.value.Obj?
       || Names(v.value.fields) != {Lit("name"), Lit("state"), Lit("addresses")} then Err(MalformedSource)
    else if Lookup(v.value.fields, Lit("name")) != Some(Str(VM_NAME)) then Err(VmIdentity)
    else if Lookup(v.value.fields, Lit("state")) != Some(Str(RUNNING)) then Err(VmState)
    else
      var a := Lookup(v.value.fields, Lit("addresses"));
      if a.None? || !a.value.Arr? || |a.value.items| > MAX_ADDRESSES then Err(MalformedSource) else Ok(a.value.items)
  }

  /** The distinct private addresses among the values. */
  function Suitable(values: seq<Value>): set<Text> {
    set v | v in values && v.Str? && IsPrivate(v.s) :: v.s
  }

  predicate AllAddresses(values: seq<Value>, w: World) {
    forall i | 0 <= i < |values| :: IsAddress(values[i], w)
  }

  /** _parse: pending means a well-formed report without a private address. */
  method Parse(source: Text, w: World) returns (r: Report)
    ensures Addresses(source, w).Err? ==> r == Refused(Addresses(source, w).error)
    ensures Addresses(source, w).Ok? && !AllAddresses(Addresses(source, w).value, w) ==> r == Refused(MalformedSource)
    ensures Addresses(source, w).Ok? && AllAddresses(Addresses(source, w).value, w) ==>
      var s := Suitable(Addresses(source, w).value);
      && (r == Refused(NoSuitableAddress) <==> s == {})
      && (forall a :: r == Found(a) <==> s == {a})
      && (r.Found? || r.reason in {NoSuitableAddress, AmbiguousAddress})
    ensures r == ParseOf(source, w)
  {
    var found := Addresses(source, w);
    if found.Err? {
      return Refused(found.error);
    }
    var values := found.value;
    var suitable: set<Text> := {};
    for i := 0 to |values|
      invariant AllAddresses(values[..i], w)
      invariant suitable == Suitable(values[..i])
    {
      assert values[..i + 1] == values[..i] + [values[i]];
      if !IsAddress(values[i], w) {
        return Refused(MalformedSource);
      }
      SuitableMore(values[..i], values[i]);
      if IsPrivate(values[i].s) {
        suitable := suitable + {values[i].s};
      }
    }
    assert values[..|values|] == values;
    if suitable == {} {
      return Refused(NoSuitableAddress);
    }
    var a :| a in suitable;
    r := if suitable == {a} then Found(a) else Refused(AmbiguousAddress);
  }

  lemma SuitableMore(values: seq<Value>, v: Value)
    ensures Suitable(values + [v]) == Suitable(values) + (if v.Str? && IsPrivate(v.s) then {v.s} else {})
  {}

  /** The report as a function of the source. */
  ghost function ParseOf(source: Text, w: World): Report {
    match Addresses(source, w)
    case Err(reason) => Refused(reason)
    case Ok(values) =>
      var s := Suitable(values);
      if !AllAddresses(values, w) then Refused(MalformedSource)
      else if s == {} then Refused(NoSuitableAddress)
      else
        var a :| a in s;
        if s == {a} then Found(a) else Refused(AmbiguousAddress)
  }

  // ----- the waiting loop -----

  datatype Outcome = Completed(returncode: int, stdout: Text, stderr: Text) | TimedOut | Unavailable

  /** The clock's readings in order, and the answer to each query in order. */
  datatype Schedule = Schedule(clock: nat -> real, answer: nat -> Outcome)

  function Deadline(s: Schedule): real { s.clock(0) + READINESS_SECONDS }

  /** Observation k starts at reading 3k + 1, ends at 3k + 2, and is parsed by 3k + 3. */
  function Start(s: Schedule, k: nat): real { s.clock(3 * k + 1) }
  function End(s: Schedule, k: nat): real { s.clock(3 * k + 2) }
  function Parsed(s: Schedule, k: nat): real { s.clock(3 * k + 3) }

  predicate Clean(o: Outcome) {
    o.Completed? && o.returncode == 0 && o.stderr == [] && |o.stdout| <= MAX_SOURCE_BYTES
  }

  /** Observation k was started, answered and parsed in time, and found no suitable address. */
  ghost predicate Pending(s: Schedule, w: World, k: nat) {
    && Start(s, k) < Deadline(s) && End(s, k) < Deadline(s) && Parsed(s, k) < Deadline(s)
    && Clean(s.answer(k)) && ParseOf(s.answer(k).stdout, w) == Refused(NoSuitableAddress)
  }

  /** What the loop did: how many queries it started, with which time limits, and the sleeps it asked for. */
  datatype Trace = Trace(limits: seq<real>, sleeps: seq<real>)

  function Least(a: real, b: real): real { if a < b then a else b }

  /** The sleeps asked for after the first k observations. */
  function Sleeps(s: Schedule, k: nat): (r: seq<real>)
    ensures |r| == k
    ensures forall i | 0 <= i < k :: r[i] == Least(1.0, Deadline(s) - Parsed(s, i))
  {
    seq(k, i requires 0 <= i < k => Least(1.0, Deadline(s) - Parsed(s, i)))
  }

  function Limits(s: Schedule, k: nat): (r: seq<real>)
    ensures |r| == k
    ensures forall i | 0 <= i < k :: r[i] == Deadline(s) - Start(s, i)
  {
    seq(k, i requires 0 <= i < k => Deadline(s) - Start(s, i))
  }

  /** What observation k says when it is the last: None when the loop goes on. */
  ghost function Verdict(s: Schedule, w: World, k: nat): Option<Report> {
    if Start(s, k) >= Deadline(s) then Some(Refused(ReadinessExhausted))
    else match s.answer(k)
      case TimedOut => Some(Refused(QueryTimeout))
      case Unavailable => Some(Refused(QueryUnavailable))
      case Completed(code, stdout, stderr) =>
        if End(s, k) >= Deadline(s) then Some(Refused(ReadinessExhausted))
        else if code != 0 then Some(Refused(QueryFailed))
        else if stderr != [] then Some(Refused(QueryStderr))
        else if |stdout| > MAX_SOURCE_BYTES then Some(Refused(SourceLimit))
        else if Parsed(s, k) >= Deadline(s) then Some(Refused(ReadinessExhausted))
        else if ParseOf(stdout, w) == Refused(NoSuitableAddress) then None
        else Some(ParseOf(stdout, w))
  }

  lemma PendingIffNoVerdict(s: Schedule, w: World, k: nat)
    ensures Verdict(s, w, k).None? <==> Pending(s, w, k)
  {}

  /** The loop ended with observation k, all earlier ones pending, each followed by one sleep. */
  ghost predicate Decided(s: Schedule, w: World, k: nat, r: Report, trace: Trace) {
    && (forall j: nat | j < k :: Pending(s, w, j))
    && (if k < MAX_OBSERVATIONS then
          Verdict(s, w, k) == Some(r)
          && trace == Trace(Limits(s, if Start(s, k) < Deadline(s) then k + 1 else k), Sleeps(s, k))
        else r == Refused(ReadinessExhausted) && trace == Trace(Limits(s, k), Sleeps(s, k - 1)))
  }

  /** One turn of the loop: the check before the query, the query, and the checks after it. */
  method Observe(s: Schedule, w: World, deadline: real, k: nat) returns (v: Option<Report>, remaining: real, ghost limit: seq<real>)
    requires deadline == Deadline(s)
    ensures v == Verdict(s, w, k)
    ensures v.None? ==> remaining == deadline - Parsed(s, k)
    ensures limit == if Start(s, k) < deadline then [deadline - Start(s, k)] else []
  {
    remaining, limit := deadline - s.clock(3 * k + 1), [];
    if remaining <= 0.0 {
      return Some(Refused(ReadinessExhausted)), remaining, limit;
    }
    var completed := s.answer(k);
    limit := [remaining];
    if completed.TimedOut? {
      return Some(Refused(QueryTimeout)), remaining, limit;
    }
    if completed.Unavailable? {
      return Some(Refused(QueryUnavailable)), remaining, limit;
    }
    if s.clock(3 * k + 2) >= deadline {
      return Some(Refused(ReadinessExhausted)), remaining, limit;
    }
    if completed.returncode != 0 {
      return Some(Refused(QueryFailed)), remaining, limit;
    }
    if completed.stderr != [] {
      return Some(Refused(QueryStderr)), remaining, limit;
    }
    if |completed.stdout| > MAX_SOURCE_BYTES {
      return Some(Refused(SourceLimit)), remaining, limit;
    }
    var report := Parse(completed.stdout, w);
    remaining := deadline - s.clock(3 * k + 3);
    if remaining <= 0.0 {
      return Some(Refused(ReadinessExhausted)), remaining, limit;
    }
    v := if report != Refused(NoSuitableAddress) then Some(report) else None;
  }

  /**
    discover(): the first observation with a verdict decides, and sixty pending ones exhaust the budget.
    `trace.limits` has one entry for every query started.
   */
  method Discover(windows: bool, s: Schedule, w: World) returns (r: Report, ghost trace: Trace, ghost last: nat)
    ensures !windows ==> r == Refused(UnsupportedPlatform) && trace == Trace([], [])
    ensures windows ==> last <= MAX_OBSERVATIONS && Decided(s, w, last, r, trace)
    ensures r != Refused(NoSuitableAddress)
  {
    trace, last := Trace([], []), 0;
    if !windows {
      return Refused(UnsupportedPlatform), trace, last;
    }
    var deadline := s.clock(0) + READINESS_SECONDS;
    for k := 0 to MAX_OBSERVATIONS
      invariant deadline == Deadline(s) && Waited(s, w, k, trace)
    {
      var verdict, remaining;
      ghost var limit;
      verdict, remaining, limit := Observe(s, w, deadline, k);
      if verdict.Some? {
        WaitedThenDecided(s, w, k, trace, limit, verdict.value);
        VerdictIsNotPending(s, w, k);
        return verdict.value, trace.(limits := trace.limits + limit), k;
      }
      WaitedMore(s, w, k, trace);
      trace := trace.(limits := trace.limits + limit);
      if k + 1 < MAX_OBSERVATIONS {
        trace := trace.(sleeps := trace.sleeps + [Least(1.0, remaining)]);
      }
    }
    return Refused(ReadinessExhausted), trace, MAX_OBSERVATIONS;
  }

  /** The loop has been through k pending observations. */
  ghost predicate Waited(s: Schedule, w: World, k: nat, trace: Trace) {
    && (forall j: nat | j < k :: Pending(s, w, j))
    && trace == Trace(Limits(s, k), Sleeps(s, if k < MAX_OBSERVATIONS then k else MAX_OBSERVATIONS - 1))
  }

  lemma WaitedThenDecided(s: Schedule, w: World, k: nat, trace: Trace, limit: seq<real>, r: Report)
    requires k < MAX_OBSERVATIONS && Waited(s, w, k, trace) && Verdict(s, w, k) == Some(r)
    requires limit == if Start(s, k) < Deadline(s) then [Deadline(s) - Start(s, k)] else []
    ensures Decided(s, w, k, r, trace.(limits := trace.limits + limit))
  {
    assert Limits(s, k + 1) == Limits(s, k) + [Deadline(s) - Start(s, k)] && Limits(s, k) == Limits(s, k) + [];
  }

  lemma WaitedMore(s: Schedule, w: World, k: nat, trace: Trace)
    requires k < MAX_OBSERVATIONS && Waited(s, w, k, trace) && Verdict(s, w, k).None?
    ensures Start(s, k) < Deadline(s)
    ensures var limits, pause := trace.limits + [Deadline(s) - Start(s, k)], Least(1.0, Deadline(s) - Parsed(s, k));
      Waited(s, w, k + 1, Trace(limits, if k + 1 < MAX_OBSERVATIONS then trace.sleeps + [pause] else trace.sleeps))
  {
    PendingIffNoVerdict(s, w, k);
    assert Limits(s, k + 1) == Limits(s, k) + [Deadline(s) - Start(s, k)];
    assert Sleeps(s, k + 1) == Sleeps(s, k) + [Least(1.0, Deadline(s) - Parsed(s, k))];
  }

  lemma PendingTimes(s: Schedule, w: World, j: nat)
    requires Pending(s, w, j)
    ensures Start(s, j) < Deadline(s) && Parsed(s, j) < Deadline(s)
  {}

  lemma LimitsInTime(s: Schedule, w: World, k: nat, n: nat)
    requires n <= k + 1 && (forall j: nat | j < k :: Pending(s, w, j)) && (n == k + 1 ==> Start(s, k) < Deadline(s))
    ensures forall j | 0 <= j < n :: Start(s, j) < Deadline(s) && Limits(s, n)[j] == Deadline(s) - Start(s, j) > 0.0
  {
    forall j | 0 <= j < n ensures Start(s, j) < Deadline(s) && Limits(s, n)[j] == Deadline(s) - Start(s, j) > 0.0 {
      if j < k { PendingTimes(s, w, j); }
    }
  }

  lemma SleepsInTime(s: Schedule, w: World, n: nat)
    requires forall j: nat | j < n :: Pending(s, w, j)
    ensures forall j | 0 <= j < n :: 0.0 < Sleeps(s, n)[j] <= 1.0 && Sleeps(s, n)[j] <= Deadline(s) - Parsed(s, j)
    ensures forall j | 0 <= j < n :: Sleeps(s, n)[j] == 1.0 || Sleeps(s, n)[j] == Deadline(s) - Parsed(s, j)
  {
    forall j | 0 <= j < n ensures 0.0 < Sleeps(s, n)[j] <= 1.0 && Sleeps(s, n)[j] <= Deadline(s) - Parsed(s, j) {
      PendingTimes(s, w, j);
    }
  }

  /**
    Whatever the clock and the answers: at most sixty queries, none started at or past the deadline and each
    given exactly the time that was left; no sleep longer than a second or than the time that was left; and
    never `no_suitable_address`.
   */
  lemma DiscoveryIsBounded(s: Schedule, w: World, k: nat, r: Report, trace: Trace)
    requires k <= MAX_OBSERVATIONS && Decided(s, w, k, r, trace)
    ensures |trace.limits| <= 60 && |trace.sleeps| < 60 && Deadline(s) == s.clock(0) + 60.0
    ensures forall j | 0 <= j < |trace.limits| :: Start(s, j) < Deadline(s) && trace.limits[j] == Deadline(s) - Start(s, j) > 0.0
    ensures forall j | 0 <= j < |trace.sleeps| :: 0.0 < trace.sleeps[j] <= 1.0 && trace.sleeps[j] <= Deadline(s) - Parsed(s, j)
    ensures forall j | 0 <= j < |trace.sleeps| :: trace.sleeps[j] == 1.0 || trace.sleeps[j] == Deadline(s) - Parsed(s, j)
    ensures r != Refused(NoSuitableAddress)
  {
    LimitsInTime(s, w, k, |trace.limits|);
    SleepsInTime(s, w, |trace.sleeps|);
    VerdictIsNotPending(s, w, k);
  }

  lemma VerdictIsNotPending(s: Schedule, w: World, k: nat)
    ensures Verdict(s, w, k) != Some(Refused(NoSuitableAddress))
  {}

  /**
    An address comes only from the last query started, answered cleanly and parsed before the deadline with that
    one private address, after queries that all found none; and whenever that happens it is returned.
   */
  lemma AddressComesLast(s: Schedule, w: World, k: nat, r: Report, trace: Trace, a: Text)
    requires k <= MAX_OBSERVATIONS && Decided(s, w, k, r, trace)
    ensures r == Found(a) <==>
      && |trace.limits| == k + 1 && k < MAX_OBSERVATIONS && End(s, k) < Deadline(s) && Parsed(s, k) < Deadline(s)
      && Clean(s.answer(k)) && OneAddress(s.answer(k).stdout, w, a)
    ensures forall j: nat | j < k :: Pending(s, w, j)
  {
    if s.answer(k).Completed? { FoundIsOneAddress(s.answer(k).stdout, w, a); }
  }

  /** A report of the running machine whose addresses include exactly one private IPv4 address. */
  ghost predicate OneAddress(source: Text, w: World, a: Text) {
    var found := Addresses(source, w);
    && found.Ok? && |found.value| <= MAX_ADDRESSES && AllAddresses(found.value, w)
    && IsPrivate(a) && Str(a) in found.value
    && forall v | v in found.value && v.Str? && IsPrivate(v.s) :: v.s == a
  }

  lemma FoundIsOneAddress(source: Text, w: World, a: Text)
    ensures ParseOf(source, w) == Found(a) <==> OneAddress(source, w, a)
  {
    var found := Addresses(source, w);
    if found.Ok? && AllAddresses(found.value, w) {
      var s := Suitable(found.value);
      forall b ensures b in s <==> Str(b) in found.value && IsPrivate(b) {
        if b in s {
          var v :| v in found.value && v.Str? && IsPrivate(v.s) && v.s == b;
          assert v == Str(b);
        }
      }
      if OneAddress(source, w, a) { assert s == {a}; }
    }
  }
}
