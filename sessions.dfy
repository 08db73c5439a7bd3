/** A draw session (script.js:151-159): its data as stored, the invariant that
    the available and the drawn numbers partition 1..groupSize, the draw step
    of `drawNumber` (script.js:238-296) on values, and the live session object
    that `drawNumber` mutates. */
module Sessions {
  import opened Js

  /** A `createdAt` date as `new Date(session.createdAt)` reads it: milliseconds
      since the epoch, or an Invalid Date (whose time value is NaN). */
  datatype Timestamp = At(ms: int) | InvalidDate

  /** One `{number, fingerprint, timestamp}` record pushed by `drawNumber`. */
  datatype DrawRecord = DrawRecord(number: int, fingerprint: string, timestamp: int)

  /** A session as `JSON.stringify` writes it and `JSON.parse` reads it back. */
  datatype SessionData = SessionData(
    id: string,
    groupName: string,
    groupSize: int,
    groupDescription: string,
    availableNumbers: seq<int>,
    drawnNumbers: seq<DrawRecord>,
    createdAt: Timestamp)

  const MinGroupSize: int := 2
  const MaxGroupSize: int := 100
  const DefaultGroupName: string := "CHAMA Group"

  // ---------------------------------------------------------------------------
  // Creation inputs (script.js:132-139)
  // ---------------------------------------------------------------------------

  /** The guard `!groupSize || groupSize < 2 || groupSize > 100` on the result of
      `parseInt` (None stands for NaN): the size is accepted exactly when it is a
      number in 2..100. */
  function CheckGroupSize(parsed: Option<int>): (size: Option<nat>)
    ensures size.Some? <==> parsed.Some? && MinGroupSize <= parsed.value <= MaxGroupSize
    ensures size.Some? ==> size.value == parsed.value
  {
    if parsed.None? || parsed.value == 0 || parsed.value < MinGroupSize || parsed.value > MaxGroupSize then
      None
    else
      Some(parsed.value)
  }

  /** `input.trim() || "CHAMA Group"`: a blank name falls back to the default,
      any other name is kept without its surrounding whitespace. */
  function GroupNameOrDefault(input: string): (name: string)
    ensures AllWhitespace(input) ==> name == DefaultGroupName
    ensures !AllWhitespace(input) ==> name == Trim(input)
    ensures name != [] && !IsWhitespace(name[0]) && !IsWhitespace(name[|name| - 1])
  {
    TrimBlankIffAllWhitespace(input);
    TrimIsCanonical(input);
    if Trim(input) == "" then DefaultGroupName else Trim(input)
  }

  /** `Array.from({ length: n }, (_, i) => i + 1)`. */
  function Iota(n: nat): (r: seq<int>)
    ensures |r| == n
    ensures forall i :: 0 <= i < n ==> r[i] == i + 1
  {
    if n == 0 then [] else Iota(n - 1) + [n]
  }

  /** The session `createSession` builds: the given metadata, the pool
      1..size in ascending order and no draws; it satisfies the invariant. */
  function InitialSession(id: string, name: string, size: nat, description: string, createdAt: Timestamp): (r: SessionData)
    ensures r.id == id && r.groupName == name && r.groupSize == size
    ensures r.groupDescription == description && r.createdAt == createdAt
    ensures |r.availableNumbers| == size && forall i :: 0 <= i < size ==> r.availableNumbers[i] == i + 1
    ensures r.drawnNumbers == []
    ensures Valid(r)
  {
    assert Numbers([]) == [];
    SessionData(id, name, size, description, Iota(size), [], createdAt)
  }

  // ---------------------------------------------------------------------------
  // The partition invariant
  // ---------------------------------------------------------------------------

  function Numbers(draws: seq<DrawRecord>): seq<int> {
    seq(|draws|, i requires 0 <= i < |draws| => draws[i].number)
  }

  /** `drawnNumbers.some((draw) => draw.fingerprint === fp)`: some record of
      the list carries the fingerprint. */
  predicate HasDrawn(draws: seq<DrawRecord>, fp: string): (b: bool)
    ensures b <==> exists d :: d in draws && d.fingerprint == fp
  {
    exists i :: 0 <= i < |draws| && draws[i].fingerprint == fp
  }

  predicate FingerprintsUnique(draws: seq<DrawRecord>) {
    forall i, j :: 0 <= i < j < |draws| ==> draws[i].fingerprint != draws[j].fingerprint
  }

  /** Available and drawn numbers together are 1..groupSize, each exactly once,
      and no fingerprint has drawn twice. */
  predicate Valid(s: SessionData) {
    && s.groupSize >= 0
    && multiset(s.availableNumbers) + multiset(Numbers(s.drawnNumbers)) == multiset(Iota(s.groupSize))
    && FingerprintsUnique(s.drawnNumbers)
  }

  /** Each of 1..n occurs once in Iota(n), nothing else occurs. */
  lemma {:induction false} IotaMultiplicity(n: nat, x: int)
    ensures multiset(Iota(n))[x] == if 1 <= x <= n then 1 else 0
  {
    if n > 0 {
      IotaMultiplicity(n - 1, x);
      CountAfterAppend(Iota(n - 1), n, x);
    }
  }

  /** Appending v adds one occurrence of v and changes no other count. */
  lemma CountAfterAppend(prefix: seq<int>, v: int, x: int)
    ensures multiset(prefix + [v])[x] == multiset(prefix)[x] + if x == v then 1 else 0
  {
    assert multiset(prefix + [v]) == multiset(prefix) + multiset{v};
  }

  /** In a valid session every number of 1..groupSize is either available or
      drawn, never both, and nothing outside 1..groupSize appears. */
  lemma PartitionOfUniverse(s: SessionData, x: int)
    requires Valid(s)
    ensures (x in s.availableNumbers || x in Numbers(s.drawnNumbers)) <==> 1 <= x <= s.groupSize
    ensures !(x in s.availableNumbers && x in Numbers(s.drawnNumbers))
  {
    IotaMultiplicity(s.groupSize, x);
    assert multiset(s.availableNumbers)[x] + multiset(Numbers(s.drawnNumbers))[x]
        == multiset(Iota(s.groupSize))[x];
  }

  /** A value that occurs at two positions of a sequence has multiplicity at least two. */
  lemma TwiceInSequence(s: seq<int>, i: nat, j: nat)
    requires i < j < |s| && s[i] == s[j]
    ensures multiset(s)[s[i]] >= 2
  {
    assert s == s[..j] + s[j..];
    assert s[i] in s[..j];
    assert s[j] in s[j..];
    assert multiset(s) == multiset(s[..j]) + multiset(s[j..]);
  }

  /** In a valid session no number is drawn twice and no number is in the
      pool twice. */
  lemma NumbersUnique(s: SessionData)
    requires Valid(s)
    ensures forall i, j :: 0 <= i < j < |s.drawnNumbers| ==> s.drawnNumbers[i].number != s.drawnNumbers[j].number
    ensures forall i, j :: 0 <= i < j < |s.availableNumbers| ==> s.availableNumbers[i] != s.availableNumbers[j]
  {
    var ns := Numbers(s.drawnNumbers);
    forall i, j | 0 <= i < j < |s.drawnNumbers|
      ensures s.drawnNumbers[i].number != s.drawnNumbers[j].number
    {
      if ns[i] == ns[j] {
        TwiceInSequence(ns, i, j);
        IotaMultiplicity(s.groupSize, ns[i]);
        assert false;
      }
    }
    var a := s.availableNumbers;
    forall i, j | 0 <= i < j < |a|
      ensures a[i] != a[j]
    {
      if a[i] == a[j] {
        TwiceInSequence(a, i, j);
        IotaMultiplicity(s.groupSize, a[i]);
        assert false;
      }
    }
  }

  /** A valid session has drawn at most groupSize numbers, and it is complete
      (every member has drawn) exactly when no number is left. */
  lemma DrawnCountBounded(s: SessionData)
    requires Valid(s)
    ensures |s.availableNumbers| + |s.drawnNumbers| == s.groupSize
    ensures |s.drawnNumbers| <= s.groupSize
    ensures |s.drawnNumbers| == s.groupSize <==> s.availableNumbers == []
  {
    assert |multiset(s.availableNumbers) + multiset(Numbers(s.drawnNumbers))|
        == |multiset(Iota(s.groupSize))|;
  }

  // ---------------------------------------------------------------------------
  // The draw step (script.js:241-280)
  // ---------------------------------------------------------------------------

  /** A value of `Math.random()`. */
  type Random = r: real | 0.0 <= r < 1.0

  /** `Math.floor(Math.random() * len)`: always an index into a non-empty pool. */
  function PickIndex(rand: Random, len: nat): (i: nat)
    requires len > 0
    ensures i < len
  {
    assert (len as real) - rand * (len as real) == (1.0 - rand) * (len as real);
    assert (1.0 - rand) * (len as real) > 0.0;
    (rand * len as real).Floor
  }

  /** Every position of the pool is drawn for some value of `Math.random()`. */
  lemma EveryIndexReachable(len: nat, k: nat)
    requires k < len
    ensures 0.0 <= (k as real) / (len as real) < 1.0
    ensures PickIndex((k as real) / (len as real), len) == k
  {
    var rand: Random := (k as real) / (len as real);
    assert rand * (len as real) == k as real;
  }

  /** `pool.splice(i, 1)`: the pool without position i, in the same order. */
  function RemoveAt(pool: seq<int>, i: nat): (r: seq<int>)
    requires i < |pool|
    ensures |r| == |pool| - 1
    ensures multiset(r) + multiset{pool[i]} == multiset(pool)
    ensures forall j :: 0 <= j < i ==> r[j] == pool[j]
    ensures forall j :: i <= j < |r| ==> r[j] == pool[j + 1]
  {
    assert pool == pool[..i] + [pool[i]] + pool[i + 1..];
    pool[..i] + pool[i + 1..]
  }

  datatype DrawOutcome = NoSession | AlreadyDrawn | Exhausted | Drawn(number: int)

  datatype DrawResult = DrawResult(session: SessionData, outcome: DrawOutcome)

  /** What `drawNumber` does to the current session, with `rand` the value of
      `Math.random()` and `now` the draw's timestamp. */
  function DrawStep(s: SessionData, fp: string, rand: Random, now: int): (r: DrawResult)
    ensures r.outcome.Drawn? <==> !HasDrawn(s.drawnNumbers, fp) && s.availableNumbers != []
    ensures r.outcome == AlreadyDrawn <==> HasDrawn(s.drawnNumbers, fp)
    ensures !r.outcome.Drawn? ==> r.session == s
    ensures r.outcome.Drawn? ==>
      && r.outcome.number in s.availableNumbers
      && (var i := PickIndex(rand, |s.availableNumbers|);
          r.outcome.number == s.availableNumbers[i] && r.session.availableNumbers == RemoveAt(s.availableNumbers, i))
      && multiset(r.session.availableNumbers) + multiset{r.outcome.number} == multiset(s.availableNumbers)
      && r.session.drawnNumbers == s.drawnNumbers + [DrawRecord(r.outcome.number, fp, now)]
      && r.session == s.(availableNumbers := r.session.availableNumbers, drawnNumbers := r.session.drawnNumbers)
    ensures r.outcome != Exhausted ==> HasDrawn(r.session.drawnNumbers, fp)
  {
    if HasDrawn(s.drawnNumbers, fp) then
      DrawResult(s, AlreadyDrawn)
    else if |s.availableNumbers| == 0 then
      DrawResult(s, Exhausted)
    else
      var i := PickIndex(rand, |s.availableNumbers|);
      var n := s.availableNumbers[i];
      var record := DrawRecord(n, fp, now);
      var after := s.(availableNumbers := RemoveAt(s.availableNumbers, i),
                      drawnNumbers := s.drawnNumbers + [record]);
      assert after.drawnNumbers[|s.drawnNumbers|] == record;
      DrawResult(after, Drawn(n))
  }

  /** A draw keeps the partition of 1..groupSize and one draw per fingerprint. */
  lemma DrawPreservesValid(s: SessionData, fp: string, rand: Random, now: int)
    requires Valid(s)
    ensures Valid(DrawStep(s, fp, rand, now).session)
  {
    var r := DrawStep(s, fp, rand, now);
    if r.outcome.Drawn? {
      var n := r.outcome.number;
      var t := r.session;
      assert Numbers(t.drawnNumbers) == Numbers(s.drawnNumbers) + [n];
      assert multiset(t.availableNumbers) + multiset(Numbers(t.drawnNumbers))
          == multiset(t.availableNumbers) + multiset{n} + multiset(Numbers(s.drawnNumbers));
      forall i, j | 0 <= i < j < |t.drawnNumbers|
        ensures t.drawnNumbers[i].fingerprint != t.drawnNumbers[j].fingerprint
      {
        if j == |s.drawnNumbers| {
          assert t.drawnNumbers[i] == s.drawnNumbers[i];
        }
      }
    }
  }

  /** Once a fingerprint holds a number, any later draw by it is refused and
      leaves the session as it is. */
  lemma SecondDrawRefused(s: SessionData, fp: string, rand1: Random, now1: int, rand2: Random, now2: int)
    requires DrawStep(s, fp, rand1, now1).outcome.Drawn?
    ensures var s1 := DrawStep(s, fp, rand1, now1).session;
      DrawStep(s1, fp, rand2, now2) == DrawResult(s1, AlreadyDrawn)
  {
  }

  /** A participant's request: their fingerprint, the value of `Math.random()`
      and the time of the draw. */
  datatype DrawRequest = DrawRequest(fingerprint: string, rand: Random, now: int)

  /** The session after the requests are served in order. */
  function DrawAll(s: SessionData, requests: seq<DrawRequest>): SessionData
    decreases |requests|
  {
    if requests == [] then s
    else
      var q := requests[0];
      DrawAll(DrawStep(s, q.fingerprint, q.rand, q.now).session, requests[1..])
  }

  /** Any sequence of draws keeps the invariant, so the available and drawn
      numbers stay a partition of 1..groupSize and at most groupSize numbers
      are ever drawn. */
  lemma {:induction false} DrawsPreserveValid(s: SessionData, requests: seq<DrawRequest>)
    requires Valid(s)
    ensures Valid(DrawAll(s, requests))
    ensures |DrawAll(s, requests).drawnNumbers| <= s.groupSize
    decreases |requests|
  {
    if requests != [] {
      var q := requests[0];
      var s1 := DrawStep(s, q.fingerprint, q.rand, q.now).session;
      DrawPreservesValid(s, q.fingerprint, q.rand, q.now);
      DrawsPreserveValid(s1, requests[1..]);
    }
    DrawnCountBounded(DrawAll(s, requests));
  }

  predicate DistinctNewcomers(s: SessionData, requests: seq<DrawRequest>) {
    && (forall i, j :: 0 <= i < j < |requests| ==> requests[i].fingerprint != requests[j].fingerprint)
    && (forall i :: 0 <= i < |requests| ==> !HasDrawn(s.drawnNumbers, requests[i].fingerprint))
  }

  /** A fingerprint that holds a number keeps it through any later draws:
      draws only append records. */
  lemma {:induction false} DrawAllKeepsEarlierDraws(s: SessionData, requests: seq<DrawRequest>, fp: string)
    requires HasDrawn(s.drawnNumbers, fp)
    ensures HasDrawn(DrawAll(s, requests).drawnNumbers, fp)
    decreases |requests|
  {
    if requests != [] {
      var q := requests[0];
      var r := DrawStep(s, q.fingerprint, q.rand, q.now);
      if r.outcome.Drawn? {
        var i :| 0 <= i < |s.drawnNumbers| && s.drawnNumbers[i].fingerprint == fp;
        assert r.session.drawnNumbers[i] == s.drawnNumbers[i];
      }
      DrawAllKeepsEarlierDraws(r.session, requests[1..], fp);
    }
  }

  /** Participants who have not drawn yet each get a number while the pool
      lasts: each such draw shrinks the pool by one, and afterwards every one
      of them holds a record. */
  lemma {:induction false} NewcomersEachDraw(s: SessionData, requests: seq<DrawRequest>)
    requires DistinctNewcomers(s, requests)
    requires |requests| <= |s.availableNumbers|
    ensures |DrawAll(s, requests).availableNumbers| == |s.availableNumbers| - |requests|
    ensures |DrawAll(s, requests).drawnNumbers| == |s.drawnNumbers| + |requests|
    ensures forall i :: 0 <= i < |requests| ==> HasDrawn(DrawAll(s, requests).drawnNumbers, requests[i].fingerprint)
    decreases |requests|
  {
    if requests != [] {
      var q := requests[0];
      var r := DrawStep(s, q.fingerprint, q.rand, q.now);
      assert r.outcome.Drawn?;
      var s1 := r.session;
      var rest := requests[1..];
      forall i | 0 <= i < |rest|
        ensures !HasDrawn(s1.drawnNumbers, rest[i].fingerprint)
      {
        var f := rest[i].fingerprint;
        assert f == requests[i + 1].fingerprint && f != q.fingerprint;
      }
      NewcomersEachDraw(s1, rest);
      forall i | 0 <= i < |requests|
        ensures HasDrawn(DrawAll(s, requests).drawnNumbers, requests[i].fingerprint)
      {
        if i == 0 {
          DrawAllKeepsEarlierDraws(s1, rest, q.fingerprint);
        } else {
          assert requests[i] == rest[i - 1];
        }
      }
    }
  }

  /** A freshly created session served to groupSize distinct participants ends
      complete: no number is left and every number of 1..groupSize is drawn,
      each by exactly one record. */
  lemma FullRoundAssignsEveryNumber(s: SessionData, requests: seq<DrawRequest>)
    requires Valid(s) && s.drawnNumbers == []
    requires DistinctNewcomers(s, requests)
    requires |requests| == s.groupSize
    ensures DrawAll(s, requests).availableNumbers == []
    ensures |DrawAll(s, requests).drawnNumbers| == s.groupSize
    ensures forall x :: 1 <= x <= s.groupSize ==> x in Numbers(DrawAll(s, requests).drawnNumbers)
    ensures var d := DrawAll(s, requests).drawnNumbers;
      forall i, j :: 0 <= i < j < |d| ==> d[i].number != d[j].number
  {
    DrawnCountBounded(s);
    NewcomersEachDraw(s, requests);
    var t := DrawAll(s, requests);
    DrawsPreserveValid(s, requests);
    assert t.groupSize == s.groupSize by {
      DrawAllKeepsMetadata(s, requests);
    }
    forall x | 1 <= x <= s.groupSize
      ensures x in Numbers(t.drawnNumbers)
    {
      PartitionOfUniverse(t, x);
    }
    NumbersUnique(t);
  }

  /** Draws change only the two sequences; id, name, size, description and
      creation date stay as they were. */
  lemma {:induction false} DrawAllKeepsMetadata(s: SessionData, requests: seq<DrawRequest>)
    ensures var t := DrawAll(s, requests);
      t == s.(availableNumbers := t.availableNumbers, drawnNumbers := t.drawnNumbers)
    decreases |requests|
  {
    if requests != [] {
      var q := requests[0];
      DrawAllKeepsMetadata(DrawStep(s, q.fingerprint, q.rand, q.now).session, requests[1..]);
    }
  }

  // ---------------------------------------------------------------------------
  // The live session object
  // ---------------------------------------------------------------------------

  /** The session object held in `currentSession`: `drawNumber` splices its
      `availableNumbers` and pushes onto its `drawnNumbers` in place. */
  class Session {
    const id: string
    const groupName: string
    const groupSize: int
    const groupDescription: string
    const createdAt: Timestamp
    var availableNumbers: seq<int>
    var drawnNumbers: seq<DrawRecord>

    /** What `JSON.stringify(session)` records: every field of the object. */
    function Data(): (d: SessionData)
      reads this
      ensures d.id == id && d.groupName == groupName && d.groupSize == groupSize
      ensures d.groupDescription == groupDescription && d.createdAt == createdAt
      ensures d.availableNumbers == availableNumbers && d.drawnNumbers == drawnNumbers
    {
      SessionData(id, groupName, groupSize, groupDescription, availableNumbers, drawnNumbers, createdAt)
    }

    /** The object built by the literal in `createSession` or by `JSON.parse`. */
    constructor FromData(d: SessionData)
      ensures Data() == d
    {
      id, groupName, groupSize, groupDescription, createdAt := d.id, d.groupName, d.groupSize, d.groupDescription, d.createdAt;
      availableNumbers, drawnNumbers := d.availableNumbers, d.drawnNumbers;
    }
  }
}
