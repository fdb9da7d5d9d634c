/**
  Two places where the store's code falls short of what it is meant to do,
  each shown on a concrete store, next to a corrected definition with the
  intended property proved.

  1. `GetInPeriod` hands `sort.Search` the predicate "the record is inside
     the period". Over a sorted index that predicate is false, true, false,
     so the bisection can land past the records that are inside and return
     nothing. Searching instead for the first record not before the period's
     start (a monotone predicate) and then scanning finds them all.

  2. Remembering a key again leaves the record it replaced in the index,
     and forgetting the key removes only one of them, so a forgotten key's
     older payload can still come back from a range query. Forgetting the
     key before remembering it keeps exactly one index record per key.
 */
module BrainFixed {
  import opened Timespan
  import opened SortSearch
  import opened Brain
  import opened BrainScenarios

  // ---------------------------------------------------------------------
  // 1. The range query

  /** Two records five seconds apart. */
  function TwoRecords(): Brain {
    Remember(Remember(NewBrain(), 5, "a", "a"), 10, "b", "b")
  }

  lemma TwoRecordsIndex()
    ensures TwoRecords().periodIndex == [Thing(5, "a", "a"), Thing(10, "b", "b")]
  {
    RememberLatestAppends(NewBrain(), 5, "a", "a");
    RememberLatestAppends(Remember(NewBrain(), 5, "a", "a"), 10, "b", "b");
  }

  /**
    The one-second span at 5 contains "a", yet the bisection tests index 1
    first, finds it outside, moves right and ends past the end: the query
    comes back empty.
   */
  lemma GetInPeriodMissesContained()
    ensures Payloads(Filter(TwoRecords().periodIndex, Span(5, 1))) == ["a"]
    ensures GetInPeriod(TwoRecords(), Span(5, 1)) == []
  {
    TwoRecordsIndex();
    MissesContained(TwoRecords());
  }

  lemma MissesContained(b: Brain)
    requires b.periodIndex == [Thing(5, "a", "a"), Thing(10, "b", "b")]
    ensures Payloads(Filter(b.periodIndex, Span(5, 1))) == ["a"]
    ensures GetInPeriod(b, Span(5, 1)) == []
  {
    var s := b.periodIndex;
    var period := Span(5, 1);
    var f := ContainedAt(s, period);
    assert f(0) && !f(1);
    assert SearchRange(2, f, 0, 2) == SearchRange(2, f, 2, 2);
    FilterSplit(s, period, 0, 1);
    assert s[0..1] == [Thing(5, "a", "a")];
  }

  /** The monotone predicate: the record is not before the period's start. */
  function NotBefore(s: seq<Thing>, start: int): int -> bool {
    (h: int) => 0 <= h < |s| && start <= s[h].at
  }

  /**
    The range query with a search the bisection can rely on. On any index
    it still returns a maximal run of contained records; on a sorted index
    it returns every contained payload, in time order.
   */
  function GetInPeriodFixed(b: Brain, period: Span): (rv: seq<string>)
    ensures exists lo :: IsMaximalRun(b.periodIndex, period, lo, rv)
    ensures Sorted(b.periodIndex) ==> rv == Payloads(Filter(b.periodIndex, period))
  {
    var s := b.periodIndex;
    var lo := Search(|s|, NotBefore(s, period.start));
    var e := ScanEnd(s, period, lo);
    var rv := Payloads(s[lo..e]);
    assert IsMaximalRun(s, period, lo, rv);
    FixedFindsAll(s, period, lo, e);
    rv
  }

  lemma FixedFindsAll(s: seq<Thing>, period: Span, lo: nat, e: nat)
    requires lo == Search(|s|, NotBefore(s, period.start))
    requires e == ScanEnd(s, period, lo)
    ensures Sorted(s) ==> Filter(s, period) == s[lo..e]
  {
    if Sorted(s) {
      var f := NotBefore(s, period.start);
      assert MonotoneUpTo(|s|, f);
      SearchFindsFirst(|s|, f);
      assert forall k :: 0 <= k < lo ==> !f(k);
      if e < |s| {
        assert f(e);
        assert forall k :: e <= k < |s| ==> s[e].at <= s[k].at;
      }
      FilterSplit(s, period, lo, e);
    }
  }

  /** Where the original query already had it right, the corrected one agrees. */
  lemma FixedAgreesWhenMonotone(b: Brain, period: Span)
    requires Sorted(b.periodIndex)
    requires MonotoneUpTo(|b.periodIndex|, ContainedAt(b.periodIndex, period))
    ensures GetInPeriodFixed(b, period) == GetInPeriod(b, period)
  {
    GetInPeriodCompleteWhenMonotone(b, period);
  }

  /** The range-query test's four expectations also hold for `GetInPeriodFixed`. */
  lemma FixedScenario(b: Brain)
    requires HoldsFourThings(b)
    ensures GetInPeriodFixed(b, Span(Feb1st2015, Hour)) == ["t2", "t3"]
    ensures GetInPeriodFixed(b, Span(Jan1st2015, Year)) == ["t1", "t2", "t3", "t4"]
    ensures GetInPeriodFixed(b, Span(Jan1st2014, Year)) == []
    ensures GetInPeriodFixed(b, Span(Jan1st2016, Year)) == []
  {
    FixedPartialCover(b);
    FixedCoverEverything(b);
    FixedCoverNothing(b);
  }

  lemma FixedPartialCover(b: Brain)
    requires HoldsFourThings(b)
    ensures GetInPeriodFixed(b, Span(Feb1st2015, Hour)) == ["t2", "t3"]
  {
    var s := b.periodIndex;
    var period := Span(Feb1st2015, Hour);
    assert Sorted(s);
    assert !period.ContainsTime(s[0].at) && !period.ContainsTime(s[3].at);
    assert period.ContainsTime(s[1].at) && period.ContainsTime(s[2].at);
    FilterSplit(s, period, 1, 3);
    assert s[1..3] == [T2, T3];
    assert Payloads([T2, T3]) == ["t2", "t3"];
  }

  lemma FixedCoverEverything(b: Brain)
    requires HoldsFourThings(b)
    ensures GetInPeriodFixed(b, Span(Jan1st2015, Year)) == ["t1", "t2", "t3", "t4"]
  {
    var s := b.periodIndex;
    assert Sorted(s);
    FilterAll(s, Span(Jan1st2015, Year));
  }

  lemma FixedCoverNothing(b: Brain)
    requires HoldsFourThings(b)
    ensures GetInPeriodFixed(b, Span(Jan1st2014, Year)) == []
    ensures GetInPeriodFixed(b, Span(Jan1st2016, Year)) == []
  {
    var s := b.periodIndex;
    assert Sorted(s);
    FilterNone(s, Span(Jan1st2014, Year));
    FilterNone(s, Span(Jan1st2016, Year));
  }

  // ---------------------------------------------------------------------
  // 2. Overwrite and forget

  /** "k" remembered twice, then forgotten. */
  function RememberedTwice(): Brain {
    Remember(Remember(NewBrain(), 1, "k", "a"), 2, "k", "b")
  }

  function RememberedTwiceForgotten(): Brain {
    Forget(RememberedTwice(), "k")
  }

  lemma RememberedTwiceIndex()
    ensures RememberedTwice().periodIndex == [Thing(1, "k", "a"), Thing(2, "k", "b")]
  {
    RememberLatestAppends(NewBrain(), 1, "k", "a");
    RememberLatestAppends(Remember(NewBrain(), 1, "k", "a"), 2, "k", "b");
  }

  lemma RememberedTwiceForgottenIndex()
    ensures RememberedTwiceForgotten().periodIndex == [Thing(2, "k", "b")]
  {
    RememberedTwiceIndex();
    var s := RememberedTwice().periodIndex;
    assert FirstWithKey(s, "k") == 0;
  }

  /** The key is gone, but its payload "b" still comes back from a range query. */
  lemma ForgottenPayloadReappears()
    ensures Get(RememberedTwiceForgotten(), "k") == ("", false)
    ensures GetInPeriod(RememberedTwiceForgotten(), Span(0, 10)) == ["b"]
  {
    RememberedTwiceForgottenIndex();
    StaleRecordFound(RememberedTwiceForgotten());
  }

  lemma StaleRecordFound(b: Brain)
    requires b.periodIndex == [Thing(2, "k", "b")]
    ensures GetInPeriod(b, Span(0, 10)) == ["b"]
  {
    var s := b.periodIndex;
    var f := ContainedAt(s, Span(0, 10));
    assert f(0);
    assert SearchRange(1, f, 0, 1) == SearchRange(1, f, 0, 0);
    assert s[0..1] == s;
  }

  /**
    The intended invariant: `Valid`, and the index holds exactly the map's
    records, one per key.
   */
  predicate Consistent(b: Brain) {
    && Valid(b)
    && (forall i :: 0 <= i < |b.periodIndex| ==>
          b.periodIndex[i].key in b.things && b.things[b.periodIndex[i].key] == b.periodIndex[i])
    && (forall i, j :: 0 <= i < j < |b.periodIndex| ==> b.periodIndex[i].key != b.periodIndex[j].key)
  }

  lemma ForgetKeepsConsistent(b: Brain, key: string)
    requires Consistent(b)
    ensures Consistent(Forget(b, key))
  {
    if key in b.things {
      var s := b.periodIndex;
      var i := FirstWithKey(s, key);
      assert b.things[key] in s;
      assert i < |s|;
      var b' := Forget(b, key);
      assert b'.periodIndex == s[..i] + s[i + 1..];
      assert b'.things == b.things - {key};
      RemoveKeyedRecord(b.things, s, i);
    }
  }

  /** The index half of the previous lemma, on the index and map directly. */
  lemma RemoveKeyedRecord(things: map<string, Thing>, s: seq<Thing>, i: nat)
    requires i < |s|
    requires forall j :: 0 <= j < |s| ==> s[j].key in things && things[s[j].key] == s[j]
    requires forall j, k :: 0 <= j < k < |s| ==> s[j].key != s[k].key
    ensures var r, things' := s[..i] + s[i + 1..], things - {s[i].key};
            && (forall j :: 0 <= j < |r| ==> r[j].key in things' && things'[r[j].key] == r[j])
            && (forall j, k :: 0 <= j < k < |r| ==> r[j].key != r[k].key)
  {
    var r := s[..i] + s[i + 1..];
    forall j | 0 <= j < |r|
      ensures r[j] == (if j < i then s[j] else s[j + 1])
    {
    }
  }

  /** Remembering a key that is not in the store keeps the invariant. */
  lemma RememberFreshKeepsConsistent(b: Brain, at: int, key: string, payload: string)
    requires Consistent(b)
    requires key !in b.things
    ensures Consistent(Remember(b, at, key, payload))
  {
    var s := b.periodIndex;
    var t := Thing(at, key, payload);
    var p := UpperBound(s, t.at);
    var b' := Remember(b, at, key, payload);
    assert b'.periodIndex == s[..p] + [t] + s[p..];
    assert b'.things == b.things[key := t];
    InsertFreshKey(b.things, s, t, p);
  }

  /** The index half of the previous lemma, on the index and map directly. */
  lemma InsertFreshKey(things: map<string, Thing>, s: seq<Thing>, t: Thing, p: nat)
    requires p <= |s|
    requires t.key !in things
    requires forall i :: 0 <= i < |s| ==> s[i].key in things && things[s[i].key] == s[i]
    requires forall i, j :: 0 <= i < j < |s| ==> s[i].key != s[j].key
    ensures var r, things' := s[..p] + [t] + s[p..], things[t.key := t];
            && (forall i :: 0 <= i < |r| ==> r[i].key in things' && things'[r[i].key] == r[i])
            && (forall i, j :: 0 <= i < j < |r| ==> r[i].key != r[j].key)
  {
    var r := s[..p] + [t] + s[p..];
    forall i | 0 <= i < |r|
      ensures r[i] == (if i < p then s[i] else if i == p then t else s[i - 1])
    {
    }
  }

  /** Dropping a key and then setting it is the same as setting it. */
  lemma RemoveThenSet(m: map<string, Thing>, key: string, v: Thing)
    ensures (m - {key})[key := v] == m[key := v]
  {
    var l, r := (m - {key})[key := v], m[key := v];
    assert l.Keys == r.Keys;
    forall k | k in l.Keys
      ensures l[k] == r[k]
    {
    }
  }

  /** Remember with the stale record removed first: forget the key, then remember it. */
  function RememberReplacing(b: Brain, at: int, key: string, payload: string): (b': Brain)
    ensures b'.things == b.things[key := Thing(at, key, payload)]
    ensures Consistent(b) ==> Thing(at, key, payload) in b'.periodIndex
    ensures Get(b', key) == (payload, true)
    ensures forall k :: k != key ==> Get(b', k) == Get(b, k)
    ensures Consistent(b) ==> Consistent(b')
    ensures Consistent(b) ==> |b'.periodIndex| == |b.periodIndex| + (if key in b.things then 0 else 1)
  {
    var b0 := Forget(b, key);
    RemoveThenSet(b.things, key, Thing(at, key, payload));
    if Consistent(b) then
      ForgetKeepsConsistent(b, key);
      RememberFreshKeepsConsistent(b0, at, key, payload);
      var b' := Remember(b0, at, key, payload);
      assert b'.things[key] == Thing(at, key, payload);
      b'
    else
      Remember(b0, at, key, payload)
  }

  /** With the invariant, every key in the map has exactly one record in the index. */
  lemma ConsistentOneRecordPerKey(b: Brain, key: string)
    requires Consistent(b)
    requires key in b.things
    ensures exists i :: 0 <= i < |b.periodIndex| && b.periodIndex[i] == b.things[key]
    ensures forall i, j ::
              (0 <= i < |b.periodIndex| && 0 <= j < |b.periodIndex| &&
               b.periodIndex[i].key == key && b.periodIndex[j].key == key) ==> i == j
  {
    var s := b.periodIndex;
    assert b.things[key] in s;
    var i :| 0 <= i < |s| && s[i] == b.things[key];
  }

  /** With the invariant, a forgotten key leaves no record behind for a range query to find. */
  lemma ForgetPurges(b: Brain, key: string, period: Span)
    requires Consistent(b)
    ensures forall i :: 0 <= i < |Forget(b, key).periodIndex| ==> Forget(b, key).periodIndex[i].key != key
    ensures forall x :: x in Filter(Forget(b, key).periodIndex, period) ==> x.key in Forget(b, key).things
  {
    ForgetKeepsConsistent(b, key);
    FilterContents(Forget(b, key).periodIndex, period);
  }
}
