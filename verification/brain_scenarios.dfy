/**
  The store's own test scenarios, stated over the model. Dates are seconds
  since 1970-01-01 UTC.
 */
module BrainScenarios {
  import opened Timespan
  import opened Brain

  const Jan1st2014: int := 1388534400
  const Jan1st2015: int := 1420070400
  const Feb1st2015: int := 1422748800
  const Feb2nd2015: int := 1422835200
  const Jan1st2016: int := 1451606400
  const Year: nat := 365 * Day

  /** Remember, look up, look up a missing key, overwrite, look up again. */
  lemma RememberAndGet(now: int, later: int)
    ensures var b := Remember(NewBrain(), now, "foo", "bar");
            && Get(b, "foo") == ("bar", true)
            && Get(b, "invalid-key") == ("", false)
            && Get(Remember(b, later, "foo", "baz"), "foo") == ("baz", true)
            && |Remember(b, later, "foo", "baz").periodIndex| == 2
  {
  }

  const T1: Thing := Thing(Jan1st2015, "t1", "t1")
  const T2: Thing := Thing(Feb1st2015, "t2", "t2")
  const T3: Thing := Thing(Feb1st2015, "t3", "t3")
  const T4: Thing := Thing(Feb2nd2015, "t4", "t4")

  /** The store after remembering each record of `ts`, in order, starting from an empty store. */
  function RememberAll(ts: seq<Thing>): (b: Brain)
    ensures |b.periodIndex| == |ts|
  {
    if |ts| == 0 then NewBrain()
    else
      var last := ts[|ts| - 1];
      Remember(RememberAll(ts[..|ts| - 1]), last.at, last.key, last.payload)
  }

  /** Records remembered in time order are appended one after the other, so the index is `ts` itself. */
  lemma {:induction false} RememberAllInTimeOrder(ts: seq<Thing>)
    requires Sorted(ts)
    ensures RememberAll(ts).periodIndex == ts
  {
    if |ts| > 0 {
      var init := ts[..|ts| - 1];
      assert Sorted(init) by {
        forall i, j | 0 <= i < j < |init| ensures init[i].at <= init[j].at {
          assert init[i] == ts[i] && init[j] == ts[j];
        }
      }
      RememberAllInTimeOrder(init);
      RememberAllLast(ts);
      RememberLastAppends(RememberAll(init), ts);
    }
  }

  /** The last record of `ts` is remembered into the store the others leave behind. */
  lemma RememberAllLast(ts: seq<Thing>)
    requires |ts| > 0
    ensures RememberAll(ts) == Remember(RememberAll(ts[..|ts| - 1]), ts[|ts| - 1].at, ts[|ts| - 1].key, ts[|ts| - 1].payload)
  {
  }

  /** One step of `RememberAllInTimeOrder`: a record no earlier than the index's last completes `ts`. */
  lemma RememberLastAppends(b: Brain, ts: seq<Thing>)
    requires |ts| > 0 && b.periodIndex == ts[..|ts| - 1]
    requires |ts| == 1 || ts[|ts| - 2].at <= ts[|ts| - 1].at
    ensures Remember(b, ts[|ts| - 1].at, ts[|ts| - 1].key, ts[|ts| - 1].payload).periodIndex == ts
  {
    var init, last := ts[..|ts| - 1], ts[|ts| - 1];
    assert |init| == 0 || init[|init| - 1] == ts[|ts| - 2];
    RememberLatestAppends(b, last.at, last.key, last.payload);
    assert init + [last] == ts;
  }

  /** Records that all share one key leave a single map entry: the last record. */
  lemma {:induction false} RememberAllOneKey(ts: seq<Thing>, key: string)
    requires |ts| > 0
    requires forall i :: 0 <= i < |ts| ==> ts[i].key == key
    ensures RememberAll(ts).things == map[key := ts[|ts| - 1]]
  {
    var init, last := ts[..|ts| - 1], ts[|ts| - 1];
    if |init| > 0 {
      RememberAllOneKey(init, key);
    }
    assert last == Thing(last.at, key, last.payload);
  }

  /** The store of the range-query test: t1 (2015-01-01), t2 and t3 (2015-02-01) and t4 (2015-02-02), in that order. */
  const FourRecords: seq<Thing> := [T1, T2, T3, T4]

  function FourThings(): Brain { RememberAll(FourRecords) }

  /** Remembered in time order, the records are appended; t3 lands after t2, which has the same time. */
  lemma FourThingsIndex()
    ensures FourThings().periodIndex == [T1, T2, T3, T4]
  {
    RememberAllInTimeOrder(FourRecords);
  }

  /** The index the four records leave behind. */
  predicate HoldsFourThings(b: Brain) {
    b.periodIndex == [T1, T2, T3, T4]
  }

  /** A one-hour span on 2015-02-01 finds t2 then t3, in the order they were remembered. */
  lemma PartialCover(b: Brain)
    requires HoldsFourThings(b)
    ensures GetInPeriod(b, Span(Feb1st2015, Hour)) == ["t2", "t3"]
  {
    var period := Span(Feb1st2015, Hour);
    var s := b.periodIndex;
    var f := ContainedAt(s, period);
    assert !f(0) && f(1) && f(2) && !f(3);
    assert SortSearch.SearchRange(4, f, 0, 4) == SortSearch.SearchRange(4, f, 0, 2);
    assert SortSearch.SearchRange(4, f, 0, 2) == SortSearch.SearchRange(4, f, 0, 1);
    assert SortSearch.SearchRange(4, f, 0, 1) == SortSearch.SearchRange(4, f, 1, 1);
    assert ScanEnd(s, period, 1) == 3;
    assert s[1..3] == [T2, T3];
  }

  /** A year from 2015-01-01 covers all four records. */
  lemma CoverEverything(b: Brain)
    requires HoldsFourThings(b)
    ensures GetInPeriod(b, Span(Jan1st2015, Year)) == ["t1", "t2", "t3", "t4"]
  {
    var period := Span(Jan1st2015, Year);
    var s := b.periodIndex;
    var f := ContainedAt(s, period);
    assert f(0) && f(1) && f(2) && f(3);
    assert SortSearch.SearchRange(4, f, 0, 4) == SortSearch.SearchRange(4, f, 0, 2);
    assert SortSearch.SearchRange(4, f, 0, 2) == SortSearch.SearchRange(4, f, 0, 1);
    assert SortSearch.SearchRange(4, f, 0, 1) == SortSearch.SearchRange(4, f, 0, 0);
    assert ScanEnd(s, period, 0) == 4;
    assert s[0..4] == s;
  }

  /**
    A year from 2014-01-01 ends exactly at t1's time and covers nothing;
    a year from 2016-01-01 starts after t4. The code returns [] for the
    first span under a closed end as well (the search then ends past the
    index), so only the start-inclusive query tells the end conventions apart.
   */
  lemma CoverNothing(b: Brain)
    requires HoldsFourThings(b)
    ensures GetInPeriod(b, Span(Jan1st2014, Year)) == []
    ensures GetInPeriod(b, Span(Jan1st2016, Year)) == []
  {
    var s := b.periodIndex;
    FilterNone(s, Span(Jan1st2014, Year));
    FilterNone(s, Span(Jan1st2016, Year));
  }

  /** The range queries of the store's test, on the store that test builds. */
  lemma GetInPeriodScenario()
    ensures GetInPeriod(FourThings(), Span(Feb1st2015, Hour)) == ["t2", "t3"]
    ensures |GetInPeriod(FourThings(), Span(Jan1st2015, Year))| == 4
    ensures GetInPeriod(FourThings(), Span(Jan1st2014, Year)) == []
    ensures GetInPeriod(FourThings(), Span(Jan1st2016, Year)) == []
  {
    FourThingsIndex();
    PartialCover(FourThings());
    CoverEverything(FourThings());
    CoverNothing(FourThings());
  }

  /** Remember then forget: the key is gone and a span around its time finds nothing. */
  lemma RememberThenForget(at: int)
    ensures var b := Forget(Remember(NewBrain(), at, "foo", "bar"), "foo");
            && Get(b, "foo") == ("", false)
            && GetInPeriod(b, Span(at, Hour)) == []
  {
    var b := Forget(Remember(NewBrain(), at, "foo", "bar"), "foo");
    assert |b.periodIndex| == 0;
  }

  /** The records of the `Each` test: one key remembered four times. */
  const OneKeyRecords: seq<Thing> := [Thing(Jan1st2015, "k", "t"), Thing(Feb1st2015, "k", "t"), Thing(Feb1st2015, "k", "t"), Thing(Feb2nd2015, "k", "t")]

  function OneKeyFourTimes(): Brain { RememberAll(OneKeyRecords) }

  lemma OneKeyFourTimesShape()
    ensures OneKeyFourTimes().things == map["k" := Thing(Feb2nd2015, "k", "t")]
    ensures |OneKeyFourTimes().periodIndex| == 4
  {
    RememberAllOneKey(OneKeyRecords, "k");
  }

  /**
    Four records under one key leave one map entry; a visitor that checks
    the record and otherwise returns nil is called once and `Each` returns
    nil, and a visitor that returns `EachBreak` is called once and its
    `EachBreak` comes back. The test's first visitor always returns nil and
    reports a wrong record through `t.Errorf`; the visitor here is pure, so
    it reports a wrong record by returning `Failure` instead. On this store
    the record is right, and both visitors return nil.
   */
  lemma EachOverOneKey()
    ensures OneKeyFourTimes().things.Keys == {"k"}
    ensures |OneKeyFourTimes().periodIndex| == 4
    ensures Each(OneKeyFourTimes(), ["k"], (at, key, payload) => if key != "k" || payload != "t" then Failure("invalid thing") else Nil)
            == EachOutcome(Nil, 1)
    ensures Each(OneKeyFourTimes(), ["k"], (at, key, payload) => Break) == EachOutcome(Break, 1)
  {
    OneKeyFourTimesShape();
    EachOnOneRecord(OneKeyFourTimes());
  }

  lemma EachOnOneRecord(b: Brain)
    requires b.things == map["k" := Thing(Feb2nd2015, "k", "t")]
    ensures Each(b, ["k"], (at, key, payload) => if key != "k" || payload != "t" then Failure("invalid thing") else Nil)
            == EachOutcome(Nil, 1)
    ensures Each(b, ["k"], (at, key, payload) => Break) == EachOutcome(Break, 1)
  {
    assert b.things.Keys == {"k"};
    assert multiset(["k"]) == multiset(b.things.Keys);
  }
}
