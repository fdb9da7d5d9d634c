/**
  The in-memory, time-indexed store ("brain"). A brain keeps two views of
  its records: a map from key to record, and `periodIndex`, a sequence of
  records kept sorted by timestamp for range queries.

  The model follows the code rather than an idealised store: remembering a
  key again appends a second index entry without removing the first, and
  forgetting a key removes only the first index entry with that key. The
  invariant the code does keep is `Valid`: the index is sorted and every
  record of the map also occurs in the index.

  Each operation is one atomic transition; the read/write lock that makes
  it so is not modelled.
 */
module Brain {
  import opened Timespan
  import opened SortSearch

  /** A remembered record (`thing` in the code). */
  datatype Thing = Thing(at: int, key: string, payload: string)

  /** The store: the key map (`things`) and the time index (`periodIndex`). */
  datatype Brain = Brain(things: map<string, Thing>, periodIndex: seq<Thing>)

  /** The error a visitor hands back to `Each`; `Break` is `EachBreak`. */
  datatype Error = Nil | Break | Failure(msg: string)

  /** A visitor of `Each`: called with a record's timestamp, key and payload. */
  type Visitor = (int, string, string) -> Error

  /**
    What `Each` returns, together with the number of times it called the
    visitor (which a visitor with side effects, such as a counter, observes).
   */
  datatype EachOutcome = EachOutcome(err: Error, visited: nat)

  // ---------------------------------------------------------------------
  // Ordering and the store invariant

  /** Ascending by timestamp (`things.Less` is `At.Before`). */
  predicate Sorted(s: seq<Thing>) {
    forall i, j :: 0 <= i < j < |s| ==> s[i].at <= s[j].at
  }

  /** Index sorted, and every record of the map filed under its own key and present in the index. */
  predicate Valid(b: Brain) {
    && Sorted(b.periodIndex)
    && forall k :: k in b.things ==> b.things[k].key == k && b.things[k] in b.periodIndex
  }

  /**
    The invariant files every stored record in the index, and records under
    different keys differ, so the index holds at least one record per key.
   */
  lemma ValidIndexCoversMap(b: Brain)
    requires Valid(b)
    ensures |b.things| <= |b.periodIndex|
  {
    IndexCoversMap(b.things, b.periodIndex);
  }

  lemma {:induction false} IndexCoversMap(things: map<string, Thing>, s: seq<Thing>)
    requires forall k :: k in things ==> things[k].key == k && things[k] in s
    ensures |things| <= |s|
    decreases |things|
  {
    if |things| > 0 {
      var k :| k in things;
      var i :| 0 <= i < |s| && s[i] == things[k];
      var rest := things - {k};
      var s' := s[..i] + s[i + 1..];
      forall k' | k' in rest
        ensures rest[k'].key == k' && rest[k'] in s'
      {
        var y := things[k'];
        assert y.key != s[i].key;
        var j :| 0 <= j < |s| && s[j] == y;
        if j < i {
          assert s'[j] == y;
        } else {
          assert s'[j - 1] == y;
        }
      }
      assert rest.Keys == things.Keys - {k};
      IndexCoversMap(rest, s');
    }
  }

  function NewBrain(): (b: Brain)
    ensures Valid(b)
    ensures forall k :: Get(b, k) == ("", false)
    ensures |b.periodIndex| == 0
  {
    Brain(map[], [])
  }

  // ---------------------------------------------------------------------
  // Remember: set the map entry, append to the index, sort

  /**
    Where `sort.Sort` puts a record appended to a sorted index: Go's
    insertion sort swaps it left while it is strictly earlier than its
    left neighbour, so it ends up after every record with the same time.
   */
  function UpperBound(s: seq<Thing>, at: int): (p: nat)
    ensures p <= |s|
    ensures forall i :: p <= i < |s| ==> at < s[i].at
    ensures 0 < p ==> s[p - 1].at <= at
  {
    if |s| == 0 || s[|s| - 1].at <= at then |s| else UpperBound(s[..|s| - 1], at)
  }

  /** `r` is `s` with `t` placed after all records no later than it and before all later ones. */
  ghost predicate InsertedAfterEquals(s: seq<Thing>, t: Thing, r: seq<Thing>) {
    exists p ::
      && 0 <= p <= |s|
      && r == s[..p] + [t] + s[p..]
      && (forall i :: 0 <= i < p ==> s[i].at <= t.at)
      && (forall i :: p <= i < |s| ==> t.at < s[i].at)
  }

  /** The index after `append` and `sort.Sort`. */
  function Insert(s: seq<Thing>, t: Thing): (r: seq<Thing>)
    ensures |r| == |s| + 1
    ensures multiset(r) == multiset(s) + multiset{t}
    ensures Sorted(s) ==> Sorted(r) && InsertedAfterEquals(s, t, r)
  {
    var p := UpperBound(s, t.at);
    assert s == s[..p] + s[p..];
    InsertSorted(s, t, p);
    s[..p] + [t] + s[p..]
  }

  lemma InsertSorted(s: seq<Thing>, t: Thing, p: nat)
    requires p <= |s|
    requires forall i :: p <= i < |s| ==> t.at < s[i].at
    requires 0 < p ==> s[p - 1].at <= t.at
    ensures Sorted(s) ==> Sorted(s[..p] + [t] + s[p..]) && InsertedAfterEquals(s, t, s[..p] + [t] + s[p..])
  {
    if Sorted(s) {
      var r := s[..p] + [t] + s[p..];
      assert forall i :: 0 <= i < p ==> r[i] == s[i];
      assert r[p] == t;
      assert forall i :: p < i < |r| ==> r[i] == s[i - 1];
      assert forall i :: 0 <= i < p ==> s[i].at <= s[p - 1].at;
    }
  }

  function Remember(b: Brain, at: int, key: string, payload: string): (b': Brain)
    ensures b'.things == b.things[key := Thing(at, key, payload)]
    ensures Get(b', key) == (payload, true)
    ensures forall k :: k != key ==> Get(b', k) == Get(b, k)
    ensures |b'.periodIndex| == |b.periodIndex| + 1
    ensures multiset(b'.periodIndex) == multiset(b.periodIndex) + multiset{Thing(at, key, payload)}
    ensures Sorted(b.periodIndex) ==> InsertedAfterEquals(b.periodIndex, Thing(at, key, payload), b'.periodIndex)
    ensures Valid(b) ==> Valid(b')
  {
    var t := Thing(at, key, payload);
    Brain(b.things[key := t], Insert(b.periodIndex, t))
  }

  /** Remembering records in time order appends each one to the index. */
  lemma RememberLatestAppends(b: Brain, at: int, key: string, payload: string)
    requires |b.periodIndex| == 0 || b.periodIndex[|b.periodIndex| - 1].at <= at
    ensures Remember(b, at, key, payload).periodIndex == b.periodIndex + [Thing(at, key, payload)]
  {
    var s := b.periodIndex;
    assert UpperBound(s, at) == |s|;
    assert s[..|s|] == s;
  }

  /**
    Overwriting a key leaves the record it replaced in the index: the index
    may hold several records for one key.
   */
  lemma RememberKeepsStale(b: Brain, at: int, key: string, payload: string)
    requires Valid(b)
    requires key in b.things
    ensures b.things[key] in Remember(b, at, key, payload).periodIndex
    ensures Thing(at, key, payload) in Remember(b, at, key, payload).periodIndex
  {
    var idx' := Remember(b, at, key, payload).periodIndex;
    assert b.things[key] in multiset(idx');
  }

  // ---------------------------------------------------------------------
  // Get

  function Get(b: Brain, key: string): (r: (string, bool))
    ensures r.1 <==> key in b.things
    ensures r.1 ==> r.0 == b.things[key].payload
    ensures !r.1 ==> r.0 == ""
  {
    if key in b.things then (b.things[key].payload, true) else ("", false)
  }

  // ---------------------------------------------------------------------
  // GetInPeriod: sort.Search for a contained record, then scan forward

  /** Payloads of a run of records, in order. */
  function Payloads(s: seq<Thing>): (r: seq<string>)
    ensures |r| == |s|
    ensures forall i :: 0 <= i < |s| ==> r[i] == s[i].payload
  {
    seq(|s|, i requires 0 <= i < |s| => s[i].payload)
  }

  /** Reference definition: the records of `s` inside `period`, in order. */
  function Filter(s: seq<Thing>, period: Span): (r: seq<Thing>)
    ensures |r| <= |s|
  {
    if |s| == 0 then []
    else (if period.ContainsTime(s[0].at) then [s[0]] else []) + Filter(s[1..], period)
  }

  /** A record is in the filtered sequence exactly when it is in `s` and inside `period`. */
  lemma {:induction false} FilterContents(s: seq<Thing>, period: Span)
    ensures forall x :: x in Filter(s, period) <==> x in s && period.ContainsTime(x.at)
  {
    if |s| > 0 {
      FilterContents(s[1..], period);
      assert s == [s[0]] + s[1..];
    }
  }

  /**
    The predicate handed to `sort.Search`: it holds at an index of `s`
    exactly when that record survives the reference filter, and never
    outside the index range.
   */
  function ContainedAt(s: seq<Thing>, period: Span): (f: int -> bool)
    ensures forall h :: f(h) ==> 0 <= h < |s|
    ensures forall h :: 0 <= h < |s| ==> (f(h) <==> s[h] in Filter(s, period))
  {
    FilterContents(s, period);
    (h: int) => 0 <= h < |s| && period.ContainsTime(s[h].at)
  }

  /** Where the forward scan from `i` stops: the first record outside `period`, or the end. */
  function ScanEnd(s: seq<Thing>, period: Span, i: nat): (e: nat)
    requires i <= |s|
    ensures i <= e <= |s|
    ensures forall k :: i <= k < e ==> period.ContainsTime(s[k].at)
    ensures e == |s| || !period.ContainsTime(s[e].at)
    decreases |s| - i
  {
    if i == |s| || !period.ContainsTime(s[i].at) then i else ScanEnd(s, period, i + 1)
  }

  /**
    `rv` is the payloads of the records s[lo..lo + |rv|], all inside
    `period`, and that run cannot be extended on either side.
   */
  ghost predicate IsMaximalRun(s: seq<Thing>, period: Span, lo: int, rv: seq<string>) {
    && 0 <= lo <= lo + |rv| <= |s|
    && rv == Payloads(s[lo..lo + |rv|])
    && (forall k :: lo <= k < lo + |rv| ==> period.ContainsTime(s[k].at))
    && (lo == 0 || !period.ContainsTime(s[lo - 1].at))
    && (lo + |rv| == |s| || !period.ContainsTime(s[lo + |rv|].at))
  }

  /**
    The result of `GetInPeriod`. Whatever the index holds, it is a maximal
    run of contained records, in index order (an empty result is the empty
    run at the end of the index).
   */
  function GetInPeriod(b: Brain, period: Span): (rv: seq<string>)
    ensures |rv| <= |b.periodIndex|
    ensures exists lo :: IsMaximalRun(b.periodIndex, period, lo, rv)
    ensures Filter(b.periodIndex, period) == [] ==> rv == []
  {
    var s := b.periodIndex;
    var lo := Search(|s|, ContainedAt(s, period));
    var e := ScanEnd(s, period, lo);
    var rv := Payloads(s[lo..e]);
    assert IsMaximalRun(s, period, lo, rv);
    FilterContents(s, period);
    assert rv != [] ==> s[lo] in Filter(s, period);
    rv
  }

  /** The code of `GetInPeriod` as written: `sort.Search`, then a loop that breaks on the first miss. */
  method GetInPeriodLoop(b: Brain, period: Span) returns (rv: seq<string>)
    ensures rv == GetInPeriod(b, period)
  {
    var s := b.periodIndex;
    var i := SearchLoop(|s|, ContainedAt(s, period));
    ghost var lo := i;
    rv := [];
    while i < |s|
      invariant lo <= i <= |s|
      invariant ScanEnd(s, period, lo) == ScanEnd(s, period, i)
      invariant rv == Payloads(s[lo..i])
    {
      if !period.ContainsTime(s[i].at) {
        break;
      }
      rv := rv + [s[i].payload];
      i := i + 1;
    }
  }

  lemma {:induction false} FilterAppend(a: seq<Thing>, c: seq<Thing>, period: Span)
    ensures Filter(a + c, period) == Filter(a, period) + Filter(c, period)
  {
    if |a| == 0 {
      assert a + c == c;
    } else {
      assert (a + c)[1..] == a[1..] + c;
      FilterAppend(a[1..], c, period);
    }
  }

  lemma {:induction false} FilterAll(s: seq<Thing>, period: Span)
    requires forall k :: 0 <= k < |s| ==> period.ContainsTime(s[k].at)
    ensures Filter(s, period) == s
  {
    if |s| > 0 {
      FilterAll(s[1..], period);
      assert s == [s[0]] + s[1..];
    }
  }

  lemma {:induction false} FilterNone(s: seq<Thing>, period: Span)
    requires forall k :: 0 <= k < |s| ==> !period.ContainsTime(s[k].at)
    ensures Filter(s, period) == []
  {
    if |s| > 0 {
      FilterNone(s[1..], period);
    }
  }

  /** Splits `s` at lo <= e and filters the three parts separately. */
  lemma FilterSplit(s: seq<Thing>, period: Span, lo: nat, e: nat)
    requires lo <= e <= |s|
    requires forall k :: 0 <= k < lo ==> !period.ContainsTime(s[k].at)
    requires forall k :: lo <= k < e ==> period.ContainsTime(s[k].at)
    requires forall k :: e <= k < |s| ==> !period.ContainsTime(s[k].at)
    ensures Filter(s, period) == s[lo..e]
  {
    var a, m, c := s[..lo], s[lo..e], s[e..];
    assert s == a + m + c;
    FilterAppend(a + m, c, period);
    FilterAppend(a, m, period);
    assert forall k :: 0 <= k < |a| ==> a[k] == s[k];
    FilterNone(a, period);
    assert forall k :: 0 <= k < |m| ==> m[k] == s[lo + k];
    FilterAll(m, period);
    assert forall k :: 0 <= k < |c| ==> c[k] == s[e + k];
    FilterNone(c, period);
  }

  /**
    On a sorted index the search predicate is false, then true, then false
    again, and `sort.Search` may land past the true run. So the result is
    either every contained payload, in time order, or nothing at all.
   */
  lemma GetInPeriodAllOrNothing(b: Brain, period: Span)
    requires Sorted(b.periodIndex)
    ensures GetInPeriod(b, period) == [] || GetInPeriod(b, period) == Payloads(Filter(b.periodIndex, period))
  {
    var s := b.periodIndex;
    var f := ContainedAt(s, period);
    var lo := Search(|s|, f);
    var e := ScanEnd(s, period, lo);
    if lo < |s| {
      assert f(lo);
      if lo > 0 {
        assert !f(lo - 1);
        assert s[lo - 1].at < period.start;
        assert forall k :: 0 <= k < lo ==> s[k].at <= s[lo - 1].at;
      }
      if e < |s| {
        assert s[lo].at <= s[e].at;
        assert forall k :: e <= k < |s| ==> s[e].at <= s[k].at;
      }
      FilterSplit(s, period, lo, e);
    }
  }

  /**
    When the search predicate is monotone over the index (every record from
    the first contained one onward is contained), the result is exactly the
    contained payloads.
   */
  lemma GetInPeriodCompleteWhenMonotone(b: Brain, period: Span)
    requires MonotoneUpTo(|b.periodIndex|, ContainedAt(b.periodIndex, period))
    ensures GetInPeriod(b, period) == Payloads(Filter(b.periodIndex, period))
  {
    var s := b.periodIndex;
    var f := ContainedAt(s, period);
    var lo := Search(|s|, f);
    SearchFindsFirst(|s|, f);
    assert forall k :: 0 <= k < |s| ==> (f(k) <==> period.ContainsTime(s[k].at));
    assert forall k :: 0 <= k < lo ==> !f(k);
    assert forall k :: lo <= k < |s| ==> f(k);
    var e := ScanEnd(s, period, lo);
    assert e == |s|;
    FilterSplit(s, period, lo, e);
  }

  // ---------------------------------------------------------------------
  // Forget: delete the map entry, cut out the first index record with the key

  /** Position of the first record with `key`, or |s| when there is none. */
  function FirstWithKey(s: seq<Thing>, key: string): (i: nat)
    ensures i <= |s|
    ensures i < |s| ==> s[i].key == key
    ensures forall j :: 0 <= j < i ==> s[j].key != key
  {
    if |s| == 0 then 0
    else if s[0].key == key then 0
    else 1 + FirstWithKey(s[1..], key)
  }

  /** The loop of `Forget`: scan for the key, splice that record out, stop. */
  function RemoveFirst(s: seq<Thing>, key: string): (r: seq<Thing>)
    ensures FirstWithKey(s, key) == |s| ==> r == s
    ensures FirstWithKey(s, key) < |s| ==> r == s[..FirstWithKey(s, key)] + s[FirstWithKey(s, key) + 1..]
  {
    if |s| == 0 then []
    else if s[0].key == key then s[1..]
    else
      var rest := RemoveFirst(s[1..], key);
      RemoveFirstStep(s, key, rest);
      [s[0]] + rest
  }

  /** The recursive step of `RemoveFirst`: the first record is kept, the cut happens in the rest. */
  lemma RemoveFirstStep(s: seq<Thing>, key: string, rest: seq<Thing>)
    requires |s| > 0 && s[0].key != key
    requires FirstWithKey(s[1..], key) == |s| - 1 ==> rest == s[1..]
    requires FirstWithKey(s[1..], key) < |s| - 1 ==>
               rest == s[1..][..FirstWithKey(s[1..], key)] + s[1..][FirstWithKey(s[1..], key) + 1..]
    ensures FirstWithKey(s, key) == |s| ==> [s[0]] + rest == s
    ensures FirstWithKey(s, key) < |s| ==> [s[0]] + rest == s[..FirstWithKey(s, key)] + s[FirstWithKey(s, key) + 1..]
  {
    var j := FirstWithKey(s[1..], key);
    assert FirstWithKey(s, key) == 1 + j;
    if j < |s| - 1 {
      assert [s[0]] + s[1..][..j] == s[..1 + j];
      assert s[1..][j + 1..] == s[j + 2..];
    } else {
      assert [s[0]] + s[1..] == s;
    }
  }

  /** Cutting one record out of a sorted sequence leaves it sorted, and the other records in it. */
  lemma RemoveAtSorted(s: seq<Thing>, i: nat)
    requires i < |s|
    ensures Sorted(s) ==> Sorted(s[..i] + s[i + 1..])
    ensures multiset(s[..i] + s[i + 1..]) + multiset{s[i]} == multiset(s)
  {
    var r := s[..i] + s[i + 1..];
    assert forall j :: 0 <= j < i ==> r[j] == s[j];
    assert forall j :: i <= j < |r| ==> r[j] == s[j + 1];
    assert s == s[..i] + [s[i]] + s[i + 1..];
  }

  function Forget(b: Brain, key: string): (b': Brain)
    ensures key !in b.things ==> b' == b
    ensures key in b.things ==> b'.things == b.things - {key}
    ensures Get(b', key) == ("", false)
    ensures forall k :: k != key ==> Get(b', k) == Get(b, k)
    ensures key in b.things && FirstWithKey(b.periodIndex, key) == |b.periodIndex| ==> b'.periodIndex == b.periodIndex
    ensures key in b.things && FirstWithKey(b.periodIndex, key) < |b.periodIndex| ==>
              var i := FirstWithKey(b.periodIndex, key);
              b'.periodIndex == b.periodIndex[..i] + b.periodIndex[i + 1..]
    ensures Valid(b) && key in b.things ==> |b'.periodIndex| + 1 == |b.periodIndex|
    ensures Valid(b) ==> Valid(b')
  {
    if key !in b.things then b
    else
      var b' := Brain(b.things - {key}, RemoveFirst(b.periodIndex, key));
      ForgetKeepsValid(b, key, b');
      b'
  }

  lemma ForgetKeepsValid(b: Brain, key: string, b': Brain)
    requires key in b.things
    requires b' == Brain(b.things - {key}, RemoveFirst(b.periodIndex, key))
    ensures Valid(b) ==> |b'.periodIndex| + 1 == |b.periodIndex| && Valid(b')
  {
    if Valid(b) {
      var s := b.periodIndex;
      var i := FirstWithKey(s, key);
      assert b.things[key] in s;
      assert i < |s|;
      RemoveAtSorted(s, i);
      forall k | k in b'.things
        ensures b'.things[k] in b'.periodIndex
      {
        assert b.things[k] != s[i];
        assert b.things[k] in multiset(s);
      }
    }
  }

  // ---------------------------------------------------------------------
  // Each: visit the map entries until the visitor returns an error

  /** The visitor's answer for the record stored under `key`. */
  function Call(things: map<string, Thing>, key: string, visit: Visitor): Error
    requires key in things
  {
    visit(things[key].at, key, things[key].payload)
  }

  /**
    The range loop of `Each` over the keys in the order `order` (Go leaves
    map iteration order unspecified, so the order is a parameter).
   */
  function VisitKeys(things: map<string, Thing>, order: seq<string>, visit: Visitor): (r: EachOutcome)
    requires forall i :: 0 <= i < |order| ==> order[i] in things
    ensures r.visited <= |order|
    ensures forall i :: 0 <= i < r.visited - 1 ==> Call(things, order[i], visit) == Nil
    ensures r.err != Nil ==> 0 < r.visited && Call(things, order[r.visited - 1], visit) == r.err
    ensures r.err == Nil ==> r.visited == |order| && forall i :: 0 <= i < |order| ==> Call(things, order[i], visit) == Nil
  {
    if |order| == 0 then EachOutcome(Nil, 0)
    else
      var err := Call(things, order[0], visit);
      if err != Nil then EachOutcome(err, 1)
      else
        var rest := VisitKeys(things, order[1..], visit);
        EachOutcome(rest.err, rest.visited + 1)
  }

  /** `order` lists every key of the map exactly once. */
  predicate IsEnumeration(order: seq<string>, things: map<string, Thing>) {
    multiset(order) == multiset(things.Keys)
  }

  function Each(b: Brain, order: seq<string>, visit: Visitor): (r: EachOutcome)
    requires IsEnumeration(order, b.things)
    ensures r.visited <= |b.things|
    ensures r.err == Nil ==> r.visited == |b.things|
    ensures r.err == Nil <==> forall k :: k in b.things ==> Call(b.things, k, visit) == Nil
    ensures r.err != Nil ==> exists k :: k in b.things && Call(b.things, k, visit) == r.err
    ensures r.visited <= |order|
    ensures forall i :: 0 <= i < r.visited - 1 ==> order[i] in b.things && Call(b.things, order[i], visit) == Nil
    ensures r.err != Nil ==> 0 < r.visited && order[r.visited - 1] in b.things && Call(b.things, order[r.visited - 1], visit) == r.err
  {
    assert forall i :: 0 <= i < |order| ==> order[i] in multiset(order);
    assert |order| == |multiset(order)| == |b.things.Keys|;
    var r := VisitKeys(b.things, order, visit);
    assert forall k :: k in b.things ==> k in multiset(order);
    assert r.err != Nil ==> order[r.visited - 1] in b.things;
    r
  }

  /** A visitor that always returns `EachBreak` is called exactly once on a non-empty store. */
  lemma EachBreakVisitsOne(b: Brain, order: seq<string>)
    requires IsEnumeration(order, b.things)
    requires |b.things| > 0
    ensures Each(b, order, (at, key, payload) => Break) == EachOutcome(Break, 1)
  {
    var r := Each(b, order, (at, key, payload) => Break);
    assert r.visited <= 1;
  }

  /**
    A visitor that never stops (the dump of the whole store) is called once
    per key, and `Each` returns nil.
   */
  lemma EachNeverStoppingVisitsAll(b: Brain, order: seq<string>)
    requires IsEnumeration(order, b.things)
    ensures Each(b, order, (at, key, payload) => Nil) == EachOutcome(Nil, |b.things|)
  {
  }
}
