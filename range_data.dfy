/**
 * `getRangeData` of script.js (lines 90-109): the record store, a nested
 * `date -> subject -> minutes` object, is folded into one flat
 * `subject -> total minutes` object over the dates the chosen range keeps.
 *
 * JavaScript objects iterate in insertion order and that order decides the
 * bar positions and colour indices downstream, so both the store and the
 * result are kept as ordered association lists.  Parsing a date key
 * (`new Date(d)`) is supplied by the caller as `parse`: it gives the
 * instant in milliseconds and the local month index, or None for a key that
 * is not a date.
 */
module RangeData {
  import opened Wrappers
  import opened Sequences

  /** The graph tabs' ranges. */
  datatype Range = Day | Week | Month

  /** An instant: milliseconds since the epoch and the local month index (`getMonth()`). */
  datatype Moment = Moment(ms: int, month: int)

  /** One day's record: subject -> minutes, in insertion order. */
  type DayRecord = seq<(string, int)>

  /** The store: date key -> day record, in insertion order. */
  type Store = seq<(string, DayRecord)>

  const MsPerDay: int := 1000 * 60 * 60 * 24

  /**
   * Whether a date passes the range filter: for `day` and `week` the
   * difference from `now` in (fractional) days must be below 1 or 7, which
   * for whole milliseconds is a comparison of integers; for `month` the
   * month indices must match, whatever the year.  A key that is not a date
   * fails every filter.
   */
  predicate Included(range: Range, now: Moment, date: Option<Moment>)
    ensures Included(range, now, date) ==> date.Some?
  {
    match date
    case None => false
    case Some(d) =>
      match range
      case Day => now.ms - d.ms < MsPerDay
      case Week => now.ms - d.ms < 7 * MsPerDay
      case Month => d.month == now.month
  }

  /** The elapsed days `(now - date) / (1000 * 60 * 60 * 24)` as an exact real. */
  function DiffDays(now: Moment, d: Moment): real {
    (now.ms - d.ms) as real / MsPerDay as real
  }

  /** The integer comparisons of Included are the source's comparisons of fractional days. */
  lemma InclusionRule(range: Range, now: Moment, d: Moment)
    ensures Included(Day, now, Some(d)) <==> DiffDays(now, d) < 1.0
    ensures Included(Week, now, Some(d)) <==> DiffDays(now, d) < 7.0
    ensures Included(Month, now, Some(d)) <==> d.month == now.month
    ensures !Included(range, now, None)
  {
  }

  /** Every date kept for `day` is kept for `week`. */
  lemma DayWithinWeekDate(now: Moment, date: Option<Moment>)
    ensures Included(Day, now, date) ==> Included(Week, now, date)
  {
  }

  /** Dates in the future (negative difference) pass the `day` and `week` filters. */
  lemma FutureDatesIncluded(now: Moment, d: Moment)
    requires d.ms >= now.ms
    ensures Included(Day, now, Some(d)) && Included(Week, now, Some(d))
  {
  }

  /** The `month` filter keeps every date whose month index is now's, whatever its year or instant. */
  lemma MonthIgnoresYear(now: Moment)
    ensures forall d: Moment :: d.month == now.month ==> Included(Month, now, Some(d))
  {
  }

  // ---------------------------------------------------------------------------
  // Association lists

  function Keys(entries: seq<(string, int)>): (ks: seq<string>)
    ensures |ks| == |entries|
    ensures forall i :: 0 <= i < |entries| ==> ks[i] == entries[i].0
  {
    seq(|entries|, i requires 0 <= i < |entries| => entries[i].0)
  }

  predicate UniqueKeys(entries: seq<(string, int)>) {
    forall i, j :: 0 <= i < j < |entries| ==> entries[i].0 != entries[j].0
  }

  /** `result[s] || 0`: the value held for `s`, or 0 when `s` is absent. */
  function Lookup(entries: seq<(string, int)>, s: string): int {
    var k := IndexOf(Keys(entries), s);
    if k < |entries| then entries[k].1 else 0
  }

  /** With unique keys, Lookup of a stored key finds its own entry. */
  lemma LookupAt(entries: seq<(string, int)>, k: nat)
    requires UniqueKeys(entries) && k < |entries|
    ensures Lookup(entries, entries[k].0) == entries[k].1
  {
    var i := IndexOf(Keys(entries), entries[k].0);
    assert i == k;
  }

  /**
   * `result[s] = (result[s] || 0) + m`: a present key keeps its place and
   * gains `m`; an absent one (IndexOf finds no position) is appended with
   * `m`; nothing else changes.
   */
  function Upsert(acc: seq<(string, int)>, s: string, m: int): (r: seq<(string, int)>)
    ensures IndexOf(Keys(acc), s) < |acc| ==> Keys(r) == Keys(acc)
    ensures IndexOf(Keys(acc), s) == |acc| ==> Keys(r) == Keys(acc) + [s]
    ensures Lookup(r, s) == Lookup(acc, s) + m
    ensures forall t :: t != s ==> Lookup(r, t) == Lookup(acc, t)
    ensures UniqueKeys(acc) ==> UniqueKeys(r)
  {
    var k := IndexOf(Keys(acc), s);
    if k < |acc| then
      var r := acc[k := (s, acc[k].1 + m)];
      assert Keys(r) == Keys(acc);
      r
    else
      var r := acc + [(s, m)];
      assert Keys(r) == Keys(acc) + [s];
      var k' := IndexOf(Keys(r), s);
      assert Keys(r)[|acc|] == s;
      assert forall i :: 0 <= i < |acc| ==> Keys(r)[i] != s;
      assert k' == |acc|;
      forall t | t != s ensures Lookup(r, t) == Lookup(acc, t) {
        IndexOfSnoc(Keys(acc), s, t);
      }
      r
  }

  lemma {:induction false} IndexOfSnoc(ks: seq<string>, s: string, t: string)
    requires t != s
    ensures IndexOf(ks, t) < |ks| ==> IndexOf(ks + [s], t) == IndexOf(ks, t)
    ensures IndexOf(ks, t) == |ks| ==> IndexOf(ks + [s], t) == |ks| + 1
    decreases |ks|
  {
    if ks != [] && ks[0] != t {
      assert (ks + [s])[1..] == ks[1..] + [s];
      IndexOfSnoc(ks[1..], s, t);
    }
  }

  // ---------------------------------------------------------------------------
  // The fold and its reference definitions

  /** The result of folding `entries`, in order, into an empty result object. */
  function Tally(entries: seq<(string, int)>): (r: seq<(string, int)>)
    ensures |r| <= |entries|
    decreases |entries|
  {
    if entries == [] then []
    else
      var last := entries[|entries| - 1];
      Upsert(Tally(entries[..|entries| - 1]), last.0, last.1)
  }

  /** Sum of the minutes the entries hold for `s` (0 when they hold none). */
  function SumFor(entries: seq<(string, int)>, s: string): int
    decreases |entries|
  {
    if entries == [] then 0
    else
      var last := entries[|entries| - 1];
      SumFor(entries[..|entries| - 1], s) + (if last.0 == s then last.1 else 0)
  }

  /** The distinct keys of `ks` in order of first appearance. */
  function FirstSeen(ks: seq<string>): (r: seq<string>)
    ensures forall x :: x in r <==> x in ks
    ensures forall i, j :: 0 <= i < j < |r| ==> r[i] != r[j]
    decreases |ks|
  {
    if ks == [] then []
    else
      var p := FirstSeen(ks[..|ks| - 1]);
      var x := ks[|ks| - 1];
      assert forall y :: y in ks <==> y in ks[..|ks| - 1] || y == x by {
        assert ks == ks[..|ks| - 1] + [x];
      }
      if x in p then p else p + [x]
  }

  /**
   * The fold is correct: its keys are the subjects met, in first-seen order,
   * each once, and each holds the sum of that subject's minutes.
   */
  lemma TallyCorrect(entries: seq<(string, int)>)
    ensures UniqueKeys(Tally(entries))
    ensures Keys(Tally(entries)) == FirstSeen(Keys(entries))
    ensures forall s :: Lookup(Tally(entries), s) == SumFor(entries, s)
  {
    TallyUnique(entries);
    TallyKeys(entries);
    forall s ensures Lookup(Tally(entries), s) == SumFor(entries, s) {
      TallySum(entries, s);
    }
  }

  lemma {:induction false} TallyUnique(entries: seq<(string, int)>)
    ensures UniqueKeys(Tally(entries))
    decreases |entries|
  {
    if entries != [] {
      TallyUnique(entries[..|entries| - 1]);
    }
  }

  lemma {:induction false} TallyKeys(entries: seq<(string, int)>)
    ensures Keys(Tally(entries)) == FirstSeen(Keys(entries))
    decreases |entries|
  {
    if entries == [] {
      assert Keys(entries) == [];
    } else {
      var init := entries[..|entries| - 1];
      var last := entries[|entries| - 1];
      TallyKeys(init);
      assert Keys(init) == Keys(entries)[..|entries| - 1];
      IndexOfFound(Keys(Tally(init)), last.0);
    }
  }

  lemma {:induction false} TallySum(entries: seq<(string, int)>, s: string)
    ensures Lookup(Tally(entries), s) == SumFor(entries, s)
    decreases |entries|
  {
    if entries != [] {
      TallySum(entries[..|entries| - 1], s);
    }
  }

  // ---------------------------------------------------------------------------
  // The store

  /** The subject entries of the kept dates, concatenated in store order. */
  function IncludedEntries(store: Store, parse: string -> Option<Moment>, range: Range, now: Moment): seq<(string, int)>
    decreases |store|
  {
    if store == [] then []
    else
      var last := store[|store| - 1];
      IncludedEntries(store[..|store| - 1], parse, range, now)
        + (if Included(range, now, parse(last.0)) then last.1 else [])
  }

  /** Reference total: the sum of `rec[d][s]` over the kept dates `d`. */
  function Total(store: Store, parse: string -> Option<Moment>, range: Range, now: Moment, s: string): int
    decreases |store|
  {
    if store == [] then 0
    else
      var last := store[|store| - 1];
      Total(store[..|store| - 1], parse, range, now, s)
        + (if Included(range, now, parse(last.0)) then SumFor(last.1, s) else 0)
  }

  /** Reference membership: some kept date records the subject. */
  predicate Occurs(store: Store, parse: string -> Option<Moment>, range: Range, now: Moment, s: string) {
    exists i :: 0 <= i < |store| && Included(range, now, parse(store[i].0)) && s in Keys(store[i].1)
  }

  /** What `getRangeData(range)` returns for the store at the instant `now`. */
  function RangeTotals(store: Store, parse: string -> Option<Moment>, range: Range, now: Moment): (r: seq<(string, int)>)
    ensures |r| <= |IncludedEntries(store, parse, range, now)|
    ensures store == [] ==> r == []
  {
    Tally(IncludedEntries(store, parse, range, now))
  }

  lemma {:induction false} SumForAppend(a: seq<(string, int)>, b: seq<(string, int)>, s: string)
    ensures SumFor(a + b, s) == SumFor(a, s) + SumFor(b, s)
    decreases |b|
  {
    if b != [] {
      var b' := b[..|b| - 1];
      assert (a + b)[..|a + b| - 1] == a + b';
      assert (a + b)[|a + b| - 1] == b[|b| - 1];
      SumForAppend(a, b', s);
    } else {
      assert a + b == a;
    }
  }

  /** Unfolding IncludedEntries by one date of the store. */
  lemma IncludedEntriesStep(store: Store, parse: string -> Option<Moment>, range: Range, now: Moment, i: nat)
    requires i < |store|
    ensures IncludedEntries(store[..i + 1], parse, range, now)
         == IncludedEntries(store[..i], parse, range, now)
            + (if Included(range, now, parse(store[i].0)) then store[i].1 else [])
  {
    assert store[..i + 1][..i] == store[..i];
  }

  /** The flattened entries carry exactly the reference totals. */
  lemma {:induction false} IncludedEntriesSum(store: Store, parse: string -> Option<Moment>, range: Range, now: Moment, s: string)
    ensures SumFor(IncludedEntries(store, parse, range, now), s) == Total(store, parse, range, now, s)
    decreases |store|
  {
    if store != [] {
      var init := store[..|store| - 1];
      var last := store[|store| - 1];
      IncludedEntriesSum(init, parse, range, now, s);
      SumForAppend(IncludedEntries(init, parse, range, now),
                   if Included(range, now, parse(last.0)) then last.1 else [], s);
    }
  }

  /** The flattened entries name exactly the subjects of the kept dates. */
  lemma {:induction false} IncludedEntriesKeys(store: Store, parse: string -> Option<Moment>, range: Range, now: Moment, s: string)
    ensures s in Keys(IncludedEntries(store, parse, range, now)) <==> Occurs(store, parse, range, now, s)
    decreases |store|
  {
    if store != [] {
      var init := store[..|store| - 1];
      var last := store[|store| - 1];
      var a := IncludedEntries(init, parse, range, now);
      var b := if Included(range, now, parse(last.0)) then last.1 else [];
      IncludedEntriesKeys(init, parse, range, now, s);
      assert Keys(a + b) == Keys(a) + Keys(b);
      assert IncludedEntries(store, parse, range, now) == a + b;
      if Occurs(store, parse, range, now, s) {
        var i :| 0 <= i < |store| && Included(range, now, parse(store[i].0)) && s in Keys(store[i].1);
        if i < |init| {
          assert init[i] == store[i];
        }
      }
      if Occurs(init, parse, range, now, s) {
        var i :| 0 <= i < |init| && Included(range, now, parse(init[i].0)) && s in Keys(init[i].1);
        assert store[i] == init[i];
      }
      if Included(range, now, parse(last.0)) && s in Keys(last.1) {
        assert store[|store| - 1] == last;
      }
    }
  }

  /**
   * The range totals hold each subject of a kept date exactly once, in
   * first-seen order, with the sum of its minutes over the kept dates; a
   * subject of no kept date is absent.
   */
  lemma RangeTotalsCorrect(store: Store, parse: string -> Option<Moment>, range: Range, now: Moment)
    ensures UniqueKeys(RangeTotals(store, parse, range, now))
    ensures Keys(RangeTotals(store, parse, range, now)) == FirstSeen(Keys(IncludedEntries(store, parse, range, now)))
    ensures forall s :: s in Keys(RangeTotals(store, parse, range, now)) <==> Occurs(store, parse, range, now, s)
    ensures forall s :: Lookup(RangeTotals(store, parse, range, now), s) == Total(store, parse, range, now, s)
    ensures forall k :: 0 <= k < |RangeTotals(store, parse, range, now)| ==>
      RangeTotals(store, parse, range, now)[k].1 == Total(store, parse, range, now, RangeTotals(store, parse, range, now)[k].0)
  {
    var entries := IncludedEntries(store, parse, range, now);
    var r := Tally(entries);
    TallyCorrect(entries);
    forall s ensures Lookup(r, s) == Total(store, parse, range, now, s)
      && (s in Keys(r) <==> Occurs(store, parse, range, now, s))
    {
      IncludedEntriesSum(store, parse, range, now, s);
      IncludedEntriesKeys(store, parse, range, now, s);
    }
    forall k | 0 <= k < |r| ensures r[k].1 == Total(store, parse, range, now, r[k].0) {
      LookupAt(r, k);
    }
  }

  /** Folding one more entry is one more `result[s] = (result[s] || 0) + m`. */
  lemma TallyStep(entries: seq<(string, int)>, e: (string, int))
    ensures Tally(entries + [e]) == Upsert(Tally(entries), e.0, e.1)
  {
    assert (entries + [e])[..|entries|] == entries;
  }

  /** Folding one more entry of a day record. */
  lemma TallyExtend(done: seq<(string, int)>, day: DayRecord, j: nat)
    requires j < |day|
    ensures Tally(done + day[..j + 1]) == Upsert(Tally(done + day[..j]), day[j].0, day[j].1)
  {
    assert done + day[..j + 1] == (done + day[..j]) + [day[j]];
    TallyStep(done + day[..j], day[j]);
  }

  /**
   * `getRangeData(range)`: the nested loops fold each kept date's entries,
   * in store order, into a result that starts empty.
   */
  method GetRangeData(store: Store, parse: string -> Option<Moment>, range: Range, now: Moment)
    returns (result: seq<(string, int)>)
    ensures result == RangeTotals(store, parse, range, now)
    ensures UniqueKeys(result)
    ensures forall s :: s in Keys(result) <==> Occurs(store, parse, range, now, s)
    ensures forall k :: 0 <= k < |result| ==> result[k].1 == Total(store, parse, range, now, result[k].0)
    ensures store == [] ==> result == []
  {
    result := [];
    var i := 0;
    while i < |store|
      invariant 0 <= i <= |store|
      invariant result == Tally(IncludedEntries(store[..i], parse, range, now))
    {
      var (d, day) := store[i];
      ghost var done := IncludedEntries(store[..i], parse, range, now);
      IncludedEntriesStep(store, parse, range, now, i);
      if Included(range, now, parse(d)) {
        assert done + day[..0] == done;
        var j := 0;
        while j < |day|
          invariant 0 <= j <= |day|
          invariant result == Tally(done + day[..j])
        {
          TallyExtend(done, day, j);
          result := Upsert(result, day[j].0, day[j].1);
          j := j + 1;
        }
        assert day[..|day|] == day;
      } else {
        assert done + [] == done;
      }
      i := i + 1;
    }
    assert store[..|store|] == store;
    RangeTotalsFacts(store, parse, range, now, result);
  }

  /** What `getRangeData` promises of its result, stated of the result itself. */
  lemma RangeTotalsFacts(store: Store, parse: string -> Option<Moment>, range: Range, now: Moment,
                         result: seq<(string, int)>)
    requires result == RangeTotals(store, parse, range, now)
    ensures UniqueKeys(result)
    ensures forall s :: s in Keys(result) <==> Occurs(store, parse, range, now, s)
    ensures forall k :: 0 <= k < |result| ==> result[k].1 == Total(store, parse, range, now, result[k].0)
    ensures store == [] ==> result == []
  {
    RangeTotalsCorrect(store, parse, range, now);
    if store == [] {
      assert Keys(result) == [];
    }
  }

  predicate NonNegativeMinutes(store: Store) {
    forall i, j :: 0 <= i < |store| && 0 <= j < |store[i].1| ==> store[i].1[j].1 >= 0
  }

  lemma {:induction false} SumForNonNegative(entries: seq<(string, int)>, s: string)
    requires forall j :: 0 <= j < |entries| ==> entries[j].1 >= 0
    ensures SumFor(entries, s) >= 0
    decreases |entries|
  {
    if entries != [] {
      SumForNonNegative(entries[..|entries| - 1], s);
    }
  }

  /** Each subject's `day` total is at most its `week` total, when minutes are not negative. */
  lemma {:induction false} DayTotalWithinWeek(store: Store, parse: string -> Option<Moment>, now: Moment, s: string)
    requires NonNegativeMinutes(store)
    ensures Total(store, parse, Day, now, s) <= Total(store, parse, Week, now, s)
    decreases |store|
  {
    if store != [] {
      var init := store[..|store| - 1];
      var last := store[|store| - 1];
      assert NonNegativeMinutes(init) by {
        forall i, j | 0 <= i < |init| && 0 <= j < |init[i].1| ensures init[i].1[j].1 >= 0 {
          assert init[i] == store[i];
        }
      }
      DayTotalWithinWeek(init, parse, now, s);
      assert forall j :: 0 <= j < |last.1| ==> last.1[j].1 >= 0 by {
        assert store[|store| - 1] == last;
      }
      SumForNonNegative(last.1, s);
    }
  }

  /**
   * The `day` view is contained in the `week` view: every subject it shows
   * is shown for `week` too, with at least as many minutes.
   */
  lemma DayWithinWeek(store: Store, parse: string -> Option<Moment>, now: Moment)
    requires NonNegativeMinutes(store)
    ensures forall s :: s in Keys(RangeTotals(store, parse, Day, now)) ==> s in Keys(RangeTotals(store, parse, Week, now))
    ensures forall s :: Lookup(RangeTotals(store, parse, Day, now), s) <= Lookup(RangeTotals(store, parse, Week, now), s)
  {
    RangeTotalsCorrect(store, parse, Day, now);
    RangeTotalsCorrect(store, parse, Week, now);
    forall s ensures Total(store, parse, Day, now, s) <= Total(store, parse, Week, now, s) {
      DayTotalWithinWeek(store, parse, now, s);
    }
  }
}
