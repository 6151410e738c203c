/**
 * Series of completed picks: what the avoid-repeat pool and the history look
 * like after several clicks, each allowed to settle before the next one.
 */
module Runs {
  import opened Wrappers
  import opened Stores
  import opened Picker

  /** Every draw of the series stays inside the set its pick draws from. */
  ghost predicate Fits(s: Session, draws: seq<int>)
    decreases |draws|
  {
    draws == [] ||
    (DrawsFit(s, [], draws[0]) && Fits(PickRound(s, [], draws[0]), draws[1..]))
  }

  /** The session after one completed pick per draw. */
  function Run(s: Session, draws: seq<int>): (t: Session)
    requires !s.rolling && Fits(s, draws)
    ensures !t.rolling && t.list == s.list && t.avoidRepeat == s.avoidRepeat
    ensures Inv(s) ==> Inv(t)
    decreases |draws|
  {
    if draws == [] then s
    else Run(PickRound(s, [], draws[0]), draws[1..])
  }

  /** The stores the series settles on, first pick first. */
  function Picked(s: Session, draws: seq<int>): (r: seq<Store>)
    requires !s.rolling && Fits(s, draws)
    ensures |r| <= |draws|
    decreases |draws|
  {
    if draws == [] then []
    else
      var arr := ActiveSet(s.avoidRepeat, s.pool, s.list);
      (if arr == [] then [] else [arr[draws[0]]]) + Picked(PickRound(s, [], draws[0]), draws[1..])
  }

  function Reversed(s: seq<Store>): (r: seq<Store>)
    ensures |r| == |s|
  {
    if s == [] then [] else Reversed(s[1..]) + [s[0]]
  }

  /**
   * Under avoid-repeat, as long as the pool does not run dry, every pick takes
   * one element out of the pool: the picks and the remaining pool together
   * are exactly the starting pool.
   */
  lemma {:induction false} PoolDrains(s: Session, draws: seq<int>)
    requires !s.rolling && s.avoidRepeat && Fits(s, draws)
    requires |draws| <= |s.pool|
    ensures |Run(s, draws).pool| == |s.pool| - |draws|
    ensures |Picked(s, draws)| == |draws|
    ensures multiset(Picked(s, draws)) + multiset(Run(s, draws).pool) == multiset(s.pool)
    decreases |draws|
  {
    if draws != [] {
      var d, rest := draws[0], draws[1..];
      var arr := ActiveSet(s.avoidRepeat, s.pool, s.list);
      assert arr == s.pool;
      var next := PickRound(s, [], d);
      assert next.pool == WithoutIndex(s.pool, d);
      assert !next.rolling && next.avoidRepeat && Fits(next, rest);
      WithoutIndexBag(s.pool, d);
      PoolDrains(next, rest);
      assert Run(s, draws) == Run(next, rest);
      assert Picked(s, draws) == [s.pool[d]] + Picked(next, rest);
    }
  }

  /** Distinct positions of `s` hold distinct stores. */
  ghost predicate Distinct(s: seq<Store>) {
    forall i, j :: 0 <= i < j < |s| ==> s[i] != s[j]
  }

  lemma {:induction false} DistinctCounts(s: seq<Store>)
    requires Distinct(s)
    ensures forall x :: multiset(s)[x] <= 1
  {
    if s != [] {
      DistinctCounts(s[1..]);
      assert s == [s[0]] + s[1..];
      assert s[0] !in s[1..];
    }
  }

  lemma {:induction false} CountsDistinct(s: seq<Store>)
    requires forall x :: multiset(s)[x] <= 1
    ensures Distinct(s)
  {
    if s != [] {
      assert s == [s[0]] + s[1..];
      assert multiset(s) == multiset{s[0]} + multiset(s[1..]);
      assert multiset(s)[s[0]] <= 1;
      assert multiset(s[1..])[s[0]] == 0;
      forall x ensures multiset(s[1..])[x] <= 1 {
        assert multiset(s)[x] >= multiset(s[1..])[x];
      }
      CountsDistinct(s[1..]);
      forall i, j | 0 <= i < j < |s| ensures s[i] != s[j] {
        if i == 0 {
          assert s[j] == s[1..][j - 1];
          assert s[j] in multiset(s[1..]);
        } else {
          assert s[i] == s[1..][i - 1] && s[j] == s[1..][j - 1];
        }
      }
    }
  }

  /**
   * Within one avoid-repeat cycle over stores without duplicates, no store is
   * picked twice.
   */
  lemma NoRepeatWithinCycle(s: Session, draws: seq<int>)
    requires !s.rolling && s.avoidRepeat && Fits(s, draws)
    requires |draws| <= |s.pool| && Distinct(s.pool)
    ensures Distinct(Picked(s, draws))
  {
    PoolDrains(s, draws);
    DistinctCounts(s.pool);
    var picked := Picked(s, draws);
    forall x ensures multiset(picked)[x] <= 1 {
      assert multiset(picked)[x] <= multiset(s.pool)[x];
    }
    CountsDistinct(picked);
  }

  /**
   * A cycle that starts from the full list ends with an empty pool after
   * exactly one pick per store, and the next click refills it.
   */
  lemma CycleEndsWithRefill(s: Session, draws: seq<int>)
    requires !s.rolling && s.avoidRepeat && Fits(s, draws)
    requires s.pool == s.list && |draws| == |s.list|
    ensures Run(s, draws).pool == []
    ensures multiset(Picked(s, draws)) == multiset(s.list)
    ensures Start(Run(s, draws)).pool == s.list
  {
    PoolDrains(s, draws);
  }

  /** Two stores under avoid-repeat: two picks settle on both of them, in some order. */
  lemma TwoStoresBothPicked(a: Store, b: Store, draws: seq<int>)
    requires |draws| == 2 && Fits(Initial([a, b]), draws)
    ensures multiset(Picked(Initial([a, b]), draws)) == multiset{a, b}
  {
    CycleEndsWithRefill(Initial([a, b]), draws);
  }

  /** Without avoid-repeat the same store can be picked again straight away. */
  lemma RepeatWithoutAvoid(a: Store, b: Store)
    ensures Fits(Toggle(Initial([a, b]), false), [0, 0])
    ensures Picked(Toggle(Initial([a, b]), false), [0, 0]) == [a, a]
  {
  }

  /** Cutting the history to the cap before or after putting newer picks in front agrees. */
  lemma CapAfterPrepend(newer: seq<Store>, chosen: Store, history: seq<Store>)
    ensures
      var capped := Record(history, chosen);
      (newer + capped)[..Min(|capped| + |newer|, HistoryCap)]
        == ((newer + [chosen]) + history)[..Min(|history| + |newer| + 1, HistoryCap)]
  {
    var y := [chosen] + history;
    var m := Min(|history| + 1, HistoryCap);
    var n := Min(|history| + |newer| + 1, HistoryCap);
    assert Record(history, chosen) == y[..m];
    assert Min(m + |newer|, HistoryCap) == n;
    assert (newer + y[..m])[..n] == (newer + y)[..n];
    assert newer + y == (newer + [chosen]) + history;
  }

  /** With a non-empty list and the invariant, a pick always settles on a store. */
  lemma PickSettles(s: Session, draws: seq<int>)
    requires !s.rolling && Inv(s) && s.list != [] && Fits(s, draws) && draws != []
    ensures
      var arr := ActiveSet(s.avoidRepeat, s.pool, s.list);
      var next := PickRound(s, [], draws[0]);
      && arr != [] && 0 <= draws[0] < |arr|
      && !next.rolling && Inv(next) && next.list == s.list && Fits(next, draws[1..])
      && next.history == Record(s.history, arr[draws[0]])
      && Picked(s, draws) == [arr[draws[0]]] + Picked(next, draws[1..])
      && Run(s, draws) == Run(next, draws[1..])
  {
  }

  /** The history after recording `picks` one after another, first pick first. */
  function RecordAll(history: seq<Store>, picks: seq<Store>): (r: seq<Store>)
    decreases |picks|
  {
    if picks == [] then history
    else RecordAll(Record(history, picks[0]), picks[1..])
  }

  /**
   * Recording picks one at a time leaves them, most recent first, ahead of
   * the old history, cut to the cap.
   */
  lemma {:induction false} RecordAllCapped(history: seq<Store>, picks: seq<Store>)
    requires |history| <= HistoryCap
    ensures RecordAll(history, picks) ==
      (Reversed(picks) + history)[..Min(|history| + |picks|, HistoryCap)]
    decreases |picks|
  {
    if picks == [] {
      assert history[..|history|] == history;
    } else {
      var chosen, rest := picks[0], picks[1..];
      RecordAllCapped(Record(history, chosen), rest);
      assert Reversed(picks) == Reversed(rest) + [chosen];
      CapAfterPrepend(Reversed(rest), chosen, history);
    }
  }

  /** With a non-empty list, a series of picks records every pick in the history. */
  lemma {:induction false} RunRecordsPicks(s: Session, draws: seq<int>)
    requires !s.rolling && Inv(s) && s.list != [] && Fits(s, draws)
    ensures |Picked(s, draws)| == |draws|
    ensures Run(s, draws).history == RecordAll(s.history, Picked(s, draws))
    decreases |draws|
  {
    if draws != [] {
      var next := PickRound(s, [], draws[0]);
      PickSettles(s, draws);
      RunRecordsPicks(next, draws[1..]);
    }
  }

  /**
   * With a non-empty list, every pick settles and lands at the front of the
   * history: the history is the picks, most recent first, in front of the old
   * history, cut to the cap.
   */
  lemma HistoryOfRun(s: Session, draws: seq<int>)
    requires !s.rolling && Inv(s) && s.list != [] && Fits(s, draws)
    ensures |Picked(s, draws)| == |draws|
    ensures Run(s, draws).history ==
      (Reversed(Picked(s, draws)) + s.history)[..Min(|s.history| + |draws|, HistoryCap)]
  {
    RunRecordsPicks(s, draws);
    RecordAllCapped(s.history, Picked(s, draws));
  }

  /** From the start of a session, the history holds min(picks, cap) stores. */
  lemma HistoryLength(list: seq<Store>, draws: seq<int>)
    requires list != [] && Fits(Initial(list), draws)
    ensures |Run(Initial(list), draws).history| == Min(|draws|, HistoryCap)
  {
    HistoryOfRun(Initial(list), draws);
  }

  /**
   * A reset in the middle of an avoid-repeat cycle brings every position
   * back: after any series of picks, reset and a click draw from the full
   * list again, while the history of the series is kept.
   */
  lemma ResetRestartsCycle(s: Session, draws: seq<int>)
    requires !s.rolling && s.avoidRepeat && s.list != [] && Fits(s, draws)
    ensures Reset(Run(s, draws)).history == Run(s, draws).history
    ensures Reset(Run(s, draws)).result == None
    ensures Start(Reset(Run(s, draws))).rolling
    ensures Start(Reset(Run(s, draws))).arr == s.list
  {
  }
}
