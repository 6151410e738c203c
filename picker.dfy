/**
 * The selection state machine of the picker, as pure state transitions.
 *
 * A pick is split into the steps the event loop runs: `Start` is the click
 * handler itself, `Frame` is one of the shuffle timers and `Finish` is the
 * settling timer. The timers close over the active set `arr` and the
 * avoid-repeat flag as they were when the pick started; `Session` keeps those
 * two captured values in `arr` and `avoidCaptured`.
 */
module Picker {
  import opened Wrappers
  import opened Stores

  /** Number of shuffle frames scheduled by one pick. */
  const Steps: nat := 20

  /** Number of entries the history keeps. */
  const HistoryCap: nat := 10

  datatype Session = Session(
    list: seq<Store>,          // the candidate list, fixed for the session
    avoidRepeat: bool,         // the "avoid repeat" checkbox
    pool: seq<Store>,          // stores not yet drawn in the current cycle
    result: Option<Store>,     // the settled outcome
    rolling: bool,             // a pick is in flight
    displayItem: Option<Store>,// the store shown by the latest shuffle frame
    history: seq<Store>,       // past outcomes, most recent first
    arr: seq<Store>,           // active set captured by the pick in flight
    avoidCaptured: bool)       // avoid-repeat flag captured by the pick in flight

  function Min(a: int, b: int): int {
    if a <= b then a else b
  }

  /** Every element of `a` occurs in `b` at least as often. */
  ghost predicate SubBag(a: seq<Store>, b: seq<Store>) {
    multiset(a) <= multiset(b)
  }

  lemma SubBagMember(a: seq<Store>, b: seq<Store>, x: Store)
    ensures SubBag(a, b) && x in a ==> x in b
  {
    if x in a {
      assert x in multiset(a);
    }
  }

  lemma SubBagNonEmpty(a: seq<Store>, b: seq<Store>)
    ensures SubBag(a, b) && a != [] ==> b != []
  {
    if a != [] {
      SubBagMember(a, b, a[0]);
    }
  }

  /** What the session promises between any two events. */
  ghost predicate Inv(s: Session) {
    && SubBag(s.pool, s.list)
    && |s.history| <= HistoryCap
    && (forall h :: h in s.history ==> h in s.list)
    && (s.result.Some? ==> s.result.value in s.list)
    && (s.displayItem.Some? ==> s.displayItem.value in s.list)
    && (s.rolling ==> s.arr != [] && SubBag(s.arr, s.list))
  }

  /** The session right after loading: avoid-repeat on, full pool, nothing picked. */
  function Initial(list: seq<Store>): (s: Session)
    ensures Inv(s)
    ensures s.pool == s.list == list && s.avoidRepeat && !s.rolling
    ensures s.result == None && s.displayItem == None && s.history == []
  {
    Session(list, true, list, None, false, None, [], [], true)
  }

  /** The history after `chosen` settles: put in front, oldest evicted beyond the cap. */
  function Record(history: seq<Store>, chosen: Store): (r: seq<Store>)
    ensures |r| == Min(|history| + 1, HistoryCap)
    ensures r[0] == chosen
    ensures forall i :: 1 <= i < |r| ==> r[i] == history[i - 1]
  {
    ([chosen] + history)[..Min(|history| + 1, HistoryCap)]
  }

  /**
   * The elements of `s` whose position differs from `idx`, in order. An `idx`
   * outside `s` removes nothing.
   */
  function WithoutIndex<T>(s: seq<T>, idx: int): (r: seq<T>)
    ensures 0 <= idx < |s| ==> r == s[..idx] + s[idx + 1..]
    ensures !(0 <= idx < |s|) ==> r == s
    decreases |s|
  {
    if s == [] then []
    else
      var rest := WithoutIndex(s[1..], idx - 1);
      if idx == 0 then rest
      else
        assert 0 < idx < |s| ==> s[..idx] == [s[0]] + s[1..][..idx - 1];
        [s[0]] + rest
  }

  /** Removing a position drops exactly one occurrence of the element there. */
  lemma WithoutIndexBag<T>(s: seq<T>, idx: int)
    requires 0 <= idx < |s|
    ensures multiset(WithoutIndex(s, idx)) + multiset{s[idx]} == multiset(s)
    ensures |WithoutIndex(s, idx)| == |s| - 1
  {
    var r := WithoutIndex(s, idx);
    SliceBag(s, idx);
    assert multiset(r) == multiset(s[..idx] + s[idx + 1..]);
  }

  lemma SliceBag<T>(s: seq<T>, idx: int)
    requires 0 <= idx < |s|
    ensures multiset(s[..idx] + s[idx + 1..]) + multiset{s[idx]} == multiset(s)
  {
    var before, after := s[..idx], s[idx + 1..];
    assert s == before + [s[idx]] + after;
    assert multiset(s) == multiset(before) + multiset{s[idx]} + multiset(after);
  }

  /** The set a pick draws from: the pool under avoid-repeat, unless it ran dry. */
  function ActiveSet(avoidRepeat: bool, pool: seq<Store>, list: seq<Store>): (arr: seq<Store>)
    ensures avoidRepeat && pool != [] ==> arr == pool
    ensures !avoidRepeat || pool == [] ==> arr == list
    ensures SubBag(pool, list) ==> SubBag(arr, list) && (arr == [] <==> list == [])
  {
    SubBagNonEmpty(pool, list);
    if avoidRepeat then (if |pool| > 0 then pool else list) else list
  }

  /**
   * The click handler. While a pick is in flight it does nothing. Otherwise an
   * empty pool is refilled from the list; an empty active set clears the
   * result and schedules nothing; a non-empty one starts rolling and is
   * captured, with the current avoid-repeat flag, for the timers.
   */
  function Start(s: Session): (t: Session)
    ensures s.rolling ==> t == s
    ensures !s.rolling ==> t.pool == (if s.pool == [] then s.list else s.pool)
    ensures !s.rolling ==> (t.rolling <==> ActiveSet(s.avoidRepeat, s.pool, s.list) != [])
    ensures !s.rolling && !t.rolling ==>
      t.result == None && t.arr == s.arr && t.avoidCaptured == s.avoidCaptured
    ensures !s.rolling && t.rolling ==>
      && t.arr == ActiveSet(s.avoidRepeat, s.pool, s.list)
      && t.avoidCaptured == s.avoidRepeat
      && t.result == s.result
    ensures t.list == s.list && t.history == s.history
    ensures t.avoidRepeat == s.avoidRepeat && t.displayItem == s.displayItem
    ensures Inv(s) && !s.rolling ==> (t.rolling <==> s.list != [])
    ensures Inv(s) ==> Inv(t)
  {
    if s.rolling then s
    else
      var pool := if s.pool == [] then s.list else s.pool;
      var arr := ActiveSet(s.avoidRepeat, s.pool, s.list);
      if arr == [] then s.(pool := pool, result := None)
      else s.(pool := pool, rolling := true, arr := arr, avoidCaptured := s.avoidRepeat)
  }

  /** One shuffle frame: show the store at the drawn position of the captured set. */
  function Frame(s: Session, idx: int): (t: Session)
    requires s.rolling && 0 <= idx < |s.arr|
    ensures t.displayItem == Some(s.arr[idx])
    ensures t.(displayItem := s.displayItem) == s
    ensures Inv(s) ==> Inv(t)
  {
    SubBagMember(s.arr, s.list, s.arr[idx]);
    s.(displayItem := Some(s.arr[idx]))
  }

  /**
   * The settling timer: the drawn store becomes the result, the shuffle stops,
   * the history gains it in front, and under the captured avoid-repeat flag
   * the pool becomes the captured set without the drawn position.
   */
  function Finish(s: Session, idx: int): (t: Session)
    requires s.rolling && 0 <= idx < |s.arr|
    ensures t.result == Some(s.arr[idx]) && t.displayItem == None && !t.rolling
    ensures t.history == Record(s.history, s.arr[idx])
    ensures s.avoidCaptured ==> t.pool == s.arr[..idx] + s.arr[idx + 1..]
    ensures !s.avoidCaptured ==> t.pool == s.pool
    ensures t.list == s.list && t.avoidRepeat == s.avoidRepeat
    ensures t.arr == s.arr && t.avoidCaptured == s.avoidCaptured
    ensures Inv(s) ==> Inv(t)
  {
    var chosen := s.arr[idx];
    var t := s.(result := Some(chosen), displayItem := None, rolling := false,
                history := Record(s.history, chosen),
                pool := if s.avoidCaptured then WithoutIndex(s.arr, idx) else s.pool);
    SubBagMember(s.arr, s.list, chosen);
    WithoutIndexBag(s.arr, idx);
    assert forall h :: h in t.history ==> h in s.history || h == chosen;
    t
  }

  /** The reset button: ignored while rolling, otherwise clears the outcome and refills the pool. */
  function Reset(s: Session): (t: Session)
    ensures s.rolling ==> t == s
    ensures !s.rolling ==> t.result == None && t.displayItem == None && t.pool == s.list
    ensures t.list == s.list && t.history == s.history
    ensures t.avoidRepeat == s.avoidRepeat && t.rolling == s.rolling
    ensures t.arr == s.arr && t.avoidCaptured == s.avoidCaptured
    ensures Inv(s) ==> Inv(t)
  {
    if s.rolling then s
    else s.(result := None, displayItem := None, pool := s.list)
  }

  /**
   * The checkbox. It stays enabled while rolling, so the flag may change
   * mid-pick; the pool and the flag captured by the pick in flight stay as they are.
   */
  function Toggle(s: Session, on: bool): (t: Session)
    ensures t.avoidRepeat == on
    ensures t.(avoidRepeat := s.avoidRepeat) == s
    ensures Inv(s) ==> Inv(t)
  {
    s.(avoidRepeat := on)
  }

  /** A run of shuffle frames leaves only the last one visible and changes nothing else. */
  function ShowFrames(s: Session, frames: seq<int>): (t: Session)
    requires s.rolling
    requires forall i :: 0 <= i < |frames| ==> 0 <= frames[i] < |s.arr|
    ensures frames == [] ==> t == s
    ensures frames != [] ==> t == s.(displayItem := Some(s.arr[frames[|frames| - 1]]))
    ensures Inv(s) ==> Inv(t)
    decreases |frames|
  {
    if frames == [] then s
    else ShowFrames(Frame(s, frames[0]), frames[1..])
  }

  /** The draws of one pick stay inside the set it will draw from. */
  predicate DrawsFit(s: Session, frames: seq<int>, idx: int) {
    var arr := ActiveSet(s.avoidRepeat, s.pool, s.list);
    s.rolling || arr == [] ||
    (0 <= idx < |arr| && forall i :: 0 <= i < |frames| ==> 0 <= frames[i] < |arr|)
  }

  /**
   * One click followed by every timer it schedules, in the order they fire:
   * the frames, then the settling draw `idx`.
   */
  function PickRound(s: Session, frames: seq<int>, idx: int): (t: Session)
    requires DrawsFit(s, frames, idx)
    ensures s.rolling ==> t == s
    ensures !s.rolling ==> !t.rolling && t.list == s.list && t.avoidRepeat == s.avoidRepeat
    ensures !s.rolling && ActiveSet(s.avoidRepeat, s.pool, s.list) == [] ==>
      t == s.(pool := if s.pool == [] then s.list else s.pool, result := None)
    ensures !s.rolling && ActiveSet(s.avoidRepeat, s.pool, s.list) != [] ==>
      var arr := ActiveSet(s.avoidRepeat, s.pool, s.list);
      && t.result == Some(arr[idx])
      && t.displayItem == None
      && t.history == Record(s.history, arr[idx])
      && t.pool == (if s.avoidRepeat then WithoutIndex(arr, idx)
                    else if s.pool == [] then s.list else s.pool)
    ensures Inv(s) ==> Inv(t)
  {
    if s.rolling then s
    else
      var started := Start(s);
      if !started.rolling then started
      else Finish(ShowFrames(started, frames), idx)
  }

  /** The shuffle frames are cosmetic: the settled session does not depend on them. */
  lemma FramesDoNotMatter(s: Session, frames: seq<int>, idx: int)
    requires DrawsFit(s, frames, idx)
    ensures DrawsFit(s, [], idx)
    ensures PickRound(s, frames, idx) == PickRound(s, [], idx)
  {
  }
}
