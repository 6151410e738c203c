/**
 * The picker component's session: one object whose fields are the component's
 * state hooks, updated in place by the click handlers and by the timers a
 * pick schedules. Each method is proved against the matching transition of
 * module Picker.
 */
module App {
  import opened Wrappers
  import opened Stores
  import opened Picker

  class Selector {
    /** The candidate list; its setter is never called, so it is fixed for the session. */
    const list: seq<Store>
    var avoidRepeat: bool
    var pool: seq<Store>
    var result: Option<Store>
    var rolling: bool
    var displayItem: Option<Store>
    var history: seq<Store>
    /** The active set and avoid-repeat flag closed over by the timers of the pick in flight. */
    var arr: seq<Store>
    var avoidCaptured: bool

    /** The abstract session these fields stand for. */
    ghost function State(): Session
      reads this
    {
      Session(list, avoidRepeat, pool, result, rolling, displayItem, history, arr, avoidCaptured)
    }

    ghost predicate Valid()
      reads this
    {
      Inv(State())
    }

    /** Mounting the component: filter the data file, then initialise every hook. */
    constructor (stores: Source)
      ensures Valid()
      ensures State() == Initial(InitialList(stores))
    {
      var initialList := InitialList(stores);
      list := initialList;
      avoidRepeat := true;
      pool := initialList;
      result := None;
      rolling := false;
      displayItem := None;
      history := [];
      arr := [];
      avoidCaptured := true;
    }

    /** The "pick" button's handler, up to the point where it schedules its timers. */
    method Pick()
      requires Valid()
      modifies this
      ensures Valid()
      ensures State() == Start(old(State()))
    {
      if rolling {
        return;
      }
      // The handler keeps reading the pool it was rendered with; the refill
      // only shows in the next render.
      var current := pool;
      if |current| == 0 {
        pool := list;
      }
      var active := ActiveSet(avoidRepeat, current, list);
      if |active| == 0 {
        result := None;
        return;
      }
      rolling := true;
      arr, avoidCaptured := active, avoidRepeat;
    }

    /** One shuffle timer firing with the random position `idx`. */
    method ShowFrame(idx: int)
      requires Valid() && rolling && 0 <= idx < |arr|
      modifies this
      ensures Valid()
      ensures State() == Frame(old(State()), idx)
    {
      ghost var before := State();
      displayItem := Some(arr[idx]);
      assert State() == Frame(before, idx);
    }

    /** The settling timer firing with the random position `idx`. */
    method FinishPick(idx: int)
      requires Valid() && rolling && 0 <= idx < |arr|
      modifies this
      ensures Valid()
      ensures State() == Finish(old(State()), idx)
    {
      ghost var before := State();
      var chosen := arr[idx];
      result := Some(chosen);
      displayItem := None;
      rolling := false;
      history := Record(history, chosen);
      if avoidCaptured {
        pool := WithoutIndex(arr, idx);
      }
      assert State() == Finish(before, idx);
    }

    /** The "reset" button's handler. */
    method Reset()
      requires Valid()
      modifies this
      ensures Valid()
      ensures State() == Picker.Reset(old(State()))
    {
      if rolling {
        return;
      }
      result := None;
      displayItem := None;
      pool := list;
    }

    /** The "avoid repeat" checkbox's handler. */
    method SetAvoidRepeat(on: bool)
      requires Valid()
      modifies this
      ensures Valid()
      ensures State() == Toggle(old(State()), on)
    {
      avoidRepeat := on;
    }

    /** The shuffle timers of the pick in flight firing in order, one per position of `frames`. */
    method Shuffle(frames: seq<int>)
      requires Valid() && rolling
      requires forall i :: 0 <= i < |frames| ==> 0 <= frames[i] < |arr|
      modifies this
      ensures Valid()
      ensures State() == ShowFrames(old(State()), frames)
    {
      ghost var started := State();
      for i := 0 to |frames|
        invariant State() == ShowFrames(started, frames[..i])
      {
        assert frames[..i + 1] == frames[..i] + [frames[i]];
        ShowFrame(frames[i]);
      }
      assert frames[..|frames|] == frames;
    }

    /**
     * A click on "pick" followed by the timers it schedules, firing in order:
     * `frames` are the random positions of the shuffle frames and `idx` that
     * of the settling draw.
     */
    method PickToCompletion(frames: seq<int>, idx: int)
      requires Valid() && |frames| == Steps && DrawsFit(State(), frames, idx)
      modifies this
      ensures Valid()
      ensures State() == PickRound(old(State()), frames, idx)
    {
      ghost var before := State();
      var wasRolling := rolling;
      Pick();
      if wasRolling || !rolling {
        return;
      }
      ghost var started := State();
      assert started.arr == ActiveSet(before.avoidRepeat, before.pool, before.list);
      Shuffle(frames);
      FinishPick(idx);
      assert State() == Finish(ShowFrames(started, frames), idx);
    }
  }
}
