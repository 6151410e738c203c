# Restaurant picker: selection state machine

A model of the "what to eat today" picker component. On mount it filters the
bundled store list down to the objects that carry a name. A click on "pick"
starts a shuffle: twenty frames each show a randomly drawn store, then a final
draw settles the result. The result goes to the front of a history capped at
ten entries. With "avoid repeat" on, the drawn position is removed from a pool,
so a drawn position comes back only after the pool is refilled, either when it
runs dry or on reset. Removal is by position, so a store listed twice can be
drawn twice in one cycle.
"Reset" clears the outcome and refills the pool. Both buttons are ignored while
a shuffle is in flight.

Layout:

- `wrappers.dfy`: `Option`, standing for a field that may hold `null`.
- `stores.dfy` (module `Stores`): stores, raw data-file entries, and the
  mount-time filter with its properties.
- `picker.dfy` (module `Picker`): the session as a value (`Session`). Its
  transitions are `Start` (the click handler), `Frame` (a shuffle timer),
  `Finish` (the settling timer), `Reset` and `Toggle` (the checkbox). It also
  holds the invariant `Inv` and the pure helpers the handlers use: `Record` for
  the history update and `WithoutIndex` for the positional filter.
- `runs.dfy` (module `Runs`): series of completed picks, with what they do to
  the pool and the history.
- `app.dfy` (module `App`): class `Selector`, whose fields are the component's
  state hooks. Its methods update them in place, and each method is proved
  equal to the matching `Picker` transition and to keep `Inv`.

Randomness is a parameter. Every `Math.random()` draw is a position supplied by
the caller, required to lie inside the set being drawn from. Timers are method
calls. The timers of a pick close over the active set `arr` and over the
avoid-repeat flag as they were at the click, so the session keeps both as
`arr` and `avoidCaptured`. The checkbox stays enabled during a shuffle, and
the settling timer still uses the captured flag.

## Model

| member | source | states |
|---|---|---|
| Stores.Candidates | src/App.jsx:8 | the kept entries are at most as many as the input and all have a non-empty name |
| Stores.InitialList | src/App.jsx:6-11 | a source that is not an array gives the empty list; an array gives only named stores, never more than it had |
| Stores.CandidatesMembership | src/App.jsx:8 | a store is in the list exactly when it occurs in the data as an object with a non-empty name (both directions) |
| Stores.CandidatesAppend | src/App.jsx:8 | filtering keeps the original order: the filter of a concatenation is the concatenation of the filters |
| Stores.CandidatesSingle | src/App.jsx:8 | a single entry is kept exactly when it is an object with a non-empty name |
| Stores.CandidatesKeepsValid | src/App.jsx:8 | when every entry is a named object, the list is the data unchanged, position by position |
| Picker.Initial | src/App.jsx:12-18 | the mounted session has avoid-repeat on, pool equal to the list, no result, no display, empty history, not rolling, and satisfies the invariant |
| Picker.Record | src/App.jsx:49 | the new history starts with the chosen store, continues with the old history in order, and has length min(old length + 1, 10) |
| Picker.WithoutIndex | src/App.jsx:51 | filtering by position removes exactly the element at idx and keeps the others in order; a position outside the sequence removes nothing |
| Picker.WithoutIndexBag | src/App.jsx:51 | positional removal drops one occurrence of the drawn store and shortens the sequence by one, even with duplicates |
| Picker.ActiveSet | src/App.jsx:29 | the active set is the pool when avoid-repeat is on and the pool is non-empty, otherwise the list; it is a sub-multiset of the list and empty exactly when the list is |
| Picker.Start | src/App.jsx:24-35 | while rolling nothing changes; otherwise an empty pool is refilled from the list, an empty active set clears the result and does not start rolling (captured set and flag untouched), a non-empty one starts rolling and captures the active set and the flag; history and display are untouched; the invariant is kept |
| Picker.Frame | src/App.jsx:38-41 | a shuffle frame shows the store at the drawn position of the captured set and changes nothing else; the invariant is kept |
| Picker.Finish | src/App.jsx:43-53 | result is the drawn store, display is cleared, rolling stops, history gains it in front capped at 10; with the captured flag on the pool is the captured set minus the drawn position, with it off the pool is unchanged; the invariant is kept |
| Picker.Reset | src/App.jsx:58-63 | while rolling nothing changes; otherwise result and display are cleared and the pool is the full list; history, list, the flag and the captured set and flag are untouched; the invariant is kept |
| Picker.Toggle | src/App.jsx:110 | the checkbox sets the flag only: pool, captured set and captured flag stay as they were |
| Picker.ShowFrames | src/App.jsx:36-42 | a run of shuffle frames leaves the last drawn store on display and changes nothing else |
| Picker.PickRound | src/App.jsx:24-55 | a click plus its timers: no-op while rolling; with an empty active set only the refill and a cleared result; otherwise the result is the drawn store of the active set, history gains it, and the pool is the active set minus that position under avoid-repeat or the refilled pool without it; never left rolling; the invariant is kept |
| Picker.FramesDoNotMatter | src/App.jsx:37-53 | the settled session does not depend on the shuffle frames' draws |
| Runs.PoolDrains | src/App.jsx:50-52 | under avoid-repeat, k picks from a pool of at least k stores leave a pool of size size - k, and the picked stores plus the remaining pool are exactly the starting pool as a multiset |
| Runs.NoRepeatWithinCycle | src/App.jsx:50-52 | within one avoid-repeat cycle over a pool without duplicates, no store is picked twice |
| Runs.CycleEndsWithRefill | src/App.jsx:26-52 | from a full pool, one pick per store empties the pool, every store is picked exactly as often as it is listed, and the next click refills the pool from the list |
| Runs.TwoStoresBothPicked | src/App.jsx:24-56 | with stores A and B and avoid-repeat on, two picks settle on A and B, in some order |
| Runs.RepeatWithoutAvoid | src/App.jsx:29 | with avoid-repeat off, two picks can settle on the same store |
| Runs.CapAfterPrepend | src/App.jsx:49 | capping the history at each pick agrees with capping once after putting all newer picks in front |
| Runs.PickSettles | src/App.jsx:29-49 | with a non-empty list and the invariant, every pick settles on a store of the active set, keeps the invariant, and puts that store at the front of the history |
| Runs.RecordAllCapped | src/App.jsx:49 | recording picks one at a time into a history of at most 10 leaves them most recent first ahead of the old history, cut to min(old length + picks, 10) |
| Runs.RunRecordsPicks | src/App.jsx:43-49 | with a non-empty list, every pick of a series settles and is recorded in the history in pick order |
| Runs.HistoryOfRun | src/App.jsx:49 | after a series of picks the history is the picks, most recent first, ahead of the old history, cut to min(old length + picks, 10) |
| Runs.HistoryLength | src/App.jsx:49 | from mount, k picks on a non-empty list leave a history of min(k, 10) stores |
| Runs.ResetRestartsCycle | src/App.jsx:58-63 | after any series of avoid-repeat picks on a non-empty list, reset clears the result and keeps the history, and the next click starts rolling and draws from the full list |
| App.Selector.constructor | src/App.jsx:6-18 | mounting filters the data file and sets every state hook to its initial value; the invariant holds |
| App.Selector.Pick | src/App.jsx:24-35 | the click handler updates the fields exactly as Picker.Start and keeps the invariant |
| App.Selector.ShowFrame | src/App.jsx:38-41 | a shuffle timer updates the fields exactly as Picker.Frame and keeps the invariant |
| App.Selector.FinishPick | src/App.jsx:43-53 | the settling timer updates the fields exactly as Picker.Finish and keeps the invariant |
| App.Selector.Reset | src/App.jsx:58-63 | the reset handler updates the fields exactly as Picker.Reset and keeps the invariant |
| App.Selector.SetAvoidRepeat | src/App.jsx:110 | the checkbox handler updates the fields exactly as Picker.Toggle and keeps the invariant |
| App.Selector.Shuffle | src/App.jsx:37-42 | the shuffle timers, fired in index order, update the fields exactly as Picker.ShowFrames: only the last drawn store stays on display |
| App.Selector.PickToCompletion | src/App.jsx:24-56 | a click followed by its twenty frame timers and the settling timer, fired in order, ends in Picker.PickRound of the starting session |

## Left out

- Confetti (`celebrate`, src/App.jsx:65-81): a cosmetic random effect built from floats, the clock and a timer. No selection state depends on it.
- Rendering (src/App.jsx:83-201) is left out. That covers the placeholder image URLs, the image-ready flag and its `setImgReady(false)` at line 35, the history view toggle, the six-store preview and the count label.
- Timer timing: frames and the settling draw are explicit calls. `PickToCompletion` fires them back to back. A checkbox change between two timers is modelled by calling `SetAvoidRepeat` between `ShowFrame`/`FinishPick` calls.
- `Math.random`: each draw is a caller-supplied position, required to lie in the set it draws from. Uniformity is not modelled.
- React's batching and re-rendering: setters are field assignments applied in order. The one place where order shows is the pick handler, which keeps reading the pool it was rendered with after scheduling a refill. `Selector.Pick` reads that value before refilling.
- Address and image of a store are not kept, because only rendering reads them.
- Store names are strings, and a missing name is written as the empty string. JavaScript would also keep an object whose `name` is a truthy non-string, such as a number. The model does not express that case.
- Build configuration (vite.config.js) has no logic to model.

Toggling avoid-repeat does not refill the pool; the checkbox only sets the flag (src/App.jsx:110).
