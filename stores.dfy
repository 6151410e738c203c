/**
 * The candidate stores and the filter that builds the candidate list from the
 * bundled data file when the picker starts.
 */
module Stores {

  /** A restaurant. Address and image only matter for rendering and are not kept. */
  datatype Store = Store(name: string, favorites: seq<string>)

  /**
   * One element of the data file as JavaScript sees it. `NotAnObject` stands
   * for `null` and primitives, which fail `typeof s === 'object'`, and also for
   * nested arrays, which pass that test but carry no `name`: the filter drops
   * all of them. An object whose `name` is missing is written with the empty
   * name: both are falsy, which is all the filter looks at.
   */
  datatype Entry = NotAnObject | Object(store: Store)

  /** The imported data file: an array of entries, or any other JSON value. */
  datatype Source = NotAnArray | Array(entries: seq<Entry>)

  /** `s && typeof s === 'object' && s.name`: an object with a non-empty name. */
  predicate IsCandidate(e: Entry) {
    e.Object? && e.store.name != ""
  }

  /** The stores of `entries` that pass the filter, in their original order. */
  function Candidates(entries: seq<Entry>): (r: seq<Store>)
    ensures |r| <= |entries|
    ensures forall i :: 0 <= i < |r| ==> r[i].name != ""
  {
    if entries == [] then []
    else if IsCandidate(entries[0]) then [entries[0].store] + Candidates(entries[1..])
    else Candidates(entries[1..])
  }

  /** The candidate list computed once when the picker is created. */
  function InitialList(src: Source): (r: seq<Store>)
    ensures src.NotAnArray? ==> r == []
    ensures forall i :: 0 <= i < |r| ==> r[i].name != ""
    ensures src.Array? ==> |r| <= |src.entries|
  {
    match src
    case Array(entries) => Candidates(entries)
    case NotAnArray => []
  }

  /** A store is a candidate exactly when it occurs as a named object entry. */
  lemma {:induction false} CandidatesMembership(entries: seq<Entry>, s: Store)
    ensures s in Candidates(entries) <==> Object(s) in entries && s.name != ""
  {
    if entries != [] {
      CandidatesMembership(entries[1..], s);
      assert entries == [entries[0]] + entries[1..];
    }
  }

  /** The filter keeps order: filtering a concatenation concatenates the filtered parts. */
  lemma {:induction false} CandidatesAppend(a: seq<Entry>, b: seq<Entry>)
    ensures Candidates(a + b) == Candidates(a) + Candidates(b)
  {
    if a == [] {
      assert a + b == b;
    } else {
      assert (a + b)[0] == a[0];
      assert (a + b)[1..] == a[1..] + b;
      CandidatesAppend(a[1..], b);
    }
  }

  /** On a single entry the filter keeps it exactly when it is a candidate. */
  lemma CandidatesSingle(e: Entry)
    ensures Candidates([e]) == if IsCandidate(e) then [e.store] else []
  {
  }

  /** When every entry is a named object, nothing is dropped. */
  lemma {:induction false} CandidatesKeepsValid(entries: seq<Entry>)
    requires forall i :: 0 <= i < |entries| ==> entries[i].Object? && entries[i].store.name != ""
    ensures |Candidates(entries)| == |entries|
    ensures forall i :: 0 <= i < |entries| ==> Candidates(entries)[i] == entries[i].store
  {
    if entries != [] {
      CandidatesKeepsValid(entries[1..]);
    }
  }
}
