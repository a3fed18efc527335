/**
 * The activity history and `deleteActivity`, which keeps every stored
 * activity whose id differs from the one given (`activities.filter`).
 */
module History {
  import opened Records

  /** The history without the activities whose id is `id`, in their original order. */
  function Delete(h: seq<Activity>, id: int): (r: seq<Activity>)
    ensures |r| <= |h|
    ensures forall i :: 0 <= i < |r| ==> r[i].id != id
    decreases |h|
  {
    if h == [] then []
    else
      var rest := Delete(h[..|h| - 1], id);
      if h[|h| - 1].id == id then rest else rest + [h[|h| - 1]]
  }

  /** Exactly the activities with id `id` are removed; every other activity keeps its number of occurrences. */
  lemma {:induction false} DeleteCounts(h: seq<Activity>, id: int)
    ensures forall a :: multiset(Delete(h, id))[a] == if a.id == id then 0 else multiset(h)[a]
    decreases |h|
  {
    if h != [] {
      DeleteCounts(h[..|h| - 1], id);
      assert h == h[..|h| - 1] + [h[|h| - 1]];
    }
  }

  /** The activities whose id is `id`: what `Delete` removes. */
  function Matching(h: seq<Activity>, id: int): (r: seq<Activity>)
    ensures forall a :: a in r ==> a.id == id
    decreases |h|
  {
    if h == [] then []
    else
      var rest := Matching(h[..|h| - 1], id);
      if h[|h| - 1].id == id then rest + [h[|h| - 1]] else rest
  }

  /** Deleting from a concatenation deletes from each part, keeping their order. */
  lemma {:induction false} DeleteConcat(h1: seq<Activity>, h2: seq<Activity>, id: int)
    ensures Delete(h1 + h2, id) == Delete(h1, id) + Delete(h2, id)
    decreases |h2|
  {
    if h2 == [] {
      assert h1 + h2 == h1;
    } else {
      var init := h2[..|h2| - 1];
      assert (h1 + h2)[..|h1 + h2| - 1] == h1 + init;
      DeleteConcat(h1, init, id);
    }
  }

  /** Deleting an id that no activity has leaves the history as it was. */
  lemma {:induction false} DeleteAbsent(h: seq<Activity>, id: int)
    requires forall i :: 0 <= i < |h| ==> h[i].id != id
    ensures Delete(h, id) == h
    decreases |h|
  {
    if h != [] {
      var init := h[..|h| - 1];
      assert forall i :: 0 <= i < |init| ==> init[i] == h[i];
      DeleteAbsent(init, id);
    }
  }

  /** Deleting the same id twice is the same as deleting it once. */
  lemma DeleteIdempotent(h: seq<Activity>, id: int)
    ensures Delete(Delete(h, id), id) == Delete(h, id)
  {
    DeleteAbsent(Delete(h, id), id);
  }

  /** Every activity goes either to what `Delete` keeps or to what it removes. */
  lemma {:induction false} DeletePartition(h: seq<Activity>, id: int)
    ensures |Delete(h, id)| + |Matching(h, id)| == |h|
    ensures multiset(Delete(h, id)) + multiset(Matching(h, id)) == multiset(h)
    decreases |h|
  {
    if h != [] {
      DeletePartition(h[..|h| - 1], id);
      assert h == h[..|h| - 1] + [h[|h| - 1]];
    }
  }
}
