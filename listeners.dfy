/** The document's listener list under `addEventListener` and `removeEventListener`:
    adding a listener that is already registered does nothing, and removing one drops
    the matching entry and keeps every other entry. */
module Listeners {

  predicate NoDuplicates<T(==)>(ls: seq<T>)
  {
    forall i, j | 0 <= i < j < |ls| :: ls[i] != ls[j]
  }

  /** The list after `addEventListener(l)`. */
  function Added<T(==)>(ls: seq<T>, l: T): (r: seq<T>)
    ensures l in r
    ensures forall x | x in r :: x in ls || x == l
    ensures forall x | x in ls :: x in r
    ensures l in ls ==> r == ls
    ensures l !in ls ==> |r| == |ls| + 1 && r[..|ls|] == ls
    ensures NoDuplicates(ls) ==> NoDuplicates(r)
  {
    if l in ls then ls else ls + [l]
  }

  /** The list after `removeEventListener(l)`. */
  function Without<T(==)>(ls: seq<T>, l: T): (r: seq<T>)
    ensures l !in r
    ensures forall x | x in r :: x in ls
    ensures forall x | x in ls && x != l :: x in r
    ensures |r| <= |ls|
    decreases |ls|
  {
    if ls == [] then []
    else if ls[0] == l then Without(ls[1..], l)
    else [ls[0]] + Without(ls[1..], l)
  }

  /** Removing a listener that is not registered changes nothing. */
  lemma {:induction false} WithoutAbsent<T>(ls: seq<T>, l: T)
    requires l !in ls
    ensures Without(ls, l) == ls
    decreases |ls|
  {
    if ls != [] {
      assert ls[0] != l && l !in ls[1..];
      WithoutAbsent(ls[1..], l);
      assert ls == [ls[0]] + ls[1..];
    }
  }

  /** Removing a listener drops an entry for it at the end of the list. */
  lemma {:induction false} WithoutAppended<T>(ls: seq<T>, l: T)
    ensures Without(ls + [l], l) == Without(ls, l)
    decreases |ls|
  {
    if ls == [] {
      assert ls + [l] == [l];
    } else {
      assert (ls + [l])[1..] == ls[1..] + [l];
      WithoutAppended(ls[1..], l);
    }
  }

  /** Registering a new listener and then removing it restores the list exactly: the
      list grows by one entry and shrinks by that same entry. */
  lemma AddThenRemoveRestores<T>(ls: seq<T>, l: T)
    requires l !in ls
    ensures |Added(ls, l)| == |ls| + 1
    ensures Without(Added(ls, l), l) == ls
  {
    WithoutAppended(ls, l);
    WithoutAbsent(ls, l);
  }
}
