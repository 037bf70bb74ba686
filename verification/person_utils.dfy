/** The difference of two sets of strings, as the lists of added and removed elements.

    A Java `Set` argument is modelled by its iteration order: a sequence without
    repetitions; a null argument is `None`. */
module PersonUtils {
  import opened Wrappers
  import opened SeqUtil

  datatype SetDiffResult = SetDiffResult(added: seq<string>, removed: seq<string>) {

    /** `isEmpty`: no element was added and none removed. */
    predicate IsEmpty() {
      |added| == 0 && |removed| == 0
    }
  }

  /** A null set reads as the empty set. */
  function OrEmpty(s: Option<seq<string>>): seq<string> {
    match s
    case Some(elements) => elements
    case None => []
  }

  predicate IsSet(s: Option<seq<string>>) {
    s.Some? ==> Distinct(s.value)
  }

  /** `takeDifference(s1, s2)`: the elements of `s2` missing from `s1` (added) and those
      of `s1` missing from `s2` (removed), each list in its set's iteration order. */
  function TakeDifference(s1: Option<seq<string>>, s2: Option<seq<string>>): (r: SetDiffResult)
    requires IsSet(s1) && IsSet(s2)
    ensures Elems(r.added) == Elems(OrEmpty(s2)) - Elems(OrEmpty(s1))
    ensures Elems(r.removed) == Elems(OrEmpty(s1)) - Elems(OrEmpty(s2))
    ensures Distinct(r.added) && Distinct(r.removed)
    ensures Elems(r.added) !! Elems(r.removed)
    ensures r.IsEmpty() <==> Elems(OrEmpty(s1)) == Elems(OrEmpty(s2))
  {
    var a := OrEmpty(s1);
    var b := OrEmpty(s2);
    var added := Filter(b, NotIn(a));
    var removed := Filter(a, NotIn(b));
    FilterDistinct(b, NotIn(a));
    FilterDistinct(a, NotIn(b));
    NoDifferenceWhenEqual(a, b);
    NoDifferenceWhenEqual(b, a);
    SetDiffResult(added, removed)
  }

  /** Membership test against the other set, as the list's `removeAll` applies it. */
  function NotIn(other: seq<string>): string -> bool {
    x => x !in other
  }

  lemma NoDifferenceWhenEqual(a: seq<string>, b: seq<string>)
    ensures Elems(a) == Elems(b) ==> Filter(b, NotIn(a)) == []
  {
    if Elems(a) == Elems(b) {
      forall i | 0 <= i < |b| ensures !NotIn(a)(b[i]) {
        assert b[i] in Elems(a);
      }
      FilterKeepsNothing(b, NotIn(a));
    }
  }


  /** A null argument is the empty set. */
  lemma NullIsEmptySet(s: Option<seq<string>>)
    requires IsSet(s)
    ensures TakeDifference(None, s) == TakeDifference(Some([]), s)
    ensures TakeDifference(s, None) == TakeDifference(s, Some([]))
  {
  }

  /** A set compared with itself has no difference. */
  lemma SameSetHasNoDifference(s: Option<seq<string>>)
    requires IsSet(s)
    ensures TakeDifference(s, s).IsEmpty()
  {
  }

  /** Swapping the arguments swaps the added and removed lists. */
  lemma SwapArgumentsSwapsResult(s1: Option<seq<string>>, s2: Option<seq<string>>)
    requires IsSet(s1) && IsSet(s2)
    ensures TakeDifference(s2, s1).added == TakeDifference(s1, s2).removed
    ensures TakeDifference(s2, s1).removed == TakeDifference(s1, s2).added
  {
  }
}
