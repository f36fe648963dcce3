/**
 * `OrderedSet`: a set that remembers insertion order, kept as an array of
 * the elements in the order first inserted and a hash set of the same
 * elements.
 */
module OrderedSets {

  class OrderedSet<T(==,!new)> {
    /** The elements in first-insertion order (`array`). */
    var elements: seq<T>
    /** The same elements, for membership tests (`set`). */
    var members: set<T>

    /** The array and the set hold the same elements, each once. */
    ghost predicate Valid()
      reads this
    {
      && (forall x :: x in members <==> x in elements)
      && (forall i, j :: 0 <= i < j < |elements| ==> elements[i] != elements[j])
    }

    constructor()
      ensures Valid()
      ensures elements == [] && members == {}
    {
      elements := [];
      members := {};
    }

    /** `isEmpty`. */
    function IsEmpty(): (r: bool)
      reads this
      requires Valid()
      ensures r <==> members == {}
    {
      assert elements != [] ==> elements[0] in members;
      elements == []
    }

    /** `contains`: answered by the set, and agrees with the array. */
    function Contains(x: T): (r: bool)
      reads this
      requires Valid()
      ensures r <==> x in elements
    {
      x in members
    }

    /** `insert`: a new element goes to the set and to the end of the array;
        an element already present changes nothing. */
    method Insert(x: T)
      requires Valid()
      modifies this
      ensures Valid()
      ensures members == old(members) + {x}
      ensures x in old(members) ==> elements == old(elements)
      ensures x !in old(members) ==> elements == old(elements) + [x]
    {
      if x !in members {
        members := members + {x};
        elements := elements + [x];
      }
    }
  }
}
