/** Elimination of border grains: the connected components of the image that
    touch the border of the image domain are removed from the vector of
    components, in place, keeping the order of the others. */
module BorderElimination {
  import opened Geometry

  /** A digital object: the point set of one connected component. */
  datatype DigitalObject = DigitalObject(points: set<Point>)

  /** A grain touches the border when one of its points lies on a border line.
      An empty grain never does, and every point of the domain that belongs to
      a grain touching no border line lies strictly inside the domain. */
  predicate TouchesBorder(o: DigitalObject, d: Domain)
    ensures o.points == {} ==> !TouchesBorder(o, d)
    ensures !TouchesBorder(o, d) ==>
      forall p :: p in o.points && InDomain(p, d) ==> StrictlyInside(p, d)
  {
    exists p :: p in o.points && OnBorder(p, d)
  }

  /** The predicate handed to remove_if: it visits the points of the object one
      at a time, answers true at the first point on a border line, and answers
      false only once every point has been visited. The order in which the point
      set is visited is left open. */
  method IsBorderGrain(o: DigitalObject, d: Domain) returns (touches: bool)
    ensures touches <==> TouchesBorder(o, d)
  {
    var remaining := o.points;
    while remaining != {}
      invariant remaining <= o.points
      invariant forall q :: q in o.points && q !in remaining ==> !OnBorder(q, d)
      decreases remaining
    {
      var p :| p in remaining;
      if OnBorder(p, d) {
        return true;
      }
      remaining := remaining - {p};
    }
    return false;
  }

  /** The components that survive the elimination, in their original order:
      no more than there were, each taken from the input, and none with a point
      on any of the four border lines. */
  function Interior(objects: seq<DigitalObject>, d: Domain): (r: seq<DigitalObject>)
    ensures |r| <= |objects|
    ensures forall i :: 0 <= i < |r| ==> r[i] in objects
    ensures forall i, p :: 0 <= i < |r| && p in r[i].points ==> !OnBorder(p, d)
  {
    if objects == [] then []
    else (if TouchesBorder(objects[0], d) then [] else [objects[0]]) + Interior(objects[1..], d)
  }

  /** The number of components that touch the border. */
  function BorderCount(objects: seq<DigitalObject>, d: Domain): nat {
    if objects == [] then 0
    else (if TouchesBorder(objects[0], d) then 1 else 0) + BorderCount(objects[1..], d)
  }

  /** Filtering a concatenation filters each part and keeps them in order:
      the relative order of the survivors is the order of the input. */
  lemma {:induction false} InteriorAppend(a: seq<DigitalObject>, b: seq<DigitalObject>, d: Domain)
    ensures Interior(a + b, d) == Interior(a, d) + Interior(b, d)
  {
    if a == [] {
      assert a + b == b;
    } else {
      assert (a + b)[1..] == a[1..] + b;
      InteriorAppend(a[1..], b, d);
    }
  }

  /** One more component at the end is kept exactly when it does not touch the border. */
  lemma InteriorSnoc(a: seq<DigitalObject>, o: DigitalObject, d: Domain)
    ensures Interior(a + [o], d) == Interior(a, d) + (if TouchesBorder(o, d) then [] else [o])
  {
    InteriorAppend(a, [o], d);
    assert [o][1..] == [];
  }

  /** A component is kept exactly when it is in the input and touches no
      border line; a kept component appears as often as in the input. */
  lemma {:induction false} InteriorMultiset(objects: seq<DigitalObject>, d: Domain, o: DigitalObject)
    ensures multiset(Interior(objects, d))[o] == if TouchesBorder(o, d) then 0 else multiset(objects)[o]
    ensures o in Interior(objects, d) <==> o in objects && !TouchesBorder(o, d)
  {
    if objects != [] {
      InteriorMultiset(objects[1..], d, o);
      assert objects == [objects[0]] + objects[1..];
    }
  }

  /** The count before the elimination is the count after it plus the number
      of border-touching components. */
  lemma {:induction false} InteriorCount(objects: seq<DigitalObject>, d: Domain)
    ensures |Interior(objects, d)| + BorderCount(objects, d) == |objects|
  {
    if objects != [] {
      InteriorCount(objects[1..], d);
    }
  }

  /** Eliminating border grains a second time removes nothing. */
  lemma {:induction false} InteriorIdempotent(objects: seq<DigitalObject>, d: Domain)
    ensures Interior(Interior(objects, d), d) == Interior(objects, d)
    ensures BorderCount(Interior(objects, d), d) == 0
  {
    if objects != [] {
      var rest := Interior(objects[1..], d);
      InteriorIdempotent(objects[1..], d);
      if !TouchesBorder(objects[0], d) {
        var kept := [objects[0]] + rest;
        assert Interior(objects, d) == kept;
        assert kept[0] == objects[0] && kept[1..] == rest;
      } else {
        assert Interior(objects, d) == rest;
      }
    }
  }

  /** When no component touches the border the vector is left as it is. */
  lemma {:induction false} InteriorOfClean(objects: seq<DigitalObject>, d: Domain)
    requires forall i :: 0 <= i < |objects| ==> !TouchesBorder(objects[i], d)
    ensures Interior(objects, d) == objects
  {
    if objects != [] {
      InteriorOfClean(objects[1..], d);
      assert objects == [objects[0]] + objects[1..];
    }
  }

  /** When every component touches the border nothing survives. */
  lemma {:induction false} InteriorOfAllBorder(objects: seq<DigitalObject>, d: Domain)
    requires forall i :: 0 <= i < |objects| ==> TouchesBorder(objects[i], d)
    ensures Interior(objects, d) == []
  {
    if objects != [] {
      InteriorOfAllBorder(objects[1..], d);
    }
  }

  /** The first survivor is the first component of the input that does not
      touch the border; every component before it touches the border. */
  lemma {:induction false} InteriorHead(objects: seq<DigitalObject>, d: Domain)
    requires Interior(objects, d) != []
    ensures exists i :: (0 <= i < |objects| && objects[i] == Interior(objects, d)[0]
                         && !TouchesBorder(objects[i], d)
                         && forall j :: 0 <= j < i ==> TouchesBorder(objects[j], d))
  {
    if TouchesBorder(objects[0], d) {
      InteriorHead(objects[1..], d);
      var i :| 0 <= i < |objects[1..]| && objects[1..][i] == Interior(objects[1..], d)[0]
        && !TouchesBorder(objects[1..][i], d)
        && forall j :: 0 <= j < i ==> TouchesBorder(objects[1..][j], d);
      assert objects[i + 1] == Interior(objects, d)[0];
      assert forall j :: 0 <= j < i + 1 ==> TouchesBorder(objects[j], d) by {
        forall j | 0 <= j < i + 1 ensures TouchesBorder(objects[j], d) {
          if j > 0 { assert objects[j] == objects[1..][j - 1]; }
        }
      }
    } else {
      assert objects[0] == Interior(objects, d)[0];
    }
  }

  /** The vector of connected components (std::vector of digital objects):
      a buffer and the number of elements in use. */
  class ComponentVector {
    var data: array<DigitalObject>
    var size: nat

    ghost predicate Valid()
      reads this
    {
      size <= data.Length
    }

    /** The elements of the vector, front to back. */
    ghost function Elements(): seq<DigitalObject>
      reads this, data
      requires Valid()
    {
      data[..size]
    }

    /** A vector filled, in order, with the components handed to its inserter. */
    constructor FromComponents(components: seq<DigitalObject>)
      ensures Valid() && fresh(data)
      ensures Elements() == components
    {
      data := new DigitalObject[|components|](i requires 0 <= i < |components| => components[i]);
      size := |components|;
    }

    /** The number of elements. */
    method Size() returns (n: nat)
      requires Valid()
      ensures n == |Elements()|
    {
      n := size;
    }

    /** remove_if over [begin, end) with IsBorderGrain: the elements that do
        not touch the border are moved, in order, to the front; the returned
        position is the end of that range. What lies between it and the old
        end is unspecified. */
    method RemoveIfBorderGrain(d: Domain) returns (newEnd: nat)
      requires Valid()
      modifies data
      ensures Valid() && size == old(size)
      ensures newEnd <= size
      ensures data[..newEnd] == Interior(old(Elements()), d)
    {
      ghost var original := data[..size];
      var write := 0;
      var read := 0;
      while read < size
        invariant write <= read <= size
        invariant data[..write] == Interior(original[..read], d)
        invariant forall k :: read <= k < size ==> data[k] == original[k]
      {
        var o := data[read];
        var touches := IsBorderGrain(o, d);
        assert original[..read + 1] == original[..read] + [o];
        InteriorSnoc(original[..read], o, d);
        if !touches {
          ghost var kept := data[..write];
          data[write] := o;
          assert data[..write + 1] == kept + [o];
          write := write + 1;
        }
        read := read + 1;
      }
      assert original[..size] == original;
      newEnd := write;
    }

    /** erase(first, end): the vector is truncated to its first `first` elements. */
    method EraseFrom(first: nat)
      requires Valid() && first <= size
      modifies this`size
      ensures Valid()
      ensures Elements() == old(Elements())[..first]
    {
      size := first;
    }

    /** The erase/remove_if idiom applied with IsBorderGrain: afterwards the
        vector holds exactly the components that touch no border line, in their
        original order, and its size dropped by the number of border grains. */
    method EliminateBorderGrains(d: Domain)
      requires Valid()
      modifies this, data
      ensures Valid() && data == old(data)
      ensures Elements() == Interior(old(Elements()), d)
      ensures |Elements()| + BorderCount(old(Elements()), d) == |old(Elements())|
    {
      var newEnd := RemoveIfBorderGrain(d);
      EraseFrom(newEnd);
      InteriorCount(old(Elements()), d);
    }
  }
}
