/** Cells of a complex and their boundary (`boundary` in lib.py). A cell is a
    tuple of vertex labels: a vertex is a 1-tuple `(a,)`, an edge a 2-tuple
    `(a, b)`. */
module Cells {
  import opened Seqs

  /** A cell: Python tuples of ints compare and hash by value, as sequences do. */
  type Cube = seq<int>

  /** How `tuple(set(cube) - {x})` lists its set: the interpreter picks the
      order, and that order may depend on how the set was built from `cube`,
      not only on its contents. The model takes it as a parameter, applied to
      the cell and the set. */
  type SetOrder = (Cube, set<int>) -> seq<int>

  /** `t` lists every element of `s` exactly once. */
  ghost predicate Enumerates(t: seq<int>, s: set<int>)
  {
    |t| == |s| && Elems(t) == s
  }

  /** `order` turns the set `s`, built from the cell `c`, into a tuple that
      lists each element once. */
  ghost predicate Lists(order: SetOrder, c: Cube, s: set<int>)
  {
    Enumerates(order(c, s), s)
  }

  /** Turning any set, built from any cell, into a tuple lists each of its
      elements once. */
  ghost predicate ValidOrder(order: SetOrder)
  {
    forall c: Cube, s: set<int> :: Lists(order, c, s)
  }

  /** A set with one element becomes a 1-tuple, whatever the order. */
  lemma SingletonTuple(order: SetOrder, c: Cube, a: int)
    requires ValidOrder(order)
    ensures order(c, {a}) == [a]
  {
    var t := order(c, {a});
    assert Lists(order, c, {a});
    assert t[0] in Elems(t);
  }

  /** `boundary(cube)`: no faces for a 1-tuple; otherwise, for every entry `x`
      of the cell in turn, `tuple(set(cube) - {x})`. */
  function Boundary(cube: Cube, order: SetOrder): (faces: seq<Cube>)
    ensures |cube| == 1 ==> faces == []
    ensures |cube| != 1 ==> |faces| == |cube|
  {
    if |cube| == 1 then []
    else seq(|cube|, i requires 0 <= i < |cube| => order(cube, Elems(cube) - {cube[i]}))
  }

  /** Each face lists the cell's set of entries without the entry it drops. */
  lemma BoundaryFaces(cube: Cube, order: SetOrder)
    requires ValidOrder(order) && |cube| != 1
    ensures forall i :: 0 <= i < |cube| ==> Enumerates(Boundary(cube, order)[i], Elems(cube) - {cube[i]})
  {
    forall i | 0 <= i < |cube|
      ensures Enumerates(Boundary(cube, order)[i], Elems(cube) - {cube[i]})
    {
      assert Boundary(cube, order)[i] == order(cube, Elems(cube) - {cube[i]});
      assert Lists(order, cube, Elems(cube) - {cube[i]});
    }
  }

  /** Dropping one entry from a cell of distinct entries leaves one fewer. */
  lemma DropOneCard(cube: Cube, i: nat)
    requires NoDuplicates(cube) && i < |cube|
    ensures |Elems(cube) - {cube[i]}| == |cube| - 1
  {
    NoDuplicatesCard(cube);
    assert cube[i] in Elems(cube);
    assert Elems(cube) == (Elems(cube) - {cube[i]}) + {cube[i]};
  }

  /** A cell of `n` distinct entries has `n` pairwise distinct faces, each of
      `n - 1` distinct entries. */
  lemma BoundaryOfDistinct(cube: Cube, order: SetOrder)
    requires ValidOrder(order) && NoDuplicates(cube) && |cube| != 1
    ensures NoDuplicates(Boundary(cube, order))
    ensures forall i :: 0 <= i < |cube| ==> |Boundary(cube, order)[i]| == |cube| - 1
  {
    var faces := Boundary(cube, order);
    BoundaryFaces(cube, order);
    forall i | 0 <= i < |cube| ensures |faces[i]| == |cube| - 1 {
      DropOneCard(cube, i);
    }
    forall i, j | 0 <= i < j < |faces| ensures faces[i] != faces[j] {
      assert Elems(faces[i]) == Elems(cube) - {cube[i]};
      assert Elems(faces[j]) == Elems(cube) - {cube[j]};
      assert cube[j] in Elems(cube);
    }
  }

  /** The faces of an edge `(a, b)` with `a != b` are `(b,)` and `(a,)`. */
  lemma EdgeBoundary(order: SetOrder, a: int, b: int)
    requires ValidOrder(order) && a != b
    ensures Boundary([a, b], order) == [[b], [a]]
  {
    var faces := Boundary([a, b], order);
    assert Elems([a, b]) - {a} == {b} && Elems([a, b]) - {b} == {a};
    assert faces[0] == order([a, b], {b}) && faces[1] == order([a, b], {a});
    SingletonTuple(order, [a, b], b);
    SingletonTuple(order, [a, b], a);
  }

  /** A degenerate edge `(a, a)` has the empty tuple `()` twice as its faces. */
  lemma DegenerateEdgeBoundary(order: SetOrder, a: int)
    requires ValidOrder(order)
    ensures Boundary([a, a], order) == [[], []]
  {
    var faces := Boundary([a, a], order);
    assert Elems([a, a]) - {a} == {};
    assert faces[0] == order([a, a], {}) && faces[1] == order([a, a], {});
    assert Lists(order, [a, a], {});
  }

  /** A set that is not empty has an element. */
  lemma NonEmptyHas(s: set<int>)
    requires s != {}
    ensures exists x :: x in s
  {
    if forall x :: x !in s {
      assert false;
    }
  }

  /** Some listing of each set of labels. */
  ghost function SomeListing(s: set<int>): (t: seq<int>)
    ensures Enumerates(t, s)
    decreases |s|
  {
    if s == {} then []
    else
      NonEmptyHas(s);
      var x :| x in s;
      var t := SomeListing(s - {x});
      assert Elems([x] + t) == {x} + (s - {x}) == s;
      [x] + t
  }

  /** The same set of labels may be listed differently for two cells: here
      the face `{1, 9}` comes out as `(1, 9)` from the cell `(1, 9, 5)` and as
      `(9, 1)` from the cell `(9, 1, 3)`, under an order that lists every set
      once. Faces of different cells with equal label sets need not be the
      same tuple, so they need not share a rank. */
  lemma CellDependentFaces() returns (order: SetOrder)
    ensures ValidOrder(order)
    ensures Boundary([1, 9, 5], order)[2] == [1, 9]
    ensures Boundary([9, 1, 3], order)[2] == [9, 1]
  {
    order := (c: Cube, s: set<int>) =>
      if s == {1, 9} then (if c == [9, 1, 3] then [9, 1] else [1, 9]) else SomeListing(s);
    forall c: Cube, s: set<int> ensures Lists(order, c, s) {
      if s == {1, 9} {
        assert Elems([9, 1]) == s && Elems([1, 9]) == s;
      }
    }
    assert Elems([1, 9, 5]) - {5} == {1, 9};
    assert Elems([9, 1, 3]) - {3} == {1, 9};
  }
}
