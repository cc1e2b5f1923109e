/** `CubicalComplex` of lib.py: a list of cells, never changed after it is
    built, with two filtering queries. */
module Complexes {
  import opened Seqs
  import opened Cells

  /** The test in `vertices`: a vertex is a 1-tuple. */
  predicate IsVertex(c: Cube)
  {
    |c| == 1
  }

  /** The test in `adjacent_cubes`: the cell has the label `a` among its entries. */
  function HasLabel(a: int): Cube -> bool
  {
    c => a in c
  }

  /** A complex: its cells in the order they were given (`self.cubes`). */
  datatype Complex = Complex(cubes: seq<Cube>)
  {
    /** `k.vertices()`: the 1-tuples among the cells, in stored order. */
    function Vertices(): (vs: seq<Cube>)
      ensures forall c :: c in vs <==> c in cubes && |c| == 1
    {
      Filter(cubes, IsVertex)
    }

    /** `k.adjacent_cubes(v)`: the cells that have `v[0]` among their entries,
        in stored order; when `v` itself is stored, it is one of them. */
    function AdjacentCubes(v: Cube): (cs: seq<Cube>)
      requires |v| > 0
      ensures forall c :: c in cs <==> c in cubes && v[0] in c
      ensures v in cubes ==> v in cs
    {
      Filter(cubes, HasLabel(v[0]))
    }
  }

  /** Both queries keep stored order: on a complex whose cell list is `a + b`
      they answer the query on `a` followed by the query on `b`. */
  lemma {:induction false} QueriesKeepOrder(a: seq<Cube>, b: seq<Cube>, v: Cube)
    requires |v| > 0
    ensures Complex(a + b).Vertices() == Complex(a).Vertices() + Complex(b).Vertices()
    ensures Complex(a + b).AdjacentCubes(v) == Complex(a).AdjacentCubes(v) + Complex(b).AdjacentCubes(v)
  {
    FilterAppend(a, b, IsVertex);
    FilterAppend(a, b, HasLabel(v[0]));
  }

  /** On a complex of vertices only, `vertices()` is the whole list. */
  lemma {:induction false} VerticesOfVertices(k: Complex)
    requires forall c :: c in k.cubes ==> |c| == 1
    ensures k.Vertices() == k.cubes
  {
    FilterAll(k.cubes, IsVertex);
  }
}
