/** The complex built at the end of lib.py (lines 53-62), a square on the
    vertices 1, 2, 3, 4, filtered by `sum`. */
module Example {
  import opened Seqs
  import opened Sorting
  import opened Cells
  import opened Complexes
  import opened Filtration
  import opened BoundaryMatrix

  /** Python's `sum` of a tuple; on a vertex `(a,)` it is `a`. */
  function Sum(c: Cube): (s: int)
    ensures |c| == 1 ==> s == c[0]
  {
    if c == [] then 0 else c[0] + Sum(c[1..])
  }

  /** `Sum` agrees with `sum`'s left-to-right accumulation: the sum of `c` is
      the sum of all but its last entry, plus the last entry. */
  lemma {:induction false} SumLeftToRight(c: Cube)
    requires c != []
    ensures Sum(c) == Sum(c[..|c| - 1]) + c[|c| - 1]
  {
    if |c| > 1 {
      SumLeftToRight(c[1..]);
      assert c[1..][..|c[1..]| - 1] == c[..|c| - 1][1..];
    }
  }

  /** The square: four vertices, then the edges `(1, 2)`, `(2, 3)`, `(3, 4)`,
      `(4, 1)`. It has eight cells, each a vertex or an edge. */
  function Square(): (k: Complex)
    ensures |k.cubes| == 8
    ensures forall c :: c in k.cubes ==> 1 <= |c| <= 2
  {
    Complex([[1], [2], [3], [4], [1, 2], [2, 3], [3, 4], [4, 1]])
  }

  /** An element with a smaller key than all of `s` is inserted last. */
  lemma {:induction false} InsertLast(x: Cube, s: seq<Cube>)
    requires forall i :: 0 <= i < |s| ==> Sum(s[i]) > Sum(x)
    ensures Insert(x, s, Sum) == s + [x]
  {
    if s != [] {
      InsertLast(x, s[1..]);
      assert s == [s[0]] + s[1..];
    }
  }

  lemma SortOne(d: Cube)
    ensures SortDescending([d], Sum) == [d]
  {
    assert [d][1..] == [];
  }

  lemma SortTwo(c: Cube, d: Cube)
    requires Sum(c) < Sum(d)
    ensures SortDescending([c, d], Sum) == [d, c]
  {
    assert [c, d][1..] == [d];
    SortOne(d);
    InsertLast(c, [d]);
  }

  lemma InsertThird(b: Cube, d: Cube, c: Cube)
    requires Sum(b) < Sum(c) < Sum(d)
    ensures Insert(b, [d, c], Sum) == [d, c, b]
  {
    InsertLast(b, [d, c]);
  }

  lemma SortThree(b: Cube, c: Cube, d: Cube)
    requires Sum(b) < Sum(c) < Sum(d)
    ensures SortDescending([b, c, d], Sum) == [d, c, b]
  {
    assert [b, c, d][1..] == [c, d];
    SortTwo(c, d);
    InsertThird(b, d, c);
  }

  lemma InsertFourth(a: Cube, d: Cube, c: Cube, b: Cube)
    requires Sum(a) < Sum(b) < Sum(c) < Sum(d)
    ensures Insert(a, [d, c, b], Sum) == [d, c, b, a]
  {
    InsertLast(a, [d, c, b]);
  }

  /** Four cells with strictly increasing sums come out reversed. */
  lemma SortFour(a: Cube, b: Cube, c: Cube, d: Cube)
    requires Sum(a) < Sum(b) < Sum(c) < Sum(d)
    ensures SortDescending([a, b, c, d], Sum) == [d, c, b, a]
  {
    assert [a, b, c, d][1..] == [b, c, d];
    SortThree(b, c, d);
    InsertFourth(a, d, c, b);
  }

  /** The vertices of the square, in stored order. */
  lemma SquareVertices(k: Complex, vs: seq<Cube>, es: seq<Cube>)
    requires vs == [[1], [2], [3], [4]] && es == [[1, 2], [2, 3], [3, 4], [4, 1]]
    requires k.cubes == vs + es
    ensures k.Vertices() == vs
  {
    FilterAppend(vs, es, IsVertex);
    SquareVertexCells(vs);
    SquareEdgeCells(es);
  }

  lemma SquareVertexCells(vs: seq<Cube>)
    requires vs == [[1], [2], [3], [4]]
    ensures Complex(vs).Vertices() == vs
  {
    VerticesOfVertices(Complex(vs));
  }

  lemma SquareEdgeCells(es: seq<Cube>)
    requires es == [[1, 2], [2, 3], [3, 4], [4, 1]]
    ensures Complex(es).Vertices() == []
  {
    FilterNone(es, IsVertex);
  }

  /** The vertices are visited from the largest label down. */
  lemma SquareVisitOrder(k: Complex, vs: seq<Cube>, es: seq<Cube>)
    requires vs == [[1], [2], [3], [4]] && es == [[1, 2], [2, 3], [3, 4], [4, 1]]
    requires k.cubes == vs + es
    ensures VisitOrder(k, Sum) == [[4], [3], [2], [1]]
  {
    SquareVertices(k, vs, es);
    SortFour([1], [2], [3], [4]);
  }

  /** The cells of the square holding the label `a`: the vertex `(a,)` among
      the vertices, and the edges `ea` among the edges. */
  lemma SquareBlock(k: Complex, vs: seq<Cube>, es: seq<Cube>, a: int, ea: seq<Cube>)
    requires vs == [[1], [2], [3], [4]] && es == [[1, 2], [2, 3], [3, 4], [4, 1]]
    requires k.cubes == vs + es
    requires Filter(vs, HasLabel(a)) == [[a]] && Filter(es, HasLabel(a)) == ea
    ensures Block(k, [a]) == [[a]] + ea + [[a]]
  {
    FilterAppend(vs, es, HasLabel(a));
  }

  /** Which vertices of the square hold each label. */
  lemma VertexLabelOne(vs: seq<Cube>)
    requires vs == [[1], [2], [3], [4]]
    ensures Filter(vs, HasLabel(1)) == [[1]]
  {
    assert Filter([[1], [2], [3], [4]], HasLabel(1)) == [[1]];
  }

  lemma VertexLabelTwo(vs: seq<Cube>)
    requires vs == [[1], [2], [3], [4]]
    ensures Filter(vs, HasLabel(2)) == [[2]]
  {
    assert Filter([[1], [2], [3], [4]], HasLabel(2)) == [[2]];
  }

  lemma VertexLabelThree(vs: seq<Cube>)
    requires vs == [[1], [2], [3], [4]]
    ensures Filter(vs, HasLabel(3)) == [[3]]
  {
    assert Filter([[1], [2], [3], [4]], HasLabel(3)) == [[3]];
  }

  lemma VertexLabelFour(vs: seq<Cube>)
    requires vs == [[1], [2], [3], [4]]
    ensures Filter(vs, HasLabel(4)) == [[4]]
  {
    assert Filter([[1], [2], [3], [4]], HasLabel(4)) == [[4]];
  }

  /** Which edges of the square hold each label. */
  lemma EdgeLabelOne(es: seq<Cube>)
    requires es == [[1, 2], [2, 3], [3, 4], [4, 1]]
    ensures Filter(es, HasLabel(1)) == [[1, 2], [4, 1]]
  {
    assert Filter([[1, 2], [2, 3], [3, 4], [4, 1]], HasLabel(1)) == [[1, 2], [4, 1]];
  }

  lemma EdgeLabelTwo(es: seq<Cube>)
    requires es == [[1, 2], [2, 3], [3, 4], [4, 1]]
    ensures Filter(es, HasLabel(2)) == [[1, 2], [2, 3]]
  {
    assert Filter([[1, 2], [2, 3], [3, 4], [4, 1]], HasLabel(2)) == [[1, 2], [2, 3]];
  }

  lemma EdgeLabelThree(es: seq<Cube>)
    requires es == [[1, 2], [2, 3], [3, 4], [4, 1]]
    ensures Filter(es, HasLabel(3)) == [[2, 3], [3, 4]]
  {
    assert Filter([[1, 2], [2, 3], [3, 4], [4, 1]], HasLabel(3)) == [[2, 3], [3, 4]];
  }

  lemma EdgeLabelFour(es: seq<Cube>)
    requires es == [[1, 2], [2, 3], [3, 4], [4, 1]]
    ensures Filter(es, HasLabel(4)) == [[3, 4], [4, 1]]
  {
    assert Filter([[1, 2], [2, 3], [3, 4], [4, 1]], HasLabel(4)) == [[3, 4], [4, 1]];
  }

  /** Visiting `[a, b, c, d]` examines the four blocks in turn. */
  lemma VisitsFour(k: Complex, a: Cube, b: Cube, c: Cube, d: Cube)
    requires |a| > 0 && |b| > 0 && |c| > 0 && |d| > 0
    ensures Visits(k, [a, b, c, d]) == Block(k, a) + Block(k, b) + Block(k, c) + Block(k, d)
  {
    var vs := [a, b, c, d];
    assert vs[..1] == [a] && vs[..4] == vs;
    VisitsOne(k, a);
    VisitsStep(k, vs, 1);
    VisitsStep(k, vs, 2);
    VisitsStep(k, vs, 3);
  }

  /** One step of the fold. */
  lemma ClaimOne(r: Ranking, c: Cube)
    ensures Claim(r, [c]) == if c in r.ranks then r else Ranking(r.ranks[c := r.next - 1], r.next - 1)
  {
    assert [c][..0] == [];
  }

  /** A block of four cells is claimed one cell at a time. */
  lemma ClaimBlock(r: Ranking, a: Cube, b: Cube, c: Cube, d: Cube)
    ensures Claim(r, [a, b, c, d]) == Claim(Claim(Claim(Claim(r, [a]), [b]), [c]), [d])
  {
    ClaimAppend(r, [a, b, c], [d]);
    ClaimAppend(r, [a, b], [c]);
    ClaimAppend(r, [a], [b]);
    assert [a, b, c, d] == [a, b, c] + [d];
    assert [a, b, c] == [a, b] + [c];
    assert [a, b] == [a] + [b];
  }

  /** Visiting `(4,)`: the vertex, then `(3, 4)` and `(4, 1)`, take 7, 6, 5. */
  lemma ClaimAtFour(r: Ranking)
    requires r == Ranking(map[], 8)
    ensures Claim(r, [[4], [3, 4], [4, 1], [4]]) == Ranking(map[[4] := 7, [3, 4] := 6, [4, 1] := 5], 5)
  {
    ClaimBlock(r, [4], [3, 4], [4, 1], [4]);
    var r1 := Ranking(map[[4] := 7], 7);
    var r2 := Ranking(map[[4] := 7, [3, 4] := 6], 6);
    var r3 := Ranking(map[[4] := 7, [3, 4] := 6, [4, 1] := 5], 5);
    ClaimOne(r, [4]);
    ClaimOne(r1, [3, 4]);
    ClaimOne(r2, [4, 1]);
    ClaimOne(r3, [4]);
  }

  /** Visiting `(3,)`: the vertex and `(2, 3)` take 4 and 3. */
  lemma ClaimAtThree(r: Ranking)
    requires r == Ranking(map[[4] := 7, [3, 4] := 6, [4, 1] := 5], 5)
    ensures Claim(r, [[3], [2, 3], [3, 4], [3]])
         == Ranking(map[[4] := 7, [3, 4] := 6, [4, 1] := 5, [3] := 4, [2, 3] := 3], 3)
  {
    ClaimBlock(r, [3], [2, 3], [3, 4], [3]);
    var r1 := Ranking(map[[4] := 7, [3, 4] := 6, [4, 1] := 5, [3] := 4], 4);
    var r2 := Ranking(map[[4] := 7, [3, 4] := 6, [4, 1] := 5, [3] := 4, [2, 3] := 3], 3);
    ClaimOne(r, [3]);
    ClaimOne(r1, [2, 3]);
    ClaimOne(r2, [3, 4]);
    ClaimOne(r2, [3]);
  }

  /** Visiting `(2,)`: the vertex and `(1, 2)` take 2 and 1. */
  lemma ClaimAtTwo(r: Ranking)
    requires r == Ranking(map[[4] := 7, [3, 4] := 6, [4, 1] := 5, [3] := 4, [2, 3] := 3], 3)
    ensures Claim(r, [[2], [1, 2], [2, 3], [2]])
         == Ranking(map[[4] := 7, [3, 4] := 6, [4, 1] := 5, [3] := 4, [2, 3] := 3, [2] := 2, [1, 2] := 1], 1)
  {
    ClaimBlock(r, [2], [1, 2], [2, 3], [2]);
    var r1 := Ranking(map[[4] := 7, [3, 4] := 6, [4, 1] := 5, [3] := 4, [2, 3] := 3, [2] := 2], 2);
    var r2 := Ranking(map[[4] := 7, [3, 4] := 6, [4, 1] := 5, [3] := 4, [2, 3] := 3, [2] := 2, [1, 2] := 1], 1);
    ClaimOne(r, [2]);
    ClaimOne(r1, [1, 2]);
    ClaimOne(r2, [2, 3]);
    ClaimOne(r2, [2]);
  }

  /** Visiting `(1,)`: only the vertex is new and takes 0. */
  lemma ClaimAtOne(r: Ranking)
    requires r == Ranking(map[[4] := 7, [3, 4] := 6, [4, 1] := 5, [3] := 4, [2, 3] := 3, [2] := 2, [1, 2] := 1], 1)
    ensures Claim(r, [[1], [1, 2], [4, 1], [1]]) == SquareRanking()
  {
    ClaimBlock(r, [1], [1, 2], [4, 1], [1]);
    var r1 := SquareRanking();
    ClaimOne(r, [1]);
    ClaimOne(r1, [1, 2]);
    ClaimOne(r1, [4, 1]);
    ClaimOne(r1, [1]);
  }

  /** The ranks lib.py computes for the square: `(4,)` 7, `(3, 4)` 6,
      `(4, 1)` 5, `(3,)` 4, `(2, 3)` 3, `(2,)` 2, `(1, 2)` 1, `(1,)` 0, and the
      counter ends at 0. */
  function SquareRanking(): Ranking
  {
    Ranking(map[[4] := 7, [3, 4] := 6, [4, 1] := 5, [3] := 4, [2, 3] := 3, [2] := 2, [1, 2] := 1, [1] := 0], 0)
  }

  /** The cells examined on the square, vertex by vertex. */
  lemma SquareVisits(k: Complex, b4: seq<Cube>, b3: seq<Cube>, b2: seq<Cube>, b1: seq<Cube>)
    requires k == Square()
    requires b4 == [[4], [3, 4], [4, 1], [4]] && b3 == [[3], [2, 3], [3, 4], [3]]
    requires b2 == [[2], [1, 2], [2, 3], [2]] && b1 == [[1], [1, 2], [4, 1], [1]]
    ensures Visits(k, VisitOrder(k, Sum)) == b4 + b3 + b2 + b1
  {
    var vs, es := [[1], [2], [3], [4]], [[1, 2], [2, 3], [3, 4], [4, 1]];
    assert k.cubes == vs + es;
    SquareVisitOrder(k, vs, es);
    VisitsFour(k, [4], [3], [2], [1]);
    SquareBlocks(k, vs, es);
  }

  lemma SquareBlocks(k: Complex, vs: seq<Cube>, es: seq<Cube>)
    requires vs == [[1], [2], [3], [4]] && es == [[1, 2], [2, 3], [3, 4], [4, 1]]
    requires k.cubes == vs + es
    ensures Block(k, [4]) == [[4], [3, 4], [4, 1], [4]] && Block(k, [3]) == [[3], [2, 3], [3, 4], [3]]
    ensures Block(k, [2]) == [[2], [1, 2], [2, 3], [2]] && Block(k, [1]) == [[1], [1, 2], [4, 1], [1]]
  {
    SquareBlocksHigh(k, vs, es);
    SquareBlocksLow(k, vs, es);
  }

  lemma SquareBlocksHigh(k: Complex, vs: seq<Cube>, es: seq<Cube>)
    requires vs == [[1], [2], [3], [4]] && es == [[1, 2], [2, 3], [3, 4], [4, 1]]
    requires k.cubes == vs + es
    ensures Block(k, [4]) == [[4], [3, 4], [4, 1], [4]] && Block(k, [3]) == [[3], [2, 3], [3, 4], [3]]
  {
    VertexLabelThree(vs);
    VertexLabelFour(vs);
    EdgeLabelThree(es);
    EdgeLabelFour(es);
    SquareBlock(k, vs, es, 4, [[3, 4], [4, 1]]);
    SquareBlock(k, vs, es, 3, [[2, 3], [3, 4]]);
    Concat4([4], [3, 4], [4, 1], [4]);
    Concat4([3], [2, 3], [3, 4], [3]);
  }

  lemma SquareBlocksLow(k: Complex, vs: seq<Cube>, es: seq<Cube>)
    requires vs == [[1], [2], [3], [4]] && es == [[1, 2], [2, 3], [3, 4], [4, 1]]
    requires k.cubes == vs + es
    ensures Block(k, [2]) == [[2], [1, 2], [2, 3], [2]] && Block(k, [1]) == [[1], [1, 2], [4, 1], [1]]
  {
    VertexLabelOne(vs);
    VertexLabelTwo(vs);
    EdgeLabelOne(es);
    EdgeLabelTwo(es);
    SquareBlock(k, vs, es, 2, [[1, 2], [2, 3]]);
    SquareBlock(k, vs, es, 1, [[1, 2], [4, 1]]);
    Concat4([2], [1, 2], [2, 3], [2]);
    Concat4([1], [1, 2], [4, 1], [1]);
  }

  lemma Concat4(a: Cube, b: Cube, c: Cube, d: Cube)
    ensures [a] + [b, c] + [d] == [a, b, c, d]
  {
  }

  /** The fold over the square's visits, block by block. */
  lemma SquareFold(b4: seq<Cube>, b3: seq<Cube>, b2: seq<Cube>, b1: seq<Cube>)
    requires b4 == [[4], [3, 4], [4, 1], [4]] && b3 == [[3], [2, 3], [3, 4], [3]]
    requires b2 == [[2], [1, 2], [2, 3], [2]] && b1 == [[1], [1, 2], [4, 1], [1]]
    ensures RankFold(b4 + b3 + b2 + b1, 8) == SquareRanking()
  {
    var r0 := Ranking(map[], 8);
    ClaimAppend(r0, b4 + b3 + b2, b1);
    ClaimAppend(r0, b4 + b3, b2);
    ClaimAppend(r0, b4, b3);
    ClaimAtFour(r0);
    ClaimAtThree(Claim(r0, b4));
    ClaimAtTwo(Claim(r0, b4 + b3));
    ClaimAtOne(Claim(r0, b4 + b3 + b2));
  }

  /** The rank assignment on the square, filtered by `sum`: the ranks listed
      at `SquareRanking`, every cell ranked, the counter at 0. */
  lemma SquareRanks(k: Complex)
    requires k == Square()
    ensures Ranks(k, Sum) == SquareRanking()
  {
    var b4, b3, b2, b1 := [[4], [3, 4], [4, 1], [4]], [[3], [2, 3], [3, 4], [3]],
                          [[2], [1, 2], [2, 3], [2]], [[1], [1, 2], [4, 1], [1]];
    SquareVisits(k, b4, b3, b2, b1);
    SquareFold(b4, b3, b2, b1);
  }

  /** `(4,)`, visited first, outranks `(3,)`, first claimed at the second
      vertex, on any complex visited and blocked as the square is. */
  lemma SquareEarlierVertex(k: Complex)
    requires VisitOrder(k, Sum) == [[4], [3], [2], [1]]
    requires Block(k, [4]) == [[4], [3, 4], [4, 1], [4]] && Block(k, [3]) == [[3], [2, 3], [3, 4], [3]]
    ensures [4] in Ranks(k, Sum).ranks && [3] in Ranks(k, Sum).ranks
    ensures Ranks(k, Sum).ranks[[4]] > Ranks(k, Sum).ranks[[3]]
  {
    assert VisitOrder(k, Sum)[..1] == [[4]];
    VisitsOne(k, [4]);
    EarlierVertexRanksHigher(k, Sum, 0, 1, [4], [3]);
  }

  /** At `(4,)` the edge `(3, 4)`, examined before `(4, 1)`, outranks it. */
  lemma SquareWithinVertex(k: Complex)
    requires VisitOrder(k, Sum) == [[4], [3], [2], [1]]
    requires Block(k, [4]) == [[4], [3, 4], [4, 1], [4]]
    ensures [3, 4] in Ranks(k, Sum).ranks && [4, 1] in Ranks(k, Sum).ranks
    ensures Ranks(k, Sum).ranks[[3, 4]] > Ranks(k, Sum).ranks[[4, 1]]
  {
    assert VisitOrder(k, Sum)[..0] == [];
    FirstIndexFour([4], [3, 4], [4, 1], [4]);
    WithinVertexRanksDecrease(k, Sum, 0, [3, 4], [4, 1]);
  }

  /** Positions of first occurrence in a list of four. */
  lemma FirstIndexFour(a: Cube, b: Cube, c: Cube, d: Cube)
    requires a != b && a != c && b != c
    ensures FirstIndex([a, b, c, d], b) == 1 && FirstIndex([a, b, c, d], c) == 2
  {
    assert [a, b, c, d][1..] == [b, c, d] && [b, c, d][1..] == [c, d];
    assert FirstIndex([c, d], c) == 0;
    assert FirstIndex([b, c, d], c) == 1;
  }

  /** The rank-order lemmas apply to the square. */
  lemma SquareRankOrder(k: Complex)
    requires k == Square()
    ensures [4] in Ranks(k, Sum).ranks && [3] in Ranks(k, Sum).ranks
    ensures Ranks(k, Sum).ranks[[4]] > Ranks(k, Sum).ranks[[3]]
    ensures [3, 4] in Ranks(k, Sum).ranks && [4, 1] in Ranks(k, Sum).ranks
    ensures Ranks(k, Sum).ranks[[3, 4]] > Ranks(k, Sum).ranks[[4, 1]]
  {
    var vs, es := [[1], [2], [3], [4]], [[1, 2], [2, 3], [3, 4], [4, 1]];
    assert k.cubes == vs + es;
    SquareVisitOrder(k, vs, es);
    SquareBlocksHigh(k, vs, es);
    SquareEarlierVertex(k);
    SquareWithinVertex(k);
  }

  /** On the square the face `(2,)` of the edge `(1, 2)` sits at row 2 of
      column 1: below the diagonal. Ranks do not put faces before cofaces. */
  lemma SquareFaceBelowDiagonal(cs: seq<Cube>, ranks: map<Cube, int>, order: SetOrder)
    requires cs == Square().cubes && ranks == SquareRanking().ranks && ValidOrder(order)
    ensures [1, 2] in ranks && [2] in ranks && ranks[[1, 2]] == 1 && ranks[[2]] == 2
    ensures [2] in Boundary([1, 2], order)
    ensures (2, 1) in Incidences(cs, ranks, order)
  {
    EdgeBoundary(order, 1, 2);
    assert [1, 2] in cs && [2] in Boundary([1, 2], order);
    assert (ranks[[2]], ranks[[1, 2]]) in Incidences(cs, ranks, order);
  }

  /** The faces of the square's edges are its vertices. */
  lemma SquareEdgeFaces(order: SetOrder)
    requires ValidOrder(order)
    ensures Boundary([1, 2], order) == [[2], [1]] && Boundary([2, 3], order) == [[3], [2]]
    ensures Boundary([3, 4], order) == [[4], [3]] && Boundary([4, 1], order) == [[1], [4]]
  {
    EdgeBoundary(order, 1, 2);
    EdgeBoundary(order, 2, 3);
    EdgeBoundary(order, 3, 4);
    EdgeBoundary(order, 4, 1);
  }

  /** Every lookup of the fill succeeds on the square: each cell is ranked,
      and the faces of its edges are its vertices. */
  lemma SquareFills(cs: seq<Cube>, ranks: map<Cube, int>, order: SetOrder)
    requires cs == Square().cubes && ranks == SquareRanking().ranks && ValidOrder(order)
    ensures FirstFailure(cs, ranks, order) == None
  {
    SquareEdgeFaces(order);
    forall c | c in cs
      ensures c in ranks && forall b :: b in Boundary(c, order) ==> b in ranks
    {
    }
  }

  /** `sorted_boundary_matrix(cx, sum)` on the square builds its matrix, and
      that matrix has the entry (2, 1) below the diagonal. */
  lemma SquareMatrix(k: Complex, order: SetOrder)
    requires k == Square() && ValidOrder(order)
    ensures FirstFailure(k.cubes, Ranks(k, Sum).ranks, order) == None
    ensures (2, 1) in Incidences(k.cubes, Ranks(k, Sum).ranks, order)
  {
    SquareRanks(k);
    SquareFills(k.cubes, Ranks(k, Sum).ranks, order);
    SquareFaceBelowDiagonal(k.cubes, Ranks(k, Sum).ranks, order);
  }
}

/** Two small complexes on which `sorted_boundary_matrix` raises `KeyError`. */
module Failures {
  import opened Seqs
  import opened Cells
  import opened Complexes
  import opened Filtration
  import opened BoundaryMatrix

  /** An edge without its vertices is never visited: no cell gets a rank. */
  lemma OrphanEdgeUnranked(k: Complex, f: VertexFiltration)
    requires k == Complex([[1, 2]])
    ensures Ranks(k, f).ranks == map[]
  {
    assert k.Vertices() == [];
    assert VisitOrder(k, f) == [];
  }

  /** ... so the fill stops at the edge itself, the lookup of line 44. */
  lemma OrphanEdgeFails(k: Complex, f: VertexFiltration, order: SetOrder)
    requires k == Complex([[1, 2]])
    ensures FirstFailure(k.cubes, Ranks(k, f).ranks, order) == Some(UnrankedCell([1, 2]))
  {
    OrphanEdgeUnranked(k, f);
  }

  /** On the complex `[(1,), (1, 1)]` the only vertex is `(1,)`. */
  lemma DegenerateEdgeVisitOrder(k: Complex, f: VertexFiltration)
    requires k == Complex([[1], [1, 1]])
    ensures VisitOrder(k, f) == [[1]]
  {
    assert k.Vertices() == [[1]];
    var vs := VisitOrder(k, f);
    assert multiset(vs) == multiset{[1]};
    assert vs[0] in multiset(vs);
  }

  /** Both cells hold the label 1, so the block of `(1,)` is both cells
      followed by `(1,)` again. */
  lemma DegenerateEdgeBlock(k: Complex)
    requires k == Complex([[1], [1, 1]])
    ensures Block(k, [1]) == [[1], [1, 1], [1]]
  {
    FilterAll(k.cubes, HasLabel(1));
  }

  lemma DegenerateEdgeVisits(k: Complex, f: VertexFiltration)
    requires k == Complex([[1], [1, 1]])
    ensures Visits(k, VisitOrder(k, f)) == [[1], [1, 1], [1]]
  {
    DegenerateEdgeVisitOrder(k, f);
    DegenerateEdgeBlock(k);
    VisitsOne(k, [1]);
  }

  /** Folding over `(1,), (1, 1), (1,)` from the counter 2 ranks `(1,)` at 1
      and `(1, 1)` at 0. */
  lemma DegenerateEdgeFold(cs: seq<Cube>)
    requires cs == [[1], [1, 1], [1]]
    ensures RankFold(cs, 2).ranks == map[[1] := 1, [1, 1] := 0]
  {
    var r0 := Ranking(map[], 2);
    assert Claim(r0, cs[..1]) == Ranking(map[[1] := 1], 1) by {
      assert cs[..1][..0] == [];
    }
    assert Claim(r0, cs[..2]) == Ranking(map[[1] := 1, [1, 1] := 0], 0) by {
      assert cs[..2][..1] == cs[..1];
    }
    assert cs[..3 - 1] == cs[..2];
  }

  /** ... so `(1,)` takes rank 1 and `(1, 1)` rank 0. */
  lemma DegenerateEdgeRanks(k: Complex, f: VertexFiltration)
    requires k == Complex([[1], [1, 1]])
    ensures Ranks(k, f).ranks == map[[1] := 1, [1, 1] := 0]
  {
    DegenerateEdgeVisits(k, f);
    DegenerateEdgeFold(Visits(k, VisitOrder(k, f)));
  }

  /** The degenerate edge `(1, 1)` has the face `()`, which is no cell of the
      complex: the call raises at the face lookup of line 47. */
  lemma DegenerateEdgeFails(k: Complex, f: VertexFiltration, order: SetOrder)
    requires k == Complex([[1], [1, 1]]) && ValidOrder(order)
    ensures FirstFailure(k.cubes, Ranks(k, f).ranks, order) == Some(UnrankedFace([1, 1], []))
  {
    DegenerateEdgeRanks(k, f);
    DegenerateEdgeLookups(k.cubes, Ranks(k, f).ranks, order);
  }

  /** The lookups themselves, under those ranks. */
  lemma DegenerateEdgeLookups(cs: seq<Cube>, ranks: map<Cube, int>, order: SetOrder)
    requires cs == [[1], [1, 1]] && ranks == map[[1] := 1, [1, 1] := 0] && ValidOrder(order)
    ensures FirstFailure(cs, ranks, order) == Some(UnrankedFace([1, 1], []))
  {
    DegenerateEdgeBoundary(order, 1);
    assert cs[1..] == [[1, 1]];
  }
}
