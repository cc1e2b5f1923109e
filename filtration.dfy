/** The rank assignment of `sorted_boundary_matrix` (lib.py lines 29-39):
    vertices are visited by descending filtration value, and each cell not
    yet ranked that holds the visited vertex's label takes the next rank,
    counting down from `len(k) - 1`. */
module Filtration {
  import opened Seqs
  import opened Sorting
  import opened Cells
  import opened Complexes

  /** `VertexFiltration`: a value for every vertex. */
  type VertexFiltration = Cube -> int

  /** `sorted_vertices`: the vertices by descending filtration value, vertices
      with equal values in stored order. */
  function VisitOrder(k: Complex, f: VertexFiltration): (vs: seq<Cube>)
    ensures forall v :: v in vs <==> v in k.cubes && |v| == 1
    ensures multiset(vs) == multiset(k.Vertices())
    ensures NonIncreasing(vs, f)
    ensures forall key :: Filter(vs, KeyIs(f, key)) == Filter(k.Vertices(), KeyIs(f, key))
  {
    var vs := SortDescending(k.Vertices(), f);
    forall key ensures Filter(vs, KeyIs(f, key)) == Filter(k.Vertices(), KeyIs(f, key)) {
      SortStable(k.Vertices(), f, key);
    }
    assert forall v :: v in vs <==> v in k.Vertices() by {
      forall v ensures v in vs <==> v in k.Vertices() {
        SortMembers(k.Vertices(), f, v);
      }
    }
    vs
  }

  /** The cells examined while visiting `v`: `k.adjacent_cubes(v) + [v]`.
      They end with `v`; every other one is a cell of `k` holding `v[0]`. */
  function Block(k: Complex, v: Cube): (b: seq<Cube>)
    requires |v| > 0
    ensures |b| > 0 && b[|b| - 1] == v
    ensures forall c :: c in b ==> c == v || (c in k.cubes && v[0] in c)
  {
    k.AdjacentCubes(v) + [v]
  }

  /** Every cell the nested loops examine while visiting `vs` in turn, in the
      order they examine them. Each vertex examines at least one cell. */
  function Visits(k: Complex, vs: seq<Cube>): (cs: seq<Cube>)
    requires forall v :: v in vs ==> |v| > 0
    ensures |cs| >= |vs|
  {
    if vs == [] then []
    else Visits(k, vs[..|vs| - 1]) + Block(k, vs[|vs| - 1])
  }

  /** No two cells share a rank. */
  ghost predicate Injective(ranks: map<Cube, int>)
  {
    forall c, d :: c in ranks && d in ranks && c != d ==> ranks[c] != ranks[d]
  }

  /** The two pieces of state of the loops: `findexes` and `filtration_index`. */
  datatype Ranking = Ranking(ranks: map<Cube, int>, next: int)

  /** Lines 37-39 run over the cells `cs` in turn, from the state `r`: a cell
      not yet ranked takes `next - 1` and the counter drops by one. The
      counter never rises and drops at most once per cell examined. */
  function Claim(r: Ranking, cs: seq<Cube>): (p: Ranking)
    ensures r.next - |cs| <= p.next <= r.next
  {
    if cs == [] then r
    else
      var p := Claim(r, cs[..|cs| - 1]);
      var c := cs[|cs| - 1];
      if c in p.ranks then p else Ranking(p.ranks[c := p.next - 1], p.next - 1)
  }

  /** The same, from the initial state: no ranks, counter `n`. */
  function RankFold(cs: seq<Cube>, n: int): (r: Ranking)
    ensures n - |cs| <= r.next <= n
  {
    Claim(Ranking(map[], n), cs)
  }

  /** Claiming `a + b` is claiming `a`, then `b`. */
  lemma {:induction false} ClaimAppend(r: Ranking, a: seq<Cube>, b: seq<Cube>)
    ensures Claim(r, a + b) == Claim(Claim(r, a), b)
  {
    if b == [] {
      assert a + b == a;
    } else {
      var b', c := b[..|b| - 1], b[|b| - 1];
      ClaimAppend(r, a, b');
      assert (a + b)[..|a + b| - 1] == a + b';
    }
  }

  /** What the fold computes: the distinct cells of `cs`, in order of first
      occurrence, hold the ranks `n - 1`, `n - 2`, ..., nothing else is ranked,
      and the counter is `n` minus their number. */
  lemma {:induction false} RankFoldExact(cs: seq<Cube>, n: int)
    ensures RankFold(cs, n).ranks.Keys == Elems(cs)
    ensures RankFold(cs, n).next == n - |Distinct(cs)|
    ensures forall i :: 0 <= i < |Distinct(cs)| ==> RankFold(cs, n).ranks[Distinct(cs)[i]] == n - 1 - i
  {
    if cs != [] {
      var init, c := cs[..|cs| - 1], cs[|cs| - 1];
      RankFoldExact(init, n);
      assert cs == init + [c];
      assert Elems(cs) == Elems(init) + {c};
    }
  }

  /** The ranks and the counter after visiting the vertices of `k` by `f`.
      Only cells of `k` are ranked, and the counter starts at `len(k)`. */
  function Ranks(k: Complex, f: VertexFiltration): (r: Ranking)
    ensures r.ranks.Keys <= Elems(k.cubes)
    ensures r.next <= |k.cubes|
  {
    var vs := VisitOrder(k, f);
    VisitsWithin(k, vs);
    RankFoldExact(Visits(k, vs), |k.cubes|);
    RankFold(Visits(k, vs), |k.cubes|)
  }

  /** Lines 34-39 run over the vertices `vs` in turn, from the state `r`.
      The counter never rises. */
  function ClaimVertices(r: Ranking, k: Complex, vs: seq<Cube>): (p: Ranking)
    requires forall v :: v in vs ==> |v| > 0
    ensures p.next <= r.next
  {
    if vs == [] then r
    else Claim(ClaimVertices(r, k, vs[..|vs| - 1]), Block(k, vs[|vs| - 1]))
  }

  /** Running over the vertices is running over the cells they examine. */
  lemma {:induction false} ClaimVerticesIsClaim(r: Ranking, k: Complex, vs: seq<Cube>)
    requires forall v :: v in vs ==> |v| > 0
    ensures ClaimVertices(r, k, vs) == Claim(r, Visits(k, vs))
  {
    if vs != [] {
      var init := vs[..|vs| - 1];
      ClaimVerticesIsClaim(r, k, init);
      ClaimAppend(r, Visits(k, init), Block(k, vs[|vs| - 1]));
    }
  }

  /** `sorted_boundary_matrix`, lines 29-39: sort the vertices, then visit
      them in turn, filling `findexes` and counting `filtration_index` down
      from `len(k)`. Ranks lie between the final counter and `len(k) - 1`, are
      pairwise distinct, and only cells of `k` are ranked. */
  method AssignRanks(k: Complex, f: VertexFiltration) returns (ranks: map<Cube, int>, next: int)
    ensures Ranking(ranks, next) == Ranks(k, f)
    ensures ranks.Keys <= Elems(k.cubes)
    ensures 0 <= next == |k.cubes| - |ranks|
    ensures forall c :: c in ranks ==> next <= ranks[c] < |k.cubes|
    ensures Injective(ranks)
  {
    var sorted := VisitOrder(k, f);
    ranks, next := VisitVertices(k, sorted, |k.cubes|);
    ClaimVerticesIsClaim(Ranking(map[], |k.cubes|), k, sorted);
    RanksFacts(k, f);
  }

  /** Lines 34-39, the outer loop: visit the vertices `vs` in turn, from no
      ranks and the counter `n`. */
  method VisitVertices(k: Complex, vs: seq<Cube>, n: int) returns (ranks: map<Cube, int>, next: int)
    requires forall v :: v in vs ==> |v| > 0
    ensures Ranking(ranks, next) == ClaimVertices(Ranking(map[], n), k, vs)
  {
    ranks, next := map[], n;
    for i := 0 to |vs|
      invariant Ranking(ranks, next) == ClaimVertices(Ranking(map[], n), k, vs[..i])
    {
      var v := vs[i];
      ranks, next := ClaimCells(ranks, next, k.AdjacentCubes(v) + [v]);
      assert vs[..i + 1][..i] == vs[..i];
    }
    assert vs[..|vs|] == vs;
  }

  /** Lines 36-39, the inner loop: each cell of `cells` not yet in `ranks0`
      takes the next rank down; ranks already given stay as they are. */
  method ClaimCells(ranks0: map<Cube, int>, next0: int, cells: seq<Cube>) returns (ranks: map<Cube, int>, next: int)
    ensures Ranking(ranks, next) == Claim(Ranking(ranks0, next0), cells)
    ensures ranks.Keys == ranks0.Keys + Elems(cells)
    ensures forall c :: c in ranks0 ==> ranks[c] == ranks0[c]
  {
    ranks, next := ranks0, next0;
    for j := 0 to |cells|
      invariant Ranking(ranks, next) == Claim(Ranking(ranks0, next0), cells[..j])
    {
      var c := cells[j];
      assert cells[..j + 1][..j] == cells[..j];
      if c !in ranks {
        ranks := ranks[c := next - 1];
        next := next - 1;
      }
    }
    assert cells[..|cells|] == cells;
    ClaimFacts(Ranking(ranks0, next0), cells);
  }

  /** A fold from any state ranks the cells it meets and keeps every earlier
      rank. */
  lemma {:induction false} ClaimFacts(r: Ranking, cs: seq<Cube>)
    ensures Claim(r, cs).ranks.Keys == r.ranks.Keys + Elems(cs)
    ensures forall c :: c in r.ranks ==> Claim(r, cs).ranks[c] == r.ranks[c]
  {
    if cs != [] {
      var init, c := cs[..|cs| - 1], cs[|cs| - 1];
      var p := Claim(r, init);
      ClaimFacts(r, init);
      assert cs == init + [c];
      assert Elems(cs) == Elems(init) + {c};
    }
  }

  /** Visiting a single vertex examines its block. */
  lemma VisitsOne(k: Complex, v: Cube)
    requires |v| > 0
    ensures Visits(k, [v]) == Block(k, v)
  {
    assert [v][..0] == [];
  }

  /** Visiting one more vertex appends its block. */
  lemma VisitsStep(k: Complex, vs: seq<Cube>, i: nat)
    requires i < |vs| && forall v :: v in vs ==> |v| > 0
    ensures Visits(k, vs[..i + 1]) == Visits(k, vs[..i]) + Block(k, vs[i])
  {
    assert vs[..i + 1][..i] == vs[..i];
  }

  /** The facts `AssignRanks` promises, for the specification `Ranks`. */
  lemma RanksFacts(k: Complex, f: VertexFiltration)
    ensures Ranks(k, f).ranks.Keys <= Elems(k.cubes)
    ensures 0 <= Ranks(k, f).next == |k.cubes| - |Ranks(k, f).ranks|
    ensures forall c :: c in Ranks(k, f).ranks ==> Ranks(k, f).next <= Ranks(k, f).ranks[c] < |k.cubes|
    ensures Injective(Ranks(k, f).ranks)
  {
    var vs := VisitOrder(k, f);
    var cs := Visits(k, vs);
    var r := RankFold(cs, |k.cubes|);
    RankFoldExact(cs, |k.cubes|);
    RankFoldFacts(cs, |k.cubes|);
    VisitsWithin(k, vs);
    assert r.ranks.Keys <= Elems(k.cubes);
    SubsetCard(r.ranks.Keys, Elems(k.cubes));
    ElemsCard(k.cubes);
    assert |r.ranks| == |r.ranks.Keys|;
  }

  /** The cells examined are cells of the complex. */
  lemma {:induction false} VisitsWithin(k: Complex, vs: seq<Cube>)
    requires forall v :: v in vs ==> |v| > 0 && v in k.cubes
    ensures Elems(Visits(k, vs)) <= Elems(k.cubes)
  {
    if vs != [] {
      var init, v := vs[..|vs| - 1], vs[|vs| - 1];
      VisitsWithin(k, init);
      forall c | c in Block(k, v) ensures c in k.cubes {
        assert c in k.AdjacentCubes(v) || c == v;
      }
    }
  }

  /** Every ranked cell is one of the distinct cells met, and its rank says
      which one. */
  lemma RankedPosition(cs: seq<Cube>, n: int, c: Cube) returns (i: nat)
    requires c in RankFold(cs, n).ranks
    ensures i < |Distinct(cs)| && Distinct(cs)[i] == c
    ensures RankFold(cs, n).ranks[c] == n - 1 - i
  {
    RankFoldExact(cs, n);
    assert c in Elems(Distinct(cs));
    i :| 0 <= i < |Distinct(cs)| && Distinct(cs)[i] == c;
  }

  /** Ranks are pairwise distinct, lie between the final counter and
      `n - 1`, and the counter has dropped once per ranked cell. */
  lemma RankFoldFacts(cs: seq<Cube>, n: int)
    ensures RankFold(cs, n).next == n - |RankFold(cs, n).ranks|
    ensures forall c :: c in RankFold(cs, n).ranks ==>
      RankFold(cs, n).next <= RankFold(cs, n).ranks[c] < n
    ensures Injective(RankFold(cs, n).ranks)
  {
    var r := RankFold(cs, n);
    RankFoldExact(cs, n);
    NoDuplicatesCard(Distinct(cs));
    assert |r.ranks| == |r.ranks.Keys|;
    forall c | c in r.ranks
      ensures r.next <= r.ranks[c] < n
    {
      var i := RankedPosition(cs, n, c);
    }
    forall c, d | c in r.ranks && d in r.ranks && c != d
      ensures r.ranks[c] != r.ranks[d]
    {
      var i := RankedPosition(cs, n, c);
      var j := RankedPosition(cs, n, d);
    }
  }

  /** The counter drops by exactly one per newly ranked cell. */
  lemma {:induction false} ClaimCount(r: Ranking, cs: seq<Cube>)
    ensures Claim(r, cs).next == r.next - (|Claim(r, cs).ranks| - |r.ranks|)
  {
    if cs != [] {
      ClaimCount(r, cs[..|cs| - 1]);
    }
  }

  /** The vertex appended at line 36 never takes a fresh rank when it is a
      cell of the complex: `adjacent_cubes` has already met it. */
  lemma AppendedVertexNoFresh(r: Ranking, k: Complex, v: Cube)
    requires |v| > 0 && v in k.cubes
    ensures Claim(r, Block(k, v)) == Claim(r, k.AdjacentCubes(v))
  {
    var a := k.AdjacentCubes(v);
    ClaimFacts(r, a);
    assert v in Elems(a);
    assert Block(k, v)[..|Block(k, v)| - 1] == a;
  }

  /** The position of a first occurrence past a prefix that lacks the element. */
  lemma FirstIndexAppend(a: seq<Cube>, b: seq<Cube>, x: Cube)
    requires x !in a && x in b
    ensures FirstIndex(a + b, x) == |a| + FirstIndex(b, x)
  {
    var i, j := FirstIndex(a + b, x), FirstIndex(b, x);
    assert (a + b)[|a| + j] == x;
  }

  /** Rank order is order of first occurrence: of two cells met by the fold,
      the one met first holds the higher rank. */
  lemma RankOrder(cs: seq<Cube>, n: int, x: Cube, y: Cube)
    requires x in cs && y in cs
    ensures RankFold(cs, n).ranks.Keys == Elems(cs)
    ensures RankFold(cs, n).ranks[x] > RankFold(cs, n).ranks[y] <==> FirstIndex(cs, x) < FirstIndex(cs, y)
  {
    RankFoldExact(cs, n);
    assert x in Elems(cs) && y in Elems(cs);
    var i := RankedPosition(cs, n, x);
    var j := RankedPosition(cs, n, y);
    var d := Distinct(cs);
    if i < j {
      DistinctOrder(cs, i, j);
      assert FirstIndex(cs, d[i]) < FirstIndex(cs, d[j]);
    } else if j < i {
      DistinctOrder(cs, j, i);
      assert FirstIndex(cs, d[j]) < FirstIndex(cs, d[i]);
    } else {
      assert x == y;
    }
  }

  /** A cell met within the first `p` cells ranks above any cell first met
      after them. */
  lemma EarlierMetRanksHigher(cs: seq<Cube>, n: int, p: nat, x: Cube, y: Cube)
    requires p <= |cs| && x in cs[..p] && y in cs && y !in cs[..p]
    ensures x in RankFold(cs, n).ranks && y in RankFold(cs, n).ranks
    ensures RankFold(cs, n).ranks[x] > RankFold(cs, n).ranks[y]
  {
    assert cs == cs[..p] + cs[p..];
    assert x in cs;
    FirstIndexPrefix(cs, p, x);
    RankOrder(cs, n, x, y);
  }

  /** The blocks examined while visiting `vs`, one per vertex. */
  function Blocks(k: Complex, vs: seq<Cube>): (bs: seq<seq<Cube>>)
    requires forall v :: v in vs ==> |v| > 0
    ensures |bs| == |vs|
  {
    seq(|vs|, i requires 0 <= i < |vs| => Block(k, vs[i]))
  }

  /** The cells examined are the blocks one after the other. */
  lemma {:induction false} VisitsFlatten(k: Complex, vs: seq<Cube>)
    requires forall v :: v in vs ==> |v| > 0
    ensures Visits(k, vs) == Flatten(Blocks(k, vs))
  {
    if vs != [] {
      var n := |vs| - 1;
      assert Blocks(k, vs)[..n] == Blocks(k, vs[..n]);
      VisitsFlatten(k, vs[..n]);
    }
  }

  /** The cells examined over `a + b` are those over `a`, then those over `b`. */
  lemma VisitsAppend(k: Complex, a: seq<Cube>, b: seq<Cube>)
    requires forall v :: v in a ==> |v| > 0
    requires forall v :: v in b ==> |v| > 0
    ensures Visits(k, a + b) == Visits(k, a) + Visits(k, b)
  {
    assert Blocks(k, a + b) == Blocks(k, a) + Blocks(k, b);
    FlattenAppend(Blocks(k, a), Blocks(k, b));
    VisitsFlatten(k, a + b);
    VisitsFlatten(k, a);
    VisitsFlatten(k, b);
  }

  /** Visiting `vs` examines every cell of every visited vertex's block. */
  lemma {:induction false} VisitsContains(k: Complex, vs: seq<Cube>, i: nat, c: Cube)
    requires forall v :: v in vs ==> |v| > 0
    requires i < |vs| && c in Block(k, vs[i])
    ensures c in Visits(k, vs)
  {
    if i < |vs| - 1 {
      VisitsContains(k, vs[..|vs| - 1], i, c);
    }
  }

  /** The cells examined after the first `j` vertices start with those examined
      for them. */
  lemma VisitsPrefix(k: Complex, vs: seq<Cube>, j: nat)
    requires forall v :: v in vs ==> |v| > 0
    requires j <= |vs|
    ensures Visits(k, vs) == Visits(k, vs[..j]) + Visits(k, vs[j..])
  {
    assert vs == vs[..j] + vs[j..];
    VisitsAppend(k, vs[..j], vs[j..]);
  }

  /** In the fold over the visits of `vs`, a cell met at the `i`-th vertex
      ranks above a cell first met at a later, `j`-th, vertex. */
  lemma EarlierBlockRanksHigher(k: Complex, vs: seq<Cube>, n: int, i: nat, j: nat, x: Cube, y: Cube)
    requires forall v :: v in vs ==> |v| > 0
    requires i < j < |vs| && x in Block(k, vs[i])
    requires y in Block(k, vs[j]) && y !in Visits(k, vs[..j])
    ensures x in RankFold(Visits(k, vs), n).ranks && y in RankFold(Visits(k, vs), n).ranks
    ensures RankFold(Visits(k, vs), n).ranks[x] > RankFold(Visits(k, vs), n).ranks[y]
  {
    var cs, p := Visits(k, vs), Visits(k, vs[..j]);
    VisitsPrefix(k, vs, j);
    assert cs[..|p|] == p;
    assert vs[..j][i] == vs[i];
    VisitsContains(k, vs[..j], i, x);
    VisitsContains(k, vs, j, y);
    EarlierMetRanksHigher(cs, n, |p|, x, y);
  }

  /** A cell met while visiting an earlier vertex ranks strictly above any
      cell first claimed at a later vertex. */
  lemma EarlierVertexRanksHigher(k: Complex, f: VertexFiltration, i: nat, j: nat, x: Cube, y: Cube)
    requires i < j < |VisitOrder(k, f)|
    requires x in Block(k, VisitOrder(k, f)[i])
    requires y in Block(k, VisitOrder(k, f)[j]) && y !in Visits(k, VisitOrder(k, f)[..j])
    ensures x in Ranks(k, f).ranks && y in Ranks(k, f).ranks
    ensures Ranks(k, f).ranks[x] > Ranks(k, f).ranks[y]
  {
    EarlierBlockRanksHigher(k, VisitOrder(k, f), |k.cubes|, i, j, x, y);
  }

  /** In the fold over the visits of `vs`, the cells first met at the `j`-th
      vertex rank in the order they are examined there. */
  lemma WithinBlockRanksDecrease(k: Complex, vs: seq<Cube>, n: int, j: nat, x: Cube, y: Cube)
    requires forall v :: v in vs ==> |v| > 0
    requires j < |vs|
    requires x in Block(k, vs[j]) && x !in Visits(k, vs[..j])
    requires y in Block(k, vs[j]) && y !in Visits(k, vs[..j])
    ensures x in RankFold(Visits(k, vs), n).ranks && y in RankFold(Visits(k, vs), n).ranks
    ensures RankFold(Visits(k, vs), n).ranks[x] > RankFold(Visits(k, vs), n).ranks[y] <==>
      FirstIndex(Block(k, vs[j]), x) < FirstIndex(Block(k, vs[j]), y)
  {
    var cs, p, b := Visits(k, vs), Visits(k, vs[..j]), Block(k, vs[j]);
    VisitsStep(k, vs, j);
    VisitsPrefix(k, vs, j + 1);
    assert cs[..|p + b|] == p + b;
    assert x in p + b && y in p + b;
    FirstIndexAppend(p, b, x);
    FirstIndexAppend(p, b, y);
    FirstIndexPrefix(cs, |p + b|, x);
    FirstIndexPrefix(cs, |p + b|, y);
    RankOrder(cs, n, x, y);
  }

  /** The cells first claimed at one vertex are ranked in the order they are
      examined, that is in stored order with the vertex itself last, with
      decreasing ranks. */
  lemma WithinVertexRanksDecrease(k: Complex, f: VertexFiltration, j: nat, x: Cube, y: Cube)
    requires j < |VisitOrder(k, f)|
    requires x in Block(k, VisitOrder(k, f)[j]) && x !in Visits(k, VisitOrder(k, f)[..j])
    requires y in Block(k, VisitOrder(k, f)[j]) && y !in Visits(k, VisitOrder(k, f)[..j])
    ensures x in Ranks(k, f).ranks && y in Ranks(k, f).ranks
    ensures Ranks(k, f).ranks[x] > Ranks(k, f).ranks[y] <==>
      FirstIndex(Block(k, VisitOrder(k, f)[j]), x) < FirstIndex(Block(k, VisitOrder(k, f)[j]), y)
  {
    WithinBlockRanksDecrease(k, VisitOrder(k, f), |k.cubes|, j, x, y);
  }

  /** The cell `c` holds the label of some vertex of `k`. */
  ghost predicate Anchored(k: Complex, c: Cube)
  {
    exists w :: w in k.cubes && |w| == 1 && w[0] in c
  }

  /** A fold over cells of which `n` are distinct ends with the counter at 0
      and hands out every rank in `0 .. n - 1`. */
  lemma RankFoldOnto(cs: seq<Cube>, n: int)
    requires |Elems(cs)| == n
    ensures RankFold(cs, n).next == 0
    ensures forall r :: 0 <= r < n ==> r in RankFold(cs, n).ranks.Values
  {
    var d := Distinct(cs);
    RankFoldExact(cs, n);
    NoDuplicatesCard(d);
    forall r | 0 <= r < n ensures r in RankFold(cs, n).ranks.Values {
      assert d[n - 1 - r] in Elems(cs);
      assert RankFold(cs, n).ranks[d[n - 1 - r]] == r;
    }
  }

  /** When each cell holds the label of some vertex of the complex, the
      visits examine every cell. */
  lemma VisitsAllCells(k: Complex, f: VertexFiltration)
    requires forall c {:trigger Anchored(k, c)} :: c in k.cubes ==> Anchored(k, c)
    ensures Elems(Visits(k, VisitOrder(k, f))) == Elems(k.cubes)
  {
    var vs := VisitOrder(k, f);
    var cs := Visits(k, vs);
    VisitsWithin(k, vs);
    forall c | c in k.cubes ensures c in Elems(cs) {
      assert Anchored(k, c);
      var w :| w in k.cubes && |w| == 1 && w[0] in c;
      assert w in vs;
      var i :| 0 <= i < |vs| && vs[i] == w;
      assert c in k.AdjacentCubes(w);
      VisitsContains(k, vs, i, c);
    }
  }

  /** When the cells are pairwise distinct and each holds the label of some
      vertex of the complex, every cell is ranked, the counter ends at 0, and
      the ranks are a bijection from the cells onto `0 .. len(k) - 1`. */
  lemma RankBijection(k: Complex, f: VertexFiltration)
    requires NoDuplicates(k.cubes)
    requires forall c {:trigger Anchored(k, c)} :: c in k.cubes ==> Anchored(k, c)
    ensures Ranks(k, f).ranks.Keys == Elems(k.cubes)
    ensures Ranks(k, f).next == 0
    ensures forall c :: c in Ranks(k, f).ranks ==> 0 <= Ranks(k, f).ranks[c] < |k.cubes|
    ensures Injective(Ranks(k, f).ranks)
    ensures forall r :: 0 <= r < |k.cubes| ==> r in Ranks(k, f).ranks.Values
  {
    var cs := Visits(k, VisitOrder(k, f));
    VisitsAllCells(k, f);
    NoDuplicatesCard(k.cubes);
    RankFoldExact(cs, |k.cubes|);
    RankFoldOnto(cs, |k.cubes|);
    RanksFacts(k, f);
  }
}
