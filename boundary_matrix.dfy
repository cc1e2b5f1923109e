/** The matrix fill of `sorted_boundary_matrix` (lib.py lines 42-49) and the
    whole function: an `N x N` buffer of zeros, `N = len(k)`, gets a 1 at
    (rank of face, rank of cell) for every cell of the complex and every face
    in its boundary. A rank lookup that finds nothing (a `KeyError`) ends the
    call with an error. */
module BoundaryMatrix {
  import opened Seqs
  import opened Cells
  import opened Complexes
  import opened Filtration

  datatype Option<T> = None | Some(value: T)

  /** Why `findexes[...]` raised: the cell itself (line 44) or one of its
      faces (line 47) was never ranked. */
  datatype LookupError = UnrankedCell(cell: Cube) | UnrankedFace(cell: Cube, face: Cube)

  /** The outcome of a call: the matrix, or the lookup that failed. */
  datatype Result<T> = Ok(value: T) | Err(error: LookupError)

  /** The error `e` names a lookup that really fails. */
  ghost predicate Fails(e: LookupError, ranks: map<Cube, int>, order: SetOrder)
  {
    match e
    case UnrankedCell(c) => c !in ranks
    case UnrankedFace(c, b) => c in ranks && b in Boundary(c, order) && b !in ranks
  }

  /** Every lookup made for the cells `cs` succeeds: each cell and each face
      in its boundary is ranked. */
  ghost predicate AllRanked(cs: seq<Cube>, ranks: map<Cube, int>, order: SetOrder)
  {
    forall c :: c in cs ==> c in ranks && forall b :: b in Boundary(c, order) ==> b in ranks
  }

  /** The first of `faces` that is not ranked. */
  function FirstUnranked(faces: seq<Cube>, ranks: map<Cube, int>): (r: Option<Cube>)
    ensures r == None <==> forall b :: b in faces ==> b in ranks
    ensures r.Some? ==> r.value in faces && r.value !in ranks
  {
    if faces == [] then None
    else if faces[0] !in ranks then Some(faces[0])
    else FirstUnranked(faces[1..], ranks)
  }

  /** The first lookup that fails when the cells `cs` are filled in turn: the
      cell's own rank first, then the ranks of its faces in order. */
  function FirstFailure(cs: seq<Cube>, ranks: map<Cube, int>, order: SetOrder): (r: Option<LookupError>)
    ensures r == None <==> AllRanked(cs, ranks, order)
    ensures r.Some? ==> r.value.cell in cs && Fails(r.value, ranks, order)
  {
    if cs == [] then None
    else if cs[0] !in ranks then Some(UnrankedCell(cs[0]))
    else
      match FirstUnranked(Boundary(cs[0], order), ranks)
      case Some(b) => Some(UnrankedFace(cs[0], b))
      case None =>
        assert cs == [cs[0]] + cs[1..];
        FirstFailure(cs[1..], ranks, order)
  }

  /** Faces that all look up fine are passed over. */
  lemma {:induction false} FirstUnrankedAfter(a: seq<Cube>, b: seq<Cube>, ranks: map<Cube, int>)
    requires forall x :: x in a ==> x in ranks
    ensures FirstUnranked(a + b, ranks) == FirstUnranked(b, ranks)
  {
    if a != [] {
      assert (a + b)[1..] == a[1..] + b;
      FirstUnrankedAfter(a[1..], b, ranks);
    } else {
      assert a + b == b;
    }
  }

  /** The face `FirstUnranked` returns is the first unranked one: every face
      before it is ranked. */
  lemma {:induction false} FirstUnrankedIsFirst(faces: seq<Cube>, ranks: map<Cube, int>) returns (i: nat)
    requires FirstUnranked(faces, ranks).Some?
    ensures i < |faces| && faces[i] == FirstUnranked(faces, ranks).value
    ensures forall j :: 0 <= j < i ==> faces[j] in ranks
  {
    if faces[0] !in ranks {
      i := 0;
    } else {
      var i' := FirstUnrankedIsFirst(faces[1..], ranks);
      i := i' + 1;
    }
  }

  /** Cells whose lookups all succeed are passed over. */
  lemma {:induction false} FirstFailureAfter(a: seq<Cube>, b: seq<Cube>, ranks: map<Cube, int>, order: SetOrder)
    requires AllRanked(a, ranks, order)
    ensures FirstFailure(a + b, ranks, order) == FirstFailure(b, ranks, order)
  {
    if a != [] {
      assert (a + b)[0] == a[0] && (a + b)[1..] == a[1..] + b;
      FirstFailureAfter(a[1..], b, ranks, order);
    } else {
      assert a + b == b;
    }
  }

  /** What the lookups for the cell at position `j` decide, once those for
      the cells before it have all succeeded. */
  lemma FailureAt(cs: seq<Cube>, j: nat, ranks: map<Cube, int>, order: SetOrder)
    requires j < |cs| && AllRanked(cs[..j], ranks, order)
    ensures cs[..j + 1] == cs[..j] + [cs[j]]
    ensures cs[j] !in ranks ==> FirstFailure(cs, ranks, order) == Some(UnrankedCell(cs[j]))
    ensures cs[j] in ranks ==> match FirstUnranked(Boundary(cs[j], order), ranks)
      case Some(b) => FirstFailure(cs, ranks, order) == Some(UnrankedFace(cs[j], b))
      case None => AllRanked(cs[..j + 1], ranks, order)
  {
    var t := cs[j..];
    assert FirstFailure(cs, ranks, order) == FirstFailure(t, ranks, order) by {
      assert cs == cs[..j] + t;
      FirstFailureAfter(cs[..j], t, ranks, order);
    }
    assert t[0] == cs[j];
    assert cs[..j + 1] == cs[..j] + [cs[j]];
    if cs[j] in ranks && FirstUnranked(Boundary(cs[j], order), ranks) == None {
      AllRankedExtend(cs[..j], cs[j], ranks, order);
    }
  }

  /** A ranked cell whose faces are all ranked extends a run of successful
      lookups. */
  lemma AllRankedExtend(a: seq<Cube>, c: Cube, ranks: map<Cube, int>, order: SetOrder)
    requires AllRanked(a, ranks, order) && c in ranks
    requires FirstUnranked(Boundary(c, order), ranks) == None
    ensures AllRanked(a + [c], ranks, order)
  {
  }

  /** The entries the fill sets to 1 for one cell of rank `col`: a row for each
      ranked face. */
  ghost function FaceEntries(faces: seq<Cube>, col: int, ranks: map<Cube, int>): set<(int, int)>
  {
    set b | b in faces && b in ranks :: (ranks[b], col)
  }

  /** The entries that are 1 after the cells `cs` are filled: (rank of `b`,
      rank of `c`) for each ranked cell `c` of `cs` and ranked face `b` of `c`. */
  ghost function Incidences(cs: seq<Cube>, ranks: map<Cube, int>, order: SetOrder): set<(int, int)>
  {
    set c, b | c in cs && c in ranks && b in Boundary(c, order) && b in ranks :: (ranks[b], ranks[c])
  }

  /** The matrix `m` holds 1 exactly at the entries `ones` and 0 elsewhere. */
  ghost predicate Shows(m: array2<int>, ones: set<(int, int)>)
    reads m
  {
    forall i, j :: 0 <= i < m.Length0 && 0 <= j < m.Length1 ==> m[i, j] == (if (i, j) in ones then 1 else 0)
  }

  /** Filling one more face adds its entry. */
  lemma FaceEntriesStep(faces: seq<Cube>, l: nat, col: int, ranks: map<Cube, int>)
    requires l < |faces| && faces[l] in ranks
    ensures FaceEntries(faces[..l + 1], col, ranks) == FaceEntries(faces[..l], col, ranks) + {(ranks[faces[l]], col)}
  {
    assert faces[..l + 1] == faces[..l] + [faces[l]];
  }

  /** Filling one more cell, whose lookups all succeed, adds the entries of
      its faces. */
  lemma IncidencesStep(cs: seq<Cube>, c: Cube, ranks: map<Cube, int>, order: SetOrder)
    requires c in ranks
    ensures Incidences(cs + [c], ranks, order)
         == Incidences(cs, ranks, order) + FaceEntries(Boundary(c, order), ranks[c], ranks)
  {
    var lhs, rhs := Incidences(cs + [c], ranks, order),
                    Incidences(cs, ranks, order) + FaceEntries(Boundary(c, order), ranks[c], ranks);
    forall e | e in lhs ensures e in rhs {
      var c', b :| c' in cs + [c] && c' in ranks && b in Boundary(c', order) && b in ranks && e == (ranks[b], ranks[c']);
      if c' != c {
        assert c' in cs;
      }
    }
    forall e | e in rhs ensures e in lhs {
      if e in Incidences(cs, ranks, order) {
        var c', b :| c' in cs && c' in ranks && b in Boundary(c', order) && b in ranks && e == (ranks[b], ranks[c']);
        assert c' in cs + [c];
      } else {
        var b :| b in Boundary(c, order) && b in ranks && e == (ranks[b], ranks[c]);
        assert c in cs + [c];
      }
    }
  }

  /** Lines 42-49: fill a fresh `len(k) x len(k)` matrix of zeros cell by cell
      and face by face. The call fails with the first lookup that finds no
      rank; otherwise every entry is 1 exactly where a ranked face meets a
      ranked cell of the complex, and 0 elsewhere. */
  method FillMatrix(k: Complex, ranks: map<Cube, int>, order: SetOrder) returns (res: Result<array2<int>>)
    requires forall c :: c in ranks ==> 0 <= ranks[c] < |k.cubes|
    ensures res.Err? <==> FirstFailure(k.cubes, ranks, order).Some?
    ensures res.Err? ==> FirstFailure(k.cubes, ranks, order) == Some(res.error)
    ensures res.Ok? ==> fresh(res.value)
    ensures res.Ok? ==> res.value.Length0 == |k.cubes| && res.value.Length1 == |k.cubes|
    ensures res.Ok? ==> Shows(res.value, Incidences(k.cubes, ranks, order))
  {
    var n := |k.cubes|;
    var m := new int[n, n]((i, j) => 0);
    for j := 0 to n
      invariant AllRanked(k.cubes[..j], ranks, order)
      invariant Shows(m, Incidences(k.cubes[..j], ranks, order))
    {
      var cube := k.cubes[j];
      FailureAt(k.cubes, j, ranks, order);
      if cube !in ranks {
        return Err(UnrankedCell(cube));
      }
      var missing := FillColumn(m, ranks[cube], Boundary(cube, order), ranks, Incidences(k.cubes[..j], ranks, order));
      if missing.Some? {
        return Err(UnrankedFace(cube, missing.value));
      }
      IncidencesStep(k.cubes[..j], cube, ranks, order);
    }
    assert k.cubes[..n] == k.cubes;
    return Ok(m);
  }

  /** Lines 46-49, the inner loop for one cell of rank `col`: set the entry
      of each face in turn to 1, or stop at the first face that has no rank.
      When no face is missing, `m` shows the entries it showed before and
      those of the faces. */
  method FillColumn(m: array2<int>, col: int, faces: seq<Cube>, ranks: map<Cube, int>, ghost ones: set<(int, int)>)
    returns (missing: Option<Cube>)
    requires Shows(m, ones) && 0 <= col < m.Length1
    requires forall c :: c in ranks ==> 0 <= ranks[c] < m.Length0
    modifies m
    ensures missing == FirstUnranked(faces, ranks)
    ensures missing.None? ==> Shows(m, ones + FaceEntries(faces, col, ranks))
  {
    for l := 0 to |faces|
      invariant forall b :: b in faces[..l] ==> b in ranks
      invariant Shows(m, ones + FaceEntries(faces[..l], col, ranks))
    {
      var b := faces[l];
      if b !in ranks {
        assert faces == faces[..l] + faces[l..];
        FirstUnrankedAfter(faces[..l], faces[l..], ranks);
        return Some(b);
      }
      m[ranks[b], col] := 1;
      FaceEntriesStep(faces, l, col, ranks);
    }
    assert faces[..|faces|] == faces;
    return None;
  }

  /** `sorted_boundary_matrix(k, f)` (lines 28-51): rank the cells, then fill
      the matrix. It fails with the first lookup that finds no rank; otherwise
      the matrix is `len(k) x len(k)` and holds 1 exactly at (rank of face,
      rank of cell) for the cells of `k` and their faces. */
  method SortedBoundaryMatrix(k: Complex, f: VertexFiltration, order: SetOrder) returns (res: Result<array2<int>>)
    ensures res.Err? <==> FirstFailure(k.cubes, Ranks(k, f).ranks, order).Some?
    ensures res.Err? ==> FirstFailure(k.cubes, Ranks(k, f).ranks, order) == Some(res.error)
    ensures res.Ok? ==> fresh(res.value)
    ensures res.Ok? ==> res.value.Length0 == |k.cubes| && res.value.Length1 == |k.cubes|
    ensures res.Ok? ==> Shows(res.value, Incidences(k.cubes, Ranks(k, f).ranks, order))
  {
    var ranks, next := AssignRanks(k, f);
    res := FillMatrix(k, ranks, order);
  }

  /** With distinct ranks, the entry at (rank of `y`, rank of `x`) is 1 exactly
      when `y` is a face of the cell `x`. */
  lemma IncidenceMeaning(cs: seq<Cube>, ranks: map<Cube, int>, order: SetOrder, x: Cube, y: Cube)
    requires Injective(ranks)
    requires x in cs && x in ranks && y in ranks
    ensures (ranks[y], ranks[x]) in Incidences(cs, ranks, order) <==> y in Boundary(x, order)
  {
    if (ranks[y], ranks[x]) in Incidences(cs, ranks, order) {
      var c, b :| c in cs && c in ranks && b in Boundary(c, order) && b in ranks
        && (ranks[y], ranks[x]) == (ranks[b], ranks[c]);
      assert c == x && b == y;
    }
  }

  /** In a matrix that shows the incidences, the column of a vertex is all
      zero: a 1-tuple has no faces. */
  lemma VertexColumnZero(m: array2<int>, cs: seq<Cube>, ranks: map<Cube, int>, order: SetOrder, v: Cube)
    requires Shows(m, Incidences(cs, ranks, order))
    requires Injective(ranks)
    requires |v| == 1 && v in ranks && 0 <= ranks[v] < m.Length1
    ensures forall row :: 0 <= row < m.Length0 ==> m[row, ranks[v]] == 0
  {
  }

  /** When each cell holds the label of some vertex and each face of a cell
      is itself a cell, every lookup succeeds and the matrix is built. */
  lemma ClosedComplexFills(k: Complex, f: VertexFiltration, order: SetOrder)
    requires forall c {:trigger Anchored(k, c)} :: c in k.cubes ==> Anchored(k, c)
    requires forall c, b :: c in k.cubes && b in Boundary(c, order) ==> b in k.cubes
    ensures FirstFailure(k.cubes, Ranks(k, f).ranks, order) == None
  {
    VisitsAllCells(k, f);
    RankFoldExact(Visits(k, VisitOrder(k, f)), |k.cubes|);
    assert Ranks(k, f).ranks.Keys == Elems(k.cubes);
  }
}
