/**
 The maze generator (`drawMaze`). Despite its name it only produces wall data.

 The random source is an input sequence of draws (each the value
 rand()/RAND_MAX). The generator emits, in order:
 - the top entrance: two horizontal segments at y = MarginTop with a gap
   centred on the middle column(s);
 - one candidate wall per draw, kept when the draw is strictly above its cut;
 - the bottom exit: the same two segments at the bottom row.
 Candidates are visited column by column (i = 0 .. L-1), and within a column
 row by row (j = 1 .. L): first the horizontal one (skipped when j == L),
 then the vertical one (skipped when i == L-1).
 */
module MazeGen {
  import opened Constants

  /** An axis-aligned wall segment. */
  datatype Wall = Wall(start: Vec, end: Vec, horizontal: bool)

  /** The candidate interior wall of cell (i, j) along one axis. */
  datatype Candidate = Candidate(horizontal: bool, i: int, j: int)

  /** The generated walls and the draws left over for later consumers. */
  datatype Generated = Generated(walls: seq<Wall>, rest: seq<real>)

  predicate ValidLength(L: int) {
    MinMazeLength <= L <= MaxMazeLength
  }

  /** The side of one maze cell. */
  function Seg(L: int): (s: real)
    requires L >= 1
    ensures s > 0.0
    ensures s * L as real == ViewWidth
  {
    ViewWidth / L as real
  }

  /** Multiplying by the cell side is strictly monotone. */
  lemma ScaleMono(L: int, a: int, b: int)
    requires L >= 1
    ensures a <= b ==> Seg(L) * a as real <= Seg(L) * b as real
    ensures a < b ==> Seg(L) * a as real < Seg(L) * b as real
  {
    var s := Seg(L);
    assert s * b as real - s * a as real == s * (b - a) as real;
  }

  /** A lattice coordinate 0 <= a <= L scales into [0, ViewWidth]. */
  lemma ScaleInRange(L: int, a: int)
    requires L >= 1 && 0 <= a <= L
    ensures 0.0 <= Seg(L) * a as real <= ViewWidth
  {
    ScaleMono(L, 0, a);
    ScaleMono(L, a, L);
  }

  /** x-coordinate where the left half of an entrance/exit ends. */
  function LeftEdge(L: int): real
    requires L >= 1
  {
    ((L / 2) - (if L % 2 == 0 then 1 else 0)) as real * Seg(L)
  }

  /** x-coordinate where the right half of an entrance/exit starts. */
  function RightEdge(L: int): real
    requires L >= 1
  {
    ((L / 2) + 1) as real * Seg(L)
  }

  /** y-coordinate of the bottom exit. */
  function BottomY(L: int): (y: real)
    requires L >= 1
    ensures y == MarginTop - ViewWidth
  {
    MarginTop - L as real * Seg(L)
  }

  /** The pair of horizontal segments at height y, leaving the centred gap open. */
  function Opening(L: int, y: real): seq<Wall>
    requires L >= 1
  {
    [ Wall(Vec(0.0, y), Vec(LeftEdge(L), y), true),
      Wall(Vec(RightEdge(L), y), Vec(ViewWidth, y), true) ]
  }

  /** The gap is one cell wide for odd L, two for even L, centred, and strictly inside the domain. */
  lemma GapShape(L: int)
    requires ValidLength(L)
    ensures RightEdge(L) - LeftEdge(L) == (if L % 2 == 1 then Seg(L) else 2.0 * Seg(L))
    ensures LeftEdge(L) + RightEdge(L) == ViewWidth
    ensures 0.0 < LeftEdge(L) < RightEdge(L) < ViewWidth
  {
    var s := Seg(L);
    var a := (L / 2) - (if L % 2 == 0 then 1 else 0);
    var b := (L / 2) + 1;
    assert LeftEdge(L) == s * a as real;
    assert RightEdge(L) == s * b as real;
    assert s * b as real - s * a as real == s * (b - a) as real;
    assert s * a as real + s * b as real == s * (a + b) as real;
    assert a + b == L;
    ScaleMono(L, 0, a);
    ScaleMono(L, a, b);
    ScaleMono(L, b, L);
  }

  // ---------------------------------------------------------------------
  // The candidate schedule: which draw decides which wall.

  function CellCandidates(L: int, i: int, j: int): seq<Candidate>
  {
    (if j != L then [Candidate(true, i, j)] else [])
    + (if i != L - 1 then [Candidate(false, i, j)] else [])
  }

  /** Column i, rows j .. L. */
  function RowCandidates(L: int, i: int, j: int): (cs: seq<Candidate>)
    requires 1 <= j <= L + 1
    ensures |cs| == (if j <= L then L - j else 0) + (if i == L - 1 then 0 else L + 1 - j)
    decreases L + 1 - j
  {
    if j > L then [] else CellCandidates(L, i, j) + RowCandidates(L, i, j + 1)
  }

  /** Columns i .. L-1. */
  function GridCandidates(L: int, i: int): (cs: seq<Candidate>)
    requires 1 <= L && 0 <= i <= L
    ensures i < L ==> |cs| == (L - i) * (L - 1) + (L - 1 - i) * L
    ensures i == L ==> cs == []
    decreases L - i
  {
    if i == L then [] else RowCandidates(L, i, 1) + GridCandidates(L, i + 1)
  }

  /** Number of draws the generator consumes. */
  function DrawCount(L: int): nat
    requires L >= 1
  {
    2 * L * (L - 1)
  }

  /** All candidates in draw order: one per draw. */
  function Candidates(L: int): (cs: seq<Candidate>)
    requires L >= 1
    ensures |cs| == DrawCount(L)
  {
    GridCandidates(L, 0)
  }

  /** The cells whose horizontal / vertical candidate the loops visit. */
  predicate ValidCandidate(L: int, c: Candidate) {
    && 0 <= c.i < L
    && 1 <= c.j <= L
    && (c.horizontal ==> c.j != L)
    && (!c.horizontal ==> c.i != L - 1)
  }

  lemma {:induction false} RowMembership(L: int, i: int, j: int, c: Candidate)
    requires 1 <= j <= L + 1
    ensures c in RowCandidates(L, i, j) <==>
      c.i == i && j <= c.j <= L && (c.horizontal ==> c.j != L) && (!c.horizontal ==> i != L - 1)
    decreases L + 1 - j
  {
    if j <= L {
      RowMembership(L, i, j + 1, c);
    }
  }

  lemma {:induction false} GridMembership(L: int, i: int, c: Candidate)
    requires 1 <= L && 0 <= i <= L
    ensures c in GridCandidates(L, i) <==> ValidCandidate(L, c) && i <= c.i
    decreases L - i
  {
    if i < L {
      RowMembership(L, i, 1, c);
      GridMembership(L, i + 1, c);
    }
  }

  /** A candidate is scheduled exactly when the loops reach its cell and do not skip its axis. */
  lemma CandidateMembership(L: int, c: Candidate)
    requires L >= 1
    ensures c in Candidates(L) <==> ValidCandidate(L, c)
  {
    GridMembership(L, 0, c);
  }

  lemma DistinctConcat<T>(s: seq<T>, t: seq<T>)
    requires Distinct(s) && Distinct(t)
    requires forall x :: x in s ==> x !in t
    ensures Distinct(s + t)
  {
    forall a, b | 0 <= a < b < |s + t|
      ensures (s + t)[a] != (s + t)[b]
    {
      if b < |s| {
      } else if a >= |s| {
        assert (s + t)[a] == t[a - |s|] && (s + t)[b] == t[b - |s|];
      } else {
        assert (s + t)[a] in s && (s + t)[b] in t;
      }
    }
  }

  lemma {:induction false} RowDistinct(L: int, i: int, j: int)
    requires 1 <= j <= L + 1
    ensures Distinct(RowCandidates(L, i, j))
    decreases L + 1 - j
  {
    if j <= L {
      RowDistinct(L, i, j + 1);
      forall x | x in CellCandidates(L, i, j)
        ensures x !in RowCandidates(L, i, j + 1)
      {
        RowMembership(L, i, j + 1, x);
      }
      DistinctConcat(CellCandidates(L, i, j), RowCandidates(L, i, j + 1));
    }
  }

  lemma {:induction false} GridDistinct(L: int, i: int)
    requires 1 <= L && 0 <= i <= L
    ensures Distinct(GridCandidates(L, i))
    decreases L - i
  {
    if i < L {
      RowDistinct(L, i, 1);
      GridDistinct(L, i + 1);
      forall x | x in RowCandidates(L, i, 1)
        ensures x !in GridCandidates(L, i + 1)
      {
        RowMembership(L, i, 1, x);
        GridMembership(L, i + 1, x);
      }
      DistinctConcat(RowCandidates(L, i, 1), GridCandidates(L, i + 1));
    }
  }

  /** No candidate is scheduled twice. */
  lemma CandidatesDistinct(L: int)
    requires L >= 1
    ensures Distinct(Candidates(L))
  {
    GridDistinct(L, 0);
  }

  // ---------------------------------------------------------------------
  // Walls.

  /** The wall a candidate stands for, with the program's coordinates. */
  function WallOf(L: int, c: Candidate): Wall
    requires L >= 1
  {
    var s := Seg(L);
    if c.horizontal then
      var start := Vec(s * c.i as real, MarginTop - s * c.j as real);
      Wall(start, Vec(start.x + s, start.y), true)
    else
      var start := Vec(s * (c.i + 1) as real, MarginTop - s * c.j as real);
      Wall(start, Vec(start.x, start.y + s), false)
  }

  /** Axis-aligned, endpoints ordered, and inside the maze's bounding box. */
  predicate WellFormed(L: int, w: Wall)
    requires L >= 1
  {
    && (w.horizontal ==> w.start.y == w.end.y)
    && (!w.horizontal ==> w.start.x == w.end.x)
    && w.start.x <= w.end.x && w.start.y <= w.end.y
    && 0.0 <= w.start.x && w.end.x <= ViewWidth
    && BottomY(L) <= w.start.y && w.end.y <= MarginTop
  }

  /** One cell long along its own axis. */
  predicate UnitLength(L: int, w: Wall)
    requires L >= 1
  {
    if w.horizontal then w.end == Vec(w.start.x + Seg(L), w.start.y)
    else w.end == Vec(w.start.x, w.start.y + Seg(L))
  }

  /** Every scheduled candidate's wall has the candidate's axis, is one cell long and lies in the box. */
  lemma CandidateWallShape(L: int, c: Candidate)
    requires L >= 1 && ValidCandidate(L, c)
    ensures WallOf(L, c).horizontal == c.horizontal
    ensures UnitLength(L, WallOf(L, c))
    ensures WellFormed(L, WallOf(L, c))
  {
    if c.horizontal {
      HorizontalWallShape(L, c);
    } else {
      VerticalWallShape(L, c);
    }
  }

  lemma HorizontalWallShape(L: int, c: Candidate)
    requires L >= 1 && ValidCandidate(L, c) && c.horizontal
    ensures UnitLength(L, WallOf(L, c)) && WellFormed(L, WallOf(L, c))
  {
    var s := Seg(L);
    var w := WallOf(L, c);
    ScaleStep(L, c.i);
    ScaleInRange(L, c.i);
    ScaleInRange(L, c.i + 1);
    ScaleInRange(L, c.j);
    assert w.start.x == s * c.i as real && w.end.x == s * (c.i + 1) as real;
    assert w.start.y == w.end.y == MarginTop - s * c.j as real;
  }

  lemma VerticalWallShape(L: int, c: Candidate)
    requires L >= 1 && ValidCandidate(L, c) && !c.horizontal
    ensures UnitLength(L, WallOf(L, c)) && WellFormed(L, WallOf(L, c))
  {
    var s := Seg(L);
    var w := WallOf(L, c);
    ScaleStep(L, c.j - 1);
    ScaleInRange(L, c.i + 1);
    ScaleInRange(L, c.j);
    ScaleInRange(L, c.j - 1);
    assert w.start.x == w.end.x == s * (c.i + 1) as real;
    assert w.start.y == MarginTop - s * c.j as real;
    assert w.end.y == MarginTop - s * (c.j - 1) as real;
  }

  lemma ScaleStep(L: int, a: int)
    requires L >= 1
    ensures Seg(L) * a as real + Seg(L) == Seg(L) * (a + 1) as real
  {
  }

  /** Distinct scheduled candidates give distinct walls. */
  lemma WallOfInjective(L: int, c: Candidate, d: Candidate)
    requires L >= 1 && ValidCandidate(L, c) && ValidCandidate(L, d)
    requires c != d
    ensures WallOf(L, c) != WallOf(L, d)
  {
    ScaleMono(L, c.j, d.j);
    ScaleMono(L, d.j, c.j);
    if c.horizontal {
      ScaleMono(L, c.i, d.i);
      ScaleMono(L, d.i, c.i);
    } else {
      ScaleMono(L, c.i + 1, d.i + 1);
      ScaleMono(L, d.i + 1, c.i + 1);
    }
  }

  /** A horizontal wall is kept above threshold + 0.1, a vertical one above threshold. */
  function Cut(threshold: real, c: Candidate): real {
    if c.horizontal then threshold + 0.1 else threshold
  }

  /** The walls of the candidates whose draw beats the cut, in draw order. */
  function Kept(L: int, threshold: real, cs: seq<Candidate>, draws: seq<real>): seq<Wall>
    requires L >= 1 && |cs| <= |draws|
    decreases |cs|
  {
    if |cs| == 0 then []
    else
      var n := |cs| - 1;
      Kept(L, threshold, cs[..n], draws)
      + (if draws[n] > Cut(threshold, cs[n]) then [WallOf(L, cs[n])] else [])
  }

  /** Indices of the draws that produced a wall. */
  function Passing(threshold: real, cs: seq<Candidate>, draws: seq<real>): set<nat>
    requires |cs| <= |draws|
  {
    set k: nat | k < |cs| && draws[k] > Cut(threshold, cs[k])
  }

  /** One kept wall per passing draw. */
  lemma {:induction false} KeptCount(L: int, threshold: real, cs: seq<Candidate>, draws: seq<real>)
    requires L >= 1 && |cs| <= |draws|
    ensures |Kept(L, threshold, cs, draws)| == |Passing(threshold, cs, draws)|
    decreases |cs|
  {
    if |cs| > 0 {
      var n := |cs| - 1;
      KeptCount(L, threshold, cs[..n], draws);
      var before := Passing(threshold, cs[..n], draws);
      if draws[n] > Cut(threshold, cs[n]) {
        assert Passing(threshold, cs, draws) == before + {n};
      } else {
        assert Passing(threshold, cs, draws) == before;
      }
    } else {
      assert Passing(threshold, cs, draws) == {};
    }
  }

  /** A wall is kept exactly when some candidate's draw beats its cut and the candidate stands for it. */
  lemma {:induction false} KeptMembership(L: int, threshold: real, cs: seq<Candidate>, draws: seq<real>, w: Wall)
    requires L >= 1 && |cs| <= |draws|
    ensures w in Kept(L, threshold, cs, draws) <==>
      exists k :: 0 <= k < |cs| && draws[k] > Cut(threshold, cs[k]) && WallOf(L, cs[k]) == w
    decreases |cs|
  {
    if |cs| > 0 {
      var n := |cs| - 1;
      KeptMembership(L, threshold, cs[..n], draws, w);
      if w in Kept(L, threshold, cs[..n], draws) {
        var k :| 0 <= k < n && draws[k] > Cut(threshold, cs[..n][k]) && WallOf(L, cs[..n][k]) == w;
        assert cs[k] == cs[..n][k];
      }
      if exists k :: 0 <= k < |cs| && draws[k] > Cut(threshold, cs[k]) && WallOf(L, cs[k]) == w {
        var k :| 0 <= k < |cs| && draws[k] > Cut(threshold, cs[k]) && WallOf(L, cs[k]) == w;
        if k < n {
          assert cs[..n][k] == cs[k];
        }
      }
    }
  }

  // ---------------------------------------------------------------------
  // The generator.

  /** `drawMaze` for dimension L and threshold, reading its random values from `draws`. */
  function GenerateMaze(L: int, threshold: real, draws: seq<real>): (r: Generated)
    requires ValidLength(L)
    requires |draws| >= DrawCount(L)
    ensures r.rest == draws[DrawCount(L)..]
    ensures |r.walls| >= 4
    ensures r.walls[..2] == Opening(L, MarginTop)
    ensures r.walls[|r.walls| - 2..] == Opening(L, BottomY(L))
    ensures forall w :: w in r.walls ==> WellFormed(L, w)
  {
    var cs := Candidates(L);
    var n := |cs|;
    var inner := Kept(L, threshold, cs, draws[..n]);
    var walls := Opening(L, MarginTop) + inner + Opening(L, BottomY(L));
    OpeningsWellFormed(L);
    forall w | w in inner
      ensures WellFormed(L, w)
    {
      KeptMembership(L, threshold, cs, draws[..n], w);
      var k :| 0 <= k < |cs| && draws[..n][k] > Cut(threshold, cs[k]) && WallOf(L, cs[k]) == w;
      CandidateMembership(L, cs[k]);
      CandidateWallShape(L, cs[k]);
    }
    assert walls[..2] == Opening(L, MarginTop);
    assert walls[|walls| - 2..] == Opening(L, BottomY(L));
    Generated(walls, draws[n..])
  }

  lemma OpeningsWellFormed(L: int)
    requires ValidLength(L)
    ensures forall w :: w in Opening(L, MarginTop) ==> WellFormed(L, w)
    ensures forall w :: w in Opening(L, BottomY(L)) ==> WellFormed(L, w)
  {
    GapShape(L);
  }

  /** The interior walls: everything between the entrance and the exit. */
  function Interior(g: Generated): seq<Wall>
    requires |g.walls| >= 4
  {
    g.walls[2..|g.walls| - 2]
  }

  lemma InteriorIsKept(L: int, threshold: real, draws: seq<real>)
    requires ValidLength(L) && |draws| >= DrawCount(L)
    ensures Interior(GenerateMaze(L, threshold, draws))
         == Kept(L, threshold, Candidates(L), draws[..DrawCount(L)])
  {
    var cs := Candidates(L);
    var inner := Kept(L, threshold, cs, draws[..DrawCount(L)]);
    var walls := Opening(L, MarginTop) + inner + Opening(L, BottomY(L));
    assert GenerateMaze(L, threshold, draws).walls == walls;
    assert walls[2..|walls| - 2] == inner;
  }

  /** The generator appends the four opening segments plus one wall per passing draw. */
  lemma MazeWallCount(L: int, threshold: real, draws: seq<real>)
    requires ValidLength(L) && |draws| >= DrawCount(L)
    ensures |GenerateMaze(L, threshold, draws).walls|
         == 4 + |Passing(threshold, Candidates(L), draws[..DrawCount(L)])|
  {
    InteriorIsKept(L, threshold, draws);
    KeptCount(L, threshold, Candidates(L), draws[..DrawCount(L)]);
  }

  /** Every interior wall is the one-cell wall of a scheduled candidate. */
  lemma InteriorWallsAreCandidates(L: int, threshold: real, draws: seq<real>)
    requires ValidLength(L) && |draws| >= DrawCount(L)
    ensures forall w :: w in Interior(GenerateMaze(L, threshold, draws)) ==>
      UnitLength(L, w) && exists c :: ValidCandidate(L, c) && w == WallOf(L, c)
  {
    var cs := Candidates(L);
    var ds := draws[..DrawCount(L)];
    InteriorIsKept(L, threshold, draws);
    forall w | w in Interior(GenerateMaze(L, threshold, draws))
      ensures UnitLength(L, w) && exists c :: ValidCandidate(L, c) && w == WallOf(L, c)
    {
      KeptMembership(L, threshold, cs, ds, w);
      var k :| 0 <= k < |cs| && ds[k] > Cut(threshold, cs[k]) && WallOf(L, cs[k]) == w;
      CandidateMembership(L, cs[k]);
      CandidateWallShape(L, cs[k]);
    }
  }

  /** The k-th candidate's wall is generated exactly when the k-th draw is strictly above its cut. */
  lemma InteriorIff(L: int, threshold: real, draws: seq<real>, k: int)
    requires ValidLength(L) && |draws| >= DrawCount(L)
    requires 0 <= k < DrawCount(L)
    ensures WallOf(L, Candidates(L)[k]) in GenerateMaze(L, threshold, draws).walls
        <==> draws[k] > Cut(threshold, Candidates(L)[k])
  {
    var cs := Candidates(L);
    var ds := draws[..DrawCount(L)];
    var g := GenerateMaze(L, threshold, draws);
    var w := WallOf(L, cs[k]);
    InteriorIsKept(L, threshold, draws);
    KeptMembership(L, threshold, cs, ds, w);
    CandidateMembership(L, cs[k]);
    CandidatesDistinct(L);
    if draws[k] > Cut(threshold, cs[k]) {
      assert ds[k] == draws[k];
      assert w in Interior(g);
    }
    if w in g.walls {
      assert g.walls == Opening(L, MarginTop) + Interior(g) + Opening(L, BottomY(L));
      NotAnOpening(L, cs[k]);
      assert w in Interior(g);
      var k' :| 0 <= k' < |cs| && ds[k'] > Cut(threshold, cs[k']) && WallOf(L, cs[k']) == w;
      CandidateMembership(L, cs[k']);
      if cs[k'] != cs[k] {
        WallOfInjective(L, cs[k'], cs[k]);
      }
    }
  }

  /** No candidate wall coincides with an entrance or exit segment. */
  lemma NotAnOpening(L: int, c: Candidate)
    requires ValidLength(L) && ValidCandidate(L, c)
    ensures WallOf(L, c) !in Opening(L, MarginTop)
    ensures WallOf(L, c) !in Opening(L, BottomY(L))
  {
    if c.horizontal {
      ScaleMono(L, 0, c.j);
      ScaleMono(L, c.j, L);
    }
  }
}
