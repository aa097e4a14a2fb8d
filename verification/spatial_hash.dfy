/**
 The uniform-grid spatial hash (`SHhash`, `spatialHashing`, `findNeighbors`).

 A particle's key is trunc(x / CellDim) + RowStride * trunc(y / CellDim),
 where trunc rounds toward zero as a C++ float-to-int cast does. The index
 maps each occupied key to the particles of that cell, copied in the order
 of the particle list. A query concatenates the buckets of the 3x3 block
 of keys around a particle's own key, skipping absent keys.
 */
module SpatialHash {
  import opened Constants

  type Index = map<int, seq<Particle>>

  /** Rounding toward zero, as a C++ float-to-int conversion does. */
  function Trunc(r: real): int {
    if r >= 0.0 then r.Floor else -((-r).Floor)
  }

  /** Trunc drops the fractional part: it rounds down for non-negative values and up for negative ones. */
  lemma TruncTowardZero(r: real)
    ensures 0.0 <= r ==> Trunc(r) as real <= r < Trunc(r) as real + 1.0
    ensures r < 0.0 ==> Trunc(r) as real - 1.0 < r <= Trunc(r) as real
  {
  }

  /** Key of the cell holding `p`. */
  function Hash(p: Particle): int {
    Trunc(p.pos.x / CellDim) + Trunc(p.pos.y / CellDim) * RowStride
  }

  /** The bucket stored under `key`, empty when the key is absent. */
  function Bucket(index: Index, key: int): seq<Particle> {
    if key in index then index[key] else []
  }

  /** Append a particle to the bucket of its own key, creating the bucket when the key is new. */
  function Insert(index: Index, p: Particle): (r: Index)
    ensures r.Keys == index.Keys + {Hash(p)}
    ensures Bucket(r, Hash(p)) == Bucket(index, Hash(p)) + [p]
    ensures forall k :: k != Hash(p) ==> Bucket(r, k) == Bucket(index, k)
  {
    index[Hash(p) := Bucket(index, Hash(p)) + [p]]
  }

  /** `spatialHashing`: clear the index, then insert every particle in list order. */
  function Rebuild(ps: seq<Particle>): Index
    decreases |ps|
  {
    if |ps| == 0 then map[] else Insert(Rebuild(ps[..|ps| - 1]), ps[|ps| - 1])
  }

  /** Reference definition: the particles of `ps` whose key lies in `keys`, in list order. */
  function InCells(ps: seq<Particle>, keys: set<int>): (r: seq<Particle>)
    ensures |r| <= |ps|
    ensures forall q :: q in r <==> q in ps && Hash(q) in keys
    decreases |ps|
  {
    if |ps| == 0 then []
    else
      var n := |ps| - 1;
      InCells(ps[..n], keys) + (if Hash(ps[n]) in keys then [ps[n]] else [])
  }

  /** After a rebuild, each key's bucket holds exactly the particles hashed to it, in list order. */
  lemma {:induction false} RebuildBuckets(ps: seq<Particle>, k: int)
    ensures Bucket(Rebuild(ps), k) == InCells(ps, {k})
    decreases |ps|
  {
    if |ps| > 0 {
      RebuildBuckets(ps[..|ps| - 1], k);
    }
  }

  /** A key is present in a rebuilt index exactly when some particle hashes to it. */
  lemma {:induction false} RebuildKeys(ps: seq<Particle>, k: int)
    ensures k in Rebuild(ps) <==> exists q :: q in ps && Hash(q) == k
    decreases |ps|
  {
    if |ps| > 0 {
      var n := |ps| - 1;
      RebuildKeys(ps[..n], k);
      assert ps == ps[..n] + [ps[n]];
      assert forall q :: q in ps <==> q in ps[..n] || q == ps[n];
    }
  }

  /** Every particle sits in the bucket of its own key and in no other bucket. */
  lemma RebuildPlacesOnce(ps: seq<Particle>, p: Particle, k: int)
    requires p in ps
    ensures p in Bucket(Rebuild(ps), k) <==> k == Hash(p)
    ensures Hash(p) in Rebuild(ps)
  {
    RebuildKeys(ps, Hash(p));
    RebuildBuckets(ps, k);
  }

  // ---------------------------------------------------------------------
  // Queries.

  /** The key `i` rows and `j` columns away from `cell`. */
  function Shifted(cell: int, i: int, j: int): int {
    cell + i * RowStride + j
  }

  /** The nine keys of the 3x3 block around `cell`, in the query's visiting order (row offset outer, column offset inner). */
  function BlockKeys(cell: int): (ks: seq<int>)
    ensures |ks| == 9
    ensures forall i, j :: -1 <= i <= 1 && -1 <= j <= 1 ==> ks[3 * (i + 1) + (j + 1)] == Shifted(cell, i, j)
  {
    [ cell - RowStride - 1, cell - RowStride, cell - RowStride + 1,
      cell - 1, cell, cell + 1,
      cell + RowStride - 1, cell + RowStride, cell + RowStride + 1 ]
  }

  /** Concatenation of the buckets of `keys`, absent keys contributing nothing. */
  function Gather(index: Index, keys: seq<int>): (r: seq<Particle>)
    ensures forall q :: q in r <==> exists k :: k in keys && q in Bucket(index, k)
    decreases |keys|
  {
    if |keys| == 0 then [] else Bucket(index, keys[0]) + Gather(index, keys[1..])
  }

  /** `findNeighbors(p)`. */
  function FindNeighbors(index: Index, p: Particle): seq<Particle> {
    Gather(index, BlockKeys(Hash(p)))
  }

  lemma {:induction false} InCellsUnion(ps: seq<Particle>, a: set<int>, b: set<int>)
    requires a !! b
    ensures multiset(InCells(ps, a + b)) == multiset(InCells(ps, a)) + multiset(InCells(ps, b))
    decreases |ps|
  {
    if |ps| > 0 {
      InCellsUnion(ps[..|ps| - 1], a, b);
    }
  }

  function KeySet(keys: seq<int>): set<int> {
    set k | k in keys
  }

  lemma KeySetCons(keys: seq<int>)
    requires |keys| > 0 && Distinct(keys)
    ensures KeySet(keys) == {keys[0]} + KeySet(keys[1..])
    ensures keys[0] !in KeySet(keys[1..])
    ensures Distinct(keys[1..])
  {
    assert keys == [keys[0]] + keys[1..];
    forall a | 0 <= a < |keys| - 1
      ensures keys[1..][a] != keys[0]
    {
      assert keys[1..][a] == keys[a + 1];
    }
  }

  lemma {:induction false} GatherAfterRebuild(ps: seq<Particle>, keys: seq<int>)
    requires Distinct(keys)
    ensures multiset(Gather(Rebuild(ps), keys)) == multiset(InCells(ps, KeySet(keys)))
    decreases |keys|
  {
    if |keys| == 0 {
      assert KeySet(keys) == {};
      InCellsEmpty(ps);
    } else {
      KeySetCons(keys);
      GatherAfterRebuild(ps, keys[1..]);
      RebuildBuckets(ps, keys[0]);
      InCellsUnion(ps, {keys[0]}, KeySet(keys[1..]));
    }
  }

  lemma InCellsEmpty(ps: seq<Particle>)
    ensures InCells(ps, {}) == []
  {
    if InCells(ps, {}) != [] {
      assert InCells(ps, {})[0] in InCells(ps, {});
    }
  }

  /** The nine keys of a block are pairwise different. */
  lemma BlockKeysDistinct(cell: int)
    ensures Distinct(BlockKeys(cell))
  {
  }

  /** On a rebuilt index a query returns, counted with multiplicity, exactly the particles whose key lies in the 3x3 block. */
  lemma NeighborsAfterRebuild(ps: seq<Particle>, p: Particle)
    ensures multiset(FindNeighbors(Rebuild(ps), p))
         == multiset(InCells(ps, KeySet(BlockKeys(Hash(p)))))
    ensures |FindNeighbors(Rebuild(ps), p)| == |InCells(ps, KeySet(BlockKeys(Hash(p))))|
  {
    BlockKeysDistinct(Hash(p));
    GatherAfterRebuild(ps, BlockKeys(Hash(p)));
    var a := FindNeighbors(Rebuild(ps), p);
    var b := InCells(ps, KeySet(BlockKeys(Hash(p))));
    assert |multiset(a)| == |a| && |multiset(b)| == |b|;
  }

  /** A particle of the list always finds its own copy (the centre key of its block). */
  lemma SelfIsNeighbor(ps: seq<Particle>, p: Particle)
    requires p in ps
    ensures p in FindNeighbors(Rebuild(ps), p)
  {
    RebuildPlacesOnce(ps, p, Hash(p));
    assert BlockKeys(Hash(p))[4] == Hash(p);
  }

  /** Two non-negative coordinates less than a cell apart fall in the same or adjacent cells. */
  lemma CellStep(a: real, b: real)
    requires 0.0 <= a && 0.0 <= b && -CellDim < b - a < CellDim
    ensures -1 <= Trunc(b / CellDim) - Trunc(a / CellDim) <= 1
  {
    TruncTowardZero(a / CellDim);
    TruncTowardZero(b / CellDim);
    assert b / CellDim - a / CellDim == (b - a) / CellDim;
  }

  /** A particle less than one cell away from p along each axis (non-negative coordinates) has its key in p's 3x3 block. */
  lemma NearbyInBlock(p: Particle, q: Particle)
    requires 0.0 <= p.pos.x && 0.0 <= p.pos.y && 0.0 <= q.pos.x && 0.0 <= q.pos.y
    requires -CellDim < q.pos.x - p.pos.x < CellDim && -CellDim < q.pos.y - p.pos.y < CellDim
    ensures Hash(q) in BlockKeys(Hash(p))
  {
    CellStep(p.pos.x, q.pos.x);
    CellStep(p.pos.y, q.pos.y);
    var i := Trunc(q.pos.y / CellDim) - Trunc(p.pos.y / CellDim);
    var j := Trunc(q.pos.x / CellDim) - Trunc(p.pos.x / CellDim);
    assert Hash(q) == Shifted(Hash(p), i, j);
    assert BlockKeys(Hash(p))[3 * (i + 1) + (j + 1)] == Shifted(Hash(p), i, j);
  }

  /** On a rebuilt index, the query around p returns every particle of the list less than one cell away along each axis. */
  lemma NearbyIsNeighbor(ps: seq<Particle>, p: Particle, q: Particle)
    requires q in ps
    requires 0.0 <= p.pos.x && 0.0 <= p.pos.y && 0.0 <= q.pos.x && 0.0 <= q.pos.y
    requires -CellDim < q.pos.x - p.pos.x < CellDim && -CellDim < q.pos.y - p.pos.y < CellDim
    ensures q in FindNeighbors(Rebuild(ps), p)
  {
    NearbyInBlock(p, q);
    RebuildPlacesOnce(ps, q, Hash(q));
  }

  /** A particle whose key is outside p's block is never returned by the query around p. */
  lemma FarNotNeighbor(ps: seq<Particle>, p: Particle, q: Particle)
    requires Hash(q) !in BlockKeys(Hash(p))
    ensures q !in FindNeighbors(Rebuild(ps), p)
  {
    if q in FindNeighbors(Rebuild(ps), p) {
      var k :| k in BlockKeys(Hash(p)) && q in Bucket(Rebuild(ps), k);
      RebuildBuckets(ps, k);
    }
  }

  // ---------------------------------------------------------------------
  // Bucket sizes.

  /** The sum of the sizes of the buckets of `keys` (absent keys count zero). */
  function SumSizes(index: Index, keys: seq<int>): nat
    decreases |keys|
  {
    if |keys| == 0 then 0 else |Bucket(index, keys[0])| + SumSizes(index, keys[1..])
  }

  /** A query's length is the sum of the sizes of the buckets it visits. */
  lemma {:induction false} GatherLength(index: Index, keys: seq<int>)
    ensures |Gather(index, keys)| == SumSizes(index, keys)
    decreases |keys|
  {
    if |keys| > 0 {
      GatherLength(index, keys[1..]);
    }
  }

  lemma {:induction false} InCellsAll(ps: seq<Particle>, keys: set<int>)
    requires forall i :: 0 <= i < |ps| ==> Hash(ps[i]) in keys
    ensures InCells(ps, keys) == ps
    decreases |ps|
  {
    if |ps| > 0 {
      var n := |ps| - 1;
      InCellsAll(ps[..n], keys);
      assert ps == ps[..n] + [ps[n]];
    }
  }

  /** Summed over the present keys, each listed once, the bucket sizes of a rebuilt index add up to the number of particles. */
  lemma RebuildSizesSum(ps: seq<Particle>, keys: seq<int>)
    requires Distinct(keys) && KeySet(keys) == Rebuild(ps).Keys
    ensures SumSizes(Rebuild(ps), keys) == |ps|
  {
    GatherLength(Rebuild(ps), keys);
    GatherAfterRebuild(ps, keys);
    forall i | 0 <= i < |ps|
      ensures Hash(ps[i]) in KeySet(keys)
    {
      RebuildKeys(ps, Hash(ps[i]));
    }
    InCellsAll(ps, KeySet(keys));
    var g := Gather(Rebuild(ps), keys);
    assert |multiset(g)| == |g| && |multiset(ps)| == |ps|;
  }
}
