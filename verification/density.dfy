/**
 The density/pressure pass (`computeDensityPressure`), modelled over reals.

 For each particle p, density is the sum over p's spatial-hash neighbours q
 of mass * poly6 * (hsq - r2)^3 for those with r2 = |q.pos - p.pos|^2 < hsq,
 and pressure is gasConst * (density - restDens). Neighbours are copies
 taken when the index was built, and only their positions are read.

 The kernel constants are parameters: the program uses mass 2.5, hsq 256,
 gas constant 2000 and rest density 300, and a poly6 normalisation of
 4 / (pi * 16^8); only their positivity matters here.
 */
module DensityPass {
  import opened Constants
  import opened SpatialHash

  datatype Params = Params(mass: real, poly6: real, hsq: real, gasConst: real, restDens: real)

  predicate ValidParams(k: Params) {
    k.mass > 0.0 && k.poly6 > 0.0 && k.hsq > 0.0 && k.gasConst > 0.0 && k.restDens > 0.0
  }

  function Cube(r: real): real {
    r * r * r
  }

  lemma MulPos(a: real, b: real)
    requires a > 0.0 && b > 0.0
    ensures a * b > 0.0
  {
  }

  lemma MulNonNeg(a: real, b: real)
    requires a > 0.0 && b >= 0.0
    ensures a * b >= 0.0
  {
  }

  lemma CubePos(r: real)
    requires r > 0.0
    ensures Cube(r) > 0.0
  {
  }

  /** Squared distance, dx^2 + dy^2. */
  function DistSq(a: Vec, b: Vec): real {
    var dx := b.x - a.x;
    var dy := b.y - a.y;
    dx * dx + dy * dy
  }

  /** What neighbour q adds to p's density. */
  function Contribution(k: Params, p: Particle, q: Particle): (c: real)
    requires ValidParams(k)
    ensures c >= 0.0
    ensures DistSq(p.pos, q.pos) >= k.hsq ==> c == 0.0
    ensures DistSq(p.pos, q.pos) < k.hsq ==> c > 0.0
  {
    var r2 := DistSq(p.pos, q.pos);
    if r2 < k.hsq then
      var d := k.hsq - r2;
      CubePos(d);
      MulPos(k.mass, k.poly6);
      MulPos(k.mass * k.poly6, Cube(d));
      k.mass * k.poly6 * Cube(d)
    else 0.0
  }

  /** The density of p accumulated over the neighbour list `ns`. */
  function Density(k: Params, p: Particle, ns: seq<Particle>): (d: real)
    requires ValidParams(k)
    ensures d >= 0.0
    decreases |ns|
  {
    if |ns| == 0 then 0.0 else Contribution(k, p, ns[0]) + Density(k, p, ns[1..])
  }

  /** Particle p with density and pressure recomputed from neighbours `ns`. */
  function Refresh(k: Params, p: Particle, ns: seq<Particle>): (r: Particle)
    requires ValidParams(k)
    ensures r.pos == p.pos && r.vel == p.vel && r.force == p.force
    ensures r.density >= 0.0
    ensures r.pressure == k.gasConst * (r.density - k.restDens)
    ensures r.density < k.restDens <==> r.pressure < 0.0
  {
    var d := Density(k, p, ns);
    PressureSign(k.gasConst, d - k.restDens);
    p.(density := d, pressure := k.gasConst * (d - k.restDens))
  }

  lemma PressureSign(g: real, x: real)
    requires g > 0.0
    ensures g * x < 0.0 <==> x < 0.0
  {
    if x < 0.0 {
      MulPos(g, -x);
    } else {
      MulNonNeg(g, x);
    }
  }

  // ---------------------------------------------------------------------
  // Properties of the sum.

  lemma {:induction false} DensityConcat(k: Params, p: Particle, a: seq<Particle>, b: seq<Particle>)
    requires ValidParams(k)
    ensures Density(k, p, a + b) == Density(k, p, a) + Density(k, p, b)
    decreases |a|
  {
    if |a| > 0 {
      assert (a + b)[1..] == a[1..] + b;
      assert (a + b)[0] == a[0];
      DensityConcat(k, p, a[1..], b);
    } else {
      assert a + b == b;
    }
  }

  /** Taking one neighbour out of the list removes exactly its term. */
  lemma DensityRemove(k: Params, p: Particle, b: seq<Particle>, t: int)
    requires ValidParams(k)
    requires 0 <= t < |b|
    ensures Density(k, p, b) == Contribution(k, p, b[t]) + Density(k, p, b[..t] + b[t + 1..])
  {
    assert b == b[..t] + [b[t]] + b[t + 1..];
    DensityConcat(k, p, b[..t] + [b[t]], b[t + 1..]);
    DensityConcat(k, p, b[..t], [b[t]]);
    DensityConcat(k, p, b[..t], b[t + 1..]);
    assert Density(k, p, [b[t]]) == Contribution(k, p, b[t]) + Density(k, p, []);
  }

  /** The density does not depend on the order of the neighbour list. */
  lemma {:induction false} DensityPermutation(k: Params, p: Particle, a: seq<Particle>, b: seq<Particle>)
    requires ValidParams(k)
    requires multiset(a) == multiset(b)
    ensures Density(k, p, a) == Density(k, p, b)
    decreases |a|
  {
    if |a| == 0 {
      assert |b| == |multiset(b)| == 0;
    } else {
      assert a[0] in multiset(b);
      var t :| 0 <= t < |b| && b[t] == a[0];
      var b' := b[..t] + b[t + 1..];
      assert b == b[..t] + [b[t]] + b[t + 1..];
      assert a == [a[0]] + a[1..];
      assert multiset(b') == multiset(b) - multiset{a[0]};
      assert multiset(a[1..]) == multiset(a) - multiset{a[0]};
      DensityPermutation(k, p, a[1..], b');
      DensityRemove(k, p, b, t);
    }
  }

  /** Only positions are read: same positions give the same density, whatever the other fields hold. */
  lemma {:induction false} DensityReadsPositionsOnly(k: Params, p: Particle, p': Particle, a: seq<Particle>, b: seq<Particle>)
    requires ValidParams(k)
    requires p.pos == p'.pos
    requires |a| == |b| && forall t :: 0 <= t < |a| ==> a[t].pos == b[t].pos
    ensures Density(k, p, a) == Density(k, p', b)
    decreases |a|
  {
    if |a| > 0 {
      assert DistSq(p.pos, a[0].pos) == DistSq(p'.pos, b[0].pos);
      assert Contribution(k, p, a[0]) == Contribution(k, p', b[0]);
      assert forall t :: 0 <= t < |a| - 1 ==> a[1..][t] == a[t + 1] && b[1..][t] == b[t + 1];
      DensityReadsPositionsOnly(k, p, p', a[1..], b[1..]);
    }
  }

  /** Each neighbour's term is a lower bound on the density. */
  lemma {:induction false} DensityAtLeastTerm(k: Params, p: Particle, ns: seq<Particle>, q: Particle)
    requires ValidParams(k)
    requires q in ns
    ensures Density(k, p, ns) >= Contribution(k, p, q)
    decreases |ns|
  {
    if ns[0] != q {
      DensityAtLeastTerm(k, p, ns[1..], q);
    }
  }

  /** The term of a particle's own copy: the largest possible one. */
  function SelfTerm(k: Params): (c: real)
    requires ValidParams(k)
    ensures c > 0.0
  {
    CubePos(k.hsq);
    MulPos(k.mass, k.poly6);
    MulPos(k.mass * k.poly6, Cube(k.hsq));
    k.mass * k.poly6 * Cube(k.hsq)
  }

  /** On an index rebuilt from a list holding p, p's density is at least its own term, hence strictly positive. */
  lemma DensityPositive(k: Params, ps: seq<Particle>, p: Particle)
    requires ValidParams(k)
    requires p in ps
    ensures Density(k, p, FindNeighbors(Rebuild(ps), p)) >= SelfTerm(k) > 0.0
  {
    SelfIsNeighbor(ps, p);
    DensityAtLeastTerm(k, p, FindNeighbors(Rebuild(ps), p), p);
    SelfContribution(k, p);
  }

  /** A particle's own copy lies at distance zero and contributes the self term. */
  lemma SelfContribution(k: Params, p: Particle)
    requires ValidParams(k)
    ensures Contribution(k, p, p) == SelfTerm(k)
  {
    assert DistSq(p.pos, p.pos) == 0.0;
  }

  /** On a rebuilt index, p's density is the kernel sum over exactly the particles of the list whose cell lies in p's 3x3 block. */
  lemma DensityIsBlockSum(k: Params, ps: seq<Particle>, p: Particle)
    requires ValidParams(k)
    ensures Density(k, p, FindNeighbors(Rebuild(ps), p))
         == Density(k, p, InCells(ps, KeySet(BlockKeys(Hash(p)))))
  {
    NeighborsAfterRebuild(ps, p);
    DensityPermutation(k, p, FindNeighbors(Rebuild(ps), p), InCells(ps, KeySet(BlockKeys(Hash(p)))));
  }

  /** The hash cell (15) is narrower than the kernel radius (16), so the query can miss a particle inside the kernel: two particles 15.5 apart on one row, both inside the boundary margins, land two cells apart. */
  lemma QueryCanMissKernelNeighbor()
    ensures var p := ParticleAt(Vec(29.5, 50.0));
      var q := ParticleAt(Vec(45.0, 50.0));
      && DistSq(p.pos, q.pos) < Eps * Eps
      && q !in FindNeighbors(Rebuild([p, q]), p)
  {
    var p := ParticleAt(Vec(29.5, 50.0));
    var q := ParticleAt(Vec(45.0, 50.0));
    assert Trunc(29.5 / CellDim) == 1 && Trunc(45.0 / CellDim) == 3 && Trunc(50.0 / CellDim) == 3;
    assert Hash(p) == 3001 && Hash(q) == 3003;
    FarNotNeighbor([p, q], p, q);
  }

  // ---------------------------------------------------------------------
  // The pass.

  /** The inner loop of `computeDensityPressure`: accumulate p's density over `ns` in list order. */
  method AccumulateDensity(k: Params, p: Particle, ns: seq<Particle>) returns (d: real)
    requires ValidParams(k)
    ensures d == Density(k, p, ns)
  {
    d := 0.0;
    var t := 0;
    while t < |ns|
      invariant 0 <= t <= |ns|
      invariant d == Density(k, p, ns[..t])
    {
      DensityConcat(k, p, ns[..t], [ns[t]]);
      assert ns[..t + 1] == ns[..t] + [ns[t]];
      d := d + Contribution(k, p, ns[t]);
      t := t + 1;
    }
    assert ns[..t] == ns;
  }

  /** `computeDensityPressure`: visits the particles in list order, updating each in place. */
  method ComputeDensityPressure(k: Params, ps: seq<Particle>, index: Index) returns (out: seq<Particle>)
    requires ValidParams(k)
    ensures |out| == |ps|
    ensures forall i :: 0 <= i < |ps| ==> out[i] == Refresh(k, ps[i], FindNeighbors(index, ps[i]))
  {
    out := ps;
    var i := 0;
    while i < |out|
      invariant 0 <= i <= |out| == |ps|
      invariant forall t :: 0 <= t < i ==> out[t] == Refresh(k, ps[t], FindNeighbors(index, ps[t]))
      invariant forall t :: i <= t < |out| ==> out[t] == ps[t]
    {
      var p := out[i];
      var d := AccumulateDensity(k, p, FindNeighbors(index, p));
      var q := p.(density := d, pressure := k.gasConst * (d - k.restDens));
      assert q == Refresh(k, ps[i], FindNeighbors(index, ps[i]));
      out := out[i := q];
      i := i + 1;
    }
  }

  /** The pass applied in an arbitrary visiting order: each visit refreshes the current copy of one particle. */
  function VisitInOrder(k: Params, cur: seq<Particle>, index: Index, order: seq<int>): seq<Particle>
    requires ValidParams(k)
    requires forall t :: 0 <= t < |order| ==> 0 <= order[t] < |cur|
    decreases |order|
  {
    if |order| == 0 then cur
    else
      var i := order[0];
      VisitInOrder(k, cur[i := Refresh(k, cur[i], FindNeighbors(index, cur[i]))], index, order[1..])
  }

  /** `order` lists every index below n exactly once. */
  predicate IsPermutation(order: seq<int>, n: int) {
    && |order| == n
    && (forall t :: 0 <= t < |order| ==> 0 <= order[t] < n)
    && (forall a, b :: 0 <= a < b < |order| ==> order[a] != order[b])
    && (forall i :: 0 <= i < n ==> i in order)
  }

  lemma {:induction false} VisitInOrderInvariant(k: Params, ps: seq<Particle>, cur: seq<Particle>, index: Index, order: seq<int>)
    requires ValidParams(k)
    requires |cur| == |ps|
    requires forall t :: 0 <= t < |order| ==> 0 <= order[t] < |cur|
    requires forall a, b :: 0 <= a < b < |order| ==> order[a] != order[b]
    requires forall i :: 0 <= i < |ps| && i in order ==> cur[i] == ps[i]
    requires forall i :: 0 <= i < |ps| && i !in order ==> cur[i] == Refresh(k, ps[i], FindNeighbors(index, ps[i]))
    ensures VisitInOrder(k, cur, index, order) == seq(|ps|, i requires 0 <= i < |ps| => Refresh(k, ps[i], FindNeighbors(index, ps[i])))
    decreases |order|
  {
    if |order| == 0 {
    } else {
      var i := order[0];
      var next := cur[i := Refresh(k, cur[i], FindNeighbors(index, cur[i]))];
      var rest := order[1..];
      assert i !in rest;
      forall j | 0 <= j < |ps| && j in rest
        ensures next[j] == ps[j]
      {
        assert j in order;
      }
      forall j | 0 <= j < |ps| && j !in rest
        ensures next[j] == Refresh(k, ps[j], FindNeighbors(index, ps[j]))
      {
        if j != i {
          assert j !in order;
        }
      }
      forall a, b | 0 <= a < b < |rest|
        ensures rest[a] != rest[b]
      {
        assert rest[a] == order[a + 1] && rest[b] == order[b + 1];
      }
      VisitInOrderInvariant(k, ps, next, index, rest);
    }
  }

  /** Visiting the particles in any order yields the same result as the program's list order. */
  lemma OrderIndependent(k: Params, ps: seq<Particle>, index: Index, order: seq<int>, out: seq<Particle>)
    requires ValidParams(k)
    requires IsPermutation(order, |ps|)
    requires |out| == |ps|
    requires forall i :: 0 <= i < |ps| ==> out[i] == Refresh(k, ps[i], FindNeighbors(index, ps[i]))
    ensures VisitInOrder(k, ps, index, order) == out
  {
    VisitInOrderInvariant(k, ps, ps, index, order);
  }
}
