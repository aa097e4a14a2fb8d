/**
 The boundary and wall branches of `moveParticles`, applied to a particle
 whose velocity and position have already been integrated.

 Per particle, in order: clamp x against the left then the right edge,
 y against the bottom edge (which also latches "particle only" mode) then
 the top edge; then test every wall in list order. A hit on a wall damps
 the perpendicular velocity and pushes the particle to twice its offset
 from the wall line, on the same side.
 */
module Collision {
  import opened Constants
  import opened MazeGen

  /** A clamped particle and whether the bottom edge was hit. */
  datatype Clamped = Clamped(p: Particle, hitBottom: bool)

  /** The particles after the boundary/wall step and the latch value. */
  datatype Moved = Moved(ps: seq<Particle>, particleOnly: bool)

  function Abs(r: real): real {
    if r < 0.0 then -r else r
  }

  /** The four edge tests, applied one after the other as the program does. */
  function BoundaryClamp(p: Particle): (r: Clamped)
    ensures r.p.force == p.force && r.p.density == p.density && r.p.pressure == p.pressure
    ensures p.pos.x - Eps < 0.0 ==> r.p.pos.x == Eps && r.p.vel.x == BoundDamping * p.vel.x
    ensures p.pos.x + Eps > ViewWidth ==> r.p.pos.x == ViewWidth - Eps && r.p.vel.x == BoundDamping * p.vel.x
    ensures Eps <= p.pos.x <= ViewWidth - Eps ==> r.p.pos.x == p.pos.x && r.p.vel.x == p.vel.x
    ensures p.pos.y - Eps < 0.0 ==> r.p.pos.y == Eps && r.p.vel.y == BoundDamping * p.vel.y
    ensures p.pos.y + Eps > ViewHeight ==> r.p.pos.y == ViewHeight - Eps && r.p.vel.y == BoundDamping * p.vel.y
    ensures Eps <= p.pos.y <= ViewHeight - Eps ==> r.p.pos.y == p.pos.y && r.p.vel.y == p.vel.y
    ensures r.hitBottom <==> p.pos.y - Eps < 0.0
    ensures Eps <= r.p.pos.x <= ViewWidth - Eps && Eps <= r.p.pos.y <= ViewHeight - Eps
  {
    var p1 := if p.pos.x - Eps < 0.0
      then p.(pos := p.pos.(x := Eps), vel := p.vel.(x := p.vel.x * BoundDamping)) else p;
    var p2 := if p1.pos.x + Eps > ViewWidth
      then p1.(pos := p1.pos.(x := ViewWidth - Eps), vel := p1.vel.(x := p1.vel.x * BoundDamping)) else p1;
    var hit := p2.pos.y - Eps < 0.0;
    var p3 := if hit
      then p2.(pos := p2.pos.(y := Eps), vel := p2.vel.(y := p2.vel.y * BoundDamping)) else p2;
    var p4 := if p3.pos.y + Eps > ViewHeight
      then p3.(pos := p3.pos.(y := ViewHeight - Eps), vel := p3.vel.(y := p3.vel.y * BoundDamping)) else p3;
    Clamped(p4, hit)
  }

  /** The wall test: within half a kernel radius of the wall line, and within the wall's span. */
  predicate WallHit(p: Particle, w: Wall) {
    if !w.horizontal then
      Abs(p.pos.x - w.start.x) <= Eps / 2.0 && w.start.y <= p.pos.y <= w.end.y
    else
      Abs(p.pos.y - w.start.y) <= Eps / 2.0 && w.start.x <= p.pos.x <= w.end.x
  }

  /** One wall's effect: damp the perpendicular velocity and double the offset from the wall line. */
  function WallPush(p: Particle, w: Wall): (r: Particle)
    ensures r.force == p.force && r.density == p.density && r.pressure == p.pressure
    ensures !WallHit(p, w) ==> r == p
    ensures WallHit(p, w) && !w.horizontal ==>
      && r.pos.x - w.start.x == 2.0 * (p.pos.x - w.start.x) && r.pos.y == p.pos.y
      && r.vel.x == BoundDamping * p.vel.x && r.vel.y == p.vel.y
    ensures WallHit(p, w) && w.horizontal ==>
      && r.pos.y - w.start.y == 2.0 * (p.pos.y - w.start.y) && r.pos.x == p.pos.x
      && r.vel.y == BoundDamping * p.vel.y && r.vel.x == p.vel.x
  {
    if !WallHit(p, w) then p
    else if !w.horizontal then
      p.(vel := p.vel.(x := p.vel.x * BoundDamping), pos := p.pos.(x := p.pos.x + (p.pos.x - w.start.x)))
    else
      p.(vel := p.vel.(y := p.vel.y * BoundDamping), pos := p.pos.(y := p.pos.y + (p.pos.y - w.start.y)))
  }

  /** The push is not a reflection: the particle stays on its side of the wall line, twice as far from it, and its perpendicular speed is halved and reversed. */
  lemma PushKeepsSide(p: Particle, w: Wall)
    requires WallHit(p, w)
    ensures var r := WallPush(p, w);
      if !w.horizontal then
        && Abs(r.pos.x - w.start.x) == 2.0 * Abs(p.pos.x - w.start.x)
        && (r.pos.x - w.start.x) * (p.pos.x - w.start.x) >= 0.0
        && Abs(r.vel.x) == Abs(p.vel.x) / 2.0
        && r.vel.x * p.vel.x <= 0.0
      else
        && Abs(r.pos.y - w.start.y) == 2.0 * Abs(p.pos.y - w.start.y)
        && (r.pos.y - w.start.y) * (p.pos.y - w.start.y) >= 0.0
        && Abs(r.vel.y) == Abs(p.vel.y) / 2.0
        && r.vel.y * p.vel.y <= 0.0
  {
    var r := WallPush(p, w);
    if !w.horizontal {
      var d := p.pos.x - w.start.x;
      assert (2.0 * d) * d == 2.0 * (d * d);
      assert r.vel.x * p.vel.x == -0.5 * (p.vel.x * p.vel.x);
    } else {
      var d := p.pos.y - w.start.y;
      assert (2.0 * d) * d == 2.0 * (d * d);
      assert r.vel.y * p.vel.y == -0.5 * (p.vel.y * p.vel.y);
    }
  }

  /** Clamping is idempotent: a clamped particle is left as it is and does not hit the bottom again. */
  lemma ClampIdempotent(p: Particle)
    ensures var c := BoundaryClamp(p);
      BoundaryClamp(c.p) == Clamped(c.p, false)
  {
    var c := BoundaryClamp(p);
    var d := BoundaryClamp(c.p);
    assert d.p.pos == c.p.pos && d.p.vel == c.p.vel;
  }

  /** All walls in list order, each tested against the particle as the previous ones left it. */
  function PushWalls(p: Particle, walls: seq<Wall>): (r: Particle)
    ensures r.force == p.force && r.density == p.density && r.pressure == p.pressure
    ensures Abs(r.vel.x) <= Abs(p.vel.x) && Abs(r.vel.y) <= Abs(p.vel.y)
    ensures (forall w :: w in walls ==> !WallHit(p, w)) ==> r == p
    ensures (forall w :: w in walls ==> w.horizontal) ==> r.pos.x == p.pos.x && r.vel.x == p.vel.x
    ensures (forall w :: w in walls ==> !w.horizontal) ==> r.pos.y == p.pos.y && r.vel.y == p.vel.y
    decreases |walls|
  {
    if |walls| == 0 then p else PushWalls(WallPush(p, walls[0]), walls[1..])
  }

  /** One particle's boundary and wall handling; the latch is set by a bottom hit and never cleared. */
  function MoveParticle(p: Particle, walls: seq<Wall>, particleOnly: bool): (r: (Particle, bool))
    ensures r.1 <==> particleOnly || p.pos.y - Eps < 0.0
  {
    var c := BoundaryClamp(p);
    (PushWalls(c.p, walls), particleOnly || c.hitBottom)
  }

  /** The boundary and wall part of `moveParticles` over the whole list, threading the latch. */
  function MoveAll(ps: seq<Particle>, walls: seq<Wall>, particleOnly: bool): (r: Moved)
    ensures |r.ps| == |ps|
    ensures forall i :: 0 <= i < |ps| ==> r.ps[i] == MoveParticle(ps[i], walls, particleOnly).0
    ensures r.particleOnly <==> particleOnly || exists i :: 0 <= i < |ps| && ps[i].pos.y - Eps < 0.0
    decreases |ps|
  {
    if |ps| == 0 then Moved([], particleOnly)
    else
      var n := |ps| - 1;
      var before := MoveAll(ps[..n], walls, particleOnly);
      var last := MoveParticle(ps[n], walls, before.particleOnly);
      Moved(before.ps + [last.0], last.1)
  }

  /** The wall push runs after the clamp and can carry a particle back outside [Eps, ViewWidth - Eps]: with a 50-cell maze, a particle left of the first vertical wall of the top row ends at x = 14. */
  lemma PushCanLeaveBox()
    ensures var w := WallOf(50, Candidate(false, 0, 1));
      var p := ParticleAt(Vec(10.0, 1090.0));
      MoveParticle(p, [w], false).0.pos.x == 14.0 < Eps
  {
    var w := WallOf(50, Candidate(false, 0, 1));
    assert Seg(50) == 18.0;
    assert w == Wall(Vec(18.0, 1082.0), Vec(18.0, 1100.0), false);
  }
}
