/** The values the Game scene works on and the rules that specify each
    step of its frame update: where a recycled platform goes, which pool
    slot a spawned carrot takes, how input sets the player's velocity,
    how the player wraps around the screen edges, and which platform is
    the bottom-most one. The scene itself (module GameScene) is specified
    by these functions. */
module Rules {

  /** A platform sprite of the static group; the scene only reads and
      writes its position. */
  datatype Platform = Platform(x: real, y: real)

  /** A carrot sprite of the carrot group: position, the `active` and
      `visible` flags of the game object and whether its physics body is
      enabled. */
  datatype Carrot = Carrot(x: real, y: real, active: bool, visible: bool, enabled: bool)
  {
    /** A carrot is either live (active, visible, enabled) or pooled
        (none of the three). */
    predicate Coherent() {
      active == visible && visible == enabled
    }
  }

  /** A platform at least this far below the camera's top edge is recycled. */
  const RecycleDepth: real := 700.0
  /** Bounds of the random distance above the camera's top edge a recycled
      platform is moved to. */
  const MinGap: int := 50
  const MaxGap: int := 100
  /** Bounds of the random x of an initial platform. */
  const MinPlatformX: int := 80
  const MaxPlatformX: int := 400
  /** Vertical spacing and number of the initial platforms. */
  const PlatformSpacing: real := 150.0
  const InitialPlatformCount: nat := 5
  /** How far below the bottom-most platform the player may fall. */
  const FallMargin: real := 200.0
  /** The vertical velocity of a bounce and the horizontal running speed. */
  const BounceVelocity: real := -300.0
  const RunSpeed: real := 200.0

  // ---------------------------------------------------------------------
  // Initial layout

  /** Platform `i` of the level start: the random `xs[i]`, `y = 150 * i`. */
  function InitialPlatforms(xs: seq<int>): (ps: seq<Platform>)
    requires |xs| == InitialPlatformCount
    requires forall i :: 0 <= i < |xs| ==> MinPlatformX <= xs[i] <= MaxPlatformX
    ensures |ps| == InitialPlatformCount
    ensures forall i :: 0 <= i < |ps| ==>
      ps[i].y == PlatformSpacing * i as real && 80.0 <= ps[i].x <= 400.0 && ps[i].x == xs[i] as real
  {
    seq(InitialPlatformCount, i requires 0 <= i < InitialPlatformCount =>
      Platform(xs[i] as real, PlatformSpacing * i as real))
  }

  // ---------------------------------------------------------------------
  // Platform recycling

  predicate IsDue(p: Platform, scrollY: real) {
    p.y >= scrollY + RecycleDepth
  }

  predicate GapsInRange(gaps: seq<int>) {
    forall i :: 0 <= i < |gaps| ==> MinGap <= gaps[i] <= MaxGap
  }

  /** One platform after the recycle check, with `gap` the random draw. */
  function Recycle(p: Platform, scrollY: real, gap: int): Platform {
    if IsDue(p, scrollY) then p.(y := scrollY - gap as real) else p
  }

  /** A due platform moves up to between 100 and 50 above the camera's top
      edge, strictly higher than it was, keeping its x; any other platform
      stays as it is; afterwards the platform is not due. */
  lemma RecyclePlacement(p: Platform, scrollY: real, gap: int)
    requires MinGap <= gap <= MaxGap
    ensures var q := Recycle(p, scrollY, gap);
      && q.x == p.x
      && (IsDue(p, scrollY) ==> scrollY - 100.0 <= q.y <= scrollY - 50.0 && q.y < p.y)
      && (!IsDue(p, scrollY) ==> q == p)
      && !IsDue(q, scrollY)
  {
  }

  /** The indices among the first `n` platforms that are due for recycling,
      in scan order: exactly the due ones, each once. */
  function DueIndices(ps: seq<Platform>, scrollY: real, n: nat): (idx: seq<nat>)
    requires n <= |ps|
    ensures |idx| <= n
    ensures forall k :: 0 <= k < |idx| ==> idx[k] < n && IsDue(ps[idx[k]], scrollY)
    ensures forall k, l :: 0 <= k < l < |idx| ==> idx[k] < idx[l]
    ensures forall i :: 0 <= i < n && IsDue(ps[i], scrollY) ==> i in idx
    decreases n
  {
    if n == 0 then []
    else
      var rest := DueIndices(ps, scrollY, n - 1);
      if IsDue(ps[n - 1], scrollY) then rest + [n - 1] else rest
  }

  /** The platforms at the given indices, in that order. */
  function Pick(ps: seq<Platform>, idx: seq<nat>): (r: seq<Platform>)
    requires forall k :: 0 <= k < |idx| ==> idx[k] < |ps|
    ensures |r| == |idx|
    ensures forall k :: 0 <= k < |idx| ==> r[k] == ps[idx[k]]
  {
    seq(|idx|, k requires 0 <= k < |idx| => ps[idx[k]])
  }

  /** Moving a platform past the picked indices leaves the picks alone. */
  lemma PickFrame(current: seq<Platform>, idx: seq<nat>, i: nat, q: Platform)
    requires i < |current|
    requires forall k :: 0 <= k < |idx| ==> idx[k] < i
    ensures Pick(current[i := q], idx) == Pick(current, idx)
  {
    var after := current[i := q];
    assert forall k :: 0 <= k < |idx| ==> after[idx[k]] == current[idx[k]];
  }

  /** One step of the recycling pass, on the platforms moved so far: if
      platform `i` is due, its new place joins the end of the list. */
  lemma {:induction false} PickStep(before: seq<Platform>, current: seq<Platform>, scrollY: real, i: nat, gap: int)
    requires |current| == |before| && i < |before| && current[i] == before[i]
    requires MinGap <= gap <= MaxGap
    ensures var q := Recycle(before[i], scrollY, gap);
      Pick(current[i := q], DueIndices(before, scrollY, i + 1)) ==
        Pick(current, DueIndices(before, scrollY, i)) + (if IsDue(before[i], scrollY) then [q] else [])
  {
    var q := Recycle(before[i], scrollY, gap);
    var idx := DueIndices(before, scrollY, i);
    var after := current[i := q];
    PickFrame(current, idx, i, q);
    if IsDue(before[i], scrollY) {
      assert DueIndices(before, scrollY, i + 1) == idx + [i];
      assert Pick(after, idx + [i]) == Pick(after, idx) + [q];
    } else {
      assert DueIndices(before, scrollY, i + 1) == idx;
    }
  }

  // ---------------------------------------------------------------------
  // Carrot pool

  /** The slot `Group.get` hands out: the first inactive carrot, or the
      end of the pool when every carrot is active. */
  function FirstInactive(pool: seq<Carrot>): (j: nat)
    ensures j <= |pool|
    ensures j < |pool| ==> !pool[j].active
    ensures forall k :: 0 <= k < j ==> pool[k].active
  {
    if pool == [] then 0
    else if !pool[0].active then 0
    else 1 + FirstInactive(pool[1..])
  }

  /** A live carrot standing `h` above the platform `top`. */
  function CarrotAbove(top: Platform, h: real): Carrot {
    Carrot(top.x, top.y - h, true, true, true)
  }

  /** The pool after spawning a carrot above `top`, and the slot it took. */
  function Spawn(pool: seq<Carrot>, top: Platform, h: real): (seq<Carrot>, nat) {
    var j := FirstInactive(pool);
    if j < |pool| then (pool[j := CarrotAbove(top, h)], j)
    else (pool + [CarrotAbove(top, h)], j)
  }

  /** A spawn puts a live carrot above `top` into the first slot out of
      play, growing the pool only when every carrot is in play, and leaves
      every other carrot as it was. */
  lemma SpawnPlaces(pool: seq<Carrot>, top: Platform, h: real)
    ensures var (r, slot) := Spawn(pool, top, h);
      && slot <= |pool| && slot < |r| && r[slot] == CarrotAbove(top, h)
      && (forall k :: 0 <= k < slot && k < |pool| ==> pool[k].active)
      && (slot < |pool| ==> !pool[slot].active && |r| == |pool|)
      && (slot == |pool| ==> |r| == |pool| + 1)
      && (forall j :: 0 <= j < |pool| && j != slot ==> r[j] == pool[j])
  {
  }

  /** The pool after spawning one carrot above each of `tops`, in order,
      and the slots they took. */
  function SpawnAll(pool: seq<Carrot>, tops: seq<Platform>, h: real): (seq<Carrot>, seq<nat>)
    decreases |tops|
  {
    if tops == [] then (pool, [])
    else
      var (before, slots) := SpawnAll(pool, tops[..|tops| - 1], h);
      var (after, j) := Spawn(before, tops[|tops| - 1], h);
      (after, slots + [j])
  }

  /** One more spawn at the end of a spawning pass. */
  lemma SpawnAllSnoc(pool: seq<Carrot>, tops: seq<Platform>, top: Platform, h: real)
    ensures var (before, slots) := SpawnAll(pool, tops, h);
      SpawnAll(pool, tops + [top], h) == (Spawn(before, top, h).0, slots + [Spawn(before, top, h).1])
  {
    assert (tops + [top])[..|tops|] == tops;
  }

  /** Each spawn of a pass has its own slot, holding a live carrot at its
      place, and only inactive carrots or new slots are taken: no spawn
      overwrites another or a carrot still in play. */
  ghost predicate SpawnedEach(pool: seq<Carrot>, tops: seq<Platform>, h: real, r: seq<Carrot>, slots: seq<nat>) {
    && |slots| == |tops|
    && |pool| <= |r| <= |pool| + |tops|
    && (forall k :: 0 <= k < |slots| ==> slots[k] < |r| && r[slots[k]] == CarrotAbove(tops[k], h))
    && (forall k, l :: 0 <= k < l < |slots| ==> slots[k] != slots[l])
    && (forall k :: 0 <= k < |slots| && slots[k] < |pool| ==> !pool[slots[k]].active)
    && (forall j :: |pool| <= j < |r| ==> j in slots)
  }

  /** Every carrot a pass does not spawn into is left as it was. */
  ghost predicate OthersUntouched(pool: seq<Carrot>, r: seq<Carrot>, slots: seq<nat>) {
    |pool| <= |r| && forall j :: 0 <= j < |pool| && j !in slots ==> r[j] == pool[j]
  }

  lemma {:induction false} SpawnAllSlots(pool: seq<Carrot>, tops: seq<Platform>, h: real)
    ensures SpawnedEach(pool, tops, h, SpawnAll(pool, tops, h).0, SpawnAll(pool, tops, h).1)
    decreases |tops|
  {
    if tops != [] {
      var init := tops[..|tops| - 1];
      SpawnAllSlots(pool, init, h);
      SpawnAllFrame(pool, init, h);
      var before := SpawnAll(pool, init, h).0;
      var slots := SpawnAll(pool, init, h).1;
      var after := Spawn(before, tops[|tops| - 1], h).0;
      var j := Spawn(before, tops[|tops| - 1], h).1;
      SpawnPlaces(before, tops[|tops| - 1], h);
      assert SpawnAll(pool, tops, h) == (after, slots + [j]);
      // Every earlier slot holds a live carrot, so the new slot is a fresh one.
      assert forall k :: 0 <= k < |slots| ==> slots[k] != j by {
        forall k | 0 <= k < |slots| ensures slots[k] != j {
          assert before[slots[k]].active;
        }
      }
      assert forall k :: 0 <= k < |slots| ==> after[slots[k]] == CarrotAbove(tops[k], h) by {
        forall k | 0 <= k < |slots| ensures after[slots[k]] == CarrotAbove(tops[k], h) {
          assert before[slots[k]] == CarrotAbove(init[k], h);
        }
      }
      assert j < |pool| ==> !pool[j].active by {
        if j < |pool| {
          assert j !in slots;
          assert before[j] == pool[j];
        }
      }
      assert SpawnedEach(pool, tops, h, after, slots + [j]);
    }
  }

  lemma {:induction false} SpawnAllFrame(pool: seq<Carrot>, tops: seq<Platform>, h: real)
    ensures OthersUntouched(pool, SpawnAll(pool, tops, h).0, SpawnAll(pool, tops, h).1)
    decreases |tops|
  {
    if tops != [] {
      var init := tops[..|tops| - 1];
      SpawnAllFrame(pool, init, h);
      var before := SpawnAll(pool, init, h).0;
      var slots := SpawnAll(pool, init, h).1;
      var after := Spawn(before, tops[|tops| - 1], h).0;
      var j := Spawn(before, tops[|tops| - 1], h).1;
      SpawnPlaces(before, tops[|tops| - 1], h);
      assert SpawnAll(pool, tops, h) == (after, slots + [j]);
      forall j' | 0 <= j' < |pool| && j' !in slots + [j] ensures after[j'] == pool[j'] {
        assert j' !in slots;
      }
    }
  }

  /** Spawning above several platforms gives each its own live carrot at
      its place, reuses only carrots out of play, and leaves every other
      carrot untouched. */
  lemma {:induction false} SpawnAllPlaces(pool: seq<Carrot>, tops: seq<Platform>, h: real)
    ensures var (r, slots) := SpawnAll(pool, tops, h);
      SpawnedEach(pool, tops, h, r, slots) && OthersUntouched(pool, r, slots)
  {
    SpawnAllSlots(pool, tops, h);
    SpawnAllFrame(pool, tops, h);
  }

  predicate AllCoherent(pool: seq<Carrot>) {
    forall j :: 0 <= j < |pool| ==> pool[j].Coherent()
  }

  /** Spawning keeps every carrot live-or-pooled. */
  lemma {:induction false} SpawnAllCoherent(pool: seq<Carrot>, tops: seq<Platform>, h: real)
    requires AllCoherent(pool)
    ensures AllCoherent(SpawnAll(pool, tops, h).0)
    decreases |tops|
  {
    if tops != [] {
      SpawnAllCoherent(pool, tops[..|tops| - 1], h);
      var before := SpawnAll(pool, tops[..|tops| - 1], h).0;
      var (after, j) := Spawn(before, tops[|tops| - 1], h);
      SpawnPlaces(before, tops[|tops| - 1], h);
      assert SpawnAll(pool, tops, h).0 == after;
      forall i | 0 <= i < |after| ensures after[i].Coherent() {
        if i != j {
          assert i < |before|;
          assert after[i] == before[i];
        }
      }
    }
  }

  // ---------------------------------------------------------------------
  // Player controller

  /** Horizontal velocity from ground contact and the cursor keys: none
      while touching down, otherwise left before right. */
  function HorizontalVelocity(touchingDown: bool, leftDown: bool, rightDown: bool): (vx: real)
    ensures vx == -RunSpeed || vx == 0.0 || vx == RunSpeed
    ensures touchingDown ==> vx == 0.0
    ensures vx == -RunSpeed <==> leftDown && !touchingDown
    ensures vx == RunSpeed <==> rightDown && !leftDown && !touchingDown
  {
    if leftDown && !touchingDown then -RunSpeed
    else if rightDown && !touchingDown then RunSpeed
    else 0.0
  }

  /** The x of a sprite of half width `halfWidth` after wrapping it around
      the edges of a screen `gameWidth` wide. */
  function Wrapped(x: real, halfWidth: real, gameWidth: real): (r: real)
    ensures 0.0 <= halfWidth && 0.0 <= gameWidth ==> -halfWidth <= r <= gameWidth + halfWidth
    ensures -halfWidth <= x <= gameWidth + halfWidth ==> r == x
    ensures x < -halfWidth ==> r == gameWidth + halfWidth
    ensures -halfWidth <= x && x > gameWidth + halfWidth ==> r == -halfWidth
  {
    if x < -halfWidth then gameWidth + halfWidth
    else if x > gameWidth + halfWidth then -halfWidth
    else x
  }

  /** Wrapping twice is wrapping once. */
  lemma WrapIdempotent(x: real, halfWidth: real, gameWidth: real)
    requires 0.0 <= halfWidth && 0.0 <= gameWidth
    ensures Wrapped(Wrapped(x, halfWidth, gameWidth), halfWidth, gameWidth) == Wrapped(x, halfWidth, gameWidth)
  {
  }

  // ---------------------------------------------------------------------
  // Termination

  /** The largest y among the platforms (the lowest on screen). */
  function MaxY(ps: seq<Platform>): (m: real)
    requires |ps| > 0
    ensures forall j :: 0 <= j < |ps| ==> ps[j].y <= m
    ensures exists j :: 0 <= j < |ps| && ps[j].y == m
    decreases |ps|
  {
    if |ps| == 1 then ps[0].y
    else
      var m := MaxY(ps[..|ps| - 1]);
      assert forall j :: 0 <= j < |ps| - 1 ==> ps[..|ps| - 1][j] == ps[j];
      if ps[|ps| - 1].y < m then m else ps[|ps| - 1].y
  }

  /** Any platform at least as low as every other is at the maximum y. */
  lemma BottomIsMax(ps: seq<Platform>, k: nat)
    requires k < |ps|
    requires forall j :: 0 <= j < |ps| ==> ps[j].y <= ps[k].y
    ensures ps[k].y == MaxY(ps)
  {
    var m := MaxY(ps);
    var j :| 0 <= j < |ps| && ps[j].y == m;
  }

  /** At level start the bottom-most platform is the fifth, at y = 600, so
      the player is lost once below y = 800. */
  lemma {:induction false} InitialBottom(xs: seq<int>)
    requires |xs| == InitialPlatformCount
    requires forall i :: 0 <= i < |xs| ==> MinPlatformX <= xs[i] <= MaxPlatformX
    ensures MaxY(InitialPlatforms(xs)) == 600.0
    ensures MaxY(InitialPlatforms(xs)) + FallMargin == 800.0
  {
    var ps := InitialPlatforms(xs);
    assert ps[4].y == 600.0;
    BottomIsMax(ps, 4);
  }
}
