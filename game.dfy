/** The Game scene: five platforms that recycle themselves above the
    camera, a pool of carrots spawned on recycled platforms, the player's
    velocity and screen wrap, the fall-off check and the carrot counter.
    The host engine calls `Init` and `Create` once when the scene starts,
    `Update` once per frame and `HandleCollectCarrot` whenever the player
    overlaps a live carrot. */
module GameScene {
  import opened Rules
  import opened Decimal

  /** The counter's label: "Carrots: " followed by the count in decimal. */
  function CounterText(n: nat): (t: string)
    ensures |t| > 9 && t[..9] == "Carrots: "
    ensures forall i :: 9 <= i < |t| ==> IsDigit(t[i])
    ensures |t| > 10 ==> t[9] != '0'
    ensures ParseDecimal(t[9..]) == n
  {
    DecimalRoundTrip(n);
    var t := "Carrots: " + NatToString(n);
    assert t[9..] == NatToString(n);
    t
  }

  class Game {
    /** The children of the static platform group, in scan order. */
    var platforms: seq<Platform>
    /** The members of the carrot group, in pool order. */
    var carrots: seq<Carrot>
    var carrotsCollected: nat
    var carrotsCollectedText: string
    /** The player sprite's position and its body's velocity. */
    var playerX: real
    var playerY: real
    var playerVx: real
    var playerVy: real
    /** The width of the game canvas. */
    const gameWidth: real
    /** The player's displayed width and a platform's displayed height. */
    const playerDisplayWidth: real
    const platformDisplayHeight: real

    ghost predicate Valid()
      reads this
    {
      0.0 <= gameWidth && 0.0 <= playerDisplayWidth && AllCoherent(carrots)
    }

    /** A scene object before the engine starts it: the counter field
        starts at zero and no game object exists yet. */
    constructor (gameWidth: real, playerDisplayWidth: real, platformDisplayHeight: real)
      requires 0.0 <= gameWidth && 0.0 <= playerDisplayWidth
      ensures Valid()
      ensures this.gameWidth == gameWidth && this.playerDisplayWidth == playerDisplayWidth
      ensures this.platformDisplayHeight == platformDisplayHeight
      ensures carrotsCollected == 0 && platforms == [] && carrots == []
    {
      this.gameWidth := gameWidth;
      this.playerDisplayWidth := playerDisplayWidth;
      this.platformDisplayHeight := platformDisplayHeight;
      platforms := [];
      carrots := [];
      carrotsCollected := 0;
      carrotsCollectedText := "";
      playerX, playerY, playerVx, playerVy := 0.0, 0.0, 0.0, 0.0;
    }

    /** Runs each time the scene (re)starts: the counter goes back to zero. */
    method Init()
      modifies this`carrotsCollected
      ensures carrotsCollected == 0
    {
      carrotsCollected := 0;
    }

    /** Builds the level: five platforms 150 apart from y = 0 down, each at
        the random x `xs[i]` in [80, 400]; the player at (240, 320) at rest;
        one seed carrot at (240, 800), below the screen; the counter label. */
    method Create(xs: seq<int>)
      requires Valid()
      requires |xs| == InitialPlatformCount
      requires forall i :: 0 <= i < |xs| ==> MinPlatformX <= xs[i] <= MaxPlatformX
      modifies this`platforms, this`carrots, this`carrotsCollectedText
      modifies this`playerX, this`playerY, this`playerVx, this`playerVy
      ensures Valid()
      ensures platforms == InitialPlatforms(xs)
      ensures playerX == 240.0 && playerY == 320.0 && playerVx == 0.0 && playerVy == 0.0
      ensures carrots == [Carrot(240.0, 800.0, true, true, true)]
      ensures carrotsCollectedText == CounterText(0)
    {
      platforms := [];
      for i := 0 to InitialPlatformCount
        invariant platforms == InitialPlatforms(xs)[..i]
      {
        platforms := platforms + [Platform(xs[i] as real, PlatformSpacing * i as real)];
      }
      assert platforms == InitialPlatforms(xs);
      playerX, playerY, playerVx, playerVy := 240.0, 320.0, 0.0, 0.0;
      carrots := [];
      var seed := GetCarrot(240.0, 800.0);
      carrotsCollectedText := "Carrots: 0";
      assert NatToString(0) == "0";
    }

    /** The carrot group's `get`: reuse the first inactive carrot, moving it
        to (x, y) and leaving its flags alone, or add a new live carrot
        there when every carrot is in play. */
    method GetCarrot(x: real, y: real) returns (slot: nat)
      requires Valid()
      modifies this`carrots
      ensures Valid()
      ensures slot == FirstInactive(old(carrots)) && slot < |carrots|
      ensures slot < |old(carrots)| ==>
        carrots == old(carrots)[slot := old(carrots)[slot].(x := x, y := y)]
      ensures slot == |old(carrots)| ==> carrots == old(carrots) + [Carrot(x, y, true, true, true)]
    {
      slot := FirstInactive(carrots);
      if slot < |carrots| {
        carrots := carrots[slot := carrots[slot].(x := x, y := y)];
      } else {
        carrots := carrots + [Carrot(x, y, true, true, true)];
      }
    }

    /** Spawns a live carrot one platform height above `platform`. */
    method AddCarrotAbove(platform: Platform) returns (slot: nat)
      requires Valid()
      modifies this`carrots
      ensures Valid()
      ensures (carrots, slot) == Spawn(old(carrots), platform, platformDisplayHeight)
    {
      var y := platform.y - platformDisplayHeight;
      slot := GetCarrot(platform.x, y);
      carrots := carrots[slot := carrots[slot].(active := true, visible := true)];
      carrots := carrots[slot := carrots[slot].(enabled := true)];
      assert carrots[slot] == CarrotAbove(platform, platformDisplayHeight);
      assert slot < |old(carrots)| ==> carrots == old(carrots)[slot := CarrotAbove(platform, platformDisplayHeight)];
      assert slot == |old(carrots)| ==> carrots == old(carrots) + [CarrotAbove(platform, platformDisplayHeight)];
    }

    /** The callback the recycling pass runs on platform `i`: a platform
        at least 700 below the camera's top edge `scrollY` moves to
        `scrollY - gap` (its x unchanged) and gets a carrot spawned above
        it straight away; `spawnedHere` is the slot that carrot took, if
        any. */
    method RecycleChild(i: nat, scrollY: real, gap: int) returns (spawnedHere: seq<nat>)
      requires Valid()
      requires i < |platforms| && MinGap <= gap <= MaxGap
      modifies this`platforms, this`carrots
      ensures Valid()
      ensures platforms == old(platforms)[i := Recycle(old(platforms)[i], scrollY, gap)]
      ensures IsDue(old(platforms)[i], scrollY) ==>
        var (pool, slot) := Spawn(old(carrots), platforms[i], platformDisplayHeight);
        carrots == pool && spawnedHere == [slot]
      ensures !IsDue(old(platforms)[i], scrollY) ==> carrots == old(carrots) && spawnedHere == []
    {
      var platform := platforms[i];
      spawnedHere := [];
      if platform.y >= scrollY + RecycleDepth {
        platforms := platforms[i := platform.(y := scrollY - gap as real)];
        var slot := AddCarrotAbove(platforms[i]);
        spawnedHere := [slot];
      }
    }

    /** The recycling pass of a frame: each platform, in scan order, goes
        through `RecycleChild` with its own random draw `gaps[i]`; the
        slots the spawned carrots took are returned in scan order. */
    method RecyclePlatforms(scrollY: real, gaps: seq<int>) returns (spawned: seq<nat>)
      requires Valid()
      requires |gaps| == |platforms| && GapsInRange(gaps)
      modifies this`platforms, this`carrots
      ensures Valid()
      ensures |platforms| == |old(platforms)|
      ensures forall i :: 0 <= i < |platforms| ==> platforms[i] == Recycle(old(platforms)[i], scrollY, gaps[i])
      ensures (carrots, spawned) ==
        SpawnAll(old(carrots), Pick(platforms, DueIndices(old(platforms), scrollY, |platforms|)), platformDisplayHeight)
    {
      ghost var before := platforms;
      ghost var pool := carrots;
      ghost var tops: seq<Platform> := [];
      spawned := [];
      for i := 0 to |platforms|
        invariant |platforms| == |before|
        invariant forall j :: 0 <= j < i ==> platforms[j] == Recycle(before[j], scrollY, gaps[j])
        invariant forall j :: i <= j < |platforms| ==> platforms[j] == before[j]
        invariant tops == Pick(platforms, DueIndices(before, scrollY, i))
        invariant (carrots, spawned) == SpawnAll(pool, tops, platformDisplayHeight)
        invariant Valid()
      {
        ghost var prev, carrots0, spawned0, tops0 := platforms, carrots, spawned, tops;
        ghost var q := Recycle(before[i], scrollY, gaps[i]);
        var spawnedHere := RecycleChild(i, scrollY, gaps[i]);
        spawned := spawned + spawnedHere;
        if IsDue(before[i], scrollY) {
          tops := tops + [q];
        }
        assert tops == Pick(platforms, DueIndices(before, scrollY, i + 1)) by {
          PickStep(before, prev, scrollY, i, gaps[i]);
        }
        assert (carrots, spawned) == SpawnAll(pool, tops, platformDisplayHeight) by {
          if IsDue(before[i], scrollY) {
            SpawnAllSnoc(pool, tops0, q, platformDisplayHeight);
            assert carrots == Spawn(carrots0, q, platformDisplayHeight).0;
            assert spawned == spawned0 + [Spawn(carrots0, q, platformDisplayHeight).1];
          } else {
            assert spawned == spawned0;
          }
        }
      }
    }

    /** The input step of a frame: a bounce while touching down, and the
        horizontal velocity from ground contact and the cursor keys. */
    method SteerPlayer(touchingDown: bool, leftDown: bool, rightDown: bool)
      modifies this`playerVx, this`playerVy
      ensures playerVy == if touchingDown then BounceVelocity else old(playerVy)
      ensures playerVx == HorizontalVelocity(touchingDown, leftDown, rightDown)
    {
      if touchingDown {
        playerVy := BounceVelocity;
      }
      if leftDown && !touchingDown {
        playerVx := -RunSpeed;
      } else if rightDown && !touchingDown {
        playerVx := RunSpeed;
      } else {
        playerVx := 0.0;
      }
    }

    /** Wraps the player around the left and right screen edges. */
    method HorizontalWrap()
      modifies this`playerX
      ensures playerX == Wrapped(old(playerX), playerDisplayWidth * 0.5, gameWidth)
    {
      var halfWidth := playerDisplayWidth * 0.5;
      if playerX < -halfWidth {
        playerX := gameWidth + halfWidth;
      } else if playerX > gameWidth + halfWidth {
        playerX := -halfWidth;
      }
    }

    /** The index of the lowest platform (largest y), active or not; of
        several equally low ones, the last in scan order. */
    method FindBottomMostPlatform() returns (bottom: nat)
      requires |platforms| > 0
      ensures bottom < |platforms|
      ensures forall j :: 0 <= j < |platforms| ==> platforms[j].y <= platforms[bottom].y
      ensures forall j :: bottom < j < |platforms| ==> platforms[j].y < platforms[bottom].y
      ensures platforms[bottom].y == MaxY(platforms)
    {
      bottom := 0;
      for i := 1 to |platforms|
        invariant bottom < i
        invariant forall j :: 0 <= j < i ==> platforms[j].y <= platforms[bottom].y
        invariant forall j :: bottom < j < i ==> platforms[j].y < platforms[bottom].y
      {
        if platforms[i].y < platforms[bottom].y {
          continue;
        }
        bottom := i;
      }
      BottomIsMax(platforms, bottom);
    }

    /** One frame: recycle platforms (spawning carrots), set the player's
        velocity from ground contact and the cursor keys, wrap the player
        around the screen edges, and request game over when the player is
        more than 200 below the bottom-most platform.
        `gaps[i]` is the random draw in [50, 100] used if platform `i` is
        recycled. */
    method Update(scrollY: real, gaps: seq<int>, touchingDown: bool, leftDown: bool, rightDown: bool)
      returns (spawned: seq<nat>, gameOver: bool)
      requires Valid()
      requires |platforms| > 0 && |gaps| == |platforms| && GapsInRange(gaps)
      modifies this`platforms, this`carrots, this`playerX, this`playerVx, this`playerVy
      ensures Valid()
      ensures |platforms| == |old(platforms)|
      ensures forall i :: 0 <= i < |platforms| ==> platforms[i] == Recycle(old(platforms)[i], scrollY, gaps[i])
      ensures (carrots, spawned) ==
        SpawnAll(old(carrots), Pick(platforms, DueIndices(old(platforms), scrollY, |platforms|)), platformDisplayHeight)
      ensures var due := DueIndices(old(platforms), scrollY, |platforms|);
        && |spawned| == |due|
        && forall k :: 0 <= k < |spawned| ==>
             spawned[k] < |carrots| && carrots[spawned[k]] == CarrotAbove(platforms[due[k]], platformDisplayHeight)
      ensures playerVy == if touchingDown then BounceVelocity else old(playerVy)
      ensures playerVx == HorizontalVelocity(touchingDown, leftDown, rightDown)
      ensures playerX == Wrapped(old(playerX), playerDisplayWidth * 0.5, gameWidth)
      ensures gameOver <==> playerY > MaxY(platforms) + FallMargin
    {
      ghost var before, pool := platforms, carrots;
      spawned := RecyclePlatforms(scrollY, gaps);
      ghost var recycled, spawnedPool := platforms, carrots;

      SteerPlayer(touchingDown, leftDown, rightDown);
      HorizontalWrap();

      var bottom := FindBottomMostPlatform();
      gameOver := playerY > platforms[bottom].y + FallMargin;

      assert platforms == recycled && carrots == spawnedPool;
      ghost var due := DueIndices(before, scrollY, |recycled|);
      assert |spawned| == |due| && forall k :: 0 <= k < |spawned| ==>
          spawned[k] < |spawnedPool| && spawnedPool[spawned[k]] == CarrotAbove(recycled[due[k]], platformDisplayHeight) by {
        SpawnAllSlots(pool, Pick(recycled, due), platformDisplayHeight);
      }
    }

    /** The player overlapped the live carrot in slot `i`: it is hidden,
        deactivated and taken out of the physics world, and the counter
        and its label go up by one. */
    method HandleCollectCarrot(i: nat)
      requires Valid()
      requires i < |carrots| && carrots[i].active
      modifies this`carrots, this`carrotsCollected, this`carrotsCollectedText
      ensures Valid()
      ensures carrots == old(carrots)[i := old(carrots)[i].(active := false, visible := false, enabled := false)]
      ensures carrotsCollected == old(carrotsCollected) + 1
      ensures carrotsCollectedText == CounterText(carrotsCollected)
    {
      carrots := carrots[i := carrots[i].(active := false, visible := false)];
      carrots := carrots[i := carrots[i].(enabled := false)];
      carrotsCollected := carrotsCollected + 1;
      carrotsCollectedText := CounterText(carrotsCollected);
    }
  }

  /** A client of the scene: at level start the seed carrot is live; once
      collected it is no longer live, so a second overlap report for it
      cannot be delivered, and the counter stands at one. */
  method CollectSeedCarrot(xs: seq<int>)
    requires |xs| == InitialPlatformCount
    requires forall i :: 0 <= i < |xs| ==> MinPlatformX <= xs[i] <= MaxPlatformX
  {
    var game := new Game(480.0, 40.0, 20.0);
    game.Init();
    game.Create(xs);
    assert game.carrots[0].active;
    game.HandleCollectCarrot(0);
    assert game.carrotsCollected == 1;
    assert !game.carrots[0].active && !game.carrots[0].enabled;
    assert game.carrotsCollectedText == CounterText(1);
  }

  /** A client of the scene: in the first frame, with the camera at the top,
      no platform is 700 below it, nothing moves or spawns, and a player
      standing at y = 320 is well above the fall-off line at y = 800. */
  method FirstFrame(xs: seq<int>)
    requires |xs| == InitialPlatformCount
    requires forall i :: 0 <= i < |xs| ==> MinPlatformX <= xs[i] <= MaxPlatformX
  {
    var game := new Game(480.0, 40.0, 20.0);
    game.Init();
    game.Create(xs);
    InitialBottom(xs);
    var spawned, gameOver := game.Update(0.0, [50, 50, 50, 50, 50], false, false, true);
    assert game.platforms == InitialPlatforms(xs);
    assert spawned == [] && game.carrots == [Carrot(240.0, 800.0, true, true, true)];
    assert game.playerVx == RunSpeed && game.playerX == 240.0;
    assert !gameOver;
  }
}
