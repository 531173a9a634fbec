/** One game of Shadow Chase: the state the main loop keeps between ticks,
    and what one tick does in each game state (start screen, play, game
    over). Time is the millisecond clock reading of the tick; the random
    draws of a tick are passed in. */
module Session {
  import opened Geometry
  import opened Stages
  import opened Animation
  import opened DelayLine
  import opened Scoring

  datatype Option<T> = None | Some(value: T)

  datatype GameState = Start | Playing | GameOver

  /** The keys held during a tick. SPACE both jumps and starts a run. */
  datatype Keys = Keys(left: bool, right: bool, space: bool, down: bool)

  /** The random outcomes a tick may use: `pick` is the stage index drawn at
      the start of a run, or the position in the list of other stages when
      a cleared stage is replaced; `blue[i]` says whether the i-th coin of a
      newly loaded stage came out blue. */
  datatype Draws = Draws(pick: nat, blue: seq<bool>)

  const PLAYER_SPEED: int := 7
  const JUMP_VELOCITY: int := -20
  const GRAVITY: int := 1
  const FIRST_CLONE_WAIT: int := 1500
  const INVINCIBLE_DURATION: int := 5000
  const RUN_FRAMES: nat := 6
  const COIN_FRAMES: nat := 5
  const START_RECT: Rect := Rect(150, HEIGHT - 150, PLAYER_W, PLAYER_H)

  function PosOf(r: Rect): Pos { Pos(r.x, r.y) }

  /** The player's rectangle after LEFT and RIGHT, 7 pixels each with
      RIGHT applied last, and the screen wrap. */
  function Steered(r: Rect, keys: Keys): Rect {
    Wrap(r.(x := r.x - (if keys.left then PLAYER_SPEED else 0) + (if keys.right then PLAYER_SPEED else 0)))
  }

  /** SPACE starts a jump only while the player stands on something. */
  predicate Jumps(keys: Keys, onGround: bool) { keys.space && onGround }

  /** The body after gravity and the vertical move, before any platform
      is tried: the speed grows by one and the player is in the air. */
  function Fallen(r: Rect, velY: int): Body {
    Body(r.(y := r.y + velY + GRAVITY), velY + GRAVITY, false)
  }

  /** The i-th clone of a run joined when i clones existed, so its delay is
      90 * (i + 1) ticks; every clone keeps its shape and a run-cycle frame
      below the frame count. */
  ghost predicate CloneOk(c: Clone, i: nat) {
    c.delay == CloneDelay(i) && Synced(c) && c.anim.index < RUN_FRAMES && c.anim.timer < FRAME_PERIOD
  }

  ghost predicate ClonesOk(cs: seq<Clone>) {
    forall i :: 0 <= i < |cs| ==> CloneOk(cs[i], i)
  }

  /** The clone threshold never passes score / 10, and there is at most
      one clone more than the threshold. */
  ghost predicate CloneCountOk(n: nat, threshold: nat, score: nat) {
    threshold <= score / 10 && n <= threshold + 1
  }

  /** The clone list after one more clone joins, seeded from `trail` with
      the delay for the current count; the list stays well formed. */
  function JoinClone(clones: seq<Clone>, trail: seq<Pos>, player: Rect, facing: bool): (r: seq<Clone>)
    requires ClonesOk(clones)
    ensures ClonesOk(r) && |r| == |clones| + 1
    ensures r[..|clones|] == clones
    ensures r[|clones|] == Spawn(trail, CloneDelay(|clones|), player, facing)
  {
    var r := clones + [Spawn(trail, CloneDelay(|clones|), player, facing)];
    assert forall i :: 0 <= i < |clones| ==> r[i] == clones[i];
    r
  }

  /** The two wrap seams are out of reach of every platform: every
      platform lies within [0, WIDTH], so a player whose left edge is at
      WIDTH, or whose right edge is at 0, overlaps none of them. With no
      arrow key held the wrap leaves it there, and the platform loop
      leaves it falling. */
  lemma {:induction false} SeamMissesEveryPlatform(stage: nat, y: int, velY: int, keys: Keys)
    requires stage < |StageTable()| && !keys.left && !keys.right
    ensures var r := Rect(WIDTH, y, PLAYER_W, PLAYER_H);
      Steered(r, keys) == r && LandAll(Fallen(r, velY), StageTable()[stage], keys.down) == Fallen(r, velY)
    ensures var r := Rect(-(PLAYER_W as int), y, PLAYER_W, PLAYER_H);
      Steered(r, keys) == r && LandAll(Fallen(r, velY), StageTable()[stage], keys.down) == Fallen(r, velY)
  {
    var plats := StageTable()[stage];
    LandAllMissesAll(Fallen(Rect(WIDTH, y, PLAYER_W, PLAYER_H), velY), plats, keys.down);
    LandAllMissesAll(Fallen(Rect(-(PLAYER_W as int), y, PLAYER_W, PLAYER_H), velY), plats, keys.down);
  }

  class Session {
    // the player
    var player: Rect
    var velY: int
    var onGround: bool
    var facingRight: bool
    var anim: Anim
    // the run
    var state: GameState
    var gameOverSoundPlayed: bool
    var trail: seq<Pos>
    var clones: seq<Clone>
    var playerMoved: bool
    var moveTime: Option<int>
    var lastThreshold: nat
    var score: nat
    // the stage
    var stageIndex: nat
    var platforms: seq<Rect>
    var collectibles: seq<Coin>
    var coinAnim: Anim
    var invincible: bool
    var invincibleTimer: int
    /** The best score kept in persistent storage. */
    var highScore: int
    /** The platforms of each stage. */
    const stagePlatforms: seq<seq<Rect>>
    /** The coins placed above each stage's raised platforms at start-up. */
    const stageCoins: seq<seq<Rect>>

    /** One coin list per stage, none with more coins than a stage has
        room for platforms. */
    ghost predicate StageTableOk()
    {
      && |stageCoins| == |stagePlatforms|
      && forall i :: 0 <= i < |stageCoins| ==> |stageCoins[i]| <= MAX_PLATFORMS
    }

    /** What every tick keeps true. */
    ghost predicate Valid()
      reads this`stageIndex, this`platforms, this`playerMoved, this`moveTime, this`trail,
            this`clones, this`lastThreshold, this`score, this`anim, this`coinAnim
    {
      && StageTableOk()
      && stageIndex < |stagePlatforms| && platforms == stagePlatforms[stageIndex]
      && (playerMoved <==> moveTime.Some?)
      && (!playerMoved ==> trail == [] && clones == [])
      && CloneCountOk(|clones|, lastThreshold, score)
      && ClonesOk(clones)
      && anim.index < RUN_FRAMES && anim.timer < FRAME_PERIOD
      && coinAnim.index < COIN_FRAMES && coinAnim.timer < FRAME_PERIOD
    }

    /** The state of a run that has just begun with the draws `draws`. */
    ghost predicate FreshRun(draws: Draws)
      reads this
      requires StageTableOk() && draws.pick < |stagePlatforms| && |draws.blue| >= MAX_PLATFORMS
    {
      && state == Playing && !gameOverSoundPlayed
      && score == 0 && lastThreshold == 0
      && trail == [] && clones == [] && !playerMoved && moveTime == None
      && stageIndex == draws.pick && platforms == stagePlatforms[draws.pick]
      && collectibles == MakeCoins(stageCoins[draws.pick], draws.blue)
      && !invincible
    }

    /** Program start-up: the coins of every stage are placed, a first stage
        is drawn, and the game waits on the start screen. */
    constructor (draws: Draws, storedBest: int)
      requires draws.pick < |StageTable()| && |draws.blue| >= MAX_PLATFORMS
      ensures Valid() && state == Start
      ensures stagePlatforms == StageTable()
      ensures forall i :: 0 <= i < |stagePlatforms| ==> stageCoins[i] == CoinsFor(stagePlatforms[i])
      ensures player == START_RECT && velY == 0 && !onGround && facingRight
      ensures anim == Anim(0, 0) && coinAnim == Anim(0, 0) && invincibleTimer == 0 && !gameOverSoundPlayed
      ensures moveTime == None && platforms == stagePlatforms[draws.pick]
      ensures trail == [] && clones == [] && !playerMoved && score == 0 && lastThreshold == 0
      ensures stageIndex == draws.pick && collectibles == MakeCoins(stageCoins[draws.pick], draws.blue)
      ensures !invincible && highScore == storedBest
    {
      var plats := StageTable();
      var table := PlaceAllCoins(plats);
      stagePlatforms := plats;
      stageCoins := table;
      player := START_RECT;
      velY := 0;
      onGround := false;
      facingRight := true;
      anim := Anim(0, 0);
      state := Start;
      gameOverSoundPlayed := false;
      trail := [];
      clones := [];
      playerMoved := false;
      moveTime := None;
      lastThreshold := 0;
      score := 0;
      stageIndex := draws.pick;
      platforms := plats[draws.pick];
      collectibles := MakeCoins(table[draws.pick], draws.blue);
      coinAnim := Anim(0, 0);
      invincible := false;
      invincibleTimer := 0;
      highScore := storedBest;
    }

    /** One tick of the main loop. */
    method Tick(keys: Keys, now: int, draws: Draws)
      requires Valid()
      requires draws.pick < (if state == Playing then |stagePlatforms| - 1 else |stagePlatforms|)
      requires |draws.blue| >= MAX_PLATFORMS
      modifies this
      ensures Valid()
      ensures highScore >= old(highScore)
      ensures old(state) != Playing ==>
                && facingRight == old(facingRight) && anim == old(anim)
                && coinAnim == old(coinAnim) && invincibleTimer == old(invincibleTimer)
      ensures old(state) == Start ==>
                && (keys.space ==> FreshRun(draws))
                && (!keys.space ==> unchanged(this))
                && player == old(player) && velY == old(velY) && onGround == old(onGround)
                && highScore == old(highScore)
      ensures old(state) == Playing ==>
                && (state == Playing || state == GameOver)
                && highScore == old(highScore) && gameOverSoundPlayed == old(gameOverSoundPlayed)
      ensures old(state) == GameOver ==>
                && highScore == (if old(gameOverSoundPlayed) then old(highScore)
                                 else NewHighScore(old(highScore), old(score)))
                && (keys.space ==> FreshRun(draws) && player == START_RECT && velY == 0 && !onGround)
                && (!keys.space ==> state == GameOver && gameOverSoundPlayed && score == old(score)
                                    && trail == old(trail) && clones == old(clones) && player == old(player))
      ensures old(state) == GameOver && !keys.space ==>
                && velY == old(velY) && onGround == old(onGround) && lastThreshold == old(lastThreshold)
                && playerMoved == old(playerMoved) && moveTime == old(moveTime)
                && stageIndex == old(stageIndex) && platforms == old(platforms)
                && collectibles == old(collectibles) && invincible == old(invincible)
    {
      if state == Start {
        StartTick(keys, draws);
      } else if state == Playing {
        PlayTick(keys, now, draws);
      } else {
        OverTick(keys, draws);
      }
    }

    /** The start screen: SPACE begins a run; the player's rectangle is
        left where it is. */
    method StartTick(keys: Keys, draws: Draws)
      requires Valid() && state == Start
      requires draws.pick < |stagePlatforms| && |draws.blue| >= MAX_PLATFORMS
      modifies this`state, this`gameOverSoundPlayed, this`score, this`lastThreshold,
               this`trail, this`clones, this`playerMoved, this`moveTime,
               this`stageIndex, this`platforms, this`collectibles, this`invincible
      ensures Valid()
      ensures keys.space ==> FreshRun(draws)
      ensures !keys.space ==> unchanged(this)
      ensures player == old(player) && velY == old(velY) && onGround == old(onGround)
      ensures highScore == old(highScore)
    {
      if keys.space {
        BeginRun(draws);
      }
    }

    /** The game-over screen: on its first tick the best score is updated;
        SPACE puts the player back at the start and begins a new run. */
    method OverTick(keys: Keys, draws: Draws)
      requires Valid() && state == GameOver
      requires draws.pick < |stagePlatforms| && |draws.blue| >= MAX_PLATFORMS
      modifies this`player, this`velY, this`onGround, this`highScore,
               this`state, this`gameOverSoundPlayed, this`score, this`lastThreshold,
               this`trail, this`clones, this`playerMoved, this`moveTime,
               this`stageIndex, this`platforms, this`collectibles, this`invincible
      ensures Valid()
      ensures highScore == if old(gameOverSoundPlayed) then old(highScore)
                           else NewHighScore(old(highScore), old(score))
      ensures keys.space ==> FreshRun(draws) && player == START_RECT && velY == 0 && !onGround
      ensures !keys.space ==>
                && state == GameOver && gameOverSoundPlayed
                && score == old(score) && trail == old(trail) && clones == old(clones)
                && player == old(player)
                && unchanged(this`velY, this`onGround, this`lastThreshold, this`playerMoved, this`moveTime,
                             this`stageIndex, this`platforms, this`collectibles, this`invincible)
    {
      SaveBest();
      if keys.space {
        Restart(draws);
      }
    }

    /** SPACE on the game-over screen: the player goes back to the start
        position at rest, and a new run begins. */
    method Restart(draws: Draws)
      requires Valid()
      requires draws.pick < |stagePlatforms| && |draws.blue| >= MAX_PLATFORMS
      modifies this`player, this`velY, this`onGround,
               this`state, this`gameOverSoundPlayed, this`score, this`lastThreshold,
               this`trail, this`clones, this`playerMoved, this`moveTime,
               this`stageIndex, this`platforms, this`collectibles, this`invincible
      ensures Valid() && FreshRun(draws)
      ensures player == START_RECT && velY == 0 && !onGround
    {
      player, velY, onGround := START_RECT, 0, false;
      BeginRun(draws);
    }

    /** The first game-over tick stores the run's score as the best one when
        it beats the stored best; later ticks leave the store alone. */
    method SaveBest()
      requires Valid()
      modifies this`highScore, this`gameOverSoundPlayed
      ensures Valid()
      ensures highScore == if old(gameOverSoundPlayed) then old(highScore) else NewHighScore(old(highScore), score)
      ensures gameOverSoundPlayed
    {
      if !gameOverSoundPlayed {
        highScore := NewHighScore(highScore, score);
        gameOverSoundPlayed := true;
      }
    }

    /** The reset shared by the start screen and the game-over screen: a
        new run on the drawn stage. */
    method BeginRun(draws: Draws)
      requires Valid()
      requires draws.pick < |stagePlatforms| && |draws.blue| >= MAX_PLATFORMS
      modifies this`state, this`gameOverSoundPlayed, this`score, this`lastThreshold,
               this`trail, this`clones, this`playerMoved, this`moveTime,
               this`stageIndex, this`platforms, this`collectibles, this`invincible
      ensures Valid() && FreshRun(draws)
    {
      state, gameOverSoundPlayed, invincible := Playing, false, false;
      ResetRun();
      LoadStage(draws.pick, draws.blue);
    }

    /** The run's score, clone threshold, trail and clones start over. */
    method ResetRun()
      requires Valid()
      modifies this`score, this`lastThreshold, this`trail, this`clones, this`playerMoved, this`moveTime
      ensures Valid()
      ensures score == 0 && lastThreshold == 0 && trail == [] && clones == []
      ensures !playerMoved && moveTime == None
    {
      score := 0;
      lastThreshold := 0;
      trail := [];
      clones := [];
      playerMoved := false;
      moveTime := None;
    }

    /** Stage `index` becomes the current stage: its platforms, and its
        coins coloured by the draws `blue`. */
    method LoadStage(index: nat, blue: seq<bool>)
      requires Valid()
      requires index < |stagePlatforms| && |blue| >= MAX_PLATFORMS
      modifies this`stageIndex, this`platforms, this`collectibles
      ensures Valid()
      ensures stageIndex == index && platforms == stagePlatforms[index]
      ensures collectibles == MakeCoins(stageCoins[index], blue)
    {
      stageIndex := index;
      platforms := stagePlatforms[index];
      collectibles := MakeCoins(stageCoins[index], blue);
    }

    /** One tick of play: the player moves and falls, the trail grows, clones
        spawn and replay the trail, a clone touching the player ends the run,
        coins are picked up, invincibility may run out, a cleared stage is
        replaced, and the sprite counters move on. */
    method PlayTick(keys: Keys, now: int, draws: Draws)
      requires Valid() && state == Playing
      requires draws.pick < |stagePlatforms| - 1 && |draws.blue| >= MAX_PLATFORMS
      modifies this`player, this`facingRight, this`velY, this`onGround, this`playerMoved, this`moveTime,
               this`trail, this`clones, this`lastThreshold, this`state, this`coinAnim, this`collectibles,
               this`score, this`invincible, this`invincibleTimer, this`stageIndex, this`platforms, this`anim
      ensures Valid()
      ensures state == Playing || state == GameOver
    {
      MovePlayer(keys, now);
      SpawnClones(now);
      AdvanceClones();
      FinishTick(now, draws);
    }

    /** Input, physics and the trail recorder. */
    method MovePlayer(keys: Keys, now: int)
      requires Valid()
      modifies this`player, this`facingRight, this`velY, this`onGround,
               this`playerMoved, this`moveTime, this`trail
      ensures Valid()
      ensures playerMoved == (old(playerMoved) || keys.left || keys.right || (keys.space && old(onGround)))
      ensures moveTime == if old(moveTime).None? && playerMoved then Some(now) else old(moveTime)
      ensures trail == if playerMoved then old(trail) + [PosOf(player)] else old(trail)
      ensures facingRight == if keys.right then true else if keys.left then false else old(facingRight)
      ensures Body(player, velY, onGround) ==
                LandAll(Fallen(Steered(old(player), keys),
                               if Jumps(keys, old(onGround)) then JUMP_VELOCITY else old(velY)),
                        platforms, keys.down)
    {
      Steer(keys, now);
      Fall(keys.down);
      RecordTrail();
    }

    /** The input half of a tick: horizontal movement, the jump, and the
        moved flag they set. */
    method Steer(keys: Keys, now: int)
      requires Valid()
      modifies this`player, this`facingRight, this`velY, this`onGround, this`playerMoved, this`moveTime
      ensures Valid()
      ensures playerMoved == (old(playerMoved) || keys.left || keys.right || (keys.space && old(onGround)))
      ensures moveTime == if old(moveTime).None? && playerMoved then Some(now) else old(moveTime)
      ensures player == Steered(old(player), keys)
      ensures facingRight == if keys.right then true else if keys.left then false else old(facingRight)
      ensures velY == if Jumps(keys, old(onGround)) then JUMP_VELOCITY else old(velY)
      ensures onGround == (old(onGround) && !keys.space)
    {
      var moved := MoveHorizontally(keys);
      var jumped := Jump(keys);
      NoteMove(moved || jumped, now);
    }

    /** LEFT and RIGHT move the player 7 pixels each and set its facing;
        then the screen wrap applies. */
    method MoveHorizontally(keys: Keys) returns (moved: bool)
      modifies this`player, this`facingRight
      ensures moved == (keys.left || keys.right)
      ensures player == Steered(old(player), keys)
      ensures facingRight == if keys.right then true else if keys.left then false else old(facingRight)
    {
      moved := false;
      if keys.left {
        player := player.(x := player.x - PLAYER_SPEED);
        facingRight := false;
        moved := true;
      }
      if keys.right {
        player := player.(x := player.x + PLAYER_SPEED);
        facingRight := true;
        moved := true;
      }
      player := Wrap(player);
    }

    /** SPACE while standing starts a jump. */
    method Jump(keys: Keys) returns (jumped: bool)
      modifies this`velY, this`onGround
      ensures jumped == Jumps(keys, old(onGround))
      ensures velY == if jumped then JUMP_VELOCITY else old(velY)
      ensures onGround == (old(onGround) && !jumped)
    {
      jumped := false;
      if keys.space && onGround {
        velY := JUMP_VELOCITY;
        onGround := false;
        jumped := true;
      }
    }

    /** The sticky moved flag: set by any tick with movement input and
        never cleared during the run; the time of the first such tick is
        kept. */
    method NoteMove(movedThisTick: bool, now: int)
      requires Valid()
      modifies this`playerMoved, this`moveTime
      ensures Valid()
      ensures playerMoved == (old(playerMoved) || movedThisTick)
      ensures moveTime == if movedThisTick && old(moveTime).None? then Some(now) else old(moveTime)
    {
      if movedThisTick {
        playerMoved := true;
        if moveTime.None? {
          moveTime := Some(now);
        }
      }
    }

    /** Gravity, then the platform loop: the player stops on each platform
        it overlaps while not rising, except a raised platform while DOWN
        is held. */
    method Fall(down: bool)
      modifies this`player, this`velY, this`onGround
      ensures Body(player, velY, onGround) == LandAll(Fallen(old(player), old(velY)), platforms, down)
    {
      velY := velY + GRAVITY;
      player := player.(y := player.y + velY);
      onGround := false;
      ghost var start := Body(player, velY, onGround);
      var i := 0;
      while i < |platforms|
        invariant 0 <= i <= |platforms|
        invariant Body(player, velY, onGround) == LandAll(start, platforms[..i], down)
      {
        var plat := platforms[i];
        if Overlaps(player, plat) && velY >= 0 {
          if plat.y < DROP_LINE {
            if !down {
              player := player.WithBottom(plat.y);
              velY := 0;
              onGround := true;
            }
          } else {
            player := player.WithBottom(plat.y);
            velY := 0;
            onGround := true;
          }
        }
        assert platforms[..i + 1][..i] == platforms[..i];
        i := i + 1;
      }
      assert platforms[..i] == platforms;
    }

    /** Once the player has moved, every tick appends its position after
        physics to the trail. */
    method RecordTrail()
      requires Valid()
      modifies this`trail
      ensures Valid()
      ensures trail == if playerMoved then old(trail) + [PosOf(player)] else old(trail)
    {
      if playerMoved {
        trail := trail + [PosOf(player)];
      }
    }

    /** Clone spawning: the first clone, or one more clone when the score
        has passed the next threshold. Existing clones are kept as they are. */
    method SpawnClones(now: int)
      requires Valid()
      modifies this`clones, this`lastThreshold
      ensures Valid()
      ensures old(clones) == [] ==>
                |clones| <= 2 && (clones != [] <==> playerMoved && now - moveTime.value >= FIRST_CLONE_WAIT)
      ensures old(clones) != [] ==>
                |clones| <= |old(clones)| + 1 &&
                (|clones| == |old(clones)| + 1 <==> score / 10 > old(lastThreshold))
      ensures |old(clones)| <= |clones| && clones[..|old(clones)|] == old(clones)
      ensures var first := if playerMoved && old(clones) == [] && now - moveTime.value >= FIRST_CLONE_WAIT
                           then [Spawn(trail, BASE_DELAY, player, facingRight)] else old(clones);
              var joined := first != [] && score / 10 > old(lastThreshold);
              && clones == (if joined then first + [Spawn(trail, CloneDelay(|first|), player, facingRight)]
                            else first)
              && lastThreshold == (if joined then score / 10 else old(lastThreshold))
    {
      ghost var first := if playerMoved && clones == [] && now - moveTime.value >= FIRST_CLONE_WAIT
                         then [Spawn(trail, BASE_DELAY, player, facingRight)] else clones;
      SpawnFirstClone(now);
      assert clones == first;
      if score / 10 > lastThreshold && |clones| > 0 {
        JoinNextClone();
        assert clones == first + [Spawn(trail, CloneDelay(|first|), player, facingRight)];
      }
    }

    /** The first clone: once the player has moved and 1500 ms have passed
        since the first move, with no clone yet, a clone with the base delay
        is seeded from the trail. */
    method SpawnFirstClone(now: int)
      requires Valid()
      modifies this`clones
      ensures Valid()
      ensures playerMoved && old(clones) == [] && now - moveTime.value >= FIRST_CLONE_WAIT ==>
                clones == [Spawn(trail, BASE_DELAY, player, facingRight)]
      ensures !(playerMoved && old(clones) == [] && now - moveTime.value >= FIRST_CLONE_WAIT) ==>
                clones == old(clones)
    {
      if playerMoved && |clones| == 0 && now - moveTime.value >= FIRST_CLONE_WAIT {
        var delayFrames := BASE_DELAY;
        var c := Spawn(trail, delayFrames, player, facingRight);
        clones := [c];
      }
    }

    /** A further clone, once score / 10 has passed the last threshold and
        a clone already exists: the threshold catches up and one clone joins
        with a delay of 90 ticks times the new clone count. */
    method JoinNextClone()
      requires Valid() && score / 10 > lastThreshold && |clones| > 0
      modifies this`clones, this`lastThreshold
      ensures Valid()
      ensures lastThreshold == score / 10
      ensures clones == JoinClone(old(clones), trail, player, facingRight)
    {
      assert CloneCountOk(|clones| + 1, score / 10, score);
      lastThreshold, clones := score / 10, JoinClone(clones, trail, player, facingRight);
    }

    /** Every clone's delay line takes the player's current position and
        may move the clone; a clone overlapping the player ends the run
        unless the player is invincible. */
    method AdvanceClones()
      requires Valid() && state == Playing
      modifies this`clones, this`state
      ensures Valid()
      ensures |clones| == |old(clones)|
      ensures forall i :: 0 <= i < |clones| ==> clones[i] == Advance(old(clones)[i], PosOf(player))
      ensures state == if !invincible && exists i :: 0 <= i < |clones| && Overlaps(player, clones[i].rect)
                       then GameOver else Playing
    {
      var hit;
      clones, hit := AdvanceAll(clones, PosOf(player), player);
      if hit && !invincible {
        state := GameOver;
      }
    }

    /** The second half of a play tick: the coin counter, coin pickup and
        invincibility, the stage change and the sprite counters. */
    method FinishTick(now: int, draws: Draws)
      requires Valid()
      requires draws.pick < |stagePlatforms| - 1 && |draws.blue| >= MAX_PLATFORMS
      modifies this`coinAnim, this`collectibles, this`score, this`invincible, this`invincibleTimer,
               this`stageIndex, this`platforms, this`anim, this`clones
      ensures Valid()
    {
      AnimateCoins();
      UpdateCoins(now);
      NextStageIfCleared(draws);
      AnimatePlayer();
      AnimateClones();
    }

    /** Coin pickup followed by the invincibility check: a blue coin picked
        up in this tick restarts the 5000 ms, so it keeps the player
        invincible; otherwise invincibility ends once 5000 ms have passed
        since the last blue coin. */
    method UpdateCoins(now: int)
      requires Valid()
      modifies this`collectibles, this`score, this`invincible, this`invincibleTimer
      ensures Valid()
      ensures collectibles == Kept(player, old(collectibles))
      ensures score == old(score) + Gained(player, old(collectibles))
      ensures invincibleTimer == if TouchedBlue(player, old(collectibles)) then now else old(invincibleTimer)
      ensures invincible == ((old(invincible) || TouchedBlue(player, old(collectibles)))
                             && now - invincibleTimer < INVINCIBLE_DURATION)
      ensures TouchedBlue(player, old(collectibles)) ==> invincible
    {
      CollectCoins(now);
      ExpireInvincibility(now);
    }

    /** The coins' shared frame counter. */
    method AnimateCoins()
      requires Valid()
      modifies this`coinAnim
      ensures Valid()
      ensures coinAnim == Step(old(coinAnim), COIN_FRAMES)
    {
      coinAnim := Step(coinAnim, COIN_FRAMES);
    }

    /** Every coin the player touches is removed; a normal one scores a
        point, a blue one makes the player invincible from now on. */
    method CollectCoins(now: int)
      requires Valid()
      modifies this`collectibles, this`score, this`invincible, this`invincibleTimer
      ensures Valid()
      ensures collectibles == Kept(player, old(collectibles))
      ensures score == old(score) + Gained(player, old(collectibles))
      ensures invincible == (old(invincible) || TouchedBlue(player, old(collectibles)))
      ensures invincibleTimer == if TouchedBlue(player, old(collectibles)) then now else old(invincibleTimer)
    {
      collectibles, score, invincible, invincibleTimer :=
        PickUpCoins(player, collectibles, score, invincible, invincibleTimer, now);
    }

    /** Invincibility ends 5000 ms after the last blue coin. */
    method ExpireInvincibility(now: int)
      modifies this`invincible
      ensures invincible == (old(invincible) && now - invincibleTimer < INVINCIBLE_DURATION)
    {
      if invincible {
        if now - invincibleTimer >= INVINCIBLE_DURATION {
          invincible := false;
        }
      }
    }

    /** A cleared stage is replaced by one of the other stages, with fresh
        coins. */
    method NextStageIfCleared(draws: Draws)
      requires Valid()
      requires draws.pick < |stagePlatforms| - 1 && |draws.blue| >= MAX_PLATFORMS
      modifies this`stageIndex, this`platforms, this`collectibles
      ensures Valid()
      ensures old(collectibles) != [] ==>
                stageIndex == old(stageIndex) && collectibles == old(collectibles)
      ensures old(collectibles) == [] ==>
                && stageIndex != old(stageIndex)
                && stageIndex == OtherStages(|stagePlatforms|, old(stageIndex))[draws.pick]
                && collectibles == MakeCoins(stageCoins[stageIndex], draws.blue)
    {
      if collectibles == [] {
        var available := OtherStages(|stagePlatforms|, stageIndex);
        assert available[draws.pick] in available;
        LoadStage(available[draws.pick], draws.blue);
      }
    }

    /** The player's run-cycle counter moves only while standing. */
    method AnimatePlayer()
      requires Valid()
      modifies this`anim
      ensures Valid()
      ensures anim == if onGround then Step(old(anim), RUN_FRAMES) else old(anim)
    {
      if onGround {
        anim := Step(anim, RUN_FRAMES);
      }
    }

    /** Each clone's run-cycle counter moves only while it is grounded on
        the current stage's platforms. */
    method AnimateClones()
      requires Valid()
      modifies this`clones
      ensures Valid()
      ensures |clones| == |old(clones)|
      ensures forall i :: 0 <= i < |clones| ==>
                clones[i] == old(clones)[i].(anim := if Grounded(old(clones)[i].rect, platforms)
                                                     then Step(old(clones)[i].anim, RUN_FRAMES)
                                                     else old(clones)[i].anim)
    {
      var i := 0;
      while i < |clones|
        invariant 0 <= i <= |clones| && |clones| == |old(clones)|
        invariant forall j :: 0 <= j < i ==>
                    clones[j] == old(clones)[j].(anim := if Grounded(old(clones)[j].rect, platforms)
                                                         then Step(old(clones)[j].anim, RUN_FRAMES)
                                                         else old(clones)[j].anim)
        invariant forall j :: i <= j < |clones| ==> clones[j] == old(clones)[j]
      {
        var grounded := CloneOnGround(clones[i].rect, platforms);
        if grounded {
          clones := clones[i := clones[i].(anim := Step(clones[i].anim, RUN_FRAMES))];
        }
        i := i + 1;
      }
    }
  }
}
