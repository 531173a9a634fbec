# Shadow Chase: the trail and clone engine

Shadow Chase (`Game2.py`) is a single-screen platformer. The player runs and jumps over the platforms of one of four stages and picks up coins. Once the player has moved, every tick records the player's position in a trail. After 1500 ms a first clone ("shadow") appears and replays the trail 90 ticks late. Each time `score // 10` passes the last threshold, another clone joins with a longer delay. A clone that touches the player ends the run unless a blue coin has made the player invincible. Invincibility lasts 5000 ms. Clearing every coin of a stage moves the game to another stage. On game over, the best score is kept.

The game keeps all of this in module-level variables that its main loop changes in place. The model gathers them into one `Session` class (`session.dfy`), with one method per phase of a tick. The pure parts live in separate modules:

- `geometry.dfy`: integer rectangles, `colliderect`, the horizontal screen wrap and platform landing.
- `animation.dfy`: the modular sprite frame counters.
- `stages.dfy`: the stage table, coin placement above raised platforms, and the choice of the next stage.
- `delay_line.dfy`: the clone record, how a clone is seeded from the trail, and its FIFO delay line. This includes the lemma that a clone stands where the player stood `delay` ticks earlier.
- `scoring.dfy`: coin pickup (with Python's `list.remove`), the points and the invincibility it yields, and the best-score rule.

Loops that update a local list become methods proved against a recursive specification function. These are the platform loop, the clone loop, the coin loop and the coin placement loop. The clone-on-ground search is proved against the existential predicate `Grounded`. Examples are `Fall` against `LandAll`, `PickUpCoins` against `Kept`/`Gained`/`TouchedBlue`, and `AdvanceAll` against `Advance`. The class invariant `Valid` holds after every tick. It says:

- the platforms are those of the current stage;
- the moved flag and the first-move time agree;
- nothing is recorded before the first move;
- the clone threshold never passes `score / 10`, and there is at most one clone more than the threshold;
- the i-th clone has delay `90 * (i + 1)`, the player's size, and a delay line no longer than its delay;
- every frame index is below its frame count, and every frame timer below the period of 5.

The millisecond clock reading of a tick is the parameter `now`. The random draws of a tick are the parameter `draws`: the stage index (or the position in the list of other stages), and one blue/normal flag per coin. Their ranges are preconditions.

## Model

| member | source | states |
|---|---|---|
| Geometry.Rect.WithBottom | Game2.py:280-287 | setting `bottom` moves the rectangle vertically only, so that its bottom edge is at the given line |
| Geometry.Wrap | Game2.py:251-255 | a rectangle entirely left of the screen re-enters with its left edge at WIDTH; one entirely right of it re-enters with its right edge at 0; any other rectangle is unchanged; afterwards the rectangle always touches [0, WIDTH] |
| Geometry.LandOn | Game2.py:278-287 | a body that overlaps a platform while not rising stops on it (speed 0, on ground, bottom on the platform's top, x unchanged), unless the platform is raised and DOWN is held; otherwise it is unchanged |
| Geometry.LandAllRests | Game2.py:276-287 | after the platform loop the body is either untouched or stands on some platform it was allowed to stop on: its bottom edge on that platform's top, horizontally overlapping it, with speed 0; its horizontal position never changes |
| Geometry.LandAllMissesAll | Game2.py:276-287 | a body that no platform catches stays in the air, unchanged |
| Geometry.LandAllLands | Game2.py:276-287 | a falling body that some platform catches ends the loop on the ground with speed 0, whatever the other platforms do |
| Animation.Step | Game2.py:365-368 | one tick of a frame counter: the timer stays below the period of 5; at the period the frame index moves on modulo the frame count; it stays below the frame count |
| Animation.FrameAdvancesOncePerPeriod | Game2.py:431-434 | from any timer value below 5, the frame index stays put until the timer reaches 5, then moves to the next frame cyclically with the timer back at 0 |
| Stages.StageTable | Game2.py:81-113 | four stages, each with between one and four platforms, the first of which is the floor, and every platform within [0, WIDTH] horizontally |
| Stages.CoinAbove | Game2.py:119-125 | a coin is a 30x30 square, horizontally centred on its platform, 30 pixels above the platform's top |
| Stages.CoinsFor | Game2.py:116-127 | a stage's coins are exactly the coins above its non-floor platforms, and there are no more coins than platforms |
| Stages.PlaceCoins | Game2.py:117-127 | the placement loop for one stage produces `CoinsFor` of its platforms |
| Stages.PlaceAllCoins | Game2.py:116-127 | the start-up loop gives every stage in the table its coins |
| Stages.OtherStages | Game2.py:395-396 | the candidate next stages are exactly the indices below the stage count other than the current one, in increasing order, one fewer than the stage count |
| DelayLine.CloneDelay | Game2.py:318-320 | a clone that joins when `n` clones exist has delay `90 * (n + 1)` ticks, never less than the base 90 |
| DelayLine.Suffix | Game2.py:296 | for any positive delay d, the seed is the last min(d, len(trail)) samples of the trail |
| DelayLine.Spawn | Game2.py:295-316 | a new clone with a positive requested delay has that delay, the player's size, a delay line no longer than its delay, its reference position on itself, frame counters and last vertical move at zero |
| DelayLine.SpawnFromTrail | Game2.py:296-304 | a new clone's delay line is the trail suffix; it stands on the suffix's first sample, or on the player when the suffix is empty; with two or more samples it faces right exactly when the last sample is no further left than the first, otherwise it takes the player's facing |
| DelayLine.Advance | Game2.py:344-360 | the player's position enters the back of the delay line; while the line is not longer than the delay nothing else changes; otherwise the front sample leaves it and becomes the clone's position, facing follows the sign of dx (unchanged when dx is 0), the reference position becomes the new position, and the last vertical move is the step just taken; the delay line never grows past the delay |
| DelayLine.AdvanceAll | Game2.py:343-362 | the clone loop advances every clone by `Advance` in place, and reports a collision exactly when some advanced clone overlaps the player |
| DelayLine.DelayStep | Game2.py:345-353 | one tick of the delay line stated on the history of all samples that entered it: it holds the newest min(delay, history) samples, and the clone moves only once the history is longer than the delay |
| DelayLine.ReplayIsDelayLine | Game2.py:345-353 | over any number of ticks, the delay line holds the newest min(delay, n) samples of the seed followed by the fed positions (n samples in all), in order; the clone stays put until that history is longer than the delay and then stands on the sample `delay` places before the newest |
| DelayLine.EchoesPlayerAfterDelay | Game2.py:345-353 | once more than `delay` positions have been fed to a clone since it spawned, it stands where the player stood exactly `delay` ticks before the latest tick, whatever its seed |
| DelayLine.ReplayKeepsSynced | Game2.py:345-360 | any number of ticks keep a clone's delay line within its delay, its size, and its reference position on itself |
| DelayLine.CloneOnGround | Game2.py:451-456 | the search over the platforms finds a platform exactly when some platform overlaps the clone with the clone's bottom within 6 pixels of that platform's top |
| Scoring.MakeCoins | Game2.py:398-402 | a loaded stage has one coin per placed coin rectangle, in order, blue exactly when its draw says so |
| Scoring.RemoveFirst | Game2.py:382 | `list.remove` drops one element when the value is present, and nothing otherwise; it adds no element |
| Scoring.RemoveFirstAt | Game2.py:382 | removing `x` from `a + [x] + b` when `x` is not in `a` gives `a + b` |
| Scoring.Kept | Game2.py:371-382 | the coins left after a pickup are no more than there were |
| Scoring.KeptMembers | Game2.py:371-382 | the coins left are exactly the coins the player does not touch |
| Scoring.KeptAppend | Game2.py:371-382 | pickup distributes over concatenation, so the coins left keep their original order |
| Scoring.PickupAccounting | Game2.py:371-382 | points gained plus coins left never exceed the coins there were, with equality exactly when no blue coin was touched |
| Scoring.KeptStep | Game2.py:371-382 | one step of the loop over the snapshot `collectibles[:]`: removing the touched coin from the live list, or keeping an untouched one, keeps the live list equal to the kept prefix followed by the unvisited rest |
| Scoring.GainedStep | Game2.py:375-381 | one step of the loop scores one point for a touched normal coin, and notes a touched blue coin |
| Scoring.PickUpCoins | Game2.py:370-382 | the pickup loop leaves exactly the untouched coins in order, adds one point per touched normal coin, switches invincibility on when a blue coin was touched, and restarts its timer at `now` exactly then |
| Scoring.NewHighScore | Game2.py:482-484 | the stored best is replaced by the run's score only when that is strictly higher, so the result is the larger of the two |
| Session.JoinClone | Game2.py:318-341 | a joining clone is appended after the existing ones, seeded from the trail with the delay for the current count, and keeps every clone's delay at `90 * (i + 1)` |
| Session.SeamMissesEveryPlatform | Game2.py:251-287 | a player at either wrap seam (left edge at WIDTH, or right edge at 0) with no arrow key held is left there by the wrap, and no platform of any stage catches it, so it keeps falling |
| Session.Session.constructor | Game2.py:53-170 | at start-up every stage gets its coins, the drawn stage is loaded with coins coloured by the draws, the player is at (150, HEIGHT - 150), airborne and facing right, the player's and the coins' frame counters are at zero, invincibility is off with its timer at 0, the game-over flag is clear, nothing is recorded, the stored best is loaded, and the game waits on the start screen |
| Session.Session.Tick | Game2.py:214-511 | one tick keeps the invariant and never lowers the stored best. From the start screen: SPACE begins a fresh run on the drawn stage and leaves the player's rectangle, speed and ground flag where they were; without SPACE nothing changes. From play: the tick ends in play or game over, and the best score and the game-over flag stay. From game over: the best-score rule applies; SPACE puts the player back at the start at rest and begins a fresh run; without SPACE the game stays over and every field of the run and the stage is kept. Outside play, facing, the frame counters and the invincibility timer are untouched |
| Session.Session.StartTick | Game2.py:216-234 | SPACE on the start screen begins a fresh run on the drawn stage and leaves the player's rectangle and speed where they were; without SPACE nothing changes; the player's facing, the frame counters, the invincibility timer and the best score are outside its frame |
| Session.Session.OverTick | Game2.py:479-511 | on the first game-over tick the best score becomes the larger of the stored one and the run's score, and later ticks leave it alone; SPACE puts the player back at the start at rest and begins a fresh run; without SPACE every field of the run and the stage stays as it is; facing, the frame counters and the invincibility timer are outside its frame |
| Session.Session.Restart | Game2.py:492-511 | the game-over reset puts the player at the start position at rest and begins a fresh run |
| Session.Session.SaveBest | Game2.py:480-489 | the best-score check runs once per game over |
| Session.Session.BeginRun | Game2.py:218-234 | a fresh run: playing, score and threshold 0, empty trail and no clones, not moved, not invincible, on the drawn stage with freshly drawn coins |
| Session.Session.ResetRun | Game2.py:219-224 | score, threshold, trail, clones and the moved flag start over |
| Session.Session.LoadStage | Game2.py:226-232 | the chosen stage becomes current, with its platforms and its coins coloured by the draws |
| Session.Session.PlayTick | Game2.py:237-464 | a play tick keeps the invariant and ends either still playing or in game over |
| Session.Session.MovePlayer | Game2.py:241-291 | the moved flag becomes and stays true on any tick with LEFT, RIGHT or a jump; the first-move time is set only once; facing follows the last arrow key held; the player ends where `LandAll` puts the steered, jumped and fallen body; the trail grows by exactly that post-physics position on every tick once the player has moved, and is unchanged before |
| Session.Session.Steer | Game2.py:241-269 | the input half of a tick: the player is moved 7 pixels per arrow key and wrapped, faces the way of the last arrow key, takes speed -20 and leaves the ground exactly when SPACE is held while standing, and sets the sticky moved flag and the first-move time |
| Session.Session.MoveHorizontally | Game2.py:241-255 | LEFT and RIGHT each move the player 7 pixels and set its facing (RIGHT wins when both are held), then the wrap applies |
| Session.Session.Jump | Game2.py:257-264 | SPACE while standing sets the vertical speed to -20 and leaves the ground; otherwise nothing changes |
| Session.Session.NoteMove | Game2.py:266-269 | the moved flag is sticky and the first-move time is recorded only on the first move |
| Session.Session.Fall | Game2.py:271-287 | gravity adds 1 to the vertical speed, the player moves by it, and the platform loop gives `LandAll` of the platforms |
| Session.Session.RecordTrail | Game2.py:289-291 | once the player has moved, the trail grows by the current position |
| Session.Session.SpawnClones | Game2.py:293-341 | the first clone, seeded by `Spawn` with delay 90, appears exactly when there is none, the player has moved and 1500 ms have passed since the first move; then, if a clone exists and `score // 10` is above the last threshold, the threshold becomes `score // 10` and one clone seeded with the delay for the current count joins at the end; otherwise the clones and the threshold are unchanged |
| Session.Session.SpawnFirstClone | Game2.py:294-316 | the first clone, with delay 90, is seeded from the trail exactly when the player has moved, no clone exists and 1500 ms have passed since the first move |
| Session.Session.JoinNextClone | Game2.py:318-341 | the threshold catches up with `score // 10` and one clone joins with the delay for the current count |
| Session.Session.AdvanceClones | Game2.py:343-362 | every clone is advanced by one tick of its delay line, and the run ends exactly when some advanced clone overlaps the player while the player is not invincible; otherwise it stays in play |
| Session.Session.FinishTick | Game2.py:364-464 | coins, invincibility, the stage change and the sprite counters keep the invariant |
| Session.Session.UpdateCoins | Game2.py:370-387 | the untouched coins stay, score rises by the touched normal coins, a touched blue coin restarts the timer at `now`, and the player is invincible afterwards exactly when it was or touched a blue coin and less than 5000 ms have passed since the timer's last start; touching a blue coin always leaves the player invincible |
| Session.Session.AnimateCoins | Game2.py:364-368 | the coins' frame counter steps once per tick |
| Session.Session.CollectCoins | Game2.py:370-382 | the pickup loop applied to the session's coins, score and invincibility |
| Session.Session.ExpireInvincibility | Game2.py:384-387 | invincibility ends exactly when 5000 ms or more have passed since the timer's start |
| Session.Session.NextStageIfCleared | Game2.py:389-402 | with coins left nothing changes; with none, the stage becomes a different one, taken from the other stages by the draw, with fresh coins |
| Session.Session.AnimatePlayer | Game2.py:427-434 | the player's run-cycle counter steps only while it stands on a platform |
| Session.Session.AnimateClones | Game2.py:450-464 | each clone's run-cycle counter steps exactly when the clone is grounded on the current platforms; nothing else about the clones changes |

## Left out

- Drawing, sprites, fonts, the HSV colour cycling of blue coins and of the invincible player, and the HUD are not modelled. They are rendering, and much of it uses floating point.
- Audio (`pygame.mixer`, with the exceptions it swallows) is not modelled. It is I/O with no effect on the game state.
- The SQLite best-score table is a stored integer (`highScore`). Only the rule that keeps the larger score is modelled.
- Coordinates, speeds and scores are unbounded integers, while the game library's `Rect` stores C ints. This matters at the wrap seams. `SeamMissesEveryPlatform` shows that a player standing still there is caught by no platform, so `player_rect.y` grows on every tick without bound. The source would then overflow, which the model does not capture.
- `resource_path` and `Game.py` are not part of this model.
- Time is one integer `now` per tick. The source reads `pygame.time.get_ticks()` several times within one tick; those readings are taken to be equal.
- The random draws are parameters. The coin colour probabilities (0.05 at the start of a run, 0.08 on a stage change) are not modelled; each colour is a draw.
- `copy_stage` is not a member. The model works on immutable values, so a copy is the value itself.
- A coin's `spawn_time` is not modelled. The source never reads it. Coins are compared by rectangle and colour, which tells apart any two coins of one stage.
- `last_stage_index` is not a separate field. Every assignment to `stage_index` also assigns it, so it always equals `stageIndex`.
- A clone is a value in `clones: seq<Clone>` rather than a shared dictionary. The source never aliases a clone's dictionary or its trail list. The clone loop updates the list in place.
- The trail is recorded on every tick once the player has moved, even on ticks without input. This is what the code does, and the model follows it.
- Session.Session.Tick: for a play tick it states only the invariant, the game state after the tick and that the best score and game-over flag stay. The effects of play are stated by the phase methods `PlayTick` calls.
- Session.Session.PlayTick: its own contract states only the invariant and the game state after the tick. What each phase does is stated by the phase methods it calls, in the order the source runs them.
- Session.Session.FinishTick: its contract states only the invariant. The phases it calls state their effects.
- DelayLine.Suffix: a delay of 0 is excluded. Python's `trail[-0:]` would be the whole trail, but every clone delay is 90 * (n + 1), so the source never slices with 0.
- Session.Session.SaveBest: the stored best is an integer field. Reading and writing the database table are not modelled.
