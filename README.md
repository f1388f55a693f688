# Asteroids game-entity core in Dafny

This project models the game-entity rules of the Asteroids game and its input decoding layer:

- **The store** (`game::data`). It holds the live general entity list, the live asteroid list, and the FIFO queue of staged asteroids.
  - Producers append to the queue (`add_asteroid`) or to the entity list (`add_projectile`).
  - `tick` drains the queue into the live asteroids.
  - `kill_expired` sweeps out every entity whose tombstone is set.
- **Asteroids** carry a size tier. On a collision a tier-1 asteroid is only marked expired. A larger one stages two children one tier smaller at its position, heading along φ and φ − 180°, and is then marked expired.
- **Projectiles** are value-semantic. Copy-assignment copies the shape and ORs in the other projectile's tombstone, so it never clears its own. A projectile's tick leaves it expired when it is out of the window or has hit an asteroid. Each asteroid it hits goes through the collision step.
- **The player** keeps an 8-bit movement mask. The ten press/release calls OR a bit in or AND its complement in. A tick takes one snapshot of the mask and decides on thrust, turn and whether to shoot. Shooting obeys a cooldown.
- **Input** decoding maps keyboard scan codes to player key codes. The input processor pops codes in order, tracks whether forward and backward are held, forwards each code to the player, and stops at the end-of-input code.

## How the model is built

- The two thread-safe containers behind the store are plain sequences: a FIFO queue and an ordered vector. Their modules are not part of this model. `Containers` gives their operations as functions: `TryPop` for the queue's non-blocking pop, and `EraseIf` for the vector's erase-if.
- Asteroids are owned by a `std::unique_ptr` and projectiles by a value box, so no entity is ever shared. Both are therefore datatype values kept in the store's sequences and addressed by index.
  - `asteroid::on_collision` becomes the pure rule `OnCollision` plus the `Data` method `Data.CollideAsteroid`, which applies the rule at an index.
  - `projectile::operator=` becomes the pure function `Assign` on two projectile values.
  - `projectile::tick` becomes the `Data` method `Data.TickProjectile`, which updates the projectile at an index. Its asteroid sweep is `Data.CollideAll`.
- `game::data`, `game::player` and `input_processor` update their fields in place, so each is a class.
- Randomness, clocks and floating-point physics become parameters supplied by the caller:
  - the random phase angle, as whole degrees;
  - the steady-clock reading, as an integer `now`;
  - the projectile's per-tick displacement and radius, and the per-asteroid result of the projectile's hit test;
  - the player's "below 95% of max speed" and "is moving" tests, and the muzzle point.
- The store's general entity list holds projectiles only. `add_projectile` is the only place in the modelled code that adds to it.
- The `move_state` bit values are taken as 1, 2, 4, 8 and 16 for forward, backward, left, right and shoot. Their declaration is not part of this model. Every property is stated through `Bit`, and only distinctness and single-bit shape are used.
- The values of `time_between_shots` and `turn_angle` are declared outside the modelled file. The model takes them as constructor constants of `Player`.
- `data::for_all_asteroids`, which the projectile's sweep calls (line 69), is defined outside the modelled file. The model takes it to visit every live asteroid once, in list order, without skipping expired ones (`Data.CollideAll`).
- The projectile and asteroid constructors used at line 331 and lines 148-149 are defined outside the modelled file. `NewProjectile` and `OnCollision` take them to store the given position and rotation (for an asteroid, its position, heading and size) and to start with a clear tombstone.

### Notes on the code

- `m_size` is only read. Every split creates new asteroids of `size - 1`.
- Only asteroids are staged. `add_projectile` (line 331) appends straight to the live entity list.
- When contradictory intents are held together, the tick resolves them: forward wins over backward, and left wins over right (`Plan`).
- The frame loop queues decoded key presses and, when the window closes, `eof` (Main.cpp:157, 162). The pushes of the release codes are commented out (Main.cpp:166, 169). So once forward or backward is held in the input processor it stays held (`PressesNeverRelease`). The two `if` blocks that read those flags have empty bodies.
- Neither the collision lambda of the projectile's tick (lines 62-68) nor `on_collision` checks whether an asteroid is already expired. An asteroid struck earlier in the frame stays in the live list until the next sweep. Under the assumption above about `for_all_asteroids`, a second hit therefore splits it again (`StruckSplitsAgain`, `StruckTwiceBeforeSweep`).
- `projectile::operator=` (lines 36-40) copies only the shape and the flag, not `m_vel`, which `projectile::tick` moves the shape by (line 51). So an assigned projectile takes the other's position and rotation but keeps its own velocity. The model's projectiles carry no velocity: `Data.TickProjectile` takes the displacement as its `offset` parameter, so this difference is not visible in the model.
- The player's tick turns by `-turn_angle` on left (`TurnBy`). The input processor forwards left as `rotate(10)`, a positive angle (`Forwarded`). Both are modelled as written.

## Model

| member | source | states |
|---|---|---|
| `Containers.TryPop` | Asteroids/game_entites_impl.cpp:433 | the pop yields nothing exactly on an empty queue; otherwise the front element, with the remainder such that front + remainder is the old queue |
| `Containers.PushThenPop` | Asteroids/game_entites_impl.cpp:431-436 | pushing at the back and popping at the front is first-in first-out |
| `Containers.EraseIf` | Asteroids/game_entites_impl.cpp:374-381 | erase-if never grows the list, and every survivor was in the list and is not selected |
| `Containers.EraseIfMultiplicity` | Asteroids/game_entites_impl.cpp:374-381 | every selected element is gone, and every other element keeps exactly its multiplicity |
| `Containers.EraseIfKeeps` | Asteroids/game_entites_impl.cpp:374-381 | every unselected element survives |
| `Containers.EraseIfLength` | Asteroids/game_entites_impl.cpp:374-381 | the survivors number the old length minus the selected count |
| `Containers.EraseIfAppend` | Asteroids/game_entites_impl.cpp:374-381 | erase-if distributes over concatenation, so survivors keep their relative order |
| `Containers.EraseIfNothingDoomed` | Asteroids/game_entites_impl.cpp:374-381 | with nothing expired, the sweep leaves the list unchanged |
| `Containers.EraseIfIdempotent` | Asteroids/game_entites_impl.cpp:374-381 | sweeping twice equals sweeping once |
| `Geometry.ShapeWithinBounds` | Asteroids/game_entites_impl.cpp:26-32 | inside exactly when r ≤ x ≤ max_x − r and r ≤ y ≤ max_y − r, so touching an edge counts as inside |
| `Geometry.FitsSomewhere` | Asteroids/game_entites_impl.cpp:26-32 | some position is within bounds exactly when the diameter fits both window extents |
| `Geometry.CentreWithinWindow` | Asteroids/game_entites_impl.cpp:26-32 | an in-bounds circle of non-negative radius has its centre in the closed window rectangle |
| `GameEntities.NewProjectile` | Asteroids/game_entites_impl.cpp:330-332 | a new projectile has the given position and rotation, and a clear tombstone |
| `GameEntities.Assign` | Asteroids/game_entites_impl.cpp:36-40 | copy-assignment copies the shape; afterwards expired ⇔ old expired ∨ other expired, so the flag is never cleared |
| `GameEntities.AssignSelf` | Asteroids/game_entites_impl.cpp:36-40 | self-assignment leaves a projectile unchanged |
| `GameEntities.OnCollision` | Asteroids/game_entites_impl.cpp:135-154 | the asteroid ends expired with its position, heading and tier kept; nothing is staged iff tier 1; otherwise exactly two children, heading φ then φ − 180, each shares the parent's position, has tier − 1 and is unexpired |
| `GameEntities.ChildrenOpposite` | Asteroids/game_entites_impl.cpp:145-149 | the two children's headings differ by exactly 180 degrees |
| `GameEntities.ChildrenSmaller` | Asteroids/game_entites_impl.cpp:138-149 | from a tier ≥ 1 parent, children have tier ≥ 1 and strictly smaller, so splitting terminates |
| `GameEntities.StruckSplitsAgain` | Asteroids/game_entites_impl.cpp:135-154 | the rule does not look at the expired flag: an already struck asteroid of tier > 1 stages two more children |
| `GameEntities.SplitTreeSizeIsPow2` | Asteroids/game_entites_impl.cpp:135-154 | the split tree of a tier-n asteroid has 2^n − 1 asteroids, so clearing takes 2^n − 1 hits when each is hit exactly once and none leaves the screen |
| `GameEntities.SplitTreeSizeFollowsSplit` | Asteroids/game_entites_impl.cpp:135-154 | the tree size follows the split rule: the asteroid plus the trees of its two staged children |
| `GameData.StagedBy` | Asteroids/game_entites_impl.cpp:62-69 | every asteroid a projectile's sweep stages is unexpired |
| `GameData.StagedByLength` | Asteroids/game_entites_impl.cpp:62-69 | a sweep stages exactly two asteroids per hit on a tier > 1 asteroid, and none per tier-1 hit |
| `GameData.MarkHit` | Asteroids/game_entites_impl.cpp:62-69 | the sweep's flagging of hit asteroids keeps the live list's length |
| `GameData.MarkHitFlagsExactlyHits` | Asteroids/game_entites_impl.cpp:62-69 | among the first `upto` asteroids exactly the hit ones become expired, besides those already expired; position, heading and tier are kept |
| `GameData.MarkHitNeverClears` | Asteroids/game_entites_impl.cpp:62-69 | flagging the hit asteroids never clears a tombstone |
| `GameData.StagedByNoHits` | Asteroids/game_entites_impl.cpp:62-69 | a sweep with no hit stages nothing |
| `GameData.Data.NumEntities` | Asteroids/game_entites_impl.cpp:400-402 | the count is the sum of the two live list lengths; staged asteroids are not counted (see the count clauses of AddProjectile, AddAsteroid, Tick and KillExpired) |
| `GameData.Data.AddProjectile` | Asteroids/game_entites_impl.cpp:330-332 | appends one new unexpired projectile to the entity list; the asteroid list and queue are unchanged; the count grows by one |
| `GameData.Data.AddAsteroid` | Asteroids/game_entites_impl.cpp:370-372 | pushes the asteroid at the back of the staging queue; both live lists and the count are unchanged |
| `GameData.Data.Tick` | Asteroids/game_entites_impl.cpp:431-436 | live asteroids become old live + old queue (every staged asteroid once, in FIFO order); the queue ends empty; the entity list is untouched; the count grows by the old queue length |
| `GameData.Data.KillExpired` | Asteroids/game_entites_impl.cpp:374-381 | both live lists become their erase-if by tombstone; the queue is untouched; `num_entities` (lines 400-402) drops by exactly the number of expired entries |
| `GameData.Data.CollideAsteroid` | Asteroids/game_entites_impl.cpp:135-154 | the asteroid at the index is replaced by its struck (expired) form; the queue grows by exactly its staged children, in order; for tier 1 it is unchanged |
| `GameData.Data.CollideAll` | Asteroids/game_entites_impl.cpp:62-69 | iterating the live asteroids only flags the hit ones (the list keeps its length and order); their children go to the queue in list order; the result says whether anything was hit |
| `GameData.Data.TickProjectile` | Asteroids/game_entites_impl.cpp:50-70 | the projectile moves by the offset; out of bounds it expires and nothing else changes; otherwise the sweep runs, and it ends expired iff it was expired already or hit something; its tombstone is never cleared; other entities are untouched |
| `GameData.StagedBecomesLiveAfterOneTick` | Asteroids/game_entites_impl.cpp:370-381 | a staged asteroid is not live after a sweep with no tick, and is live exactly once after one tick |
| `GameData.StruckTwiceBeforeSweep` | Asteroids/game_entites_impl.cpp:135-154 | striking the same live tier-2 asteroid twice before a sweep stages four children |
| `GameData.StageAllThenDrain` | Asteroids/game_entites_impl.cpp:431-436 | staging any number of asteroids and draining once yields exactly them, in order, with none lost or duplicated |
| `GamePlayer.Bit` | Asteroids/game_entites_impl.cpp:285-292 | each intent is a single non-zero bit |
| `GamePlayer.BitsDisjoint` | Asteroids/game_entites_impl.cpp:285-292 | distinct intents have disjoint bits |
| `GamePlayer.SetBits` | Asteroids/game_entites_impl.cpp:285-287 | after the OR, the given bits are set and every other bit is unchanged |
| `GamePlayer.ClearBits` | Asteroids/game_entites_impl.cpp:288-292 | after the AND with the 8-bit complement, the given bits are clear and every other bit is unchanged |
| `GamePlayer.SetIntent` | Asteroids/game_entites_impl.cpp:285-287 | setting an intent makes it hold and leaves every other intent as it was |
| `GamePlayer.ClearIntent` | Asteroids/game_entites_impl.cpp:288-292 | clearing an intent makes it not hold and leaves every other intent as it was |
| `GamePlayer.SetClearIdempotent` | Asteroids/game_entites_impl.cpp:285-292 | set and clear are idempotent, and clear undoes a set of a previously clear bit |
| `GamePlayer.Plan` | Asteroids/game_entites_impl.cpp:218-243 | accelerate iff forward and under max speed; reverse iff backward, not forward and under max speed; damp iff moving and neither applies; left iff left bit; right iff right and not left; shoot attempted iff shoot bit |
| `GamePlayer.MayShoot` | Asteroids/game_entites_impl.cpp:200-202 | a shot is allowed iff at least the cooldown has elapsed since the last shot |
| `GamePlayer.Fired` | Asteroids/game_entites_impl.cpp:200-206 | the shots fired from a run of attempts are among the attempts, and no more numerous; which attempts fire is pinned down by FiredWhenAllowed and FiredWhenBlocked |
| `GamePlayer.FiredSpaced` | Asteroids/game_entites_impl.cpp:200-206 | fired shots are at least the cooldown apart, the first one from the previous last shot |
| `GamePlayer.FiredWhenAllowed` | Asteroids/game_entites_impl.cpp:202-205 | an attempt at least the cooldown after the last shot fires, and later attempts are judged from it |
| `GamePlayer.FiredWhenBlocked` | Asteroids/game_entites_impl.cpp:202 | an attempt within the cooldown does not fire and leaves the last shot as it was |
| `GamePlayer.FiredSnoc` | Asteroids/game_entites_impl.cpp:200-206 | one more attempt fires exactly when the cooldown has passed since the last shot of the earlier attempts, and then becomes the last shot |
| `GamePlayer.TurnBy` | Asteroids/game_entites_impl.cpp:233-238 | the turn is by the whole angle or none; straight does not turn; for a positive angle the heading decreases exactly on a left turn and increases exactly on a right turn |
| `GamePlayer.Player.Set` | Asteroids/game_entites_impl.cpp:285-287 | the mask becomes SetBits of the old mask and the intent's bit |
| `GamePlayer.Player.Clear` | Asteroids/game_entites_impl.cpp:288-292 | the mask becomes ClearBits of the old mask and the intent's bit |
| `GamePlayer.Player.ForwardDown` | Asteroids/game_entites_impl.cpp:294-296 | sets the forward bit |
| `GamePlayer.Player.ForwardUp` | Asteroids/game_entites_impl.cpp:297-299 | clears the forward bit |
| `GamePlayer.Player.BackwardDown` | Asteroids/game_entites_impl.cpp:301-303 | sets the backward bit |
| `GamePlayer.Player.BackwardUp` | Asteroids/game_entites_impl.cpp:304-306 | clears the backward bit |
| `GamePlayer.Player.LeftDown` | Asteroids/game_entites_impl.cpp:308-310 | sets the left bit |
| `GamePlayer.Player.LeftUp` | Asteroids/game_entites_impl.cpp:311-313 | clears the left bit |
| `GamePlayer.Player.RightDown` | Asteroids/game_entites_impl.cpp:314-316 | sets the right bit |
| `GamePlayer.Player.RightUp` | Asteroids/game_entites_impl.cpp:317-319 | clears the right bit |
| `GamePlayer.Player.ShootDown` | Asteroids/game_entites_impl.cpp:320-322 | sets the shoot bit |
| `GamePlayer.Player.ShootUp` | Asteroids/game_entites_impl.cpp:323-325 | clears the shoot bit |
| `GamePlayer.Player.Shoot` | Asteroids/game_entites_impl.cpp:200-206 | fires iff the cooldown has elapsed; a shot sets the last-shot time to now and appends one projectile at the muzzle and heading; otherwise nothing changes |
| `GamePlayer.Player.ShootEach` | Asteroids/game_entites_impl.cpp:200-206 | repeated shoot calls append exactly one projectile per attempt that Fired selects, and leave the last-shot time at the last of them |
| `GamePlayer.Player.Tick` | Asteroids/game_entites_impl.cpp:208-243 | follows Plan on one mask snapshot; turns the heading by the plan's turn; attempts a shot after the turn only when the shoot bit is set, with the cooldown deciding |
| `Input.MapPlayerInput` | Asteroids/Main.cpp:34-53 | W/Up ⇔ forward_pressed, S/Down ⇔ backward_pressed, A/Left ⇔ left, D/Right ⇔ right, Space ⇔ shoot, any other key ⇔ none; never eof or a release code |
| `Input.MapAll` | Asteroids/Main.cpp:161-163 | the queued codes are the key presses decoded one by one |
| `Input.Apply` | Asteroids/Main.cpp:84-106 | a forward code only touches the forward flag, a backward code only the backward flag; presses set them and releases clear them; every other code changes neither |
| `Input.LastCodeWins` | Asteroids/Main.cpp:84-97 | after a run of codes, each flag is decided by the last code for its direction, or keeps its value if there is none |
| `Input.PressesNeverRelease` | Asteroids/Main.cpp:161-170 | applying decoded key presses never clears either flag |
| `Input.Forwarded` | Asteroids/Main.cpp:81-107 | only eof stops; the press codes move (forward positive); left/right rotate (left positive); shoot fires; none and the release codes call nothing |
| `Input.InputProcessor.constructor` | Asteroids/Main.cpp:65-66 | both held flags start clear |
| `Input.InputProcessor.Step` | Asteroids/Main.cpp:81-107 | returns the forwarded call for the code, and the flags become Apply of the old flags and the code |
| `Input.InputProcessor.Run` | Asteroids/Main.cpp:76-117 | handles codes in order up to and including the first eof (or all of them if there is none); stops iff there is an eof; the calls made and the flags follow from the popped codes |

## Left out

- The locks, condition variable, atomics' memory orders and threads (`std::jthread`, stop tokens). The blocking `wait_pop` is replaced by processing a given sequence of codes. `Input.InputProcessor.Run` ignores the stop token and ends when the codes run out.
- The internals of the thread-safe queue and vector. They are not part of this model and appear only as sequences.
- The window wrappers and the store's draw/display/clear/poll/open/close calls. They are rendering and windowing.
- Floating-point physics: velocity, acceleration, `rotatedBy`, `angle()`, the player's speed test and edge handling, and its nudge towards the centre. The asteroid's own tick and its 10% off-screen cull are out too, as are `projectile::is_collided`, `get_radius` and `get_start_vel`. Their results enter the model as parameters.
- `data::add_asteroid()` without arguments. It places a tier-3 asteroid at a random edge position using the shared generator and float math.
- `data::tick_entities`, which runs every entity's tick. Only the projectile tick is modelled.
- `player::create_player`, `rotate`, `set_position` and `move`. These are constant shape data or SFML calls, and `move` is not in the modelled file.
- The input processor's calls on the player are returned as a `Command` instead of being executed.
- `todo_reminder.h`, which holds only preprocessor macros.
- Geometry.ShapeWithinBounds: uses exact reals, not 32-bit floats, and does not model rounding.
- GamePlayer.Player.Shoot: takes one clock reading `now` for both clock calls in the source. The second call could read a slightly later time.
- GamePlayer.Player.Shoot: the source keeps the last-shot time in a function-static variable shared by all players. Here it is a field of the one player the game creates.
- GamePlayer.Player.Tick: its heading is an unbounded real, so SFML's wrapping of angles into [0, 360) is not modelled. Acceleration, velocity and position updates are left out.
- GameEntities.SplitTreeSizeIsPow2: counts the asteroids of one split tree. It is not a promise about how many hits clear an asteroid in the game, since a struck asteroid can be split again before the sweep and the off-screen cull expires fragments without a hit.
- The "Collision detected" console message printed at each hit (game_entites_impl.cpp:64) and the entity count printed every frame (Main.cpp:191). Both are console output only.
- GameData.Data.TickProjectile: marks the projectile expired once after the asteroid sweep if anything was hit. The source sets the flag at each hit. Nothing reads the flag in between, and setting it again changes nothing, so the result is the same.
