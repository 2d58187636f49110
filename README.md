# Kana blaster: the game-state machine

A model of the browser typing game in `script.js`, with everything that draws
stripped away. Japanese kana fall down the canvas. The player types a kana's
romanised reading and presses Enter to destroy it for 10 points. A kana that falls
past the bottom edge escapes. After ten escapes the game is over until the player
presses R.

The state is the file's global variables, kept as fields of the class
`KanaGame.Game`: `score`, `escapes`, `gameOver`, `typingBuffer`, `escapedKana`,
`fallingKana`, `lastSpawnTime` and `gameMode`. Three transitions change that
state:

- `KeyDown` is the keyboard handler. Backspace drops the last character. A
  single ASCII letter is appended in lower case. Enter destroys the matching
  kana that lies lowest on screen, and clears the buffer whether or not one was
  found. While the game is over, only `r`/`R` does anything, and it restarts.
- `Tick` is the update half of one animation frame. It spawns a kana when more
  than 1000 ms have passed. A backward sweep then moves every kana and removes
  the ones past `HEIGHT + 50`, counting each as an escape. Finally it sets the
  game-over flag once there are ten escapes.
- `Reset` is the restart.

Modules:

- `KanaData` (kana.dfy) holds the syllable table, the two scripts, the `Kana`
  record, and how a kana is created and moved.
- `Targeting` (targeting.dfy) holds the Enter key's search for its target and
  the single-element `splice`.
- `EscapeSweep` (sweep.dfy) holds the reference definition of one frame's sweep
  over the list (`Survivors`, `Escapees`) and the lemmas about it.
- `KanaGame` (game.dfy) holds the class with its invariant `Valid()` and the
  methods.

The invariant `Valid()` holds between any two events. The constructor, `Reset`,
`PressEnter`, `KeyDown` and `Tick` keep it:

- the score is a non-negative multiple of 10;
- `escapes` equals the number of recorded escaped glyphs;
- `gameOver` holds exactly when `escapes >= 10`;
- the buffer holds only the letters `a` to `z`;
- every kana on screen has a typable reading and a speed of at least 1.

Random choices and the clock are parameters:

- `Tick` receives the kana's table row (`kanaIndex`), its column (`x`), its
  speed and the frame time.
- `KeyDown` receives the 20% script-switch coin flip as `switchMode` and the
  restart's script choice as `resetMode`.
- `Reset` and the constructor receive the script choice as well.

Some fixed choices of `script.js` shape the model. A kana spawns on a fixed
1000 ms period that does not depend on the score. Enter targets a kana only on
an exact match of the whole typed reading. The game ends at `MAX_ESCAPES = 10`.
A destroyed kana leaves the list at once.

## Model

| member | source | states |
|---|---|---|
| KanaData.BasicKanaReadings | script.js:37-49 | the table has 46 rows; every reading is non-empty and made only of the letters a to z; no two rows share a reading |
| KanaData.NewKana | script.js:62-70 | a new kana takes the reading of the chosen row and that row's glyph in the current script; its column and speed are the given ones and it starts at y = -50, so it cannot be targeted yet; it has a typable reading |
| KanaData.Update | script.js:72-74 | a kana moves down by exactly its speed; its reading, glyph, column and speed do not change |
| KanaData.Flip | script.js:131 | switching the script always gives the other script |
| Targeting.FindTarget | script.js:108-120 | returns -1 exactly when no kana has the typed reading and y > -1; otherwise returns the matching kana with the greatest y, the lowest index among equal y; a kana with y <= -1 is never returned |
| Targeting.TargetUnique | script.js:110-120 | at most one index satisfies the targeting rule, so Enter removes exactly one kana |
| Targeting.RemoveAt | script.js:123 | `splice(i, 1)` is one element shorter; elements before i stay, elements after i shift down by one in order; the multiset loses exactly the element at i |
| Targeting.EmptyBufferNeverMatches | script.js:114 | with an empty buffer, Enter finds no target, because every reading on screen is non-empty |
| EscapeSweep.Survivors | script.js:152-159 | the kana kept by the sweep are no more than before, and every one lies at or above the escape line `HEIGHT + 50` |
| EscapeSweep.Escapees | script.js:154-156 | the glyphs recorded, highest index first, are no more than the list is long; their meaning comes from EscapeesAppend, EscapeeMembership and SweepPartitions |
| EscapeSweep.SweepStep | script.js:152-159 | one iteration at index i: the kana at i survives (moved) ahead of the later survivors, or its glyph is recorded after the glyphs recorded from later indices |
| EscapeSweep.SweepPartitions | script.js:152-159 | every kana either survives or escapes: the survivor count plus the escape count equals the list length |
| EscapeSweep.SurvivorsAppend | script.js:152-159 | the sweep keeps relative order: the survivors of `a + b` are those of `a` followed by those of `b` |
| EscapeSweep.EscapeesAppend | script.js:152-157 | escaped glyphs are recorded from the highest index down: the escapees of `a + b` are those of `b` followed by those of `a` |
| EscapeSweep.SurvivorMembership | script.js:153-154 | a kana survives exactly when it is some kana moved by its speed that did not pass the escape line |
| EscapeSweep.EscapeeMembership | script.js:154-156 | a glyph is recorded exactly when some kana with that glyph passed the escape line on this move |
| EscapeSweep.SurvivorsOrdered | script.js:157 | the survivors are the moved list with the escaped kana left out and the rest in the same order |
| KanaGame.IsLetterKey | script.js:136 | a letter key is exactly one character, an ASCII letter of either case, and so never `Backspace` or `Enter`, which the handler tests first |
| KanaGame.LetterKeyKeepsBuffer | script.js:136-137 | appending the lower-case form of a letter key to a buffer of lower-case letters keeps it made of lower-case letters |
| KanaGame.ToLower | script.js:137 | an ASCII letter becomes the lower-case letter at the same place in the alphabet; a lower-case letter stays the same |
| KanaGame.DropLast | script.js:106 | `slice(0, -1)` drops the last character, and an empty string stays empty |
| KanaGame.Game.constructor | script.js:222-225 | the game starts in the restart state and satisfies the invariant |
| KanaGame.Game.Reset | script.js:84-93 | score, escapes and spawn time are 0; not game over; empty buffer and lists; the given script |
| KanaGame.Game.PressEnter | script.js:107-134 | the buffer is cleared. If some kana has the typed reading and y > -1, exactly the kana chosen by the targeting rule is removed, 10 is added to the score and the script flips when the coin says so. Otherwise the list, the score and the script stay unchanged. The invariant is kept |
| KanaGame.Game.KeyDown | script.js:97-139 | game over: `r`/`R` restarts and any other key changes nothing. Backspace drops the last buffer character. A letter key appends its lower-case form. Any other key except Enter leaves the buffer alone. Enter always clears the buffer. If a target exists, Enter removes exactly that kana, adds 10 to the score and applies the script coin flip; otherwise the list, the score and the script stay unchanged. While the game is running, keys never change escapes or the spawn clock, and the score grows by 0 or 10. The invariant is kept |
| KanaGame.Game.SpawnIfDue | script.js:146-149 | exactly one new kana is appended, and the spawn time set to now, only when strictly more than 1000 ms have passed; otherwise the list and the spawn time are unchanged |
| KanaGame.Game.SweepEscapes | script.js:152-159 | the backward loop leaves exactly `Survivors` of the list; it appends `Escapees` to the escaped glyphs and adds their number to `escapes` |
| KanaGame.Game.Tick | script.js:142-165 | game over: nothing changes. Otherwise: spawn if due, then sweep the (possibly extended) list; score, buffer and script are unchanged; afterwards `gameOver` holds exactly when `escapes >= 10`. The invariant is kept |

## Left out

- Canvas drawing, fonts, the background image, asset loading and
  `requestAnimationFrame` scheduling (script.js:4-10, 17-24, 167-229). These are
  rendering and browser I/O.
- The "last 10 missed" text (script.js:209). It only affects rendering.
- `Math.random` (script.js:64, 67, 69, 92, 130). Its outcomes are parameters,
  and their probabilities are not modelled.
- Floating point. Positions, speeds and frame times are integers. A speed of at
  least 1 stands in for the range [1, 2.5). The frame time is whole
  milliseconds.
- KanaData.NewKana: the column `x` is passed through, and its range
  (40 to `WIDTH - 40`) is not modelled. Neither is any upper bound on the speed.
- `SweepEscapes` runs its loop on local copies of the list, the escaped glyphs and
  the count, and writes the three fields once at the end. No other code runs
  in between, so the new state is the same as with in-place updates.
- Kana are values, not objects. `Update` replaces the element of the list
  rather than mutating a shared object. This changes nothing, because nothing
  but the list refers to a kana.
- Key values are strings compared as Unicode code points. A JavaScript string's
  `length` counts UTF-16 units instead. The two agree on every key the handler
  reacts to.
