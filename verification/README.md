# Marble-drawing game engine in Dafny

This project models the game engine of a small p5.js sketch, `sketch.js`.
In the game the player chooses one of two sampling experiments:

- **Game 1** draws without replacement: 6 red and 19 blue marbles, 5 draws,
  and 2 to 5 reds win.
- **Game 2** draws with replacement: 12 red and 18 blue marbles, 10 draws,
  and 3 to 8 reds win.

The player pulls marbles one at a time. After each pull the game checks
whether it is over and, when it is, whether the player won.

The sketch keeps its state in global variables. The model makes them the
fields of one immutable `Game.State`:

- the screen (`Phase`: `MENU`, `GAME1_NO_REPLACEMENT`, `GAME2_WITH_REPLACEMENT`,
  `GAME_OVER`);
- the preset (`Config`: replacement mode, original marbles, draw budget, win
  range);
- the bag, `drawsMade`, `redMarblesPulled`;
- the last pulled colour (`Pulled`);
- the outcome message (`Outcome`). It is recorded by kind (`Win`,
  `Lose(reason)`, `BagEmptied(won)`), not as text.

Each handler of the sketch is a pure function from the old state to the new
one. Every random number the sketch draws is a parameter with the bounds
p5's `random` guarantees:

- the Fisher–Yates swap indices `js[i] <= i`;
- the index of the pulled marble, below the size of the bag it is drawn from.

A click is an `Event`: the button it landed on, plus the random numbers its
handler consumes.

Modules:

- `Marbles` (marbles.dfy): colours, building the preset bags, the shuffle
  (`resetBag`), and `splice`.
- `Game` (game.dfy): the state, the presets, `resetGame`, `pullMarble`,
  `checkGameEndCondition`, and `mousePressed` (`Step`, and `Run` for a
  sequence of clicks). `CanPull` is the single "can pull now" condition. It
  is the negation of the early return in `pullMarble` and, on the game
  screens, of the pull button's disabled flag.
- `GameProperties` (properties.dfy): the invariant every reachable state
  keeps, and the proof that Game 1 can be won.
- `AsWritten` (as_written.dfy): `pullMarble` exactly as spelt, with the
  misspelt variable (see Findings).

Three facts about the sketch shape the model:

- A pull without replacement uses `splice`, so the remaining marbles keep
  their order.
- "Play Again" only returns to the menu and clears the message. The bag and
  counters stay until the next game is chosen, which resets them.
- The sketch has four screens: `MENU`, `GAME1_NO_REPLACEMENT`,
  `GAME2_WITH_REPLACEMENT` and `GAME_OVER`.

The globals the sketch leaves `undefined` until a game is chosen are 0 or
empty in `Game.Initial`. Nothing reads them on the menu screen.

## Model

| member | source | states |
|---|---|---|
| Game.Initial | sketch.js:7-15 | the sketch starts on the menu with nothing chosen: no preset, an empty bag, zero counters, no pulled colour, no message; `GameProperties.InitialInv` proves it satisfies the invariant |
| Game.CanPull | sketch.js:248 | the single "can pull now" condition, the negation of `pullMarble`'s early return; `Game.PullMarble` states that a pull changes nothing when it fails and counts one draw when it succeeds on a non-empty preset, and `GameProperties.InvConsequences` that it holds throughout every game |
| Game.PullButtonDisabled | sketch.js:328-333 | the pull button's grey-out flag: set only on the game screens, as the negation of `CanPull`; `GameProperties.InvConsequences` proves it is never set in a reachable game |
| Marbles.Fill | sketch.js:115-117 | the preset bag holds exactly the requested numbers of red and blue marbles |
| Marbles.ShuffleDown | sketch.js:300-303 | the Fisher–Yates loop keeps the length and the multiset of the bag and never touches positions above the loop start |
| Marbles.Shuffle | sketch.js:295-303 | `resetBag` returns a permutation of the original marbles, for all swap indices with `j <= i` |
| Marbles.ShuffleReachesEveryOrder | sketch.js:297-303 | every ordering of the original marbles is produced by some admissible swap indices |
| Marbles.RemoveAt | sketch.js:277 | `splice(idx, 1)` removes exactly the marble at `idx`, shortens the bag by one and keeps the others in order |
| Game.ResetGame | sketch.js:141-152 | counters are zero, message and pulled colour are cleared, and the bag is a permutation of the original |
| Game.SetupGame1 | sketch.js:107-121 | no replacement, 5 draws, win range 2 to 5, 6 red + 19 blue, fresh counters, pulling enabled; a loss is phrased "at least 2" |
| Game.SetupGame2 | sketch.js:123-137 | with replacement, 10 draws, win range 3 to 8, 12 red + 18 blue, fresh counters, pulling enabled; a loss is phrased "between 3 and 8" |
| Game.PullMarble | sketch.js:245-289 | disabled pulls change nothing; an empty original bag changes only the shown colour; otherwise one draw is counted and one red exactly when the marble is red; with replacement the bag stays (or is refilled to a permutation of the original); without replacement exactly the marble at the index leaves |
| Game.LoseReasonFor | sketch.js:164-173 | the losing suffix is chosen by the ordered tests (exact, at least, between, generic), each stated as a condition on the win range; "exact" and "at least" describe the win range truthfully |
| Game.CheckGameEndCondition | sketch.js:154-186 | once draws are used up the game is over and won iff the red count is in range; the bag-empty ending happens only without replacement with draws left; otherwise nothing changes; only the screen and message change |
| Game.Step | sketch.js:82-103 | clicks act only on the screen that shows their button; choosing a game starts it fresh; a pull counts at most one draw and moves to GAME_OVER exactly when an ending applies; Play Again goes to the menu and clears the message; the screen only moves along the allowed transitions |
| GameProperties.PullKeepsBag | sketch.js:269-286 | a pull keeps the bag bookkeeping: without replacement the bag is the original minus the marbles drawn and the reds drawn are the reds missing from it |
| GameProperties.EndIsByDraws | sketch.js:175-185 | with the presets the bag-empty ending never applies: a game ends by exhausting its draws |
| GameProperties.StepKeepsInv | sketch.js:82-103 | every click preserves the invariant: `redMarblesPulled <= drawsMade <= maxDraws`, the bag is a sub-multiset of the original (the whole of it with replacement), and the screen agrees with the message |
| GameProperties.Reachable | sketch.js:62-103 | every state reachable from the start of the sketch satisfies the invariant |
| GameProperties.InvConsequences | sketch.js:328-333 | in an invariant state the counters stay in bounds, no bag-empty outcome exists, and the pull button is never greyed out during a game |
| GameProperties.Game1BagNeverEmpty | sketch.js:107-121 | in Game 1 at least 20 marbles stay in the bag |
| GameProperties.Game1Winnable | sketch.js:154-160 | from the menu some sequence of clicks (choose Game 1, pull two reds, pull three more) ends in a win |
| AsWritten.PullMarbleAsWritten | sketch.js:270-286 | the pull as spelt differs from the intended one only without replacement, where the colour becomes undefined and no red is counted |
| AsWritten.StepAsWritten | sketch.js:91-95 | `mousePressed` with the misspelt pull: it differs from `Game.Step` only for a pull on a game screen, and the screen still moves only along the allowed transitions |
| AsWritten.RedNotCounted | sketch.js:277-285 | a red marble spliced from the bag is counted by the intended pull and not by the as-written one |
| AsWritten.Game1NeverWonAsWritten | sketch.js:107-121 | as written, after any run of clicks from the start, Game 2 included, a state whose preset is Game 1 has a red count of 0 and is not won |

## Findings

| source | as written | input that shows it | evidently intended | confidence | as-written member | corrected member |
|---|---|---|---|---|---|---|
| sketch.js:270-278 | the spliced marble is assigned to an undeclared `pulpledMarble`; `pulledMarbleColor` then reads the declared `pulledMarble`, which is `undefined` | Game 1, any pull whose index holds a red marble: `redMarblesPulled` stays unchanged, so it is 0 after five pulls and Game 1 (at least 2 reds) is always lost | the colour is the spliced marble's, as the comment on that line says | high (not executed) | AsWritten.Game1NeverWonAsWritten | GameProperties.Game1Winnable |

`Game.PullMarble` uses the spliced marble's colour, and the rest of the model
builds on it. `AsWritten.PullMarbleAsWritten` keeps the misspelling for
comparison.

## Left out

- Rendering (`draw`, `drawMenuScreen`, `drawGameScreen`, `drawGameOverScreen`,
  `drawButton`, `drawMarbleCircle`, layout constants): canvas output, not game
  logic. In the code as written, the undefined colour would also reach
  `drawMarbleCircle`, which calls `toLowerCase` on it. That is a rendering
  effect and is not modelled.
- `preload` and `setup`: asset loading and canvas creation.
- Mouse hit-testing (`isMouseOver`, the canvas bounds check in `mousePressed`):
  replaced by the `Event` datatype. A click on no button is a no-op, the same
  as an event whose button is not on the current screen.
- Randomness: p5's `random` is replaced by parameters. The model proves the
  bounds, that the shuffle is a permutation, and that every ordering is
  reachable. It does not prove that the shuffle is uniform.
- Logging and label text (`console.log`, `updateUI`, `bagStatusText`,
  `pulledMarbleStatusText`, the outcome message strings): presentation only.
  The outcome is kept as a datatype.
- JavaScript semantics of the misspelling (an implicit global in sloppy mode,
  `undefined`): only the effect on the pulled colour and the red count is
  modelled.
