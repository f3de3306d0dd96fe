/**
  The marble-drawing game engine as a pure state machine.

  The sketch keeps its state in module-level variables; here they are the
  fields of one immutable `State` value, and each handler is a function from
  the old state to the new one. Every random number the sketch draws is a
  parameter: the swap indices of a shuffle and the index of the marble
  pulled. Which button a click landed on is the `Event` itself.
 */
module Game {
  import opened Marbles

  /** `currentGameState`. */
  datatype Phase = Menu | Game1NoReplacement | Game2WithReplacement | GameOver
  {
    /** The two phases that show the game screen and its pull button. */
    predicate InGame()
    {
      this == Game1NoReplacement || this == Game2WithReplacement
    }
  }

  /**
    The settings a game preset fixes: `withReplacementMode`,
    `originalMarbles`, `maxDraws`, `minRedToWin` and `maxRedToWin`.
   */
  datatype Config = Config(
    withReplacement: bool,
    original: Bag,
    maxDraws: int,
    minRedToWin: int,
    maxRedToWin: int)

  /** Before any game is chosen; the sketch leaves these globals undefined. */
  const InitialConfig: Config := Config(false, [], 0, 0, 0)

  /** Game 1: 6 red and 19 blue, no replacement, 5 draws, 2 to 5 reds win. */
  const Game1Config: Config := Config(false, Fill(6, 19), 5, 2, 5)

  /** Game 2: 12 red and 18 blue, with replacement, 10 draws, 3 to 8 reds win. */
  const Game2Config: Config := Config(true, Fill(12, 18), 10, 3, 8)

  /**
    `pulledMarbleColor`: "None" before the first pull, the colour of the last
    marble pulled, or "Empty" after the empty-original-bag error. `Undefined`
    is the value the misspelt assignment of the no-replacement branch leaves
    behind; only the as-written variant of a pull produces it.
   */
  datatype Pulled = NonePulled | Drawn(color: Color) | OriginalEmpty | Undefined

  /** Which "Needed ..." suffix a losing message carries. */
  datatype LoseReason = NeededExactly | NeededAtLeast | NeededBetween | ConditionNotMet

  /** `gameOutcomeMessage`, by kind rather than by text; `Pending` is the empty message. */
  datatype Outcome = Pending | Win | Lose(reason: LoseReason) | BagEmptied(won: bool)

  /** Every variable of the sketch that the game logic reads or writes. */
  datatype State = State(
    phase: Phase,
    cfg: Config,
    bag: Bag,
    drawsMade: nat,
    redPulled: nat,
    pulled: Pulled,
    outcome: Outcome)

  /** The sketch right after `setup()`: the menu, nothing chosen yet. */
  const Initial: State := State(Menu, InitialConfig, [], 0, 0, NonePulled, Pending)

  /**
    Pulling is possible: draws remain and, without replacement, the bag is
    not empty. This is the negation of the early return at the top of
    `pullMarble` and, in the game phases, of the pull button's disabled flag.
   */
  predicate CanPull(st: State)
  {
    st.drawsMade < st.cfg.maxDraws && (st.cfg.withReplacement || |st.bag| > 0)
  }

  /** The button's grey-out condition: only the game phases ever disable it. */
  predicate PullButtonDisabled(st: State)
  {
    st.phase.InGame() && !CanPull(st)
  }

  /** A red count that wins under `cfg`. */
  predicate InWinRange(cfg: Config, red: int)
  {
    cfg.minRedToWin <= red <= cfg.maxRedToWin
  }

  /**
    `resetGame`: zero the counters, clear the message and the pulled colour,
    and fill the bag with a shuffled copy of the original marbles.
   */
  function ResetGame(st: State, js: seq<nat>): (r: State)
    requires ValidSwaps(js, |st.cfg.original|)
    ensures r.phase == st.phase && r.cfg == st.cfg
    ensures r.drawsMade == 0 && r.redPulled == 0
    ensures r.outcome == Pending && r.pulled == NonePulled
    ensures |r.bag| == |st.cfg.original|
    ensures multiset(r.bag) == multiset(st.cfg.original)
  {
    st.(bag := Shuffle(st.cfg.original, js), drawsMade := 0, redPulled := 0,
        outcome := Pending, pulled := NonePulled)
  }

  /** `setupGame1NoReplacement`. */
  function SetupGame1(st: State, js: seq<nat>): (r: State)
    requires ValidSwaps(js, 25)
    ensures r.phase == Game1NoReplacement && !r.cfg.withReplacement
    ensures r.cfg.maxDraws == 5 && r.cfg.minRedToWin == 2 && r.cfg.maxRedToWin == 5
    ensures |r.cfg.original| == 25
    ensures RedCount(r.cfg.original) == 6 && multiset(r.cfg.original)[Blue] == 19
    ensures multiset(r.bag) == multiset(r.cfg.original)
    ensures r.drawsMade == 0 && r.redPulled == 0
    ensures r.outcome == Pending && r.pulled == NonePulled
    ensures CanPull(r)
    // A lost Game 1 reads "Needed at least 2".
    ensures LoseReasonFor(r.cfg) == NeededAtLeast
  {
    ResetGame(st.(phase := Game1NoReplacement, cfg := Game1Config), js)
  }

  /** `setupGame2WithReplacement`. */
  function SetupGame2(st: State, js: seq<nat>): (r: State)
    requires ValidSwaps(js, 30)
    ensures r.phase == Game2WithReplacement && r.cfg.withReplacement
    ensures r.cfg.maxDraws == 10 && r.cfg.minRedToWin == 3 && r.cfg.maxRedToWin == 8
    ensures |r.cfg.original| == 30
    ensures RedCount(r.cfg.original) == 12 && multiset(r.cfg.original)[Blue] == 18
    ensures multiset(r.bag) == multiset(r.cfg.original)
    ensures r.drawsMade == 0 && r.redPulled == 0
    ensures r.outcome == Pending && r.pulled == NonePulled
    ensures CanPull(r)
    // A lost Game 2 reads "Needed between 3 and 8".
    ensures LoseReasonFor(r.cfg) == NeededBetween
  {
    ResetGame(st.(phase := Game2WithReplacement, cfg := Game2Config), js)
  }

  /** With replacement, an emptied bag is refilled before the draw. */
  predicate NeedsRefill(st: State)
  {
    |st.bag| == 0 && st.cfg.withReplacement && |st.cfg.original| > 0
  }

  /** How many marbles the pull chooses among, after any refill. */
  function PoolSize(st: State): nat
  {
    if NeedsRefill(st) then |st.cfg.original| else |st.bag|
  }

  /**
    The random numbers one pull consumes are in range: the refill shuffle's
    swap indices when a refill happens, and `floor(random(n))` for the
    marble index when a marble is drawn.
   */
  predicate PullChoicesOk(st: State, idx: nat, refill: seq<nat>)
  {
    && (CanPull(st) && NeedsRefill(st) ==> ValidSwaps(refill, |st.cfg.original|))
    && (CanPull(st) && |st.cfg.original| > 0 ==> idx < PoolSize(st))
  }

  /**
    `pullMarble`, with the pulled marble taken from the spliced element in
    the no-replacement branch (what the comment at that line says it does).
   */
  function PullMarble(st: State, idx: nat, refill: seq<nat>): (r: State)
    requires PullChoicesOk(st, idx, refill)
    // Disabled pulls change nothing.
    ensures !CanPull(st) ==> r == st
    // An empty original bag is reported and changes nothing else.
    ensures CanPull(st) && |st.cfg.original| == 0 ==> r == st.(pulled := OriginalEmpty)
    ensures r.phase == st.phase && r.cfg == st.cfg && r.outcome == st.outcome
    // A successful pull counts one draw, and one red exactly when the marble is red.
    ensures CanPull(st) && |st.cfg.original| > 0 ==>
              && r.drawsMade == st.drawsMade + 1
              && r.pulled.Drawn?
              && r.redPulled == st.redPulled + (if r.pulled.color == Red then 1 else 0)
    // With replacement the marble goes back: the bag is the one drawn from,
    // a permutation of the original when it had to be refilled.
    ensures CanPull(st) && |st.cfg.original| > 0 && st.cfg.withReplacement ==>
              && idx < |r.bag|
              && r.pulled == Drawn(r.bag[idx])
              && (|st.bag| > 0 ==> r.bag == st.bag)
              && (|st.bag| == 0 ==> multiset(r.bag) == multiset(st.cfg.original))
    // Without replacement exactly the marble at `idx` leaves the bag and
    // the rest keep their order.
    ensures CanPull(st) && |st.cfg.original| > 0 && !st.cfg.withReplacement ==>
              && idx < |st.bag|
              && r.pulled == Drawn(st.bag[idx])
              && |r.bag| == |st.bag| - 1
              && multiset(r.bag) + multiset{st.bag[idx]} == multiset(st.bag)
              && (forall k | 0 <= k < idx :: r.bag[k] == st.bag[k])
              && (forall k | idx <= k < |r.bag| :: r.bag[k] == st.bag[k + 1])
  {
    if !CanPull(st) then st
    else
      var bag := if NeedsRefill(st) then Shuffle(st.cfg.original, refill) else st.bag;
      if |st.cfg.original| == 0 then st.(pulled := OriginalEmpty)
      else if st.cfg.withReplacement then
        var c := bag[idx];
        st.(bag := bag, pulled := Drawn(c), drawsMade := st.drawsMade + 1,
            redPulled := st.redPulled + (if c == Red then 1 else 0))
      else
        var c := bag[idx];
        st.(bag := RemoveAt(bag, idx), pulled := Drawn(c), drawsMade := st.drawsMade + 1,
            redPulled := st.redPulled + (if c == Red then 1 else 0))
  }

  /**
    The "Needed ..." suffix of a losing message; the tests are tried in the
    source's order, so each reason also excludes the ones before it.
   */
  function LoseReasonFor(cfg: Config): (reason: LoseReason)
    ensures reason == NeededExactly <==> cfg.minRedToWin == cfg.maxRedToWin
    ensures reason == NeededAtLeast <==>
              cfg.minRedToWin != cfg.maxRedToWin && cfg.maxRedToWin >= cfg.maxDraws && cfg.minRedToWin > 0
    ensures reason == NeededBetween <==>
              cfg.minRedToWin != cfg.maxRedToWin && cfg.maxRedToWin < cfg.maxDraws && cfg.minRedToWin > 0
    ensures reason == ConditionNotMet <==>
              cfg.minRedToWin != cfg.maxRedToWin && cfg.minRedToWin <= 0
    // The phrasing is truthful about every red count a game can reach.
    ensures reason == NeededExactly ==>
              forall red :: InWinRange(cfg, red) <==> red == cfg.minRedToWin
    ensures reason == NeededAtLeast ==>
              forall red | 0 <= red <= cfg.maxDraws :: InWinRange(cfg, red) <==> red >= cfg.minRedToWin
  {
    if cfg.minRedToWin == cfg.maxRedToWin then NeededExactly
    else if cfg.maxRedToWin >= cfg.maxDraws && cfg.minRedToWin > 0 then NeededAtLeast
    else if cfg.minRedToWin > 0 && cfg.maxRedToWin < cfg.maxDraws then NeededBetween
    else ConditionNotMet
  }

  /** One of the two endings of `checkGameEndCondition` applies. */
  predicate GameEnds(st: State)
  {
    st.drawsMade >= st.cfg.maxDraws || (!st.cfg.withReplacement && |st.bag| == 0)
  }

  /** `checkGameEndCondition`, run after every pull. */
  function CheckGameEndCondition(st: State): (r: State)
    ensures !GameEnds(st) ==> r == st
    // Only the phase and the message change.
    ensures r.(phase := st.phase, outcome := st.outcome) == st
    ensures GameEnds(st) ==> r.phase == GameOver
    // Out of draws: win exactly when the red count is in range.
    ensures st.drawsMade >= st.cfg.maxDraws ==>
              (r.outcome == Win <==> InWinRange(st.cfg, st.redPulled))
    ensures st.drawsMade >= st.cfg.maxDraws && !InWinRange(st.cfg, st.redPulled) ==>
              r.outcome == Lose(LoseReasonFor(st.cfg))
    // The bag-empty ending only when draws remain: the draw limit has priority.
    ensures GameEnds(st) ==> (r.outcome.BagEmptied? <==> st.drawsMade < st.cfg.maxDraws)
    ensures GameEnds(st) && r.outcome.BagEmptied? ==>
              r.outcome.won == InWinRange(st.cfg, st.redPulled)
  {
    if st.drawsMade >= st.cfg.maxDraws then
      var won := InWinRange(st.cfg, st.redPulled);
      st.(phase := GameOver, outcome := if won then Win else Lose(LoseReasonFor(st.cfg)))
    else if !st.cfg.withReplacement && |st.bag| == 0 then
      st.(phase := GameOver, outcome := BagEmptied(InWinRange(st.cfg, st.redPulled)))
    else st
  }

  /**
    A click on one of the buttons, with the random numbers its handler
    draws: the shuffle of the chosen game, or the pull's marble index and
    the swap indices of a refill.
   */
  datatype Event =
    | ChooseGame1(shuffle: seq<nat>)
    | ChooseGame2(shuffle: seq<nat>)
    | PullPressed(index: nat, refill: seq<nat>)
    | PlayAgainPressed

  /** The random numbers the event carries are in range where they are used. */
  predicate EventOk(st: State, ev: Event)
  {
    match ev
    case ChooseGame1(js) => st.phase == Menu ==> ValidSwaps(js, 25)
    case ChooseGame2(js) => st.phase == Menu ==> ValidSwaps(js, 30)
    case PullPressed(idx, refill) => st.phase.InGame() ==> PullChoicesOk(st, idx, refill)
    case PlayAgainPressed => true
  }

  /** The screen changes the game allows: menu to a game, a game to game over, game over to menu. */
  predicate PhaseStep(from: Phase, to: Phase)
  {
    || from == to
    || (from == Menu && to.InGame())
    || (from.InGame() && to == GameOver)
    || (from == GameOver && to == Menu)
  }

  /** `mousePressed`: each phase reacts only to the buttons its screen shows. */
  function Step(st: State, ev: Event): (r: State)
    requires EventOk(st, ev)
    ensures PhaseStep(st.phase, r.phase)
    // Buttons not on the current screen do nothing.
    ensures ev.PullPressed? && !st.phase.InGame() ==> r == st
    ensures (ev.ChooseGame1? || ev.ChooseGame2?) && st.phase != Menu ==> r == st
    ensures ev.PlayAgainPressed? && st.phase != GameOver ==> r == st
    // Choosing a game starts it fresh.
    ensures st.phase == Menu && ev.ChooseGame1? ==>
              r.phase == Game1NoReplacement && r.cfg == Game1Config
              && r.drawsMade == 0 && r.redPulled == 0 && r.outcome == Pending
              && multiset(r.bag) == multiset(Game1Config.original)
    ensures st.phase == Menu && ev.ChooseGame2? ==>
              r.phase == Game2WithReplacement && r.cfg == Game2Config
              && r.drawsMade == 0 && r.redPulled == 0 && r.outcome == Pending
              && multiset(r.bag) == multiset(Game2Config.original)
    // A pull in a game counts at most one draw and may end the game.
    ensures st.phase.InGame() && ev.PullPressed? ==>
              && r.cfg == st.cfg
              && r.drawsMade == st.drawsMade + (if CanPull(st) && |st.cfg.original| > 0 then 1 else 0)
              && (r.phase == GameOver <==> GameEnds(r))
    // Play Again returns to the menu and clears the message, nothing else.
    ensures st.phase == GameOver && ev.PlayAgainPressed? ==>
              r == st.(phase := Menu, outcome := Pending)
  {
    match st.phase
    case Menu =>
      (match ev
       case ChooseGame1(js) => SetupGame1(st, js)
       case ChooseGame2(js) => SetupGame2(st, js)
       case _ => st)
    case Game1NoReplacement | Game2WithReplacement =>
      (match ev
       case PullPressed(idx, refill) => CheckGameEndCondition(PullMarble(st, idx, refill))
       case _ => st)
    case GameOver =>
      (match ev
       case PlayAgainPressed => st.(phase := Menu, outcome := Pending)
       case _ => st)
  }

  /** The random numbers of every event of a run are in range. */
  predicate RunOk(st: State, evs: seq<Event>)
    decreases |evs|
  {
    |evs| == 0 || (EventOk(st, evs[0]) && RunOk(Step(st, evs[0]), evs[1..]))
  }

  /** The state after handling the clicks `evs` in order. */
  function Run(st: State, evs: seq<Event>): State
    requires RunOk(st, evs)
    decreases |evs|
  {
    if |evs| == 0 then st else Run(Step(st, evs[0]), evs[1..])
  }
}
