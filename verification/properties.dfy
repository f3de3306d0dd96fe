/**
  Properties of whole games: the invariant every reachable state keeps,
  what it implies (the counters stay in bounds, the bag-empty ending and
  the greyed-out pull button never occur with the two presets), and that
  Game 1 can be won.
 */
module GameProperties {
  import opened Marbles
  import opened Game

  /**
    What holds of every state the sketch can reach from `Initial`.
    Without replacement the bag is the original minus the marbles drawn,
    and the reds drawn are exactly the reds missing from the bag; with
    replacement the bag always holds the original marbles.
   */
  predicate Inv(st: State)
  {
    && (st.cfg == InitialConfig || st.cfg == Game1Config || st.cfg == Game2Config)
    && (st.phase == Game1NoReplacement ==> st.cfg == Game1Config)
    && (st.phase == Game2WithReplacement ==> st.cfg == Game2Config)
    && Bookkeeping(st)
    && (st.phase.InGame() ==> CanPull(st) && st.outcome == Pending)
    && (st.phase == Menu ==> st.outcome == Pending)
    && (st.phase == GameOver ==> st.outcome != Pending)
    && !st.outcome.BagEmptied?
  }

  /** The counters and the bag agree with the marbles drawn so far. */
  predicate Bookkeeping(st: State)
  {
    && st.redPulled <= st.drawsMade <= st.cfg.maxDraws
    && multiset(st.bag) <= multiset(st.cfg.original)
    && (st.cfg.withReplacement ==> multiset(st.bag) == multiset(st.cfg.original))
    && (!st.cfg.withReplacement ==>
          && |st.bag| + st.drawsMade == |st.cfg.original|
          && RedCount(st.bag) + st.redPulled == RedCount(st.cfg.original))
  }

  /** The sketch starts in a state satisfying the invariant. */
  lemma InitialInv()
    ensures Inv(Initial)
  {
  }

  /** A pull made while a game is on keeps the bag bookkeeping of `Inv`. */
  lemma {:induction false} PullKeepsBag(st: State, idx: nat, refill: seq<nat>)
    requires Inv(st) && st.phase.InGame()
    requires PullChoicesOk(st, idx, refill)
    ensures Bookkeeping(PullMarble(st, idx, refill))
  {
    var r := PullMarble(st, idx, refill);
    if !st.cfg.withReplacement {
      var c := st.bag[idx];
      assert multiset(r.bag) + multiset{c} == multiset(st.bag);
      assert multiset(st.bag)[Red] == multiset(r.bag)[Red] + (if c == Red then 1 else 0);
    }
  }

  /** With the presets, a game that ends does so by using up its draws. */
  lemma {:induction false} EndIsByDraws(st: State)
    requires Bookkeeping(st) && (st.cfg == Game1Config || st.cfg == Game2Config)
    requires GameEnds(st)
    ensures st.drawsMade >= st.cfg.maxDraws
  {
    if !st.cfg.withReplacement {
      assert st.cfg == Game1Config;
      assert |st.bag| + st.drawsMade == 25;
    }
  }

  /** A pull on the game screen, followed by the end-of-game check, keeps the invariant. */
  lemma {:induction false} PullStepKeepsInv(st: State, idx: nat, refill: seq<nat>)
    requires Inv(st) && st.phase.InGame()
    requires PullChoicesOk(st, idx, refill)
    ensures Inv(CheckGameEndCondition(PullMarble(st, idx, refill)))
  {
    var p := PullMarble(st, idx, refill);
    PullKeepsBag(st, idx, refill);
    var r := CheckGameEndCondition(p);
    assert p.cfg == st.cfg && p.phase == st.phase && p.outcome == Pending;
    assert Bookkeeping(r) by {
      assert r.cfg == p.cfg && r.bag == p.bag;
      assert r.drawsMade == p.drawsMade && r.redPulled == p.redPulled;
    }
    if GameEnds(p) {
      EndIsByDraws(p);
      assert r.phase == GameOver && (r.outcome.Win? || r.outcome.Lose?);
    } else {
      assert r == p && CanPull(p);
    }
  }

  /** Choosing a game in the menu keeps the invariant. */
  lemma MenuStepKeepsInv(st: State, ev: Event)
    requires Inv(st) && EventOk(st, ev) && st.phase == Menu
    ensures Inv(Step(st, ev))
  {
    match ev
    case ChooseGame1(js) => SetupKeepsInv(st, js, false);
    case ChooseGame2(js) => SetupKeepsInv(st, js, true);
    case _ =>
  }

  /** Either preset starts a game that satisfies the invariant. */
  lemma SetupKeepsInv(st: State, js: seq<nat>, game2: bool)
    requires ValidSwaps(js, if game2 then 30 else 25)
    ensures Inv(if game2 then SetupGame2(st, js) else SetupGame1(st, js))
  {
    var r := if game2 then SetupGame2(st, js) else SetupGame1(st, js);
    assert r.cfg == (if game2 then Game2Config else Game1Config);
    assert multiset(r.bag) == multiset(r.cfg.original);
    assert RedCount(r.bag) == RedCount(r.cfg.original);
  }

  /** Clicks that neither pull in a game nor choose one in the menu keep the invariant. */
  lemma OtherStepKeepsInv(st: State, ev: Event)
    requires Inv(st) && EventOk(st, ev)
    requires st.phase != Menu && !(st.phase.InGame() && ev.PullPressed?)
    ensures Inv(Step(st, ev))
  {
    if st.phase == GameOver && ev.PlayAgainPressed? {
      assert Step(st, ev) == st.(phase := Menu, outcome := Pending);
    } else {
      assert Step(st, ev) == st;
    }
  }

  /** Every click keeps the invariant. */
  lemma {:induction false} StepKeepsInv(st: State, ev: Event)
    requires Inv(st) && EventOk(st, ev)
    ensures Inv(Step(st, ev))
  {
    if st.phase.InGame() && ev.PullPressed? {
      PullStepKeepsInv(st, ev.index, ev.refill);
    } else if st.phase == Menu {
      MenuStepKeepsInv(st, ev);
    } else {
      OtherStepKeepsInv(st, ev);
    }
  }

  /** Every state reached from an invariant state by a run of clicks satisfies it. */
  lemma {:induction false} RunKeepsInv(st: State, evs: seq<Event>)
    requires Inv(st) && RunOk(st, evs)
    ensures Inv(Run(st, evs))
    decreases |evs|
  {
    if |evs| > 0 {
      StepKeepsInv(st, evs[0]);
      RunKeepsInv(Step(st, evs[0]), evs[1..]);
    }
  }

  /** Every state reachable from the start of the sketch satisfies the invariant. */
  lemma Reachable(evs: seq<Event>)
    requires RunOk(Initial, evs)
    ensures Inv(Run(Initial, evs))
  {
    InitialInv();
    RunKeepsInv(Initial, evs);
  }

  /**
    What the invariant promises: no more reds than draws, no more draws
    than allowed, no bag-empty ending, and the pull button is never greyed
    out while a game is on.
   */
  lemma InvConsequences(st: State)
    requires Inv(st)
    ensures st.redPulled <= st.drawsMade <= st.cfg.maxDraws
    ensures !st.outcome.BagEmptied?
    ensures !PullButtonDisabled(st)
    ensures st.phase.InGame() ==> CanPull(st)
  {
  }

  /** In Game 1 at least 20 marbles stay in the bag, so it never runs empty. */
  lemma Game1BagNeverEmpty(st: State)
    requires Inv(st) && st.cfg == Game1Config
    ensures |st.bag| >= 20
  {
    assert |st.bag| + st.drawsMade == 25;
  }

  /** Some position of a bag holding a red marble is red. */
  lemma FindRed(b: Bag) returns (k: nat)
    requires RedCount(b) > 0
    ensures k < |b| && b[k] == Red
  {
    assert Red in multiset(b);
    k :| 0 <= k < |b| && b[k] == Red;
  }

  /** A run of clicks that never chooses Game 2. */
  predicate NoGame2(evs: seq<Event>)
  {
    forall k | 0 <= k < |evs| :: !evs[k].ChooseGame2?
  }

  /** Clicks that never choose Game 2 and end in a win. */
  predicate WinningRun(st: State, evs: seq<Event>)
  {
    NoGame2(evs) && RunOk(st, evs) && Run(st, evs).outcome == Win
  }

  /** A winning run witnesses that one exists. */
  lemma SomeWinningRun(st: State, evs: seq<Event>)
    requires WinningRun(st, evs)
    ensures exists e :: WinningRun(st, e)
  {
  }

  /** Prefixing a click other than choosing Game 2 keeps a run free of Game 2. */
  lemma NoGame2Cons(ev: Event, rest: seq<Event>)
    requires !ev.ChooseGame2? && NoGame2(rest)
    ensures NoGame2([ev] + rest)
  {
    var evs := [ev] + rest;
    forall k | 0 <= k < |evs| ensures !evs[k].ChooseGame2? {
      if k > 0 { assert evs[k] == rest[k - 1]; }
    }
  }

  /** A run that starts with `ev` is `ev` followed by the rest of the run. */
  lemma RunCons(st: State, ev: Event, rest: seq<Event>)
    requires EventOk(st, ev) && RunOk(Step(st, ev), rest)
    ensures RunOk(st, [ev] + rest)
    ensures Run(st, [ev] + rest) == Run(Step(st, ev), rest)
  {
    var evs := [ev] + rest;
    assert evs[0] == ev && evs[1..] == rest;
  }

  /** A winning run preceded by a click other than choosing Game 2 still wins. */
  lemma WinningRunCons(st: State, ev: Event, rest: seq<Event>)
    requires EventOk(st, ev) && !ev.ChooseGame2?
    requires WinningRun(Step(st, ev), rest)
    ensures WinningRun(st, [ev] + rest)
  {
    RunCons(st, ev, rest);
    NoGame2Cons(ev, rest);
  }

  /** One pull in Game 1, at a position the bag holds. */
  lemma {:induction false} Game1Pull(st: State, idx: nat)
    requires Inv(st) && st.phase == Game1NoReplacement
    requires idx < |st.bag|
    ensures EventOk(st, PullPressed(idx, []))
    ensures var r := Step(st, PullPressed(idx, []));
      && Inv(r)
      && r.drawsMade == st.drawsMade + 1
      && r.redPulled == st.redPulled + (if st.bag[idx] == Red then 1 else 0)
      && RedCount(r.bag) + r.redPulled == RedCount(st.bag) + st.redPulled
      && (r.phase == GameOver ==> r.drawsMade == 5 && (r.outcome == Win <==> r.redPulled >= 2))
      && (r.phase != GameOver ==> r.phase == Game1NoReplacement)
  {
    var ev := PullPressed(idx, []);
    assert CanPull(st) && st.cfg == Game1Config;
    StepKeepsInv(st, ev);
    var p := PullMarble(st, idx, []);
    var r := Step(st, ev);
    assert r == CheckGameEndCondition(p);
    if r.phase == GameOver {
      assert GameEnds(p);
      EndIsByDraws(p);
    }
  }

  /**
    In Game 1, as long as enough reds and draws remain to reach two reds,
    some sequence of pulls wins.
   */
  lemma {:induction false} Game1WinnableFrom(st: State) returns (evs: seq<Event>)
    requires Inv(st) && st.phase == Game1NoReplacement
    requires st.redPulled >= 2 ||
             (RedCount(st.bag) >= 2 - st.redPulled && st.cfg.maxDraws - st.drawsMade >= 2 - st.redPulled)
    ensures WinningRun(st, evs)
    decreases st.cfg.maxDraws - st.drawsMade
  {
    assert st.cfg == Game1Config && CanPull(st);
    var idx: nat := 0;
    if st.redPulled < 2 {
      idx := FindRed(st.bag);
    }
    var ev := PullPressed(idx, []);
    Game1Pull(st, idx);
    var st' := Step(st, ev);
    var rest: seq<Event> := [];
    if st'.phase != GameOver {
      rest := Game1WinnableFrom(st');
    }
    WinningRunCons(st, ev, rest);
    evs := [ev] + rest;
  }

  /** Choosing Game 1 in the menu starts a game with six reds to find. */
  lemma Game1Start(st: State, js: seq<nat>)
    requires st.phase == Menu && ValidSwaps(js, 25)
    ensures var r := Step(st, ChooseGame1(js));
      && Inv(r) && r.phase == Game1NoReplacement && r.cfg.maxDraws == 5
      && RedCount(r.bag) == 6 && r.redPulled == 0 && r.drawsMade == 0
  {
    var r := Step(st, ChooseGame1(js));
    assert r == SetupGame1(st, js);
    assert multiset(r.bag) == multiset(r.cfg.original);
  }

  /**
    Game 1 can be won: after any shuffle, picking a red marble twice and
    any marble three more times ends with a win.
   */
  lemma Game1Winnable(st: State, js: seq<nat>)
    requires st.phase == Menu && ValidSwaps(js, 25)
    ensures exists evs :: WinningRun(st, evs)
  {
    var ev := ChooseGame1(js);
    Game1Start(st, js);
    var rest := Game1WinnableFrom(Step(st, ev));
    WinningRunCons(st, ev, rest);
    SomeWinningRun(st, [ev] + rest);
  }
}
