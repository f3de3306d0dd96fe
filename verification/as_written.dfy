/**
  `pullMarble` as the sketch spells it. In the no-replacement branch the
  spliced marble is assigned to a misspelt, undeclared `pulpledMarble`; the
  declared `pulledMarble` stays `undefined`, so the colour stored and shown
  is `undefined` and never equals "Red". This module keeps that variant
  apart from the intended one in `Game` and shows what it costs: Game 1
  can never be won.
 */
module AsWritten {
  import opened Marbles
  import opened Game

  /**
    The as-written pull differs from the intended one only in the
    no-replacement branch, where the marble is still removed and the draw
    counted, but the colour is lost and no red is ever counted.
   */
  function PullMarbleAsWritten(st: State, idx: nat, refill: seq<nat>): (r: State)
    requires PullChoicesOk(st, idx, refill)
    ensures !(CanPull(st) && |st.cfg.original| > 0 && !st.cfg.withReplacement) ==>
              r == PullMarble(st, idx, refill)
    ensures CanPull(st) && |st.cfg.original| > 0 && !st.cfg.withReplacement ==>
              && r == PullMarble(st, idx, refill).(redPulled := st.redPulled, pulled := Undefined)
              && r.drawsMade == st.drawsMade + 1
              && |r.bag| == |st.bag| - 1
    ensures !st.cfg.withReplacement ==> r.redPulled == st.redPulled
  {
    if CanPull(st) && |st.cfg.original| > 0 && !st.cfg.withReplacement then
      st.(bag := RemoveAt(st.bag, idx), pulled := Undefined, drawsMade := st.drawsMade + 1)
    else
      PullMarble(st, idx, refill)
  }

  /** The input that shows the defect: a red marble drawn without replacement is not counted. */
  lemma RedNotCounted(st: State, idx: nat)
    requires CanPull(st) && !st.cfg.withReplacement && |st.cfg.original| > 0
    requires idx < |st.bag| && st.bag[idx] == Red
    ensures PullMarbleAsWritten(st, idx, []).redPulled == st.redPulled
    ensures PullMarble(st, idx, []).redPulled == st.redPulled + 1
  {
  }

  /** `mousePressed` with the as-written pull. */
  function StepAsWritten(st: State, ev: Event): (r: State)
    requires EventOk(st, ev)
    ensures !(st.phase.InGame() && ev.PullPressed?) ==> r == Step(st, ev)
    ensures PhaseStep(st.phase, r.phase)
  {
    if st.phase.InGame() && ev.PullPressed? then
      CheckGameEndCondition(PullMarbleAsWritten(st, ev.index, ev.refill))
    else
      Step(st, ev)
  }

  /** The random numbers of every event of an as-written run are in range. */
  predicate RunAsWrittenOk(st: State, evs: seq<Event>)
    decreases |evs|
  {
    |evs| == 0 || (EventOk(st, evs[0]) && RunAsWrittenOk(StepAsWritten(st, evs[0]), evs[1..]))
  }

  /** The as-written state after handling the clicks `evs` in order. */
  function RunAsWritten(st: State, evs: seq<Event>): State
    requires RunAsWrittenOk(st, evs)
    decreases |evs|
  {
    if |evs| == 0 then st else RunAsWritten(StepAsWritten(st, evs[0]), evs[1..])
  }

  /**
    Whatever was played before, a state whose preset is Game 1 has no red
    counted and no win; the preset is one of the three and agrees with the
    screen.
   */
  predicate Game1Unwon(st: State)
  {
    && (st.cfg == InitialConfig || st.cfg == Game1Config || st.cfg == Game2Config)
    && (st.phase == Game1NoReplacement ==> st.cfg == Game1Config)
    && (st.phase == Game2WithReplacement ==> st.cfg == Game2Config)
    && (st.cfg == Game1Config ==> st.redPulled == 0 && st.outcome != Win)
  }

  /** A pull and the end check that follow it, as written, keep Game 1 unwon. */
  lemma PullAsWrittenUnwon(st: State, idx: nat, refill: seq<nat>)
    requires Game1Unwon(st) && st.phase.InGame()
    requires PullChoicesOk(st, idx, refill)
    ensures Game1Unwon(CheckGameEndCondition(PullMarbleAsWritten(st, idx, refill)))
  {
    var p := PullMarbleAsWritten(st, idx, refill);
    assert p.cfg == st.cfg && p.phase == st.phase && p.outcome == st.outcome;
    if st.cfg == Game1Config {
      assert p.redPulled == 0;
      assert !InWinRange(p.cfg, p.redPulled);
    }
  }

  /** Clicks other than a pull during a game keep Game 1 unwon. */
  lemma OtherClickUnwon(st: State, ev: Event)
    requires Game1Unwon(st) && EventOk(st, ev)
    requires !(st.phase.InGame() && ev.PullPressed?)
    ensures Game1Unwon(Step(st, ev))
  {
    if st.phase == Menu && ev.ChooseGame1? {
      assert Step(st, ev) == SetupGame1(st, ev.shuffle);
    } else if st.phase == Menu && ev.ChooseGame2? {
      assert Step(st, ev) == SetupGame2(st, ev.shuffle);
    }
  }

  /** Every click, as written, keeps Game 1 unwon. */
  lemma {:induction false} StepAsWrittenUnwon(st: State, ev: Event)
    requires Game1Unwon(st) && EventOk(st, ev)
    ensures Game1Unwon(StepAsWritten(st, ev))
  {
    if st.phase.InGame() && ev.PullPressed? {
      PullAsWrittenUnwon(st, ev.index, ev.refill);
    } else {
      OtherClickUnwon(st, ev);
    }
  }

  /** Every run of clicks, as written, keeps Game 1 unwon. */
  lemma {:induction false} RunAsWrittenUnwon(st: State, evs: seq<Event>)
    requires Game1Unwon(st) && RunAsWrittenOk(st, evs)
    ensures Game1Unwon(RunAsWritten(st, evs))
    decreases |evs|
  {
    if |evs| > 0 {
      StepAsWrittenUnwon(st, evs[0]);
      RunAsWrittenUnwon(StepAsWritten(st, evs[0]), evs[1..]);
    }
  }

  /**
    As written, Game 1 is never won: after any clicks from the start of the
    sketch, Game 2 included, a state playing or done with Game 1 has a red
    count of 0, below the 2 it needs.
   */
  lemma {:induction false} Game1NeverWonAsWritten(evs: seq<Event>)
    requires RunAsWrittenOk(Initial, evs)
    ensures RunAsWritten(Initial, evs).cfg == Game1Config ==>
              RunAsWritten(Initial, evs).outcome != Win && RunAsWritten(Initial, evs).redPulled == 0
  {
    RunAsWrittenUnwon(Initial, evs);
  }
}
