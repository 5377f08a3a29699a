/**
 * The client-side score state of the scoreboard component
 * (frontend/src/components/ScoreTracker.tsx), with the rendering taken away.
 *
 * Two counters change through five button handlers and through scores pushed
 * by the server. Every button handler reports the pair it produced by calling
 * `emitScoreUpdate`; the ghost log `emitted` records those calls in order.
 */
module ScoreTracking {

  datatype Scores = Scores(teamA: int, teamB: int)

  /** What changes the displayed scores: the five button handlers and a server push. */
  datatype Action =
    | IncrementA   // handleTeamAScore
    | IncrementB   // handleTeamBScore
    | DecrementA   // handleTeamADecrement
    | DecrementB   // handleTeamBDecrement
    | Reset        // handleReset
    | ServerPush(pushed: Scores)  // the onScoreUpdate callback

  /** The button handlers; only these call emitScoreUpdate. */
  predicate IsLocal(act: Action) {
    !act.ServerPush?
  }

  predicate NonNegative(s: Scores) {
    s.teamA >= 0 && s.teamB >= 0
  }

  /** `Math.max(0, x - 1)` */
  function DecrementClamped(x: int): (r: int)
    ensures r >= 0 && r >= x - 1
    ensures r == 0 || r == x - 1
  {
    if 0 >= x - 1 then 0 else x - 1
  }

  /** The scores after one action. */
  function Apply(s: Scores, act: Action): (r: Scores)
    ensures act.ServerPush? ==> r == act.pushed
    ensures IsLocal(act) && NonNegative(s) ==> NonNegative(r)
  {
    match act
    case IncrementA => s.(teamA := s.teamA + 1)
    case IncrementB => s.(teamB := s.teamB + 1)
    case DecrementA => s.(teamA := DecrementClamped(s.teamA))
    case DecrementB => s.(teamB := DecrementClamped(s.teamB))
    case Reset => Scores(0, 0)
    case ServerPush(p) => p
  }

  /** What one action sends through emitScoreUpdate: its resulting pair, for a button handler. */
  function Emission(s: Scores, act: Action): (r: seq<Scores>)
    ensures |r| == if IsLocal(act) then 1 else 0
    ensures forall e :: e in r ==> e == Apply(s, act)
  {
    if IsLocal(act) then [Apply(s, act)] else []
  }

  /** The scores after a sequence of actions. */
  function Run(s: Scores, acts: seq<Action>): Scores
    decreases |acts|
  {
    if acts == [] then s else Run(Apply(s, acts[0]), acts[1..])
  }

  /** Everything a sequence of actions sends through emitScoreUpdate, in order. */
  function Emitted(s: Scores, acts: seq<Action>): seq<Scores>
    decreases |acts|
  {
    if acts == [] then [] else Emission(s, acts[0]) + Emitted(Apply(s, acts[0]), acts[1..])
  }

  /** How many of the actions are button handlers. */
  function LocalCount(acts: seq<Action>): nat
    decreases |acts|
  {
    if acts == [] then 0 else (if IsLocal(acts[0]) then 1 else 0) + LocalCount(acts[1..])
  }

  predicate PushesNonNegative(acts: seq<Action>) {
    forall i :: 0 <= i < |acts| && acts[i].ServerPush? ==> NonNegative(acts[i].pushed)
  }

  // ---------------------------------------------------------------------
  // Single-step properties
  // ---------------------------------------------------------------------

  /** An increment touches only its own team, and a decrement after it restores the score. */
  lemma IncrementThenDecrement(s: Scores)
    requires NonNegative(s)
    ensures Apply(s, IncrementA).teamB == s.teamB && Apply(s, IncrementA).teamA == s.teamA + 1
    ensures Apply(s, IncrementB).teamA == s.teamA && Apply(s, IncrementB).teamB == s.teamB + 1
    ensures Apply(Apply(s, IncrementA), DecrementA) == s
    ensures Apply(Apply(s, IncrementB), DecrementB) == s
  {
  }

  /** A decrement lowers its own team by one, stops at zero, and leaves the other team alone. */
  lemma DecrementClamps(s: Scores)
    requires NonNegative(s)
    ensures Apply(s, DecrementA).teamB == s.teamB && Apply(s, DecrementB).teamA == s.teamA
    ensures Apply(s, DecrementA).teamA == if s.teamA == 0 then 0 else s.teamA - 1
    ensures Apply(s, DecrementB).teamB == if s.teamB == 0 then 0 else s.teamB - 1
  {
  }

  /** Reset gives 0 to 0 from any scores and reports 0 to 0. */
  lemma ResetZeroes(s: Scores)
    ensures Apply(s, Reset) == Scores(0, 0)
    ensures Emission(s, Reset) == [Scores(0, 0)]
  {
  }

  /** A push overwrites both scores whatever they were, and reports nothing. */
  lemma PushReplaces(s: Scores, t: Scores, p: Scores)
    ensures Apply(s, ServerPush(p)) == Apply(t, ServerPush(p)) == p
    ensures Emission(s, ServerPush(p)) == []
  {
  }

  // ---------------------------------------------------------------------
  // Properties of whole runs
  // ---------------------------------------------------------------------

  /** Scores never go negative while the server pushes only non-negative scores. */
  lemma {:induction false} RunStaysNonNegative(s: Scores, acts: seq<Action>)
    requires NonNegative(s) && PushesNonNegative(acts)
    ensures NonNegative(Run(s, acts))
    decreases |acts|
  {
    if acts != [] {
      RunStaysNonNegative(Apply(s, acts[0]), acts[1..]);
    }
  }

  /** Extending a run by one action: one more step, and that action's emission appended. */
  lemma {:induction false} RunSnoc(s: Scores, acts: seq<Action>, act: Action)
    ensures Run(s, acts + [act]) == Apply(Run(s, acts), act)
    ensures Emitted(s, acts + [act]) == Emitted(s, acts) + Emission(Run(s, acts), act)
    ensures LocalCount(acts + [act]) == LocalCount(acts) + (if IsLocal(act) then 1 else 0)
    decreases |acts|
  {
    if acts != [] {
      assert (acts + [act])[1..] == acts[1..] + [act];
      RunSnoc(Apply(s, acts[0]), acts[1..], act);
    } else {
      assert acts + [act] == [act];
    }
  }

  /** The log holds one entry per button press, and after a press its last entry is the
      pair on display. */
  lemma {:induction false} EmittedTracksLocalActions(s: Scores, acts: seq<Action>)
    ensures |Emitted(s, acts)| == LocalCount(acts)
    ensures acts != [] && IsLocal(acts[|acts| - 1]) ==>
      Emitted(s, acts) != [] && Emitted(s, acts)[|Emitted(s, acts)| - 1] == Run(s, acts)
    decreases |acts|
  {
    if acts != [] {
      var init := acts[..|acts| - 1];
      var last := acts[|acts| - 1];
      assert acts == init + [last];
      EmittedTracksLocalActions(s, init);
      RunSnoc(s, init, last);
    }
  }

  // ---------------------------------------------------------------------
  // The component's state
  // ---------------------------------------------------------------------

  class ScoreTracker {
    var teamA: int
    var teamB: int
    /** The pairs passed to emitScoreUpdate so far. */
    ghost var emitted: seq<Scores>

    function Current(): Scores
      reads this
    {
      Scores(teamA, teamB)
    }

    /** Both `useState(0)` calls. */
    constructor ()
      ensures Current() == Scores(0, 0) && emitted == []
    {
      teamA, teamB := 0, 0;
      emitted := [];
    }

    method HandleTeamAScore()
      modifies this
      ensures teamA == old(teamA) + 1 && teamB == old(teamB)
      ensures Current() == Apply(old(Current()), IncrementA)
      ensures emitted == old(emitted) + [Current()]
    {
      var newScore := teamA + 1;
      teamA := newScore;
      emitted := emitted + [Scores(newScore, teamB)];
    }

    method HandleTeamBScore()
      modifies this
      ensures teamB == old(teamB) + 1 && teamA == old(teamA)
      ensures Current() == Apply(old(Current()), IncrementB)
      ensures emitted == old(emitted) + [Current()]
    {
      var newScore := teamB + 1;
      teamB := newScore;
      emitted := emitted + [Scores(teamA, newScore)];
    }

    method HandleTeamADecrement()
      modifies this
      ensures teamA >= 0 && teamB == old(teamB)
      ensures old(teamA) >= 1 ==> teamA == old(teamA) - 1
      ensures Current() == Apply(old(Current()), DecrementA)
      ensures emitted == old(emitted) + [Current()]
    {
      var newScore := DecrementClamped(teamA);
      teamA := newScore;
      emitted := emitted + [Scores(newScore, teamB)];
    }

    method HandleTeamBDecrement()
      modifies this
      ensures teamB >= 0 && teamA == old(teamA)
      ensures old(teamB) >= 1 ==> teamB == old(teamB) - 1
      ensures Current() == Apply(old(Current()), DecrementB)
      ensures emitted == old(emitted) + [Current()]
    {
      var newScore := DecrementClamped(teamB);
      teamB := newScore;
      emitted := emitted + [Scores(teamA, newScore)];
    }

    method HandleReset()
      modifies this
      ensures Current() == Scores(0, 0) == Apply(old(Current()), Reset)
      ensures emitted == old(emitted) + [Scores(0, 0)]
    {
      teamA := 0;
      teamB := 0;
      emitted := emitted + [Scores(0, 0)];
    }

    /** The callback registered with onScoreUpdate: the pushed pair replaces both scores. */
    method OnScoreUpdate(scores: Scores)
      modifies this
      ensures Current() == scores == Apply(old(Current()), ServerPush(scores))
      ensures emitted == old(emitted)
    {
      teamA := scores.teamA;
      teamB := scores.teamB;
    }
  }
}
