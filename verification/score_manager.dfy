/** The climbing score counter of the first app: a climber moves up nine
    holds, earning 1, 2 or 3 points per hold depending on its tier, may fall
    once (losing 3 points, never going below zero) and can reset. */
module ScoreManager {

  /** The score of a climb that reaches the last hold without a fall. */
  const MaxScore: int := 18
  /** The highest hold; climbing stops there. */
  const LastHold: int := 9

  datatype Score = Score(score: int, currentHold: int, hasFallen: bool, hasReachedMaxScore: bool)

  /** The state of a newly created counter (and after a reset). */
  const Fresh: Score := Score(0, 0, false, false)

  /** Points earned for arriving at `hold`: the tier table of `climb`. */
  function HoldPoints(hold: int): (p: int)
    ensures 1 <= hold <= 3 ==> p == 1
    ensures 4 <= hold <= 6 ==> p == 2
    ensures 7 <= hold <= 9 ==> p == 3
    ensures hold < 1 || hold > 9 ==> p == 0
  {
    if 1 <= hold <= 3 then 1
    else if 4 <= hold <= 6 then 2
    else if 7 <= hold <= 9 then 3
    else 0
  }

  /** Reference definition: the points of an unbroken climb from hold 0 up
      to `hold`, summed hold by hold. */
  function PointsUpTo(hold: nat): int
  {
    if hold == 0 then 0 else PointsUpTo(hold - 1) + HoldPoints(hold)
  }

  lemma {:induction false} PointsUpToClosedForm(hold: nat)
    requires hold <= LastHold
    ensures hold <= 3 ==> PointsUpTo(hold) == hold
    ensures 3 <= hold <= 6 ==> PointsUpTo(hold) == 3 + 2 * (hold - 3)
    ensures 6 <= hold ==> PointsUpTo(hold) == 9 + 3 * (hold - 6)
  {
    if hold > 0 {
      PointsUpToClosedForm(hold - 1);
    }
  }

  function Climb(s: Score): (r: Score)
    // a fallen climber, or one at the last hold, stays put
    ensures s.hasFallen || s.currentHold >= LastHold ==> r == s
    // otherwise one hold up, scored by the tier of the new hold
    ensures !s.hasFallen && s.currentHold < LastHold ==>
      && r.currentHold == s.currentHold + 1
      && r.score == s.score + HoldPoints(s.currentHold + 1)
      && r.hasFallen == s.hasFallen
    // the max-score flag is raised at 18 points and never cleared
    ensures s.hasReachedMaxScore ==> r.hasReachedMaxScore
    ensures r.hasReachedMaxScore <==> s.hasReachedMaxScore || (r != s && r.score >= MaxScore)
  {
    if s.hasFallen || s.currentHold >= LastHold then s
    else
      var hold := s.currentHold + 1;
      var score := s.score + HoldPoints(hold);
      Score(score, hold, s.hasFallen, s.hasReachedMaxScore || score >= MaxScore)
  }

  function Fall(s: Score): (r: Score)
    ensures 1 <= s.currentHold <= 8 && !s.hasFallen ==>
      && r.hasFallen
      && r.score == (if s.score >= 3 then s.score - 3 else 0)
    ensures !(1 <= s.currentHold <= 8 && !s.hasFallen) ==> r == s
    // a fall never moves the climber and never touches the max-score flag
    ensures r.currentHold == s.currentHold
    ensures r.hasReachedMaxScore == s.hasReachedMaxScore
  {
    if 1 <= s.currentHold <= 8 && !s.hasFallen then
      s.(score := if s.score - 3 > 0 then s.score - 3 else 0, hasFallen := true)
    else s
  }

  function Reset(s: Score): (r: Score)
    ensures r.score == 0 && r.currentHold == 0
    ensures !r.hasFallen && !r.hasReachedMaxScore
  {
    Fresh
  }

  /** A second consecutive fall is a no-op. */
  lemma FallIdempotent(s: Score)
    ensures Fall(Fall(s)) == Fall(s)
  {
  }

  /** `n` climbs in a row. */
  function ClimbN(s: Score, n: nat): Score
  {
    if n == 0 then s else Climb(ClimbN(s, n - 1))
  }

  /** The unbroken-climb score reaches 18 only on the last hold. */
  lemma PointsReachMaxOnlyAtLast(hold: nat)
    requires hold <= LastHold
    ensures PointsUpTo(hold) >= MaxScore <==> hold == LastHold
    ensures PointsUpTo(hold) <= MaxScore
  {
    PointsUpToClosedForm(hold);
  }

  /** `n` climbs from a fresh counter reach hold `min(n, 9)` with exactly
      the points of the holds passed, and flag the max score exactly when the
      last hold is reached. */
  lemma {:induction false} ClimbFromFresh(n: nat)
    ensures var h := if n < LastHold then n else LastHold;
      ClimbN(Fresh, n) == Score(PointsUpTo(h), h, false, h == LastHold)
  {
    if n > 0 {
      ClimbFromFresh(n - 1);
      if n <= LastHold {
        PointsReachMaxOnlyAtLast(n);
        assert ClimbN(Fresh, n) == Climb(Score(PointsUpTo(n - 1), n - 1, false, false));
      }
    }
  }

  /** Nine climbs from a fresh counter give 18 points at hold 9 with the
      max-score flag set; a tenth climb changes nothing. */
  lemma NineClimbsReachMax()
    ensures ClimbN(Fresh, 9) == Score(MaxScore, LastHold, false, true)
    ensures ClimbN(Fresh, 10) == ClimbN(Fresh, 9)
  {
    ClimbFromFresh(9);
    PointsUpToClosedForm(9);
    ClimbFromFresh(10);
  }

  /** The state space every counter stays in. */
  predicate Bounded(s: Score) {
    s.score >= 0 && 0 <= s.currentHold <= LastHold
  }

  /** The exact states reachable from a fresh counter: an unbroken climb has
      the points of the holds passed; a fallen climber is on a hold in 1..8
      with three points less (floored at 0); and the max-score flag is set
      exactly on the last hold. */
  predicate Reachable(s: Score) {
    && 0 <= s.currentHold <= LastHold
    && (!s.hasFallen ==> s.score == PointsUpTo(s.currentHold))
    && (s.hasFallen ==>
          && 1 <= s.currentHold <= 8
          && s.score == (if PointsUpTo(s.currentHold) >= 3 then PointsUpTo(s.currentHold) - 3 else 0))
    && (s.hasReachedMaxScore <==> s.currentHold == LastHold)
  }

  lemma ReachableIsBounded(s: Score)
    requires Reachable(s)
    ensures Bounded(s)
    ensures s.score <= MaxScore
    ensures s.hasReachedMaxScore ==> s.score == MaxScore
  {
    PointsUpToClosedForm(s.currentHold);
  }

  lemma BoundedPreserved(s: Score)
    requires Bounded(s)
    ensures Bounded(Climb(s)) && Bounded(Fall(s)) && Bounded(Reset(s))
  {
  }

  lemma ReachablePreserved(s: Score)
    requires Reachable(s)
    ensures Reachable(Climb(s)) && Reachable(Fall(s)) && Reachable(Reset(s))
  {
    PointsUpToClosedForm(s.currentHold);
    if s.currentHold < LastHold {
      PointsUpToClosedForm(s.currentHold + 1);
    }
  }

  /** The operations of the counter. */
  datatype Op = ClimbOp | FallOp | ResetOp

  function Apply(s: Score, op: Op): Score {
    match op
    case ClimbOp => Climb(s)
    case FallOp => Fall(s)
    case ResetOp => Reset(s)
  }

  function Run(s: Score, ops: seq<Op>): Score
    decreases |ops|
  {
    if |ops| == 0 then s else Run(Apply(s, ops[0]), ops[1..])
  }

  /** Every sequence of operations from a fresh counter ends in a reachable,
      hence bounded, state. */
  lemma {:induction false} RunFromFresh(ops: seq<Op>)
    ensures Reachable(Run(Fresh, ops))
    ensures Bounded(Run(Fresh, ops))
  {
    RunPreservesReachable(Fresh, ops);
    ReachableIsBounded(Run(Fresh, ops));
  }

  lemma {:induction false} RunPreservesReachable(s: Score, ops: seq<Op>)
    requires Reachable(s)
    ensures Reachable(Run(s, ops))
    decreases |ops|
  {
    if |ops| > 0 {
      ReachablePreserved(s);
      RunPreservesReachable(Apply(s, ops[0]), ops[1..]);
    }
  }

  /** Climb, fall, climb from a fresh counter ends with score 0: the fall
      takes the single point away and the second climb is refused. */
  lemma ClimbFallClimb()
    ensures Climb(Fall(Climb(Fresh))) == Score(0, 1, true, false)
  {
  }
}
