/** The screen controller of the climbing app: it guards climbs by the
    score, shows a congratulation popup once per reset, colours the score and
    saves/restores part of its state across a configuration change. */
module ClimbActivity {
  import SM = ScoreManager

  datatype Game = Game(manager: SM.Score, hasShownPopup: bool)

  /** A freshly created screen. */
  const Initial: Game := Game(SM.Fresh, false)

  /** The outcome of a climb tap: the new state and whether the max-score
      popup was shown. */
  datatype Tap = Tap(game: Game, popup: bool)

  /** The popup check run after every forwarded climb. */
  function CheckMaxScore(g: Game): (t: Tap)
    ensures t.popup <==>
      g.manager.score == SM.MaxScore && g.manager.hasReachedMaxScore && !g.hasShownPopup
    ensures t.popup ==> t.game == g.(hasShownPopup := true)
    ensures !t.popup ==> t.game == g
  {
    if g.manager.score == SM.MaxScore && g.manager.hasReachedMaxScore && !g.hasShownPopup then
      Tap(Game(g.manager.(hasReachedMaxScore := true), true), true)
    else
      Tap(g, false)
  }

  /** The climb button: forwarded to the counter only below the max score. */
  function ClimbTap(g: Game): (t: Tap)
    ensures g.manager.score >= SM.MaxScore ==> t == Tap(g, false)
    ensures g.manager.score < SM.MaxScore ==> t.game.manager == SM.Climb(g.manager)
    ensures t.game.hasShownPopup <==> g.hasShownPopup || t.popup
    ensures t.popup ==> !g.hasShownPopup && t.game.manager.score == SM.MaxScore
    // the popup shows on the forwarded climb that reaches 18 points
    ensures t.popup <==>
      !g.hasShownPopup && g.manager.score < SM.MaxScore && SM.Climb(g.manager).score == SM.MaxScore
  {
    if g.manager.score < SM.MaxScore then
      CheckMaxScore(Game(SM.Climb(g.manager), g.hasShownPopup))
    else
      Tap(g, false)
  }

  function FallTap(g: Game): (r: Game)
    ensures r.manager == SM.Fall(g.manager)
    ensures r.hasShownPopup == g.hasShownPopup
  {
    Game(SM.Fall(g.manager), g.hasShownPopup)
  }

  /** The reset button clears the counter and re-arms the popup. */
  function ResetTap(g: Game): (r: Game)
    ensures r.manager == SM.Fresh && !r.hasShownPopup
  {
    Initial
  }

  datatype Event = Climb | Fall | Reset

  /** Plays a sequence of button taps and reports how many popups appeared. */
  function Play(g: Game, events: seq<Event>): (Game, nat)
    decreases |events|
  {
    if |events| == 0 then (g, 0)
    else
      match events[0]
      case Climb =>
        var t := ClimbTap(g);
        var (g', n) := Play(t.game, events[1..]);
        (g', n + (if t.popup then 1 else 0))
      case Fall => Play(FallTap(g), events[1..])
      case Reset => Play(ResetTap(g), events[1..])
  }

  /** Between two resets the popup appears at most once, and not at all
      once it has been shown; a popup always leaves the flag set. */
  lemma {:induction false} PopupAtMostOncePerReset(g: Game, events: seq<Event>)
    requires forall i :: 0 <= i < |events| ==> events[i] != Reset
    ensures Play(g, events).1 <= 1
    ensures g.hasShownPopup ==> Play(g, events).1 == 0 && Play(g, events).0.hasShownPopup
    ensures Play(g, events).1 == 1 ==> Play(g, events).0.hasShownPopup
    decreases |events|
  {
    if |events| > 0 {
      match events[0]
      case Climb =>
        var t := ClimbTap(g);
        PopupAtMostOncePerReset(t.game, events[1..]);
      case Fall =>
        PopupAtMostOncePerReset(FallTap(g), events[1..]);
    }
  }

  /** `n` taps on the climb button. */
  function Climbs(n: nat): (es: seq<Event>)
    ensures |es| == n
    ensures forall i :: 0 <= i < n ==> es[i] == Climb
  {
    if n == 0 then [] else [Climb] + Climbs(n - 1)
  }

  /** From a screen that has climbed `k` holds since a reset without a
      popup, climbing to the top shows the popup exactly once. */
  lemma {:induction false} ClimbsToTopShowPopup(k: nat)
    requires k < SM.LastHold
    ensures var p := Play(Game(SM.ClimbN(SM.Fresh, k), false), Climbs(SM.LastHold - k));
      p.1 == 1 && p.0.hasShownPopup
    decreases SM.LastHold - k
  {
    var g := Game(SM.ClimbN(SM.Fresh, k), false);
    var es := Climbs(SM.LastHold - k);
    assert es[0] == Climb && es[1..] == Climbs(SM.LastHold - k - 1);
    SM.ClimbFromFresh(k);
    SM.ClimbFromFresh(k + 1);
    SM.PointsReachMaxOnlyAtLast(k);
    SM.PointsReachMaxOnlyAtLast(k + 1);
    var t := ClimbTap(g);
    assert t.game.manager == SM.ClimbN(SM.Fresh, k + 1);
    if k + 1 < SM.LastHold {
      assert !t.popup;
      ClimbsToTopShowPopup(k + 1);
    } else {
      assert t.popup;
      assert es[1..] == [];
    }
  }

  /** Nine climb taps on a new screen show the congratulation popup exactly
      once. */
  lemma NineClimbTapsShowPopup()
    ensures Play(Initial, Climbs(SM.LastHold)).1 == 1
    ensures Play(Initial, Climbs(SM.LastHold)).0.hasShownPopup
  {
    ClimbsToTopShowPopup(0);
  }

  /** Colour bands of the score label. */
  datatype Colour = Blue | Green | Red

  function ScoreColour(score: int): (c: Colour)
    ensures c == Blue <==> score < 3
    ensures c == Green <==> 3 <= score < 6
    ensures c == Red <==> score >= 6
  {
    if score < 3 then Blue else if score < 6 then Green else Red
  }

  /** What `onSaveInstanceState` writes to the bundle. */
  datatype Saved = Saved(score: int, currentHold: int, hasShownPopup: bool)

  function Save(g: Game): (b: Saved)
    ensures b.score == g.manager.score && b.currentHold == g.manager.currentHold
    ensures b.hasShownPopup == g.hasShownPopup
  {
    Saved(g.manager.score, g.manager.currentHold, g.hasShownPopup)
  }

  /** `onCreate` with a saved bundle: a new counter with the saved score and
      hold; the fall and max-score flags take their defaults. */
  function Restore(b: Saved): (g: Game)
    ensures Save(g) == b
    ensures !g.manager.hasFallen && !g.manager.hasReachedMaxScore
  {
    Game(SM.Fresh.(score := b.score, currentHold := b.currentHold), b.hasShownPopup)
  }

  /** Save then restore keeps score, hold and the popup flag and resets the
      fall and max-score flags. */
  lemma SaveRestore(g: Game)
    ensures Restore(Save(g)) ==
      Game(SM.Score(g.manager.score, g.manager.currentHold, false, false), g.hasShownPopup)
  {
  }

  /** The restore drops `hasFallen`, so a climber who fell before a
      configuration change can climb again afterwards, which the counter
      itself never allows. */
  lemma RestoreForgetsFall()
    ensures var fallen := FallTap(ClimbTap(Initial).game);
      && fallen.manager.hasFallen
      && ClimbTap(fallen).game == fallen
      && ClimbTap(Restore(Save(fallen))).game.manager.currentHold == 2
  {
  }

  /** The screen's bound: every tap and every save/restore keeps a
      non-negative score and a hold in 0..9. */
  predicate Bounded(g: Game) {
    SM.Bounded(g.manager)
  }

  lemma BoundedPreserved(g: Game)
    requires Bounded(g)
    ensures Bounded(ClimbTap(g).game) && Bounded(FallTap(g)) && Bounded(ResetTap(g))
    ensures Bounded(Restore(Save(g)))
  {
    SM.BoundedPreserved(g.manager);
  }
}
