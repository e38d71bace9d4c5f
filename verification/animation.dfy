/** The popup state machine of MathQuiz.tsx (`animationReducer`): three visibility flags,
    the last XP award with its screen position, and a key that restarts the XP animation
    each time it is shown. */
module Animation {
  import opened Wrappers

  /** A popup position in percent of the quiz card. */
  datatype Position = Position(x: real, y: real)

  datatype AnimationState = AnimationState(
    showCelebration: bool,
    showWrongPopup: bool,
    showXpGain: bool,
    xpGained: int,
    xpPosition: Position,
    xpAnimationKey: int)

  datatype Action =
    | ShowCelebration
    | HideCelebration
    | ShowWrong
    | HideWrong
    | ShowXp(xp: int, position: Position)
    | HideXp
    | ResetAnimations

  /** `initialAnimationState`: nothing shown, no XP, the popup centred, key 0. */
  const Initial := AnimationState(false, false, false, 0, Position(50.0, 50.0), 0)

  /** The three visibility flags of the state. */
  datatype Flag = Celebration | WrongPopup | XpGain

  function FlagValue(s: AnimationState, f: Flag): bool {
    match f
    case Celebration => s.showCelebration
    case WrongPopup => s.showWrongPopup
    case XpGain => s.showXpGain
  }

  /** Which value, if any, action `a` gives flag `f`: each SHOW/HIDE pair owns one flag, and
      a reset clears all three. Written as a table, independently of `Reduce`. */
  function SetBy(a: Action, f: Flag): Option<bool> {
    match (a, f)
    case (ShowCelebration, Celebration) => Some(true)
    case (HideCelebration, Celebration) => Some(false)
    case (ShowWrong, WrongPopup) => Some(true)
    case (HideWrong, WrongPopup) => Some(false)
    case (ShowXp(_, _), XpGain) => Some(true)
    case (HideXp, XpGain) => Some(false)
    case (ResetAnimations, _) => Some(false)
    case _ => None
  }

  /** `animationReducer`. */
  function Reduce(s: AnimationState, a: Action): (r: AnimationState)
    ensures a.ResetAnimations? ==> r == Initial
    ensures forall f: Flag :: FlagValue(r, f) == SetBy(a, f).GetOr(FlagValue(s, f))
    ensures !a.ResetAnimations? ==>
              r.xpAnimationKey == s.xpAnimationKey + (if a.ShowXp? then 1 else 0)
    ensures a.ShowXp? ==> r.xpGained == a.xp && r.xpPosition == a.position
    ensures !a.ShowXp? && !a.ResetAnimations? ==>
              r.xpGained == s.xpGained && r.xpPosition == s.xpPosition
  {
    match a
    case ShowCelebration => s.(showCelebration := true)
    case HideCelebration => s.(showCelebration := false)
    case ShowWrong => s.(showWrongPopup := true)
    case HideWrong => s.(showWrongPopup := false)
    case ShowXp(xp, position) =>
      s.(showXpGain := true, xpGained := xp, xpPosition := position,
         xpAnimationKey := s.xpAnimationKey + 1)
    case HideXp => s.(showXpGain := false)
    case ResetAnimations => Initial
  }

  /** The state after dispatching `acts` in order, starting from `s`. */
  function Run(s: AnimationState, acts: seq<Action>): AnimationState {
    if |acts| == 0 then s else Reduce(Run(s, acts[..|acts| - 1]), acts[|acts| - 1])
  }

  function CountShowXp(acts: seq<Action>): (n: nat)
    ensures n <= |acts|
  {
    if |acts| == 0 then 0
    else CountShowXp(acts[..|acts| - 1]) + (if acts[|acts| - 1].ShowXp? then 1 else 0)
  }

  predicate NoReset(acts: seq<Action>) {
    forall i :: 0 <= i < |acts| ==> !acts[i].ResetAnimations?
  }

  /** Between resets the key counts the SHOW_XP actions: every XP popup gets a key it has
      not had before. */
  lemma {:induction false} KeyCountsShowXp(s: AnimationState, acts: seq<Action>)
    requires NoReset(acts)
    ensures Run(s, acts).xpAnimationKey == s.xpAnimationKey + CountShowXp(acts)
  {
    if |acts| > 0 {
      KeyCountsShowXp(s, acts[..|acts| - 1]);
    }
  }

  /** Dispatching `a` then `b` is dispatching `a + b`. */
  lemma {:induction false} RunAppend(s: AnimationState, a: seq<Action>, b: seq<Action>)
    ensures Run(s, a + b) == Run(Run(s, a), b)
    decreases |b|
  {
    if |b| == 0 {
      assert a + b == a;
    } else {
      assert (a + b)[..|a + b| - 1] == a + b[..|b| - 1];
      RunAppend(s, a, b[..|b| - 1]);
    }
  }

  /** A reset forgets the past: what follows it behaves as if started from the initial
      state, whatever happened before. */
  lemma ResetForgetsHistory(s: AnimationState, before: seq<Action>, after: seq<Action>)
    ensures Run(s, before + [ResetAnimations] + after) == Run(Initial, after)
  {
    RunAppend(s, before + [ResetAnimations], after);
    assert (before + [ResetAnimations])[..|before|] == before;
  }

  /** The value a flag was last given in `acts`, or `init` when no action sets it; a
      reference definition that reads the actions from the back. */
  function LastSet(acts: seq<Action>, f: Flag, init: bool): bool {
    if |acts| == 0 then init
    else match SetBy(acts[|acts| - 1], f)
      case Some(b) => b
      case None => LastSet(acts[..|acts| - 1], f, init)
  }

  /** Each flag shows exactly what the last action that owns it said. */
  lemma {:induction false} FlagIsLastSet(s: AnimationState, acts: seq<Action>, f: Flag)
    ensures FlagValue(Run(s, acts), f) == LastSet(acts, f, FlagValue(s, f))
  {
    if |acts| > 0 {
      FlagIsLastSet(s, acts[..|acts| - 1], f);
    }
  }

  /** Dispatching the same action twice in a row is the same as once, except SHOW_XP,
      which restarts the animation and so bumps the key again. */
  lemma RepeatIsIdempotent(s: AnimationState, a: Action)
    requires !a.ShowXp?
    ensures Reduce(Reduce(s, a), a) == Reduce(s, a)
  {
  }
}
