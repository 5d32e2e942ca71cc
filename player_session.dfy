/**
 * A session of the player: the actions that consumers of the player context
 * call, one after another, each one an atomic transition of PlayerModel.
 */
module PlayerSession {
  import opened PlayerModel

  /** One call of an action function; PlayNext carries the random draw num / den. */
  datatype Action<E> =
    | Play(episode: E)
    | PlayList(list: seq<E>, index: int)
    | ToggleLoop
    | TogglePlay
    | ToggleShuffle
    | SetPlayingState(state: bool)
    | PlayNext(num: nat, den: nat)
    | PlayPrevious
    | ClearPlayerState

  /** The random draw of a PlayNext is a number in [0, 1). */
  predicate DrawInRange<E>(a: Action<E>)
  {
    a.PlayNext? ==> a.num < a.den
  }

  /** An action that keeps the invariant: a well-formed draw and, for playList, an index that fits. */
  predicate Admissible<E>(a: Action<E>)
  {
    DrawInRange(a) && (a.PlayList? ==> IndexFits(a.list, a.index))
  }

  /** Every draw in the trace is in [0, 1). */
  predicate DrawsInRange<E>(trace: seq<Action<E>>)
  {
    forall i :: 0 <= i < |trace| ==> DrawInRange(trace[i])
  }

  /** Every action of the trace is admissible. */
  predicate AllAdmissible<E>(trace: seq<Action<E>>)
    ensures AllAdmissible(trace) ==> DrawsInRange(trace)
  {
    forall i :: 0 <= i < |trace| ==> Admissible(trace[i])
  }

  /**
   * The effect of one action. Every action other than playList keeps the
   * invariant; playList keeps it exactly when its index fits its list.
   */
  function Step<E>(s: PlayerState<E>, a: Action<E>): (t: PlayerState<E>)
    requires DrawInRange(a)
    ensures Admissible(a) && IndexInvariant(s) ==> IndexInvariant(t)
    ensures a.PlayList? ==> (IndexInvariant(t) <==> IndexFits(a.list, a.index))
  {
    match a
    case Play(e) => PlayerModel.Play(s, e)
    case PlayList(list, index) => PlayerModel.PlayList(s, list, index)
    case ToggleLoop => PlayerModel.ToggleLoop(s)
    case TogglePlay => PlayerModel.TogglePlay(s)
    case ToggleShuffle => PlayerModel.ToggleShuffle(s)
    case SetPlayingState(b) => PlayerModel.SetPlayingState(s, b)
    case PlayNext(num, den) => PlayerModel.PlayNext(s, num, den)
    case PlayPrevious => PlayerModel.PlayPrevious(s)
    case ClearPlayerState => PlayerModel.ClearPlayerState(s)
  }

  /** The state after performing the actions of a trace in order. */
  function Run<E>(s: PlayerState<E>, trace: seq<Action<E>>): PlayerState<E>
    requires DrawsInRange(trace)
    decreases |trace|
  {
    if trace == [] then s else Run(Step(s, trace[0]), trace[1..])
  }

  /** Every trace of admissible actions keeps the invariant. */
  lemma {:induction false} RunKeepsInvariant<E>(s: PlayerState<E>, trace: seq<Action<E>>)
    requires IndexInvariant(s)
    requires AllAdmissible(trace)
    ensures IndexInvariant(Run(s, trace))
    decreases |trace|
  {
    if trace != [] {
      RunKeepsInvariant(Step(s, trace[0]), trace[1..]);
    }
  }

  /** Every state reachable from the initial one through admissible actions keeps the invariant. */
  lemma ReachableStatesKeepInvariant<E>(trace: seq<Action<E>>)
    requires AllAdmissible(trace)
    ensures IndexInvariant(Run(Initial(), trace))
  {
    RunKeepsInvariant(Initial(), trace);
  }

  /** The number of toggleLoop calls in a trace. */
  function LoopToggles<E>(trace: seq<Action<E>>): nat
  {
    if trace == [] then 0 else (if trace[0].ToggleLoop? then 1 else 0) + LoopToggles(trace[1..])
  }

  /** Only toggleLoop touches isLooping: after a trace it is flipped once per toggleLoop call. */
  lemma {:induction false} LoopingFollowsToggles<E>(s: PlayerState<E>, trace: seq<Action<E>>)
    requires DrawsInRange(trace)
    ensures Run(s, trace).isLooping == (s.isLooping != (LoopToggles(trace) % 2 == 1))
    decreases |trace|
  {
    if trace != [] {
      LoopingFollowsToggles(Step(s, trace[0]), trace[1..]);
    }
  }

  /**
   * A corollary of PlayerModel.PlayList: one playList step whose index does
   * not fit its list leaves an invalid state, from any state.
   */
  lemma InadmissiblePlayListBreaksInvariant<E>(s: PlayerState<E>, list: seq<E>, index: int)
    requires !IndexFits(list, index)
    ensures !IndexInvariant(Step(s, PlayList(list, index)))
  {
  }
}
