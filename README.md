# Podcast player state, verified

This project models the player context of the nlw5 podcast web application
(`src/contexts/PlayerContext.tsx`). The context holds an episode list, the
index of the current episode, and three flags: playing, looping and
shuffling. Its action functions move that state from one value to the next,
and the flags `hasPrevious` and `hasNext` are derived from it.

The model has three modules:

- `PlayerModel` (`player_model.dfy`): the state as a datatype `PlayerState<E>`
  and every action as a total transition function on it. The episode type is
  a parameter `E`, because no action looks inside an episode. The invariant
  `IndexInvariant` says that the index is a position in the list, or 0 when
  the list is empty. Each transition states which fields it changes, which it
  keeps, and whether it keeps the invariant. Lemmas relate the actions to each
  other and to the derived flags.
- `PlayerContext` (`player_context.dfy`): the context as a class `Player<E>`
  with the five state cells as fields. Each action is a method that assigns
  the fields the way the source calls the setters. Its postcondition equates
  the new `State()` with the `PlayerModel` transition of the old one, and
  says what becomes of `Valid()`.
- `PlayerSession` (`player_session.dfy`): a sequence of action calls as a
  trace. `RunKeepsInvariant` proves by induction that every trace of
  admissible actions keeps the invariant. An action is admissible when two
  conditions hold: a `playList` index fits its list, and a `playNext` draw
  `num / den` has `num < den`.

`Math.random()` is modelled as a draw `num / den` with `num < den`. Such a
draw is an exact rational in [0, 1). The shuffle pick
`Math.floor(Math.random() * length)` is then `(num * length) / den`, and
`ShuffleIndex` proves that this lies in [0, length), or is 0 for an empty list.

`playList` is modelled as written. It stores the index without a bounds
check, so the invariant holds afterwards exactly when the index fits the new
list. `PlayerModel.PlayList` and `PlayerSession.Step` state this in both
directions. A shuffle-mode `playNext` restores the invariant from any state.
`clearPlayerState` does not reset `isPlaying`, and the model keeps it that way.

## Model

| member | source | states |
|---|---|---|
| PlayerModel.Initial | src/contexts/PlayerContext.tsx:39-43 | the initial state has an empty list and all flags off, and it satisfies the index invariant |
| PlayerContext.Player.constructor | src/contexts/PlayerContext.tsx:39-43 | a fresh player is in the initial state and is valid |
| PlayerModel.Play | src/contexts/PlayerContext.tsx:45-49 | the list becomes `[episode]` and the current episode is that episode; isPlaying is set; looping and shuffling are kept; the invariant holds afterwards from any state |
| PlayerContext.Player.Play | src/contexts/PlayerContext.tsx:45-49 | the new state is the `play` transition of the old one, and the player is valid afterwards |
| PlayerModel.PlayList | src/contexts/PlayerContext.tsx:51-55 | the list and the index are taken as given, with no bounds check; the invariant holds afterwards exactly when the index fits the list; a valid index selects `list[index]`; isPlaying is set; looping and shuffling are kept |
| PlayerContext.Player.PlayList | src/contexts/PlayerContext.tsx:51-55 | the new state is the `playList` transition; the player is valid afterwards exactly when the index fits the list |
| PlayerModel.ToggleLoop | src/contexts/PlayerContext.tsx:58-60 | isLooping is negated and every other field is unchanged |
| PlayerContext.Player.ToggleLoop | src/contexts/PlayerContext.tsx:58-60 | the new state is the `toggleLoop` transition; validity is unchanged |
| PlayerModel.TogglePlay | src/contexts/PlayerContext.tsx:62-64 | isPlaying is negated and every other field is unchanged |
| PlayerContext.Player.TogglePlay | src/contexts/PlayerContext.tsx:62-64 | the new state is the `togglePlay` transition; validity is unchanged |
| PlayerModel.ToggleShuffle | src/contexts/PlayerContext.tsx:66-68 | isShuffling is negated and every other field is unchanged |
| PlayerContext.Player.ToggleShuffle | src/contexts/PlayerContext.tsx:66-68 | the new state is the `toggleShuffle` transition; validity is unchanged |
| PlayerModel.TogglesAreInvolutions | src/contexts/PlayerContext.tsx:58-68 | calling any of the three toggles twice restores the original state |
| PlayerModel.SetPlayingState | src/contexts/PlayerContext.tsx:70-72 | isPlaying becomes the given value and every other field is unchanged |
| PlayerContext.Player.SetPlayingState | src/contexts/PlayerContext.tsx:70-72 | the new state is the `setPlayingState` transition; validity is unchanged |
| PlayerModel.SetPlayingStateIdempotent | src/contexts/PlayerContext.tsx:62-72 | setPlayingState is idempotent; setting the current value is a no-op; setting the opposite value is togglePlay |
| PlayerModel.HasPrevious | src/contexts/PlayerContext.tsx:74 | in a valid state, hasPrevious holds only when the previous position is in the list, and fails only at index 0; `HasPreviousMeansPlayPreviousMoves` ties it to playPrevious |
| PlayerModel.HasNext | src/contexts/PlayerContext.tsx:75 | hasNext always holds in shuffle mode; out of it, in a valid state, it holds only when the next position is in the list, and fails only on the last episode or an empty list; `HasNextMeansPlayNextAdvances` ties it to playNext |
| PlayerContext.Player.HasPrevious | src/contexts/PlayerContext.tsx:74 | hasPrevious holds exactly when playPrevious would move the index; in a valid state the previous position is then in the list |
| PlayerModel.HasPreviousMeansPlayPreviousMoves | src/contexts/PlayerContext.tsx:74 | hasPrevious holds exactly when playPrevious changes the state, that is, when it decrements the index; in a valid state the previous position is in the list |
| PlayerContext.Player.HasNext | src/contexts/PlayerContext.tsx:75 | hasNext always holds in shuffle mode; otherwise it holds exactly when playNext would move the index, and in a valid state the next position is then in the list |
| PlayerModel.HasNextMeansPlayNextAdvances | src/contexts/PlayerContext.tsx:75-84 | out of shuffle mode, hasNext holds exactly when playNext increments the index; otherwise playNext is a no-op; in a valid state the next position is in the list |
| PlayerModel.DrawBelowLength | src/contexts/PlayerContext.tsx:79 | a draw below one times a positive length, rounded down, is below that length |
| PlayerModel.ShuffleIndex | src/contexts/PlayerContext.tsx:79 | the shuffle pick is the floor of draw times length, so it lies in [0, length), and is 0 for an empty list |
| PlayerModel.ShuffleLandsInRange | src/contexts/PlayerContext.tsx:75-80 | in shuffle mode hasNext holds, and playNext lands in [0, length), or on 0 for an empty list |
| PlayerModel.PlayNext | src/contexts/PlayerContext.tsx:77-84 | only the index changes; shuffle mode establishes the invariant from any state; the invariant is kept in every mode |
| PlayerContext.Player.PlayNext | src/contexts/PlayerContext.tsx:77-84 | the new state is the `playNext` transition for the given draw; the player is valid afterwards in shuffle mode, and stays valid otherwise |
| PlayerModel.PlayPrevious | src/contexts/PlayerContext.tsx:86-90 | only the index changes; it never increases, never becomes negative from a non-negative index, and the invariant is kept |
| PlayerContext.Player.PlayPrevious | src/contexts/PlayerContext.tsx:86-90 | the new state is the `playPrevious` transition; validity is kept |
| PlayerModel.ClearPlayerState | src/contexts/PlayerContext.tsx:92-95 | from any state the list becomes empty and the invariant holds; all three flags, isPlaying included, are kept |
| PlayerContext.Player.ClearPlayerState | src/contexts/PlayerContext.tsx:92-95 | the new state is the `clearPlayerState` transition, and the player is valid afterwards |
| PlayerModel.PlayListPastTheEndBreaksInvariant | src/contexts/PlayerContext.tsx:51-55 | an index of 1 or -1 on a one-episode list breaks the invariant |
| PlayerModel.PlayListMiddleExample | src/contexts/PlayerContext.tsx:51-55 | playList of three episodes at index 1 plays index 1, with both hasPrevious and hasNext true |
| PlayerModel.FirstOfTwoExample | src/contexts/PlayerContext.tsx:77-90 | on two episodes at index 0, playPrevious is a no-op; playNext moves to index 1; there hasNext is false and a further playNext is a no-op |
| PlayerSession.Step | src/contexts/PlayerContext.tsx:20-28 | one call of any action keeps the invariant when the action is admissible; playList keeps it exactly when its index fits |
| PlayerSession.RunKeepsInvariant | src/contexts/PlayerContext.tsx:45-95 | every trace of admissible actions, run from a valid state, ends in a valid state |
| PlayerSession.ReachableStatesKeepInvariant | src/contexts/PlayerContext.tsx:39-95 | every state reached from the initial one through admissible actions is valid |
| PlayerSession.LoopingFollowsToggles | src/contexts/PlayerContext.tsx:58-60 | over any trace, isLooping is flipped once per toggleLoop call and by no other action |
| PlayerSession.InadmissiblePlayListBreaksInvariant | src/contexts/PlayerContext.tsx:51-55 | a corollary of `PlayerModel.PlayList`: from any state, one playList step whose index does not fit its list leaves an invalid state |

## Left out

- The React machinery is not modelled: the context object, the `usePlayer` hook, the provider component and its markup (src/contexts/PlayerContext.tsx:1, 36, 97-124).
- React's batched and stale-closure state updates are not modelled. Each action is one atomic transition on the current state.
- Episode fields (title, members, thumbnail, duration, url) are not modelled. No logic reads them, so an episode is an opaque type parameter.
- The audio element and its media events, which call `setPlayingState`, are outside this file and are not modelled.
- The episode list is modelled as a value. The source stores the caller's array by reference, so a caller that later shrinks that array (for example `l.length = 0` after `playList(l, 2)`) can break the invariant without any bad index. Such later changes to the caller's array are not modelled, and ReachableStatesKeepInvariant assumes none happen.
- The index is modelled as an unbounded integer. JavaScript numbers that are not integers or that lie beyond 2^53, and NaN, are not modelled.
- ShuffleIndex: models `Math.random()` as an exact rational draw in [0, 1). It does not model floating-point rounding of the product, or uniformity of the distribution.
