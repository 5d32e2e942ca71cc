/**
 * The podcast player's state, as a value, and every action of the player
 * context as a total transition from one state to the next.
 *
 * An episode is opaque here (type parameter E): no action looks inside it.
 */
module PlayerModel {

  /** The five state cells of the player context. */
  datatype PlayerState<E> = PlayerState(
    episodeList: seq<E>,
    currentEpisodeIndex: int,
    isPlaying: bool,
    isLooping: bool,
    isShuffling: bool)

  /** An index fits a list when it is a position in it, or 0 when the list is empty. */
  predicate IndexFits<E>(list: seq<E>, index: int)
  {
    if |list| == 0 then index == 0 else 0 <= index < |list|
  }

  /** The player's invariant: the current index fits the episode list. */
  predicate IndexInvariant<E>(s: PlayerState<E>)
  {
    IndexFits(s.episodeList, s.currentEpisodeIndex)
  }

  /** The state the provider starts with: no episodes, index 0, every flag off. */
  function Initial<E>(): (s: PlayerState<E>)
    ensures IndexInvariant(s)
    ensures s.episodeList == [] && !s.isPlaying && !s.isLooping && !s.isShuffling
  {
    PlayerState([], 0, false, false, false)
  }

  /** play(episode): the episode becomes the whole list and starts playing. */
  function Play<E>(s: PlayerState<E>, episode: E): (t: PlayerState<E>)
    ensures IndexInvariant(t)
    ensures t.episodeList == [episode] && t.episodeList[t.currentEpisodeIndex] == episode
    ensures t.isPlaying
    ensures t.isLooping == s.isLooping && t.isShuffling == s.isShuffling
  {
    s.(episodeList := [episode], currentEpisodeIndex := 0, isPlaying := true)
  }

  /**
   * playList(list, index): the list is replaced and the index is taken as
   * given, without any bounds check, so the invariant holds afterwards
   * exactly when the index fits the new list.
   */
  function PlayList<E>(s: PlayerState<E>, list: seq<E>, index: int): (t: PlayerState<E>)
    ensures IndexInvariant(t) <==> IndexFits(list, index)
    ensures t.episodeList == list && t.currentEpisodeIndex == index
    ensures 0 <= index < |list| ==> t.episodeList[t.currentEpisodeIndex] == list[index]
    ensures t.isPlaying
    ensures t.isLooping == s.isLooping && t.isShuffling == s.isShuffling
  {
    s.(episodeList := list, currentEpisodeIndex := index, isPlaying := true)
  }

  /** toggleLoop(): negates isLooping and nothing else. */
  function ToggleLoop<E>(s: PlayerState<E>): (t: PlayerState<E>)
    ensures t.isLooping == !s.isLooping
    ensures t.(isLooping := s.isLooping) == s
  {
    s.(isLooping := !s.isLooping)
  }

  /** togglePlay(): negates isPlaying and nothing else. */
  function TogglePlay<E>(s: PlayerState<E>): (t: PlayerState<E>)
    ensures t.isPlaying == !s.isPlaying
    ensures t.(isPlaying := s.isPlaying) == s
  {
    s.(isPlaying := !s.isPlaying)
  }

  /** toggleShuffle(): negates isShuffling and nothing else. */
  function ToggleShuffle<E>(s: PlayerState<E>): (t: PlayerState<E>)
    ensures t.isShuffling == !s.isShuffling
    ensures t.(isShuffling := s.isShuffling) == s
  {
    s.(isShuffling := !s.isShuffling)
  }

  /** setPlayingState(state): isPlaying becomes state, nothing else changes. */
  function SetPlayingState<E>(s: PlayerState<E>, state: bool): (t: PlayerState<E>)
    ensures t.isPlaying == state
    ensures t.(isPlaying := s.isPlaying) == s
  {
    s.(isPlaying := state)
  }

  /**
   * The derived flag hasPrevious. In a state that keeps the invariant it holds
   * when the previous position is in the list, and fails only at index 0.
   */
  function HasPrevious<E>(s: PlayerState<E>): (r: bool)
    ensures r && IndexInvariant(s) ==> 0 <= s.currentEpisodeIndex - 1 < |s.episodeList|
    ensures !r && IndexInvariant(s) ==> s.currentEpisodeIndex == 0
  {
    s.currentEpisodeIndex > 0
  }

  /**
   * The derived flag hasNext: shuffling always has a next episode. Out of
   * shuffle mode, in a state that keeps the invariant, it holds when the next
   * position is in the list, and fails only on the last episode or an empty list.
   */
  function HasNext<E>(s: PlayerState<E>): (r: bool)
    ensures s.isShuffling ==> r
    ensures r && !s.isShuffling && IndexInvariant(s) ==> 0 <= s.currentEpisodeIndex + 1 < |s.episodeList|
    ensures !r && IndexInvariant(s) ==> |s.episodeList| == 0 || s.currentEpisodeIndex == |s.episodeList| - 1
  {
    s.isShuffling || s.currentEpisodeIndex + 1 < |s.episodeList|
  }

  /** A draw num/den with num < den is below one, so num * len / den is below len. */
  lemma DrawBelowLength(len: nat, num: nat, den: nat)
    requires num < den && 0 < len
    ensures (num * len) / den < len
  {
    // The key step: num * len stays below den * len, a whole multiple of den.
    assert num * len < den * len;
  }

  /**
   * The index that shuffle mode picks: Math.floor(Math.random() * len), with
   * the random number in [0, 1) given as the fraction num / den. It lies in
   * [0, len), and is 0 when the list is empty.
   */
  function ShuffleIndex(len: nat, num: nat, den: nat): (k: nat)
    requires num < den
    ensures len == 0 ==> k == 0
    ensures len > 0 ==> k < len
    ensures k * den <= num * len < (k + 1) * den
  {
    if len == 0 then 0
    else
      DrawBelowLength(len, num, den);
      (num * len) / den
  }

  /**
   * playNext(): in shuffle mode the index becomes the random pick; otherwise
   * it advances when hasNext holds and stays put when it does not. Only the
   * index ever changes.
   */
  function PlayNext<E>(s: PlayerState<E>, num: nat, den: nat): (t: PlayerState<E>)
    requires num < den
    ensures t.(currentEpisodeIndex := s.currentEpisodeIndex) == s
    ensures s.isShuffling ==> IndexInvariant(t)
    ensures IndexInvariant(s) ==> IndexInvariant(t)
  {
    if s.isShuffling then
      s.(currentEpisodeIndex := ShuffleIndex(|s.episodeList|, num, den))
    else if HasNext(s) then
      s.(currentEpisodeIndex := s.currentEpisodeIndex + 1)
    else
      s
  }

  /**
   * playPrevious(): the index steps back when hasPrevious holds. It never
   * moves forward, never goes below 0 from a non-negative index, and only the
   * index changes.
   */
  function PlayPrevious<E>(s: PlayerState<E>): (t: PlayerState<E>)
    ensures t.(currentEpisodeIndex := s.currentEpisodeIndex) == s
    ensures t.currentEpisodeIndex <= s.currentEpisodeIndex
    ensures s.currentEpisodeIndex >= 0 ==> t.currentEpisodeIndex >= 0
    ensures IndexInvariant(s) ==> IndexInvariant(t)
  {
    if HasPrevious(s) then s.(currentEpisodeIndex := s.currentEpisodeIndex - 1) else s
  }

  /**
   * clearPlayerState(): the list empties and the index returns to 0 from any
   * state; the three flags, isPlaying included, are kept.
   */
  function ClearPlayerState<E>(s: PlayerState<E>): (t: PlayerState<E>)
    ensures IndexInvariant(t) && t.episodeList == []
    ensures t.isPlaying == s.isPlaying && t.isLooping == s.isLooping && t.isShuffling == s.isShuffling
  {
    s.(episodeList := [], currentEpisodeIndex := 0)
  }

  /** Each toggle undoes itself. */
  lemma TogglesAreInvolutions<E>(s: PlayerState<E>)
    ensures ToggleLoop(ToggleLoop(s)) == s
    ensures TogglePlay(TogglePlay(s)) == s
    ensures ToggleShuffle(ToggleShuffle(s)) == s
  {
  }

  /** setPlayingState is idempotent, and setting the current value changes nothing. */
  lemma SetPlayingStateIdempotent<E>(s: PlayerState<E>, state: bool)
    ensures SetPlayingState(SetPlayingState(s, state), state) == SetPlayingState(s, state)
    ensures SetPlayingState(s, s.isPlaying) == s
    ensures SetPlayingState(s, !s.isPlaying) == TogglePlay(s)
  {
  }

  /**
   * hasPrevious holds exactly when playPrevious moves, and then (in a state
   * that keeps the invariant) the previous position is in the list.
   */
  lemma HasPreviousMeansPlayPreviousMoves<E>(s: PlayerState<E>)
    ensures HasPrevious(s) <==> PlayPrevious(s) != s
    ensures HasPrevious(s) <==> PlayPrevious(s).currentEpisodeIndex == s.currentEpisodeIndex - 1
    ensures HasPrevious(s) && IndexInvariant(s) ==> 0 <= s.currentEpisodeIndex - 1 < |s.episodeList|
  {
  }

  /**
   * Out of shuffle mode, hasNext holds exactly when playNext advances the
   * index by one, and otherwise playNext is a no-op; in a state that keeps
   * the invariant the next position is then in the list.
   */
  lemma HasNextMeansPlayNextAdvances<E>(s: PlayerState<E>, num: nat, den: nat)
    requires num < den && !s.isShuffling
    ensures HasNext(s) <==> PlayNext(s, num, den).currentEpisodeIndex == s.currentEpisodeIndex + 1
    ensures !HasNext(s) <==> PlayNext(s, num, den) == s
    ensures HasNext(s) && IndexInvariant(s) ==> 0 <= s.currentEpisodeIndex + 1 < |s.episodeList|
  {
  }

  /** In shuffle mode hasNext always holds and playNext lands on the draw's position. */
  lemma ShuffleLandsInRange<E>(s: PlayerState<E>, num: nat, den: nat)
    requires num < den && s.isShuffling
    ensures HasNext(s)
    ensures |s.episodeList| > 0 ==> 0 <= PlayNext(s, num, den).currentEpisodeIndex < |s.episodeList|
    ensures |s.episodeList| == 0 ==> PlayNext(s, num, den).currentEpisodeIndex == 0
  {
  }

  /** playList with an index past a one-episode list breaks the invariant. */
  lemma PlayListPastTheEndBreaksInvariant<E>(s: PlayerState<E>, episode: E)
    ensures !IndexInvariant(PlayList(s, [episode], 1))
    ensures !IndexInvariant(PlayList(s, [episode], -1))
  {
  }

  /** playList([e0, e1, e2], 1) plays the middle episode, with episodes before and after it. */
  lemma PlayListMiddleExample<E>(s: PlayerState<E>, e0: E, e1: E, e2: E)
    ensures var t := PlayList(s, [e0, e1, e2], 1);
      t.currentEpisodeIndex == 1 && t.isPlaying && HasPrevious(t) && HasNext(t)
  {
  }

  /** On [a, b] at index 0, playPrevious is a no-op; playNext out of shuffle mode moves to b. */
  lemma FirstOfTwoExample<E>(s: PlayerState<E>, a: E, b: E, num: nat, den: nat)
    requires num < den && !s.isShuffling
    ensures var t := PlayList(s, [a, b], 0);
      PlayPrevious(t) == t && PlayNext(t, num, den).currentEpisodeIndex == 1
      && !HasNext(PlayNext(t, num, den)) && PlayNext(PlayNext(t, num, den), num, den) == PlayNext(t, num, den)
  {
  }
}
