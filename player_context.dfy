/**
 * The player context as the mutable object it is: five state cells and the
 * action functions that assign them. Each action is one atomic update whose
 * effect is the matching transition of PlayerModel.
 */
module PlayerContext {
  import opened PlayerModel

  class Player<E> {
    var episodeList: seq<E>
    var currentEpisodeIndex: int
    var isPlaying: bool
    var isLooping: bool
    var isShuffling: bool

    /** The current contents of the five cells, as a value. */
    function State(): PlayerState<E>
      reads this
    {
      PlayerState(episodeList, currentEpisodeIndex, isPlaying, isLooping, isShuffling)
    }

    /** The object invariant: the current index fits the episode list. */
    predicate Valid()
      reads this
    {
      IndexInvariant(State())
    }

    /** The provider's initial state: no episodes, index 0, every flag off. */
    constructor ()
      ensures State() == Initial() && Valid()
    {
      episodeList := [];
      currentEpisodeIndex := 0;
      isPlaying := false;
      isLooping := false;
      isShuffling := false;
    }

    /** hasPrevious: true exactly when playPrevious would move the index. */
    function HasPrevious(): (b: bool)
      reads this
      ensures b <==> PlayerModel.PlayPrevious(State()) != State()
      ensures b && Valid() ==> 0 <= currentEpisodeIndex - 1 < |episodeList|
    {
      HasPreviousMeansPlayPreviousMoves(State());
      PlayerModel.HasPrevious(State())
    }

    /** hasNext: always true in shuffle mode, otherwise true exactly when playNext would move the index. */
    function HasNext(): (b: bool)
      reads this
      ensures isShuffling ==> b
      ensures !isShuffling ==> (b <==> PlayerModel.PlayNext(State(), 0, 1) != State())
      ensures b && !isShuffling && Valid() ==> 0 <= currentEpisodeIndex + 1 < |episodeList|
    {
      if isShuffling then true
      else
        HasNextMeansPlayNextAdvances(State(), 0, 1);
        PlayerModel.HasNext(State())
    }

    method Play(episode: E)
      modifies this
      ensures State() == PlayerModel.Play(old(State()), episode)
      ensures Valid()
    {
      episodeList := [episode];
      currentEpisodeIndex := 0;
      isPlaying := true;
    }

    /** The index is stored unchecked: the invariant holds afterwards exactly when it fits. */
    method PlayList(list: seq<E>, index: int)
      modifies this
      ensures State() == PlayerModel.PlayList(old(State()), list, index)
      ensures Valid() <==> IndexFits(list, index)
    {
      episodeList := list;
      currentEpisodeIndex := index;
      isPlaying := true;
    }

    method ToggleLoop()
      modifies this
      ensures State() == PlayerModel.ToggleLoop(old(State()))
      ensures Valid() == old(Valid())
    {
      isLooping := !isLooping;
    }

    method TogglePlay()
      modifies this
      ensures State() == PlayerModel.TogglePlay(old(State()))
      ensures Valid() == old(Valid())
    {
      isPlaying := !isPlaying;
    }

    method ToggleShuffle()
      modifies this
      ensures State() == PlayerModel.ToggleShuffle(old(State()))
      ensures Valid() == old(Valid())
    {
      isShuffling := !isShuffling;
    }

    method SetPlayingState(state: bool)
      modifies this
      ensures State() == PlayerModel.SetPlayingState(old(State()), state)
      ensures Valid() == old(Valid())
    {
      isPlaying := state;
    }

    /** Math.random() is the draw num / den, a number in [0, 1). */
    method PlayNext(num: nat, den: nat)
      requires num < den
      modifies this
      ensures State() == PlayerModel.PlayNext(old(State()), num, den)
      ensures old(isShuffling) ==> Valid()
      ensures old(Valid()) ==> Valid()
    {
      if isShuffling {
        var next := ShuffleIndex(|episodeList|, num, den);
        currentEpisodeIndex := next;
      } else if HasNext() {
        currentEpisodeIndex := currentEpisodeIndex + 1;
      }
    }

    method PlayPrevious()
      modifies this
      ensures State() == PlayerModel.PlayPrevious(old(State()))
      ensures old(Valid()) ==> Valid()
    {
      if HasPrevious() {
        currentEpisodeIndex := currentEpisodeIndex - 1;
      }
    }

    /** Empties the list and resets the index; isPlaying is left as it was. */
    method ClearPlayerState()
      modifies this
      ensures State() == PlayerModel.ClearPlayerState(old(State()))
      ensures Valid()
    {
      episodeList := [];
      currentEpisodeIndex := 0;
    }
  }
}
