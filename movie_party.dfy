/** The integration layer of `js/movie-party.js`: one page-wide movie party
    that is either active or inactive, a nullable player object, and the
    host's start/stop button.

    A player object is named by the number of players created before it;
    `destroyed` lists, in order, the players whose `destroy` was called. */
module MovieParty {
  import opened Strings

  const StopLabel: string := "\U{1F6D1} Stop Movie Party"
  const StartLabel: string := "\U{1F3AC} Start Movie Party"

  /** The label `updateMoviePartyButton` writes. */
  function LabelFor(active: bool): (text: string)
    ensures text == StopLabel <==> active
    ensures text == StartLabel <==> !active
  {
    if active then StopLabel else StartLabel
  }

  /** The mutable fields of the integration, as one value. */
  datatype PartyState = PartyState(active: bool, player: Option<nat>, created: nat, destroyed: seq<nat>,
                                   buttonVisible: bool, toggleListenerInstalled: bool, sectionVisible: bool,
                                   buttonText: string, fileDialogs: nat)

  class Integration {
    /** `sessionStorage.getItem("isHost") === "true"`, read once at load. */
    const isHost: bool
    /** `typeof MoviePartyPlayer !== 'undefined'`. */
    const playerClassAvailable: bool
    /** The button and its label `<span>` exist in the page. */
    const hasButton: bool
    const hasLabelSpan: bool
    const hasFileInput: bool

    var active: bool
    var player: Option<nat>
    var created: nat
    var destroyed: seq<nat>
    var buttonVisible: bool
    var toggleListenerInstalled: bool
    var sectionVisible: bool
    var buttonText: string
    /** How often the host's file picker was opened. */
    var fileDialogs: nat

    /** The party is active only with a player; every player named is one
        that was created, and the current player has not been destroyed. */
    ghost predicate Valid()
      reads this
    {
      (active ==> player.Some?) &&
      (player.Some? ==> player.value < created && player.value !in destroyed) &&
      (forall k :: 0 <= k < |destroyed| ==> destroyed[k] < created)
    }

    function State(): PartyState
      reads this
    {
      PartyState(active, player, created, destroyed, buttonVisible, toggleListenerInstalled,
                 sectionVisible, buttonText, fileDialogs)
    }

    /** The state `startMovieParty` leaves when it began in `s0`: unchanged
        when there is no player and the class is not loaded; otherwise a
        player (the old one, or a new one named by `created`), the section
        shown, the host's file picker opened once if there is a file input,
        the party active and the button reading "Stop". */
    ghost predicate Started(s0: PartyState)
      reads this
    {
      if s0.player.None? && !playerClassAvailable then State() == s0
      else
        active && sectionVisible &&
        player == (if s0.player.Some? then s0.player else Some(s0.created)) &&
        created == (if s0.player.Some? then s0.created else s0.created + 1) &&
        destroyed == s0.destroyed &&
        buttonVisible == s0.buttonVisible && toggleListenerInstalled == s0.toggleListenerInstalled &&
        fileDialogs == s0.fileDialogs + (if isHost && hasFileInput then 1 else 0) &&
        buttonText == (if hasButton && hasLabelSpan then StopLabel else s0.buttonText)
    }

    /** The state `stopMovieParty` leaves when it began in `s0`: the player,
        if any, destroyed and forgotten, the section hidden, the party
        inactive and the button reading "Start"; nothing else changes. */
    ghost predicate Stopped(s0: PartyState)
      reads this
    {
      !active && player == None && !sectionVisible && created == s0.created &&
      destroyed == s0.destroyed + (if s0.player.Some? then [s0.player.value] else []) &&
      buttonVisible == s0.buttonVisible && toggleListenerInstalled == s0.toggleListenerInstalled &&
      fileDialogs == s0.fileDialogs &&
      buttonText == (if hasButton && hasLabelSpan then StartLabel else s0.buttonText)
    }

    /** `initializeMovieParty` on `DOMContentLoaded`: create a player if the
        class is loaded, and show the button with its listener to hosts only. */
    constructor (isHost: bool, playerClassAvailable: bool, hasButton: bool, hasLabelSpan: bool,
                 hasFileInput: bool, initialText: string)
      ensures Valid()
      ensures this.isHost == isHost && this.playerClassAvailable == playerClassAvailable
      ensures this.hasButton == hasButton && this.hasLabelSpan == hasLabelSpan && this.hasFileInput == hasFileInput
      ensures !active && destroyed == [] && fileDialogs == 0 && !sectionVisible && buttonText == initialText
      ensures player == (if playerClassAvailable then Some(0) else None)
      ensures created == (if playerClassAvailable then 1 else 0)
      ensures buttonVisible == (isHost && hasButton) && toggleListenerInstalled == (isHost && hasButton)
    {
      this.isHost := isHost;
      this.playerClassAvailable := playerClassAvailable;
      this.hasButton := hasButton;
      this.hasLabelSpan := hasLabelSpan;
      this.hasFileInput := hasFileInput;
      active := false;
      destroyed := [];
      fileDialogs := 0;
      sectionVisible := false;
      buttonText := initialText;
      if playerClassAvailable {
        player := Some(0);
        created := 1;
      } else {
        player := None;
        created := 0;
      }
      buttonVisible := isHost && hasButton;
      toggleListenerInstalled := isHost && hasButton;
    }

    /** `updateMoviePartyButton`: nothing without the button or its span. */
    method UpdateMoviePartyButton()
      modifies this`buttonText
      ensures buttonText == if hasButton && hasLabelSpan then LabelFor(active) else old(buttonText)
    {
      if !hasButton || !hasLabelSpan {
        return;
      }
      buttonText := LabelFor(active);
    }

    /** `startMovieParty`: recreate a missing player, or return with nothing
        changed when the class is not loaded; then show the section, open
        the host's file picker, and become active. */
    method StartMovieParty()
      requires Valid()
      modifies this
      ensures Valid()
      ensures Started(old(State()))
    {
      if player.None? {
        if !playerClassAvailable {
          return;
        }
        player := Some(created);
        created := created + 1;
      }
      sectionVisible := true;
      if isHost && hasFileInput {
        fileDialogs := fileDialogs + 1;
      }
      active := true;
      UpdateMoviePartyButton();
    }

    /** `stopMovieParty`: destroy the player if there is one and forget it,
        hide the section and become inactive. */
    method StopMovieParty()
      requires Valid()
      modifies this
      ensures Valid()
      ensures Stopped(old(State()))
    {
      if player.Some? {
        destroyed := destroyed + [player.value];
        player := None;
      }
      sectionVisible := false;
      active := false;
      UpdateMoviePartyButton();
    }

    /** `handleMoviePartyToggle`: start when inactive, stop when active. */
    method HandleMoviePartyToggle()
      requires Valid()
      modifies this
      ensures Valid()
      ensures if old(active) then Stopped(old(State())) else Started(old(State()))
      ensures old(active) ==> !active && player == None
      ensures !old(active) && (old(player).Some? || playerClassAvailable) ==> active && player.Some?
      ensures !old(active) && old(player).None? && !playerClassAvailable ==> !active && player == None
    {
      if !active {
        StartMovieParty();
      } else {
        StopMovieParty();
      }
    }

    /** `window.handleMoviePartyEnded`: participants stop; the host, who sent
        the end, keeps its state. */
    method HandleMoviePartyEnded()
      requires Valid()
      modifies this
      ensures Valid()
      ensures if isHost then State() == old(State()) else Stopped(old(State()))
      ensures isHost ==> (active == old(active) && player == old(player) && destroyed == old(destroyed) &&
        buttonText == old(buttonText) && sectionVisible == old(sectionVisible))
      ensures !isHost ==> (!active && player == None &&
        destroyed == old(destroyed) + if old(player).Some? then [old(player).value] else [])
    {
      if !isHost {
        StopMovieParty();
      }
    }
  }
}
