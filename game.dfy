/** The game reducer's state and the synchronous part of its actions.
    Each method is one case of the reducer; it changes only the fields its
    `modifies` clause names and returns the effects the case asks for. */
module Game {
  import opened GameTypes
  import opened Selection
  import opened GameRules
  import opened Sounds

  /** The `isValidWord` that `removeCube` hands to `verify`: no word is valid. */
  function NoWord(word: string): bool
  {
    false
  }

  /** The move `submitButtonTapped` proposes: the selected faces, scored as the
      word they spell, by the local player, with the reaction keyed by the local
      player's index when both are known. */
  function SubmittedMove<P>(env: Env<P>, cubes: P, gameContext: GameContext, selectedWord: seq<IndexedCubeFace>,
                            reaction: Option<Reaction>, playedAt: int): (m: Move)
    ensures m.moveType == MoveType.PlayedWord(selectedWord) && m.playedAt == playedAt
    ensures m.score == env.score(env.stringOf(cubes, selectedWord))
    ensures !gameContext.TurnBased? ==> m.playerIndex.None? && m.reactions.None?
    ensures gameContext.TurnBased? ==> m.playerIndex == gameContext.context.localPlayerIndex
    ensures m.reactions.Some? <==> m.playerIndex.Some? && reaction.Some?
    ensures m.reactions.Some? ==> m.reactions.value == map[m.playerIndex.value := reaction.value]
  {
    var playerIndex := LocalPlayerIndex(gameContext);
    Move(
      playedAt,
      playerIndex,
      if playerIndex.Some? && reaction.Some? then Some(map[playerIndex.value := reaction.value]) else None,
      env.score(env.stringOf(cubes, selectedWord)),
      MoveType.PlayedWord(selectedWord))
  }

  /** The move `removeCube(at:playedAt:)` proposes: worth nothing, by the local
      player, or by no one outside turn-based games. */
  function RemovalMove(gameContext: GameContext, point: LatticePoint, playedAt: int): (m: Move)
    ensures m.score == 0 && m.moveType == RemovedCube(point) && m.reactions.None? && m.playedAt == playedAt
    ensures !gameContext.TurnBased? ==> m.playerIndex.None?
    ensures gameContext.TurnBased? ==> m.playerIndex == gameContext.context.localPlayerIndex
  {
    Move(playedAt, LocalPlayerIndex(gameContext), None, 0, RemovedCube(point))
  }

  /** The faces of a submitted word whose cube is no longer in play; each gets a
      cube-removal sound. */
  function RemovedFaces<P>(env: Env<P>, cubes: P, faces: seq<IndexedCubeFace>): (r: seq<IndexedCubeFace>)
    ensures forall f :: f in r <==> f in faces && !env.isInPlay(cubes, f.index)
    // one sound per submitted face whose cube left play, and no other
    ensures forall f :: multiset(r)[f] == if env.isInPlay(cubes, f.index) then 0 else multiset(faces)[f]
  {
    if faces == [] then []
    else
      assert faces == [faces[0]] + faces[1..];
      (if env.isInPlay(cubes, faces[0].index) then [] else [faces[0]]) + RemovedFaces(env, cubes, faces[1..])
  }

  class GameState<P> {
    const env: Env<P>
    var alert: Option<Alert>
    var bottomMenu: Option<BottomMenu>
    var cubes: P
    var cubeStartedShakingAt: Option<int>
    var gameContext: GameContext
    var gameCurrentTime: int
    var gameMode: GameMode
    var isGameLoaded: bool
    var isGameOver: bool
    var isPanning: bool
    var isSettingsPresented: bool
    var moves: seq<Move>
    var optimisticallySelectedFace: Option<IndexedCubeFace>
    var secondsPlayed: int
    var selectedWord: seq<IndexedCubeFace>
    var selectedWordIsValid: bool

    /** The selection is always a duplicate-free chain of touching faces. */
    ghost predicate Valid()
      reads this
    {
      WellFormed(env.isTouching, selectedWord)
    }

    /** `Game.State.init` with its defaults. */
    constructor (env: Env<P>, cubes: P, gameContext: GameContext, gameCurrentTime: int, gameMode: GameMode, moves: seq<Move>)
      ensures Valid()
      ensures this.env == env && this.cubes == cubes && this.gameContext == gameContext
      ensures this.gameCurrentTime == gameCurrentTime && this.gameMode == gameMode && this.moves == moves
      ensures alert.None? && bottomMenu.None? && cubeStartedShakingAt.None?
      ensures !isGameLoaded && !isGameOver && !isPanning && !isSettingsPresented
      ensures optimisticallySelectedFace.None? && secondsPlayed == 0 && selectedWord == [] && !selectedWordIsValid
    {
      this.env := env;
      this.alert := None;
      this.bottomMenu := None;
      this.cubes := cubes;
      this.cubeStartedShakingAt := None;
      this.gameContext := gameContext;
      this.gameCurrentTime := gameCurrentTime;
      this.gameMode := gameMode;
      this.isGameLoaded := false;
      this.isGameOver := false;
      this.isPanning := false;
      this.isSettingsPresented := false;
      this.moves := moves;
      this.optimisticallySelectedFace := None;
      this.secondsPlayed := 0;
      this.selectedWord := [];
      this.selectedWordIsValid := false;
    }

    /** `selectedWordString`. */
    function SelectedWordString(): string
      reads this
    {
      env.stringOf(cubes, selectedWord)
    }

    /** `selectedWordHasAlreadyBeenPlayed`: some played word spells the selection. */
    function SelectedWordHasAlreadyBeenPlayed(): (r: bool)
      reads this
      ensures r <==> exists i :: 0 <= i < |moves| && Spells(env.stringOf, cubes, moves[i], SelectedWordString())
    {
      HasBeenPlayed(env.stringOf, cubes, moves, SelectedWordString())
    }

    // ------------------------------------------------------------ actions

    /** `alert(.dismiss)` and `alert(.dontForfeitButtonTapped)`. */
    method AlertDismissed()
      modifies this`alert
      ensures alert.None?
    {
      alert := None;
    }

    /** `alert(.forfeitButtonTapped)`: closes the alert and, in a turn-based
      game, asks Game Center to end the match for the local player. */
    method AlertForfeitButtonTapped() returns (effect: Option<Effect>)
      modifies this`alert
      ensures alert.None?
      ensures effect == if gameContext.TurnBased? then Some(ForfeitMatch) else None
    {
      alert := None;
      effect := if gameContext.TurnBased? then Some(ForfeitMatch) else None;
    }

    /** `forfeitGameButtonTapped`: asks to confirm the forfeit. */
    method ForfeitGameButtonTapped()
      modifies this`alert
      ensures alert == Some(ForfeitConfirmation)
    {
      alert := Some(ForfeitConfirmation);
    }

    /** `cancelButtonTapped`. */
    method CancelButtonTapped()
      requires Valid()
      modifies this`selectedWord
      ensures Valid() && selectedWord == []
    {
      selectedWord := [];
    }

    /** `removeCube(at:playedAt:)`: the removal move is appended exactly when
      `verify` accepts it; the puzzle is whatever `verify` leaves. */
    method RemoveCube(point: LatticePoint, playedAt: int)
      modifies this`cubes, this`moves
      ensures var move := RemovalMove(gameContext, point, playedAt);
              var outcome := env.verify(move, old(cubes), NoWord, old(moves));
              && cubes == outcome.cubes
              && moves == if outcome.succeeded then old(moves) + [move] else old(moves)
    {
      var move := RemovalMove(gameContext, point, playedAt);
      var outcome := env.verify(move, cubes, NoWord, moves);
      cubes := outcome.cubes;
      if !outcome.succeeded {
        return;
      }
      moves := moves + [move];
    }

    /** `confirmRemoveCube(index)`: closes the menu, removes the cube and clears
      the selection; the sounds reducer adds the cube-removal sound. */
    method ConfirmRemoveCube(point: LatticePoint, now: int) returns (effects: seq<Effect>)
      requires Valid()
      modifies this`bottomMenu, this`cubes, this`moves, this`selectedWord
      ensures Valid()
      ensures bottomMenu.None? && selectedWord == []
      ensures var move := RemovalMove(gameContext, point, now);
              var outcome := env.verify(move, old(cubes), NoWord, old(moves));
              && cubes == outcome.cubes
              && moves == if outcome.succeeded then old(moves) + [move] else old(moves)
      ensures effects == [Play(CubeRemove)]
    {
      bottomMenu := None;
      RemoveCube(point, now);
      selectedWord := [];
      effects := [Play(CubeRemove)];
    }

    /** `dismissBottomMenu`. */
    method DismissBottomMenu()
      modifies this`bottomMenu
      ensures bottomMenu.None?
    {
      bottomMenu := None;
    }

    /** `menuButtonTapped`: shows the game menu. */
    method MenuButtonTapped()
      modifies this`bottomMenu
      ensures bottomMenu == Some(GameMenu)
    {
      bottomMenu := Some(GameMenu);
    }

    /** `tryToRemoveCube(at:)`: nothing when a cube may not be removed; in timed
      games the removal is confirmed at once; otherwise the removal menu opens. */
    method TryToRemoveCube(point: LatticePoint) returns (effect: Option<Effect>)
      modifies this`bottomMenu
      ensures !CanRemoveCube(gameContext, moves) ==> effect.None? && bottomMenu == old(bottomMenu)
      // a resumable game never removes a cube without asking first
      ensures IsResumable(gameMode, isGameOver) ==> effect.None?
      ensures CanRemoveCube(gameContext, moves) && gameMode == Timed ==>
        effect == Some(ConfirmRemoveCubeAction(point)) && bottomMenu == old(bottomMenu)
      ensures CanRemoveCube(gameContext, moves) && gameMode != Timed ==>
        effect.None? && bottomMenu == Some(RemoveCubeMenu(point, IsTurnEndingRemoval(gameContext, moves)))
    {
      effect := None;
      if !CanRemoveCube(gameContext, moves) {
        return;
      }
      if gameMode == Timed {
        effect := Some(ConfirmRemoveCubeAction(point));
        return;
      }
      var isTurnEndingRemoval := IsTurnEndingRemoval(gameContext, moves);
      bottomMenu := Some(RemoveCubeMenu(point, isTurnEndingRemoval));
    }

    /** `doubleTap(index:)`: tries to remove the cube only while at most one face is selected. */
    method DoubleTap(point: LatticePoint) returns (effect: Option<Effect>)
      modifies this`bottomMenu
      ensures |selectedWord| > 1 ==> effect.None? && bottomMenu == old(bottomMenu)
      ensures IsResumable(gameMode, isGameOver) ==> effect.None?
      ensures |selectedWord| <= 1 && !CanRemoveCube(gameContext, moves) ==> effect.None? && bottomMenu == old(bottomMenu)
      ensures |selectedWord| <= 1 && CanRemoveCube(gameContext, moves) && gameMode == Timed ==>
        effect == Some(ConfirmRemoveCubeAction(point)) && bottomMenu == old(bottomMenu)
      ensures |selectedWord| <= 1 && CanRemoveCube(gameContext, moves) && gameMode != Timed ==>
        effect.None? && bottomMenu == Some(RemoveCubeMenu(point, IsTurnEndingRemoval(gameContext, moves)))
    {
      if |selectedWord| > 1 {
        return None;
      }
      effect := TryToRemoveCube(point);
    }

    /** `settingsButtonTapped`: presents the settings. */
    method SettingsButtonTapped()
      modifies this`isSettingsPresented
      ensures isSettingsPresented
    {
      isSettingsPresented := true;
    }

    /** `task`: a game that is not over takes the current time as its clock; the
      long-running work the case starts is not part of this model. */
    method Task(now: int)
      modifies this`gameCurrentTime
      ensures !isGameOver ==> gameCurrentTime == now
      ensures isGameOver ==> gameCurrentTime == old(gameCurrentTime)
    {
      if isGameOver {
        return;
      }
      gameCurrentTime := now;
    }

    /** `gameLoaded`: marks the game loaded and starts the one-second timer. */
    method GameLoaded() returns (effect: Effect)
      modifies this`isGameLoaded
      ensures isGameLoaded && effect == StartTimer
    {
      isGameLoaded := true;
      effect := StartTimer;
    }

    /** `pan(state, panData)`. */
    method Pan(gesture: GestureState, data: Option<PanData>)
      requires Valid()
      modifies this`isPanning, this`selectedWord
      ensures Valid()
      ensures gesture == Began ==> isPanning && selectedWord == old(selectedWord)
      ensures gesture == Changed && data.Some? ==>
        isPanning == old(isPanning) && selectedWord == PanChanged(env, cubes, old(selectedWord), data.value)
      ensures gesture == Cancelled || gesture == Failed || (gesture.Ended? && data.None?) ==>
        !isPanning && selectedWord == []
      ensures gesture == Possible || (gesture == Changed && data.None?) || (gesture.Ended? && data.Some?) ==>
        !isPanning && selectedWord == old(selectedWord)
    {
      match gesture
      case Began =>
        isPanning := true;
      case Changed =>
        if data.None? {
          isPanning := false;
        } else {
          selectedWord := PanChanged(env, cubes, selectedWord, data.value);
        }
      case Cancelled =>
        isPanning := false;
        selectedWord := [];
      case Failed =>
        isPanning := false;
        selectedWord := [];
      case Ended =>
        isPanning := false;
        if data.None? {
          selectedWord := [];
        }
      case Possible =>
        isPanning := false;
    }

    /** `tap(state, face)`. */
    method Tap(gesture: GestureState, face: Option<IndexedCubeFace>)
      requires Valid()
      modifies this`optimisticallySelectedFace, this`selectedWord
      ensures Valid()
      ensures gesture == Began ==>
        TapStart(selectedWord, optimisticallySelectedFace) == TapBegan(env, cubes, old(selectedWord), face)
      ensures gesture.Ended? ==>
        && optimisticallySelectedFace.None?
        && selectedWord == TapEnded(env, cubes, old(selectedWord), face, old(optimisticallySelectedFace), isPanning)
      ensures gesture == Cancelled || gesture == Failed ==>
        optimisticallySelectedFace.None? && selectedWord == old(selectedWord)
      ensures gesture == Possible || gesture == Changed ==>
        optimisticallySelectedFace == old(optimisticallySelectedFace) && selectedWord == old(selectedWord)
    {
      match gesture
      case Began =>
        var start := TapBegan(env, cubes, selectedWord, face);
        selectedWord := start.word;
        optimisticallySelectedFace := start.optimistic;
      case Ended =>
        selectedWord := TapEnded(env, cubes, selectedWord, face, optimisticallySelectedFace, isPanning);
        optimisticallySelectedFace := None;
      case Cancelled =>
        optimisticallySelectedFace := None;
      case Failed =>
        optimisticallySelectedFace := None;
      case _ =>
    }

    /** `submitButtonTapped(reaction:)` and `wordSubmitButton(.delegate(.confirmSubmit))`:
      the move is appended exactly when `verify` accepts it, and the selection is
      cleared either way. On success the faces whose cubes left play get a
      cube-removal sound. */
    method SubmitButtonTapped(reaction: Option<Reaction>, now: int) returns (effect: Option<Effect>)
      requires Valid()
      modifies this`cubes, this`moves, this`selectedWord
      ensures Valid() && selectedWord == []
      ensures var move := SubmittedMove(env, old(cubes), gameContext, old(selectedWord), reaction, now);
              var outcome := env.verify(move, old(cubes), env.dictionaryContains, old(moves));
              && cubes == outcome.cubes
              && moves == (if outcome.succeeded then old(moves) + [move] else old(moves))
              && effect == if outcome.succeeded then Some(PlayCubeRemoveSounds(RemovedFaces(env, cubes, old(selectedWord)))) else None
    {
      var move := SubmittedMove(env, cubes, gameContext, selectedWord, reaction, now);
      var outcome := env.verify(move, cubes, env.dictionaryContains, moves);
      cubes := outcome.cubes;
      effect := None;
      if outcome.succeeded {
        moves := moves + [move];
        effect := Some(PlayCubeRemoveSounds(RemovedFaces(env, cubes, selectedWord)));
      }
      selectedWord := [];
    }

    /** `timerTick(time)`: the clock always advances; a second of play is counted
      only on your turn in a game that is not over. */
    method TimerTick(time: int)
      modifies this`gameCurrentTime, this`secondsPlayed
      ensures gameCurrentTime == time
      ensures IsYourTurn(gameContext, moves) && !isGameOver ==> secondsPlayed == old(secondsPlayed) + 1
      ensures !(IsYourTurn(gameContext, moves) && !isGameOver) ==> secondsPlayed == old(secondsPlayed)
    {
      gameCurrentTime := time;
      if IsYourTurn(gameContext, moves) && !isGameOver {
        secondsPlayed := secondsPlayed + 1;
      }
    }

    // ------------------------------------------------------------ change handlers

    /** The game reducer's `onChange(of: \.selectedWord)` rule: a changed selection
      is valid when it has not been played and the dictionary contains it. */
    method SelectedWordChanged(previous: seq<IndexedCubeFace>)
      modifies this`selectedWordIsValid
      ensures previous == selectedWord ==> selectedWordIsValid == old(selectedWordIsValid)
      ensures previous != selectedWord ==>
        (selectedWordIsValid <==> !SelectedWordHasAlreadyBeenPlayed() && env.dictionaryContains(SelectedWordString()))
    {
      if previous != selectedWord {
        selectedWordIsValid := !SelectedWordHasAlreadyBeenPlayed() && env.dictionaryContains(SelectedWordString());
      }
    }

    /** The sounds reducer's `secondsPlayed` handler, with the length of the
      current game mode: plays the countdown sound `CountdownSound` picks. */
    method SecondsPlayedChanged(previous: int) returns (effect: Option<Effect>)
      ensures previous == secondsPlayed ==> effect.None?
      ensures previous != secondsPlayed && secondsPlayed == env.secondsOf(gameMode) - 10 ==>
        effect == Some(Play(Timed10SecWarning))
      ensures previous != secondsPlayed && env.secondsOf(gameMode) - 5 <= secondsPlayed <= env.secondsOf(gameMode) ==>
        effect == Some(Play(TimedCountdownTone))
      ensures (secondsPlayed != env.secondsOf(gameMode) - 10
               && !(env.secondsOf(gameMode) - 5 <= secondsPlayed <= env.secondsOf(gameMode))) ==> effect.None?
    {
      var sound := CountdownSound(previous, secondsPlayed, env.secondsOf(gameMode));
      effect := if sound.Some? then Some(Play(sound.value)) else None;
    }

    /** The sounds reducer's shake rule, run when the selection changes: keeps
      `cubeStartedShakingAt` while a valid word with a twice-used face stays
      selected, and starts the shake loop only when shaking begins. */
    method UpdateCubeShaking(previous: seq<IndexedCubeFace>, now: int) returns (effect: Option<Effect>)
      modifies this`cubeStartedShakingAt
      ensures previous == selectedWord ==> effect.None? && cubeStartedShakingAt == old(cubeStartedShakingAt)
      ensures previous != selectedWord ==>
        var previousWord := env.stringOf(cubes, previous);
        var previousWordIsValid := env.dictionaryContains(previousWord) && !HasBeenPlayed(env.stringOf, cubes, moves, previousWord);
        ShakeUpdate(cubeStartedShakingAt, effect)
          == ShakeStep(old(cubeStartedShakingAt), now, selectedWord == [],
                       IsShaking(env, cubes, previousWordIsValid, previous),
                       IsShaking(env, cubes, selectedWordIsValid, selectedWord))
    {
      effect := None;
      if previous == selectedWord {
        return;
      }
      if selectedWord == [] {
        cubeStartedShakingAt := None;
        effect := Some(CancelShakeLoop);
        return;
      }
      var previousWord := env.stringOf(cubes, previous);
      var previousWordIsValid := env.dictionaryContains(previousWord) && !HasBeenPlayed(env.stringOf, cubes, moves, previousWord);
      var cubeWasShaking := IsShaking(env, cubes, previousWordIsValid, previous);
      var cubeIsShaking := IsShaking(env, cubes, selectedWordIsValid, selectedWord);
      if cubeIsShaking {
        if cubeStartedShakingAt.None? {
          cubeStartedShakingAt := Some(now);
        }
        effect := if cubeWasShaking then None else Some(StartShakeLoop);
      } else {
        cubeStartedShakingAt := None;
        effect := Some(CancelShakeLoop);
      }
    }
  }

  /** A successful submit is never followed by the deselect sound: the word it
    appended is the last played word and spells the selection it cleared. */
  lemma AcceptedSubmitIsNotDeselected<P>(env: Env<P>, cubes: P, gameContext: GameContext, moves: seq<Move>,
                                         selection: seq<IndexedCubeFace>, reaction: Option<Reaction>, now: int)
    requires |selection| > 0
    ensures var move := SubmittedMove(env, cubes, gameContext, selection, reaction, now);
            var after := moves + [move];
            DeselectSound(selection, [], env.stringOf(cubes, selection),
                          LastPlayedWord(env.stringOf, cubes, LocalPlayerIndex(gameContext), after), true).None?
  {
    var move := SubmittedMove(env, cubes, gameContext, selection, reaction, now);
    PlayedWordsAfterMove(env.stringOf, cubes, LocalPlayerIndex(gameContext), moves, move);
  }

  /** In a turn-based game, a removal the local player makes is recorded with
    the local player index, so a further removal right after it ends the turn. */
  lemma RemovalThenRemovalEndsTurn(gameContext: GameContext, moves: seq<Move>, point: LatticePoint, playedAt: int)
    requires gameContext.TurnBased?
    ensures IsTurnEndingRemoval(gameContext, moves + [RemovalMove(gameContext, point, playedAt)])
  {
    TurnEndingRemovalAfterMove(gameContext, moves, RemovalMove(gameContext, point, playedAt));
  }

  /** A rejected submit of a word that is not the last played word sounds `invalidWord`. */
  lemma RejectedSubmitSoundsInvalid<P>(env: Env<P>, cubes: P, gameContext: GameContext, moves: seq<Move>,
                                       selection: seq<IndexedCubeFace>)
    requires |selection| > 0
    requires LastPlayedWord(env.stringOf, cubes, LocalPlayerIndex(gameContext), moves) != Some(env.stringOf(cubes, selection))
    ensures DeselectSound(selection, [], env.stringOf(cubes, selection),
                          LastPlayedWord(env.stringOf, cubes, LocalPlayerIndex(gameContext), moves), true)
            == Some(InvalidWord)
  {
  }
}
