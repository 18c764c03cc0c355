# isowords game core, modelled in Dafny

This project models the synchronous core of the isowords game reducer:

- the game state;
- how taps and drags build and trim the selected word on the cube;
- how a submitted word or a cube removal becomes a move in the history;
- the rules the game derives from that history: scores, whose turn it is, whether a cube may be removed, the played-words list, saving;
- which sound the game asks for when its state changes.

Modules, one per part of the core:

- `GameTypes` (`game_types.dfy`): faces, moves, game contexts, effect and sound requests. It also holds `Env<P>`, the bundle of collaborators the core calls but does not define.
- `Selection` (`selection.dfy`): the selection tracker. It has one function per gesture case, and each gives the selection the gesture leaves.
- `GameRules` (`game_rules.dfy`): the derived score, turn and played-word rules, and the turn-based match data.
- `Sounds` (`sounds.dfy`): the rules that decide which sound to request.
- `Game` (`game.dfy`): the class `GameState<P>`, which mirrors `Game.State`. It has one method per reducer case, plus the selection-change handlers.

The puzzle is the type parameter `P`. Everything the core needs from it or from other code that is not part of this model is a function in `Env<P>`, and the model assumes nothing about those functions:

- `isTouching`, `isPlayable`, `isInPlay`;
- `string(from:)` as `stringOf`;
- the use count of a face;
- the first UTF-8 byte of a face's letter;
- `score`, `verify` and the dictionary of the game's language;
- the length in seconds of a game mode.

`verify` returns whether it accepted the move, together with the puzzle it leaves. Dates are integers. The current time is a parameter of the methods that read the clock.

Each `GameState` method changes only the fields its `modifies` clause names. It states the new value of each one in terms of the old state. The invariant `Valid()` holds before and after every method: the selected word is a duplicate-free chain in which each face touches the one before it.

Notable behaviours of the code:

- `tap(.began)` on a playable face that is not selected and does not touch the last selected face clears the selection. It does not restart the selection at that face.
- `pan(.changed)` without pan data only ends panning. The selection is cleared only by `.ended` without data, by `.cancelled` and by `.failed`.
- `canRemoveCube` returns true in every branch after its current-participant guard. So it is equivalent to "not turn-based, or the local player is the current participant".

## Model

| member | source | states |
|---|---|---|
| `Selection.FirstIndexOf` | Sources/GameCore/GameCore.swift:377 | The index found is the first occurrence of the face, and there is one exactly when the face is selected |
| `Selection.TruncateAfter` | Sources/GameCore/GameCore.swift:377-379 | Backing up keeps a non-empty prefix of the selection that ends at the first occurrence of the face |
| `Selection.TruncateAt` | Sources/GameCore/GameCore.swift:487-489 | Removing from a face keeps the strict prefix before its first occurrence, which no longer contains it |
| `Selection.PanChanged` | Sources/GameCore/GameCore.swift:367-387 | A drag keeps the selection a duplicate-free chain of touching faces. Near a corner it does nothing. Onto a selected face it backs up to that face. Onto an unselected face it appends the face exactly when the face is playable and either the selection is empty or its last face touches it; otherwise nothing changes |
| `Selection.TapBegan` | Sources/GameCore/GameCore.swift:442-473 | Keeps the selection a duplicate-free chain, and an optimistic face is always the last selected face. Off the cube or on an unplayable face it clears the selection. On a selected face it backs up to it, and the face becomes optimistic unless it was already last. On an unselected face that does not touch the last face it clears the selection. Otherwise it appends the face and makes it optimistic |
| `Selection.TapEnded` | Sources/GameCore/GameCore.swift:475-494 | Keeps the selection a duplicate-free chain. It changes nothing while panning, off the cube, on the optimistic face or on an unplayable face. On another selected face it removes that face and everything after it. On an unselected face it clears the selection |
| `GameRules.TurnBasedScoresSumPerPlayer` | Sources/GameCore/GameCore.swift:699-706 | `turnBasedScores` has an entry exactly for the players who made a move. Each entry is the sum of that player's move scores, so moves without a player index count for no entry |
| `GameRules.CurrentScoreSplitsByPlayer` | Sources/GameCore/GameCore.swift:578-580 | `currentScore`, the sum of all move scores, is the score of the moves with no player index plus the score of each player |
| `GameRules.IsYourTurn` | Sources/GameCore/GameCore.swift:689-697 | It is always your turn outside turn-based games. It is never your turn while the match is not open or you are not the current participant. Otherwise it is not your turn exactly when the last move is a word you played |
| `GameRules.TurnAfterMove` | Sources/GameCore/GameCore.swift:689-697 | In an open match where you are current, one more move ends your turn exactly when it is a word you played. A removal, or another player's move, leaves it your turn |
| `GameRules.CanRemoveCube` | Sources/GameCore/GameCore.swift:676-687 | A cube may be removed exactly when the game is not turn-based or you are the current participant |
| `GameRules.YourTurnAllowsRemoval` | Sources/GameCore/GameCore.swift:676-697 | Whenever it is your turn you may remove a cube |
| `GameRules.IsTurnEndingRemoval` | Sources/GameCore/GameCore.swift:637-646 | A removal ends the turn only in a turn-based game whose last move was a removal by the local player |
| `GameRules.CurrentScoreConcat` | Sources/GameCore/GameCore.swift:578-580 | `currentScore` is additive over the history: the score of two histories joined is the sum of their scores, so each appended move adds exactly its own score |
| `GameRules.TurnEndingRemovalAfterMove` | Sources/GameCore/GameCore.swift:637-646 | After one more move, a removal is turn-ending exactly when the game is turn-based and that move was a removal by the local player, whatever came before |
| `GameRules.NoTurnEndingRemovalAtStart` | Sources/GameCore/GameCore.swift:637-646 | With no history, no removal is turn-ending |
| `GameRules.PlayedWordsAreWordMoves` | Sources/GameCore/GameCore.swift:600-613 | `playedWords` has one entry per played-word move, in history order. Each entry carries the word the move's faces spell on the current cubes, the move's score and reactions, and is marked yours exactly when the move's player index is the local player's |
| `GameRules.LastPlayedWordIsLastWordMove` | Sources/GameCore/SoundsCore.swift:47 | `playedWords.last?.word` is the word the last played-word move spells, and is absent while no word has been played |
| `GameRules.HasBeenPlayed` | Sources/GameCore/SoundsCore.swift:152-157 | True exactly when some played-word move spells the word on the current cubes; removals never count |
| `GameRules.HasBeenPlayedIffListed` | Sources/GameCore/GameCore.swift:600-613 | A word has been played exactly when it appears in `playedWords` |
| `GameRules.PlayedWordsAfterMove` | Sources/GameCore/GameCore.swift:600-613 | After a played word is appended it is the last played word. A removal leaves `playedWords` unchanged |
| `GameRules.OnlyUnfinishedUnlimitedGamesResume` | Sources/GameCore/GameCore.swift:590-598 | A game that is over, or a timed game, is neither resumable nor savable |
| `GameRules.SavableGameIsUnshared` | Sources/GameCore/GameCore.swift:595-598 | A savable game is resumable and has no local player index. Whatever its history, it is always your turn in it, you may always remove a cube, and no removal ends a turn. Every resumable game that is not a turn-based match is savable |
| `GameRules.MatchDataFor` | Sources/GameCore/GameCore.swift:732-750 | The match data keeps the game's puzzle, its moves and its game mode. The metadata gains the local player's id under the local player's index when both are known, and keeps every other entry |
| `Sounds.CountdownSound` | Sources/GameCore/SoundsCore.swift:31-41 | Nothing is requested unless `secondsPlayed` changed. Then the ten-second warning is requested exactly at `seconds - 10`, and the countdown tone exactly from `seconds - 5` to `seconds`. Every other value requests nothing |
| `Sounds.SubmitSoundIndex` | Sources/GameCore/SoundsCore.swift:102-106 | The index lies in 0..13 and is congruent to the first letter's offset from 'A' modulo 14. It equals that offset for letters before 'O' |
| `Sounds.SubmitSound` | Sources/GameCore/SoundsCore.swift:94-110 | A submit sound is requested exactly when the last move changed to a played word with a first face whose letter has a first byte. Its index is the submit-sound index of that byte |
| `Sounds.DeselectSound` | Sources/GameCore/SoundsCore.swift:42-57 | A sound is requested exactly when a non-empty selection becomes empty and its word is not the last played word. The sound is `invalidWord` after a submit action and `cubeDeselect` otherwise |
| `Sounds.ShakeStep` | Sources/GameCore/SoundsCore.swift:58-93 | An empty or non-shaking selection clears the shake time and cancels the loop. A shaking one keeps its shake time, or sets it to now when unset. The loop starts exactly when shaking begins and nothing is requested while shaking continues |
| `Game.SubmittedMove` | Sources/GameCore/GameCore.swift:408-415 | The proposed move plays the selected faces and is scored as the word they spell. It is by the local player, and by no one outside turn-based games. The reaction is keyed by the local player's index exactly when both are known |
| `Game.RemovalMove` | Sources/GameCore/GameCore.swift:655-661 | A removal move scores 0, removes the given cube and has no reactions. It is by the local player index, and by no one outside turn-based games |
| `Game.RemovedFaces` | Sources/GameCore/GameCore.swift:430-439 | The faces that get a removal sound are exactly the submitted faces whose cube is no longer in play, each as many times as it was submitted |
| `Game.GameState.constructor` | Sources/GameCore/GameCore.swift:46-96 | A new state takes the given puzzle, context, clock, mode and moves. Every other field has its default, and the selection is empty |
| `Game.GameState.SelectedWordHasAlreadyBeenPlayed` | Sources/GameCore/GameCore.swift:623-628 | True exactly when some played-word move spells the selected word |
| `Game.GameState.SelectedWordChanged` | Sources/GameCore/GameCore.swift:193-198 | When the selection changed, it is valid exactly when it has not been played and the dictionary contains it. Otherwise validity is unchanged |
| `Game.GameState.AlertDismissed` | Sources/GameCore/GameCore.swift:216-218 | The alert is closed |
| `Game.GameState.AlertForfeitButtonTapped` | Sources/GameCore/GameCore.swift:220-245 | The alert is closed, and a forfeit request is emitted exactly in turn-based games |
| `Game.GameState.ForfeitGameButtonTapped` | Sources/GameCore/GameCore.swift:277-289 | The forfeit confirmation alert is shown |
| `Game.GameState.CancelButtonTapped` | Sources/GameCore/GameCore.swift:247-249 | The selection is cleared |
| `Game.GameState.RemoveCube` | Sources/GameCore/GameCore.swift:654-674 | The removal move is appended at the end of the history exactly when `verify` accepts it. Otherwise the history is unchanged. The puzzle is the one `verify` leaves |
| `Game.GameState.ConfirmRemoveCube` | Sources/GameCore/GameCore.swift:251-255 | It closes the menu, applies `RemoveCube` and clears the selection. The sounds reducer adds the cube-removal sound |
| `Game.GameState.DismissBottomMenu` | Sources/GameCore/GameCore.swift:261-263 | The bottom menu is closed |
| `Game.GameState.MenuButtonTapped` | Sources/GameCore/GameCore.swift:319-321 | The game menu is shown |
| `Game.GameState.TryToRemoveCube` | Sources/GameCore/GameCore.swift:630-652 | A resumable game never confirms a removal without asking. Nothing happens when a cube may not be removed. In timed games the removal is confirmed at once. Otherwise the removal menu opens, marked turn-ending as `IsTurnEndingRemoval` decides |
| `Game.GameState.DoubleTap` | Sources/GameCore/GameCore.swift:265-269 | It acts as `TryToRemoveCube` only while at most one face is selected, and does nothing otherwise; in a resumable game it never confirms a removal at once |
| `Game.GameState.GameLoaded` | Sources/GameCore/GameCore.swift:294-300 | The game is marked loaded and the one-second timer is requested |
| `Game.GameState.Pan` | Sources/GameCore/GameCore.swift:363-396 | `.began` starts panning. `.changed` with data moves the selection as `PanChanged` says. `.cancelled`, `.failed` and `.ended` without data stop panning and clear the selection. The other cases only stop panning. The selection stays a duplicate-free chain |
| `Game.GameState.Tap` | Sources/GameCore/GameCore.swift:442-502 | `.began` and `.ended` move the selection and the optimistic face as `TapBegan` and `TapEnded` say, and `.ended` always clears the optimistic face. `.cancelled` and `.failed` only clear the optimistic face. Other states change nothing |
| `Game.GameState.SubmitButtonTapped` | Sources/GameCore/GameCore.swift:405-440 | The played-word move is appended at the end of the history exactly when `verify` accepts it. Otherwise the history is unchanged. The selection is always cleared. On success the cube-removal sounds are requested for the removed faces |
| `Game.GameState.TimerTick` | Sources/GameCore/GameCore.swift:504-509 | The clock is set to the tick time. `secondsPlayed` grows by exactly 1 when it is your turn and the game is not over, and is unchanged otherwise |
| `Game.GameState.UpdateCubeShaking` | Sources/GameCore/SoundsCore.swift:58-93 | When the selection changed, the shake time and the shake-loop request follow `ShakeStep`. The previous selection shook when its word was valid and unplayed and it held a face used twice; the current one shakes when it is valid and holds such a face. Nothing happens when the selection did not change |
| `Game.AcceptedSubmitIsNotDeselected` | Sources/GameCore/SoundsCore.swift:42-48 | An accepted submit never requests the deselect sound, because the word it appended is the last played word |
| `Game.RemovalThenRemovalEndsTurn` | Sources/GameCore/GameCore.swift:637-661 | In a turn-based game, once the local player's removal is recorded, the next removal ends the turn |
| `Game.GameState.SettingsButtonTapped` | Sources/GameCore/GameCore.swift:401-403 | The settings are presented |
| `Game.GameState.Task` | Sources/GameCore/GameCore.swift:323-325 | A game that is not over takes the current time as its clock; a finished game keeps its clock |
| `Game.GameState.SecondsPlayedChanged` | Sources/GameCore/SoundsCore.swift:31-41 | With the length of the current game mode: the ten-second warning plays when the count changes to ten seconds before the end, the countdown tone when it changes to one of the last five seconds or the end, and nothing otherwise or when the count did not change |
| `Game.RejectedSubmitSoundsInvalid` | Sources/GameCore/SoundsCore.swift:42-52 | A rejected submit of a word other than the last played word requests `invalidWord` |

## Left out

- Asynchronous effects are returned as `Effect` tokens and are not run. These include Game Center `endMatchInTurn` and `participantQuitOutOfTurn`, the low-power-mode stream, the upgrade interstitial decision and its delay, the one-second timer, the delayed cube-removal sounds and the repeating shake sound. They are I/O and concurrency.
- Game.GameState.Task: only the clock update of the `task` case is modelled. The low-power-mode stream and the background music it starts are asynchronous work, and the music is chosen at random with `randomElement()`.
- `CGPoint.isAwayFromCorners` is floating-point geometry. It is the boolean `isAwayFromCorners` of `PanData`.
- The internals of `Puzzle`, `isTouching`, `isPlayable`, `string(from:)`, `score`, `verify`, the dictionary, use counts, cube letters and `GameMode.seconds` are in modules that are not part of this model. They are the functions of `Env<P>`.
- `TurnBasedContext`'s `localPlayerIndex` and `currentParticipantIsLocalPlayer`, and the match status, are computed outside these files. They are plain fields of the model's `TurnBasedContext`.
- The composed reducers `GameOverLogic`, `TurnBasedLogic`, `ActiveGamesTray`, `WordSubmitButtonFeature`, `filterActionsForYourTurn`, the `gameOver` and `upgradeInterstitial` sub-features, and the `selectionSounds` reducer are in modules that are not part of this model.
- The change handlers (`SelectedWordChanged`, `DeselectSound`, `UpdateCubeShaking`, `SecondsPlayedChanged`, `SubmitSound`) are modelled one by one. Running them in the order of the reducer pipeline is left to the caller.
- The construction of menus, alert text, images, `displayTitle` and `menuTitle` is presentation. The model keeps only which menu or alert is shown.
- `DependencyValues.gameOnboarding` is dependency plumbing.
- Actions that only return `.none` (`activeGames`, `endGameButtonTapped`, `exitButtonTapped`, `gameCenter`, `matchesLoaded`, `savedGamesLoaded`, `trayButtonTapped`, `wordSubmitButton`) change nothing and are not modelled. So are `lowPowerModeChanged`, `delayedShowUpgradeInterstitial` and `upgradeInterstitial(.delegate)`, which only set presentation flags, and `gameOver(.delegate(.startGame))`, which replaces the whole state.
- `Game.State.init(gameCurrentTime:localPlayer:turnBasedMatch:turnBasedMatchData:)` rebuilds the puzzle with `Puzzle(archivableCubes:moves:)`, which is not part of this model. `ArchivablePuzzle(cubes:)` is likewise not part of it, so `MatchDataFor` stores the puzzle itself.
- Sounds.SubmitSoundIndex: requires a first byte of at least 'A'. Below 'A' the source's `UInt8` subtraction traps at run time, and the model states this as a precondition instead of modelling the crash. `Sounds.SubmitSound` asks the same of the first letter of the last move.
- The language of the game is not modelled: the dictionary in `Env<P>` is the one for the game's language.
