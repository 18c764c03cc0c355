/** Rules the game derives from its move history and context: scores, whose
    turn it is, whether a cube may be removed, the played-words list, and the
    data saved with a turn-based match. */
module GameRules {
  import opened GameTypes

  function Last<T>(s: seq<T>): T
    requires |s| > 0
  {
    s[|s| - 1]
  }

  // ---------------------------------------------------------------- scores

  /** `currentScore`: the scores of the moves, added up in history order. */
  function CurrentScore(moves: seq<Move>): int
  {
    if moves == [] then 0 else CurrentScore(moves[..|moves| - 1]) + Last(moves).score
  }

  /** The score of a history is the sum of the scores of its parts: in particular
      each appended move adds exactly its own score. */
  lemma {:induction false} CurrentScoreConcat(earlier: seq<Move>, later: seq<Move>)
    ensures CurrentScore(earlier + later) == CurrentScore(earlier) + CurrentScore(later)
  {
    if later == [] {
      assert earlier + later == earlier;
    } else {
      var init := later[..|later| - 1];
      assert later == init + [Last(later)];
      assert (earlier + later)[..|earlier + later| - 1] == earlier + init;
      CurrentScoreConcat(earlier, init);
    }
  }

  /** Reference definition: the total score of the moves whose player index is `who`. */
  function PlayerScore(moves: seq<Move>, who: Option<PlayerIndex>): int
  {
    if moves == [] then 0
    else (if moves[0].playerIndex == who then moves[0].score else 0) + PlayerScore(moves[1..], who)
  }

  /** The sum of PlayerScore over a list of players. */
  function SumOfPlayerScores(moves: seq<Move>, players: seq<PlayerIndex>): int
  {
    if players == [] then 0 else PlayerScore(moves, Some(players[0])) + SumOfPlayerScores(moves, players[1..])
  }

  /** `turnBasedScores`: moves with a player index, grouped by it, each group's
      scores summed (a fold over the history, as Dictionary(grouping:) builds it). */
  function TurnBasedScores(moves: seq<Move>): map<PlayerIndex, int>
  {
    if moves == [] then map[]
    else
      var scores := TurnBasedScores(moves[..|moves| - 1]);
      var move := Last(moves);
      match move.playerIndex
      case None => scores
      case Some(p) => scores[p := (if p in scores then scores[p] else 0) + move.score]
  }

  predicate PlayedBy(move: Move, p: PlayerIndex)
  {
    move.playerIndex == Some(p)
  }

  lemma {:induction false} PlayerScoreAppend(moves: seq<Move>, move: Move, who: Option<PlayerIndex>)
    ensures PlayerScore(moves + [move], who) == PlayerScore(moves, who) + (if move.playerIndex == who then move.score else 0)
  {
    if moves != [] {
      assert (moves + [move])[1..] == moves[1..] + [move];
      PlayerScoreAppend(moves[1..], move, who);
    }
  }

  lemma {:induction false} PlayerScoreOfAbsentPlayer(moves: seq<Move>, p: PlayerIndex)
    requires forall i :: 0 <= i < |moves| ==> !PlayedBy(moves[i], p)
    ensures PlayerScore(moves, Some(p)) == 0
  {
    if moves != [] {
      assert !PlayedBy(moves[0], p);
      assert forall i :: 0 <= i < |moves[1..]| ==> moves[1..][i] == moves[i + 1];
      PlayerScoreOfAbsentPlayer(moves[1..], p);
    }
  }

  /** The keys of `turnBasedScores` are exactly the players who made a move, and
      each player's entry is the sum of that player's move scores; moves with no
      player index contribute to no entry. */
  lemma {:induction false} TurnBasedScoresSumPerPlayer(moves: seq<Move>)
    ensures forall p :: p in TurnBasedScores(moves) <==> exists i :: 0 <= i < |moves| && PlayedBy(moves[i], p)
    ensures forall p :: p in TurnBasedScores(moves) ==> TurnBasedScores(moves)[p] == PlayerScore(moves, Some(p))
  {
    if moves != [] {
      var init := moves[..|moves| - 1];
      var move := Last(moves);
      assert moves == init + [move];
      TurnBasedScoresSumPerPlayer(init);
      var scores := TurnBasedScores(init);
      forall p
        ensures p in TurnBasedScores(moves) <==> exists i :: 0 <= i < |moves| && PlayedBy(moves[i], p)
      {
        if exists i :: 0 <= i < |moves| && PlayedBy(moves[i], p) {
          var i :| 0 <= i < |moves| && PlayedBy(moves[i], p);
          if i < |init| { assert PlayedBy(init[i], p); }
        }
        if p in scores {
          var i :| 0 <= i < |init| && PlayedBy(init[i], p);
          assert PlayedBy(moves[i], p);
        }
        if PlayedBy(move, p) { assert PlayedBy(moves[|moves| - 1], p); }
      }
      forall p | p in TurnBasedScores(moves)
        ensures TurnBasedScores(moves)[p] == PlayerScore(moves, Some(p))
      {
        PlayerScoreAppend(init, move, Some(p));
        if p !in scores {
          assert !exists i :: 0 <= i < |init| && PlayedBy(init[i], p);
          PlayerScoreOfAbsentPlayer(init, p);
        }
      }
    }
  }

  lemma {:induction false} SumOfPlayerScoresAppend(moves: seq<Move>, move: Move, players: seq<PlayerIndex>)
    requires forall i, j :: 0 <= i < j < |players| ==> players[i] != players[j]
    ensures SumOfPlayerScores(moves + [move], players)
         == SumOfPlayerScores(moves, players)
            + (if move.playerIndex.Some? && move.playerIndex.value in players then move.score else 0)
  {
    if players != [] {
      PlayerScoreAppend(moves, move, Some(players[0]));
      SumOfPlayerScoresAppend(moves, move, players[1..]);
      if move.playerIndex == Some(players[0]) {
        assert players[0] !in players[1..] by {
          forall k | 0 <= k < |players[1..]| ensures players[1..][k] != players[0] {
            assert players[1..][k] == players[k + 1];
          }
        }
      }
    }
  }

  lemma {:induction false} SumOfPlayerScoresOfNoMoves(players: seq<PlayerIndex>)
    ensures SumOfPlayerScores([], players) == 0
  {
    if players != [] { SumOfPlayerScoresOfNoMoves(players[1..]); }
  }

  /** Scores are sums over history: for any duplicate-free list of players that
      covers every player index in the history, the current score is the score
      of the moves with no player index plus each listed player's score. */
  lemma {:induction false} CurrentScoreSplitsByPlayer(moves: seq<Move>, players: seq<PlayerIndex>)
    requires forall i, j :: 0 <= i < j < |players| ==> players[i] != players[j]
    requires forall i :: 0 <= i < |moves| && moves[i].playerIndex.Some? ==> moves[i].playerIndex.value in players
    ensures CurrentScore(moves) == PlayerScore(moves, None) + SumOfPlayerScores(moves, players)
  {
    if moves != [] {
      var init := moves[..|moves| - 1];
      var move := Last(moves);
      assert moves == init + [move];
      assert forall i :: 0 <= i < |init| ==> init[i] == moves[i];
      assert move == moves[|moves| - 1];
      assert move.playerIndex.Some? ==> move.playerIndex.value in players;
      CurrentScoreSplitsByPlayer(init, players);
      PlayerScoreAppend(init, move, None);
      SumOfPlayerScoresAppend(init, move, players);
    } else {
      SumOfPlayerScoresOfNoMoves(players);
    }
  }

  // ---------------------------------------------------------------- turns

  /** `isYourTurn`, as its guard chain is written. */
  function IsYourTurn(gameContext: GameContext, moves: seq<Move>): (r: bool)
    // outside turn-based games it is always your turn
    ensures !gameContext.TurnBased? ==> r
    // never while the match is not open or someone else is the current participant
    ensures (gameContext.TurnBased?
             && (gameContext.context.matchStatus != Open || !gameContext.context.currentParticipantIsLocalPlayer))
            ==> !r
    // in an open match where you are current, only your own played word as the
    // last move means it is not (yet) your turn
    ensures gameContext.TurnBased? && gameContext.context.matchStatus == Open
            && gameContext.context.currentParticipantIsLocalPlayer ==>
      (!r <==> moves != [] && Last(moves).playerIndex == gameContext.context.localPlayerIndex
                           && Last(moves).moveType.PlayedWord?)
  {
    match gameContext
    case TurnBased(turnBasedMatch) =>
      if turnBasedMatch.matchStatus != Open then false
      else if !turnBasedMatch.currentParticipantIsLocalPlayer then false
      else if moves == [] then true
      else
        var lastMove := Last(moves);
        if lastMove.playerIndex != turnBasedMatch.localPlayerIndex then true
        else if !lastMove.moveType.PlayedWord? then true
        else false
    case _ => true
  }

  /** `canRemoveCube`, as its guard chain is written; every branch after the
      current-participant guard returns true. */
  function CanRemoveCube(gameContext: GameContext, moves: seq<Move>): (r: bool)
    ensures r <==> !gameContext.TurnBased? || gameContext.context.currentParticipantIsLocalPlayer
  {
    match gameContext
    case TurnBased(turnBasedMatch) =>
      if !turnBasedMatch.currentParticipantIsLocalPlayer then false
      else if moves == [] then true
      else
        var lastMove := Last(moves);
        if !(!lastMove.moveType.RemovedCube? && lastMove.playerIndex != turnBasedMatch.localPlayerIndex) then true
        else lastMove.playerIndex != turnBasedMatch.localPlayerIndex
    case _ => true
  }

  /** Whenever it is your turn you may remove a cube. */
  lemma YourTurnAllowsRemoval(gameContext: GameContext, moves: seq<Move>)
    ensures IsYourTurn(gameContext, moves) ==> CanRemoveCube(gameContext, moves)
  {
  }

  /** In an open match where the local player is the current participant, the
      turn after one more move: a word played by the local player ends the turn;
      a removal, or anyone else's move, leaves it the local player's turn. */
  lemma TurnAfterMove(gameContext: GameContext, moves: seq<Move>, move: Move)
    requires gameContext.TurnBased? && gameContext.context.matchStatus == Open
    requires gameContext.context.currentParticipantIsLocalPlayer
    ensures IsYourTurn(gameContext, moves + [move])
        <==> !(move.playerIndex == gameContext.context.localPlayerIndex && move.moveType.PlayedWord?)
  {
    assert Last(moves + [move]) == move;
  }

  /** In `tryToRemoveCube`: a removal ends the turn when, in a turn-based game,
      the local player's last move was itself a removal. */
  function IsTurnEndingRemoval(gameContext: GameContext, moves: seq<Move>): (r: bool)
    ensures r ==> gameContext.TurnBased? && moves != [] && Last(moves).moveType.RemovedCube?
    ensures r ==> Last(moves).playerIndex == gameContext.context.localPlayerIndex
  {
    match gameContext
    case TurnBased(turnBasedMatch) =>
      moves != [] && Last(moves).moveType.RemovedCube?
      && Last(moves).playerIndex == turnBasedMatch.localPlayerIndex
    case _ => false
  }

  /** After one more move, the next removal is turn-ending exactly when the game
      is turn-based and that move was a removal by the local player; the history
      before it does not matter. */
  lemma TurnEndingRemovalAfterMove(gameContext: GameContext, moves: seq<Move>, move: Move)
    ensures IsTurnEndingRemoval(gameContext, moves + [move])
        <==> gameContext.TurnBased? && move.moveType.RemovedCube?
             && move.playerIndex == gameContext.context.localPlayerIndex
  {
    assert Last(moves + [move]) == move;
  }

  /** With no history, no removal ends the turn. */
  lemma NoTurnEndingRemovalAtStart(gameContext: GameContext)
    ensures !IsTurnEndingRemoval(gameContext, [])
  {
  }

  // ---------------------------------------------------------------- words

  /** `move` is a played word that spells `word` on `cubes`. */
  predicate Spells<P>(stringOf: (P, seq<IndexedCubeFace>) -> string, cubes: P, move: Move, word: string)
  {
    move.moveType.PlayedWord? && stringOf(cubes, move.moveType.faces) == word
  }

  /** `hasBeenPlayed(word:)`, also used for `selectedWordHasAlreadyBeenPlayed`:
      some played-word move spells `word` on the current cubes; removals never count. */
  function HasBeenPlayed<P>(stringOf: (P, seq<IndexedCubeFace>) -> string, cubes: P, moves: seq<Move>, word: string): (r: bool)
    ensures r <==> exists i :: 0 <= i < |moves| && Spells(stringOf, cubes, moves[i], word)
  {
    if moves == [] then false
    else if Spells(stringOf, cubes, moves[0], word) then true
    else
      var rest := HasBeenPlayed(stringOf, cubes, moves[1..], word);
      assert forall i :: 0 <= i < |moves[1..]| ==> moves[1..][i] == moves[i + 1];
      rest
  }

  /** Reference definition: the played-word moves of a history, in order. */
  function WordMoves(moves: seq<Move>): (r: seq<Move>)
    ensures |r| <= |moves|
    ensures forall k :: 0 <= k < |r| ==> r[k].moveType.PlayedWord?
  {
    if moves == [] then []
    else (if moves[0].moveType.PlayedWord? then [moves[0]] else []) + WordMoves(moves[1..])
  }

  lemma {:induction false} WordMovesAppend(moves: seq<Move>, move: Move)
    ensures WordMoves(moves + [move]) == WordMoves(moves) + (if move.moveType.PlayedWord? then [move] else [])
  {
    if moves != [] {
      assert (moves + [move])[0] == moves[0];
      assert (moves + [move])[1..] == moves[1..] + [move];
      WordMovesAppend(moves[1..], move);
    }
  }

  /** `playedWords`: one entry per played-word move, in history order. */
  function PlayedWords<P>(stringOf: (P, seq<IndexedCubeFace>) -> string, cubes: P,
                          localPlayerIndex: Option<PlayerIndex>, moves: seq<Move>): (r: seq<PlayedWord>)
    ensures |r| <= |moves|
  {
    if moves == [] then []
    else
      var words := PlayedWords(stringOf, cubes, localPlayerIndex, moves[..|moves| - 1]);
      var move := Last(moves);
      match move.moveType
      case PlayedWord(faces) =>
        words + [PlayedWord.PlayedWord(move.playerIndex == localPlayerIndex, move.reactions, move.score, stringOf(cubes, faces))]
      case RemovedCube(_) => words
  }

  /** `playedWords` has one entry per played-word move, in history order. Each
      entry is the word its faces spell on the current cubes, with the move's
      score and reactions, and it is marked as yours exactly when the move's
      player index is the local player's. */
  lemma {:induction false} PlayedWordsAreWordMoves<P>(stringOf: (P, seq<IndexedCubeFace>) -> string, cubes: P,
                                                      localPlayerIndex: Option<PlayerIndex>, moves: seq<Move>)
    ensures var r := PlayedWords(stringOf, cubes, localPlayerIndex, moves);
            var w := WordMoves(moves);
            && |r| == |w|
            && forall k :: 0 <= k < |r| ==>
                 r[k] == PlayedWord.PlayedWord(w[k].playerIndex == localPlayerIndex, w[k].reactions, w[k].score,
                                               stringOf(cubes, w[k].moveType.faces))
  {
    if moves != [] {
      var init := moves[..|moves| - 1];
      var move := Last(moves);
      assert moves == init + [move];
      PlayedWordsAreWordMoves(stringOf, cubes, localPlayerIndex, init);
      WordMovesAppend(init, move);
    }
  }

  /** `playedWords.last?.word`. */
  function LastPlayedWord<P>(stringOf: (P, seq<IndexedCubeFace>) -> string, cubes: P,
                             localPlayerIndex: Option<PlayerIndex>, moves: seq<Move>): Option<string>
  {
    var words := PlayedWords(stringOf, cubes, localPlayerIndex, moves);
    if words == [] then None else Some(Last(words).word)
  }

  predicate ListsWord(words: seq<PlayedWord>, word: string)
  {
    exists k :: 0 <= k < |words| && words[k].word == word
  }

  lemma PlayedWordsAppend<P>(stringOf: (P, seq<IndexedCubeFace>) -> string, cubes: P,
                             localPlayerIndex: Option<PlayerIndex>, moves: seq<Move>, move: Move)
    ensures PlayedWords(stringOf, cubes, localPlayerIndex, moves + [move])
         == PlayedWords(stringOf, cubes, localPlayerIndex, moves)
            + if move.moveType.PlayedWord? then
                [PlayedWord.PlayedWord(move.playerIndex == localPlayerIndex, move.reactions, move.score,
                                       stringOf(cubes, move.moveType.faces))]
              else []
  {
    assert (moves + [move])[..|moves|] == moves;
  }

  lemma ListsWordAppend(words: seq<PlayedWord>, extra: seq<PlayedWord>, word: string)
    ensures ListsWord(words + extra, word) <==> ListsWord(words, word) || ListsWord(extra, word)
  {
    var all := words + extra;
    if ListsWord(all, word) {
      var k :| 0 <= k < |all| && all[k].word == word;
      if k >= |words| { assert extra[k - |words|] == all[k]; }
    }
    if ListsWord(words, word) {
      var k :| 0 <= k < |words| && words[k].word == word;
      assert all[k] == words[k];
    }
    if ListsWord(extra, word) {
      var k :| 0 <= k < |extra| && extra[k].word == word;
      assert all[|words| + k] == extra[k];
    }
  }

  lemma HasBeenPlayedAppend<P>(stringOf: (P, seq<IndexedCubeFace>) -> string, cubes: P, moves: seq<Move>, move: Move, word: string)
    ensures HasBeenPlayed(stringOf, cubes, moves + [move], word)
        <==> HasBeenPlayed(stringOf, cubes, moves, word) || Spells(stringOf, cubes, move, word)
  {
    var all := moves + [move];
    if HasBeenPlayed(stringOf, cubes, all, word) {
      var i :| 0 <= i < |all| && Spells(stringOf, cubes, all[i], word);
      if i < |moves| { assert all[i] == moves[i]; }
    }
    if HasBeenPlayed(stringOf, cubes, moves, word) {
      var i :| 0 <= i < |moves| && Spells(stringOf, cubes, moves[i], word);
      assert all[i] == moves[i];
    }
    assert all[|moves|] == move;
  }

  /** A word has been played exactly when it appears in the played-words list. */
  lemma {:induction false} HasBeenPlayedIffListed<P>(stringOf: (P, seq<IndexedCubeFace>) -> string, cubes: P,
                                                     localPlayerIndex: Option<PlayerIndex>, moves: seq<Move>, word: string)
    ensures HasBeenPlayed(stringOf, cubes, moves, word)
        <==> ListsWord(PlayedWords(stringOf, cubes, localPlayerIndex, moves), word)
  {
    if moves != [] {
      var init := moves[..|moves| - 1];
      var move := Last(moves);
      assert moves == init + [move];
      HasBeenPlayedIffListed(stringOf, cubes, localPlayerIndex, init, word);
      HasBeenPlayedAppend(stringOf, cubes, init, move, word);
      PlayedWordsAppend(stringOf, cubes, localPlayerIndex, init, move);
      var extra := if move.moveType.PlayedWord? then
                     [PlayedWord.PlayedWord(move.playerIndex == localPlayerIndex, move.reactions, move.score,
                                            stringOf(cubes, move.moveType.faces))]
                   else [];
      ListsWordAppend(PlayedWords(stringOf, cubes, localPlayerIndex, init), extra, word);
      if move.moveType.PlayedWord? { assert extra[0].word == stringOf(cubes, move.moveType.faces); }
    }
  }

  /** After a played word is appended, the last played word is that word as it
      reads on the cubes; a removal leaves the played-words list as it was. */
  lemma PlayedWordsAfterMove<P>(stringOf: (P, seq<IndexedCubeFace>) -> string, cubes: P,
                                localPlayerIndex: Option<PlayerIndex>, moves: seq<Move>, move: Move)
    ensures move.moveType.PlayedWord? ==>
      LastPlayedWord(stringOf, cubes, localPlayerIndex, moves + [move]) == Some(stringOf(cubes, move.moveType.faces))
    ensures move.moveType.RemovedCube? ==>
      PlayedWords(stringOf, cubes, localPlayerIndex, moves + [move]) == PlayedWords(stringOf, cubes, localPlayerIndex, moves)
  {
    assert (moves + [move])[..|moves|] == moves;
  }

  /** The last played word is the word the last played-word move spells, and
      there is none while no word has been played. */
  lemma LastPlayedWordIsLastWordMove<P>(stringOf: (P, seq<IndexedCubeFace>) -> string, cubes: P,
                                        localPlayerIndex: Option<PlayerIndex>, moves: seq<Move>)
    ensures var w := WordMoves(moves);
            LastPlayedWord(stringOf, cubes, localPlayerIndex, moves)
              == if w == [] then None else Some(stringOf(cubes, Last(w).moveType.faces))
  {
    PlayedWordsAreWordMoves(stringOf, cubes, localPlayerIndex, moves);
  }

  // ---------------------------------------------------------------- saving

  /** `isResumable`: only unfinished unlimited games can be resumed. */
  predicate IsResumable(gameMode: GameMode, isGameOver: bool)
  {
    gameMode == Unlimited && !isGameOver
  }

  /** `isSavable`: resumable games that are not turn-based matches. */
  predicate IsSavable(gameMode: GameMode, isGameOver: bool, gameContext: GameContext)
  {
    IsResumable(gameMode, isGameOver) && !gameContext.TurnBased?
  }

  /** A savable game is a resumable one played by the local device alone: it has
      no local player index, whatever its history it is always your turn and you
      may always remove a cube, and no removal ends a turn. Every resumable game
      outside a turn-based match is savable. */
  lemma SavableGameIsUnshared(gameMode: GameMode, isGameOver: bool, gameContext: GameContext, moves: seq<Move>)
    ensures IsSavable(gameMode, isGameOver, gameContext) ==>
      && IsResumable(gameMode, isGameOver)
      && LocalPlayerIndex(gameContext).None?
      && IsYourTurn(gameContext, moves)
      && CanRemoveCube(gameContext, moves)
      && !IsTurnEndingRemoval(gameContext, moves)
    ensures IsResumable(gameMode, isGameOver) && !gameContext.TurnBased? ==> IsSavable(gameMode, isGameOver, gameContext)
  {
  }

  /** A game that is over, or a timed one, can be neither resumed nor saved. */
  lemma OnlyUnfinishedUnlimitedGamesResume(gameMode: GameMode, isGameOver: bool, gameContext: GameContext)
    ensures isGameOver || gameMode == Timed ==>
      !IsResumable(gameMode, isGameOver) && !IsSavable(gameMode, isGameOver, gameContext)
  {
  }

  /** The data stored with a turn-based match. The archivable form of the
      puzzle is carried as the puzzle itself. */
  datatype TurnBasedMatchData<P> = TurnBasedMatchData(
    cubes: P,
    gameMode: GameMode,
    metadata: TurnBasedMetadata,
    moves: seq<Move>)

  /** `TurnBasedMatchData.init(context:gameState:playerId:)`: the moves are saved
      as they are, and the local player's id is recorded under the local player's
      index when both are known. */
  function MatchDataFor<P>(context: TurnBasedContext, cubes: P, gameMode: GameMode, moves: seq<Move>,
                           playerId: Option<PlayerId>): (r: TurnBasedMatchData<P>)
    ensures r.cubes == cubes && r.moves == moves && r.gameMode == gameMode
    ensures var before := context.metadata.playerIndexToId;
            var after := r.metadata.playerIndexToId;
            && (forall i :: i in before ==> i in after)
            && (forall i :: i in after && (context.localPlayerIndex != Some(i) || playerId.None?) ==>
                  i in before && after[i] == before[i])
            && (context.localPlayerIndex.Some? && playerId.Some? ==>
                  context.localPlayerIndex.value in after
                  && after[context.localPlayerIndex.value] == playerId.value)
  {
    var metadata :=
      if context.localPlayerIndex.Some? && playerId.Some? then
        TurnBasedMetadata(context.metadata.playerIndexToId[context.localPlayerIndex.value := playerId.value])
      else context.metadata;
    TurnBasedMatchData(cubes, gameMode, metadata, moves)
  }
}
