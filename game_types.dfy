/** Values shared by the game reducer, its derived rules and its sound rules. */
module GameTypes {

  datatype Option<+T> = None | Some(value: T)

  /** One byte of a UTF-8 encoding (Swift's UInt8). */
  newtype byte = x: int | 0 <= x < 256

  /** Position of a cube in the lattice. */
  datatype LatticePoint = LatticePoint(x: int, y: int, z: int)

  /** The visible side of a cube that a face sits on. */
  datatype Side = Top | Left | Right

  /** A reference to one face of one cube: the unit of selection. */
  datatype IndexedCubeFace = IndexedCubeFace(index: LatticePoint, side: Side)

  type PlayerIndex = int

  datatype Reaction = Reaction(emoji: string)

  datatype MoveType =
    | PlayedWord(faces: seq<IndexedCubeFace>)
    | RemovedCube(point: LatticePoint)

  /** A committed move. `playerIndex` is None outside turn-based games. */
  datatype Move = Move(
    playedAt: int,
    playerIndex: Option<PlayerIndex>,
    reactions: Option<map<PlayerIndex, Reaction>>,
    score: int,
    moveType: MoveType)

  /** One entry of the played-words list shown to the player. */
  datatype PlayedWord = PlayedWord(
    isYourWord: bool,
    reactions: Option<map<PlayerIndex, Reaction>>,
    score: int,
    word: string)

  datatype GameMode = Timed | Unlimited

  datatype MatchStatus = Unknown | Open | Ended | Matching

  datatype PlayerId = PlayerId(uuid: string)

  /** Match metadata kept alongside the moves of a turn-based match. */
  datatype TurnBasedMetadata = TurnBasedMetadata(playerIndexToId: map<PlayerIndex, PlayerId>)

  /** What the core reads of a turn-based match: the local player's index in the
      match, whether the current participant is the local player, the status of
      the match, and its metadata. */
  datatype TurnBasedContext = TurnBasedContext(
    localPlayerIndex: Option<PlayerIndex>,
    currentParticipantIsLocalPlayer: bool,
    matchStatus: MatchStatus,
    metadata: TurnBasedMetadata)

  datatype GameContext =
    | Solo
    | Shared(code: string)
    | DailyChallenge(id: string)
    | TurnBased(context: TurnBasedContext)

  /** The local player's index, or None when the game is not turn-based. */
  function LocalPlayerIndex(gameContext: GameContext): Option<PlayerIndex>
  {
    if gameContext.TurnBased? then gameContext.context.localPlayerIndex else None
  }

  /** What `verify` reports: whether the move was accepted, and the puzzle it left. */
  datatype VerifyOutcome<P> = VerifyOutcome(succeeded: bool, cubes: P)

  /** The collaborators the core calls but does not define, over a puzzle of type P:
      face geometry and playability, the cube letters, word scoring, the dictionary
      of the game's language, move verification, and the length of a timed game. */
  datatype Env<!P> = Env(
    isTouching: (IndexedCubeFace, IndexedCubeFace) -> bool,
    isPlayable: (P, IndexedCubeFace) -> bool,
    isInPlay: (P, LatticePoint) -> bool,
    stringOf: (P, seq<IndexedCubeFace>) -> string,
    useCount: (P, IndexedCubeFace) -> int,
    firstByte: (P, IndexedCubeFace) -> Option<byte>,
    score: string -> int,
    dictionaryContains: string -> bool,
    verify: (Move, P, string -> bool, seq<Move>) -> VerifyOutcome<P>,
    secondsOf: GameMode -> int)

  datatype Sound =
    | Timed10SecWarning
    | TimedCountdownTone
    | InvalidWord
    | CubeDeselect
    | CubeRemove
    | Submit(index: nat)

  /** Side effects the reducer asks its runtime to perform. */
  datatype Effect =
    | ConfirmRemoveCubeAction(point: LatticePoint)
    | PlayCubeRemoveSounds(faces: seq<IndexedCubeFace>)
    | ForfeitMatch
    | StartTimer
    | Play(sound: Sound)
    // plays the cube-shake sound now and every two seconds until cancelled
    | StartShakeLoop
    | CancelShakeLoop

  datatype BottomMenu =
    | GameMenu
    | RemoveCubeMenu(point: LatticePoint, isTurnEndingRemoval: bool)

  datatype Alert = ForfeitConfirmation

  /** UIGestureRecognizer.State; `recognized` is the same state as `ended`. */
  datatype GestureState = Possible | Began | Changed | Ended | Cancelled | Failed

  /** A drag sample: the face under the finger and whether the touch point is
      away from the face's corners. */
  datatype PanData = PanData(cubeFaceState: IndexedCubeFace, isAwayFromCorners: bool)
}
