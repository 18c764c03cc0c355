/** Which sound the game asks for when its state changes. Each rule returns
    the request as data; playing it is left to the runtime. */
module Sounds {
  import opened GameTypes
  import opened GameRules

  /** The letters 'A' and 'O' as UTF-8 bytes. */
  const AsciiA: byte := 'A' as int as byte
  const AsciiO: byte := 'O' as int as byte

  /** The `secondsPlayed` handler: fires only when the count changes; asks for the
      ten-second warning, then for a tone on each of the last five seconds and at
      the end. */
  function CountdownSound(previousSecondsPlayed: int, secondsPlayed: int, seconds: int): (r: Option<Sound>)
    ensures previousSecondsPlayed == secondsPlayed ==> r.None?
    ensures previousSecondsPlayed != secondsPlayed ==>
      && (r == Some(Timed10SecWarning) <==> secondsPlayed == seconds - 10)
      && (r == Some(TimedCountdownTone) <==> seconds - 5 <= secondsPlayed <= seconds)
      && (r.None? <==> secondsPlayed != seconds - 10 && !(seconds - 5 <= secondsPlayed <= seconds))
  {
    if previousSecondsPlayed == secondsPlayed then None
    else if secondsPlayed == seconds - 10 then Some(Timed10SecWarning)
    else if secondsPlayed >= seconds - 5 && secondsPlayed <= seconds then Some(TimedCountdownTone)
    else None
  }

  /** The index of the submit sound for a word's first letter: its offset from 'A'
      in UInt8 arithmetic, reduced modulo 'O' - 'A' = 14. */
  function SubmitSoundIndex(firstAscii: byte): (r: nat)
    requires firstAscii >= AsciiA
    ensures r < 14
    ensures (firstAscii as int - 'A' as int - r) % 14 == 0
    ensures firstAscii < AsciiO ==> r == (firstAscii - AsciiA) as nat
  {
    var offset := firstAscii - AsciiA;
    (offset % (AsciiO - AsciiA)) as nat
  }

  /** The first byte of the first letter of `move`, when it is a played word
      with at least one face and that letter has a first byte. */
  function FirstLetterByte<P>(env: Env<P>, cubes: P, move: Option<Move>): Option<byte>
  {
    if move.Some? && move.value.moveType.PlayedWord? && |move.value.moveType.faces| > 0
    then env.firstByte(cubes, move.value.moveType.faces[0])
    else None
  }

  /** The `moves.last` handler: when the last move changes to a played word, the
      submit sound chosen by its first letter. */
  function SubmitSound<P>(env: Env<P>, cubes: P, previousLastMove: Option<Move>, lastMove: Option<Move>): (r: Option<Sound>)
    requires FirstLetterByte(env, cubes, lastMove).Some? ==> FirstLetterByte(env, cubes, lastMove).value >= AsciiA
    ensures r.Some? <==> previousLastMove != lastMove && FirstLetterByte(env, cubes, lastMove).Some?
    ensures r.Some? ==> && lastMove.Some? && lastMove.value.moveType.PlayedWord?
                        && |lastMove.value.moveType.faces| > 0
                        && r.value.Submit? && r.value.index < 14
                        && r.value.index == SubmitSoundIndex(FirstLetterByte(env, cubes, lastMove).value)
  {
    if previousLastMove == lastMove then None
    else
      match FirstLetterByte(env, cubes, lastMove)
      case None => None
      case Some(firstAscii) => Some(Submit(SubmitSoundIndex(firstAscii)))
  }

  /** The first `selectedWord` handler: deselecting a word that was not just
      played sounds `invalidWord` after a submit and `cubeDeselect` otherwise. */
  function DeselectSound(previous: seq<IndexedCubeFace>, selected: seq<IndexedCubeFace>, previousWord: string,
                         lastPlayedWord: Option<string>, isSubmitAction: bool): (r: Option<Sound>)
    ensures r.Some? <==> |previous| > 0 && selected == [] && lastPlayedWord != Some(previousWord)
    ensures r.Some? ==> r.value == if isSubmitAction then InvalidWord else CubeDeselect
  {
    if !(|previous| > 0 && selected == [] && lastPlayedWord != Some(previousWord)) then None
    else if isSubmitAction then Some(InvalidWord)
    else Some(CubeDeselect)
  }

  /** A selection shakes when it is a valid word and one of its faces has been used twice. */
  predicate IsShaking<P>(env: Env<P>, cubes: P, isValid: bool, selection: seq<IndexedCubeFace>)
  {
    isValid && exists i :: 0 <= i < |selection| && env.useCount(cubes, selection[i]) == 2
  }

  /** The new shake timestamp and the request for the shake sound loop. */
  datatype ShakeUpdate = ShakeUpdate(startedAt: Option<int>, effect: Option<Effect>)

  /** The second `selectedWord` handler: an empty or non-shaking selection clears
      the timestamp and stops the loop; a shaking one keeps the timestamp (or
      starts it now) and starts the loop only if the previous selection did not shake. */
  function ShakeStep(startedAt: Option<int>, now: int, selectionIsEmpty: bool, wasShaking: bool, isShaking: bool): (r: ShakeUpdate)
    ensures selectionIsEmpty || !isShaking ==> r == ShakeUpdate(None, Some(CancelShakeLoop))
    ensures !selectionIsEmpty && isShaking ==> r.startedAt.Some?
    ensures !selectionIsEmpty && isShaking && startedAt.Some? ==> r.startedAt == startedAt
    ensures !selectionIsEmpty && isShaking && startedAt.None? ==> r.startedAt == Some(now)
    ensures r.effect == Some(StartShakeLoop) <==> !selectionIsEmpty && !wasShaking && isShaking
    ensures r.effect.None? <==> !selectionIsEmpty && wasShaking && isShaking
  {
    if selectionIsEmpty then ShakeUpdate(None, Some(CancelShakeLoop))
    else if isShaking then
      ShakeUpdate(if startedAt.Some? then startedAt else Some(now), if wasShaking then None else Some(StartShakeLoop))
    else ShakeUpdate(None, Some(CancelShakeLoop))
  }
}
