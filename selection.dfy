/** The selection tracker: how taps and drags build and trim the selected word.
    Each function gives the selection a gesture leaves behind; the reducer's
    methods in module Game are specified by them. */
module Selection {
  import opened GameTypes

  /** Every face after the first touches the face selected just before it. */
  predicate Chain(isTouching: (IndexedCubeFace, IndexedCubeFace) -> bool, s: seq<IndexedCubeFace>)
  {
    forall i :: 0 < i < |s| ==> isTouching(s[i - 1], s[i])
  }

  /** No element occurs twice. */
  predicate Distinct<T(==)>(s: seq<T>)
  {
    forall i, j :: 0 <= i < j < |s| ==> s[i] != s[j]
  }

  /** The selection invariant: a duplicate-free chain of touching faces. */
  predicate WellFormed(isTouching: (IndexedCubeFace, IndexedCubeFace) -> bool, s: seq<IndexedCubeFace>)
  {
    Chain(isTouching, s) && Distinct(s)
  }

  /** Swift's `firstIndex(of:)`. */
  function FirstIndexOf<T(==)>(s: seq<T>, x: T): (r: Option<nat>)
    ensures r.Some? <==> x in s
    ensures r.Some? ==> r.value < |s| && s[r.value] == x && x !in s[..r.value]
  {
    if s == [] then None
    else if s[0] == x then Some(0)
    else
      match FirstIndexOf(s[1..], x)
      case None => None
      case Some(i) => Some(i + 1)
  }

  /** `removeSubrange((index + 1)...)` at the first occurrence of `face`:
      the selection backs up to end at that face. */
  function TruncateAfter(s: seq<IndexedCubeFace>, face: IndexedCubeFace): (r: seq<IndexedCubeFace>)
    requires face in s
    ensures r <= s && |r| > 0 && r[|r| - 1] == face && face !in r[..|r| - 1]
  {
    s[..FirstIndexOf(s, face).value + 1]
  }

  /** `removeSubrange(index...)` at the first occurrence of `face`:
      the face and everything selected after it are dropped. */
  function TruncateAt(s: seq<IndexedCubeFace>, face: IndexedCubeFace): (r: seq<IndexedCubeFace>)
    requires face in s
    ensures r <= s && |r| < |s| && s[|r|] == face && face !in r
  {
    s[..FirstIndexOf(s, face).value]
  }

  /** A face may be appended when it is not yet selected, is playable, and the
      selection is empty or its last face touches it. */
  predicate CanAppend<P>(env: Env<P>, cubes: P, s: seq<IndexedCubeFace>, face: IndexedCubeFace)
  {
    && face !in s
    && env.isPlayable(cubes, face)
    && (s == [] || env.isTouching(s[|s| - 1], face))
  }

  lemma PrefixKeepsWellFormed(isTouching: (IndexedCubeFace, IndexedCubeFace) -> bool, s: seq<IndexedCubeFace>, t: seq<IndexedCubeFace>)
    requires WellFormed(isTouching, s) && t <= s
    ensures WellFormed(isTouching, t)
  {
    assert forall i :: 0 <= i < |t| ==> t[i] == s[i];
  }

  lemma AppendKeepsWellFormed(isTouching: (IndexedCubeFace, IndexedCubeFace) -> bool, s: seq<IndexedCubeFace>, face: IndexedCubeFace)
    requires WellFormed(isTouching, s) && face !in s
    requires s == [] || isTouching(s[|s| - 1], face)
    ensures WellFormed(isTouching, s + [face])
  {
    var t := s + [face];
    forall i | 0 < i < |t| ensures isTouching(t[i - 1], t[i]) {
      if i < |s| { assert t[i - 1] == s[i - 1] && t[i] == s[i]; }
    }
    forall i, j | 0 <= i < j < |t| ensures t[i] != t[j] {
      if j < |s| { assert t[i] == s[i] && t[j] == s[j]; }
      else { assert t[i] == s[i] && t[j] == face; }
    }
  }

  /** `pan(.changed, panData)`: the selection after the drag moves onto a face. */
  function PanChanged<P>(env: Env<P>, cubes: P, s: seq<IndexedCubeFace>, data: PanData): (r: seq<IndexedCubeFace>)
    // the drag keeps the selection a duplicate-free chain of touching faces
    ensures WellFormed(env.isTouching, s) ==> WellFormed(env.isTouching, r)
    // near a corner of the face, the sample is ignored
    ensures !data.isAwayFromCorners ==> r == s
    // dragging back onto a selected face backs up to it
    ensures data.isAwayFromCorners && data.cubeFaceState in s ==> r == TruncateAfter(s, data.cubeFaceState)
    // a new face is appended exactly when it can extend the selection
    ensures data.isAwayFromCorners && data.cubeFaceState !in s ==>
      r == if CanAppend(env, cubes, s, data.cubeFaceState) then s + [data.cubeFaceState] else s
  {
    var face := data.cubeFaceState;
    if !data.isAwayFromCorners then s
    else if |s| > 0 && !env.isTouching(s[|s| - 1], face) && face !in s then s
    else
      match FirstIndexOf(s, face)
      case Some(index) =>
        PrefixKeepsWellFormedIf(env.isTouching, s, s[..index + 1]);
        s[..index + 1]
      case None =>
        if env.isPlayable(cubes, face) then
          AppendKeepsWellFormedIf(env.isTouching, s, face);
          s + [face]
        else s
  }

  /** What `tap(.began)` leaves: the selection and the optimistically selected face. */
  datatype TapStart = TapStart(word: seq<IndexedCubeFace>, optimistic: Option<IndexedCubeFace>)

  /** `tap(.began, face)`. */
  function TapBegan<P>(env: Env<P>, cubes: P, s: seq<IndexedCubeFace>, face: Option<IndexedCubeFace>): (r: TapStart)
    ensures WellFormed(env.isTouching, s) ==> WellFormed(env.isTouching, r.word)
    // an optimistic face is always the last face of the new selection
    ensures r.optimistic.Some? ==> |r.word| > 0 && r.word[|r.word| - 1] == r.optimistic.value
    // tapping off the cube or on an unplayable face deselects everything
    ensures face.None? || !env.isPlayable(cubes, face.value) ==> r == TapStart([], None)
    // tapping a selected face backs up to it; it becomes optimistic unless it was already last
    ensures face.Some? && env.isPlayable(cubes, face.value) && face.value in s ==>
      && r.word == TruncateAfter(s, face.value)
      && r.optimistic == if r.word == s then None else face
    // tapping an unselected face that does not touch the last face deselects everything
    ensures (face.Some? && env.isPlayable(cubes, face.value) && face.value !in s
             && |s| > 0 && !env.isTouching(s[|s| - 1], face.value)) ==> r == TapStart([], None)
    // otherwise the face is appended and becomes optimistic
    ensures face.Some? && CanAppend(env, cubes, s, face.value) ==> r == TapStart(s + [face.value], face)
  {
    if face.None? || !env.isPlayable(cubes, face.value) then TapStart([], None)
    else
      match FirstIndexOf(s, face.value)
      case Some(index) =>
        if index != |s| - 1 then
          PrefixKeepsWellFormedIf(env.isTouching, s, s[..index + 1]);
          TapStart(s[..index + 1], face)
        else
          assert s[..index + 1] == s;
          TapStart(s, None)
      case None =>
        if |s| > 0 && !env.isTouching(s[|s| - 1], face.value) then TapStart([], None)
        else
          AppendKeepsWellFormedIf(env.isTouching, s, face.value);
          TapStart(s + [face.value], face)
  }

  /** `tap(.ended, face)`: the selection after the tap ends (the optimistic face
      is cleared in every case). */
  function TapEnded<P>(env: Env<P>, cubes: P, s: seq<IndexedCubeFace>, face: Option<IndexedCubeFace>,
                       optimistic: Option<IndexedCubeFace>, isPanning: bool): (r: seq<IndexedCubeFace>)
    ensures WellFormed(env.isTouching, s) ==> WellFormed(env.isTouching, r)
    // during a drag, off the cube, on the optimistic face or on an unplayable face nothing changes
    ensures isPanning || face.None? || face == optimistic || !env.isPlayable(cubes, face.value) ==> r == s
    // ending a tap on another selected face drops it and everything after it
    ensures (!isPanning && face.Some? && face != optimistic && env.isPlayable(cubes, face.value)
             && face.value in s) ==> r == TruncateAt(s, face.value)
    // ending a tap on an unselected playable face deselects everything
    ensures (!isPanning && face.Some? && face != optimistic && env.isPlayable(cubes, face.value)
             && face.value !in s) ==> r == []
  {
    if isPanning || face.None? || face == optimistic || !env.isPlayable(cubes, face.value) then s
    else
      match FirstIndexOf(s, face.value)
      case Some(index) =>
        PrefixKeepsWellFormedIf(env.isTouching, s, s[..index]);
        s[..index]
      case None => []
  }

  /** PrefixKeepsWellFormed, for use where the hypothesis may not hold. */
  lemma PrefixKeepsWellFormedIf(isTouching: (IndexedCubeFace, IndexedCubeFace) -> bool, s: seq<IndexedCubeFace>, t: seq<IndexedCubeFace>)
    requires t <= s
    ensures WellFormed(isTouching, s) ==> WellFormed(isTouching, t)
  {
    if WellFormed(isTouching, s) { PrefixKeepsWellFormed(isTouching, s, t); }
  }

  /** AppendKeepsWellFormed, for use where the hypothesis may not hold. */
  lemma AppendKeepsWellFormedIf(isTouching: (IndexedCubeFace, IndexedCubeFace) -> bool, s: seq<IndexedCubeFace>, face: IndexedCubeFace)
    requires face !in s
    requires s == [] || isTouching(s[|s| - 1], face)
    ensures WellFormed(isTouching, s) ==> WellFormed(isTouching, s + [face])
  {
    if WellFormed(isTouching, s) { AppendKeepsWellFormed(isTouching, s, face); }
  }
}
