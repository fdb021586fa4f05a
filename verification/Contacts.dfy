/** A touch contact, and frames of contacts. */
module Contacts {
  import opened Common

  datatype Contact = Contact(
    meanX: real,
    meanY: real,
    sizeX: real,
    sizeY: real,
    orientation: real,
    normalized: bool,
    index: Option<nat>,
    valid: Option<bool>,
    stable: Option<bool>)

  /** The first contact of a frame with the given index. */
  function FindInFrame(index: nat, frame: seq<Contact>): (c: Option<Contact>)
    ensures c.Some? ==> c.value in frame && c.value.index == Some(index)
    ensures c.None? <==> forall d | d in frame :: d.index != Some(index)
  {
    if frame == [] then None
    else if frame[0].index == Some(index) then Some(frame[0])
    else FindInFrame(index, frame[1..])
  }

  /** The indices of a frame, in the order of its contacts. */
  ghost function Indices(frame: seq<Contact>): (s: seq<Option<nat>>)
    ensures |s| == |frame| && forall i | 0 <= i < |s| :: s[i] == frame[i].index
  {
    seq(|frame|, i requires 0 <= i < |frame| => frame[i].index)
  }

  /** Every contact has an index, and no two have the same. */
  ghost predicate DistinctIndices(frame: seq<Contact>) {
    && (forall i | 0 <= i < |frame| :: frame[i].index.Some?)
    && (forall i, j | 0 <= i < j < |frame| :: frame[i].index != frame[j].index)
  }

  lemma {:induction false} FindByPosition(frame: seq<Contact>, i: nat)
    requires DistinctIndices(frame) && i < |frame|
    ensures FindInFrame(frame[i].index.value, frame) == Some(frame[i])
  {
    if i > 0 {
      assert frame[0].index != frame[i].index;
      FindByPosition(frame[1..], i - 1);
    }
  }
}
