/** The contact finder: tracking, stabilising and validating the contacts of every frame. */
module Finder {
  import opened Common
  import opened Contacts
  import opened Stabilizer
  import opened Tracker
  import opened Validator

  datatype Setup = Setup(hypot: (real, real) -> real, stability: Config, rules: Rules)

  /** The last frame, as each of the three stages remembers it. */
  datatype Memory = Memory(tracked: seq<Contact>, stabilized: seq<Contact>, validated: seq<Contact>)

  const BLANK := Memory([], [], [])

  /** What finding the contacts of one frame does to the memories; `frame` are the contacts that were detected. */
  ghost predicate Found(s: Setup, before: Memory, frame: seq<Contact>, after: Memory) {
    && Tracked(before.tracked, frame, s.hypot, after.tracked)
    && after.stabilized == StabilizedFrame(s.stability, s.hypot, before.stabilized, after.tracked)
    && after.validated == ValidatedFrame(s.rules, before.validated, after.stabilized)
  }

  class Finder {
    const setup: Setup
    const tracker: Tracker
    const stabilizer: Stabilizer
    const validator: Validator

    constructor (setup: Setup)
      ensures this.setup == setup && Valid() && View() == BLANK
      ensures fresh(tracker) && fresh(stabilizer) && fresh(validator)
    {
      this.setup := setup;
      tracker := new Tracker(setup.hypot);
      stabilizer := new Stabilizer(setup.stability, setup.hypot);
      validator := new Validator(setup.rules);
    }

    ghost predicate Valid()
      reads tracker
    {
      && tracker.Valid() && tracker.hypot == setup.hypot
      && stabilizer.hypot == setup.hypot && stabilizer.config == setup.stability
      && validator.rules == setup.rules
    }

    ghost function View(): Memory
      reads tracker, stabilizer, validator
    {
      Memory(tracker.last, stabilizer.last, validator.last)
    }

    method Reset()
      requires Valid()
      modifies tracker, stabilizer, validator
      ensures Valid() && View() == BLANK
    {
      tracker.Reset();
      stabilizer.Reset();
      validator.Reset();
    }

    /** `frame` holds the contacts that were detected, and afterwards those that were found. */
    method Find(frame: array<Contact>)
      requires Valid()
      modifies tracker, stabilizer, validator, frame
      ensures Valid() && Found(setup, old(View()), old(frame[..]), View())
      ensures frame[..] == View().validated
    {
      tracker.Track(frame);
      stabilizer.Stabilize(frame);
      validator.Validate(frame);
    }
  }

  // ---------------------------------------------------------------- runs

  /** The memories after each step of a run; a step without a frame is a reset. */
  ghost predicate IsRun(s: Setup, frames: seq<Option<seq<Contact>>>, memories: seq<Memory>) {
    && |memories| == |frames| + 1 && memories[0] == BLANK
    && forall i | 0 <= i < |frames| :: IsStep(s, memories[i], frames[i], memories[i + 1])
  }

  ghost predicate IsStep(s: Setup, before: Memory, frame: Option<seq<Contact>>, after: Memory) {
    match frame
    case None => after == BLANK
    case Some(f) => Found(s, before, f, after)
  }

  /** The three stages remember the same contacts in the same order, and no two with the same index. */
  ghost predicate InLockstep(m: Memory) {
    && Indices(m.tracked) == Indices(m.stabilized) == Indices(m.validated)
    && DistinctIndices(m.tracked) && DistinctIndices(m.stabilized) && DistinctIndices(m.validated)
  }

  lemma FoundIsInLockstep(s: Setup, before: Memory, frame: seq<Contact>, after: Memory)
    requires Found(s, before, frame, after) && InLockstep(before)
    ensures InLockstep(after)
  {
    hide Tracked, Stabilized, Validated;
    TrackedIndicesAreDistinct(before.tracked, frame, s.hypot, after.tracked);
    SameIndices(after.tracked, after.stabilized);
    ValidatedIndices(s.rules, before.validated, after.stabilized);
    SameIndices(after.stabilized, after.validated);
  }

  lemma ValidatedIndices(rules: Rules, last: seq<Contact>, frame: seq<Contact>)
    ensures forall i | 0 <= i < |frame| :: ValidatedFrame(rules, last, frame)[i].index == frame[i].index
  {
  }

  lemma SameIndices(a: seq<Contact>, b: seq<Contact>)
    requires |a| == |b| && forall i | 0 <= i < |a| :: b[i].index == a[i].index
    ensures Indices(a) == Indices(b) && DistinctIndices(a) == DistinctIndices(b)
  {
  }

  /** In every run, the three stages stay in step. */
  lemma {:induction false} RunIsInLockstep(s: Setup, frames: seq<Option<seq<Contact>>>, memories: seq<Memory>, i: nat)
    requires IsRun(s, frames, memories) && i < |memories|
    ensures InLockstep(memories[i])
  {
    hide Found;
    if i > 0 {
      RunIsInLockstep(s, frames, memories, i - 1);
      assert IsStep(s, memories[i - 1], frames[i - 1], memories[i]);
      if frames[i - 1].Some? {
        FoundIsInLockstep(s, memories[i - 1], frames[i - 1].value, memories[i]);
      }
    }
  }

  // ---------------------------------------------------------------- one contact over a run

  /** The contact with an index, as it was reported. */
  function Reported(m: Memory, index: nat): Option<Contact> {
    FindInFrame(index, m.validated)
  }

  predicate Invalid(c: Option<Contact>) {
    c.Some? && c.value.valid == Some(false)
  }

  lemma {:induction false} FindValidated(rules: Rules, last: seq<Contact>, frame: seq<Contact>, index: nat)
    ensures FindInFrame(index, ValidatedFrame(rules, last, frame)) ==
            match FindInFrame(index, frame) { case None => None case Some(c) => Some(Validated(rules, last, c)) }
  {
    hide ContactOk;
    if frame != [] {
      FindValidated(rules, last, frame[1..], index);
      assert ValidatedFrame(rules, last, frame)[1..] == ValidatedFrame(rules, last, frame[1..]);
    }
  }

  lemma {:induction false} FindStabilized(cfg: Config, hypot: (real, real) -> real, last: seq<Contact>,
      frame: seq<Contact>, index: nat)
    ensures FindInFrame(index, StabilizedFrame(cfg, hypot, last, frame)) ==
            match FindInFrame(index, frame) { case None => None case Some(c) => Some(Stabilized(cfg, hypot, last, c)) }
  {
    hide Stabilized;
    if frame != [] {
      FindStabilized(cfg, hypot, last, frame[1..], index);
      assert StabilizedFrame(cfg, hypot, last, frame)[1..] == StabilizedFrame(cfg, hypot, last, frame[1..]);
    }
  }

  /** The contact with an index, as it was measured. */
  function Measured(m: Memory, index: nat): Option<Contact> {
    FindInFrame(index, m.tracked)
  }

  /** The contact with the index is there, and was measured to change too fast from what the stabilizer remembers. */
  predicate Jumps(s: Setup, before: Memory, after: Memory, index: nat) {
    Measured(after, index).Some? && TooFast(s.stability, s.hypot, before.stabilized, Measured(after, index).value)
  }

  lemma ReportedIsMeasured(s: Setup, before: Memory, frame: seq<Contact>, after: Memory, index: nat)
    requires Found(s, before, frame, after)
    ensures Reported(after, index).Some? <==> Measured(after, index).Some?
    ensures Reported(after, index).Some? ==>
              var stabilized := Stabilized(s.stability, s.hypot, before.stabilized, Measured(after, index).value);
              && Reported(after, index).value == Validated(s.rules, before.validated, stabilized)
              && (Reported(after, index).value.stable == Some(false) <==> Jumps(s, before, after, index))
  {
    hide Tracked, StabilizedFrame, ValidatedFrame, FindInFrame, Stabilized, ContactOk, TooFast;
    FindStabilized(s.stability, s.hypot, before.stabilized, after.tracked, index);
    FindValidated(s.rules, before.validated, after.stabilized, index);
    if Measured(after, index).Some? {
      UnstableMeansFast(s.stability, s.hypot, before.stabilized, Measured(after, index).value);
    }
  }

  /** An invalid contact that is still there in the next frame is invalid again exactly if it was not measured to change
      too fast. */
  lemma InvalidAgainIffSlow(s: Setup, before: Memory, frame: seq<Contact>, after: Memory, index: nat)
    requires Found(s, before, frame, after) && s.rules.trackValidity
    requires Invalid(Reported(before, index)) && Measured(after, index).Some?
    ensures Invalid(Reported(after, index)) <==> !Jumps(s, before, after, index)
  {
    hide Found, Stabilized, Jumps, FindInFrame, SizeOk, AspectOk;
    ReportedIsMeasured(s, before, frame, after, index);
  }

  /** The contact is invalid in all frames from `i` to `j`. */
  ghost predicate InvalidThrough(memories: seq<Memory>, i: nat, j: nat, index: nat)
    requires j < |memories|
  {
    forall m | i <= m <= j :: Invalid(Reported(memories[m], index))
  }

  /** With validity tracking, a contact that was invalid once stays invalid through any number of frames in which it is
      there, if and only if none of the measurements changes too fast. */
  lemma {:induction false} InvalidStaysIffSlow(s: Setup, frames: seq<Option<seq<Contact>>>, memories: seq<Memory>,
      i: nat, j: nat, index: nat)
    requires IsRun(s, frames, memories) && i <= j < |memories| && s.rules.trackValidity
    requires Invalid(Reported(memories[i], index))
    requires forall m | i < m <= j :: Measured(memories[m], index).Some?
    ensures InvalidThrough(memories, i, j, index) <==>
            forall m | i < m <= j :: !Jumps(s, memories[m - 1], memories[m], index)
    decreases j
  {
    hide Found, Jumps, Invalid, Measured, Reported;
    if i < j {
      InvalidStaysIffSlow(s, frames, memories, i, j - 1, index);
      assert IsStep(s, memories[j - 1], frames[j - 1], memories[j]);
      MeasuredInFrame(s, memories[j - 1], frames[j - 1], memories[j], index);
      if InvalidThrough(memories, i, j - 1, index) {
        InvalidAgainIffSlow(s, memories[j - 1], frames[j - 1].value, memories[j], index);
        assert InvalidThrough(memories, i, j, index) <==> Invalid(Reported(memories[j], index));
      }
    }
  }

  lemma MeasuredInFrame(s: Setup, before: Memory, frame: Option<seq<Contact>>, after: Memory, index: nat)
    requires IsStep(s, before, frame, after) && Measured(after, index).Some?
    ensures frame.Some?
  {
  }

  // ---------------------------------------------------------------- a run that forgets

  /** A round contact in the middle, as it is detected. */
  function Disc(size: real): Contact {
    Contact(0.5, 0.5, size, size, 0.0, true, None, None, None)
  }

  function Seen(size: real, valid: bool, stable: bool): Contact {
    Disc(size).(index := Some(0), valid := Some(valid), stable := Some(stable))
  }

  /** Only the size is stabilised, and only the size is validated. */
  function Sizes(hypot: (real, real) -> real): Setup {
    Setup(hypot, Config(Some(Threshold(0.01, 0.05)), None, None, 3.14), Rules(true, None, Some(Limits(0.1, 0.2))))
  }

  /** A memory in which the contact was measured, stabilised and validated as given. */
  function Remembered(size: real, stable: bool, valid: bool): Memory {
    Memory([Disc(size).(index := Some(0))], [Disc(size).(index := Some(0), stable := Some(stable))],
        [Seen(size, valid, stable)])
  }

  lemma FirstTracked(c: Contact, hypot: (real, real) -> real)
    ensures Tracked([], [c], hypot, [c.(index := Some(0))])
  {
    var pairs: seq<Pair> := [];
    assert Used([]) == {};
    assert NewIndices(1, {})[0] == 0;
    assert IsMatching([], [c], hypot, pairs);
    assert Assigned([], [c], pairs, [c.(index := Some(0))]);
  }

  lemma TrackedAgain(last: Contact, c: Contact, hypot: (real, real) -> real)
    requires last.index == Some(0)
    ensures Tracked([last], [c], hypot, [c.(index := Some(0))])
  {
    var pairs := [Pair(0, 0)];
    assert IsMatching([last], [c], hypot, pairs);
    assert !FreeColumn(0, pairs) by {
      assert pairs[0].x == 0;
    }
    assert Assigned([last], [c], pairs, [c.(index := Some(0))]);
  }

  lemma FirstFrame(hypot: (real, real) -> real)
    ensures Found(Sizes(hypot), BLANK, [Disc(0.3)], Remembered(0.3, true, false))
  {
    hide Tracked;
    FirstTracked(Disc(0.3), hypot);
  }

  lemma SecondFrame(hypot: (real, real) -> real)
    ensures Found(Sizes(hypot), Remembered(0.3, true, false), [Disc(0.15)], Remembered(0.15, false, true))
  {
    hide Tracked;
    TrackedAgain(Disc(0.3).(index := Some(0)), Disc(0.15), hypot);
    assert FindInFrame(0, Remembered(0.3, true, false).stabilized) ==
        Some(Disc(0.3).(index := Some(0), stable := Some(true)));
  }

  lemma ThirdFrame(hypot: (real, real) -> real)
    ensures Found(Sizes(hypot), Remembered(0.15, false, true), [Disc(0.15)], Remembered(0.15, true, true))
  {
    hide Tracked;
    TrackedAgain(Disc(0.15).(index := Some(0)), Disc(0.15), hypot);
    assert FindInFrame(0, Remembered(0.15, false, true).stabilized) ==
        Some(Disc(0.15).(index := Some(0), stable := Some(false)));
    assert FindInFrame(0, Remembered(0.15, false, true).validated) == Some(Seen(0.15, true, false));
  }

  /** A contact that is too large at first shrinks quickly, and then stays as it is. It is there in all three frames,
      and invalid in the first one, but the quick change clears the mark: it is valid in the other two, unstable in one
      of them and stable in the other. */
  lemma QuickChangeClearsMark(hypot: (real, real) -> real)
      returns (frames: seq<Option<seq<Contact>>>, memories: seq<Memory>)
    ensures IsRun(Sizes(hypot), frames, memories) && |memories| == 4
    ensures frames == [Some([Disc(0.3)]), Some([Disc(0.15)]), Some([Disc(0.15)])]
    ensures Reported(memories[1], 0) == Some(Seen(0.3, false, true))
    ensures Reported(memories[2], 0) == Some(Seen(0.15, true, false))
    ensures Reported(memories[3], 0) == Some(Seen(0.15, true, true))
  {
    hide Found;
    frames := [Some([Disc(0.3)]), Some([Disc(0.15)]), Some([Disc(0.15)])];
    memories := [BLANK, Remembered(0.3, true, false), Remembered(0.15, false, true), Remembered(0.15, true, true)];
    FirstFrame(hypot);
    SecondFrame(hypot);
    ThirdFrame(hypot);
  }

  /** The contact with an index in the memory of the stabilizer is where `c` is. */
  predicate HeldAt(m: Memory, index: nat, c: Contact) {
    var held := FindInFrame(index, m.stabilized);
    held.Some? && held.value.meanX == c.meanX && held.value.meanY == c.meanY
  }

  /** The contact was measured closer to `c` than the lower position limit. */
  predicate Near(s: Setup, m: Memory, index: nat, c: Contact)
    requires s.stability.position.Some?
  {
    var raw := FindInFrame(index, m.tracked);
    raw.Some? && s.hypot(raw.value.meanX - c.meanX, raw.value.meanY - c.meanY) < s.stability.position.value.low
  }

  /** While a contact stays near the place where it is held, it is held there. */
  lemma {:induction false} PositionIsHeld(s: Setup, frames: seq<Option<seq<Contact>>>, memories: seq<Memory>, i: nat,
      j: nat, index: nat, c: Contact)
    requires IsRun(s, frames, memories) && i <= j < |memories| && s.stability.position.Some?
    requires HeldAt(memories[i], index, c)
    requires forall m | i < m <= j :: Near(s, memories[m], index, c)
    ensures HeldAt(memories[j], index, c)
    ensures i < j ==> Reported(memories[j], index).Some? &&
                      Reported(memories[j], index).value.meanX == c.meanX
                          && Reported(memories[j], index).value.meanY == c.meanY
  {
    hide Found;
    if i < j {
      PositionIsHeld(s, frames, memories, i, j - 1, index, c);
      assert IsStep(s, memories[j - 1], frames[j - 1], memories[j]);
      assert Near(s, memories[j], index, c);
      StepHolds(s, memories[j - 1], frames[j - 1].value, memories[j], index, c);
    }
  }

  lemma StepHolds(s: Setup, before: Memory, frame: seq<Contact>, after: Memory, index: nat, c: Contact)
    requires Found(s, before, frame, after) && s.stability.position.Some?
    requires HeldAt(before, index, c) && Near(s, after, index, c)
    ensures HeldAt(after, index, c)
    ensures Reported(after, index).Some? &&
            Reported(after, index).value.meanX == c.meanX && Reported(after, index).value.meanY == c.meanY
  {
    hide Tracked, StabilizedFrame, ValidatedFrame, Stabilized, Validated, FindInFrame;
    FindStabilized(s.stability, s.hypot, before.stabilized, after.tracked, index);
    FindValidated(s.rules, before.validated, after.stabilized, index);
    HeldPosition(s.stability, s.hypot, before.stabilized, FindInFrame(index, after.tracked).value, c);
    PositionIsKept(s.rules, before.validated, FindInFrame(index, after.stabilized).value);
  }

  lemma PositionIsKept(rules: Rules, last: seq<Contact>, c: Contact)
    ensures Validated(rules, last, c).meanX == c.meanX && Validated(rules, last, c).meanY == c.meanY
  {
  }

  lemma HeldPosition(cfg: Config, hypot: (real, real) -> real, last: seq<Contact>, raw: Contact, c: Contact)
    requires cfg.position.Some? && raw.index.Some?
    requires FindInFrame(raw.index.value, last).Some?
    requires FindInFrame(raw.index.value, last).value.meanX == c.meanX
              && FindInFrame(raw.index.value, last).value.meanY == c.meanY
    requires hypot(raw.meanX - c.meanX, raw.meanY - c.meanY) < cfg.position.value.low
    ensures Stabilized(cfg, hypot, last, raw).meanX == c.meanX && Stabilized(cfg, hypot, last, raw).meanY == c.meanY
  {
  }
}
