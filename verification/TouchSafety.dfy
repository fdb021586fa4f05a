/** What the touch device guarantees over whole runs. */
module TouchSafety {
  import opened Common
  import opened Contacts
  import opened Uinput
  import opened Touch
  import Tracker

  datatype TouchEvent = Frame(contacts: seq<Contact>) | Button(pressed: bool) | Disable | Enable

  function Step(g: Settings, d: Device, e: TouchEvent): Device
    requires g.width > 0.0 && g.height > 0.0
  {
    match e
    case Frame(contacts) => Updated(g, d, contacts)
    case Button(pressed) => Clicked(d, pressed)
    case Disable => Disabled(g, d)
    case Enable => Enabled(d)
  }

  /** The device after a sequence of events. */
  function Run(g: Settings, events: seq<TouchEvent>): Device
    requires g.width > 0.0 && g.height > 0.0
  {
    if events == [] then NEW_DEVICE
    else
      var n := |events| - 1;
      Step(g, Run(g, events[..n]), events[n])
  }

  /** No two contacts of the frame have the same index. */
  ghost predicate Unique(frame: seq<Contact>) {
    forall i, j | 0 <= i < j < |frame| :: frame[i].index.Some? ==> frame[i].index != frame[j].index
  }

  // ---------------------------------------------------------------- frames without further conditions

  /** Slots hold their own number as tracking id, and positions are within the declared ranges. */
  ghost predicate WellFormed(s: Screen) {
    forall i | i in s.fingers ::
      && (s.fingers[i].id == -1 || s.fingers[i].id == i)
      && 0 <= s.fingers[i].x <= MAX_X && 0 <= s.fingers[i].y <= MAX_Y
  }

  lemma {:induction false} ShownIsWellFormed(g: Settings, s: Screen, single: nat, count: nat, frame: seq<Contact>)
    requires g.width > 0.0 && g.height > 0.0 && WellFormed(s)
    ensures WellFormed(FrameShown(g, s, single, count, frame))
  {
    hide MustLift, OnAxis, Tools;
    if frame != [] {
      ShownIsWellFormed(g, s, single, count, frame[..|frame| - 1]);
    }
  }

  /** A frame has no influence on the slots of indices it does not contain. */
  lemma {:induction false} OtherSlotsUntouched(g: Settings, s: Screen, single: nat, count: nat, frame: seq<Contact>,
      slot: nat)
    requires g.width > 0.0 && g.height > 0.0
    requires forall c | c in frame :: c.index != Some(slot)
    ensures slot in FrameShown(g, s, single, count, frame).fingers <==> slot in s.fingers
    ensures FingerAt(FrameShown(g, s, single, count, frame).fingers, slot) == FingerAt(s.fingers, slot)
  {
    hide MustLift, OnAxis, Tools;
    if frame != [] {
      var n := |frame| - 1;
      assert frame[n] in frame;
      OtherSlotsUntouched(g, s, single, count, frame[..n], slot);
    }
  }

  lemma InIndexSet(frame: seq<Contact>, slot: nat)
    ensures slot in IndexSet(frame) <==> exists c | c in frame :: c.index == Some(slot)
  {
    if c :| c in frame && c.index == Some(slot) {
      assert c.index.value == slot;
    }
  }

  lemma ActiveAt(s: Screen, slot: nat)
    ensures slot in Active(s) <==> FingerAt(s.fingers, slot).id >= 0
  {
  }

  /** The device is consistent with the kernel. */
  ghost predicate Consistent(d: Device) {
    && WellFormed(d.screen)
    && Active(d.screen) <= d.current
    && (!d.enabled ==> d.current == {} && BtnTouch !in d.screen.keys)
  }

  lemma ReleasedSlots(s: Screen, slots: set<nat>, t: Screen)
    requires t.fingers == Released(s.fingers, slots)
    ensures Active(t) == Active(s) - slots
    ensures WellFormed(s) ==> WellFormed(t)
    ensures forall i | i !in slots :: FingerAt(t.fingers, i) == FingerAt(s.fingers, i)
  {
  }

  lemma FrameKeepsConsistent(g: Settings, d: Device, frame: seq<Contact>)
    requires g.width > 0.0 && g.height > 0.0 && Consistent(d)
    ensures Consistent(Updated(g, d, frame))
  {
    hide MustLift, FrameShown, WellFormed, Released, NextSingle, SingleStays;
    if d.enabled {
      var e := Searched(d, frame);
      if Blocked(g, frame) {
        ReleasedSlots(d.screen, e.current + e.last, AllLifted(g, e).screen);
      } else {
        var shown := FrameShown(g, d.screen, d.single, |e.current|, frame);
        ShownIsWellFormed(g, d.screen, d.single, |e.current|, frame);
        var out := Processed(g, e, frame);
        ReleasedSlots(shown, e.lift, out.screen);
        forall slot | slot in Active(out.screen)
          ensures slot in e.current
        {
          if slot !in e.current {
            InIndexSet(frame, slot);
            OtherSlotsUntouched(g, d.screen, d.single, |e.current|, frame, slot);
            ActiveAt(shown, slot);
            ActiveAt(d.screen, slot);
          }
        }
      }
    }
  }

  lemma DisableReleasesEverything(g: Settings, d: Device)
    requires Consistent(d)
    ensures Active(Disabled(g, d).screen) == {} && BtnTouch !in Disabled(g, d).screen.keys && Consistent(Disabled(g, d))
    ensures g.touchpad ==> BtnLeft !in Disabled(g, d).screen.keys
  {
    hide WellFormed, Released;
    ReleasedSlots(d.screen, d.current + d.last, Disabled(g, d).screen);
  }

  /** Frames, button samples, and disabling and enabling the device keep it consistent with the kernel. */
  lemma {:induction false} NoGhostTouches(g: Settings, events: seq<TouchEvent>)
    requires g.width > 0.0 && g.height > 0.0
    ensures Consistent(Run(g, events))
    ensures !Run(g, events).enabled ==> Active(Run(g, events).screen) == {}
  {
    hide WellFormed, Released, FrameShown, Updated, MustLift;
    if events == [] {
      BlankIsWellFormed();
    } else {
      var n := |events| - 1;
      NoGhostTouches(g, events[..n]);
      var d := Run(g, events[..n]);
      match events[n]
      case Frame(contacts) => FrameKeepsConsistent(g, d, contacts);
      case Button(pressed) => SameFingers(d.screen, Clicked(d, pressed).screen);
      case Disable => DisableReleasesEverything(g, d);
      case Enable =>
    }
  }

  lemma BlankIsWellFormed()
    ensures WellFormed(BLANK)
  {
  }

  lemma SameFingers(s: Screen, t: Screen)
    requires s.fingers == t.fingers
    ensures WellFormed(s) == WellFormed(t) && Active(s) == Active(t)
  {
  }

  /** A contact is known to be invalid. */
  ghost predicate HasPalm(frame: seq<Contact>) {
    exists c | c in frame :: c.valid == Some(false)
  }

  /** A frame with a palm in it releases every slot when palms block the device. */
  lemma PalmReleasesEverything(g: Settings, d: Device, frame: seq<Contact>)
    requires g.width > 0.0 && g.height > 0.0 && Consistent(d) && d.enabled && g.disableOnPalm && HasPalm(frame)
    ensures Active(Updated(g, d, frame).screen) == {} && BtnTouch !in Updated(g, d, frame).screen.keys
    ensures g.touchpad ==> BtnLeft !in Updated(g, d, frame).screen.keys
  {
    hide WellFormed, Released;
    var e := Searched(d, frame);
    ReleasedSlots(d.screen, e.current + e.last, AllLifted(g, e).screen);
  }

  // ---------------------------------------------------------------- what the kernel shows

  /** What a frame with unique indices makes of the slot of one of its contacts. */
  ghost function SlotShown(g: Settings, c: Contact, slot: nat, before: Finger): Finger
    requires g.width > 0.0 && g.height > 0.0
  {
    if c.stable == Some(false) then before
    else if !OnScreen(g, c) then before.(id := -1)
    else FingerOf(c, slot)
  }

  lemma {:induction false} ContactIsShown(g: Settings, s: Screen, single: nat, count: nat, frame: seq<Contact>, i: nat,
      slot: nat)
    requires g.width > 0.0 && g.height > 0.0
    requires Unique(frame) && i < |frame| && frame[i].index == Some(slot)
    ensures FingerAt(FrameShown(g, s, single, count, frame).fingers, slot) ==
              SlotShown(g, frame[i], slot, FingerAt(s.fingers, slot))
  {
    hide MustLift, FingerOf, OnAxis, Tools, OnScreen;
    var n := |frame| - 1;
    if i == n {
      forall c | c in frame[..n]
        ensures c.index != Some(slot)
      {
        var k :| 0 <= k < n && frame[..n][k] == c;
        assert frame[k].index.Some? ==> frame[k].index != frame[n].index;
      }
      OtherSlotsUntouched(g, s, single, count, frame[..n], slot);
      LiftedExactlyOffScreen(g, frame[i]);
    } else {
      assert frame[i].index != frame[n].index;
      ContactIsShown(g, s, single, count, frame[..n], i, slot);
    }
  }

  /** After a frame, the kernel shows its stable contacts as they are, and its unstable ones as they were. */
  lemma KernelShowsFrame(g: Settings, d: Device, frame: seq<Contact>, i: nat, slot: nat)
    requires g.width > 0.0 && g.height > 0.0 && Consistent(d) && d.enabled && !(g.disableOnPalm && HasPalm(frame))
    requires Unique(frame) && i < |frame| && frame[i].index == Some(slot)
    ensures FingerAt(Updated(g, d, frame).screen.fingers, slot) ==
              SlotShown(g, frame[i], slot, FingerAt(d.screen.fingers, slot))
  {
    hide MustLift, FrameShown, WellFormed, Released, SlotShown, SingleStays, NextSingle;
    var e := Searched(d, frame);
    var shown := FrameShown(g, d.screen, d.single, |e.current|, frame);
    ContactIsShown(g, d.screen, d.single, |e.current|, frame, i, slot);
    InIndexSet(frame, slot);
    assert frame[i] in frame;
    ReleasedSlots(shown, e.lift, Processed(g, e, frame).screen);
  }

  /** A contact that the kernel should show: it is valid and not too far outside of the screen. */
  ghost predicate Showing(g: Settings, frame: seq<Contact>, i: nat, slot: nat)
    requires g.width > 0.0 && g.height > 0.0 && i < |frame|
  {
    frame[i].index == Some(slot) && OnScreen(g, frame[i])
  }

  /** After a frame of stable contacts, the active slots are exactly those of the contacts on the screen. */
  lemma StableFrameIsExact(g: Settings, d: Device, frame: seq<Contact>, slot: nat)
    requires g.width > 0.0 && g.height > 0.0 && Consistent(d) && d.enabled && !(g.disableOnPalm && HasPalm(frame))
    requires Unique(frame) && forall c | c in frame :: c.stable != Some(false)
    ensures slot in Active(Updated(g, d, frame).screen) <==> exists i | 0 <= i < |frame| :: Showing(g, frame, i, slot)
  {
    hide MustLift, WellFormed, FingerOf, Updated, OnScreen;
    var out := Updated(g, d, frame);
    ActiveAt(out.screen, slot);
    if i :| 0 <= i < |frame| && frame[i].index == Some(slot) {
      assert frame[i] in frame;
      KernelShowsFrame(g, d, frame, i, slot);
      FingerIdIsSlot(frame[i], slot);
      assert Showing(g, frame, i, slot) <==> slot in Active(out.screen);
      forall j | 0 <= j < |frame| && Showing(g, frame, j, slot)
        ensures j == i
      {
        OneContact(frame, i, j);
      }
    } else {
      FrameKeepsConsistent(g, d, frame);
      InIndexSet(frame, slot);
      EnabledFrame(g, d, frame);
    }
  }

  lemma EnabledFrame(g: Settings, d: Device, frame: seq<Contact>)
    requires g.width > 0.0 && g.height > 0.0 && d.enabled
    ensures Updated(g, d, frame).current == IndexSet(frame) && Updated(g, d, frame).enabled
  {
    hide MustLift, FrameShown, Released, SingleStays, NextSingle;
  }

  lemma FingerIdIsSlot(c: Contact, slot: nat)
    ensures FingerOf(c, slot).id == slot
  {
  }

  lemma OneContact(frame: seq<Contact>, i: nat, j: nat)
    requires Unique(frame) && i < |frame| && j < |frame| && frame[i].index.Some? && frame[i].index == frame[j].index
    ensures i == j
  {
  }

  // ---------------------------------------------------------------- the singletouch contact

  /** Frames without the singletouch contact leave keys and pointer alone. */
  lemma {:induction false} PointerUntouched(g: Settings, s: Screen, single: nat, count: nat, frame: seq<Contact>)
    requires g.width > 0.0 && g.height > 0.0 && !SingleStays(g, single, frame)
    ensures FrameShown(g, s, single, count, frame).(fingers := s.fingers) == s
  {
    hide MustLift, FingerOf, OnAxis, Tools;
    if frame != [] {
      var n := |frame| - 1;
      assert frame[n] in frame;
      assert forall c | c in frame[..n] :: c in frame;
      PointerUntouched(g, s, single, count, frame[..n]);
    }
  }

  lemma {:induction false} PointerShown(g: Settings, s: Screen, single: nat, count: nat, frame: seq<Contact>, i: nat)
    requires g.width > 0.0 && g.height > 0.0 && Unique(frame) && i < |frame| && ShowsSingle(g, single, frame[i])
    ensures FrameShown(g, s, single, count, frame).(fingers := s.fingers) == SingleShown(g, s, frame[i], count)
  {
    hide MustLift, FingerOf, OnAxis, Tools;
    var n := |frame| - 1;
    if i == n {
      forall c | c in frame[..n]
        ensures !ShowsSingle(g, single, c)
      {
        var k :| 0 <= k < n && frame[..n][k] == c;
        assert frame[k].index.Some? ==> frame[k].index != frame[n].index;
      }
      PointerUntouched(g, s, single, count, frame[..n]);
    } else {
      assert frame[i].index != frame[n].index;
      PointerShown(g, s, single, count, frame[..n], i);
    }
  }

  /** BTN_TOUCH is pressed only while the slot of the singletouch contact is active, at its position and with the right
      tool. */
  ghost predicate Backed(g: Settings, d: Device) {
    && (BtnTouch in d.screen.keys ==>
          && d.single in Active(d.screen)
          && d.screen.fingers[d.single].x == d.screen.x
          && d.screen.fingers[d.single].y == d.screen.y)
    && (g.touchpad ==> forall k | k in ALL_TOOLS ::
          k in d.screen.keys <==> BtnTouch in d.screen.keys && Counts(k, |d.current|))
  }

  ghost predicate Counts(tool: Key, n: nat) {
    match tool
    case ToolFinger => n == 1
    case ToolDoubleTap => n == 2
    case ToolTripleTap => n == 3
    case ToolQuadTap => n == 4
    case ToolQuintTap => n >= 5
    case _ => false
  }

  /** The tool says how many fingers there are, up to five. */
  lemma ToolsAreTools(n: nat)
    ensures Tools(n) <= ALL_TOOLS && BtnTouch !in Tools(n)
    ensures Tools(n) == (set k | k in ALL_TOOLS && Counts(k, n))
  {
  }

  lemma LiftedIsBacked(g: Settings, d: Device, s: Screen)
    requires d.screen == SingleLifted(g, s)
    ensures Backed(g, d) && BtnTouch !in d.screen.keys
  {
    if g.touchpad {
      assert forall k | k in ALL_TOOLS :: k !in d.screen.keys;
    }
  }

  lemma FrameKeepsBacked(g: Settings, d: Device, frame: seq<Contact>)
    requires g.width > 0.0 && g.height > 0.0 && Consistent(d) && Backed(g, d) && Unique(frame)
    ensures Backed(g, Updated(g, d, frame))
    ensures d.enabled && !(g.disableOnPalm && HasPalm(frame)) ==>
              (BtnTouch in Updated(g, d, frame).screen.keys <==>
                exists c | c in frame :: c.index == Some(d.single) && c.stable != Some(false) && OnScreen(g, c))
  {
    hide MustLift, FrameShown, WellFormed, Released, NextSingle, OnAxis, Tools;
    hide OnScreen;
    forall c | c in frame
      ensures ShowsSingle(g, d.single, c) <==> c.index == Some(d.single) && c.stable != Some(false) && OnScreen(g, c)
    {
      LiftedExactlyOffScreen(g, c);
    }
    if d.enabled {
      var e := Searched(d, frame);
      var out := Updated(g, d, frame);
      if Blocked(g, frame) {
        LiftedIsBacked(g, out, d.screen.(fingers := out.screen.fingers));
      } else if SingleStays(g, d.single, frame) {
        SingleFrameIsBacked(g, d, frame);
      } else {
        var shown := FrameShown(g, d.screen, d.single, |e.current|, frame);
        LiftedIsBacked(g, out, shown.(fingers := out.screen.fingers));
      }
    }
  }

  lemma SingleFrameIsBacked(g: Settings, d: Device, frame: seq<Contact>)
    requires g.width > 0.0 && g.height > 0.0 && Consistent(d) && Unique(frame)
    requires d.enabled && !Blocked(g, frame) && SingleStays(g, d.single, frame)
    ensures Backed(g, Updated(g, d, frame)) && BtnTouch in Updated(g, d, frame).screen.keys
  {
    hide MustLift, FrameShown, WellFormed, Released, NextSingle, OnAxis, Tools;
    var e := Searched(d, frame);
    var out := Updated(g, d, frame);
    var c :| c in frame && ShowsSingle(g, d.single, c);
    var i :| 0 <= i < |frame| && frame[i] == c;
    LiftedExactlyOffScreen(g, c);
    PointerShown(g, d.screen, d.single, |e.current|, frame, i);
    KernelShowsFrame(g, d, frame, i, d.single);
    ActiveAt(out.screen, d.single);
    ToolsAreTools(|e.current|);
    if g.touchpad {
      assert forall k | k in ALL_TOOLS :: k in out.screen.keys <==> k in Tools(|e.current|);
    }
  }

  ghost predicate UniqueFrames(events: seq<TouchEvent>) {
    forall e | e in events && e.Frame? :: Unique(e.contacts)
  }

  /** With distinct indices, the singletouch events of every run agree with its multitouch events. */
  lemma {:induction false} SingletouchIsBacked(g: Settings, events: seq<TouchEvent>)
    requires g.width > 0.0 && g.height > 0.0 && UniqueFrames(events)
    ensures Backed(g, Run(g, events))
  {
    hide WellFormed, Released, FrameShown, Updated, MustLift, Unique;
    if events != [] {
      var n := |events| - 1;
      assert events[n] in events;
      assert forall e | e in events[..n] :: e in events;
      SingletouchIsBacked(g, events[..n]);
      NoGhostTouches(g, events[..n]);
      var d := Run(g, events[..n]);
      var out := Run(g, events);
      match events[n]
      case Frame(contacts) => FrameKeepsBacked(g, d, contacts);
      case Button(pressed) => ClickKeepsBacked(g, d, pressed);
      case Disable => LiftedIsBacked(g, out, d.screen.(fingers := out.screen.fingers));
      case Enable =>
    }
  }

  lemma ClickKeepsBacked(g: Settings, d: Device, pressed: bool)
    requires Backed(g, d)
    ensures Backed(g, Clicked(d, pressed))
  {
    hide Tools;
    assert forall k | k in ALL_TOOLS :: k in Press(d.screen.keys, BtnLeft, pressed) <==> k in d.screen.keys;
  }

  // ---------------------------------------------------------------- the range of slots

  ghost predicate SlotsUpTo(d: Device, max: nat) {
    && (forall i | i in d.screen.fingers :: i <= max)
    && (forall i | i in d.current :: i <= max)
    && (forall i | i in d.last :: i <= max)
    && (forall i | i in d.lift :: i <= max)
  }

  ghost predicate IndicesUpTo(frame: seq<Contact>, max: nat) {
    forall c | c in frame && c.index.Some? :: c.index.value <= max
  }

  lemma {:induction false} ShownSlotsUpTo(g: Settings, s: Screen, single: nat, count: nat, frame: seq<Contact>,
      max: nat)
    requires g.width > 0.0 && g.height > 0.0 && IndicesUpTo(frame, max) && forall i | i in s.fingers :: i <= max
    ensures forall i | i in FrameShown(g, s, single, count, frame).fingers :: i <= max
  {
    hide MustLift, FingerOf, OnAxis, Tools;
    if frame != [] {
      var n := |frame| - 1;
      assert frame[n] in frame;
      assert forall c | c in frame[..n] :: c in frame;
      ShownSlotsUpTo(g, s, single, count, frame[..n], max);
    }
  }

  lemma FrameSlotsUpTo(g: Settings, d: Device, frame: seq<Contact>, max: nat)
    requires g.width > 0.0 && g.height > 0.0 && SlotsUpTo(d, max) && IndicesUpTo(frame, max)
    ensures SlotsUpTo(Updated(g, d, frame), max)
  {
    hide MustLift, FrameShown, SingleStays, NextSingle;
    if d.enabled {
      var e := Searched(d, frame);
      ShownSlotsUpTo(g, d.screen, d.single, |e.current|, frame, max);
    }
  }

  ghost predicate RunIndicesUpTo(events: seq<TouchEvent>, max: nat) {
    forall e | e in events && e.Frame? :: IndicesUpTo(e.contacts, max)
  }

  /** A run never writes to a slot above the largest index it was given. */
  lemma {:induction false} SlotsStayInRange(g: Settings, events: seq<TouchEvent>, max: nat)
    requires g.width > 0.0 && g.height > 0.0 && RunIndicesUpTo(events, max)
    ensures SlotsUpTo(Run(g, events), max)
  {
    hide FrameShown, Updated, MustLift, IndicesUpTo;
    if events != [] {
      var n := |events| - 1;
      assert events[n] in events;
      assert forall e | e in events[..n] :: e in events;
      SlotsStayInRange(g, events[..n], max);
      var d := Run(g, events[..n]);
      match events[n]
      case Frame(contacts) => FrameSlotsUpTo(g, d, contacts, max);
      case Button(pressed) =>
      case Disable =>
      case Enable =>
    }
  }

  // ---------------------------------------------------------------- together with the tracker

  /** The frame carries the indices that the tracker gave to one of the frames of its run. */
  ghost predicate FromTracker(run: Tracker.Run, frame: seq<Contact>) {
    exists i | 0 <= i < |run.outs| :: Indices(frame) == Indices(run.outs[i])
  }

  ghost predicate FramesFromTracker(run: Tracker.Run, events: seq<TouchEvent>) {
    forall e | e in events && e.Frame? :: FromTracker(run, e.contacts)
  }

  lemma TrackedFrame(run: Tracker.Run, hypot: (real, real) -> real, n: nat, frame: seq<Contact>)
    requires run.Valid(hypot) && n > 0 && forall j | 0 <= j < |run.frames| :: |run.frames[j]| <= n
    requires FromTracker(run, frame)
    ensures Unique(frame) && IndicesUpTo(frame, 2 * n - 2)
  {
    var i :| 0 <= i < |run.outs| && Indices(frame) == Indices(run.outs[i]);
    Tracker.RunIndices(run, hypot, n, i);
    assert |frame| == |run.outs[i]|;
    forall k | 0 <= k < |frame|
      ensures frame[k].index == run.outs[i][k].index
    {
      assert Indices(frame)[k] == Indices(run.outs[i])[k];
    }
  }

  /** Tracked frames of at most nine contacts never leave the slots that the device declares, and keep singletouch and
      multitouch in agreement. */
  lemma TrackedTouchesAreSafe(run: Tracker.Run, hypot: (real, real) -> real, g: Settings, events: seq<TouchEvent>)
    requires run.Valid(hypot) && forall j | 0 <= j < |run.frames| :: |run.frames[j]| <= 9
    requires g.width > 0.0 && g.height > 0.0 && FramesFromTracker(run, events)
    ensures SlotsUpTo(Run(g, events), MAX_CONTACTS)
    ensures Backed(g, Run(g, events)) && Consistent(Run(g, events))
  {
    hide Unique, IndicesUpTo, Backed, Consistent, SlotsUpTo, FromTracker;
    forall e | e in events && e.Frame?
      ensures Unique(e.contacts) && IndicesUpTo(e.contacts, MAX_CONTACTS)
    {
      TrackedFrame(run, hypot, 9, e.contacts);
    }
    SlotsStayInRange(g, events, MAX_CONTACTS);
    SingletouchIsBacked(g, events);
    NoGhostTouches(g, events);
  }
}
