/** The touch device: turns frames of contacts into multitouch and singletouch events. */
module Touch {
  import opened Common
  import opened Contacts
  import opened Uinput

  const MAX_CONTACTS: nat := 16
  const MAX_X: nat := 9600
  const MAX_Y: nat := 7200
  const DIAGONAL: nat := 12000

  datatype Settings = Settings(touchpad: bool, overshoot: real, width: real, height: real, disableOnPalm: bool)

  /** The fields of the device together with the state its events led to. */
  datatype Device = Device(current: set<nat>, last: set<nat>, lift: set<nat>, single: nat, enabled: bool,
      screen: Screen)

  const NEW_DEVICE := Device({}, {}, {}, 0, true, BLANK)

  // ---------------------------------------------------------------- one contact

  function Clamped(v: real): (r: real)
    ensures 0.0 <= r <= 1.0
    ensures 0.0 <= v <= 1.0 ==> r == v
  {
    if v < 0.0 then 0.0 else if v > 1.0 then 1.0 else v
  }

  /** A coordinate between 0 and 1 on an axis from 0 to `max`. */
  function OnAxis(v: real, max: nat): (r: int)
    ensures 0 <= r <= max
  {
    assert 0.0 <= Clamped(v) * max as real <= max as real;
    Round(Clamped(v) * max as real)
  }

  function FingerOf(c: Contact, index: nat): Finger {
    var major := if c.sizeX >= c.sizeY then c.sizeX else c.sizeY;
    var minor := if c.sizeX >= c.sizeY then c.sizeY else c.sizeX;
    Finger(index, OnAxis(c.meanX, MAX_X), OnAxis(c.meanY, MAX_Y), Round(c.orientation * 180.0),
           Round(major * DIAGONAL as real), Round(minor * DIAGONAL as real))
  }

  predicate IsValid(c: Contact) {
    c.valid != Some(false)
  }

  predicate IsStable(c: Contact) {
    c.stable != Some(false)
  }

  /** The contact is invalid, or too far outside of the screen. */
  predicate MustLift(g: Settings, c: Contact)
    requires g.width > 0.0 && g.height > 0.0
  {
    var ox, oy := g.overshoot / g.width, g.overshoot / g.height;
    !IsValid(c) || c.meanX < -ox || c.meanX > ox + 1.0 || c.meanY < -oy || c.meanY > oy + 1.0
  }

  // ---------------------------------------------------------------- what that means

  /** The position on an axis: the nearest one, or the end of the axis beyond which the contact is. */
  ghost predicate IsPosition(r: int, v: real, max: real) {
    IsNearest(r, (if v < 0.0 then 0.0 else if v > 1.0 then 1.0 else v) * max)
  }

  /** The finger of a contact shows its place, its angle and its size on the declared axes. */
  lemma FingerShowsContact(c: Contact, index: nat)
    ensures var f := FingerOf(c, index);
            && f.id == index
            && IsPosition(f.x, c.meanX, 9600.0) && IsPosition(f.y, c.meanY, 7200.0)
            && IsNearest(f.orientation, c.orientation * 180.0)
            && (if c.sizeX >= c.sizeY
                then IsNearest(f.major, c.sizeX * 12000.0) && IsNearest(f.minor, c.sizeY * 12000.0)
                else IsNearest(f.major, c.sizeY * 12000.0) && IsNearest(f.minor, c.sizeX * 12000.0))
  {
    hide Round;
    var f := FingerOf(c, index);
    RoundIsNearest(Clamped(c.meanX) * 9600.0, f.x);
    RoundIsNearest(Clamped(c.meanY) * 7200.0, f.y);
    RoundIsNearest(c.orientation * 180.0, f.orientation);
    RoundIsNearest(c.sizeX * 12000.0, Round(c.sizeX * 12000.0));
    RoundIsNearest(c.sizeY * 12000.0, Round(c.sizeY * 12000.0));
  }

  /** The contact is not known to be invalid, and in length units it is at most the overshoot away from the screen. */
  ghost predicate OnScreen(g: Settings, c: Contact) {
    && c.valid != Some(false)
    && -g.overshoot <= c.meanX * g.width <= g.width + g.overshoot
    && -g.overshoot <= c.meanY * g.height <= g.height + g.overshoot
  }

  lemma WithinOvershoot(o: real, w: real, v: real)
    requires w > 0.0
    ensures -(o / w) <= v <= o / w + 1.0 <==> -o <= v * w <= w + o
  {
    var q := o / w;
    assert q * w == o;
    ScaledOrder(-q, v, w);
    ScaledOrder(v, q + 1.0, w);
    assert (q + 1.0) * w == o + w && -q * w == -o;
  }

  lemma ScaledOrder(a: real, b: real, w: real)
    requires w > 0.0
    ensures a <= b <==> a * w <= b * w
  {
    if a < b {
      assert (b - a) * w > 0.0;
    } else if b < a {
      assert (a - b) * w > 0.0;
    }
  }

  lemma LiftedExactlyOffScreen(g: Settings, c: Contact)
    requires g.width > 0.0 && g.height > 0.0
    ensures MustLift(g, c) <==> !OnScreen(g, c)
  {
    WithinOvershoot(g.overshoot, g.width, c.meanX);
    WithinOvershoot(g.overshoot, g.height, c.meanY);
  }

  // ---------------------------------------------------------------- what a frame does to the screen

  function IndexSet(frame: seq<Contact>): set<nat> {
    set c | c in frame && c.index.Some? :: c.index.value
  }

  /** Releases the contacts in the given slots. */
  function Released(fingers: map<nat, Finger>, slots: set<nat>): map<nat, Finger> {
    map i | i in fingers.Keys + slots :: if i in slots then FingerAt(fingers, i).(id := -1) else fingers[i]
  }

  function Tools(count: nat): set<Key> {
    if count == 1 then {ToolFinger}
    else if count == 2 then {ToolDoubleTap}
    else if count == 3 then {ToolTripleTap}
    else if count == 4 then {ToolQuadTap}
    else if count >= 5 then {ToolQuintTap}
    else {}
  }

  const ALL_TOOLS := {ToolFinger, ToolDoubleTap, ToolTripleTap, ToolQuadTap, ToolQuintTap}

  /** The screen once the singletouch contact is lifted. */
  function SingleLifted(g: Settings, s: Screen): Screen {
    s.(keys := s.keys - {BtnTouch} - if g.touchpad then {BtnLeft} + ALL_TOOLS else {})
  }

  /** The screen once a contact was emitted as the singletouch contact, in a frame of `count` indices. */
  function SingleShown(g: Settings, s: Screen, c: Contact, count: nat): Screen {
    s.(keys := (if g.touchpad then s.keys - ALL_TOOLS + Tools(count) else s.keys) + {BtnTouch},
       x := OnAxis(c.meanX, MAX_X), y := OnAxis(c.meanY, MAX_Y))
  }

  /** Whether a contact is emitted as the singletouch contact. */
  predicate ShowsSingle(g: Settings, single: nat, c: Contact)
    requires g.width > 0.0 && g.height > 0.0
  {
    c.index == Some(single) && IsStable(c) && !MustLift(g, c)
  }

  function ContactShown(g: Settings, s: Screen, single: nat, count: nat, c: Contact): Screen
    requires g.width > 0.0 && g.height > 0.0
  {
    if c.index.None? || !IsStable(c) then s
    else if MustLift(g, c) then s.(fingers := Released(s.fingers, {c.index.value}))
    else
      var shown := s.(fingers := s.fingers[c.index.value := FingerOf(c, c.index.value)]);
      if ShowsSingle(g, single, c) then SingleShown(g, shown, c, count) else shown
  }

  function FrameShown(g: Settings, s: Screen, single: nat, count: nat, frame: seq<Contact>): Screen
    requires g.width > 0.0 && g.height > 0.0
  {
    if frame == [] then s
    else
      var n := |frame| - 1;
      ContactShown(g, FrameShown(g, s, single, count, frame[..n]), single, count, frame[n])
  }

  /** The singletouch contact that is chosen when the old one is gone. */
  function NextSingle(single: nat, frame: seq<Contact>): nat {
    if frame == [] then single
    else if frame[0].index.Some? && frame[0].index.value != single && IsValid(frame[0]) then frame[0].index.value
    else NextSingle(single, frame[1..])
  }

  /** The contact may be chosen instead of the one with index `single`. */
  ghost predicate Choosable(c: Contact, single: nat) {
    c.index.Some? && c.index != Some(single) && c.valid != Some(false)
  }

  /** The first contact that may be chosen is, if there is one. */
  lemma {:induction false} FirstIsChosen(single: nat, frame: seq<Contact>)
    ensures (forall c | c in frame :: !Choosable(c, single)) ==> NextSingle(single, frame) == single
    ensures (exists c | c in frame :: Choosable(c, single)) ==>
              exists i | 0 <= i < |frame| ::
                  && Choosable(frame[i], single) && frame[i].index == Some(NextSingle(single, frame))
                  && forall k | 0 <= k < i :: !Choosable(frame[k], single)
  {
    if frame != [] {
      FirstIsChosen(single, frame[1..]);
      assert frame == [frame[0]] + frame[1..];
      if !Choosable(frame[0], single) && exists c | c in frame :: Choosable(c, single) {
        var i :| 0 <= i < |frame[1..]| && Choosable(frame[1..][i], single)
          && frame[1..][i].index == Some(NextSingle(single, frame[1..]))
          && forall k | 0 <= k < i :: !Choosable(frame[1..][k], single);
        assert frame[i + 1] == frame[1..][i];
        assert forall k | 0 < k < i + 1 :: frame[k] == frame[1..][k - 1];
      }
    }
  }

  // ---------------------------------------------------------------- what the operations do

  function Searched(d: Device, frame: seq<Contact>): Device {
    d.(last := d.current, current := IndexSet(frame), lift := d.current - IndexSet(frame))
  }

  predicate Blocked(g: Settings, frame: seq<Contact>) {
    g.disableOnPalm && exists c | c in frame :: !IsValid(c)
  }

  function AllLifted(g: Settings, d: Device): Device {
    d.(screen := SingleLifted(g, d.screen.(fingers := Released(d.screen.fingers, d.current + d.last))))
  }

  predicate SingleStays(g: Settings, single: nat, frame: seq<Contact>)
    requires g.width > 0.0 && g.height > 0.0
  {
    exists c | c in frame :: ShowsSingle(g, single, c)
  }

  function Processed(g: Settings, d: Device, frame: seq<Contact>): Device
    requires g.width > 0.0 && g.height > 0.0
  {
    var shown := FrameShown(g, d.screen, d.single, |d.current|, frame);
    var screen := shown.(fingers := Released(shown.fingers, d.lift));
    if SingleStays(g, d.single, frame) then d.(screen := screen)
    else d.(screen := SingleLifted(g, screen), single := NextSingle(d.single, frame))
  }

  function Updated(g: Settings, d: Device, frame: seq<Contact>): Device
    requires g.width > 0.0 && g.height > 0.0
  {
    if !d.enabled then d
    else
      var searched := Searched(d, frame);
      if Blocked(g, frame) then AllLifted(g, searched) else Processed(g, searched, frame)
  }

  function Clicked(d: Device, pressed: bool): Device {
    if !d.enabled then d else d.(screen := d.screen.(keys := Press(d.screen.keys, BtnLeft, pressed)))
  }

  function Disabled(g: Settings, d: Device): Device {
    AllLifted(g, d).(enabled := false, current := {}, last := {}, lift := {})
  }

  function Enabled(d: Device): Device {
    d.(enabled := true)
  }

  // ---------------------------------------------------------------- the device

  predicate Smallest(s: set<nat>, i: nat) {
    forall j | j in s :: i <= j
  }

  lemma {:induction false} SmallestExists(s: set<nat>)
    requires s != {}
    ensures exists i :: i in s && Smallest(s, i)
  {
    var i :| i in s;
    var rest := s - {i};
    if rest == {} {
      OnlyElement(s, i);
    } else {
      SmallestExists(rest);
      var k :| k in rest && Smallest(rest, k);
      SmallestOfTwo(s, i, k);
    }
  }

  lemma OnlyElement(s: set<nat>, i: nat)
    requires i in s && s - {i} == {}
    ensures i in s && Smallest(s, i)
  {
    assert forall j | j in s :: j == i || j in s - {i};
  }

  lemma SmallestOfTwo(s: set<nat>, i: nat, k: nat)
    requires i in s && k in s && Smallest(s - {i}, k)
    ensures i <= k ==> Smallest(s, i)
    ensures k <= i ==> Smallest(s, k)
  {
    assert forall j | j in s :: j == i || j in s - {i};
  }

  class TouchDevice {
    const uinput: UinputDevice
    const settings: Settings
    var current: set<nat>
    var last: set<nat>
    var lift: set<nat>
    var singleIndex: nat
    var enabled: bool

    constructor (settings: Settings)
      requires settings.width > 0.0 && settings.height > 0.0
      ensures this.settings == settings && fresh(uinput) && View() == NEW_DEVICE
      ensures uinput.kernel.reported == View().screen
    {
      this.settings := settings;
      uinput := new UinputDevice();
      current, last, lift := {}, {}, {};
      singleIndex, enabled := 0, true;
    }

    ghost predicate Valid() {
      settings.width > 0.0 && settings.height > 0.0
    }

    ghost function View(): Device
      reads this, uinput
    {
      Device(current, last, lift, singleIndex, enabled, uinput.kernel.screen)
    }

    /** Passes a frame of contacts on; nothing of it is left unreported. */
    method Update(frame: seq<Contact>)
      requires Valid() && uinput.kernel.reported == uinput.kernel.screen
      modifies this, uinput
      ensures View() == Updated(settings, old(View()), frame)
      ensures uinput.kernel.reported == uinput.kernel.screen
    {
      if !enabled {
        return;
      }
      SearchLifted(frame);
      var blocked := IsBlocked(frame);
      if blocked {
        LiftAll();
      } else {
        Process(frame);
      }
      uinput.Emit(Sync);
    }

    method Click(active: bool)
      requires uinput.kernel.reported == uinput.kernel.screen
      modifies uinput
      ensures View() == Clicked(old(View()), active)
      ensures uinput.kernel.reported == uinput.kernel.screen
    {
      if !enabled {
        return;
      }
      uinput.Emit(KeyChange(BtnLeft, active));
      uinput.Emit(Sync);
    }

    method Disable()
      modifies this, uinput
      ensures View() == Disabled(settings, old(View()))
      ensures uinput.kernel.reported == uinput.kernel.screen
    {
      enabled := false;
      LiftAll();
      uinput.Emit(Sync);
      current, last, lift := {}, {}, {};
    }

    method Enable()
      modifies this`enabled
      ensures View() == Enabled(old(View()))
    {
      enabled := true;
    }

    method SearchLifted(frame: seq<Contact>)
      modifies this
      ensures View() == Searched(old(View()), frame)
    {
      current, last := last, current;
      current := {};
      for i := 0 to |frame|
        invariant current == IndexSet(frame[..i]) && last == old(current)
        invariant singleIndex == old(singleIndex) && enabled == old(enabled)
      {
        IndexSetGrows(frame, i);
        if frame[i].index.Some? {
          current := current + {frame[i].index.value};
        }
      }
      assert frame[..|frame|] == frame;
      lift := last - current;
    }

    method IsBlocked(frame: seq<Contact>) returns (blocked: bool)
      ensures blocked == Blocked(settings, frame)
    {
      if !settings.disableOnPalm {
        return false;
      }
      for i := 0 to |frame|
        invariant forall c | c in frame[..i] :: IsValid(c)
      {
        if !IsValid(frame[i]) {
          return true;
        }
      }
      assert frame[..|frame|] == frame;
      return false;
    }

    method Process(frame: seq<Contact>)
      requires Valid()
      modifies this`singleIndex, uinput
      ensures View() == Processed(settings, old(View()), frame)
    {
      var resetSingletouch := true;
      ghost var d := View();
      for i := 0 to |frame|
        invariant View() == d.(screen := FrameShown(settings, d.screen, d.single, |d.current|, frame[..i]))
        invariant resetSingletouch == !SingleStays(settings, singleIndex, frame[..i])
      {
        assert frame[..i + 1] == frame[..i] + [frame[i]] && frame[..i + 1][..i] == frame[..i];
        var emitted := ProcessContact(frame[i]);
        if emitted {
          resetSingletouch := false;
        }
      }
      assert frame[..|frame|] == frame;
      LiftEach(lift, false);
      if resetSingletouch {
        LiftSingletouch();
        SelectSingle(frame);
      }
    }

    method ProcessContact(c: Contact) returns (emitted: bool)
      requires Valid()
      modifies uinput
      ensures uinput.kernel.screen == ContactShown(settings, old(uinput.kernel.screen), singleIndex, |current|, c)
      ensures emitted == ShowsSingle(settings, singleIndex, c)
    {
      emitted := false;
      if c.index.None? || !IsStable(c) {
        return;
      }
      var liftContact := MustLift(settings, c);
      if !liftContact {
        EmitMultitouch(c);
      } else {
        LiftMultitouch(c.index.value);
      }
      if singleIndex == c.index.value && !liftContact {
        EmitSingletouch(c);
        emitted := true;
      }
    }

    method SelectSingle(frame: seq<Contact>)
      modifies this`singleIndex
      ensures singleIndex == NextSingle(old(singleIndex), frame)
    {
      for i := 0 to |frame|
        invariant singleIndex == old(singleIndex)
        invariant NextSingle(singleIndex, frame) == NextSingle(singleIndex, frame[i..])
      {
        assert frame[i..][1..] == frame[i + 1..];
        if frame[i].index.Some? && frame[i].index.value != singleIndex && IsValid(frame[i]) {
          singleIndex := frame[i].index.value;
          return;
        }
      }
    }

    method LiftMultitouch(index: nat)
      modifies uinput
      ensures uinput.kernel.screen ==
                old(uinput.kernel.screen).(fingers := Released(old(uinput.kernel.screen.fingers), {index}))
    {
      uinput.Emit(Slot(index));
      uinput.Emit(TrackingId(-1));
    }

    method EmitMultitouch(c: Contact)
      requires c.index.Some?
      modifies uinput
      ensures uinput.kernel.screen ==
              old(uinput.kernel.screen).(fingers :=
                  old(uinput.kernel.screen.fingers)[c.index.value := FingerOf(c, c.index.value)])
    {
      var finger := FingerOf(c, c.index.value);
      uinput.Emit(Slot(c.index.value));
      uinput.Emit(TrackingId(c.index.value));
      uinput.Emit(Multitouch(PositionX, finger.x));
      uinput.Emit(Multitouch(PositionY, finger.y));
      uinput.Emit(Multitouch(Orientation, finger.orientation));
      uinput.Emit(Multitouch(TouchMajor, finger.major));
      uinput.Emit(Multitouch(TouchMinor, finger.minor));
    }

    method LiftSingletouch()
      modifies uinput
      ensures uinput.kernel.screen == SingleLifted(settings, old(uinput.kernel.screen))
    {
      uinput.Emit(KeyChange(BtnTouch, false));
      if settings.touchpad {
        uinput.Emit(KeyChange(BtnLeft, false));
        uinput.Emit(KeyChange(ToolFinger, false));
        uinput.Emit(KeyChange(ToolDoubleTap, false));
        uinput.Emit(KeyChange(ToolTripleTap, false));
        uinput.Emit(KeyChange(ToolQuadTap, false));
        uinput.Emit(KeyChange(ToolQuintTap, false));
      }
    }

    method EmitKey(key: Key, pressed: bool)
      modifies uinput
      ensures uinput.kernel.screen ==
                old(uinput.kernel.screen).(keys := Press(old(uinput.kernel.screen.keys), key, pressed))
    {
      uinput.Emit(KeyChange(key, pressed));
    }

    method EmitTools()
      modifies uinput
      ensures uinput.kernel.screen ==
                old(uinput.kernel.screen).(keys := old(uinput.kernel.screen.keys) - ALL_TOOLS + Tools(|current|))
    {
      hide Press, Tools, Apply;
      var n := |current|;
      EmitKey(ToolFinger, n == 1);
      EmitKey(ToolDoubleTap, n == 2);
      EmitKey(ToolTripleTap, n == 3);
      EmitKey(ToolQuadTap, n == 4);
      EmitKey(ToolQuintTap, n >= 5);
      ToolsPressed(old(uinput.kernel.screen.keys), n);
    }

    method EmitSingletouch(c: Contact)
      modifies uinput
      ensures uinput.kernel.screen == SingleShown(settings, old(uinput.kernel.screen), c, |current|)
    {
      hide Press, Tools, Apply, OnAxis;
      EmitKey(BtnTouch, true);
      if settings.touchpad {
        EmitTools();
      }
      EmitPointer(OnAxis(c.meanX, MAX_X), OnAxis(c.meanY, MAX_Y));
      TouchAndTools(old(uinput.kernel.screen.keys), Tools(|current|));
    }

    method EmitPointer(x: int, y: int)
      modifies uinput
      ensures uinput.kernel.screen == old(uinput.kernel.screen).(x := x, y := y)
    {
      uinput.Emit(X(x));
      uinput.Emit(Y(y));
    }

    /** Lifts the given slots, in ascending order; each is selected once more beforehand if `again` is set. */
    method LiftEach(slots: set<nat>, again: bool)
      modifies uinput
      ensures uinput.kernel.screen ==
                old(uinput.kernel.screen).(fingers := Released(old(uinput.kernel.screen.fingers), slots))
    {
      var rest := slots;
      while rest != {}
        invariant rest <= slots
        invariant uinput.kernel.screen ==
                    old(uinput.kernel.screen).(fingers := Released(old(uinput.kernel.screen.fingers), slots - rest))
      {
        SmallestExists(rest);
        var index :| index in rest && Smallest(rest, index);
        if again {
          uinput.Emit(Slot(index));
        }
        LiftMultitouch(index);
        ReleaseOneMore(old(uinput.kernel.screen.fingers), slots - rest, index);
        assert slots - (rest - {index}) == (slots - rest) + {index};
        rest := rest - {index};
      }
      assert slots - {} == slots;
    }

    method LiftAll()
      modifies uinput
      ensures View() == AllLifted(settings, old(View()))
    {
      LiftEach(current, true);
      LiftEach(last, true);
      ReleaseBoth(old(uinput.kernel.screen.fingers), current, last);
      LiftSingletouch();
    }
  }

  lemma ToolsPressed(keys: set<Key>, n: nat)
    ensures Press(Press(Press(Press(Press(keys, ToolFinger, n == 1), ToolDoubleTap, n == 2), ToolTripleTap, n == 3),
                        ToolQuadTap, n == 4), ToolQuintTap, n >= 5)
            == keys - ALL_TOOLS + Tools(n)
  {
    if n == 1 {
      assert keys + {ToolFinger} - {ToolDoubleTap} - {ToolTripleTap} - {ToolQuadTap} - {ToolQuintTap} ==
          keys - ALL_TOOLS + {ToolFinger};
    } else if n == 2 {
      assert keys - {ToolFinger} + {ToolDoubleTap} - {ToolTripleTap} - {ToolQuadTap} - {ToolQuintTap} ==
          keys - ALL_TOOLS + {ToolDoubleTap};
    } else if n == 3 {
      assert keys - {ToolFinger} - {ToolDoubleTap} + {ToolTripleTap} - {ToolQuadTap} - {ToolQuintTap} ==
          keys - ALL_TOOLS + {ToolTripleTap};
    } else if n == 4 {
      assert keys - {ToolFinger} - {ToolDoubleTap} - {ToolTripleTap} + {ToolQuadTap} - {ToolQuintTap} ==
          keys - ALL_TOOLS + {ToolQuadTap};
    } else if n >= 5 {
      assert keys - {ToolFinger} - {ToolDoubleTap} - {ToolTripleTap} - {ToolQuadTap} + {ToolQuintTap} ==
          keys - ALL_TOOLS + {ToolQuintTap};
    } else {
      assert keys - {ToolFinger} - {ToolDoubleTap} - {ToolTripleTap} - {ToolQuadTap} - {ToolQuintTap} ==
          keys - ALL_TOOLS;
    }
  }

  lemma TouchAndTools(keys: set<Key>, tools: set<Key>)
    ensures Press(keys, BtnTouch, true) == keys + {BtnTouch}
    ensures keys + {BtnTouch} - ALL_TOOLS + tools == keys - ALL_TOOLS + tools + {BtnTouch}
  {
  }

  lemma IndexSetGrows(frame: seq<Contact>, i: nat)
    requires i < |frame|
    ensures IndexSet(frame[..i + 1]) == IndexSet(frame[..i]) + if frame[i].index.Some? then {frame[i].index.value}
              else {}
  {
    assert frame[..i + 1] == frame[..i] + [frame[i]];
  }

  lemma ReleaseOneMore(fingers: map<nat, Finger>, slots: set<nat>, index: nat)
    ensures Released(Released(fingers, slots), {index}) == Released(fingers, slots + {index})
  {
  }

  lemma ReleaseBoth(fingers: map<nat, Finger>, a: set<nat>, b: set<nat>)
    ensures Released(Released(fingers, a), b) == Released(fingers, a + b)
  {
  }
}
