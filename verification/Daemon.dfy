/** The daemon: passes data on to its devices, and turns touch off while the stylus is in use. */
module Daemon {
  import opened Common
  import opened Contacts
  import opened Stylus
  import opened Touch
  import opened Uinput
  import TouchSafety

  datatype Config = Config(
    touch: Settings,
    trig: Trigonometry,
    touchscreenDisable: bool,
    touchpadDisable: bool,
    stylusDisable: bool,
    disableOnStylus: bool)

  /** What the code takes for granted of its configuration. */
  predicate Sane(c: Config) {
    c.touch.width > 0.0 && c.touch.height > 0.0 && c.trig.quarterPi != 0.0
  }

  datatype State = State(touch: Option<Device>, pen: Option<Pen>)

  datatype DaemonEvent = OnTouch(contacts: seq<Contact>) | OnButton(pressed: bool) | OnStylus(data: Sample)

  function Initial(c: Config): State {
    State(
      if (!c.touch.touchpad && !c.touchscreenDisable) || (c.touch.touchpad && !c.touchpadDisable)
      then Some(NEW_DEVICE) else None,
      if !c.touch.touchpad && !c.stylusDisable then Some(NEW_PEN) else None)
  }

  /** The stylus can turn touch off. */
  predicate Exclusive(c: Config, s: State) {
    c.disableOnStylus && s.touch.Some? && s.pen.Some?
  }

  function Touched(c: Config, s: State, frame: seq<Contact>): State
    requires Sane(c)
  {
    if s.touch.None? then s
    else
      var d := s.touch.value;
      var e := if Exclusive(c, s) && !s.pen.value.active && !d.enabled then Enabled(d) else d;
      s.(touch := Some(Updated(c.touch, e, frame)))
  }

  function ButtonPressed(s: State, pressed: bool): State {
    if s.touch.None? then s else s.(touch := Some(Clicked(s.touch.value, pressed)))
  }

  function StylusMoved(c: Config, s: State, data: Sample): State
    requires Sane(c)
  {
    if s.pen.None? then s
    else
      var touch := if Exclusive(c, s) && s.touch.value.enabled then Some(Disabled(c.touch, s.touch.value)) else s.touch;
      State(touch, Some(PenUpdated(c.trig, s.pen.value, data)))
  }

  function Step(c: Config, s: State, e: DaemonEvent): State
    requires Sane(c)
  {
    match e
    case OnTouch(contacts) => Touched(c, s, contacts)
    case OnButton(pressed) => ButtonPressed(s, pressed)
    case OnStylus(data) => StylusMoved(c, s, data)
  }

  function Run(c: Config, events: seq<DaemonEvent>): State
    requires Sane(c)
  {
    if events == [] then Initial(c)
    else
      var n := |events| - 1;
      Step(c, Run(c, events[..n]), events[n])
  }

  class Daemon {
    const config: Config
    const touch: TouchDevice?
    const stylus: StylusDevice?

    constructor (config: Config)
      requires Sane(config)
      ensures this.config == config && Valid() && View() == Initial(config)
      ensures fresh(Devices())
    {
      this.config := config;
      var t: TouchDevice? := null;
      var s: StylusDevice? := null;
      if (!config.touch.touchpad && !config.touchscreenDisable) || (config.touch.touchpad && !config.touchpadDisable) {
        t := new TouchDevice(config.touch);
      }
      if !config.touch.touchpad && !config.stylusDisable {
        s := new StylusDevice(config.trig);
      }
      touch, stylus := t, s;
    }

    ghost function Devices(): set<object> {
      (if touch == null then {} else {touch, touch.uinput}) + if stylus == null then {} else {stylus, stylus.uinput}
    }

    ghost predicate Valid()
      reads Devices()
    {
      && Sane(config)
      && (touch != null ==>
            touch.settings == config.touch && touch.uinput.kernel.reported == touch.uinput.kernel.screen)
      && (stylus != null ==> stylus.trig == config.trig && stylus.uinput.kernel.reported == stylus.uinput.kernel.screen)
      && (touch != null && stylus != null ==> touch.uinput != stylus.uinput)
    }

    ghost function View(): State
      reads Devices()
    {
      State(if touch == null then None else Some(touch.View()), if stylus == null then None else Some(stylus.View()))
    }

    method OnTouch(contacts: seq<Contact>)
      requires Valid()
      modifies Devices()
      ensures Valid() && View() == Touched(config, old(View()), contacts)
    {
      if touch == null {
        return;
      }
      if config.disableOnStylus && stylus != null {
        if !stylus.active && !touch.enabled {
          touch.Enable();
        }
      }
      touch.Update(contacts);
    }

    method OnButton(active: bool)
      requires Valid()
      modifies Devices()
      ensures Valid() && View() == ButtonPressed(old(View()), active)
    {
      if touch == null {
        return;
      }
      touch.Click(active);
    }

    method OnStylus(data: Sample)
      requires Valid()
      modifies Devices()
      ensures Valid() && View() == StylusMoved(config, old(View()), data)
    {
      if stylus == null {
        return;
      }
      if config.disableOnStylus && touch != null {
        if touch.enabled {
          touch.Disable();
        }
      }
      stylus.Update(data);
    }
  }

  // ---------------------------------------------------------------- stylus and touch exclude each other

  ghost predicate Safe(c: Config, s: State)
    requires Sane(c)
  {
    && (s.touch.Some? ==> TouchSafety.Consistent(s.touch.value))
    && (s.pen.Some? ==> OneTool(c.trig, s.pen.value))
    && (c.disableOnStylus && s.touch.Some? && s.pen.Some? && s.pen.value.active ==> !s.touch.value.enabled)
    && (s.touch.Some? && (!c.disableOnStylus || s.pen.None?) ==> s.touch.value.enabled)
  }

  lemma FrameKeepsEnabled(g: Settings, d: Device, frame: seq<Contact>)
    requires g.width > 0.0 && g.height > 0.0
    ensures Updated(g, d, frame).enabled == d.enabled
  {
    hide MustLift, FrameShown, Released, SingleStays, NextSingle;
  }

  lemma ClickKeepsConsistent(d: Device, pressed: bool)
    requires TouchSafety.Consistent(d)
    ensures TouchSafety.Consistent(Clicked(d, pressed))
  {
    TouchSafety.SameFingers(d.screen, Clicked(d, pressed).screen);
  }

  lemma StepKeepsSafe(c: Config, s: State, e: DaemonEvent)
    requires Sane(c) && Safe(c, s)
    ensures Safe(c, Step(c, s, e))
  {
    hide TouchSafety.WellFormed, Updated, Disabled, Clicked, PenUpdated, OneTool;
    match e
    case OnTouch(contacts) =>
      if s.touch.Some? {
        var d := s.touch.value;
        TouchSafety.FrameKeepsConsistent(c.touch, d, contacts);
        TouchSafety.FrameKeepsConsistent(c.touch, Enabled(d), contacts);
        FrameKeepsEnabled(c.touch, d, contacts);
        FrameKeepsEnabled(c.touch, Enabled(d), contacts);
      }
    case OnButton(pressed) =>
      if s.touch.Some? {
        ClickKeepsConsistent(s.touch.value, pressed);
        ClickKeepsEnabled(s.touch.value, pressed);
      }
    case OnStylus(data) =>
      if s.pen.Some? {
        UpdateKeepsOneTool(c.trig, s.pen.value, data);
        if s.touch.Some? {
          TouchSafety.DisableReleasesEverything(c.touch, s.touch.value);
          DisableDisables(c.touch, s.touch.value);
        }
      }
  }

  lemma ClickKeepsEnabled(d: Device, pressed: bool)
    ensures Clicked(d, pressed).enabled == d.enabled
  {
  }

  lemma DisableDisables(g: Settings, d: Device)
    ensures !Disabled(g, d).enabled
  {
  }

  lemma InitiallySafe(c: Config)
    requires Sane(c)
    ensures Safe(c, Initial(c))
  {
    TouchSafety.BlankIsWellFormed();
  }

  lemma {:induction false} RunIsSafe(c: Config, events: seq<DaemonEvent>)
    requires Sane(c)
    ensures Safe(c, Run(c, events))
  {
    hide Safe, Step;
    if events == [] {
      InitiallySafe(c);
    } else {
      RunIsSafe(c, events[..|events| - 1]);
      StepKeepsSafe(c, Run(c, events[..|events| - 1]), events[|events| - 1]);
    }
  }

  /** With touch set to be off while the stylus is in use, an active stylus means that no touch is reported. */
  lemma ActiveStylusSilencesTouch(c: Config, events: seq<DaemonEvent>)
    requires Sane(c)
    requires var s := Run(c, events); c.disableOnStylus && s.touch.Some? && s.pen.Some? && s.pen.value.active
    ensures !Run(c, events).touch.value.enabled
    ensures Active(Run(c, events).touch.value.screen) == {} && BtnTouch !in Run(c, events).touch.value.screen.keys
  {
    hide Run, Step, TouchSafety.WellFormed;
    RunIsSafe(c, events);
  }

  /** Touch comes back with the first frame after the stylus has left: if its contacts are stable, the active slots are
      exactly those of the contacts on the screen, whatever happened before. */
  lemma TouchComesBack(c: Config, events: seq<DaemonEvent>, frame: seq<Contact>, slot: nat)
    requires Sane(c)
    requires var s := Run(c, events); c.disableOnStylus && s.touch.Some? && s.pen.Some? && !s.pen.value.active
    requires TouchSafety.Unique(frame) && forall k | k in frame :: k.stable != Some(false)
    requires !(c.touch.disableOnPalm && TouchSafety.HasPalm(frame))
    ensures var touch := Run(c, events + [OnTouch(frame)]).touch;
            && touch.Some? && touch.value.enabled
            && (slot in Active(touch.value.screen) <==>
                exists i | 0 <= i < |frame| :: TouchSafety.Showing(c.touch, frame, i, slot))
  {
    hide Updated, MustLift, TouchSafety.WellFormed, OnScreen;
    assert (events + [OnTouch(frame)])[..|events|] == events;
    var d := Run(c, events).touch.value;
    RunIsSafe(c, events);
    FrameKeepsEnabled(c.touch, Enabled(d), frame);
    assert d.enabled ==> Enabled(d) == d;
    TouchSafety.StableFrameIsExact(c.touch, Enabled(d), frame, slot);
  }
}
