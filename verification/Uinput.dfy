/** The kernel side of a virtual input device: stateful multitouch slots, keys and axes. */
module Uinput {

  datatype Key =
    | BtnTouch | BtnLeft | BtnStylus
    | ToolPen | ToolRubber
    | ToolFinger | ToolDoubleTap | ToolTripleTap | ToolQuadTap | ToolQuintTap

  datatype MtAxis = PositionX | PositionY | Orientation | TouchMajor | TouchMinor

  datatype Event =
    | Slot(index: nat)
    | TrackingId(id: int)
    | Multitouch(axis: MtAxis, value: int)
    | X(x: int)
    | Y(y: int)
    | Pressure(pressure: int)
    | Misc(misc: int)
    | TiltX(tiltX: int)
    | TiltY(tiltY: int)
    | KeyChange(key: Key, pressed: bool)
    | Sync

  /** A slot; it holds a contact unless its tracking id is negative. */
  datatype Finger = Finger(id: int, x: int, y: int, orientation: int, major: int, minor: int)

  const NO_FINGER := Finger(-1, 0, 0, 0, 0, 0)

  /** The axes that only a stylus has. */
  datatype PenAxes = PenAxes(pressure: int, misc: int, tiltX: int, tiltY: int)

  const NO_PEN := PenAxes(0, 0, 0, 0)

  datatype Screen = Screen(fingers: map<nat, Finger>, keys: set<Key>, x: int, y: int, pen: PenAxes)

  /** `screen` is what the events so far add up to, `reported` is what applications have been told. */
  datatype Kernel = Kernel(slot: nat, screen: Screen, reported: Screen)

  const BLANK := Screen(map[], {}, 0, 0, NO_PEN)

  function FingerAt(fingers: map<nat, Finger>, slot: nat): Finger {
    if slot in fingers then fingers[slot] else NO_FINGER
  }

  /** The slots that hold a contact. */
  ghost function Active(s: Screen): set<nat> {
    set i | i in s.fingers && s.fingers[i].id >= 0
  }

  /** Rounds to the nearest integer, halfway cases away from zero. */
  function Round(v: real): (r: int)
    ensures v - 0.5 <= r as real <= v + 0.5
  {
    if v >= 0.0 then (v + 0.5).Floor else -((0.5 - v).Floor)
  }

  /** The nearest integer; of two that are as near, the one farther from zero. */
  ghost predicate IsNearest(r: int, v: real) {
    && v - 0.5 <= r as real <= v + 0.5
    && (r as real == v + 0.5 ==> v > 0.0)
    && (r as real == v - 0.5 ==> v < 0.0)
  }

  lemma RoundIsNearest(v: real, r: int)
    ensures r == Round(v) <==> IsNearest(r, v)
  {
    assert r as real - Round(v) as real == (r - Round(v)) as real;
  }

  function WithAxis(f: Finger, axis: MtAxis, value: int): Finger {
    match axis
    case PositionX => f.(x := value)
    case PositionY => f.(y := value)
    case Orientation => f.(orientation := value)
    case TouchMajor => f.(major := value)
    case TouchMinor => f.(minor := value)
  }

  function Press(keys: set<Key>, key: Key, pressed: bool): set<Key> {
    if pressed then keys + {key} else keys - {key}
  }

  /** Events about a contact go to the slot that was selected last. */
  function Apply(k: Kernel, e: Event): Kernel {
    var s := k.screen;
    match e
    case Slot(index) => k.(slot := index)
    case TrackingId(id) => k.(screen := s.(fingers := s.fingers[k.slot := FingerAt(s.fingers, k.slot).(id := id)]))
    case Multitouch(axis, value) =>
        k.(screen := s.(fingers := s.fingers[k.slot := WithAxis(FingerAt(s.fingers, k.slot), axis, value)]))
    case X(x) => k.(screen := s.(x := x))
    case Y(y) => k.(screen := s.(y := y))
    case Pressure(v) => k.(screen := s.(pen := s.pen.(pressure := v)))
    case Misc(v) => k.(screen := s.(pen := s.pen.(misc := v)))
    case TiltX(v) => k.(screen := s.(pen := s.pen.(tiltX := v)))
    case TiltY(v) => k.(screen := s.(pen := s.pen.(tiltY := v)))
    case KeyChange(key, pressed) => k.(screen := s.(keys := Press(s.keys, key, pressed)))
    case Sync => k.(reported := s)
  }

  class UinputDevice {
    var kernel: Kernel

    constructor ()
      ensures kernel == Kernel(0, BLANK, BLANK)
    {
      kernel := Kernel(0, BLANK, BLANK);
    }

    method Emit(e: Event)
      modifies this
      ensures kernel == Apply(old(kernel), e)
    {
      kernel := Apply(kernel, e);
    }
  }
}
