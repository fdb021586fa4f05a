/** The stylus device. */
module Stylus {
  import opened Uinput

  datatype Sample = Sample(
    proximity: bool,
    contact: bool,
    button: bool,
    rubber: bool,
    timestamp: nat,
    x: real,
    y: real,
    pressure: real,
    altitude: real,
    azimuth: real)

  /** The functions the tilt is made of; nothing about them is needed here. */
  datatype Trigonometry = Trigonometry(sin: real -> real, cos: real -> real, atan2: (real, real) -> real,
      quarterPi: real)

  /** What the axes of the device say. */
  datatype Spot = Spot(x: int, y: int, axes: PenAxes)

  /** The fields of the device together with the keys and axes of the kernel. */
  datatype Pen = Pen(active: bool, last: Sample, keys: set<Key>, spot: Spot)

  const MAX_X := 9600.0
  const MAX_Y := 7200.0
  const MAX_P := 4096.0

  const NO_SAMPLE := Sample(false, false, false, false, 0, 0.0, 0.0, 0.0, 0.0, 0.0)
  const NEW_PEN := Pen(false, NO_SAMPLE, {}, Spot(0, 0, NO_PEN))

  const STYLUS_KEYS := {BtnTouch, ToolPen, ToolRubber, BtnStylus}

  function KeysOf(data: Sample): set<Key> {
    (if data.contact then {BtnTouch} else {})
    + {if data.rubber then ToolRubber else ToolPen}
    + if data.button then {BtnStylus} else {}
  }

  /** An angle in hundredths of a degree. */
  function Hundredths(angle: real, quarterPi: real): (r: real)
    requires quarterPi != 0.0
    ensures r * quarterPi == angle * 4500.0
  {
    angle * 4500.0 / quarterPi
  }

  /** The angle from one of the axes of the screen, in hundredths of a degree: the stylus goes `up` from the screen, and
      along the axis by the `along` part of `flat`. */
  function AxisAngle(t: Trigonometry, up: real, flat: real, along: real): real
    requires t.quarterPi != 0.0
  {
    Hundredths(t.atan2(up, flat * along), t.quarterPi)
  }

  function Tilt(t: Trigonometry, altitude: real, azimuth: real): (int, int)
    requires t.quarterPi != 0.0
  {
    if altitude <= 0.0 then (0, 0)
    else
      (9000 - Round(AxisAngle(t, t.cos(altitude), t.sin(altitude), t.cos(azimuth))),
       Round(AxisAngle(t, t.cos(altitude), t.sin(altitude), t.sin(azimuth))) - 9000)
  }

  function SpotOf(t: Trigonometry, data: Sample): Spot
    requires t.quarterPi != 0.0
  {
    var (tiltX, tiltY) := Tilt(t, data.altitude, data.azimuth);
    Spot(Round(data.x * MAX_X), Round(data.y * MAX_Y),
        PenAxes(Round(data.pressure * MAX_P), data.timestamp, tiltX, tiltY))
  }

  function PenUpdated(t: Trigonometry, p: Pen, data: Sample): Pen
    requires t.quarterPi != 0.0
  {
    var active := data.proximity && p.last.rubber == data.rubber;
    Pen(active, data, p.keys - STYLUS_KEYS + (if active then KeysOf(data) else {}),
        if active then SpotOf(t, data) else p.spot)
  }

  class StylusDevice {
    const uinput: UinputDevice
    const trig: Trigonometry
    var active: bool
    var last: Sample

    constructor (trig: Trigonometry)
      ensures this.trig == trig && fresh(uinput) && View() == NEW_PEN && uinput.kernel.reported == uinput.kernel.screen
    {
      this.trig := trig;
      uinput := new UinputDevice();
      active, last := false, NO_SAMPLE;
    }

    ghost function View(): Pen
      reads this, uinput
    {
      Pen(active, last, uinput.kernel.screen.keys,
          Spot(uinput.kernel.screen.x, uinput.kernel.screen.y, uinput.kernel.screen.pen))
    }

    method Update(data: Sample)
      requires trig.quarterPi != 0.0
      modifies this, uinput
      ensures View() == PenUpdated(trig, old(View()), data)
      ensures uinput.kernel.reported == uinput.kernel.screen
    {
      hide Press, Tilt;
      active := data.proximity;
      if last.rubber != data.rubber {
        active := false;
      }
      if active {
        EmitKeys(data.contact, !data.rubber, data.rubber, data.button);
        EmitSpot(SpotOf(trig, data));
      } else {
        EmitKeys(false, false, false, false);
      }
      last := data;
      uinput.Emit(Sync);
      KeysPressed(old(uinput.kernel.screen.keys), data);
    }

    method EmitKeys(contact: bool, pen: bool, rubber: bool, button: bool)
      modifies uinput
      ensures uinput.kernel.screen == old(uinput.kernel.screen).(keys :=
              Press(Press(Press(Press(old(uinput.kernel.screen.keys), BtnTouch, contact), ToolPen, pen), ToolRubber,
                  rubber), BtnStylus, button))
    {
      hide Press;
      uinput.Emit(KeyChange(BtnTouch, contact));
      uinput.Emit(KeyChange(ToolPen, pen));
      uinput.Emit(KeyChange(ToolRubber, rubber));
      uinput.Emit(KeyChange(BtnStylus, button));
    }

    method EmitSpot(spot: Spot)
      modifies uinput
      ensures uinput.kernel.screen == old(uinput.kernel.screen).(x := spot.x, y := spot.y, pen := spot.axes)
    {
      uinput.Emit(X(spot.x));
      uinput.Emit(Y(spot.y));
      uinput.Emit(Pressure(spot.axes.pressure));
      uinput.Emit(Misc(spot.axes.misc));
      uinput.Emit(TiltX(spot.axes.tiltX));
      uinput.Emit(TiltY(spot.axes.tiltY));
    }
  }

  lemma KeysPressed(keys: set<Key>, data: Sample)
    ensures Press(Press(Press(Press(keys, BtnTouch, data.contact), ToolPen, !data.rubber), ToolRubber, data.rubber),
              BtnStylus, data.button)
            == keys - STYLUS_KEYS + KeysOf(data)
    ensures Press(Press(Press(Press(keys, BtnTouch, false), ToolPen, false), ToolRubber, false), BtnStylus, false) ==
              keys - STYLUS_KEYS
  {
  }

  /** The pen after a sequence of samples. */
  function RunPen(t: Trigonometry, samples: seq<Sample>): Pen
    requires t.quarterPi != 0.0
  {
    if samples == [] then NEW_PEN
    else
      var n := |samples| - 1;
      PenUpdated(t, RunPen(t, samples[..n]), samples[n])
  }

  /** These keys and axes are what a sample says: the tool and what is pressed, the nearest place, pressure and tilt on
      the declared axes. */
  ghost predicate ShowsSample(t: Trigonometry, keys: set<Key>, spot: Spot, data: Sample)
    requires t.quarterPi != 0.0
  {
    && (BtnTouch in keys <==> data.contact) && (BtnStylus in keys <==> data.button)
    && (ToolRubber in keys <==> data.rubber) && (ToolPen in keys <==> !data.rubber)
    && IsNearest(spot.x, data.x * 9600.0) && IsNearest(spot.y, data.y * 7200.0)
    && IsNearest(spot.axes.pressure, data.pressure * 4096.0) && spot.axes.misc == data.timestamp
    && (data.altitude <= 0.0 ==> spot.axes.tiltX == 0 && spot.axes.tiltY == 0)
    && (data.altitude > 0.0 ==>
          var up, flat := t.cos(data.altitude), t.sin(data.altitude);
          && IsNearest(9000 - spot.axes.tiltX, AxisAngle(t, up, flat, t.cos(data.azimuth)))
          && IsNearest(9000 + spot.axes.tiltY, AxisAngle(t, up, flat, t.sin(data.azimuth))))
  }

  lemma SampleIsShown(t: Trigonometry, data: Sample)
    requires t.quarterPi != 0.0
    ensures ShowsSample(t, KeysOf(data), SpotOf(t, data), data)
  {
    hide Round, IsNearest, Tilt, AxisAngle;
    Rounded(data.x * 9600.0);
    Rounded(data.y * 7200.0);
    Rounded(data.pressure * 4096.0);
    TiltIsShown(t, data.altitude, data.azimuth);
  }

  lemma Rounded(v: real)
    ensures IsNearest(Round(v), v)
  {
    RoundIsNearest(v, Round(v));
  }

  lemma TiltIsShown(t: Trigonometry, altitude: real, azimuth: real)
    requires t.quarterPi != 0.0
    ensures altitude <= 0.0 ==> Tilt(t, altitude, azimuth) == (0, 0)
    ensures altitude > 0.0 ==>
              var up, flat, tilt := t.cos(altitude), t.sin(altitude), Tilt(t, altitude, azimuth);
              && IsNearest(9000 - tilt.0, AxisAngle(t, up, flat, t.cos(azimuth)))
              && IsNearest(9000 + tilt.1, AxisAngle(t, up, flat, t.sin(azimuth)))
  {
    hide Round, IsNearest, AxisAngle;
    Rounded(AxisAngle(t, t.cos(altitude), t.sin(altitude), t.cos(azimuth)));
    Rounded(AxisAngle(t, t.cos(altitude), t.sin(altitude), t.sin(azimuth)));
  }

  /** The keys say which tool is near the screen: none unless the stylus is active, and never both. The axes say where
      it is. */
  ghost predicate OneTool(t: Trigonometry, p: Pen)
    requires t.quarterPi != 0.0
  {
    && p.keys <= STYLUS_KEYS
    && (!p.active ==> p.keys == {})
    && (p.active ==> p.last.proximity && p.keys == KeysOf(p.last) && p.spot == SpotOf(t, p.last))
  }

  lemma UpdateKeepsOneTool(t: Trigonometry, p: Pen, data: Sample)
    requires t.quarterPi != 0.0 && OneTool(t, p)
    ensures OneTool(t, PenUpdated(t, p, data))
  {
    hide SpotOf;
    var keys := PenUpdated(t, p, data).keys;
    assert p.keys - STYLUS_KEYS == {};
    assert keys == if PenUpdated(t, p, data).active then KeysOf(data) else {};
  }

  lemma {:induction false} PenHasOneTool(t: Trigonometry, samples: seq<Sample>)
    requires t.quarterPi != 0.0
    ensures OneTool(t, RunPen(t, samples))
    ensures var p := RunPen(t, samples); p.active ==> ShowsSample(t, p.keys, p.spot, p.last)
  {
    hide ShowsSample;
    SampleIsShown(t, RunPen(t, samples).last);
    if samples != [] {
      PenHasOneTool(t, samples[..|samples| - 1]);
      UpdateKeepsOneTool(t, RunPen(t, samples[..|samples| - 1]), samples[|samples| - 1]);
    }
  }

  /** Between two samples with different tools there is one at which the stylus is lifted. */
  lemma {:induction false} ToolSwitchLifts(t: Trigonometry, samples: seq<Sample>, i: nat, j: nat)
    requires t.quarterPi != 0.0 && i < j <= |samples|
    requires RunPen(t, samples[..i]).active && RunPen(t, samples[..j]).active
    requires RunPen(t, samples[..i]).last.rubber != RunPen(t, samples[..j]).last.rubber
    ensures exists k :: i < k < j && !RunPen(t, samples[..k]).active && RunPen(t, samples[..k]).keys == {}
  {
    hide SpotOf;
    assert samples[..j][..j - 1] == samples[..j - 1];
    var before := RunPen(t, samples[..j - 1]);
    assert RunPen(t, samples[..j]) == PenUpdated(t, before, samples[j - 1]);
    assert before.last.rubber == samples[j - 1].rubber;
    if before.active {
      ToolSwitchLifts(t, samples, i, j - 1);
    } else {
      PenHasOneTool(t, samples[..j - 1]);
      assert i < j - 1;
    }
  }

  /** While the stylus is away, the axes stay where it was last active. */
  lemma {:induction false} SpotIsHeld(t: Trigonometry, samples: seq<Sample>, i: nat, j: nat)
    requires t.quarterPi != 0.0 && i <= j <= |samples|
    requires RunPen(t, samples[..i]).active && forall k | i < k <= j :: !RunPen(t, samples[..k]).active
    ensures RunPen(t, samples[..j]).spot == SpotOf(t, RunPen(t, samples[..i]).last)
  {
    hide SpotOf;
    if i == j {
      PenHasOneTool(t, samples[..i]);
    } else {
      SpotIsHeld(t, samples, i, j - 1);
      assert samples[..j][..j - 1] == samples[..j - 1];
      assert !RunPen(t, samples[..j]).active;
    }
  }
}
