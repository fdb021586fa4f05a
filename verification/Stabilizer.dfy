/** Stabilises the size, the position and the orientation of contacts between frames. */
module Stabilizer {
  import opened Common
  import opened Contacts

  /** Changes below `low` are discarded, changes above `high` are unstable. */
  datatype Threshold = Threshold(low: real, high: real)

  datatype Config = Config(size: Option<Threshold>, position: Option<Threshold>, orientation: Option<Threshold>,
      pi: real)

  function Abs(v: real): real {
    if v < 0.0 then -v else v
  }

  function Major(c: Contact): real {
    if c.sizeX >= c.sizeY then c.sizeX else c.sizeY
  }

  function Minor(c: Contact): real {
    if c.sizeX >= c.sizeY then c.sizeY else c.sizeX
  }

  function SizeStabilized(t: Threshold, c: Contact, last: Contact): Contact {
    var dx, dy := Abs(c.sizeX - last.sizeX), Abs(c.sizeY - last.sizeY);
    var x := if dx < t.low then last.sizeX else c.sizeX;
    var y := if dy < t.low then last.sizeY else c.sizeY;
    var fast := (dx >= t.low && dx > t.high) || (dy >= t.low && dy > t.high);
    c.(sizeX := x, sizeY := y, stable := if fast then Some(false) else c.stable)
  }

  function PositionStabilized(t: Threshold, hypot: (real, real) -> real, c: Contact, last: Contact): Contact {
    var distance := hypot(c.meanX - last.meanX, c.meanY - last.meanY);
    if distance < t.low then c.(meanX := last.meanX, meanY := last.meanY)
    else if distance > t.high then c.(stable := Some(false))
    else c
  }

  /** Nearly round: there is no orientation to speak of. */
  predicate NearlyRound(c: Contact) {
    Minor(c) != 0.0 && Major(c) / Minor(c) < 1.1
  }

  /** The smaller of the two angles between two orientations. */
  function Turn(pi: real, c: Contact, last: Contact): real {
    var d1 := Abs(c.orientation - last.orientation);
    var d2 := (if c.normalized then 1.0 else pi) - d1;
    if d2 < d1 then d2 else d1
  }

  function OrientationStabilized(t: Threshold, pi: real, c: Contact, last: Contact): Contact {
    if NearlyRound(c) then c.(orientation := 0.0)
    else if Turn(pi, c, last) < t.low then c.(orientation := last.orientation)
    else if Turn(pi, c, last) > t.high then c.(stable := Some(false))
    else c
  }

  function Stabilized(cfg: Config, hypot: (real, real) -> real, last: seq<Contact>, c: Contact): (r: Contact)
    ensures r.index == c.index && r.valid == c.valid && (c.index.Some? ==> r.stable.Some?)
  {
    if c.index.None? then c
    else
      var c1 := c.(stable := Some(true));
      match FindInFrame(c.index.value, last)
      case None => c1
      case Some(before) =>
        var c2 := if cfg.size.Some? then SizeStabilized(cfg.size.value, c1, before) else c1;
        var c3 := if cfg.position.Some? then PositionStabilized(cfg.position.value, hypot, c2, before) else c2;
        if cfg.orientation.Some? then OrientationStabilized(cfg.orientation.value, cfg.pi, c3, before) else c3
  }

  function StabilizedFrame(cfg: Config, hypot: (real, real) -> real, last: seq<Contact>,
      frame: seq<Contact>): seq<Contact> {
    seq(|frame|, i requires 0 <= i < |frame| => Stabilized(cfg, hypot, last, frame[i]))
  }

  class Stabilizer {
    const config: Config
    const hypot: (real, real) -> real
    var last: seq<Contact>

    constructor (config: Config, hypot: (real, real) -> real)
      ensures this.config == config && this.hypot == hypot && last == []
    {
      this.config, this.hypot, last := config, hypot, [];
    }

    method Reset()
      modifies this
      ensures last == []
    {
      last := [];
    }

    method Stabilize(frame: array<Contact>)
      modifies this, frame
      ensures frame[..] == StabilizedFrame(config, hypot, old(last), old(frame[..]))
      ensures last == frame[..]
    {
      for i := 0 to frame.Length
        invariant last == old(last)
        invariant forall k | 0 <= k < i :: frame[k] == Stabilized(config, hypot, last, old(frame[k]))
        invariant forall k | i <= k < frame.Length :: frame[k] == old(frame[k])
      {
        StabilizeContact(frame, i);
      }
      assert frame[..] == StabilizedFrame(config, hypot, last, old(frame[..]));
      last := frame[..];
    }

    method StabilizeContact(frame: array<Contact>, i: nat)
      requires i < frame.Length
      modifies frame
      ensures frame[i] == Stabilized(config, hypot, last, old(frame[i]))
      ensures forall k | 0 <= k < frame.Length && k != i :: frame[k] == old(frame[k])
    {
      if frame[i].index.None? {
        return;
      }
      frame[i] := frame[i].(stable := Some(true));
      var wrapper := FindInFrame(frame[i].index.value, last);
      if wrapper.None? {
        return;
      }
      if config.size.Some? {
        StabilizeSize(frame, i, config.size.value, wrapper.value);
      }
      if config.position.Some? {
        StabilizePosition(frame, i, config.position.value, wrapper.value);
      }
      if config.orientation.Some? {
        StabilizeOrientation(frame, i, config.orientation.value, wrapper.value);
      }
    }

    method StabilizeSize(frame: array<Contact>, i: nat, t: Threshold, before: Contact)
      requires i < frame.Length
      modifies frame
      ensures frame[i] == SizeStabilized(t, old(frame[i]), before)
      ensures forall k | 0 <= k < frame.Length && k != i :: frame[k] == old(frame[k])
    {
      var dx, dy := Abs(frame[i].sizeX - before.sizeX), Abs(frame[i].sizeY - before.sizeY);
      if dx < t.low {
        frame[i] := frame[i].(sizeX := before.sizeX);
      } else if dx > t.high {
        frame[i] := frame[i].(stable := Some(false));
      }
      if dy < t.low {
        frame[i] := frame[i].(sizeY := before.sizeY);
      } else if dy > t.high {
        frame[i] := frame[i].(stable := Some(false));
      }
    }

    method StabilizePosition(frame: array<Contact>, i: nat, t: Threshold, before: Contact)
      requires i < frame.Length
      modifies frame
      ensures frame[i] == PositionStabilized(t, hypot, old(frame[i]), before)
      ensures forall k | 0 <= k < frame.Length && k != i :: frame[k] == old(frame[k])
    {
      var distance := hypot(frame[i].meanX - before.meanX, frame[i].meanY - before.meanY);
      if distance < t.low {
        frame[i] := frame[i].(meanX := before.meanX, meanY := before.meanY);
      } else if distance > t.high {
        frame[i] := frame[i].(stable := Some(false));
      }
    }

    method StabilizeOrientation(frame: array<Contact>, i: nat, t: Threshold, before: Contact)
      requires i < frame.Length
      modifies frame
      ensures frame[i] == OrientationStabilized(t, config.pi, old(frame[i]), before)
      ensures forall k | 0 <= k < frame.Length && k != i :: frame[k] == old(frame[k])
    {
      if NearlyRound(frame[i]) {
        frame[i] := frame[i].(orientation := 0.0);
        return;
      }
      var delta := Turn(config.pi, frame[i], before);
      if delta < t.low {
        frame[i] := frame[i].(orientation := before.orientation);
      } else if delta > t.high {
        frame[i] := frame[i].(stable := Some(false));
      }
    }
  }

  // ---------------------------------------------------------------- what is held

  /** The value of before is held if the change is below the lower limit. */
  ghost predicate IsHeld(r: real, v: real, before: real, low: real) {
    r == if -low < v - before < low then before else v
  }

  /** For contacts with an extent, nearly round means that neither side is eleven tenths of the other. */
  lemma NearlyRoundExactly(c: Contact)
    requires c.sizeX > 0.0 && c.sizeY > 0.0
    ensures NearlyRound(c) <==> 10.0 * c.sizeX < 11.0 * c.sizeY && 10.0 * c.sizeY < 11.0 * c.sizeX
  {
    RatioBelow(Major(c), Minor(c));
  }

  lemma RatioBelow(a: real, b: real)
    requires b > 0.0
    ensures a / b < 1.1 <==> 10.0 * a < 11.0 * b
  {
    var q := a / b;
    assert q * b == a;
    if q < 1.1 {
      assert (1.1 - q) * b > 0.0;
    } else {
      assert (q - 1.1) * b >= 0.0;
    }
  }

  function Smallest(a: real, b: real, c: real): (r: real)
    ensures r <= a && r <= b && r <= c && (r == a || r == b || r == c)
  {
    var m := if a <= b then a else b;
    if m <= c then m else c
  }

  /** A turn is the smallest angle between two orientations, which repeat after half a circle. */
  lemma TurnIsSmallest(pi: real, c: Contact, last: Contact)
    requires var half := if c.normalized then 1.0 else pi;
             0.0 <= c.orientation < half && 0.0 <= last.orientation < half
    ensures var half, d := if c.normalized then 1.0 else pi, c.orientation - last.orientation;
            && Turn(pi, c, last) >= 0.0
            && Turn(pi, c, last) == Smallest(Abs(d), Abs(d + half), Abs(d - half))
  {
  }

  /** What stabilising makes of a contact that was there before: size, position and orientation are held while they
      change slowly, and contacts that are nearly round have no orientation. Nothing else changes but the mark. */
  lemma WhatIsHeld(cfg: Config, hypot: (real, real) -> real, last: seq<Contact>, c: Contact, before: Contact)
    requires c.index.Some? && FindInFrame(c.index.value, last) == Some(before)
    ensures var r := Stabilized(cfg, hypot, last, c);
            && (cfg.size.Some? ==> IsHeld(r.sizeX, c.sizeX, before.sizeX, cfg.size.value.low)
                                   && IsHeld(r.sizeY, c.sizeY, before.sizeY, cfg.size.value.low))
            && (cfg.size.None? ==> r.sizeX == c.sizeX && r.sizeY == c.sizeY)
            && (if cfg.position.Some? && hypot(c.meanX - before.meanX, c.meanY - before.meanY) < cfg.position.value.low
                then r.meanX == before.meanX && r.meanY == before.meanY
                else r.meanX == c.meanX && r.meanY == c.meanY)
            && (r.orientation ==
                if cfg.orientation.None? then c.orientation
                else if NearlyRound(r) then 0.0
                else if Turn(cfg.pi, c, before) < cfg.orientation.value.low then before.orientation
                else c.orientation)
            && r.normalized == c.normalized
  {
    hide NearlyRound, Turn;
    var c1 := c.(stable := Some(true));
    var c2 := if cfg.size.Some? then SizeStabilized(cfg.size.value, c1, before) else c1;
    var c3 := if cfg.position.Some? then PositionStabilized(cfg.position.value, hypot, c2, before) else c2;
    SameShape(cfg.pi, c3, c, before);
    SameShape(cfg.pi, c3, Stabilized(cfg, hypot, last, c), before);
  }

  /** A contact that is new, or cannot be tracked, is reported as it is. */
  lemma NewIsUnchanged(cfg: Config, hypot: (real, real) -> real, last: seq<Contact>, c: Contact)
    requires c.index.None? || forall b | b in last :: b.index != c.index
    ensures Stabilized(cfg, hypot, last, c) == c.(stable := if c.index.Some? then Some(true) else c.stable)
  {
  }

  // ---------------------------------------------------------------- what stable means

  lemma SizeStage(t: Threshold, c: Contact, last: Contact)
    ensures var r := SizeStabilized(t, c, last);
            && (r.stable == Some(false) <==>
                c.stable == Some(false) || Fast(t, Abs(c.sizeX - last.sizeX)) || Fast(t, Abs(c.sizeY - last.sizeY)))
            && r.(sizeX := c.sizeX, sizeY := c.sizeY, stable := c.stable) == c
  {
  }

  lemma PositionStage(t: Threshold, hypot: (real, real) -> real, c: Contact, last: Contact)
    ensures var r := PositionStabilized(t, hypot, c, last);
            && (r.stable == Some(false) <==>
                c.stable == Some(false) || Fast(t, hypot(c.meanX - last.meanX, c.meanY - last.meanY)))
            && r.(meanX := c.meanX, meanY := c.meanY, stable := c.stable) == c
  {
  }

  lemma OrientationStage(t: Threshold, pi: real, c: Contact, last: Contact)
    ensures var r := OrientationStabilized(t, pi, c, last);
            && (r.stable == Some(false) <==> c.stable == Some(false) || (!NearlyRound(c) && Fast(t, Turn(pi, c, last))))
            && r.(orientation := c.orientation, stable := c.stable) == c
  {
    hide NearlyRound, Turn;
  }

  lemma SameShape(pi: real, c: Contact, d: Contact, last: Contact)
    ensures c.sizeX == d.sizeX && c.sizeY == d.sizeY ==> NearlyRound(c) == NearlyRound(d)
    ensures c.orientation == d.orientation && c.normalized == d.normalized ==> Turn(pi, c, last) == Turn(pi, d, last)
  {
  }

  /** The contact once its size was stabilised. */
  function SizeHeld(cfg: Config, c: Contact, last: Contact): Contact {
    if cfg.size.Some? then SizeStabilized(cfg.size.value, c, last) else c
  }

  /** The measured contact was there before, and one of the enabled properties changed faster than its upper limit. The
      orientation only counts for contacts that are not nearly round, once their size was stabilised. */
  predicate TooFast(cfg: Config, hypot: (real, real) -> real, last: seq<Contact>, c: Contact)
    requires c.index.Some?
  {
    match FindInFrame(c.index.value, last)
    case None => false
    case Some(before) =>
      || (cfg.size.Some? && Fast(cfg.size.value, Abs(c.sizeX - before.sizeX)))
      || (cfg.size.Some? && Fast(cfg.size.value, Abs(c.sizeY - before.sizeY)))
      || (cfg.position.Some? && Fast(cfg.position.value, hypot(c.meanX - before.meanX, c.meanY - before.meanY)))
      || (cfg.orientation.Some? && !NearlyRound(SizeHeld(cfg, c, before))
           && Fast(cfg.orientation.value, Turn(cfg.pi, c, before)))
  }

  /** A contact is unstable exactly if it was measured to change too fast. */
  lemma UnstableMeansFast(cfg: Config, hypot: (real, real) -> real, last: seq<Contact>, c: Contact)
    requires c.index.Some?
    ensures Stabilized(cfg, hypot, last, c).stable == Some(false) <==> TooFast(cfg, hypot, last, c)
  {
    hide Abs, NearlyRound, Turn, Fast, SizeStabilized, PositionStabilized, OrientationStabilized;
    var wrapper := FindInFrame(c.index.value, last);
    if wrapper.Some? {
      var before := wrapper.value;
      var c1 := c.(stable := Some(true));
      var c2 := c1;
      if cfg.size.Some? {
        SizeStage(cfg.size.value, c1, before);
        SameSizes(cfg.size.value, c, c1, before);
        c2 := SizeStabilized(cfg.size.value, c1, before);
      }
      var c3 := c2;
      if cfg.position.Some? {
        PositionStage(cfg.position.value, hypot, c2, before);
        c3 := PositionStabilized(cfg.position.value, hypot, c2, before);
      }
      SameShape(cfg.pi, c3, c, before);
      SameShape(cfg.pi, c3, SizeHeld(cfg, c, before), before);
      if cfg.orientation.Some? {
        OrientationStage(cfg.orientation.value, cfg.pi, c3, before);
      }
    }
  }

  lemma SameSizes(t: Threshold, c: Contact, d: Contact, last: Contact)
    requires c.sizeX == d.sizeX && c.sizeY == d.sizeY
    ensures SizeStabilized(t, c, last).sizeX == SizeStabilized(t, d, last).sizeX
    ensures SizeStabilized(t, c, last).sizeY == SizeStabilized(t, d, last).sizeY
  {
  }

  predicate Fast(t: Threshold, change: real) {
    change >= t.low && change > t.high
  }

  /** Stabilising never moves a contact by more than the lower limit: it is where it was measured, or held where it
      was. */
  lemma HeldWithinLimit(cfg: Config, hypot: (real, real) -> real, last: seq<Contact>, c: Contact)
    ensures var r := Stabilized(cfg, hypot, last, c);
            (r.meanX == c.meanX && r.meanY == c.meanY) ||
            (cfg.position.Some? && hypot(c.meanX - r.meanX, c.meanY - r.meanY) < cfg.position.value.low)
  {
  }
}
