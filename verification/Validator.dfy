/** Validates the size and the aspect ratio of contacts, and remembers which were invalid. */
module Validator {
  import opened Common
  import opened Contacts
  import opened Stabilizer

  datatype Limits = Limits(a: real, b: real) {
    predicate Allow(v: real) {
      (if a <= b then a else b) <= v <= (if a <= b then b else a)
    }
  }

  datatype Rules = Rules(trackValidity: bool, aspect: Option<Limits>, size: Option<Limits>)

  predicate SizeOk(rules: Rules, c: Contact) {
    rules.size.Some? ==> rules.size.value.Allow(Major(c))
  }

  /** A contact without extent along its minor axis has no aspect ratio within any limits. */
  predicate AspectOk(rules: Rules, c: Contact) {
    rules.aspect.Some? ==> Minor(c) != 0.0 && rules.aspect.value.Allow(Major(c) / Minor(c))
  }

  /** The contact was not invalid in the last frame, as far as that is known. */
  predicate TemporalOk(last: seq<Contact>, c: Contact) {
    c.index.Some? ==>
      var before := FindInFrame(c.index.value, last);
      before.Some? ==> before.value.valid != Some(false)
  }

  predicate ContactOk(rules: Rules, last: seq<Contact>, c: Contact) {
    c.stable == Some(false) || ((rules.trackValidity ==> TemporalOk(last, c)) && SizeOk(rules, c) && AspectOk(rules, c))
  }

  function Validated(rules: Rules, last: seq<Contact>, c: Contact): Contact {
    c.(valid := Some(ContactOk(rules, last, c)))
  }

  function ValidatedFrame(rules: Rules, last: seq<Contact>, frame: seq<Contact>): seq<Contact> {
    seq(|frame|, i requires 0 <= i < |frame| => Validated(rules, last, frame[i]))
  }

  class Validator {
    const rules: Rules
    var last: seq<Contact>

    constructor (rules: Rules)
      ensures this.rules == rules && last == []
    {
      this.rules, last := rules, [];
    }

    method Reset()
      modifies this
      ensures last == []
    {
      last := [];
    }

    method Validate(frame: array<Contact>)
      modifies this, frame
      ensures frame[..] == ValidatedFrame(rules, old(last), old(frame[..]))
      ensures last == frame[..]
    {
      for i := 0 to frame.Length
        invariant last == old(last)
        invariant forall k | 0 <= k < i :: frame[k] == Validated(rules, last, old(frame[k]))
        invariant forall k | i <= k < frame.Length :: frame[k] == old(frame[k])
      {
        var ok := CheckContact(frame[i]);
        frame[i] := frame[i].(valid := Some(ok));
      }
      assert frame[..] == ValidatedFrame(rules, last, old(frame[..]));
      last := frame[..];
    }

    method CheckContact(c: Contact) returns (ok: bool)
      ensures ok == ContactOk(rules, last, c)
    {
      if c.stable == Some(false) {
        return true;
      }
      if rules.trackValidity && !TemporalOk(last, c) {
        return false;
      }
      if rules.size.Some? && !SizeOk(rules, c) {
        return false;
      }
      if rules.aspect.Some? && !AspectOk(rules, c) {
        return false;
      }
      return true;
    }
  }

  /** Both numbers lie within the limits, in whatever order these are. */
  ghost predicate Within(l: Limits, v: real) {
    (l.a <= v <= l.b) || (l.b <= v <= l.a)
  }

  /** A contact is valid if it is unstable; otherwise it must not be invalid from before, its longer side must be within
      the size limits, and the longer side within the aspect limits times the shorter one. */
  lemma ValidExactly(rules: Rules, last: seq<Contact>, c: Contact)
    requires c.sizeX > 0.0 && c.sizeY > 0.0
    ensures var long := if c.sizeX < c.sizeY then c.sizeY else c.sizeX;
            var short := if c.sizeX < c.sizeY then c.sizeX else c.sizeY;
            Validated(rules, last, c).valid == Some(
              || c.stable == Some(false)
              || (!(rules.trackValidity && WasInvalid(last, c))
                  && (rules.size.Some? ==> Within(rules.size.value, long))
                  && (rules.aspect.Some? ==>
                        Within(Limits(rules.aspect.value.a * short, rules.aspect.value.b * short), long))))
  {
    hide Limits.Allow;
    if rules.size.Some? {
      AllowsWithin(rules.size.value, Major(c));
    }
    if rules.aspect.Some? {
      AllowsWithin(rules.aspect.value, Major(c) / Minor(c));
      ScaledLimits(rules.aspect.value, Major(c), Minor(c));
    }
  }

  /** The contact with the same index was marked invalid in the last frame. */
  ghost predicate WasInvalid(last: seq<Contact>, c: Contact) {
    c.index.Some? &&
    var before := FindInFrame(c.index.value, last);
    before.Some? && before.value.valid == Some(false)
  }

  lemma AllowsWithin(l: Limits, v: real)
    ensures l.Allow(v) <==> Within(l, v)
  {
  }

  lemma ScaledLimits(l: Limits, long: real, short: real)
    requires short > 0.0
    ensures Within(l, long / short) <==> Within(Limits(l.a * short, l.b * short), long)
  {
    var q := long / short;
    assert q * short == long;
    ScaledOrder(l.a, q, short);
    ScaledOrder(q, l.a, short);
    ScaledOrder(l.b, q, short);
    ScaledOrder(q, l.b, short);
  }

  lemma ScaledOrder(a: real, b: real, w: real)
    requires w > 0.0
    ensures a <= b <==> a * w <= b * w
  {
    if a < b {
      assert (b - a) * w > 0.0;
    } else if b < a {
      assert (a - b) * w > 0.0;
    }
  }
}
