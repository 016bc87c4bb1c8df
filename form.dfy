/** The form normaliser of the registration handler: the specializations
    field made into a list, and the three parallel timing fields zipped by
    index into availability slots. */
module Form {
  import opened JsValues
  import opened DecimalText
  import opened Errors

  /** One availability slot as the handler builds it, before the schema
      casts and validates it: each field is whatever JavaScript value the
      raw form gave. */
  datatype Slot = Slot(day: Raw, from: Raw, to: Raw)

  /** `Array.isArray(v) ? v : [v]`: an array passes through element for
      element; anything else, `undefined` included, becomes a one-element
      list holding exactly that value. */
  function WrapSpecializations(v: Raw): (r: seq<Raw>)
    ensures v.Many? ==> |r| == |v.items| && forall i :: 0 <= i < |r| ==> r[i] == Scalar(v.items[i])
    ensures !v.Many? ==> r == [v]
  {
    match v
    case Many(xs) => seq(|xs|, i requires 0 <= i < |xs| => Scalar(xs[i]))
    case _ => [v]
  }

  /** The slots the handler builds from `timingDays`, `timingFrom` and
      `timingTo`, as a reference definition: with an array of days, slot `i`
      pairs day `i` with element `i` of the other two fields (JavaScript
      indexing); a truthy single day gives one slot of the three raw values;
      otherwise there are no slots. Indexing an absent `timingFrom` or
      `timingTo` throws on the first slot, so at index 0. */
  function TimingSlots(days: Raw, from: Raw, to: Raw): Result<seq<Slot>, Error>
  {
    match days
    case Many(ds) =>
      if |ds| > 0 && (from.Absent? || to.Absent?) then Err(ReadOfUndefined("0"))
      else Ok(seq(|ds|, i requires 0 <= i < |ds| => Slot(Scalar(ds[i]), Index(from, i).value, Index(to, i).value)))
    case _ =>
      if Truthy(days) then Ok([Slot(days, from, to)]) else Ok([])
  }

  /** The handler's loop: walks `timingDays` and pushes one slot per
      element, reading `timingFrom[i]` and `timingTo[i]` as it goes. */
  method BuildTimingSlots(days: Raw, from: Raw, to: Raw) returns (r: Result<seq<Slot>, Error>)
    ensures r == TimingSlots(days, from, to)
  {
    var slots: seq<Slot> := [];
    if days.Many? {
      var i := 0;
      while i < |days.items|
        invariant 0 <= i <= |days.items|
        invariant i > 0 ==> !from.Absent? && !to.Absent?
        invariant |slots| == i
        invariant forall k :: 0 <= k < i ==>
          slots[k] == Slot(Scalar(days.items[k]), Index(from, k).value, Index(to, k).value)
      {
        var d := Scalar(days.items[i]);
        var f := Index(from, i);
        if f.Err? {
          assert i == 0 && Decimal(0) == "0";
          assert Err(f.error) == TimingSlots(days, from, to);
          return Err(f.error);
        }
        var t := Index(to, i);
        if t.Err? {
          assert i == 0 && Decimal(0) == "0";
          assert Err(t.error) == TimingSlots(days, from, to);
          return Err(t.error);
        }
        slots := slots + [Slot(d, f.value, t.value)];
        i := i + 1;
      }
      ghost var spec := TimingSlots(days, from, to);
      assert spec.Ok? && spec.value == slots;
      assert spec == Ok(slots);
    } else if Truthy(days) {
      slots := [Slot(days, from, to)];
    }
    r := Ok(slots);
  }

  /** With an array of days there is exactly one slot per day, slot `i`
      carries day `i`, and `from`/`to` are element `i` of the other two
      fields, or `undefined` past their end; the only failure is an absent
      `timingFrom` or `timingTo` with at least one day. */
  lemma ZipByIndex(ds: seq<string>, from: Raw, to: Raw)
    ensures TimingSlots(Many(ds), from, to).Err? <==> |ds| > 0 && (from.Absent? || to.Absent?)
    ensures TimingSlots(Many(ds), from, to).Ok? ==>
      var slots := TimingSlots(Many(ds), from, to).value;
      |slots| == |ds| &&
      forall i :: 0 <= i < |ds| ==>
        slots[i].day == Scalar(ds[i]) &&
        slots[i].from == (if from.Many? then (if i < |from.items| then Scalar(from.items[i]) else Absent)
                          else if from.Scalar? && i < |from.s| then Scalar([from.s[i]]) else Absent) &&
        slots[i].to == (if to.Many? then (if i < |to.items| then Scalar(to.items[i]) else Absent)
                        else if to.Scalar? && i < |to.s| then Scalar([to.s[i]]) else Absent)
  {
  }

  /** A single non-empty day gives exactly one slot made of the three raw
      values; an absent day or an empty one gives no slot, and neither
      fails. */
  lemma SingleOrNoSlot(days: Raw, from: Raw, to: Raw)
    requires !days.Many?
    ensures TimingSlots(days, from, to).Ok?
    ensures days.Scalar? && days.s != "" ==> TimingSlots(days, from, to).value == [Slot(days, from, to)]
    ensures days.Absent? || days == Scalar("") ==> TimingSlots(days, from, to).value == []
  {
  }

  /** Two days with two start and two end times give the two slots in
      order, and a single specialization becomes a one-element list. */
  lemma TwoDayExample()
    ensures TimingSlots(Many(["Mon", "Tue"]), Many(["09:00", "10:00"]), Many(["12:00", "13:00"])) ==
      Ok([Slot(Scalar("Mon"), Scalar("09:00"), Scalar("12:00")),
          Slot(Scalar("Tue"), Scalar("10:00"), Scalar("13:00"))])
    ensures WrapSpecializations(Scalar("Cardiology")) == [Scalar("Cardiology")]
  {
    var r := TimingSlots(Many(["Mon", "Tue"]), Many(["09:00", "10:00"]), Many(["12:00", "13:00"]));
    assert |r.value| == 2;
    assert r.value[0] == Slot(Scalar("Mon"), Scalar("09:00"), Scalar("12:00"));
    assert r.value[1] == Slot(Scalar("Tue"), Scalar("10:00"), Scalar("13:00"));
    assert r.value == [r.value[0], r.value[1]];
  }

  /** Nothing checks that the three fields have the same length: two days
      with one start time give `undefined` as the second start, and two
      days with a single start time sent as one string take its characters
      one by one. */
  lemma MismatchedLengthsExample()
    ensures TimingSlots(Many(["Mon", "Tue"]), Many(["09:00"]), Many(["12:00", "13:00"])) ==
      Ok([Slot(Scalar("Mon"), Scalar("09:00"), Scalar("12:00")),
          Slot(Scalar("Tue"), Absent, Scalar("13:00"))])
    ensures TimingSlots(Many(["Mon", "Tue"]), Scalar("09:00"), Scalar("12:00")) ==
      Ok([Slot(Scalar("Mon"), Scalar("0"), Scalar("1")),
          Slot(Scalar("Tue"), Scalar("9"), Scalar("2"))])
  {
    var r := TimingSlots(Many(["Mon", "Tue"]), Many(["09:00"]), Many(["12:00", "13:00"]));
    assert |r.value| == 2;
    assert r.value[0] == Slot(Scalar("Mon"), Scalar("09:00"), Scalar("12:00"));
    assert r.value[1] == Slot(Scalar("Tue"), Absent, Scalar("13:00"));
    assert r.value == [r.value[0], r.value[1]];
    var q := TimingSlots(Many(["Mon", "Tue"]), Scalar("09:00"), Scalar("12:00"));
    assert |q.value| == 2;
    assert q.value[0] == Slot(Scalar("Mon"), Scalar("0"), Scalar("1"));
    assert q.value[1] == Slot(Scalar("Tue"), Scalar("9"), Scalar("2"));
    assert q.value == [q.value[0], q.value[1]];
  }
}
