/** The `Doctor` collection: the schema's required fields, the two unique
    indexes (email and license number), and `save`, which validates a new
    document and inserts it or fails. Records are only ever created. */
module Doctors {
  import opened JsValues
  import opened DecimalText
  import opened Errors
  import opened Form

  /** A validated availability slot. */
  datatype TimingSlot = TimingSlot(day: string, from: string, to: string)

  /** The document the handler constructs, with each field as the form gave
      it (`dob` and `fees` stay text: their casting is not modelled). */
  datatype Candidate = Candidate(
    fullName: Raw, dob: Raw, gender: Raw, contactNumber: Raw, email: Raw,
    degree: Raw, specializations: seq<Raw>, licenseNumber: Raw,
    issuingAuthority: Raw, fees: Raw, licenseFile: string,
    timingSlots: seq<Slot>, bio: Raw)

  /** A stored record. */
  datatype Doctor = Doctor(
    fullName: string, dob: string, gender: string, contactNumber: string,
    email: string, degree: string, specializations: seq<Raw>,
    licenseNumber: string, issuingAuthority: string, fees: string,
    licenseFile: string, timingSlots: seq<TimingSlot>, bio: string,
    createdAt: nat)

  /** A required path is satisfied by a single non-empty value: `undefined`
      and the empty string fail `required`, and an array cannot be cast to
      a single value. */
  predicate Filled(v: Raw)
  {
    v.Scalar? && v.s != ""
  }

  /** Whether one part of a slot is satisfied. */
  predicate PartFilled(s: Slot, part: SlotField)
  {
    match part
    case Day => Filled(s.day)
    case From => Filled(s.from)
    case To => Filled(s.to)
  }

  predicate SlotFilled(s: Slot)
  {
    Filled(s.day) && Filled(s.from) && Filled(s.to)
  }

  /** Whether the top-level path `f` of a document is satisfied. */
  predicate Satisfied(c: Candidate, f: Field)
  {
    match f
    case FullName => Filled(c.fullName)
    case Dob => Filled(c.dob)
    case Gender => Filled(c.gender)
    case ContactNumber => Filled(c.contactNumber)
    case Email => Filled(c.email)
    case Degree => Filled(c.degree)
    case LicenseNumber => Filled(c.licenseNumber)
    case IssuingAuthority => Filled(c.issuingAuthority)
    case Fees => Filled(c.fees)
    case LicenseFile => c.licenseFile != ""
    case Bio => Filled(c.bio)
  }

  /** Every required path of the schema is satisfied. */
  predicate Complete(c: Candidate)
  {
    Filled(c.fullName) && Filled(c.dob) && Filled(c.gender) &&
    Filled(c.contactNumber) && Filled(c.email) && Filled(c.degree) &&
    Filled(c.licenseNumber) && Filled(c.issuingAuthority) && Filled(c.fees) &&
    c.licenseFile != "" && Filled(c.bio) &&
    forall i :: 0 <= i < |c.timingSlots| ==> SlotFilled(c.timingSlots[i])
  }

  function Check(ok: bool, path: Path): seq<Path>
  {
    if ok then [] else [path]
  }

  /** The failing paths of the slots, numbered from `base`. */
  function SlotFailures(slots: seq<Slot>, base: nat): seq<Path>
  {
    if slots == [] then []
    else
      Check(Filled(slots[0].day), InSlot(base, Day)) +
      Check(Filled(slots[0].from), InSlot(base, From)) +
      Check(Filled(slots[0].to), InSlot(base, To)) +
      SlotFailures(slots[1..], base + 1)
  }

  /** The top-level paths the schema declares before `timingSlots`, in
      order; `bio` follows the slots. */
  const BeforeSlots: seq<Field> :=
    [FullName, Dob, Gender, ContactNumber, Email, Degree, LicenseNumber,
     IssuingAuthority, Fees, LicenseFile]

  /** The failing paths among `fields`, in their order. */
  function FieldFailures(c: Candidate, fields: seq<Field>): seq<Path>
  {
    if fields == [] then []
    else Check(Satisfied(c, fields[0]), Top(fields[0])) + FieldFailures(c, fields[1..])
  }

  /** The failing required paths, in schema order. */
  function Failures(c: Candidate): seq<Path>
  {
    FieldFailures(c, BeforeSlots) + SlotFailures(c.timingSlots, 0) + Check(Filled(c.bio), Top(Bio))
  }

  /** No slot fails exactly when every slot is filled. */
  lemma {:induction false} SlotFailuresNone(slots: seq<Slot>, base: nat)
    ensures SlotFailures(slots, base) == [] <==> forall i :: 0 <= i < |slots| ==> SlotFilled(slots[i])
  {
    if slots != [] {
      SlotFailuresNone(slots[1..], base + 1);
      assert forall i :: 1 <= i < |slots| ==> slots[i] == slots[1..][i - 1];
    }
  }

  /** Slot failures are slot paths, numbered from `base` on. */
  lemma {:induction false} SlotFailuresInSlots(slots: seq<Slot>, base: nat)
    ensures forall p :: p in SlotFailures(slots, base) ==> p.InSlot? && p.index >= base
  {
    if slots != [] {
      SlotFailuresInSlots(slots[1..], base + 1);
    }
  }

  /** The slot failures name exactly the unsatisfied parts of the slots,
      each at its own index. */
  lemma {:induction false} SlotFailuresNamed(slots: seq<Slot>, base: nat)
    ensures forall i: nat, part :: InSlot(i, part) in SlotFailures(slots, base) <==>
      base <= i < base + |slots| && !PartFilled(slots[i - base], part)
  {
    if slots != [] {
      var rest := SlotFailures(slots[1..], base + 1);
      SlotFailuresNamed(slots[1..], base + 1);
      SlotFailuresInSlots(slots[1..], base + 1);
      var head := Check(Filled(slots[0].day), InSlot(base, Day)) +
        Check(Filled(slots[0].from), InSlot(base, From)) +
        Check(Filled(slots[0].to), InSlot(base, To));
      assert SlotFailures(slots, base) == head + rest;
      forall i: nat, part
        ensures InSlot(i, part) in head + rest <==> base <= i < base + |slots| && !PartFilled(slots[i - base], part)
      {
        if i == base {
          assert InSlot(i, part) !in rest;
          assert slots[i - base] == slots[0];
          match part
          case Day => assert InSlot(i, Day) in head <==> !Filled(slots[0].day);
          case From => assert InSlot(i, From) in head <==> !Filled(slots[0].from);
          case To => assert InSlot(i, To) in head <==> !Filled(slots[0].to);
        } else if base < i < base + |slots| {
          assert InSlot(i, part) !in head;
          assert slots[i - base] == slots[1..][i - (base + 1)];
        } else {
          assert InSlot(i, part) !in head;
        }
      }
    }
  }

  /** The field failures name exactly the unsatisfied fields of the list. */
  lemma {:induction false} FieldFailuresNamed(c: Candidate, fields: seq<Field>)
    ensures forall p :: p in FieldFailures(c, fields) ==> p.Top?
    ensures forall f :: Top(f) in FieldFailures(c, fields) <==> f in fields && !Satisfied(c, f)
  {
    if fields != [] {
      FieldFailuresNamed(c, fields[1..]);
      assert forall f :: f in fields <==> f == fields[0] || f in fields[1..];
    }
  }

  /** The failures name exactly the unsatisfied top-level paths and the
      unsatisfied parts of the slots. */
  lemma FailuresNamed(c: Candidate)
    ensures forall f :: Top(f) in Failures(c) <==> !Satisfied(c, f)
    ensures forall i: nat, part :: InSlot(i, part) in Failures(c) <==>
      i < |c.timingSlots| && !PartFilled(c.timingSlots[i], part)
  {
    FieldFailuresNamed(c, BeforeSlots);
    SlotFailuresNamed(c.timingSlots, 0);
    SlotFailuresInSlots(c.timingSlots, 0);
    assert forall f :: f in BeforeSlots <==> f != Bio;
  }

  /** Completeness, path by path. */
  lemma CompleteByPath(c: Candidate)
    ensures Complete(c) <==>
      (forall f :: Satisfied(c, f)) &&
      forall i, part :: 0 <= i < |c.timingSlots| ==> PartFilled(c.timingSlots[i], part)
  {
    if forall f :: Satisfied(c, f) {
      assert Satisfied(c, FullName) && Satisfied(c, Dob) && Satisfied(c, Gender);
      assert Satisfied(c, ContactNumber) && Satisfied(c, Email) && Satisfied(c, Degree);
      assert Satisfied(c, LicenseNumber) && Satisfied(c, IssuingAuthority);
      assert Satisfied(c, Fees) && Satisfied(c, LicenseFile) && Satisfied(c, Bio);
    }
    if forall i, part :: 0 <= i < |c.timingSlots| ==> PartFilled(c.timingSlots[i], part) {
      forall i | 0 <= i < |c.timingSlots|
        ensures SlotFilled(c.timingSlots[i])
      {
        assert PartFilled(c.timingSlots[i], Day) && PartFilled(c.timingSlots[i], From);
        assert PartFilled(c.timingSlots[i], To);
      }
    }
  }

  /** A document fails no path exactly when it is complete. */
  lemma FailuresNoneIffComplete(c: Candidate)
    ensures Failures(c) == [] <==> Complete(c)
  {
    FailuresNamed(c);
    CompleteByPath(c);
    if Failures(c) != [] {
      var p := Failures(c)[0];
      assert p in Failures(c);
      match p
      case Top(f) =>
        assert !Satisfied(c, f);
      case InSlot(i, part) =>
        assert i < |c.timingSlots| && !PartFilled(c.timingSlots[i], part);
    }
  }

  /** Schema validation: a document with every required path satisfied
      becomes a record carrying exactly the submitted values and the
      creation time; any other document fails with a validation error that
      names exactly the unsatisfied paths. */
  function Validate(c: Candidate, createdAt: nat): (r: Result<Doctor, Error>)
    ensures r.Ok? <==> Complete(c)
    ensures r.Err? ==> r.error.ValidationError? && r.error.paths != []
    ensures r.Err? ==> forall f :: Top(f) in r.error.paths <==> !Satisfied(c, f)
    ensures r.Err? ==> forall i: nat, part :: InSlot(i, part) in r.error.paths <==>
      i < |c.timingSlots| && !PartFilled(c.timingSlots[i], part)
    ensures r.Ok? ==>
      var d := r.value;
      Scalar(d.fullName) == c.fullName && Scalar(d.dob) == c.dob &&
      Scalar(d.gender) == c.gender && Scalar(d.contactNumber) == c.contactNumber &&
      Scalar(d.email) == c.email && Scalar(d.degree) == c.degree &&
      d.specializations == c.specializations &&
      Scalar(d.licenseNumber) == c.licenseNumber &&
      Scalar(d.issuingAuthority) == c.issuingAuthority && Scalar(d.fees) == c.fees &&
      d.licenseFile == c.licenseFile && Scalar(d.bio) == c.bio &&
      d.createdAt == createdAt &&
      |d.timingSlots| == |c.timingSlots| &&
      forall i :: 0 <= i < |d.timingSlots| ==>
        Scalar(d.timingSlots[i].day) == c.timingSlots[i].day &&
        Scalar(d.timingSlots[i].from) == c.timingSlots[i].from &&
        Scalar(d.timingSlots[i].to) == c.timingSlots[i].to
  {
    var failures := Failures(c);
    FailuresNoneIffComplete(c);
    FailuresNamed(c);
    if failures != [] then Err(ValidationError(failures))
    else
      Ok(Doctor(c.fullName.s, c.dob.s, c.gender.s, c.contactNumber.s, c.email.s,
                c.degree.s, c.specializations, c.licenseNumber.s,
                c.issuingAuthority.s, c.fees.s, c.licenseFile,
                seq(|c.timingSlots|, i requires 0 <= i < |c.timingSlots| && SlotFilled(c.timingSlots[i]) =>
                  TimingSlot(c.timingSlots[i].day.s, c.timingSlots[i].from.s, c.timingSlots[i].to.s)),
                c.bio.s, createdAt))
  }

  /** The store's rule: no two records share an email, and no two share a
      license number. */
  ghost predicate Unique(records: seq<Doctor>)
  {
    forall i, j :: 0 <= i < j < |records| ==>
      records[i].email != records[j].email && records[i].licenseNumber != records[j].licenseNumber
  }

  /** The unique index a new record would violate, if any; the email index
      is consulted first. */
  function Conflict(records: seq<Doctor>, d: Doctor): (index: Option<string>)
    ensures index.None? <==> forall i :: 0 <= i < |records| ==>
      records[i].email != d.email && records[i].licenseNumber != d.licenseNumber
    ensures index == Some("email") <==> exists i :: 0 <= i < |records| && records[i].email == d.email
  {
    if exists i :: 0 <= i < |records| && records[i].email == d.email then Some("email")
    else if exists i :: 0 <= i < |records| && records[i].licenseNumber == d.licenseNumber then Some("licenseNumber")
    else None
  }

  /** `save`: validation first, then the insert, which the unique indexes
      refuse with a duplicate-key error. On success the saved record is
      returned. */
  function SaveResult(records: seq<Doctor>, c: Candidate, createdAt: nat): Result<Doctor, Error>
  {
    match Validate(c, createdAt)
    case Err(e) => Err(e)
    case Ok(d) =>
      match Conflict(records, d)
      case Some(index) => Err(DuplicateKey(index))
      case None => Ok(d)
  }

  /** A record that collides with no existing record keeps the store's
      rule. */
  lemma InsertKeepsUnique(records: seq<Doctor>, d: Doctor)
    requires Unique(records)
    requires Conflict(records, d).None?
    ensures Unique(records + [d])
  {
  }

  /** A save succeeds exactly when the document is complete and its email
      and license number are both new; it fails with the duplicate-key
      code exactly when the document is complete and one of them is taken. */
  lemma SaveOutcomes(records: seq<Doctor>, c: Candidate, createdAt: nat)
    ensures SaveResult(records, c, createdAt).Ok? <==>
      Complete(c) && forall i :: 0 <= i < |records| ==>
        Scalar(records[i].email) != c.email && Scalar(records[i].licenseNumber) != c.licenseNumber
    ensures SaveResult(records, c, createdAt).Err? ==>
      (Code(SaveResult(records, c, createdAt).error) == DuplicateKeyCode <==>
        Complete(c) &&
        (exists i :: 0 <= i < |records| &&
           (Scalar(records[i].email) == c.email || Scalar(records[i].licenseNumber) == c.licenseNumber)))
  {
  }

  /** The collection, a sequence of records that `save` appends to. */
  class DoctorCollection {
    var records: seq<Doctor>

    ghost predicate Valid()
      reads this
    {
      Unique(records)
    }

    constructor ()
      ensures Valid() && records == []
    {
      records := [];
    }

    /** `new Doctor(c).save()`: on success exactly one record is appended and
        every earlier record is untouched; on failure nothing changes. */
    method Save(c: Candidate, createdAt: nat) returns (r: Result<Doctor, Error>)
      requires Valid()
      modifies this
      ensures Valid()
      ensures r == SaveResult(old(records), c, createdAt)
      ensures records == if r.Ok? then old(records) + [r.value] else old(records)
    {
      r := Validate(c, createdAt);
      if r.Ok? {
        var d := r.value;
        var index := Conflict(records, d);
        if index.Some? {
          r := Err(DuplicateKey(index.value));
        } else {
          InsertKeepsUnique(records, d);
          records := records + [d];
        }
      }
    }
  }
}
