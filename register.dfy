/** The `POST /register` route: the upload middleware's filter runs first;
    the handler then normalises the form, builds the document (reading the
    stored file's path), saves it, and turns the outcome into the reply. */
module Register {
  import opened JsValues
  import opened Errors
  import opened Upload
  import opened Form
  import opened Doctors

  const SuccessText := "Doctor registered successfully!"
  // Written as two literals: the solver does not look inside string
  // literals this long, and the proofs need the first character.
  const DuplicateText := "Duplicate entry detected. " + "Please check your email or license number."

  /** The text fields of the multipart form, as the upload middleware leaves
      them in `req.body`. */
  datatype Body = Body(
    fullName: Raw, dob: Raw, gender: Raw, contactNumber: Raw, email: Raw,
    degree: Raw, specializations: Raw, licenseNumber: Raw,
    issuingAuthority: Raw, fees: Raw, bio: Raw,
    timingDays: Raw, timingFrom: Raw, timingTo: Raw)

  /** A request: the form and, if one was sent, the `licenseFile` upload. */
  datatype Request = Request(body: Body, file: Option<FileInfo>)

  /** How a request ends: a reply sent by the handler, or an error the
      middleware hands to the framework's error handler, in which case the
      handler never runs. */
  datatype Outcome = Sent(status: nat, text: string) | ToErrorHandler(message: string)

  /** The handler's `catch`: a duplicate-key error (code 11000) gets the
      fixed duplicate message, any other error its own message after
      `Error: `; both with status 400. */
  function ErrorReply(e: Error): (o: Outcome)
    ensures o.Sent? && o.status == 400
    ensures o.text == DuplicateText <==> Code(e) == DuplicateKeyCode
    ensures Code(e) != DuplicateKeyCode ==> o.text == "Error: " + Message(e)
    ensures o.text != SuccessText
  {
    if Code(e) == DuplicateKeyCode then Sent(400, DuplicateText)
    else
      var text := "Error: " + Message(e);
      assert text[0] == 'E';
      assert DuplicateText[0] == 'D' && SuccessText[0] == 'D';
      Sent(400, text)
  }

  /** The document the handler constructs from the form, the normalised
      fields and the stored file's path. */
  function NewDoctor(b: Body, slots: seq<Slot>, path: string): Candidate
  {
    Candidate(b.fullName, b.dob, b.gender, b.contactNumber, b.email, b.degree,
              WrapSpecializations(b.specializations), b.licenseNumber,
              b.issuingAuthority, b.fees, path, slots, b.bio)
  }

  /** The whole route on a collection's records, as a reference definition:
      the records afterwards and the outcome. `uploadTime` is the clock
      reading the file name is built from, `now` the one `createdAt`
      defaults to. */
  function Handle(records: seq<Doctor>, req: Request, uploadTime: nat, now: nat): (seq<Doctor>, Outcome)
  {
    if req.file.Some? && FileFilter(req.file.value).Reject? then
      (records, ToErrorHandler(FileFilter(req.file.value).message))
    else
      var b := req.body;
      match TimingSlots(b.timingDays, b.timingFrom, b.timingTo)
      case Err(e) => (records, ErrorReply(e))
      case Ok(slots) =>
        if req.file.None? then (records, ErrorReply(ReadOfUndefined("path")))
        else
          var path := StoredPath(uploadTime, req.file.value.originalname);
          match SaveResult(records, NewDoctor(b, slots, path), now)
          case Err(e) => (records, ErrorReply(e))
          case Ok(d) => (records + [d], Sent(200, SuccessText))
  }

  /** The route run against the collection. */
  method HandleRegister(db: DoctorCollection, req: Request, uploadTime: nat, now: nat) returns (out: Outcome)
    requires db.Valid()
    modifies db
    ensures db.Valid()
    ensures (db.records, out) == Handle(old(db.records), req, uploadTime, now)
  {
    // upload.single('licenseFile'): the filter, then the stored name
    var path: Option<string> := None;
    if req.file.Some? {
      var verdict := FileFilter(req.file.value);
      if verdict.Reject? {
        return ToErrorHandler(verdict.message);
      }
      path := Some(StoredPath(uploadTime, req.file.value.originalname));
    }
    var b := req.body;
    var slots := BuildTimingSlots(b.timingDays, b.timingFrom, b.timingTo);
    if slots.Err? {
      return ErrorReply(slots.error);
    }
    if path.None? {
      // req.file is undefined, so reading req.file.path throws
      return ErrorReply(ReadOfUndefined("path"));
    }
    var saved := db.Save(NewDoctor(b, slots.value, path.value), now);
    if saved.Err? {
      return ErrorReply(saved.error);
    }
    out := Sent(200, SuccessText);
  }

  // ---------------------------------------------------------------------
  // What the route promises.

  /** A non-PDF upload is refused inside the middleware: the handler never
      runs, so nothing is stored; and that is the only way the middleware
      refuses a request. */
  lemma NonPdfRefusedBeforeHandler(records: seq<Doctor>, req: Request, uploadTime: nat, now: nat)
    ensures Handle(records, req, uploadTime, now).1.ToErrorHandler? <==>
      req.file.Some? && req.file.value.mimetype != PdfMimeType
    ensures Handle(records, req, uploadTime, now).1.ToErrorHandler? ==>
      Handle(records, req, uploadTime, now) == (records, ToErrorHandler(NotPdfMessage))
  {
  }

  /** Without a file, reading its path throws before `save`: nothing is
      stored and the reply is 400 with the runtime's message after
      `Error: `, unless the timing fields failed first. */
  lemma MissingFileFailsBeforeSave(records: seq<Doctor>, req: Request, uploadTime: nat, now: nat)
    requires req.file.None?
    ensures Handle(records, req, uploadTime, now).0 == records
    ensures var b := req.body;
      TimingSlots(b.timingDays, b.timingFrom, b.timingTo).Ok? ==>
        Handle(records, req, uploadTime, now).1 ==
          // the runtime's message, split for the same reason as DuplicateText
          Sent(400, "Error: " + "Cannot read properties of undefined " + "(reading 'path')")
  {
  }

  /** A complete registration whose email or license number is already
      stored is refused with the duplicate message, and nothing changes. */
  lemma DuplicateRefused(records: seq<Doctor>, req: Request, uploadTime: nat, now: nat, k: nat)
    requires req.file.Some? && req.file.value.mimetype == PdfMimeType
    requires var b := req.body; TimingSlots(b.timingDays, b.timingFrom, b.timingTo).Ok?
    requires var b := req.body;
      Complete(NewDoctor(b, TimingSlots(b.timingDays, b.timingFrom, b.timingTo).value,
                         StoredPath(uploadTime, req.file.value.originalname)))
    requires k < |records|
    requires Scalar(records[k].email) == req.body.email || Scalar(records[k].licenseNumber) == req.body.licenseNumber
    ensures Handle(records, req, uploadTime, now) == (records, Sent(400, DuplicateText))
  {
  }

  /** Every request keeps the store's rule; a request that succeeds appends
      exactly one record, built from the form, and leaves every earlier one
      as it was; any other request changes nothing. */
  lemma HandleKeepsStore(records: seq<Doctor>, req: Request, uploadTime: nat, now: nat)
    requires Unique(records)
    ensures var (after, out) := Handle(records, req, uploadTime, now);
      Unique(after) &&
      (out == Sent(200, SuccessText) ==>
        |after| == |records| + 1 && after[..|records|] == records &&
        Scalar(after[|records|].email) == req.body.email &&
        Scalar(after[|records|].licenseNumber) == req.body.licenseNumber &&
        req.file.Some? &&
        after[|records|].licenseFile == StoredPath(uploadTime, req.file.value.originalname) &&
        after[|records|].createdAt == now &&
        after[|records|] == Validate(NewDoctor(req.body, TimingSlots(req.body.timingDays, req.body.timingFrom,
                                                                     req.body.timingTo).value,
                                               StoredPath(uploadTime, req.file.value.originalname)), now).value) &&
      (out != Sent(200, SuccessText) ==> after == records)
  {
  }

  /** The reply is the success text exactly when the upload is a PDF, the
      timing fields can be read, every required field is filled, and
      neither the email nor the license number is already stored. */
  lemma SuccessExactly(records: seq<Doctor>, req: Request, uploadTime: nat, now: nat)
    ensures Handle(records, req, uploadTime, now).1 == Sent(200, SuccessText) <==>
      var b := req.body;
      var slots := TimingSlots(b.timingDays, b.timingFrom, b.timingTo);
      req.file.Some? && req.file.value.mimetype == PdfMimeType && slots.Ok? &&
      Complete(NewDoctor(b, slots.value, StoredPath(uploadTime, req.file.value.originalname))) &&
      forall i :: 0 <= i < |records| ==>
        Scalar(records[i].email) != b.email && Scalar(records[i].licenseNumber) != b.licenseNumber
  {
  }
}
