# Doctor registration intake — a verified model

This project models the one piece of logic of its own in the Medwise
registration backend: the `POST /register` route of `app.js`. A doctor
submits a multipart form with a PDF license file. The upload middleware's
filter admits only PDF files, and its storage callback names the stored copy
after the upload time.
The handler then normalises the form. `specializations` becomes a list, and
the parallel `timingDays`, `timingFrom` and `timingTo` fields are zipped into
availability slots. It builds a `Doctor` document, saves it into a
collection whose `email` and `licenseNumber` are unique, and maps the outcome
to a reply.

Modules, one per component:

- `DecimalText` (`decimal_text.dfy`): the decimal rendering of a timestamp,
  as `String(n)` gives it, with its inverse.
- `Errors` (`errors.dfy`): the errors reaching the handler's `catch`, with
  their `code` and `message`, and the schema's paths that a validation error
  names.
- `JsValues` (`js_values.dfy`): a form value as the upload parser leaves it
  (`Absent | Scalar(s) | Many(items)`), `v[i]` on those values, and
  truthiness.
- `Upload` (`upload.dfy`): the `fileFilter` and `filename` callbacks. It adds a
  parser for stored names, proved to undo `StoredName`.
- `Form` (`form.dfy`): the `specializations` wrap, and the timing-slot loop.
  The loop is a method, proved equal to a reference definition
  `TimingSlots`.
- `Doctors` (`doctors.dfy`): the schema's required paths, the two unique
  indexes, and `save`. The collection is a class holding a `seq` of records.
  `Valid()` is the uniqueness rule.
- `Register` (`register.dfy`): the error-to-reply mapping, the whole route as
  a reference function `Handle`, and the route as a method on the
  collection. The lemmas state what the route promises.

Behaviour a reader might not expect, as the code is written:

- Nothing checks that the three timing fields have equal length. A missing
  `timingFrom`/`timingTo` element is `undefined`. A single time sent with
  several days is a string, and the zip takes its characters one by one
  (`MismatchedLengthsExample`).
- With `timingDays` an array of at least one day, an absent `timingFrom` or
  `timingTo` throws on the first slot. The reply is then 400
  `Error: Cannot read properties of undefined (reading '0')`.
- With no file uploaded, the reply is 400 with the runtime's message about
  reading `path` of `undefined`. This happens after the timing slots are
  built and before `save`.
- A non-PDF upload is rejected with a plain `Error` passed to the
  framework's error handler.
- A single `timingDays` yields a slot only when it is truthy, so the empty
  string yields none.
- An absent `specializations` becomes `[undefined]`, not a missing field.

## Model

| member | source | states |
|---|---|---|
| JsValues.Index | app.js:95-97 | JavaScript `v[i]` on a form value: element `i` of an array, `undefined` exactly past the end; the one-character string holding character `i` of a string, `undefined` exactly past the end; a TypeError reading index `i` of `undefined`, and only then |
| JsValues.Truthy | app.js:100 | no contract of its own: `undefined` and the empty string are falsy, any other string and any array truthy; `Form.SingleOrNoSlot` states what the test decides |
| Errors.Message | app.js:134 | no contract of its own: the text after `Error: ` in the reply, a `TypeError`'s own message, or the validation failure listing each failing path under its schema name (which paths, `Doctors.Validate` states); see "Left out" for the wording |
| Errors.Code | app.js:131 | an error carries code 11000 exactly when it is the database's duplicate-key error |
| DecimalText.Decimal | app.js:26 | the rendering of `Date.now()` in the name: non-empty, digits only, no leading zero |
| DecimalText.DecimalRoundTrip | app.js:26 | reading the rendered digits back gives the timestamp |
| DecimalText.DecimalInjective | app.js:25-26 | distinct timestamps render differently |
| Upload.FileFilter | app.js:32-39 | a file is accepted if and only if its MIME type is exactly `application/pdf`; otherwise it fails with "Only PDF files are allowed!" |
| Upload.StoredName | app.js:24-27 | the stored name is longer than the original name and ends with it |
| Upload.StoredPath | app.js:21-26 | `req.file.path`: the stored copy lies inside `uploads/` and its path ends with the original name |
| Upload.ParseStoredName | app.js:26 | a parsed name's original-name part is a suffix of the stored name |
| Upload.FirstDash | app.js:26 | the first dash in a name is found, with no dash before it |
| Upload.StoredNameRoundTrip | app.js:24-27 | splitting a stored name at its first dash gives back exactly the timestamp and the original name, whatever the original name contains |
| Upload.StoredNameInjective | app.js:25-26 | two stored names are equal only if their timestamps and original names are, so uploads in different milliseconds never collide |
| Form.WrapSpecializations | app.js:88 | an array passes through element for element; any other value, `undefined` included, becomes a one-element list of exactly that value |
| Form.TimingSlots | app.js:91-106 | reference definition of the zip with no contract of its own; `Form.ZipByIndex` and `Form.SingleOrNoSlot` characterise it, and `Form.BuildTimingSlots` is proved to compute it |
| Form.BuildTimingSlots | app.js:91-106 | the loop that pushes one slot per day returns exactly the reference zip `TimingSlots`, error included |
| Form.ZipByIndex | app.js:92-99 | with an array of days: one slot per day, slot i has day i and element i of `timingFrom`/`timingTo` (`undefined` past the end, a character of a string); it fails if and only if there is a day and `timingFrom` or `timingTo` is absent |
| Form.SingleOrNoSlot | app.js:100-106 | a non-empty single day gives exactly one slot of the three raw values; an absent or empty day gives none; neither fails |
| Form.TwoDayExample | app.js:88-99 | two days with two start and two end times give the two slots in order; a single specialization becomes a one-element list |
| Form.MismatchedLengthsExample | app.js:93-98 | unequal lengths are not detected: a short list gives `undefined`, a single string is split into characters |
| Doctors.SlotFailuresNone | app.js:55-59 | no slot path fails validation if and only if every slot has non-empty day, from and to |
| Doctors.FieldFailuresNamed | app.js:44-54 | the failures among a list of top-level paths are top-level paths, and name a field if and only if it is in the list and unsatisfied |
| Doctors.SlotFailuresNamed | app.js:55-59 | the slot failures name `timingSlots.<i>.<part>` if and only if slot `i` exists and that part of it is unsatisfied |
| Doctors.FailuresNamed | app.js:43-62 | the failing paths name a top-level field if and only if it is unsatisfied, and a slot's part if and only if that slot exists and the part is unsatisfied |
| Doctors.FailuresNoneIffComplete | app.js:43-62 | no path fails if and only if every required path is satisfied |
| Doctors.Validate | app.js:43-62 | a document passes if and only if every required path holds a non-empty single value; the record then carries exactly the submitted values and the creation time; a failure is a validation error naming exactly the unsatisfied top-level fields and the unsatisfied parts of existing slots, and at least one path |
| Doctors.SaveResult | app.js:126 | the outcome of `save`, with no contract of its own; `Doctors.SaveOutcomes` characterises it (validation first, then the unique insert) and `Doctors.DoctorCollection.Save` is proved to produce it |
| Doctors.Conflict | app.js:48-51 | no index is violated if and only if no stored record shares the email or the license number; the email index is reported if and only if the email is taken |
| Doctors.InsertKeepsUnique | app.js:48-51 | appending a record that violates neither index keeps emails and license numbers pairwise distinct |
| Doctors.SaveOutcomes | app.js:43-62 | `save` succeeds if and only if the document is complete and its email and license number are both new; it fails with code 11000 if and only if it is complete and one of them is taken |
| Doctors.DoctorCollection.constructor | app.js:64 | the collection starts empty and valid |
| Doctors.DoctorCollection.Save | app.js:126 | on success exactly one record is appended, earlier ones untouched; on failure the records are unchanged; uniqueness is kept |
| Register.ErrorReply | app.js:129-135 | every caught error gives status 400; the duplicate message if and only if the code is 11000, otherwise `Error: ` and the error's message; never the success text |
| Register.NewDoctor | app.js:109-123 | the `new Doctor({...})` document, with no contract of its own; `Register.HandleKeepsStore` states that a successful request stores exactly its validated form, carrying every submitted field, the wrapped specializations, the slots and the stored path |
| Register.Handle | app.js:67-137 | reference definition of the whole route, with no contract of its own; characterised by `Register.SuccessExactly`, `Register.HandleKeepsStore`, `Register.DuplicateRefused`, `Register.NonPdfRefusedBeforeHandler` and `Register.MissingFileFailsBeforeSave`, and computed by `Register.HandleRegister` |
| Register.HandleRegister | app.js:67-137 | the route run on the collection leaves exactly the records and reply of the reference `Handle`, and keeps uniqueness |
| Register.NonPdfRefusedBeforeHandler | app.js:67 | the middleware refuses a request if and only if it carries a non-PDF file; the handler never runs and nothing is stored |
| Register.MissingFileFailsBeforeSave | app.js:109-134 | without a file nothing is stored; once the timing fields are read, the reply is 400 with the runtime's message about reading `path` of `undefined` |
| Register.DuplicateRefused | app.js:126-132 | a complete registration reusing a stored email or license number gets 400 with the duplicate message and changes nothing |
| Register.HandleKeepsStore | app.js:109-135 | every request keeps uniqueness; a successful one appends exactly one record, which is the validated document built from the form, the slots and the stored path (so it carries every submitted field), and leaves earlier records as they were; any other changes nothing |
| Register.SuccessExactly | app.js:67-135 | the reply is the success text if and only if the file is a PDF, the timing fields can be read, every required field is filled, and neither email nor license number is stored |

## Left out

- Express setup, body parsing, static files, the `GET /` route and
  `listen`/`PORT` (app.js:8-12, 139-148): HTTP plumbing.
- The database connection (app.js:15-17). A connection failure or a buffering
  timeout during `save` is not modelled. Such an error would reach the
  generic `Error: ` branch of `ErrorReply`.
- Writing the file to disk, and the `uploads/` directory. `req.file.path` is
  modelled as `uploads/` followed by the stored name. The normalisation that
  joining paths applies to names containing `/` or `..` is not modelled. A
  file written before a failed `save` is left on disk; that is not modelled
  either.
- Doctors.Validate: casting `dob` to a date and `fees` to a number is not
  modelled; both are kept as submitted text. Any non-empty single value
  passes, and a cast failure of a text that is not a date or a number is
  missing. An array submitted for a single-valued path is treated as a
  failing path, as a cast error would be. Which paths fail is stated
  exactly. The validation message text and the order of the paths in it
  are representative of the schema library's wording, not exact.
- Errors.Message: the duplicate-key text stops after the index name; the
  database's message goes on to quote the duplicated key. No reply shows it,
  since `ErrorReply` sends the fixed duplicate text for code 11000.
- Doctors.Validate: the elements of `specializations` are stored as built,
  `undefined` included. The schema library's casting of array elements is
  not modelled.
- `createdAt` defaults to `Date.now` and the stored name uses `Date.now()`.
  Both clocks are parameters (`now`, `uploadTime`).
- JsValues.Index: a string is indexed by Unicode code point, whereas
  JavaScript indexes it by UTF-16 code unit. For characters outside the
  Basic Multilingual Plane the split differs: JavaScript yields the two
  surrogate halves as separate one-unit strings, the model one character.
  The `TypeError` texts (`ReadOfUndefined`) are those of recent Node
  versions; older runtimes say "Cannot read property '0' of undefined".
- DecimalText.Decimal: renders any natural number. `String(n)` in JavaScript
  gives this form only below 10^21, which every millisecond timestamp is.
- The status of the middleware's rejection. It goes to the framework's
  default error handler, which is not in the source, so the model stops at
  `ToErrorHandler`. The upload middleware's other errors (an unexpected
  field, size limits) are not modelled.
- Concurrent registrations racing on the unique indexes: the model runs
  one request at a time.
- Logging with `console.log`/`console.error`.
