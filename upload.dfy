/** The two callbacks handed to the upload middleware: the file filter that
    admits only PDF files, and the rule that names the stored copy of an
    accepted file. */
module Upload {
  import opened JsValues
  import opened DecimalText

  const PdfMimeType := "application/pdf"
  const NotPdfMessage := "Only PDF files are allowed!"
  /** The directory the stored copies are written to. */
  const UploadDir := "uploads/"

  /** The file as the upload middleware describes it. */
  datatype FileInfo = FileInfo(mimetype: string, originalname: string)

  /** What the file filter tells the middleware: take the file, or fail the
      request with an error. */
  datatype Verdict = Accept | Reject(message: string)

  /** The file filter: the declared MIME type must be exactly
      `application/pdf`; anything else fails with the fixed message. */
  function FileFilter(f: FileInfo): (v: Verdict)
    ensures v.Accept? <==> f.mimetype == PdfMimeType
    ensures v.Reject? ==> v.message == NotPdfMessage
  {
    if f.mimetype == PdfMimeType then Accept else Reject(NotPdfMessage)
  }

  /** The name of the stored copy: the upload time in milliseconds written
      in decimal, a dash, then the client's original file name. */
  function StoredName(timestamp: nat, originalname: string): (name: string)
    ensures |name| > |originalname|
    ensures name[|name| - |originalname|..] == originalname
  {
    Decimal(timestamp) + "-" + originalname
  }

  /** The path the stored copy ends up at, which the handler records: inside
      the upload directory, and ending with the original name. */
  function StoredPath(timestamp: nat, originalname: string): (path: string)
    ensures |path| > |UploadDir| + |originalname|
    ensures path[..|UploadDir|] == UploadDir
    ensures path[|path| - |originalname|..] == originalname
  {
    UploadDir + StoredName(timestamp, originalname)
  }

  /** Reading a stored name back: the digits before the first dash give the
      timestamp, everything after it the original name. */
  function ParseStoredName(name: string): (r: Option<(nat, string)>)
    ensures r.Some? ==> |name| > |r.value.1| && name[|name| - |r.value.1|..] == r.value.1
  {
    var k := FirstDash(name, 0);
    if k < |name| && k > 0 && AllDigits(name[..k]) then
      assert name == name[..k] + "-" + name[k + 1..];
      Some((DecimalValue(name[..k]), name[k + 1..]))
    else None
  }

  /** The position of the first dash at or after `from`, or `|s|`. */
  function FirstDash(s: string, from: nat): (k: nat)
    requires from <= |s|
    decreases |s| - from
    ensures from <= k <= |s|
    ensures k < |s| ==> s[k] == '-'
    ensures forall j :: from <= j < k ==> s[j] != '-'
  {
    if from == |s| || s[from] == '-' then from else FirstDash(s, from + 1)
  }

  /** A stored name gives back exactly the timestamp and the original name it
      was built from, whatever the original name contains. */
  lemma StoredNameRoundTrip(timestamp: nat, originalname: string)
    ensures ParseStoredName(StoredName(timestamp, originalname)) == Some((timestamp, originalname))
  {
    var d := Decimal(timestamp);
    var name := StoredName(timestamp, originalname);
    assert name[..|d|] == d;
    assert name[|d| + 1..] == originalname;
    FirstDashAt(name, 0, |d|);
    DecimalRoundTrip(timestamp);
  }

  /** A dash with no dash before it, from `from` on, is the one found. */
  lemma FirstDashAt(s: string, from: nat, n: nat)
    requires from <= n < |s| && s[n] == '-'
    requires forall j :: from <= j < n ==> s[j] != '-'
    ensures FirstDash(s, from) == n
  {
  }

  /** Two stored names are equal only when both their timestamps and their
      original names are: files uploaded at different milliseconds never
      overwrite each other. */
  lemma StoredNameInjective(t1: nat, o1: string, t2: nat, o2: string)
    requires StoredName(t1, o1) == StoredName(t2, o2)
    ensures t1 == t2 && o1 == o2
  {
    StoredNameRoundTrip(t1, o1);
    StoredNameRoundTrip(t2, o2);
  }
}
