/** The request handling of the web service (backend/app.py) that decides an answer before or
    around the work of the other modules: the upload whitelist, the validation and assembly of
    `/api/classify`, and the parameter checks of `/api/next-document-number`. Everything the
    handlers do through other objects (saving the upload, OCR, storage, the database, the
    clock) arrives as an input. */
module Api {
  import opened Common
  import opened Text
  import Ocr
  import Fields
  import Classifier
  import Store

  // ---------------------------------------------------------------------------------------
  // The upload whitelist
  // ---------------------------------------------------------------------------------------

  const AllowedExtensions: set<string> := {"pdf", "png", "jpg", "jpeg", "tiff", "bmp"}

  /** An extension, without its dot, on the whitelist in any letter case. */
  predicate AllowedExtension(ext: string) {
    Lower(ext) in AllowedExtensions
  }

  /** `allowed_file`: the name has a dot, and what follows the last dot, lower-cased, is an
      allowed extension. */
  function AllowedFile(filename: string): bool {
    match LastIndex(filename, '.')
    case None => false
    case Some(dot) => AllowedExtension(filename[dot + 1..])
  }

  /** A name without a dot is refused; a name whose last dot is at `k` is allowed exactly when
      what follows that dot is an allowed extension. */
  lemma AllowedFileSpec(filename: string, k: nat)
    ensures '.' !in filename ==> !AllowedFile(filename)
    ensures k < |filename| && filename[k] == '.' && '.' !in filename[k + 1..] ==>
      (AllowedFile(filename) <==> AllowedExtension(filename[k + 1..]))
  {
    if k < |filename| && filename[k] == '.' && '.' !in filename[k + 1..] {
      var dot := LastIndex(filename, '.').value;
      NotInSuffix(filename, dot + 1, k, '.');
      NotInSuffix(filename, k + 1, dot, '.');
      assert dot == k;
    }
  }

  /** An allowed name that starts with a character other than a dot and holds no `/` is routed
      by the OCR engine to the PDF or the image reader, never refused. */
  lemma AllowedFileRouted(filename: string)
    requires AllowedFile(filename) && filename[0] != '.' && '/' !in filename
    ensures Ocr.RouteOf(filename, true) == Ocr.PdfPath || Ocr.RouteOf(filename, true) == Ocr.ImagePath
  {
    var dot := LastIndex(filename, '.').value;
    assert filename[0] != '.' && dot > 0;
    assert Ocr.Extension(filename) == filename[dot..];
    var suffix := filename[dot + 1..];
    assert filename[dot..] == "." + suffix;
    LowerDot(suffix);
    assert AllowedExtension(suffix);
    DottedAllowed(Lower(suffix));
  }

  lemma LowerDot(suffix: string)
    ensures Lower("." + suffix) == "." + Lower(suffix)
  {
  }

  /** Each allowed extension, with its dot, is the PDF extension or an image extension. */
  lemma DottedAllowed(e: string)
    requires e in AllowedExtensions
    ensures "." + e == ".pdf" || "." + e in Ocr.ImageExtensions
  {
    if e == "pdf" {
      assert "." + e == ".pdf";
    } else if e == "png" {
      assert "." + e == Ocr.ImageExtensions[0];
    } else if e == "jpg" {
      assert "." + e == Ocr.ImageExtensions[1];
    } else if e == "jpeg" {
      assert "." + e == Ocr.ImageExtensions[2];
    } else if e == "tiff" {
      assert "." + e == Ocr.ImageExtensions[3];
    } else {
      assert "." + e == Ocr.ImageExtensions[4];
    }
  }

  // ---------------------------------------------------------------------------------------
  // /api/classify
  // ---------------------------------------------------------------------------------------

  datatype Upload = Upload(filename: string)

  /** The parts of the request the handler reads: the uploaded files and the form fields. */
  datatype ClassifyRequest = ClassifyRequest(files: map<string, Upload>, form: map<string, string>)

  /** The three refusals with status 400, in the order the handler tests them. */
  datatype Refusal = NoFileProvided | NoFileSelected | FileTypeNotAllowed

  function RefusalMessage(r: Refusal): string {
    match r
    case NoFileProvided => "No file provided"
    case NoFileSelected => "No file selected"
    case FileTypeNotAllowed => "File type not allowed"
  }

  datatype Validation = Accepted(upload: Upload, userId: string) | Refused(refusal: Refusal)

  /** `d.get(key, default)`. */
  function GetOr(d: map<string, string>, key: string, default: string): string {
    if key in d then d[key] else default
  }

  /** The early returns of `classify_document`: no `file` part, then an empty file name,
      then a name outside the whitelist; an accepted request carries its upload and the
      `user_id` form field, `anonymous` by default. */
  function ValidateClassify(req: ClassifyRequest): (v: Validation)
    ensures v == Refused(NoFileProvided) <==> "file" !in req.files
    ensures v == Refused(NoFileSelected) <==> "file" in req.files && req.files["file"].filename == []
    ensures v == Refused(FileTypeNotAllowed) <==>
      "file" in req.files && req.files["file"].filename != [] && !AllowedFile(req.files["file"].filename)
    ensures v.Accepted? <==>
      "file" in req.files && req.files["file"].filename != [] && AllowedFile(req.files["file"].filename)
    ensures v.Accepted? ==> v.upload == req.files["file"]
    ensures v.Accepted? && "user_id" !in req.form ==> v.userId == "anonymous"
    ensures v.Accepted? && "user_id" in req.form ==> v.userId == req.form["user_id"]
  {
    if "file" !in req.files then Refused(NoFileProvided)
    else
      var file := req.files["file"];
      if file.filename == [] then Refused(NoFileSelected)
      else if !AllowedFile(file.filename) then Refused(FileTypeNotAllowed)
      else Accepted(file, GetOr(req.form, "user_id", "anonymous"))
  }

  /** The number of characters of the OCR text kept in the database. */
  const StoredTextLength := 500

  /** The row saved in the `documents` table. */
  datatype DocumentRecord = DocumentRecord(
    userId: string, filename: string, documentType: string, confidence: real,
    extractedText: string, storageUrl: string, status: string)

  datatype ClassifyResponse =
    | Classified(documentId: string, documentType: string, confidence: real, keywords: seq<string>,
                 storageUrl: string, fields: Option<Fields.SyllabusReview>, record: DocumentRecord)
    | Failed(status: nat, error: string, details: string)

  /** The classifier's state: its model, if one was loaded, and its confidence threshold. */
  datatype ClassifierState = ClassifierState(model: Option<Classifier.Pipeline>, threshold: real, re: Classifier.Searches)

  /** The inputs the handler receives from the objects it calls: `secure_filename`, the OCR
      result for the saved upload (`Err` with the message when it raised), the regex oracles of
      the field extractor, the storage URL from the upload and the id of the saved row (each
      `Err` when that call raised). */
  datatype Services = Services(
    secureFilename: string -> string,
    ocr: Result<string, string>,
    classifier: ClassifierState,
    fieldOracles: Fields.Oracles,
    uploaded: Result<string, string>,
    saved: Result<string, string>)

  /** The structured fields of the response: extracted only for a syllabus review form. */
  function FieldsFor(documentType: string, text: string, rx: Fields.Oracles): (f: Option<Fields.SyllabusReview>)
    ensures f.Some? <==> documentType == Classifier.Name(Classifier.SyllabusReviewForm)
    ensures f.Some? ==> f.value == Fields.ExtractSyllabusReview(Some(text), rx)
  {
    if documentType == Classifier.Name(Classifier.SyllabusReviewForm) then
      Some(Fields.ExtractSyllabusReview(Some(text), rx))
    else None
  }

  /** The record saved for a classified upload: the first 500 characters of the text. */
  function RecordFor(userId: string, filename: string, c: Classifier.Classification, text: string, url: string): (r: DocumentRecord)
    ensures r.userId == userId && r.filename == filename && r.storageUrl == url && r.status == "classified"
    ensures r.documentType == c.documentType && r.confidence == c.confidence
    ensures |r.extractedText| == if |text| < StoredTextLength then |text| else StoredTextLength
    ensures r.extractedText == text[..|r.extractedText|]
  {
    DocumentRecord(userId, filename, c.documentType, c.confidence, Prefix(text, StoredTextLength), url, "classified")
  }

  /** The handler after a successful OCR: classify the text, extract the fields of a
      syllabus review form, upload the file and insert the record; a failing upload or insert
      is a 500. The record belongs to the requesting user, stores at most the first 500
      characters of the text and the classifier's verdict, and fields are extracted exactly for
      a syllabus review form. */
  function Process(file: Upload, userId: string, text: string, s: Services): (r: ClassifyResponse)
    ensures r.Classified? <==> s.uploaded.Ok? && s.saved.Ok?
    ensures r.Failed? ==> r.status == 500 && r.error == "Internal server error"
    ensures r.Classified? ==>
      && r.record.userId == userId
      && r.record.filename == s.secureFilename(file.filename)
      && |r.record.extractedText| <= StoredTextLength && |r.record.extractedText| <= |text|
      && r.record.extractedText == text[..|r.record.extractedText|]
      && (|text| >= StoredTextLength ==> |r.record.extractedText| == StoredTextLength)
      && r.record.documentType == r.documentType && r.record.storageUrl == r.storageUrl
      && (r.fields.Some? <==> r.documentType == Classifier.Name(Classifier.SyllabusReviewForm))
      && r.record.status == "classified"
  {
    var c := Classifier.ClassifyResult(s.classifier.model, s.classifier.threshold, text, s.classifier.re);
    var fields := FieldsFor(c.documentType, text, s.fieldOracles);
    match s.uploaded
    case Err(e) => Failed(500, "Internal server error", e)
    case Ok(url) =>
      var record := RecordFor(userId, s.secureFilename(file.filename), c, text, url);
      match s.saved
      case Err(e) => Failed(500, "Internal server error", e)
      case Ok(id) => Classified(id, c.documentType, c.confidence, c.keywords, url, fields, record)
  }

  /** `classify_document` as a value. A request is refused with 400 exactly when validation
      refuses it, with that refusal's message; an OCR failure after validation is a 500; the
      request succeeds exactly when validation, OCR, the upload and the insert all succeed,
      and then the record's user is the form's `user_id`, `anonymous` by default. */
  function ClassifyDocument(req: ClassifyRequest, s: Services): (r: ClassifyResponse)
    ensures var v := ValidateClassify(req);
      && (r.Failed? && r.status == 400 <==> v.Refused?)
      && (v.Refused? ==> r.error == RefusalMessage(v.refusal))
      && (v.Accepted? && s.ocr.Err? ==> r == Failed(500, "OCR processing failed", s.ocr.error))
      && (v.Accepted? && s.ocr.Ok? ==> r == Process(v.upload, v.userId, s.ocr.value, s))
      && (r.Classified? <==> v.Accepted? && s.ocr.Ok? && s.uploaded.Ok? && s.saved.Ok?)
    ensures r.Classified? ==> r.record.userId == GetOr(req.form, "user_id", "anonymous")
  {
    match ValidateClassify(req)
    case Refused(why) => Failed(400, RefusalMessage(why), "")
    case Accepted(file, userId) =>
      match s.ocr
      case Err(e) => Failed(500, "OCR processing failed", e)
      case Ok(text) => Process(file, userId, text, s)
  }

  // ---------------------------------------------------------------------------------------
  // /api/next-document-number
  // ---------------------------------------------------------------------------------------

  /** The two refusals with status 400. */
  datatype ParameterError = PrefixAndDepartmentRequired | YearNotInteger

  function ParameterMessage(e: ParameterError): string {
    match e
    case PrefixAndDepartmentRequired => "prefix and department are required"
    case YearNotInteger => "year must be an integer"
  }

  /** A query parameter that is present and non-empty (truthy). */
  predicate Given(args: map<string, string>, key: string) {
    key in args && args[key] != []
  }

  /** The arguments `next_document_number` passes to the allocator: prefix and department
      upper-cased, the year parsed from the query or the current year when it is absent or
      empty. */
  function AllocationArgs(args: map<string, string>, currentYear: int): (r: Result<(string, string, int), ParameterError>)
    ensures r == Err(PrefixAndDepartmentRequired) <==> !Given(args, "prefix") || !Given(args, "department")
    ensures r == Err(YearNotInteger) <==>
      Given(args, "prefix") && Given(args, "department") && Given(args, "year") && ParseInt(args["year"]).None?
    ensures r.Ok? ==> r.value.0 == Upper(args["prefix"]) && r.value.1 == Upper(args["department"])
    ensures r.Ok? && Given(args, "year") ==> ParseInt(args["year"]) == Some(r.value.2)
    ensures r.Ok? && !Given(args, "year") ==> r.value.2 == currentYear
  {
    if !Given(args, "prefix") || !Given(args, "department") then Err(PrefixAndDepartmentRequired)
    else
      var year := if Given(args, "year") then ParseInt(args["year"]) else Some(currentYear);
      match year
      case None => Err(YearNotInteger)
      case Some(y) => Ok((Upper(args["prefix"]), Upper(args["department"]), y))
  }

  /** A year written in decimal in the query is the year allocated, and the prefix and
      department reach the allocator with no lower-case letter. */
  lemma AllocationYearRoundTrip(prefix: string, department: string, year: int, currentYear: int)
    requires prefix != [] && department != []
    ensures var r := AllocationArgs(map["prefix" := prefix, "department" := department, "year" := Show(year)], currentYear);
      && r.Ok? && r.value.2 == year
      && (forall i :: 0 <= i < |r.value.0| ==> !IsLower(r.value.0[i]))
      && (forall i :: 0 <= i < |r.value.1| ==> !IsLower(r.value.1[i]))
  {
    ParseShow(year);
    var args := map["prefix" := prefix, "department" := department, "year" := Show(year)];
    assert Given(args, "prefix") && Given(args, "department");
    assert args["year"] == Show(year);
  }

  datatype NumberResponse =
    | Allocated(documentNumber: string)
    | NumberFailed(status: nat, error: string, details: string)

  /** `next_document_number`, given the current year and the allocator's RPC (its response,
      or `Err` when the call raised). */
  function NextDocumentNumber(args: map<string, string>, currentYear: int,
                              rpc: (string, string, int) -> Result<Store.RpcData, string>): (r: NumberResponse)
    ensures r.NumberFailed? && r.status == 400 <==> AllocationArgs(args, currentYear).Err?
    ensures AllocationArgs(args, currentYear).Err? ==> r.error == ParameterMessage(AllocationArgs(args, currentYear).error)
    ensures r.Allocated? <==> (AllocationArgs(args, currentYear).Ok? &&
      Store.NextDocumentNumber(rpc(AllocationArgs(args, currentYear).value.0, AllocationArgs(args, currentYear).value.1,
        AllocationArgs(args, currentYear).value.2)).Ok?)
    ensures r.Allocated? ==> var a := AllocationArgs(args, currentYear).value;
      && a.0 == Upper(args["prefix"]) && a.1 == Upper(args["department"])
      && Store.NextDocumentNumber(rpc(a.0, a.1, a.2)) == Ok(r.documentNumber)
  {
    match AllocationArgs(args, currentYear)
    case Err(e) => NumberFailed(400, ParameterMessage(e), "")
    case Ok((prefix, department, year)) =>
      match Store.NextDocumentNumber(rpc(prefix, department, year))
      case Ok(number) => Allocated(number)
      case Err(e) => NumberFailed(500, "Failed to generate document number", e)
  }
}
