/**
 * What each request handler of main.py answers, as a function of the
 * request, the state of the `remove` handle and the behaviour of the
 * outside world (the import and the library). The checks, their order,
 * which of them sit inside the `try` whose `except Exception` turns every
 * exception into a 500, and the arguments the library is called with.
 */
module Endpoints {
  import opened Wrappers
  import opened Colour
  import opened FileChecks
  import opened Removal

  /** An `UploadFile` once read: its client-supplied name and its bytes. */
  datatype UploadFile = UploadFile(filename: string, content: seq<byte>)

  /** The parameters `remove_background` is called with. */
  datatype Request = Request(
    file: UploadFile,
    model: ModelChoice,
    alphaMatting: bool,
    foregroundThreshold: int,
    backgroundThreshold: int,
    erodeSize: int,
    onlyMask: bool,
    backgroundColor: Option<string>)

  /** The HTTP answer: a PNG attachment, or an error status with its cause. */
  datatype Response =
    | Png(body: seq<byte>, attachment: string)
    | HttpError(status: nat, fault: Fault)
  {
    function Status(): nat
    {
      if Png? then 200 else status
    }
  }

  /**
   * Everything observable about one handled request: the response, whether
   * the upload was read, the library call made (if any) and the handle
   * afterwards.
   */
  datatype Outcome = Outcome(response: Response, uploadRead: bool, call: Option<RemoveCall>, handle: Handle)

  /** `except Exception as e: raise HTTPException(status_code=500, ...)` */
  function CatchAll(r: Result<Response, Fault>): (response: Response)
    ensures r.Ok? ==> response == r.value
    ensures r.Err? ==> response.HttpError? && response.status == 500 && response.fault == r.error
  {
    match r
    case Ok(response) => response
    case Err(fault) => HttpError(500, fault)
  }

  /**
   * Building the `StreamingResponse` with its `Content-Disposition` header,
   * which is encoded as Latin-1: a stem outside Latin-1 raises
   * `UnicodeEncodeError` after the library has already run.
   */
  function Respond(image: seq<byte>, name: string): Result<Response, Fault>
  {
    if IsLatin1(name) then Ok(Png(image, name)) else Err(HeaderNotEncodable)
  }

  /**
   * The `try:` block of `remove_background` after `get_remove_function`
   * answered `got`: colour parsing, the matting gate, then one call of the
   * library with matting forced off, then the response.
   */
  function TryRemoveBackground(got: Result<Remover, Fault>, req: Request): (Result<Response, Fault>, Option<RemoveCall>)
  {
    if got.Err? then (Err(got.error), None)
    else
      match ParseBackgroundColor(req.backgroundColor)
      case Err(e) => (Err(InvalidBackgroundColor(e)), None)
      case Ok(colour) =>
        if req.alphaMatting then (Err(MattingUnsupported), None)
        else
          var call := Tuned(req.file.content, req.model.Value(), false,
                            req.foregroundThreshold, req.backgroundThreshold, req.erodeSize,
                            req.onlyMask, colour);
          match got.value(call)
          case None => (Err(RemovalFailed), Some(call))
          case Some(image) => (Respond(image, AttachmentName("processed_", req.file.filename)), Some(call))
  }

  /**
   * `remove_background`: the extension and size checks outside the `try`,
   * then the handle acquired and the `try` block run.
   */
  function RemoveBackgroundOutcome(h: Handle, imported: Option<Remover>, req: Request): (t: Outcome)
    ensures t.uploadRead <==> IsAllowedFile(req.file.filename)
    ensures t.handle == if IsAllowedFile(req.file.filename) && WithinSizeLimit(|req.file.content|)
                        then Acquire(h, imported).1 else h
  {
    if !IsAllowedFile(req.file.filename) then
      Outcome(HttpError(400, InvalidFileType), false, None, h)
    else if !WithinSizeLimit(|req.file.content|) then
      Outcome(HttpError(413, FileTooLarge), true, None, h)
    else
      var (got, h') := Acquire(h, imported);
      var (result, call) := TryRemoveBackground(got, req);
      Outcome(CatchAll(result), true, call, h')
  }

  /**
   * The `try:` block of `remove_background_simple` after
   * `get_remove_function` answered `got`: read the upload, check its size,
   * call the library with the general model and its defaults.
   */
  function TryRemoveBackgroundSimple(got: Result<Remover, Fault>, file: UploadFile): (Result<Response, Fault>, bool, Option<RemoveCall>)
  {
    if got.Err? then (Err(got.error), false, None)
    else if !WithinSizeLimit(|file.content|) then (Err(FileTooLarge), true, None)
    else
      var call := Untuned(file.content, "u2net");
      match got.value(call)
      case None => (Err(RemovalFailed), true, Some(call))
      case Some(image) => (Respond(image, AttachmentName("no_bg_", file.filename)), true, Some(call))
  }

  /** `remove_background_simple`: everything, the acquisition first, inside the `try`. */
  function RemoveBackgroundSimpleOutcome(h: Handle, imported: Option<Remover>, file: UploadFile): (t: Outcome)
    ensures t.uploadRead <==> Acquire(h, imported).0.Ok?
    ensures t.handle == Acquire(h, imported).1
  {
    var (got, h') := Acquire(h, imported);
    var (result, read, call) := TryRemoveBackgroundSimple(got, file);
    Outcome(CatchAll(result), read, call, h')
  }

  /**
   * `health_check`: healthy (200) exactly when the remove function could be
   * had, unhealthy (503) otherwise; probing may set the handle.
   */
  function HealthOutcome(h: Handle, imported: Option<Remover>): (r: (nat, Handle))
    ensures r.0 == 200 || r.0 == 503
    ensures r.0 == 200 <==> r.1.Ready?
    ensures r.1 == Acquire(h, imported).1
  {
    var (got, h') := Acquire(h, imported);
    (if got.Ok? then 200 else 503, h')
  }
  // ---------------------------------------------------------------------
  // remove_background

  /**
   * The `try` block of remove_background on its own: when the library is
   * called and with what, when an image comes out, and which faults it can
   * raise (never those of the checks before it).
   */
  lemma TryFacts(got: Result<Remover, Fault>, req: Request)
    requires got.Err? ==> got.error == ImportFailed
    ensures var r := TryRemoveBackground(got, req);
      r.1.Some? <==> got.Ok? && ParseBackgroundColor(req.backgroundColor).Ok? && !req.alphaMatting
    ensures var r := TryRemoveBackground(got, req);
      r.1.Some? ==>
        r.1.value == Tuned(req.file.content, req.model.Value(), false,
                           req.foregroundThreshold, req.backgroundThreshold, req.erodeSize,
                           req.onlyMask, ParseBackgroundColor(req.backgroundColor).value)
    ensures var r := TryRemoveBackground(got, req);
      r.0.Ok? <==> r.1.Some? && got.value(r.1.value).Some? && IsLatin1(AttachmentName("processed_", req.file.filename))
    ensures var r := TryRemoveBackground(got, req);
      r.0.Ok? ==> r.0.value == Png(got.value(r.1.value).value, AttachmentName("processed_", req.file.filename))
    ensures var r := TryRemoveBackground(got, req);
      r.0.Err? ==>
        r.0.error != InvalidFileType && r.0.error != FileTooLarge
        && (r.0.error.RaisedStatus() != 500 <==> r.0.error.InvalidBackgroundColor? || r.0.error.MattingUnsupported?)
        && (r.1.Some? && got.value(r.1.value).Some? ==> r.0.error == HeaderNotEncodable)
  {
  }

  /** A name whose extension is not on the allow-list is refused with 400 before anything else happens. */
  lemma DisallowedExtensionRejected(h: Handle, imported: Option<Remover>, req: Request)
    requires !IsAllowedFile(req.file.filename)
    ensures var t := RemoveBackgroundOutcome(h, imported, req);
      t.response == HttpError(400, InvalidFileType) && !t.uploadRead && t.call.None? && t.handle == h
  {
  }

  /** A name without a dot has the empty extension, which is never allowed. */
  lemma DotlessNameRejected(h: Handle, imported: Option<Remover>, req: Request)
    requires '.' !in req.file.filename
    ensures RemoveBackgroundOutcome(h, imported, req).response == HttpError(400, InvalidFileType)
  {
    assert FileExtension(req.file.filename) == "";
  }

  /**
   * Once the name is allowed, the upload is read, and anything larger than
   * MaxFileSize bytes is refused with 413 before the library is looked up.
   */
  lemma OversizeRejected(h: Handle, imported: Option<Remover>, req: Request)
    requires IsAllowedFile(req.file.filename)
    requires |req.file.content| > MaxFileSize
    ensures var t := RemoveBackgroundOutcome(h, imported, req);
      t.response == HttpError(413, FileTooLarge) && t.uploadRead && t.call.None? && t.handle == h
  {
  }

  /** The size limit is inclusive: an allowed upload of at most MaxFileSize bytes gets past it and the library is looked up. */
  lemma SizeLimitInclusive(h: Handle, imported: Option<Remover>, req: Request)
    requires IsAllowedFile(req.file.filename)
    requires |req.file.content| <= MaxFileSize
    ensures var t := RemoveBackgroundOutcome(h, imported, req);
      t.response.Status() != 413 && t.uploadRead && t.handle == Acquire(h, imported).1
  {
    if IsAllowedFile(req.file.filename) && WithinSizeLimit(|req.file.content|) {
      TryFacts(Acquire(h, imported).0, req);
    }
  }

  /**
   * A background colour that does not parse is raised as a 400 inside the
   * `try`, whose handler turns it into a 500; the library is not called.
   */
  lemma BadColourIsServerError(h: Handle, imported: Option<Remover>, req: Request)
    requires IsAllowedFile(req.file.filename) && WithinSizeLimit(|req.file.content|)
    requires Acquire(h, imported).0.Ok?
    requires ParseBackgroundColor(req.backgroundColor).Err?
    ensures var t := RemoveBackgroundOutcome(h, imported, req);
      t.response == HttpError(500, InvalidBackgroundColor(ParseBackgroundColor(req.backgroundColor).error))
      && t.call.None?
  {
    if IsAllowedFile(req.file.filename) && WithinSizeLimit(|req.file.content|) {
      TryFacts(Acquire(h, imported).0, req);
    }
  }

  /** Asking for alpha matting never reaches the library and never yields an image. */
  lemma MattingNeverProcessed(h: Handle, imported: Option<Remover>, req: Request)
    requires req.alphaMatting
    ensures var t := RemoveBackgroundOutcome(h, imported, req);
      t.call.None? && t.response.HttpError?
  {
    if IsAllowedFile(req.file.filename) && WithinSizeLimit(|req.file.content|) {
      TryFacts(Acquire(h, imported).0, req);
    }
  }

  /** Past the colour check, asking for alpha matting is answered with 500, not the 400 it is raised with. */
  lemma MattingIsServerError(h: Handle, imported: Option<Remover>, req: Request)
    requires IsAllowedFile(req.file.filename) && WithinSizeLimit(|req.file.content|)
    requires Acquire(h, imported).0.Ok? && ParseBackgroundColor(req.backgroundColor).Ok?
    requires req.alphaMatting
    ensures RemoveBackgroundOutcome(h, imported, req).response == HttpError(500, MattingUnsupported)
  {
    if IsAllowedFile(req.file.filename) && WithinSizeLimit(|req.file.content|) {
      TryFacts(Acquire(h, imported).0, req);
    }
  }

  /**
   * The library is called at most once, with the uploaded bytes, the chosen
   * model's name, matting off, the thresholds and flags as given, and the
   * parsed background colour; and only when every check passed.
   */
  lemma CallArguments(h: Handle, imported: Option<Remover>, req: Request)
    ensures var t := RemoveBackgroundOutcome(h, imported, req);
      t.call.Some? <==>
        IsAllowedFile(req.file.filename) && WithinSizeLimit(|req.file.content|)
        && Acquire(h, imported).0.Ok? && ParseBackgroundColor(req.backgroundColor).Ok?
        && !req.alphaMatting
    ensures var t := RemoveBackgroundOutcome(h, imported, req);
      t.call.Some? ==>
        t.call.value == Tuned(req.file.content, req.model.Value(), false,
                              req.foregroundThreshold, req.backgroundThreshold, req.erodeSize,
                              req.onlyMask, ParseBackgroundColor(req.backgroundColor).value)
  {
    if IsAllowedFile(req.file.filename) && WithinSizeLimit(|req.file.content|) {
      TryFacts(Acquire(h, imported).0, req);
    }
  }

  /**
   * An image comes back exactly when the library was called and answered
   * and the attachment name can be sent; it is the library's answer, under
   * the name `processed_<stem>.png`.
   */
  lemma FullSuccess(h: Handle, imported: Option<Remover>, req: Request)
    ensures var t := RemoveBackgroundOutcome(h, imported, req);
      t.response.Png? <==>
        t.call.Some? && Acquire(h, imported).0.value(t.call.value).Some?
        && IsLatin1(AttachmentName("processed_", req.file.filename))
    ensures var t := RemoveBackgroundOutcome(h, imported, req);
      t.response.Png? ==>
        t.response.body == Acquire(h, imported).0.value(t.call.value).value
        && t.response.attachment == AttachmentName("processed_", req.file.filename)
  {
    if IsAllowedFile(req.file.filename) && WithinSizeLimit(|req.file.content|) {
      TryFacts(Acquire(h, imported).0, req);
    }
  }

  /**
   * The full endpoint answers 200, 400, 413 or 500; 400 and 413 only for
   * the checks outside the `try`, every other failure as 500.
   */
  lemma FullStatuses(h: Handle, imported: Option<Remover>, req: Request)
    ensures var r := RemoveBackgroundOutcome(h, imported, req).response;
      r.Status() in {200, 400, 413, 500}
    ensures var r := RemoveBackgroundOutcome(h, imported, req).response;
      r.HttpError? ==>
        (r.status == 400 <==> r.fault == InvalidFileType)
        && (r.status == 413 <==> r.fault == FileTooLarge)
        && (r.status == 500 <==> r.fault != InvalidFileType && r.fault != FileTooLarge)
    ensures var r := RemoveBackgroundOutcome(h, imported, req).response;
      r.Status() == 400 <==> !IsAllowedFile(req.file.filename)
    ensures var r := RemoveBackgroundOutcome(h, imported, req).response;
      r.Status() == 413 <==> IsAllowedFile(req.file.filename) && !WithinSizeLimit(|req.file.content|)
    ensures var r := RemoveBackgroundOutcome(h, imported, req).response;
      r.Status() == 500 <==> IsAllowedFile(req.file.filename) && WithinSizeLimit(|req.file.content|) && !r.Png?
  {
    if IsAllowedFile(req.file.filename) && WithinSizeLimit(|req.file.content|) {
      TryFacts(Acquire(h, imported).0, req);
    }
  }

  /**
   * A failed import inside the `try` of the full endpoint is answered 500,
   * after the upload was read and without a library call.
   */
  lemma FullImportFailure(h: Handle, req: Request)
    requires h.Uninitialized?
    requires IsAllowedFile(req.file.filename) && WithinSizeLimit(|req.file.content|)
    ensures var t := RemoveBackgroundOutcome(h, None, req);
      t.response == HttpError(500, ImportFailed) && t.uploadRead && t.call.None? && t.handle == h
  {
  }

  /** The request's checks leave the handle as get_remove_function does; a ready handle stays. */
  lemma FullKeepsReadyHandle(h: Handle, imported: Option<Remover>, req: Request)
    requires h.Ready?
    ensures var t := RemoveBackgroundOutcome(h, imported, req);
      t.handle == h && (t.call.Some? ==> t.response == CatchAll(TryRemoveBackground(Ok(h.remover), req).0))
  {
    if IsAllowedFile(req.file.filename) && WithinSizeLimit(|req.file.content|) {
      TryFacts(Acquire(h, imported).0, req);
    }
  }

  // ---------------------------------------------------------------------
  // remove_background_simple

  /** The `try` block of remove_background_simple on its own. */
  lemma SimpleTryFacts(got: Result<Remover, Fault>, file: UploadFile)
    requires got.Err? ==> got.error == ImportFailed
    ensures var r := TryRemoveBackgroundSimple(got, file);
      (r.1 <==> got.Ok?) && (r.2.Some? <==> got.Ok? && WithinSizeLimit(|file.content|))
    ensures var r := TryRemoveBackgroundSimple(got, file);
      r.2.Some? ==> r.2.value == Untuned(file.content, ModelChoice.U2net.Value())
    ensures var r := TryRemoveBackgroundSimple(got, file);
      r.0.Ok? <==> r.2.Some? && got.value(r.2.value).Some? && IsLatin1(AttachmentName("no_bg_", file.filename))
    ensures var r := TryRemoveBackgroundSimple(got, file);
      r.0.Ok? ==> r.0.value == Png(got.value(r.2.value).value, AttachmentName("no_bg_", file.filename))
    ensures var r := TryRemoveBackgroundSimple(got, file);
      r.0.Err? ==>
        (r.0.error.RaisedStatus() != 500 <==> r.0.error == FileTooLarge)
        && (r.2.Some? && got.value(r.2.value).Some? ==> r.0.error == HeaderNotEncodable)
  {
  }

  /** The simple endpoint answers only 200 or 500. */
  lemma SimpleStatuses(h: Handle, imported: Option<Remover>, file: UploadFile)
    ensures RemoveBackgroundSimpleOutcome(h, imported, file).response.Status() in {200, 500}
  {
    SimpleTryFacts(Acquire(h, imported).0, file);
  }

  /**
   * It looks the library up before anything else: a failed import is a
   * 500 without the upload being read.
   */
  lemma SimpleImportFailure(h: Handle, file: UploadFile)
    requires h.Uninitialized?
    ensures var t := RemoveBackgroundSimpleOutcome(h, None, file);
      t.response == HttpError(500, ImportFailed) && !t.uploadRead && t.call.None? && t.handle == h
  {
    SimpleTryFacts(Acquire(h, None).0, file);
  }

  /**
   * An oversized upload is refused with 413 inside the `try`, so the
   * client sees 500; the library was looked up and the upload read first.
   */
  lemma SimpleOversizeIsServerError(h: Handle, imported: Option<Remover>, file: UploadFile)
    requires Acquire(h, imported).0.Ok?
    requires |file.content| > MaxFileSize
    ensures var t := RemoveBackgroundSimpleOutcome(h, imported, file);
      t.response == HttpError(500, FileTooLarge) && t.uploadRead && t.call.None? && t.handle.Ready?
  {
    SimpleTryFacts(Acquire(h, imported).0, file);
  }

  /**
   * The simple endpoint does not look at the file name at all: any name,
   * allowed or not, and any size up to the limit, goes to the library with
   * the general model and its defaults; the answer is named `no_bg_<stem>.png`.
   */
  lemma SimpleSuccess(h: Handle, imported: Option<Remover>, file: UploadFile)
    ensures var t := RemoveBackgroundSimpleOutcome(h, imported, file);
      t.call.Some? <==> Acquire(h, imported).0.Ok? && WithinSizeLimit(|file.content|)
    ensures var t := RemoveBackgroundSimpleOutcome(h, imported, file);
      t.call.Some? ==> t.call.value == Untuned(file.content, ModelChoice.U2net.Value())
    ensures var t := RemoveBackgroundSimpleOutcome(h, imported, file);
      t.response.Png? <==>
        t.call.Some? && Acquire(h, imported).0.value(t.call.value).Some?
        && IsLatin1(AttachmentName("no_bg_", file.filename))
    ensures var t := RemoveBackgroundSimpleOutcome(h, imported, file);
      t.response.Png? ==>
        t.response.body == Acquire(h, imported).0.value(t.call.value).value
        && t.response.attachment == AttachmentName("no_bg_", file.filename)
  {
    SimpleTryFacts(Acquire(h, imported).0, file);
  }

  /**
   * On the same upload and the same ready library answering, the two
   * endpoints disagree only in the attachment's prefix when the full one
   * is asked for the general model and the library's defaults.
   */
  lemma EndpointsAgreeOnDefaults(remover: Remover, file: UploadFile, fg: int, bg: int, erode: int)
    requires IsAllowedFile(file.filename) && WithinSizeLimit(|file.content|)
    requires remover(Tuned(file.content, "u2net", false, fg, bg, erode, false, None))
          == remover(Untuned(file.content, "u2net"))
    ensures var full := RemoveBackgroundOutcome(Ready(remover), None, Request(file, U2net, false, fg, bg, erode, false, None));
      var simple := RemoveBackgroundSimpleOutcome(Ready(remover), None, file);
      full.response.Status() == simple.response.Status()
      && full.response.Png? == simple.response.Png?
      && (full.response.Png? && simple.response.Png? ==>
            full.response.body == simple.response.body
            && full.response.attachment == AttachmentName("processed_", file.filename)
            && simple.response.attachment == AttachmentName("no_bg_", file.filename))
  {
    PrefixesLatin1();
    AttachmentLatin1("processed_", file.filename);
    AttachmentLatin1("no_bg_", file.filename);
    TryFacts(Ok(remover), Request(file, U2net, false, fg, bg, erode, false, None));
    SimpleTryFacts(Ok(remover), file);
  }

  lemma PrefixesLatin1()
    ensures IsLatin1("processed_") && IsLatin1("no_bg_")
  {
    assert "processed_" == ['p', 'r', 'o', 'c', 'e', 's', 's', 'e', 'd', '_'];
    assert "no_bg_" == ['n', 'o', '_', 'b', 'g', '_'];
  }

  // ---------------------------------------------------------------------
  // both endpoints

  /**
   * A stem outside Latin-1 cannot go into the `Content-Disposition` header:
   * once the library has answered, the full endpoint raises while building
   * the response, and the client gets 500 instead of the image.
   */
  lemma UnsendableNameIsServerError(h: Handle, imported: Option<Remover>, req: Request)
    requires !IsLatin1(Stem(req.file.filename))
    ensures var t := RemoveBackgroundOutcome(h, imported, req);
      t.call.Some? && Acquire(h, imported).0.value(t.call.value).Some? ==>
        t.response == HttpError(500, HeaderNotEncodable)
  {
    PrefixesLatin1();
    AttachmentLatin1("processed_", req.file.filename);
    if IsAllowedFile(req.file.filename) && WithinSizeLimit(|req.file.content|) {
      TryFacts(Acquire(h, imported).0, req);
    }
  }

  /** The same holds for the simple endpoint. */
  lemma SimpleUnsendableNameIsServerError(h: Handle, imported: Option<Remover>, file: UploadFile)
    requires !IsLatin1(Stem(file.filename))
    ensures var t := RemoveBackgroundSimpleOutcome(h, imported, file);
      t.call.Some? && Acquire(h, imported).0.value(t.call.value).Some? ==>
        t.response == HttpError(500, HeaderNotEncodable)
  {
    PrefixesLatin1();
    AttachmentLatin1("no_bg_", file.filename);
    assert !IsLatin1(AttachmentName("no_bg_", file.filename));
    var t := RemoveBackgroundSimpleOutcome(h, imported, file);
    if t.call.Some? {
      assert Acquire(h, imported).0.Ok?;
    }
  }

  /**
   * The status an exception is raised with reaches the client unless the
   * `try` catches it: in the full endpoint exactly the colour and matting
   * errors, raised as 400, are answered with another status (500).
   */
  lemma RaisedStatusLost(h: Handle, imported: Option<Remover>, req: Request)
    ensures var r := RemoveBackgroundOutcome(h, imported, req).response;
      r.HttpError? ==>
        (r.status != r.fault.RaisedStatus() <==> r.fault.InvalidBackgroundColor? || r.fault.MattingUnsupported?)
  {
    if IsAllowedFile(req.file.filename) && WithinSizeLimit(|req.file.content|) {
      TryFacts(Acquire(h, imported).0, req);
    }
  }

  /** In the simple endpoint the one status lost is the 413 of the size check. */
  lemma SimpleRaisedStatusLost(h: Handle, imported: Option<Remover>, file: UploadFile)
    ensures var r := RemoveBackgroundSimpleOutcome(h, imported, file).response;
      r.HttpError? ==> (r.status != r.fault.RaisedStatus() <==> r.fault == FileTooLarge)
  {
    SimpleTryFacts(Acquire(h, imported).0, file);
  }
}
