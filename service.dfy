/**
 * The running application: the module-global `remove` that
 * `get_remove_function` fills in on first use, and the handlers, written
 * step by step as main.py runs them. Each handler is proved to answer what
 * the matching function of `Endpoints` describes.
 */
module Service {
  import opened Wrappers
  import opened Colour
  import opened FileChecks
  import opened Removal
  import opened Endpoints

  class App {
    /** The global `remove`: unset until the library's import succeeded. */
    var remove: Handle
    /** How many times the import of the library has been attempted. */
    ghost var importAttempts: nat

    /** The process at start-up: `remove = None`. */
    constructor()
      ensures remove == Uninitialized && importAttempts == 0
    {
      remove := Uninitialized;
      importAttempts := 0;
    }

    /**
     * `get_remove_function`. `imported` is what the import yields if it is
     * attempted (`None`: it raises). The import is attempted only while the
     * global is unset.
     */
    method GetRemoveFunction(imported: Option<Remover>) returns (r: Result<Remover, Fault>)
      modifies this
      ensures (r, remove) == Acquire(old(remove), imported)
      ensures importAttempts == old(importAttempts) + (if old(remove).Uninitialized? then 1 else 0)
    {
      if remove.Uninitialized? {
        importAttempts := importAttempts + 1;
        match imported {
          case None =>
            return Err(ImportFailed);
          case Some(f) =>
            remove := Ready(f);
        }
      }
      r := Ok(remove.remover);
    }

    /** `health_check`: 200 when the remove function can be had, 503 otherwise. */
    method HealthCheck(imported: Option<Remover>) returns (status: nat)
      modifies this
      ensures (status, remove) == HealthOutcome(old(remove), imported)
      ensures importAttempts == old(importAttempts) + (if old(remove).Uninitialized? then 1 else 0)
    {
      var got := GetRemoveFunction(imported);
      if got.Ok? {
        status := 200;
      } else {
        status := 503;
      }
    }

    /**
     * `remove_background`: the extension and size checks, then, inside the
     * `try`, the remove function, the colour, the matting gate and the
     * library call; anything raised inside the `try` becomes a 500.
     */
    method RemoveBackground(req: Request, imported: Option<Remover>)
      returns (response: Response, uploadRead: bool, call: Option<RemoveCall>)
      modifies this
      ensures Outcome(response, uploadRead, call, remove) == RemoveBackgroundOutcome(old(remove), imported, req)
      ensures importAttempts == old(importAttempts) +
        (if old(remove).Uninitialized? && IsAllowedFile(req.file.filename) && WithinSizeLimit(|req.file.content|) then 1 else 0)
    {
      var fileExt := FileExtension(req.file.filename);
      if fileExt !in AllowedExtensions {
        return HttpError(400, InvalidFileType), false, None;
      }
      var imageData := req.file.content;
      uploadRead := true;
      if |imageData| > MaxFileSize {
        return HttpError(413, FileTooLarge), true, None;
      }

      call := None;
      var raised: Option<Fault> := None;
      var processed: seq<byte> := [];
      var got := GetRemoveFunction(imported);
      if got.Err? {
        raised := Some(got.error);
      } else {
        var removeFunc := got.value;
        var bgColor := ParseBackgroundColor(req.backgroundColor);
        if bgColor.Err? {
          raised := Some(InvalidBackgroundColor(bgColor.error));
        } else if req.alphaMatting {
          raised := Some(MattingUnsupported);
        } else {
          var args := Tuned(imageData, req.model.Value(), false,
                            req.foregroundThreshold, req.backgroundThreshold, req.erodeSize,
                            req.onlyMask, bgColor.value);
          call := Some(args);
          var answer := removeFunc(args);
          if answer.None? {
            raised := Some(RemovalFailed);
          } else {
            processed := answer.value;
          }
        }
      }

      if raised.None? {
        // building the response encodes the Content-Disposition header as Latin-1
        var name := AttachmentName("processed_", req.file.filename);
        if IsLatin1(name) {
          return Png(processed, name), uploadRead, call;
        }
        raised := Some(HeaderNotEncodable);
      }
      response := HttpError(500, raised.value);
    }

    /**
     * `remove_background_simple`: everything inside the `try`: the remove
     * function, the upload, the size check and the library call with the
     * general model; anything raised becomes a 500.
     */
    method RemoveBackgroundSimple(file: UploadFile, imported: Option<Remover>)
      returns (response: Response, uploadRead: bool, call: Option<RemoveCall>)
      modifies this
      ensures Outcome(response, uploadRead, call, remove) == RemoveBackgroundSimpleOutcome(old(remove), imported, file)
      ensures importAttempts == old(importAttempts) + (if old(remove).Uninitialized? then 1 else 0)
    {
      uploadRead := false;
      call := None;
      var raised: Option<Fault> := None;
      var processed: seq<byte> := [];
      var got := GetRemoveFunction(imported);
      if got.Err? {
        raised := Some(got.error);
      } else {
        var removeFunc := got.value;
        var imageData := file.content;
        uploadRead := true;
        if |imageData| > MaxFileSize {
          raised := Some(FileTooLarge);
        } else {
          var args := Untuned(imageData, "u2net");
          call := Some(args);
          var answer := removeFunc(args);
          if answer.None? {
            raised := Some(RemovalFailed);
          } else {
            processed := answer.value;
          }
        }
      }

      if raised.None? {
        // building the response encodes the Content-Disposition header as Latin-1
        var name := AttachmentName("no_bg_", file.filename);
        if IsLatin1(name) {
          return Png(processed, name), uploadRead, call;
        }
        raised := Some(HeaderNotEncodable);
      }
      response := HttpError(500, raised.value);
    }
  }
}
