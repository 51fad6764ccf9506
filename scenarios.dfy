/**
 * Particular requests worked through the model: what the handlers of
 * main.py answer for particular extensions, colours and flags, whatever
 * the rest of the file name is.
 */
module Scenarios {
  import opened Wrappers
  import opened PyStr
  import opened PyInt
  import opened Colour
  import opened FileChecks
  import opened Removal
  import opened Endpoints

  lemma LowerLiterals()
    ensures Lower(".PNG") == ".png"
    ensures Lower(".jpg") == ".jpg"
  {
    assert Lower(".PNG")[1] == 'p' && Lower(".PNG")[2] == 'n' && Lower(".PNG")[3] == 'g';
    assert Lower(".jpg")[1] == 'j' && Lower(".jpg")[2] == 'p' && Lower(".jpg")[3] == 'g';
  }

  lemma RefusedLiterals()
    ensures Lower(".txt") == ".txt" && ".txt" !in AllowedExtensions
    ensures Lower(".gz") == ".gz" && ".gz" !in AllowedExtensions
  {
    assert Lower(".txt")[1] == 't' && Lower(".txt")[2] == 'x' && Lower(".txt")[3] == 't';
    assert ".txt"[1] != ".jpg"[1] && ".txt"[1] != ".png"[1];
    assert Lower(".gz")[1] == 'g' && Lower(".gz")[2] == 'z';
  }

  /** The extension is compared lower-cased: "PNG" is allowed. */
  lemma UpperCaseExtensionAllowed(stem: string)
    ensures FileExtension(stem + ".PNG") == ".png"
    ensures IsAllowedFile(stem + ".PNG")
  {
    NameParts(stem, ".PNG");
    LowerLiterals();
  }

  /** Only the last extension counts: a compressed image is refused. */
  lemma DoubleExtensionUsesLast(stem: string)
    ensures FileExtension(stem + ".png.gz") == ".gz"
    ensures !IsAllowedFile(stem + ".png.gz")
  {
    assert stem + ".png.gz" == (stem + ".png") + ".gz";
    NameParts(stem + ".png", ".gz");
    RefusedLiterals();
  }

  /** A text file is refused with 400 and not read. */
  lemma TextFileRejected(h: Handle, imported: Option<Remover>, req: Request, stem: string)
    requires req.file.filename == stem + ".txt"
    ensures var t := RemoveBackgroundOutcome(h, imported, req);
      t.response == HttpError(400, InvalidFileType) && !t.uploadRead
  {
    NameParts(stem, ".txt");
    RefusedLiterals();
  }

  /** A JPEG name is allowed, and its stem is everything before ".jpg". */
  lemma JpegName(stem: string)
    ensures IsAllowedFile(stem + ".jpg")
    ensures Stem(stem + ".jpg") == stem
  {
    NameParts(stem, ".jpg");
    LowerLiterals();
  }

  /** An 11 MiB JPEG is refused with 413 by the full endpoint, without the library being looked up. */
  lemma BigJpegTooLarge(h: Handle, imported: Option<Remover>, req: Request, stem: string)
    requires req.file.filename == stem + ".jpg" && |req.file.content| == 11 * 1024 * 1024
    ensures var t := RemoveBackgroundOutcome(h, imported, req);
      t.response == HttpError(413, FileTooLarge) && t.call.None? && t.handle == h
  {
    JpegName(stem);
  }

  /** The attachment keeps everything before the last dot, dots included. */
  lemma AttachmentKeepsInnerDots(stem: string)
    ensures AttachmentName("processed_", stem + ".jpg") == "processed_" + stem + ".png"
  {
    JpegName(stem);
  }

  /** "255,0,0" is pure red. */
  lemma RedParses()
    ensures ParseBackgroundColor(Some("255,0,0")) == Ok(Some(Rgb(255, 0, 0)))
  {
    assert FormatColour(Rgb(255, 0, 0)) == "255,0,0";
    ColourRoundTrip(Rgb(255, 0, 0));
  }

  /**
   * A JPEG with a background colour written "R,G,B": the library gets the
   * chosen model, matting off and that colour, and the answer is named
   * `processed_<stem>.png`.
   */
  lemma ColourRequest(remover: Remover, stem: string, content: seq<byte>, model: ModelChoice, c: Rgb)
    requires IsLatin1(stem) && |content| <= MaxFileSize
    requires InChannelRange(c.r) && InChannelRange(c.g) && InChannelRange(c.b)
    requires remover(Tuned(content, model.Value(), false, 240, 10, 10, false, Some(c))).Some?
    ensures var req := Request(UploadFile(stem + ".jpg", content), model, false, 240, 10, 10, false, Some(FormatColour(c)));
      var t := RemoveBackgroundOutcome(Ready(remover), None, req);
      t.response.Png? && t.response.attachment == "processed_" + stem + ".png"
      && t.call == Some(Tuned(content, model.Value(), false, 240, 10, 10, false, Some(c)))
  {
    JpegName(stem);
    ColourRoundTrip(c);
    var req := Request(UploadFile(stem + ".jpg", content), model, false, 240, 10, 10, false, Some(FormatColour(c)));
    PrefixesLatin1();
    AttachmentLatin1("processed_", stem + ".jpg");
    CallArguments(Ready(remover), None, req);
    FullSuccess(Ready(remover), None, req);
  }

  /** The usual way of writing a colour, a space after each comma, is accepted. */
  lemma SpaceAfterCommaAccepted()
    ensures ParseBackgroundColor(Some("255, 0, 0")) == Ok(Some(Rgb(255, 0, 0)))
  {
    var pads := ["", "", " ", "", " ", ""];
    assert IsPad(" ") && IsPad("");
    assert Padded("", 255, "") + "," + Padded(" ", 0, "") + "," + Padded(" ", 0, "") == "255, 0, 0";
    PaddedColourAccepted(Rgb(255, 0, 0), pads);
  }

  /** "300,0,0" has a channel above 255. */
  lemma OutOfRangeRejected()
    ensures ParseBackgroundColor(Some("300,0,0")) == Err(NotThreeChannels)
  {
    assert Decimal(300) + "," + Decimal(0) + "," + Decimal(0) == "300,0,0";
    NumeralsOutOfRange(300, 0, 0);
  }

  /** A colour name is no integer: "red" is refused as such. */
  lemma ColourNameRejected()
    ensures ParseBackgroundColor(Some("red")) == Err(NotAnInteger)
  {
    SplitAbsent("red", ',');
    StripTrimmed("red");
    assert !IsDigit("red"[2]);
    assert PieceValue("red") == None;
  }

  /** A channel above 255 is a colour error, which the client sees as 500. */
  lemma OutOfRangeColourIsServerError(remover: Remover, stem: string, content: seq<byte>)
    requires |content| <= MaxFileSize
    ensures var req := Request(UploadFile(stem + ".jpg", content), U2net, false, 240, 10, 10, false, Some("300,0,0"));
      RemoveBackgroundOutcome(Ready(remover), None, req).response == HttpError(500, InvalidBackgroundColor(NotThreeChannels))
  {
    JpegName(stem);
    OutOfRangeRejected();
  }

  /**
   * The simple endpoint names its answer `no_bg_<stem>.png` whatever the
   * extension was, allowed or not.
   */
  lemma SimpleNamesResult(remover: Remover, stem: string, ext: string, content: seq<byte>)
    requires |ext| > 0 && ext[0] == '.' && '.' !in ext[1..]
    requires IsLatin1(stem) && |content| <= MaxFileSize
    requires remover(Untuned(content, "u2net")).Some?
    ensures var t := RemoveBackgroundSimpleOutcome(Ready(remover), None, UploadFile(stem + ext, content));
      t.response.Png? && t.response.attachment == "no_bg_" + stem + ".png"
  {
    NameParts(stem, ext);
    PrefixesLatin1();
    AttachmentLatin1("no_bg_", stem + ext);
  }
}
