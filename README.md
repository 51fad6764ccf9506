# Background Remover API — a Dafny model of its request handling

The Background Remover API is a small FastAPI service (`main.py`). It
accepts an uploaded image and hands it to the `backgroundremover` library.
It returns the resulting PNG as an attachment. This project models the
decisions the service makes around that library call:

- which file names it accepts: an allow-list of extensions, compared in
  lower case after the last dot;
- the 10 MiB size limit;
- how it parses the optional `background_color` text "R,G,B";
- how it names the returned attachment: `processed_<stem>.png` or
  `no_bg_<stem>.png`;
- the lazily imported, process-wide `remove` function;
- which status each request ends in (200, 400, 413, 500, 503), and in what
  order the checks run;
- which of those checks sit inside the `try` whose `except Exception`
  turns everything into a 500.

The library's `remove` is not opened up. It is an abstract function from
the call's arguments to either PNG bytes or a failure. The outcome of the
lazy import is an input as well.

Modules, one file each:

- `wrappers.dfy` (`Wrappers`): `Option` and `Result`.
- `pystr.dfy` (`PyStr`): the Python string operations the handlers use.
  These are `split` on one character, `[-1]`, `rsplit(sep, 1)[0]`,
  `lower` and `strip`.
- `pyint.dfy` (`PyInt`): `int()` on a stripped decimal text. It takes an
  optional sign and single underscores between digits.
- `colour.dfy` (`Colour`): the `background_color` parser and what it
  accepts.
- `filechecks.dfy` (`FileChecks`): the extension, the allow-list, the size
  limit and the attachment name.
- `removal.dfy` (`Removal`): `ModelChoice`, the library call, the faults a
  request can end in, and `get_remove_function` as a transition of the
  global handle.
- `endpoints.dfy` (`Endpoints`): each handler as a function from the
  request, the handle and the outside world to its outcome. The outcome is
  the response, whether the upload was read, the library call made and the
  new handle. Lemmas about these functions follow.
- `scenarios.dfy` (`Scenarios`): particular names, colours and sizes
  worked through those functions.
- `service.dfy` (`Service`): class `App`, which holds the global `remove`.
  Its handler methods run step by step as `main.py` does. Each is proved
  to produce exactly the outcome the matching `Endpoints` function
  describes.

Three `HTTPException`s are raised inside a `try` whose
`except Exception` answers 500. The status they carry never reaches the
client:

- the 400 for a `background_color` that does not parse (`main.py:203`);
- the 400 for `alpha_matting=true` (`main.py:210`);
- the 413 for an oversized upload to `/remove-background-simple`
  (`main.py:259`).

The client gets 500 for each of them (`BadColourIsServerError`,
`MattingIsServerError`, `SimpleOversizeIsServerError`). `RaisedStatusLost`
and `SimpleRaisedStatusLost` state that these are the only faults whose
raised status differs from the one answered. The 413 of the full
endpoint's size check (`main.py:183`) is raised before its `try`, and it
reaches the client.

The `StreamingResponse` is also built inside the `try`. Its
`Content-Disposition` header is encoded as Latin-1. A file name whose stem
holds a character above U+00FF therefore raises `UnicodeEncodeError` after
the library has run, and the client gets 500 (`UnsendableNameIsServerError`,
`SimpleUnsendableNameIsServerError`).

`/remove-background-simple` looks up the library before it reads the
upload. It checks no extension at all.

## Model

| member | source | states |
|---|---|---|
| FileChecks.IsAllowedFile | main.py:167-170 | an allowed name has a dot |
| FileChecks.AllowedExtensionOf | main.py:167-170 | a name is allowed exactly when it has a dot and the text after the last dot, lower-cased, is jpg, jpeg, png, heic or heif |
| FileChecks.WithinSizeLimit | main.py:181 | an upload fits exactly when it has at most 10485760 bytes |
| FileChecks.Stem | main.py:232 | the stem is the whole name when it has no dot, and the text before the last dot otherwise |
| FileChecks.AttachmentName | main.py:232 | the attachment name is the prefix, the stem and ".png" |
| FileChecks.AttachmentLatin1 | main.py:228-234 | after a Latin-1 prefix, the attachment name can be encoded as Latin-1 exactly when the stem can |
| FileChecks.FileExtension | main.py:168 | no dot gives the empty extension; otherwise a dot followed by the lower-cased text after the last dot |
| FileChecks.StemThenExtension | main.py:168 | the lower-cased name is the lower-cased attachment stem followed by the checked extension |
| FileChecks.ExtensionIgnoresCase | main.py:168 | two names that lower-case alike get the same extension, so the allow-list ignores case |
| FileChecks.NameParts | main.py:168-170 | for a stem followed by a final extension, the checked extension is that extension lower-cased and the attachment stem is the stem |
| PyStr.Split | main.py:198 | `split` on one character yields at least one piece |
| PyStr.SplitCount | main.py:198 | a split has one more piece than the text has separators |
| PyStr.SplitPiecesLackSep | main.py:198 | no piece holds the separator |
| PyStr.JoinSplit | main.py:198 | joining the pieces with the separator gives the text back |
| PyStr.Lower | main.py:168 | lower-casing keeps the length |
| PyStr.LowerMeaning | main.py:168 | no capital ASCII letter is left; every other character is kept; each capital becomes its small letter |
| PyStr.LowerIdempotent | main.py:168 | lower-casing twice is lower-casing once |
| PyStr.SplitLastFollowsLastSep | main.py:168 | `split('.')[-1]` is the text after the last dot |
| PyStr.BeforeLast | main.py:232 | `rsplit('.', 1)[0]`: the whole name when it has no dot; otherwise the text before the last dot, with no dot after it |
| PyStr.Strip | main.py:198 | the stripped piece neither starts nor ends with white space |
| PyStr.StripTrimmed | main.py:198 | a piece with no white space at either end is left unchanged |
| PyStr.StripPadded | main.py:198 | `strip` removes white-space padding at both ends and nothing else |
| PyStr.StripAllSpace | main.py:198 | a piece of white space only, the empty piece included, strips to the empty text |
| PyInt.ParseDigits | main.py:198 | an accepted digit text starts and ends with a digit and holds only digits and underscores, each underscore followed by a digit |
| PyInt.ParseDigitsMeaning | main.py:198 | a digit text is accepted exactly when it is well formed (digits, single underscores between digits), and its value is that of its digits read in base 10 |
| PyInt.ParseInt | main.py:198 | an accepted integer text ends with a digit; a negative value needs a leading minus |
| PyInt.ParseIntMeaning | main.py:198 | `int()` accepts a text exactly when it is a well-formed digit text, with or without one leading sign; an unsigned one has the value of its digits |
| PyInt.ParseIntSigned | main.py:198 | `+` followed by a digit text gives its value and `-` its negation, or both fail when the digit text is malformed |
| PyInt.IntSpellings | main.py:198 | leading zeros, a plus sign and an underscore are accepted: "007" is 7, "+7" is 7, "1_0" is 10 |
| PyInt.ParseDecimal | main.py:198 | the decimal numeral of every natural number parses back to that number |
| PyInt.ParseIntDecimal | main.py:198 | `int(str(n)) == n`, and `int("-" + str(n)) == -n` |
| Colour.Collect | main.py:198 | `tuple(...)` succeeds exactly when every item did, and holds their values in order |
| Colour.CollectChecksTriple | main.py:199-201 | the length-and-range check on the collected values is exactly "three items, each an integer in [0, 255]" |
| Colour.ParseBackgroundColor | main.py:195-206 | an absent or empty text means no colour; otherwise it is accepted exactly when it is three comma-separated integers in [0, 255], which give the colour in order; it fails as not-an-integer exactly when some piece is not an integer |
| Colour.ColourRoundTrip | main.py:195-201 | every colour in range written as "R,G,B" parses back to itself |
| Colour.PaddedColourAccepted | main.py:198 | any white space before and after each of the three channels, as in "255, 0, 0", gives the same colour as the bare "R,G,B" |
| Colour.BlankPieceIsNoInteger | main.py:198 | a piece of white space only is not an integer |
| Colour.BlankChannelRejected | main.py:198 | a blank channel between two commas, as in "1,,2" or "1, ,2", is refused as not an integer |
| Colour.NumeralsOutOfRange | main.py:199-200 | three integers of which one is above 255 are refused for the range, not as non-integers |
| Removal.ModelFromValue | main.py:77-80 | a model name maps to the `ModelChoice` with that value, and there is none for any other name |
| Removal.ModelValueRoundTrip | main.py:77-80 | every model is found again from its value |
| Removal.Acquire | main.py:29-40 | the function is returned exactly when the handle ends up set, and it is the one held; a set handle is kept; an unset handle is set exactly when the import succeeds; a failed import leaves the handle unset |
| Removal.ReadyIsFinal | main.py:31-34 | once set, the handle stays set to the same function whatever follows |
| Removal.FirstImportWins | main.py:29-40 | after a series of calls from an unset handle, the handle holds the first import that succeeded, or stays unset if none did |
| Endpoints.CatchAll | main.py:236-241 | a result of the `try` passes through; every exception becomes 500, keeping its cause |
| Endpoints.RemoveBackgroundOutcome | main.py:166-241 | the upload is read exactly when the extension is allowed; the handle changes as `get_remove_function` changes it when both checks before the `try` pass, and not otherwise |
| Endpoints.RemoveBackgroundSimpleOutcome | main.py:252-280 | the upload is read exactly when the library could be had; the handle always changes as `get_remove_function` changes it |
| Endpoints.TryFacts | main.py:190-241 | inside the `try`: the library is called exactly when it is at hand, the colour parses and matting is off, with the request's arguments; the result is an image exactly when it answered and the name is Latin-1; only the colour and matting faults carry a raised status other than 500 |
| Endpoints.SimpleTryFacts | main.py:252-280 | inside the `try`: the upload is read exactly when the library is at hand; it is called exactly when the size also fits, with the general model only; the result is an image exactly when it answered and the name is Latin-1; only the size fault carries a raised status other than 500 |
| Endpoints.HealthOutcome | main.py:96-113 | health answers 200 exactly when the handle ends up set and 503 otherwise, probing the import as `get_remove_function` does |
| Endpoints.DisallowedExtensionRejected | main.py:167-175 | a disallowed extension gives 400; the upload is not read, the library not called, the handle unchanged |
| Endpoints.DotlessNameRejected | main.py:168-175 | a name without a dot gives 400 |
| Endpoints.OversizeRejected | main.py:178-186 | an allowed upload over 10 MiB gives 413, after it is read, without the library being looked up or called |
| Endpoints.SizeLimitInclusive | main.py:181 | an allowed upload of at most 10 MiB, exactly 10 MiB included, never gives 413 and reaches `get_remove_function` |
| Endpoints.BadColourIsServerError | main.py:202-206 | once the library is at hand, a colour that does not parse gives 500 with the colour error, and the library is not called |
| Endpoints.MattingNeverProcessed | main.py:209-213 | asking for alpha matting never calls the library and never yields an image |
| Endpoints.MattingIsServerError | main.py:209-213 | past the colour check, alpha matting gives 500 |
| Endpoints.CallArguments | main.py:216-225 | the library is called exactly when every check passed, with the upload, the model's value, matting off, the thresholds and mask flag as given and the parsed colour |
| Endpoints.FullSuccess | main.py:216-234 | an image comes back exactly when the library was called, it answered and the attachment name is Latin-1; it is the library's answer, named `processed_<stem>.png` |
| Endpoints.FullStatuses | main.py:166-241 | the full endpoint answers only 200, 400, 413 or 500: 400 exactly when the extension is not allowed, 413 exactly when an allowed upload is over the limit, 500 exactly when an allowed upload within the limit yields no image |
| Endpoints.FullImportFailure | main.py:190-192 | with the global unset, a failed import on an allowed upload within the limit gives 500, after the upload was read and without a library call |
| Endpoints.FullKeepsReadyHandle | main.py:192 | a set handle stays as it is through a request |
| Endpoints.SimpleStatuses | main.py:252-280 | the simple endpoint answers only 200 or 500 |
| Endpoints.SimpleImportFailure | main.py:253 | a failed import gives 500 before the upload is read |
| Endpoints.SimpleOversizeIsServerError | main.py:257-262 | an oversized upload gives 500, not 413, after the library was looked up and the upload read |
| Endpoints.SimpleSuccess | main.py:264-273 | the simple endpoint calls the library exactly when the import is at hand and the size fits, whatever the name, with the general model and the library's defaults; an image comes back exactly when the library answered and the attachment name is Latin-1; it is named `no_bg_<stem>.png` |
| Endpoints.UnsendableNameIsServerError | main.py:228-234 | a stem outside Latin-1 turns an answer of the library into 500 |
| Endpoints.SimpleUnsendableNameIsServerError | main.py:267-273 | the same for the simple endpoint |
| Endpoints.RaisedStatusLost | main.py:203-213 | an error answer carries a status other than the one raised exactly for the colour and the matting faults |
| Endpoints.SimpleRaisedStatusLost | main.py:259-262 | in the simple endpoint, exactly the size fault loses its raised status |
| Endpoints.EndpointsAgreeOnDefaults | main.py:265 | when the library treats the explicit defaults like its own, the two endpoints give the same status and image, and differ only in the name prefix |
| Scenarios.UpperCaseExtensionAllowed | main.py:168-170 | "<stem>.PNG" has extension ".png" and is allowed |
| Scenarios.DoubleExtensionUsesLast | main.py:168-170 | "<stem>.png.gz" has extension ".gz" and is refused |
| Scenarios.TextFileRejected | main.py:170-175 | "<stem>.txt" gives 400 without the upload being read |
| Scenarios.BigJpegTooLarge | main.py:181-186 | an 11 MiB "<stem>.jpg" gives 413 without the library being called |
| Scenarios.AttachmentKeepsInnerDots | main.py:232 | "<stem>.jpg" is answered as "processed_<stem>.png", dots in the stem kept |
| Scenarios.RedParses | main.py:198-201 | "255,0,0" is the colour (255, 0, 0) |
| Scenarios.SpaceAfterCommaAccepted | main.py:198 | "255, 0, 0" is the colour (255, 0, 0) |
| Scenarios.ColourRequest | main.py:216-234 | a JPEG with a Latin-1 stem and colour "R,G,B" reaches the library with the chosen model, matting off and that colour, and is answered as `processed_<stem>.png` |
| Scenarios.OutOfRangeRejected | main.py:199-200 | "300,0,0" is refused for its range |
| Scenarios.ColourNameRejected | main.py:198 | "red" is refused as not an integer |
| Scenarios.OutOfRangeColourIsServerError | main.py:202-206 | a JPEG with colour "300,0,0" gives 500 |
| Scenarios.SimpleNamesResult | main.py:267-273 | the simple endpoint answers "<stem><ext>" with a Latin-1 stem with "no_bg_<stem>.png" for any final extension |
| Service.App.constructor | main.py:27 | the process starts with `remove` unset and no import attempted |
| Service.App.GetRemoveFunction | main.py:29-40 | the result and the new global are those of `Acquire`; an import is attempted exactly when the global was unset |
| Service.App.HealthCheck | main.py:96-113 | the status and the new global are those of `HealthOutcome` |
| Service.App.RemoveBackground | main.py:166-241 | the response, the read flag, the library call and the new global are those of `RemoveBackgroundOutcome`; one import is attempted exactly when the global was unset and both checks before the `try` passed, none otherwise |
| Service.App.RemoveBackgroundSimple | main.py:252-280 | the response, the read flag, the library call and the new global are those of `RemoveBackgroundSimpleOutcome`; one import is attempted exactly when the global was unset |

## Left out

- The `/` endpoint (`main.py:83-93`) returns a constant JSON document. It has no logic.
- The CORS middleware, the commented-out trusted-host middleware, `uvicorn.run` and the application object are framework setup.
- The timing middleware (`main.py:67-74`) reads the wall clock and only adds a header and a log line.
- Logging is left out, and so are the megabyte figures computed for log and error messages.
- The JSON bodies are left out: the health payload, including `sys.version`, and the `detail` texts of errors. A response carries its status and a typed cause instead.
- FastAPI's request validation happens before a handler runs: the `ge`/`le` bounds of the thresholds, the `ModelChoice` enum and a missing file all give 422. A `Request` here is already well typed, and the handler passes the thresholds through unchanged.
- An `UploadFile` without a file name (`filename` of `None`) is left out; names are always text here.
- `await file.read()` is I/O. Its bytes are part of the request, and the model records only whether the handler read them.
- The handlers are `async`, but `get_remove_function` is synchronous: between its test of the global (`main.py:31`) and its assignment (`main.py:34`) there is no `await`. Requests interleave only at `await file.read()`, and each touches the global in one synchronous step. Running requests one at a time therefore loses no interleaving. Several worker processes would each hold their own global; that deployment is not part of this model.
- The `backgroundremover` library is an abstract function. Every exception it raises is one failure, `RemovalFailed`. The import's error text is not modelled.
- PyInt.ParseInt: accepts ASCII digits only. Python's `int()` also takes other Unicode decimal digits, so "٢٥٥,٠,٠" is the colour (255, 0, 0) in Python and gives 200, while here it is not an integer and gives 500 without a library call.
- PyInt.ParseInt: does not model the limit CPython puts on the number of digits `int()` converts (4300 by default, leading zeros counted; configurable; added in Python 3.11 and in the 3.10.7, 3.9.14, 3.8.14 and 3.7.14 security releases, absent in older versions). A zero-padded channel longer than the limit, such as 5000 zeros followed by "255", raises `ValueError` in CPython and gives 500; here it is accepted as 255 and the library is called.
- PyStr.Lower: maps ASCII letters only. `str.lower` maps other letters too. Among non-ASCII code points, only U+0130 and U+212A lower to text containing ASCII letters. Neither can complete an allowed extension, so the allow-list decision is the same.
