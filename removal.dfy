/**
 * The boundary between the handlers of main.py and the background-removal
 * library: the model names, the arguments of one call of the library's
 * `remove`, the exceptions a request can end in, and the process-wide
 * handle that `get_remove_function` fills in on first use.
 */
module Removal {
  import opened Wrappers
  import opened Colour

  newtype byte = x: int | 0 <= x < 256

  /** `ModelChoice`: the three models a client may choose. */
  datatype ModelChoice = U2net | U2netHumanSeg | U2netp
  {
    /** `model.value`, the name handed to the library. */
    function Value(): string
    {
      match this
      case U2net => "u2net"
      case U2netHumanSeg => "u2net_human_seg"
      case U2netp => "u2netp"
    }
  }

  /** `ModelChoice(name)`: the member with that value, if any. */
  function ModelFromValue(name: string): (m: Option<ModelChoice>)
    ensures m.Some? ==> m.value.Value() == name
    ensures m.None? ==> forall c: ModelChoice :: c.Value() != name
  {
    if name == "u2net" then Some(U2net)
    else if name == "u2net_human_seg" then Some(U2netHumanSeg)
    else if name == "u2netp" then Some(U2netp)
    else None
  }

  /** Every model is found again from its value, so no two share one. */
  lemma ModelValueRoundTrip(m: ModelChoice)
    ensures ModelFromValue(m.Value()) == Some(m)
  {
  }

  /** The arguments of one call of the library's `remove`. */
  datatype RemoveCall =
    | Tuned(image: seq<byte>, modelName: string, alphaMatting: bool,
            foregroundThreshold: int, backgroundThreshold: int, erodeStructureSize: int,
            onlyMask: bool, backgroundColor: Option<Rgb>)
      // remove_background passes every option
    | Untuned(image: seq<byte>, modelName: string)
      // remove_background_simple leaves the library's defaults

  /**
   * The library's `remove`, which this model does not open up: the PNG
   * bytes it returns for a call, or `None` when it raises.
   */
  type Remover = RemoveCall -> Option<seq<byte>>

  /** What a request can end in instead of a PNG, by where it was raised. */
  datatype Fault =
    | InvalidFileType                             // HTTPException(400), extension check
    | FileTooLarge                                // HTTPException(413), size check
    | InvalidBackgroundColor(cause: ColourError)  // HTTPException(400), colour parsing
    | MattingUnsupported                          // HTTPException(400), alpha_matting=true
    | ImportFailed                                // RuntimeError from get_remove_function
    | RemovalFailed                               // whatever the library raised
    | HeaderNotEncodable                          // UnicodeEncodeError building the response
  {
    /**
     * The status the exception carries where it is raised: the code given
     * to `HTTPException`, or 500 for any other exception, which FastAPI
     * answers as a server error.
     */
    function RaisedStatus(): nat
    {
      match this
      case InvalidFileType => 400
      case FileTooLarge => 413
      case InvalidBackgroundColor(_) => 400
      case MattingUnsupported => 400
      case ImportFailed => 500
      case RemovalFailed => 500
      case HeaderNotEncodable => 500
    }
  }

  /** The module-global `remove`: unset until an import succeeds. */
  datatype Handle = Uninitialized | Ready(remover: Remover)

  /**
   * `get_remove_function` as a transition of the handle. `imported` is what
   * `from backgroundremover.bg import remove` yields if it is attempted
   * (`None`: it raises). The call answers the function exactly when the
   * handle ends up set, and that function is the one the handle holds; a
   * set handle is never replaced, and a failure changes nothing.
   */
  function Acquire(h: Handle, imported: Option<Remover>): (r: (Result<Remover, Fault>, Handle))
    ensures r.0.Ok? <==> r.1.Ready?
    ensures r.1.Ready? ==> r.0.value == r.1.remover
    ensures r.0.Err? ==> r.0.error == ImportFailed && r.1 == h
    ensures h.Ready? ==> r.1 == h
    ensures h.Uninitialized? ==> (r.1.Ready? <==> imported.Some?)
    ensures h.Uninitialized? && imported.Some? ==> r.1.remover == imported.value
  {
    match h
    case Ready(f) => (Ok(f), h)
    case Uninitialized =>
      match imported
      case None => (Err(ImportFailed), Uninitialized)
      case Some(f) => (Ok(f), Ready(f))
  }

  /** The handle after a series of `get_remove_function` calls. */
  function AcquireEach(h: Handle, attempts: seq<Option<Remover>>): Handle
    decreases |attempts|
  {
    if |attempts| == 0 then h else AcquireEach(Acquire(h, attempts[0]).1, attempts[1..])
  }

  /** The first import in a series that succeeds. */
  function FirstImport(attempts: seq<Option<Remover>>): Option<Remover>
  {
    if |attempts| == 0 then None
    else if attempts[0].Some? then attempts[0]
    else FirstImport(attempts[1..])
  }

  /** A set handle stays set to the same function whatever follows. */
  lemma {:induction false} ReadyIsFinal(f: Remover, attempts: seq<Option<Remover>>)
    ensures AcquireEach(Ready(f), attempts) == Ready(f)
  {
    if |attempts| > 0 {
      ReadyIsFinal(f, attempts[1..]);
    }
  }

  /**
   * The import happens at most once: starting unset, the handle ends up
   * holding the result of the first import that succeeded, and stays unset
   * while every attempt failed.
   */
  lemma {:induction false} FirstImportWins(attempts: seq<Option<Remover>>)
    ensures AcquireEach(Uninitialized, attempts) ==
      match FirstImport(attempts)
      case None => Uninitialized
      case Some(f) => Ready(f)
  {
    if |attempts| > 0 {
      match attempts[0]
      case None => FirstImportWins(attempts[1..]);
      case Some(f) => ReadyIsFinal(f, attempts[1..]);
    }
  }
}
