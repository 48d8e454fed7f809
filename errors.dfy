/**
 * The error taxonomy of server/src/ts/errors.ts: a closed set of five kinds,
 * each with a constant `type` string and HTTP status, and the `{error: type}`
 * body that the error middleware sends back.
 */
module Errors {
  import opened Wrappers
  import opened Json

  /** The three HTTP status codes the kinds use (http-status-codes). */
  const BadRequest: int := 400
  const NotFound: int := 404
  const PreconditionFailed: int := 412

  datatype ErrorKind = PatchTestFailed | BadDeck | BadPatch | DeckNotFound | AuthFailure {

    /** The readonly `type` field of each subclass. */
    function Type(): (t: string)
      ensures KindOfType(t) == Some(this)
    {
      match this
      case PatchTestFailed => "PatchTestFailed"
      case BadDeck => "BadDeck"
      case BadPatch => "BadPatch"
      case DeckNotFound => "DeckNotFound"
      case AuthFailure => "AuthFailure"
    }

    /** The readonly `status` field of each subclass. */
    function Status(): (s: int)
      ensures s == PreconditionFailed <==> this == PatchTestFailed
      ensures s == NotFound <==> this == DeckNotFound
      ensures s == BadRequest <==> this in {BadDeck, BadPatch, AuthFailure}
    {
      match this
      case PatchTestFailed => PreconditionFailed
      case BadDeck => BadRequest
      case BadPatch => BadRequest
      case DeckNotFound => NotFound
      case AuthFailure => BadRequest
    }

    /** `details()`: no subclass overrides it, so it is always empty. */
    function Details(): map<string, Value>
    {
      map[]
    }

    /** `error()`: the type under `error`, then the details spread over it. */
    function Body(): (b: Value)
      ensures b.JObj?
      ensures "error" in b.fields && b.fields["error"] == JStr(Type())
      ensures b.fields.Keys == {"error"}
    {
      JObj(map["error" := JStr(Type())] + Details())
    }
  }

  /** The kind a `type` string names, if any: the inverse of Type. */
  function KindOfType(t: string): Option<ErrorKind>
  {
    if t == "PatchTestFailed" then Some(PatchTestFailed)
    else if t == "BadDeck" then Some(BadDeck)
    else if t == "BadPatch" then Some(BadPatch)
    else if t == "DeckNotFound" then Some(DeckNotFound)
    else if t == "AuthFailure" then Some(AuthFailure)
    else None
  }

  /** Every string KindOfType accepts is the Type of the kind it returns. */
  lemma KindOfTypeInverse(t: string)
    ensures KindOfType(t).Some? ==> KindOfType(t).value.Type() == t
  {
  }

  /** The five `type` strings are pairwise distinct. */
  lemma TypesDistinct(a: ErrorKind, b: ErrorKind)
    ensures a.Type() == b.Type() ==> a == b
  {
  }

  /** Status is not injective: three different kinds answer 400. */
  lemma StatusNotInjective()
    ensures BadDeck.Status() == BadPatch.Status() == AuthFailure.Status() == BadRequest
    ensures BadDeck != BadPatch && BadPatch != AuthFailure && BadDeck != AuthFailure
  {
  }
}
