/**
 * The global error handler: a `ServiceError` becomes the HTTP error of its
 * kind; a plain error whose message reads `Type:message` is parsed the same
 * way for backward compatibility; everything else is re-thrown.
 */
module ErrorHandler {
  import opened Common
  import opened Errors
  import opened Text

  /** What the handler does with an error: reply with the HTTP error of a kind, or re-throw it. */
  datatype Handled = Reply(kind: ErrorKind, message: string) | Rethrow(failure: Failure)

  /** The status code of each reply (`reply.notFound`, `reply.forbidden`, `reply.badRequest`). */
  function StatusCode(kind: ErrorKind): (code: int)
    ensures code == 404 <==> kind == NotFound
    ensures code == 403 <==> kind == Forbidden
    ensures code == 400 <==> kind == BadRequest
  {
    match kind
    case NotFound => 404
    case Forbidden => 403
    case BadRequest => 400
  }

  /** The name of a kind as it appears in a legacy message. */
  function KindName(kind: ErrorKind): string {
    match kind
    case NotFound => "NotFound"
    case Forbidden => "Forbidden"
    case BadRequest => "BadRequest"
  }

  /** The kind a legacy type name denotes, compared exactly (case and spaces matter). */
  function KindOfName(name: string): (kind: Option<ErrorKind>)
    ensures kind.Some? ==> KindName(kind.value) == name
    ensures kind.None? ==> name != "NotFound" && name != "Forbidden" && name != "BadRequest"
  {
    if name == "NotFound" then Some(NotFound)
    else if name == "Forbidden" then Some(Forbidden)
    else if name == "BadRequest" then Some(BadRequest)
    else None
  }

  /**
   * The handler. A Prisma "record not found" error is re-thrown: its message
   * does not start with one of the three type names.
   */
  function Handle(failure: Failure): (h: Handled)
    ensures failure.Service? ==> h == Reply(failure.error.kind, failure.error.message)
    ensures failure.RecordNotFound? ==> h.Rethrow?
    ensures h.Rethrow? ==> h.failure == failure
    ensures failure.Plain? && ':' !in failure.message ==> h.Rethrow?
  {
    match failure
    case Service(e) => Reply(e.kind, e.message)
    case RecordNotFound => Rethrow(failure)
    case Plain(text) =>
      if ':' in text then
        var parts := Split(text, ':');
        var typeName := parts[0];
        var message := Trim(Join(parts[1..], ':'));
        var kind := KindOfName(typeName);
        if typeName != "" && message != "" && kind.Some? then Reply(kind.value, message) else Rethrow(failure)
      else
        Rethrow(failure)
  }

  /** The HTTP status the handler answers with, or nothing when it re-throws the error. */
  function ReplyStatus(failure: Failure): (code: Option<int>)
    ensures code.Some? <==> Handle(failure).Reply?
    ensures failure.Service? ==> code == Some(StatusCode(failure.error.kind))
    ensures failure.RecordNotFound? ==> code == None
    ensures code.Some? ==> code.value in {400, 403, 404}
  {
    match Handle(failure)
    case Reply(kind, _) => Some(StatusCode(kind))
    case Rethrow(_) => None
  }

  /**
   * A legacy message is split at its FIRST colon: the part before it must be
   * exactly a type name, and everything after it (later colons included),
   * trimmed, must be non-empty; then the reply has that kind and message.
   * Otherwise the error is re-thrown.
   */
  lemma LegacyMessage(typeName: string, rest: string)
    requires ':' !in typeName
    ensures Handle(Plain(typeName + ":" + rest)) ==
      if KindOfName(typeName).Some? && Trim(rest) != "" then Reply(KindOfName(typeName).value, Trim(rest))
      else Rethrow(Plain(typeName + ":" + rest))
  {
    var text := typeName + ":" + rest;
    assert text == typeName + [':'] + rest;
    assert text[|typeName|] == ':';
    SplitAtFirst(typeName, ':', rest);
    var parts := Split(text, ':');
    assert parts[1..] == Split(rest, ':');
    JoinSplit(rest, ':');
    assert KindOfName("") == None;
  }

  /** Every `ServiceError` kind round-trips through its legacy name, so both paths reply alike. */
  lemma LegacyAgreesWithServiceError(e: ServiceError)
    requires Trim(e.message) == e.message && e.message != ""
    ensures Handle(Plain(KindName(e.kind) + ":" + e.message)) == Handle(Service(e))
  {
    var name := KindName(e.kind);
    NameHasNoColon(e.kind);
    LegacyMessage(name, e.message);
    assert KindOfName(name) == Some(e.kind);
  }

  lemma NameHasNoColon(k: ErrorKind)
    ensures ':' !in KindName(k) && KindOfName(KindName(k)) == Some(k)
  {
    var name := KindName(k);
    forall i | 0 <= i < |name| ensures name[i] != ':' {
      match k
      case NotFound => assert name == "NotFound";
      case Forbidden => assert name == "Forbidden";
      case BadRequest => assert name == "BadRequest";
    }
  }
}
