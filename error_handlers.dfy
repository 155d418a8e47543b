/**
 * main.py: the JSON error payload and the three exception handlers that turn
 * every failure into it.
 */
module ErrorHandlers {
  import opened Basics
  import opened Text
  import opened Errors

  /** The `error` object of a payload; `fields` is `None` when the key is omitted. */
  datatype ErrorInfo = ErrorInfo(code: string, message: string, fields: Option<Fields>)

  /** `{"ok": ..., "error": {...}}`. */
  datatype ErrorBody = ErrorBody(ok: bool, error: ErrorInfo)

  /** A JSON response: its status code and its body. */
  datatype Response = Response(status: int, body: ErrorBody)

  const GenericMessage := "요청 처리 중 오류가 발생했습니다."
  const ValidationMessage := "입력값을 확인해주세요."
  const InvalidValueMessage := "유효하지 않은 값입니다."
  const InternalMessage := "서버 내부 오류가 발생했습니다."

  /** Python truthiness of an optional `fields` dict: present and non-empty. */
  predicate Truthy(fields: Option<Fields>) {
    fields.Some? && fields.value != map[]
  }

  /** `errorPayload(code, message, fields)`: always `ok: false`; the `fields`
      key is present exactly when `fields` is truthy, so `None` and `{}` are
      both omitted. */
  function ErrorPayload(code: string, message: string, fields: Option<Fields> := None): (b: ErrorBody)
    ensures !b.ok && b.error.code == code && b.error.message == message
    ensures b.error.fields.Some? <==> Truthy(fields)
    ensures b.error.fields.Some? ==> b.error.fields == fields
  {
    ErrorBody(false, ErrorInfo(code, message, if Truthy(fields) then fields else None))
  }

  /** `httpExceptionHandler`: keeps the status; a dict detail supplies code,
      message and fields, with `HTTP_ERROR` and the generic message as
      defaults; any other detail becomes the message (the generic one when it
      is falsy) under `HTTP_ERROR`, without fields. */
  function HttpExceptionHandler(status: int, detail: Detail): (r: Response)
    ensures r.status == status && !r.body.ok
    ensures detail.Structured? ==>
      && r.body.error.code == detail.code.GetOr("HTTP_ERROR")
      && r.body.error.message == detail.message.GetOr(GenericMessage)
      && (r.body.error.fields.Some? <==> Truthy(detail.fields))
    ensures detail.Plain? ==>
      && r.body.error.code == "HTTP_ERROR"
      && r.body.error.message == (if detail.text == [] then GenericMessage else detail.text)
      && r.body.error.fields.None?
  {
    match detail
    case Structured(code, message, fields) =>
      Response(status, ErrorPayload(code.GetOr("HTTP_ERROR"), message.GetOr(GenericMessage), fields))
    case Plain(text) =>
      Response(status, ErrorPayload("HTTP_ERROR", if text != [] then text else GenericMessage, None))
  }

  /** `str(x)` of one location part. */
  function LocText(p: LocPart): string {
    match p
    case Name(n) => n
    case Index(i) => NatToString(i)
  }

  /** The location parts other than the literal `"body"`, as text. */
  function LocTexts(loc: seq<LocPart>): (r: seq<string>)
    ensures |r| <= |loc|
  {
    if loc == [] then []
    else if loc[0] == Name("body") then LocTexts(loc[1..])
    else [LocText(loc[0])] + LocTexts(loc[1..])
  }

  /** The key an error item is filed under: its location without `"body"`,
      joined by `.`, or `"body"` when that is empty. */
  function LocKey(loc: seq<LocPart>): (k: string)
    ensures k != []
  {
    var joined := Join(".", LocTexts(loc));
    if joined == [] then "body" else joined
  }

  /** The message an error item contributes. */
  function ItemMessage(item: ErrorItem): Value {
    Str(item.msg.GetOr(InvalidValueMessage))
  }

  /** The `fields` dict that `validationExceptionHandler` builds from the
      first `|items|` errors, one after the other. */
  function ValidationFields(items: seq<ErrorItem>): Fields {
    if items == [] then map[]
    else
      var last := items[|items| - 1];
      ValidationFields(items[..|items| - 1])[LocKey(last.loc) := ItemMessage(last)]
  }

  /** Every error has an entry, and every entry comes from some error. */
  lemma {:induction false} ValidationFieldsKeys(items: seq<ErrorItem>)
    ensures forall i :: 0 <= i < |items| ==> LocKey(items[i].loc) in ValidationFields(items)
    ensures forall k :: k in ValidationFields(items) ==> exists i :: 0 <= i < |items| && LocKey(items[i].loc) == k
  {
    if items != [] {
      var init := items[..|items| - 1];
      ValidationFieldsKeys(init);
      assert forall i :: 0 <= i < |init| ==> init[i] == items[i];
    }
  }

  /** Later errors overwrite earlier ones: the entry under an error's key is
      that error's message when no later error has the same key. */
  lemma {:induction false} ValidationFieldsLastWins(items: seq<ErrorItem>, i: nat)
    requires i < |items|
    requires forall j :: i < j < |items| ==> LocKey(items[j].loc) != LocKey(items[i].loc)
    ensures LocKey(items[i].loc) in ValidationFields(items)
    ensures ValidationFields(items)[LocKey(items[i].loc)] == ItemMessage(items[i])
  {
    ValidationFieldsKeys(items);
    if i < |items| - 1 {
      var init := items[..|items| - 1];
      assert init[i] == items[i];
      assert forall j :: i < j < |init| ==> init[j] == items[j];
      ValidationFieldsLastWins(init, i);
    }
  }

  /** The response `validationExceptionHandler` sends for these errors. */
  function ValidationResponse(items: seq<ErrorItem>): Response {
    Response(422, ErrorPayload("VALIDATION_ERROR", ValidationMessage, Some(ValidationFields(items))))
  }

  /** `validationExceptionHandler`: fills `fields` one error at a time, then
      answers 422 `VALIDATION_ERROR`. */
  method ValidationExceptionHandler(items: seq<ErrorItem>) returns (r: Response)
    ensures r == ValidationResponse(items)
    ensures r.status == 422 && !r.body.ok && r.body.error.code == "VALIDATION_ERROR"
    ensures r.body.error.fields.Some? <==> items != []
  {
    var fields: Fields := map[];
    var i := 0;
    while i < |items|
      invariant 0 <= i <= |items|
      invariant fields == ValidationFields(items[..i])
    {
      assert items[..i + 1][..i] == items[..i];
      fields := fields[LocKey(items[i].loc) := ItemMessage(items[i])];
      i := i + 1;
    }
    assert items[..|items|] == items;
    if items != [] {
      ValidationFieldsKeys(items);
      assert LocKey(items[0].loc) in fields;
    }
    r := Response(422, ErrorPayload("VALIDATION_ERROR", ValidationMessage, Some(fields)));
  }

  /** `unhandled_exception_handler`: 500 `INTERNAL_ERROR`, a fixed message, no fields. */
  function UnhandledExceptionHandler(): (r: Response)
    ensures r.status == 500 && !r.body.ok
    ensures r.body.error == ErrorInfo("INTERNAL_ERROR", InternalMessage, None)
  {
    Response(500, ErrorPayload("INTERNAL_ERROR", InternalMessage, None))
  }

  /** The handler FastAPI picks for an exception, and the response it sends. */
  function Respond(e: Raised): (r: Response)
    ensures !r.body.ok
    ensures e.HttpError? ==> r.status == e.status
    ensures e.RequestInvalid? ==> r.status == 422
    ensures e.KeyError? ==> r.status == 500
  {
    match e
    case HttpError(status, detail) => HttpExceptionHandler(status, detail)
    case RequestInvalid(items) => ValidationResponse(items)
    case KeyError => UnhandledExceptionHandler()
  }

  /** An exception of the taxonomy reaches the client with its own status,
      code and message, and with `fields` exactly when it carried non-empty ones. */
  lemma TaxonomyResponse(e: Raised)
    requires InTaxonomy(e)
    ensures Respond(e).status == e.status && Respond(e).status == Taxonomy[CodeOf(e)]
    ensures Respond(e).body.error.code == CodeOf(e)
    ensures Respond(e).body.error.message == e.detail.message.value
    ensures Respond(e).body.error.fields == (if Truthy(e.detail.fields) then e.detail.fields else None)
  {
  }
}
