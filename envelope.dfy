/** The response envelope shared by the server and the client. The
    server's `ResponseInterceptor` wraps every handler result as
    `{ success: true, data }` unless it already carries a `success` key;
    its `GlobalExceptionFilter` turns an exception into a status and a
    `{ success: false, message }` body; the client's axios interceptor
    (`utils/axios-client.ts` and the identical
    `modules/shared/utils/axios-client.ts`) replaces a `{ success: true,
    data }` body by its `data`. Values are JSON values; `undefined` is kept
    apart from `null` because a handler returning nothing gives it. */
module Envelope {
  import opened Wrappers
  import opened Text

  datatype Json =
    | JUndefined
    | JNull
    | JBool(b: bool)
    | JNumber(n: int)
    | JString(s: string)
    | JArray(items: seq<Json>)
    | JObject(fields: map<string, Json>)

  /** JavaScript truthiness (NaN and fractions are not modelled). */
  predicate Truthy(v: Json) {
    match v
    case JUndefined => false
    case JNull => false
    case JBool(b) => b
    case JNumber(n) => n != 0
    case JString(s) => s != ""
    case _ => true
  }

  /** `typeof v === 'object'` for a truthy value: arrays and objects. */
  predicate IsObjectLike(v: Json) {
    v.JArray? || v.JObject?
  }

  /** `key in v`: only objects have named keys here (an array has only
      its indices and `length`). */
  predicate HasKey(v: Json, key: string) {
    v.JObject? && key in v.fields
  }

  /** `v[key]`, `undefined` when absent. */
  function Get(v: Json, key: string): (r: Json)
    ensures !HasKey(v, key) ==> r == JUndefined
  {
    if HasKey(v, key) then v.fields[key] else JUndefined
  }

  // ---------------------------------------------------------------------
  // ResponseInterceptor

  /** The envelope around a handler result. */
  function Envelope(data: Json): Json {
    JObject(map["success" := JBool(true), "data" := data])
  }

  /** `intercept`: a truthy object with a `success` key passes unchanged,
      anything else is wrapped. */
  function Wrap(data: Json): (r: Json)
    ensures HasKey(data, "success") ==> r == data
    ensures !HasKey(data, "success") ==> r == Envelope(data)
    ensures HasKey(r, "success")
  {
    if Truthy(data) && IsObjectLike(data) && HasKey(data, "success") then data
    else Envelope(data)
  }

  /** Wrapping twice is wrapping once. */
  lemma WrapIdempotent(data: Json)
    ensures Wrap(Wrap(data)) == Wrap(data)
  {
  }

  /** Only values the interceptor passes through can carry anything but
      `success: true`; a wrapped value always says `true` and holds the
      result under `data`. */
  lemma WrappedSucceeds(data: Json)
    requires !HasKey(data, "success")
    ensures Get(Wrap(data), "success") == JBool(true)
    ensures Get(Wrap(data), "data") == data
  {
  }

  // ---------------------------------------------------------------------
  // The client's response interceptor

  /** An axios response: the body and everything else about it. */
  datatype AxiosResponse = AxiosResponse(data: Json, status: int, headers: map<string, string>)

  /** Whether a body is the server's success envelope. */
  predicate IsSuccessEnvelope(body: Json) {
    Truthy(body) && IsObjectLike(body) && Get(body, "success") == JBool(true) && HasKey(body, "data")
  }

  /** The fulfilled handler: an envelope's body is replaced by its `data`;
      every other field of the response is kept. */
  function Unwrap(response: AxiosResponse): (r: AxiosResponse)
    ensures r.status == response.status && r.headers == response.headers
    ensures IsSuccessEnvelope(response.data) ==> r.data == response.data.fields["data"]
    ensures !IsSuccessEnvelope(response.data) ==> r == response
  {
    if IsSuccessEnvelope(response.data) then response.(data := response.data.fields["data"]) else response
  }

  /** Both handlers: a response is unwrapped, an error is passed on
      unchanged. */
  function Intercept<E>(outcome: Result<AxiosResponse, E>): (r: Result<AxiosResponse, E>)
    ensures outcome.Err? ==> r == outcome
    ensures outcome.Ok? ==> r == Ok(Unwrap(outcome.value))
  {
    match outcome
    case Ok(response) => Ok(Unwrap(response))
    case Err(e) => Err(e)
  }

  /** Unwrapping inverts wrapping for every handler result that has no
      `success` key of its own. */
  lemma UnwrapInvertsWrap(response: AxiosResponse, data: Json)
    requires !HasKey(data, "success")
    ensures Unwrap(response.(data := Wrap(data))) == response.(data := data)
  {
  }

  /** A result that already looks like an envelope is not wrapped, and the
      client then hands back only its `data`: `{ success: true, data: x,
      extra }` reaches the caller as `x`. */
  lemma EnvelopeLookalikeLosesFields(response: AxiosResponse, x: Json, extra: Json)
    ensures var sent := JObject(map["success" := JBool(true), "data" := x, "extra" := extra]);
      Wrap(sent) == sent && Unwrap(response.(data := Wrap(sent))).data == x
  {
  }

  /** A result record with `success: false` (the older services' answers)
      reaches the caller whole. */
  lemma FailureRecordPassesThrough(response: AxiosResponse, message: string)
    ensures var sent := JObject(map["success" := JBool(false), "message" := JString(message)]);
      Unwrap(response.(data := Wrap(sent))).data == sent
  {
  }

  // ---------------------------------------------------------------------
  // GlobalExceptionFilter

  /** What the filter catches: an `HttpException` (its status, its
      `getResponse()` and its own message) or anything else. */
  datatype Exception = HttpException(status: int, response: Json, message: string) | OtherException

  /** `String(v)` as `Array.prototype.join` renders an element: `null` and
      `undefined` become empty, arrays are joined with ','. */
  function ToText(v: Json): string
    decreases v
  {
    match v
    case JUndefined => ""
    case JNull => ""
    case JBool(b) => if b then "true" else "false"
    case JNumber(n) => IntToString(n)
    case JString(s) => s
    case JArray(items) => Join(seq(|items|, i requires 0 <= i < |items| => ToText(items[i])), ",")
    case JObject(_) => "[object Object]"
  }

  /** The message before array joining: a string response itself,
      otherwise its `message` if truthy, otherwise the exception's. */
  function RawMessage(e: Exception): (m: Json)
    requires e.HttpException?
    ensures e.response.JString? ==> m == e.response
    ensures !e.response.JString? && Truthy(Get(e.response, "message")) ==> m == Get(e.response, "message")
    ensures !e.response.JString? && !Truthy(Get(e.response, "message")) ==> m == JString(e.message)
  {
    if e.response.JString? then e.response
    else if Truthy(Get(e.response, "message")) then Get(e.response, "message")
    else JString(e.message)
  }

  /** `catch(exception)`: the status and the JSON body sent. */
  function Catch(e: Exception): (r: (int, Json))
    ensures Get(r.1, "success") == JBool(false)
    ensures e.OtherException? ==> r == (500, JObject(map["success" := JBool(false), "message" := JString("Internal server error")]))
    ensures e.HttpException? ==> r.0 == e.status
    ensures e.HttpException? && !RawMessage(e).JArray? ==> Get(r.1, "message") == RawMessage(e)
  {
    var (status, message) :=
      if e.HttpException? then (e.status, RawMessage(e)) else (500, JString("Internal server error"));
    var text := if message.JArray? then JString(Join(seq(|message.items|, i requires 0 <= i < |message.items| =>
      ToText(message.items[i])), ", ")) else message;
    (status, JObject(map["success" := JBool(false), "message" := text]))
  }

  /** Validation errors (an array of messages in the response) are joined
      with ", "; a string response is the message itself. */
  lemma CatchMessages(status: int, messages: seq<string>, exceptionMessage: string, text: string)
    ensures var e := HttpException(status, JObject(map["message" := JArray(seq(|messages|, i requires 0 <= i < |messages| => JString(messages[i])))]), exceptionMessage);
      Get(Catch(e).1, "message") == JString(Join(messages, ", "))
    ensures Get(Catch(HttpException(status, JString(text), exceptionMessage)).1, "message") == JString(text)
  {
    var items := seq(|messages|, i requires 0 <= i < |messages| => JString(messages[i]));
    assert seq(|items|, i requires 0 <= i < |items| => ToText(items[i])) == messages;
  }

  /** An object response without a truthy `message` falls back to the
      exception's own message. */
  lemma CatchFallsBackToExceptionMessage(status: int, fields: map<string, Json>, exceptionMessage: string)
    requires "message" !in fields || !Truthy(fields["message"])
    ensures Get(Catch(HttpException(status, JObject(fields), exceptionMessage)).1, "message") == JString(exceptionMessage)
  {
  }

  /** The client never unwraps an error body: it reaches the caller whole. */
  lemma ErrorBodyNotUnwrapped(response: AxiosResponse, e: Exception)
    ensures Unwrap(response.(data := Catch(e).1)) == response.(data := Catch(e).1)
  {
  }
}
