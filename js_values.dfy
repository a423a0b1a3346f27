/** The JavaScript values a route handler sees after `await request.json()`
    and destructuring, with the two coercions the handlers rely on:
    truthiness (`!x`, `x || y`, `x ? a : b`) and String(x) (template literals,
    RegExp.prototype.test). */
module JsValues {
  import opened Text

  /** A field of a parsed JSON body. A key that is absent reads as Undefined.
      JSON numbers are modelled by their integer values. */
  datatype JsValue =
    | Undefined
    | Null
    | Bool(b: bool)
    | Number(n: int)
    | Str(s: string)
    | Object(fields: map<string, JsValue>)

  type Body = map<string, JsValue>

  /** JavaScript's ToBoolean: undefined, null, false, 0 and "" are falsy;
      every object is truthy. */
  predicate Truthy(v: JsValue)
  {
    match v
    case Undefined => false
    case Null => false
    case Bool(b) => b
    case Number(n) => n != 0
    case Str(s) => s != ""
    case Object(_) => true
  }

  /** String(v) throws for a parsed object with an own "toString" key.
      Such a key holds a JSON value, which is not callable, so ToPrimitive
      skips it. The inherited valueOf then returns the object itself, which
      is not a primitive either, and a TypeError is thrown. An object without
      that key uses the inherited toString. */
  predicate ToStringThrows(v: JsValue)
  {
    v.Object? && "toString" in v.fields
  }

  /** The message of that TypeError. */
  const ToPrimitiveError := "Cannot convert object to primitive value"

  /** A `process.env` entry: a string, or undefined when unset. */
  predicate EnvValue(v: JsValue)
  {
    v.Str? || v.Undefined?
  }

  /** JavaScript's String(v) on the values above, where it does not throw. */
  function ToJsString(v: JsValue): string
    requires !ToStringThrows(v)
  {
    match v
    case Undefined => "undefined"
    case Null => "null"
    case Bool(b) => if b then "true" else "false"
    case Number(n) => IntToString(n)
    case Str(s) => s
    case Object(_) => "[object Object]"
  }

  /** Reading `body.key`, as the destructuring `const { key } = body` does. */
  function Get(body: Body, key: string): JsValue
  {
    if key in body then body[key] else Undefined
  }

  /** The outcome of `await request.json()` followed by destructuring:
      Malformed stands for a body that is not JSON and for the JSON value
      null (destructuring null throws). Any other JSON value is a Json body;
      a JSON primitive or array has none of the named fields. */
  datatype Request = Malformed | Json(body: Body)

  /** The outcome of an awaited call into a mailer: it returns, or it throws
      an Error whose message is given. */
  datatype SendOutcome = Delivered | Threw(message: string)

  /** `NextResponse.json(payload, { status })`. */
  datatype Response = Response(status: nat, payload: Body)

  /** A message handed to a mailer: sender, recipients, reply address
      (Undefined when the options name none), subject, and the values the
      HTML template interpolates, each under the label the template shows. */
  datatype Mail = Mail(from: string, to: seq<string>, replyTo: JsValue, subject: string, fields: seq<(string, string)>)

  /** What the handler does with one request: the response it returns and
      the messages it handed to the mailer, in order. */
  datatype Handled = Handled(response: Response, mails: seq<Mail>)

  /** The labels of a message's fields, in order. */
  function Labels(fields: seq<(string, string)>): (r: seq<string>)
    ensures |r| == |fields| && forall k :: 0 <= k < |fields| ==> r[k] == fields[k].0
  {
    if fields == [] then [] else [fields[0].0] + Labels(fields[1..])
  }

  function ErrorResponse(status: nat, error: string): (r: Response)
    ensures r.status == status && Get(r.payload, "error") == Str(error)
  {
    Response(status, map["error" := Str(error)])
  }

  /** Only the String of a string can hold an '@': the decimal text of a
      number, "true", "false", "null", "undefined" and "[object Object]"
      cannot. */
  lemma NonStringHasNoAt(v: JsValue)
    requires !v.Str? && !ToStringThrows(v)
    ensures '@' !in ToJsString(v)
  {
  }
}
