/** Request bodies as Fastify hands them to a route, and the handful of zod schema
    pieces the routes use on them. */
module JsonBody {
  import opened Common

  /** A parsed JSON value (numbers are reals; JSON has no NaN or infinity). */
  datatype Json =
    | JNull
    | JBool(b: bool)
    | JNumber(n: real)
    | JString(s: string)
    | JArray(items: seq<Json>)
    | JObject(fields: map<string, Json>)

  /** A request body or parameter object; None when the request carried none. */
  type Body = Option<Json>

  /** `z.object(...)` accepts only objects. */
  predicate IsObject(body: Body) {
    body.Some? && body.value.JObject?
  }

  /** The value the body holds under `key`; None means `undefined`. */
  function Field(body: Body, key: string): (r: Option<Json>)
    ensures r.Some? ==> IsObject(body) && key in body.value.fields
  {
    if IsObject(body) && key in body.value.fields then Some(body.value.fields[key]) else None
  }

  /** `z.string()` on the field `key` of `z.object(...)`. */
  function StringAt(body: Body, key: string): (r: Option<string>)
    ensures r.Some? <==> IsObject(body) && key in body.value.fields && body.value.fields[key].JString?
    ensures r.Some? ==> body.value.fields[key] == JString(r.value)
  {
    match Field(body, key)
    case Some(JString(s)) => Some(s)
    case _ => None
  }

  /** `z.number().min(lo).max(hi).default(d)` on the field `key`: `d` when the field is
      undefined, the number when it lies in [lo, hi], and a parse failure otherwise
      (`null`, a string, a number out of range, ...). */
  function BoundedNumberAt(body: Body, key: string, lo: real, hi: real, d: real): (r: Option<real>)
    requires IsObject(body)
    ensures key !in body.value.fields ==> r == Some(d)
    ensures key in body.value.fields ==>
              (r.Some? <==> body.value.fields[key].JNumber? && lo <= body.value.fields[key].n <= hi)
    ensures key in body.value.fields && r.Some? ==> r.value == body.value.fields[key].n
  {
    match Field(body, key)
    case None => Some(d)
    case Some(JNumber(x)) => if lo <= x <= hi then Some(x) else None
    case Some(_) => None
  }
}
