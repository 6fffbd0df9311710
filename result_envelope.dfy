/**
 * The response envelope every route returns: a status code, a message
 * and a data payload, with named constructors for the common codes.
 */
module ResultEnvelope {
  import opened Json
  import opened Wrappers

  datatype Result = Result(code: int, message: string, data: Json)

  /** The code and message of a reply whose payload is not modelled. */
  datatype Status = Status(code: int, message: string)

  const DefaultSuccessMessage: string := "success"
  const DefaultErrorMessage: string := "error"
  const DefaultErrorCode: int := 500

  /** `Result(code, message, data)`: a missing payload (`None`) becomes `{}`. */
  function Make(code: int, message: string, data: Json): (r: Result)
    ensures r.code == code && r.message == message
    ensures data != Null ==> r.data == data
    ensures r.data != Null
  {
    Result(code, message, if data == Null then EmptyObj else data)
  }

  function Success(data: Json, message: string): (r: Result)
    ensures r.code == 200 && r.message == message
    ensures r.data == (if data == Null then EmptyObj else data)
  {
    Make(200, message, data)
  }

  function Error(message: string, code: int, data: Json): (r: Result)
    ensures r.code == code && r.message == message
    ensures r.data == (if data == Null then EmptyObj else data)
  {
    Make(code, message, data)
  }

  function Unauthorized(message: string, data: Json): (r: Result)
    ensures r.code == 401 && r.message == message
    ensures r.data == (if data == Null then EmptyObj else data)
  {
    Make(401, message, data)
  }

  function Forbidden(message: string, data: Json): (r: Result)
    ensures r.code == 403 && r.message == message
    ensures r.data == (if data == Null then EmptyObj else data)
  {
    Make(403, message, data)
  }

  function NotFound(message: string, data: Json): (r: Result)
    ensures r.code == 404 && r.message == message
    ensures r.data == (if data == Null then EmptyObj else data)
  {
    Make(404, message, data)
  }

  /** The error a route returns with no payload: `Result.error(message=m, code=c)`. */
  function Fail(code: int, message: string): (r: Result)
    ensures r.code == code && r.message == message && r.data == EmptyObj
  {
    Error(message, code, Null)
  }

  /** A success with no payload. */
  function Ok(message: string): (r: Result)
    ensures r.code == 200 && r.message == message && r.data == EmptyObj
  {
    Success(Null, message)
  }

  /** `to_dict()`: exactly the keys code, message and data. */
  function ToDict(r: Result): (d: map<string, Json>)
    ensures d.Keys == {"code", "message", "data"}
  {
    map["code" := Num(r.code), "message" := Str(r.message), "data" := r.data]
  }

  /** Reads an envelope back from its dict form; the inverse of `ToDict`. */
  function FromDict(d: map<string, Json>): (r: Option<Result>)
  {
    if "code" in d && "message" in d && "data" in d && d["code"].Num? && d["message"].Str?
    then Some(Result(d["code"].n, d["message"].s, d["data"]))
    else None
  }

  /** `to_dict` loses nothing: the dict reads back as the same envelope. */
  lemma ToDictRoundTrip(r: Result)
    ensures FromDict(ToDict(r)) == Some(r)
  {
  }

  /** `Result.error()` with its defaults is a 500 with message "error". */
  lemma ErrorDefaults()
    ensures Error(DefaultErrorMessage, DefaultErrorCode, Null) == Result(500, "error", EmptyObj)
  {
  }
}
