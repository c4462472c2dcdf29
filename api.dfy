/** The response envelope every endpoint answers with, and the JSON values it carries. */
module Api {
  import opened Wrappers

  /** The JSON values the endpoints put in `data`; key order of objects is not modelled. */
  datatype Value = Bool(b: bool) | Num(n: int) | Str(s: string) | Obj(fields: map<string, Value>)

  /** `ApiResponse<T>`: every field but `success` may be absent. */
  datatype ApiResponse = ApiResponse(
    success: bool,
    data: Option<map<string, Value>>,
    message: Option<string>,
    errors: Option<map<string, seq<string>>>)
}
