/** `createApiResponse`: the envelope, with the formatted current time merged into `data`. */
module Responses {
  import opened Wrappers
  import opened Timestamps
  import opened Api

  const TimestampKey: string := "timestamp"

  /**
   * `{ success, message, data: data ? { ...data, timestamp } : undefined }`:
   * a fresh object with every field of `data` and a `timestamp` that wins
   * over a field of the same name; no data, no `data`.
   */
  function CreateApiResponse(success: bool, message: string, data: Option<map<string, Value>>, now: DateTime): (r: ApiResponse)
    requires Valid(now)
    ensures r.success == success && r.message == Some(message) && r.errors.None?
    ensures r.data.Some? <==> data.Some?
    ensures data.Some? ==> r.data.value.Keys == data.value.Keys + {TimestampKey}
    ensures data.Some? ==> r.data.value[TimestampKey] == Str(FormatTimestamp(now))
    ensures data.Some? ==> forall k :: k in data.value && k != TimestampKey ==> r.data.value[k] == data.value[k]
  {
    var merged := match data
      case None => None
      case Some(d) => Some(d[TimestampKey := Str(FormatTimestamp(now))]);
    ApiResponse(success, merged, Some(message), None)
  }

  /** The injected timestamp reads back as the instant of the response, to the second. */
  lemma ResponseTimestampParses(success: bool, message: string, data: map<string, Value>, now: DateTime)
    requires Valid(now)
    ensures var r := CreateApiResponse(success, message, Some(data), now);
      && r.data.Some? && TimestampKey in r.data.value && r.data.value[TimestampKey].Str?
      && ParseFormatted(r.data.value[TimestampKey].s) == Some(now.(millisecond := 0))
  {
    FormatThenParse(now);
  }
}
