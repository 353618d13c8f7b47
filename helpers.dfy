/** The request-reading helpers of cmd/api/helpers.go. */
module Helpers {
  import opened Wrappers
  import opened Strings
  import opened Strconv
  import Validator
  import Http

  /**
   * A parsed query string, `url.Values`: each key with its values in order.
   * Its `Get` has the same first-value rule as a header's, `Http.HeaderGet`.
   */
  type Values = map<string, seq<string>>


  /**
   * `readIDParam`: the "id" route parameter (given as its text) as a 64-bit
   * integer, with the error message returned when it is not a positive one.
   */
  function ReadIDParam(param: string): (r: (int, Option<string>))
    ensures r.1.None? <==> ParseInt64(param).Some? && ParseInt64(param).value >= 1
    ensures r.1.None? ==> r.0 >= 1 && ParseInt64(param) == Some(r.0)
    ensures r.1.Some? ==> r == (0, Some("invalid ID parameter"))
  {
    match ParseInt64(param)
    case Some(id) => if id < 1 then (0, Some("invalid ID parameter")) else (id, None)
    case None => (0, Some("invalid ID parameter"))
  }

  /** `readString`: the query value, or the default when it is empty or missing. */
  function ReadString(qs: Values, key: string, defaultValue: string): (s: string)
    ensures Http.HeaderGet(qs, key) == "" ==> s == defaultValue
    ensures Http.HeaderGet(qs, key) != "" ==> s == Http.HeaderGet(qs, key)
  {
    var s := Http.HeaderGet(qs, key);
    if s == "" then defaultValue else s
  }

  /**
   * `readCSV`: the comma-separated pieces of the query value, or the default
   * when it is empty or missing.
   */
  function ReadCSV(qs: Values, key: string, defaultValue: seq<string>): (parts: seq<string>)
    ensures Http.HeaderGet(qs, key) == "" ==> parts == defaultValue
    ensures Http.HeaderGet(qs, key) != "" ==> |parts| == Count(Http.HeaderGet(qs, key), ',') + 1
    ensures Http.HeaderGet(qs, key) != "" ==> Join(parts, ',') == Http.HeaderGet(qs, key)
    ensures Http.HeaderGet(qs, key) != "" ==> forall i :: 0 <= i < |parts| ==> ',' !in parts[i]
  {
    var csv := Http.HeaderGet(qs, key);
    if csv == "" then defaultValue
    else
      JoinSplit(csv, ',');
      Split(csv, ',')
  }

  /**
   * `readInt`: the query value as an `int` (64 bits), or the default when it is
   * empty or missing; a value that is not an integer also gives the default and
   * records "must be an integer value" under `key` unless the key has a message.
   */
  method ReadInt(qs: Values, key: string, defaultValue: int, v: Validator.Validator) returns (i: int)
    modifies v
    ensures Http.HeaderGet(qs, key) == "" ==> i == defaultValue && v.errors == old(v.errors)
    ensures Http.HeaderGet(qs, key) != "" && ParseInt64(Http.HeaderGet(qs, key)).None? ==>
              i == defaultValue && v.errors == Validator.WithError(old(v.errors), key, "must be an integer value")
    ensures Http.HeaderGet(qs, key) != "" && ParseInt64(Http.HeaderGet(qs, key)).Some? ==>
              i == ParseInt64(Http.HeaderGet(qs, key)).value && v.errors == old(v.errors)
  {
    var s := Http.HeaderGet(qs, key);
    if s == "" {
      return defaultValue;
    }
    match ParseInt64(s)
    case None =>
      v.AddError(key, "must be an integer value");
      return defaultValue;
    case Some(n) =>
      return n;
  }

  /** Every positive 64-bit id, written in decimal as a route does, is read back unchanged. */
  lemma ReadIDParamRoundTrip(id: int)
    requires 1 <= id <= Int64Max
    ensures ReadIDParam(FormatInt(id)) == (id, None)
  {
    FormatParse(id, Int64Min, Int64Max);
  }
}
