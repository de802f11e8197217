/**
 * An abstract JSON document, standing in for the JSONObject and JSONArray
 * values of the org.json library, together with the few accessors of that
 * library the appointment system uses. Text parsing and printing are not
 * modelled: a document is already a tree.
 */
module Json {
  import opened Wrappers

  datatype Json =
    | JNull                               // JSONObject.NULL
    | JBool(b: bool)
    | JInt(n: int)
    | JString(str: string)
    | JArray(items: seq<Json>)            // a JSONArray
    | JObject(fields: map<string, Json>)  // a JSONObject held as a value

  /** Java's int: a two's-complement 32-bit integer. */
  newtype Int32 = n: int | -0x8000_0000 <= n < 0x8000_0000

  /**
   * Number.intValue() of an integer: its low 32 bits read as a signed value,
   * so the result differs from n by a multiple of 2^32 and equals n when n
   * is already in range.
   */
  function IntValue(n: int): (v: Int32)
    ensures (v as int - n) % 0x1_0000_0000 == 0
    ensures -0x8000_0000 <= n < 0x8000_0000 ==> v as int == n
  {
    var low := n % 0x1_0000_0000;
    if low < 0x8000_0000 then low as Int32 else (low - 0x1_0000_0000) as Int32
  }

  /** A JSONObject: the keys of an object are unordered and unique. */
  type JsonObject = map<string, Json>

  /** The ways the accessors below fail. */
  datatype JsonError =
    | KeyNotFound(key: string)     // JSONException: the key is absent
    | WrongValueType(key: string)  // JSONException: the value has another type
    | ClassCast                    // ClassCastException: an element is not a JSONObject

  /** JSONObject.getString: the value must be a string. */
  function GetString(obj: JsonObject, key: string): Result<string, JsonError>
  {
    if key !in obj then Failure(KeyNotFound(key))
    else if obj[key].JString? then Success(obj[key].str)
    else Failure(WrongValueType(key))
  }

  /**
   * JSONObject.getInt, restricted to values that are integer numbers: the
   * number is narrowed to an int by intValue(), which wraps out-of-range values.
   */
  function GetInt(obj: JsonObject, key: string): Result<Int32, JsonError>
  {
    if key !in obj then Failure(KeyNotFound(key))
    else if obj[key].JInt? then Success(IntValue(obj[key].n))
    else Failure(WrongValueType(key))
  }

  /** JSONObject.getJSONArray: the value must be an array. */
  function GetJsonArray(obj: JsonObject, key: string): Result<seq<Json>, JsonError>
  {
    if key !in obj then Failure(KeyNotFound(key))
    else if obj[key].JArray? then Success(obj[key].items)
    else Failure(WrongValueType(key))
  }

  /** The cast `(JSONObject) json` of an array element. */
  function AsObject(json: Json): Result<JsonObject, JsonError>
  {
    if json.JObject? then Success(json.fields) else Failure(ClassCast)
  }
}
