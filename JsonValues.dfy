/** A parsed JSON document, and the JsonElement operations of
    System.Text.Json that the chat service calls on it, with the same
    exceptions: an operation applied to a value of the wrong kind throws. */
module JsonValues {
  import opened Optional

  /** A JSON value. A number keeps its lexeme (the service never reads a
      number's value); an object keeps its members in document order,
      duplicates included. */
  datatype Json =
    | JNull
    | JBool(b: bool)
    | JNumber(lexeme: string)
    | JString(s: string)
    | JArray(items: seq<Json>)
    | JObject(members: seq<(string, Json)>)

  /** An HTTP response body: its text, and the root element that
      JsonDocument.Parse gives for that text, or None when parsing throws. */
  datatype Body = Body(text: string, parsed: Option<Json>)

  /** The value of the LAST member named `name`, as JsonElement.TryGetProperty
      matches a property that an object defines more than once. */
  function Lookup(members: seq<(string, Json)>, name: string): (r: Option<Json>)
    ensures r.None? <==> forall i :: 0 <= i < |members| ==> members[i].0 != name
    ensures r.Some? ==> exists i :: 0 <= i < |members| && members[i] == (name, r.value)
                          && forall k :: i < k < |members| ==> members[k].0 != name
    decreases |members|
  {
    if members == [] then None
    else if members[|members| - 1].0 == name then Some(members[|members| - 1].1)
    else Lookup(members[..|members| - 1], name)
  }

  /** JsonElement.TryGetProperty: throws unless the element is an object;
      None when the object has no member of that name. */
  function TryGetProperty(j: Json, name: string): (r: Fallible<Option<Json>>)
    ensures r.Ok? <==> j.JObject?
    ensures r.Ok? ==> r.value == Lookup(j.members, name)
  {
    match j
    case JObject(members) => Ok(Lookup(members, name))
    case _ => Throws
  }

  /** JsonElement.GetArrayLength: throws unless the element is an array. */
  function GetArrayLength(j: Json): (r: Fallible<nat>)
    ensures r.Ok? <==> j.JArray?
    ensures r.Ok? ==> r.value == |j.items|
  {
    match j
    case JArray(items) => Ok(|items|)
    case _ => Throws
  }

  /** JsonElement.GetString: the text of a string, null for a JSON null,
      and an exception for every other kind. */
  function GetString(j: Json): (r: Fallible<Option<string>>)
    ensures r == Ok(None) <==> j == JNull
    ensures forall s :: r == Ok(Some(s)) <==> j == JString(s)
    ensures r.Throws? <==> !(j.JNull? || j.JString?)
  {
    match j
    case JNull => Ok(None)
    case JString(s) => Ok(Some(s))
    case _ => Throws
  }

  /** A JSON string literal for `s`: quotes around it, with every quote and
      backslash inside escaped. */
  function Quote(s: string): (r: string)
    ensures |r| >= 2 && r[0] == '"' && r[|r| - 1] == '"'
  {
    "\"" + Escape(s) + "\""
  }

  function Escape(s: string): (r: string)
    ensures |r| >= |s|
  {
    if s == [] then ""
    else (if s[0] == '"' || s[0] == '\\' then ['\\', s[0]] else [s[0]]) + Escape(s[1..])
  }

  /** The elements of `parts` separated by commas. */
  function JoinWithCommas(parts: seq<string>): string {
    if parts == [] then ""
    else if |parts| == 1 then parts[0]
    else parts[0] + "," + JoinWithCommas(parts[1..])
  }

  /** The text of a value, written without white space between tokens. */
  function Serialize(j: Json): (r: string)
    ensures j.JObject? ==> |r| >= 2 && r[0] == '{' && r[|r| - 1] == '}'
    ensures j.JArray? ==> |r| >= 2 && r[0] == '[' && r[|r| - 1] == ']'
  {
    match j
    case JNull => "null"
    case JBool(b) => if b then "true" else "false"
    case JNumber(lexeme) => lexeme
    case JString(s) => Quote(s)
    case JArray(items) =>
      "[" + JoinWithCommas(seq(|items|, i requires 0 <= i < |items| => Serialize(items[i]))) + "]"
    case JObject(members) =>
      "{" + JoinWithCommas(seq(|members|, i requires 0 <= i < |members| =>
        Quote(members[i].0) + ":" + Serialize(members[i].1))) + "}"
  }

  /** JsonElement.ToString(): the text of a string, "" for null, "True" or
      "False" for a boolean, and the element's JSON text for a number, an
      array or an object. */
  function ElementToString(j: Json): (r: string)
    ensures j.JString? ==> r == j.s
    ensures j.JObject? || j.JArray? ==> r == Serialize(j)
  {
    match j
    case JNull => ""
    case JBool(b) => if b then "True" else "False"
    case JString(s) => s
    case _ => Serialize(j)
  }
}
