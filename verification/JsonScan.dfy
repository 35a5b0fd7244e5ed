/** The text scanners of register.cpp: string lookup by key, and the brace matcher for nested objects. */
module JsonScan {
  import opened Bytes
  import opened Strings

  // ---- specification ----

  function Quoted(key: string): string {
    "\"" + key + "\""
  }

  /** The text between the two quotes that follow the next colon. */
  function ValueBehind(json: string, from: nat): string {
    match FindChar(json, ':', from)
    case None => ""
    case Some(colon) =>
      match FindChar(json, '"', colon + 1)
      case None => ""
      case Some(open) =>
        match FindChar(json, '"', open + 1)
        case None => ""
        case Some(close) => json[open + 1..close]
  }

  function JsonString(json: string, key: string): string {
    match Find(json, Quoted(key), 0)
    case None => ""
    case Some(pos) => ValueBehind(json, pos + |Quoted(key)|)
  }

  function DepthAfter(depth: int, c: char): int {
    if c == '{' then depth + 1 else if c == '}' then depth - 1 else depth
  }

  /** How many characters of `t` the brace matcher passes, starting at `depth`. */
  function Scan(t: string, depth: int): (n: nat)
    ensures n <= |t|
  {
    if |t| == 0 || depth <= 0 then 0 else 1 + Scan(t[1..], DepthAfter(depth, t[0]))
  }

  /** The object that opens at `brace`: up to its matching brace, or to the end of the text. */
  function ObjectAt(json: string, brace: nat): string
    requires brace < |json|
  {
    json[brace..brace + 1 + Scan(json[brace + 1..], 1)]
  }

  function NestedString(json: string, outer: string, inner: string): string {
    match Find(json, Quoted(outer), 0)
    case None => ""
    case Some(pos) =>
      match FindChar(json, '{', pos)
      case None => ""
      case Some(brace) => JsonString(ObjectAt(json, brace), inner)
  }

  // ---- the code ----

  /** `json_get_string`. */
  method GetString(json: string, key: string) returns (value: string)
    ensures value == JsonString(json, key)
  {
    hide Find, FindChar;
    var search := "\"" + key + "\"";
    var pos := Find(json, search, 0);
    if pos.None? { return ""; }
    pos := FindChar(json, ':', pos.value + |search|);
    if pos.None? { return ""; }
    pos := FindChar(json, '"', pos.value + 1);
    if pos.None? { return ""; }
    var end := FindChar(json, '"', pos.value + 1);
    if end.None? { return ""; }
    return json[pos.value + 1..end.value];
  }

  /** The loop over `depth` and `end_brace` that all nested lookups share. */
  method MatchBrace(json: string, brace: nat) returns (end: nat)
    requires brace < |json|
    ensures brace < end <= |json| && json[brace..end] == ObjectAt(json, brace)
  {
    var depth := 1;
    end := brace + 1;
    while end < |json| && depth > 0
      invariant brace < end <= |json|
      invariant end + Scan(json[end..], depth) == brace + 1 + Scan(json[brace + 1..], 1)
    {
      assert json[end..][1..] == json[end + 1..];
      if json[end] == '{' {
        depth := depth + 1;
      } else if json[end] == '}' {
        depth := depth - 1;
      }
      end := end + 1;
    }
  }

  /** `json_get_nested_string`. */
  method GetNestedString(json: string, outer: string, inner: string) returns (value: string)
    ensures value == NestedString(json, outer, inner)
  {
    hide Find, FindChar, ObjectAt;
    var search := "\"" + outer + "\"";
    var pos := Find(json, search, 0);
    if pos.None? { return ""; }
    var brace := FindChar(json, '{', pos.value);
    if brace.None? { return ""; }
    var end := MatchBrace(json, brace.value);
    value := GetString(json[brace.value..end], inner);
  }
}
