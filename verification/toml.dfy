/** A TOML value tree: scalars, arrays and tables keyed by
    strings. Parsing TOML text is not modelled; configuration arrives as an
    already-parsed tree. Floats are modelled as reals. */
module Toml {
  import opened Common

  datatype Value =
    | Int(i: int)
    | Str(s: string)
    | Bool(b: bool)
    | Float(f: real)
    | Array(items: seq<Value>)
    | Table(entries: map<string, Value>)

  /** `toml::Value::as_integer`. */
  function AsInteger(v: Value): (r: Option<int>)
    ensures r.Some? <==> v.Int?
    ensures v.Int? ==> r == Some(v.i)
  {
    if v.Int? then Some(v.i) else None
  }

  /** `toml::Value::as_str`. */
  function AsStr(v: Value): (r: Option<string>)
    ensures r.Some? <==> v.Str?
    ensures v.Str? ==> r == Some(v.s)
  {
    if v.Str? then Some(v.s) else None
  }

  /** `toml::Value::as_bool`. */
  function AsBool(v: Value): (r: Option<bool>)
    ensures r.Some? <==> v.Bool?
    ensures v.Bool? ==> r == Some(v.b)
  {
    if v.Bool? then Some(v.b) else None
  }

  /** `map.get(key)`. */
  function Get(m: map<string, Value>, key: string): (r: Option<Value>)
    ensures r.Some? <==> key in m
    ensures key in m ==> r == Some(m[key])
  {
    if key in m then Some(m[key]) else None
  }

  /** An integer option, when present and an integer. */
  function GetInt(m: map<string, Value>, key: string): (r: Option<int>)
    ensures r.Some? <==> key in m && m[key].Int?
    ensures r.Some? ==> r.value == m[key].i
  {
    if key in m then AsInteger(m[key]) else None
  }

  /** A boolean option, when present and a boolean. */
  function GetBool(m: map<string, Value>, key: string): (r: Option<bool>)
    ensures r.Some? <==> key in m && m[key].Bool?
    ensures r.Some? ==> r.value == m[key].b
  {
    if key in m then AsBool(m[key]) else None
  }

  /** A string option, when present and a string. */
  function GetStr(m: map<string, Value>, key: string): (r: Option<string>)
    ensures r.Some? <==> key in m && m[key].Str?
    ensures r.Some? ==> r.value == m[key].s
  {
    if key in m then AsStr(m[key]) else None
  }
}
