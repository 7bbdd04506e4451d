/** JSON values as the configuration editor sees them, with its lenient accessors. */
module Json {
  import opened Common

  datatype Json =
    | Null
    | Bool(b: bool)
    | Num(n: real)
    | Str(s: string)
    | Arr(items: seq<Json>)
    | Obj(fields: Fields)

  type Fields = map<string, Json>

  function Text(f: Fields, key: string): Option<string> {
    if key in f && f[key].Str? then Some(f[key].s) else None
  }

  /** A missing or non-string field reads as the empty string. */
  function TextOr(f: Fields, key: string): string {
    if key in f && f[key].Str? then f[key].s else ""
  }

  function List(f: Fields, key: string): Option<seq<Json>> {
    if key in f && f[key].Arr? then Some(f[key].items) else None
  }

  /** A missing or non-object field reads as the empty object. */
  function Child(f: Fields, key: string): Fields {
    if key in f && f[key].Obj? then f[key].fields else map[]
  }

  function Strings(list: seq<string>): Json {
    Arr(seq(|list|, i requires 0 <= i < |list| => Str(list[i])))
  }

  /** Conversion of a floating-point number to an integer drops the fraction. */
  function Truncate(x: real): int { if x >= 0.0 then x.Floor else -((-x).Floor) }
}
