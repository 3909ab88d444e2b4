/**
JSON values, and the printer and parser of the JSON library as a parameter.
*/
module JsonValue {
  import opened Text

  datatype Json =
    | Null
    | Bool(b: bool)
    | Int(n: int)
    | Str(s: string)
    | Arr(items: seq<Json>)
    | Obj(fields: map<string, Json>)
  {
    // json::contains: false on anything but an object.
    predicate Contains(key: string) {
      Obj? && key in fields
    }

    // json::value(key, default) with a default of type json: None stands for
    // the type_error thrown when the receiver is not an object.
    function Value(key: string, default: Json): Option<Json> {
      if !Obj? then None else Some(if key in fields then fields[key] else default)
    }

    // json::value(key, default) with a string default: also throws when the
    // member is there and is not a string.
    function StrValue(key: string, default: string): Option<string> {
      if !Obj? then None
      else if key !in fields then Some(default)
      else if fields[key].Str? then Some(fields[key].s)
      else None
    }

    // json::value(key, default) with an integer default; a boolean converts to 0 or 1.
    function IntValue(key: string, default: int): Option<int> {
      if !Obj? then None
      else if key !in fields then Some(default)
      else if fields[key].Int? then Some(fields[key].n)
      else if fields[key].Bool? then Some(if fields[key].b then 1 else 0)
      else None
    }

    // What iterating over a value visits: nothing for null, the members of an object in the
    // order of their keys, and any other value itself.
    function Elements(): seq<Json> {
      match this
      case Null => []
      case Arr(items) => items
      case Obj(fields) =>
        var keys := SortedKeys(fields.Keys);
        seq(|keys|, i requires 0 <= i < |keys| => assert keys[i] in keys; fields[keys[i]])
      case _ => [this]
    }

    // The same with keys, as items() gives them: positions for an array, "" for a plain value.
    function Entries(): seq<(string, Json)> {
      match this
      case Null => []
      case Arr(items) => seq(|items|, i requires 0 <= i < |items| => (Decimal(i), items[i]))
      case Obj(fields) =>
        var keys := SortedKeys(fields.Keys);
        seq(|keys|, i requires 0 <= i < |keys| => assert keys[i] in keys; (keys[i], fields[keys[i]]))
      case _ => [("", this)]
    }
  }

  // dump() and parse() of the JSON library; parse gives None where it throws.
  datatype Codec = Codec(dump: Json -> string, parse: string -> Option<Json>)

  // What the library promises: text it printed parses back, and is not empty.
  ghost predicate Faithful(c: Codec) {
    forall j: Json :: c.dump(j) != "" && c.parse(c.dump(j)) == Some(j)
  }

  // Writing a member only where there is something to write.
  function PutIf(m: map<string, Json>, cond: bool, key: string, value: Json): map<string, Json> {
    if cond then m[key := value] else m
  }
}
