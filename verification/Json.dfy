// Parsed JSON values. Numbers are kept as the text that writes them.
module Json {
  datatype Json =
    | Null
    | Bool(b: bool)
    | Number(text: string)
    | Str(s: string)
    | Arr(items: seq<Json>)
    | Obj(fields: map<string, Json>)

  // A hash, or a canonical text, that tells any two values apart.
  ghost predicate Injective(h: Json -> string) {
    forall a, b :: h(a) == h(b) ==> a == b
  }
}
