/** JSON values as the library passes them around.  Objects keep their members in
    insertion order, as `nlohmann::ordered_json` does when it prints. */
module Json {
  datatype Json =
    | JNull
    | JBool(b: bool)
    | JInt(n: int)
    | JString(s: string)
    | JArray(items: seq<Json>)
    | JObject(fields: seq<Field>)

  datatype Field = Field(key: string, value: Json)

  datatype Option<+T> = None | Some(value: T) {
    function GetOr(default: T): T {
      if Some? then value else default
    }
  }

  /** The position of `key` among the members, or the number of members. */
  function IndexOf(fields: seq<Field>, key: string): (k: nat)
    ensures k <= |fields|
    ensures k < |fields| ==> fields[k].key == key
    ensures forall i :: 0 <= i < k ==> fields[i].key != key
  {
    if fields == [] || fields[0].key == key then 0 else 1 + IndexOf(fields[1..], key)
  }

  predicate Contains(fields: seq<Field>, key: string) {
    IndexOf(fields, key) < |fields|
  }

  function Get(fields: seq<Field>, key: string): Json
    requires Contains(fields, key)
  {
    fields[IndexOf(fields, key)].value
  }

  function Lookup(fields: seq<Field>, key: string): Option<Json> {
    if Contains(fields, key) then Some(Get(fields, key)) else None
  }

  /** `obj[key] = value`: overwrite in place, or append a new member. */
  function Assign(fields: seq<Field>, key: string, value: Json): (r: seq<Field>)
    ensures Contains(r, key) && Get(r, key) == value
    ensures !Contains(fields, key) ==> r == fields + [Field(key, value)]
  {
    var k := IndexOf(fields, key);
    var r := if k < |fields| then fields[k := Field(key, value)] else fields + [Field(key, value)];
    assert r[k].key == key;
    assert IndexOf(r, key) == k;
    r
  }
}
