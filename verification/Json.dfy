/** JSON values as the program sees them: objects are lists of fields in enumeration order, numbers keep their
    printed text. Reading, assigning and deleting a property work on the list of fields. */
module Json {
  import opened Options

  datatype Field = Field(key: string, value: Json)

  datatype Json =
    | Null
    | Bool(flag: bool)
    | Num(text: string)
    | Str(text: string)
    | Arr(items: seq<Json>)
    | Obj(fields: seq<Field>)

  /** The value of the first field of that name. */
  function Get(fields: seq<Field>, key: string): Option<Json> {
    if fields == [] then None
    else if fields[0].key == key then Some(fields[0].value)
    else Get(fields[1..], key)
  }

  predicate Has(fields: seq<Field>, key: string) {
    Get(fields, key).Some?
  }

  /** Assignment to a property: in place when it exists, at the end otherwise. */
  function Put(fields: seq<Field>, key: string, value: Json): seq<Field> {
    if fields == [] then [Field(key, value)]
    else if fields[0].key == key then [Field(key, value)] + fields[1..]
    else [fields[0]] + Put(fields[1..], key, value)
  }

  function Without(fields: seq<Field>, key: string): seq<Field> {
    if fields == [] then []
    else if fields[0].key == key then Without(fields[1..], key)
    else [fields[0]] + Without(fields[1..], key)
  }

  lemma {:induction false} GetIsField(fields: seq<Field>, key: string)
    ensures Has(fields, key) ==> Field(key, Get(fields, key).value) in fields
    ensures !Has(fields, key) ==> forall f :: f in fields ==> f.key != key
  {
    if fields != [] {
      GetIsField(fields[1..], key);
      assert fields == [fields[0]] + fields[1..];
    }
  }

  lemma {:induction false} GetPut(fields: seq<Field>, key: string, value: Json, other: string)
    ensures Get(Put(fields, key, value), other) == if other == key then Some(value) else Get(fields, other)
  {
    if fields != [] && fields[0].key != key { GetPut(fields[1..], key, value, other); }
  }

  lemma {:induction false} GetWithout(fields: seq<Field>, key: string, other: string)
    ensures Get(Without(fields, key), other) == if other == key then None else Get(fields, other)
  {
    if fields != [] { GetWithout(fields[1..], key, other); }
  }
}
