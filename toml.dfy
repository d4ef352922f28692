/** An abstract TOML document as cpptoml hands it to the loaders: a table is a
    list of (key, value) entries in the table's iteration order. The text
    parser itself is not modelled. */
module Toml {
  import opened Common

  datatype Value =
    | TInt(i: int)
    | TStr(s: string)
    | TBool(b: bool)
    | TTable(table: Table)
    | TTableArray(tables: seq<Table>)
    | TArray(values: seq<Value>)

  datatype Entry = Entry(key: string, value: Value)

  datatype Table = Table(entries: seq<Entry>)

  /** table->contains(key) */
  predicate Contains(t: Table, key: string) {
    exists i :: 0 <= i < |t.entries| && t.entries[i].key == key
  }

  /** Index of the first entry with the key (keys of a TOML table are unique). */
  function IndexOf(t: Table, key: string, from: nat): (r: Option<nat>)
    requires from <= |t.entries|
    ensures r.Some? ==> from <= r.value < |t.entries| && t.entries[r.value].key == key
    ensures r.None? ==> forall i :: from <= i < |t.entries| ==> t.entries[i].key != key
    decreases |t.entries| - from
  {
    if from == |t.entries| then None
    else if t.entries[from].key == key then Some(from)
    else IndexOf(t, key, from + 1)
  }

  /** table->get(key), as an optional value. */
  function Get(t: Table, key: string): (r: Option<Value>)
    ensures r.Some? <==> Contains(t, key)
  {
    match IndexOf(t, key, 0)
    case Some(i) => Some(t.entries[i].value)
    case None => None
  }

  /** table->get_as<std::string>(key): empty unless the value is a string. */
  function GetString(t: Table, key: string): (r: Option<string>)
    ensures r.Some? <==> Get(t, key).Some? && Get(t, key).value.TStr?
  {
    match Get(t, key)
    case Some(TStr(s)) => Some(s)
    case _ => None
  }

  /** *table->get_as<std::string>(key): dereferencing an empty option is
      undefined. */
  function RequireString(t: Table, key: string): (r: Result<string>)
    ensures r.Ok? <==> GetString(t, key).Some?
    ensures r.Ok? ==> r.value == GetString(t, key).value
  {
    Deref(GetString(t, key), "\"" + key + "\" is not a string")
  }

  /** table->get_as<T>(key) for an integer type T with range [lo, hi]:
      empty unless the value is an integer; cpptoml throws when the integer
      does not fit T. */
  function GetInteger(t: Table, key: string, lo: int, hi: int): (r: Result<Option<int>>)
    ensures r.Ok? && r.value.Some? ==> lo <= r.value.value <= hi
    ensures r.Ok? && r.value.Some? <==> Get(t, key).Some? && Get(t, key).value.TInt? && lo <= Get(t, key).value.i <= hi
  {
    match Get(t, key)
    case Some(TInt(i)) =>
      if i < lo then Err(StdException("std::underflow_error"))
      else if i > hi then Err(StdException("std::overflow_error"))
      else Ok(Some(i))
    case _ => Ok(None)
  }

  const IntMin := -0x8000_0000
  const IntMax := 0x7fff_ffff
  const SizeMax := 0xffff_ffff_ffff_ffff
}
