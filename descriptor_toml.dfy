/** The newer descriptor loader, lib/descriptor/toml.cpp: a TOML table is
    turned into a list of types. The building blocks are functions; the
    skip counter is an object, and the loader itself is a recursive method
    proved to compute FromToml. */
module DescriptorToml {
  import opened Common
  import opened Toml
  import opened Descriptor

  /** skip_index is a std::uint16_t. */
  const SkipIndexModulus := 0x1_0000

  function NextSkipIndex(index: nat): (r: nat)
    ensures r < SkipIndexModulus
  {
    (index + 1) % SkipIndexModulus
  }

  /** The field a skip entry makes, given the already incremented index:
      the size is the int under "skip". */
  function SkipField(t: Table, index: nat): (r: Result<Field>)
    ensures r.Ok? ==> r.value.name == SkipName(index) && r.value.kind.SkipKind? && r.value.kind.order == index
  {
    var size :- GetInteger(t, "skip", IntMin, IntMax);
    var n :- Deref(size, "\"skip\" is not an integer");
    Ok(Field(SkipName(index), SkipKind(n, index), Little, Plain))
  }

  /** An array's size: an integer count that fits a size_t, or else the
      name of the sizing field. */
  function CountOf(t: Table): Result<ArraySize> {
    var fixed :- GetInteger(t, "count", 0, SizeMax);
    if fixed.Some? then Ok(Fixed(fixed.value))
    else
      var name :- RequireString(t, "count");
      Ok(SizedBy(name))
  }

  /** The element (or field) type a type name denotes: terminal when the
      name is in terminalNameMap, else a described type by name. */
  function ElemOf(maps: Typemaps, typeName: string): ArrayElem {
    if typeName in maps.terminalNames then TerminalElem(maps.terminalNames[typeName]) else NestedElem(typeName)
  }

  /** ArrayFactory::operator(). */
  function ArrayField(maps: Typemaps, t: Table): Result<Field> {
    var size :- CountOf(t);
    var typeName :- RequireString(t, "type");
    var fname :- RequireString(t, "name");
    Ok(Field(fname, ArrayKind(size, ElemOf(maps, typeName)), Little, Plain))
  }

  /** FieldFactory::construct. */
  function Construct(maps: Typemaps, t: Table): Result<Field> {
    if !Contains(t, "name") then Err(Fail("missing required \"name\" field"))
    else if !Contains(t, "type") then Err(Fail("missing required \"type\" field"))
    else
      var fname :- RequireString(t, "name");
      var typeName :- RequireString(t, "type");
      if Contains(t, "count") then ArrayField(maps, t)
      else if typeName in maps.terminalNames then Ok(Field(fname, TerminalKind(maps.terminalNames[typeName]), Little, Plain))
      else Ok(Field(fname, NestedKind(typeName), Little, Plain))
  }

  /** FieldFactory::setEndian: the key's presence alone decides. */
  function SetEndian(t: Table, f: Field): (r: Field)
    ensures r.name == f.name && r.kind == f.kind && r.format == f.format
    ensures r.byteorder == Big <==> Contains(t, "endian")
  {
    f.(byteorder := if Contains(t, "endian") then Big else Little)
  }

  /** FieldFactory::setFormat. */
  function SetFormat(maps: Typemaps, t: Table, f: Field): (r: Result<Field>)
    ensures r.Ok? ==> r.value.name == f.name && r.value.kind == f.kind && r.value.byteorder == f.byteorder
  {
    if !Contains(t, "format") then Ok(f)
    else
      var name :- RequireString(t, "format");
      if name !in maps.formats then Err(Fail("unsupported formatter \"" + name + "\""))
      else Ok(f.(format := Formatter(name)))
  }

  /** FieldFactory::operator(). */
  function MakeField(maps: Typemaps, t: Table): Result<Field> {
    var f :- Construct(maps, t);
    SetFormat(maps, t, SetEndian(t, f))
  }

  /** The loop over the description's tables from element i, with the skip
      counter at index and the fields made so far. */
  function BuildFields(maps: Typemaps, elems: seq<Table>, i: nat, index: nat, acc: seq<Field>): (r: Result<seq<Field>>)
    requires i <= |elems|
    ensures r.Ok? ==> |r.value| == |acc| + |elems| - i && acc <= r.value
    decreases |elems| - i
  {
    if i == |elems| then Ok(acc)
    else if Contains(elems[i], "skip") then
      var next := NextSkipIndex(index);
      var f :- SkipField(elems[i], next);
      BuildFields(maps, elems, i + 1, next, acc + [f])
    else
      var f :- MakeField(maps, elems[i]);
      BuildFields(maps, elems, i + 1, index, acc + [f])
  }

  /** The name of a nested table: "path.key", or "key" at the top. */
  function SubPath(path: string, key: string): string {
    if path == [] then key else path + "." + key
  }

  /** The context fromToml attaches to a polysync::error, unless an inner
      call already did. */
  function WithTypeContext(e: Error, name: string): (r: Error)
    ensures e.Failure? ==> r.Failure? && r.msg == e.msg && r.status == e.status && r.context.typeName.Some?
    ensures e.Failure? && e.context.typeName.Some? ==> r == e
    ensures !e.Failure? ==> r == e
  {
    match e
    case Failure(m, st, c) =>
      if c.typeName.None? then Failure(m, st, c.(typeName := Some(name), moduleName := Some("description"))) else e
    case _ => e
  }

  /** The type a description table array makes. */
  function DescribedType(maps: Typemaps, elems: seq<Table>, name: string): Result<Type> {
    var fields :- BuildFields(maps, elems, 0, 0, []);
    Ok(Type(name, fields))
  }

  /** fromToml. */
  function FromToml(maps: Typemaps, t: Table, path: string): Result<seq<Type>>
    decreases t, 1, 0
  {
    var r :=
      if !Contains(t, "description") then NestedTables(maps, t, 0, path, [])
      else
        match Get(t, "description")
        case Some(TTableArray(elems)) =>
          var ty :- DescribedType(maps, elems, path);
          Ok([ty])
        case _ => Err(Fail("[description] must be a TOML table array"));
    if r.Err? then Err(WithTypeContext(r.error, path)) else r
  }

  /** NestedTableFactory::operator(): each entry from i on as a table of
      its own, the results concatenated in order. */
  function NestedTables(maps: Typemaps, t: Table, i: nat, path: string, acc: seq<Type>): Result<seq<Type>>
    requires i <= |t.entries|
    decreases t, 0, |t.entries| - i
  {
    if i == |t.entries| then Ok(acc)
    else
      match t.entries[i].value
      case TTable(sub) =>
        var types :- FromToml(maps, sub, SubPath(path, t.entries[i].key));
        NestedTables(maps, t, i + 1, path, acc + types)
      case _ => Err(Undefined("as_table of a value that is not a table"))
  }

  /** SkipFactory: numbers the skips of one description. */
  class SkipFactory {
    var skipIndex: nat

    constructor()
      ensures skipIndex == 0
    {
      skipIndex := 0;
    }

    static predicate Check(t: Table) {
      Contains(t, "skip")
    }

    /** SkipFactory::operator(): the counter moves on whether or not the
        size can be read. */
    method Make(t: Table) returns (r: Result<Field>)
      modifies this
      ensures skipIndex == NextSkipIndex(old(skipIndex))
      ensures r == SkipField(t, skipIndex)
    {
      skipIndex := (skipIndex + 1) % SkipIndexModulus;
      var size :- GetInteger(t, "skip", IntMin, IntMax);
      var n :- Deref(size, "\"skip\" is not an integer");
      return Ok(Field(SkipName(skipIndex), SkipKind(n, skipIndex), Little, Plain));
    }
  }

  /** fromToml as the C++ runs it: a loop over the nested tables, or a loop
      over the description's entries. */
  method Load(maps: Typemaps, t: Table, path: string) returns (r: Result<seq<Type>>)
    ensures r == FromToml(maps, t, path)
    decreases t, 1
  {
    if !Contains(t, "description") {
      r := LoadNested(maps, t, path);
    } else {
      match Get(t, "description")
      case Some(TTableArray(elems)) =>
        var ty := LoadDescription(maps, elems, path);
        r := if ty.Ok? then Ok([ty.value]) else Err(ty.error);
      case _ =>
        r := Err(Fail("[description] must be a TOML table array"));
    }
    if r.Err? {
      r := Err(WithTypeContext(r.error, path));
    }
  }

  method LoadNested(maps: Typemaps, t: Table, path: string) returns (r: Result<seq<Type>>)
    ensures r == NestedTables(maps, t, 0, path, [])
    decreases t, 0
  {
    var descriptions: seq<Type> := [];
    for i := 0 to |t.entries|
      invariant NestedTables(maps, t, 0, path, []) == NestedTables(maps, t, i, path, descriptions)
    {
      match t.entries[i].value
      case TTable(sub) =>
        var sublist :- Load(maps, sub, SubPath(path, t.entries[i].key));
        descriptions := descriptions + sublist;
      case _ =>
        return Err(Undefined("as_table of a value that is not a table"));
    }
    return Ok(descriptions);
  }

  /** The description loop: skips numbered by a fresh SkipFactory, every
      other entry made by the field factory. */
  method LoadDescription(maps: Typemaps, elems: seq<Table>, name: string) returns (r: Result<Type>)
    ensures r == DescribedType(maps, elems, name)
  {
    var description: seq<Field> := [];
    var skip := new SkipFactory();
    for i := 0 to |elems|
      invariant BuildFields(maps, elems, 0, 0, []) == BuildFields(maps, elems, i, skip.skipIndex, description)
    {
      if SkipFactory.Check(elems[i]) {
        var f :- skip.Make(elems[i]);
        description := description + [f];
      } else {
        var f :- MakeField(maps, elems[i]);
        description := description + [f];
      }
    }
    return Ok(Type(name, description));
  }
}
