/** The older descriptor loader, transcode/description.cpp: the types a TOML
    table describes are inserted into a catalog map that the caller owns.
    What one table entry becomes and what a whole load does to the catalog
    are functions; the loader itself is an object holding the catalog, whose
    recursive Load method is proved to compute LoadSpec. */
module PlogCatalog {
  import opened Common
  import opened Toml
  import opened Descriptor

  /** The variant of an older-style field description. */
  datatype PKind =
    | PTerminal(terminal: Terminal)
    | PNested(typeName: string)
    | PSkip(skipSize: int)
    | PArray(size: ArraySize, elem: ArrayElem)

  /** descriptor::field: a name, its type, and the two optional tunings. */
  datatype PField = PField(name: string, kind: PKind, bigendian: bool, format: Format)

  /** descriptor::catalog_type: type name to its fields in order. */
  type Catalog = map<string, seq<PField>>

  /** descriptor::namemap: TOML type names of the terminal types. */
  type NameMap = map<string, Terminal>

  /** The one formatter the older loader knows. */
  const HexFormat := Formatter("hex")

  /** A skip entry: a field literally named "skip" holding the int size. */
  function SkipEntry(fp: Table): (r: Result<PField>)
    ensures r.Ok? ==> r.value.name == "skip" && r.value.kind.PSkip?
  {
    var size :- GetInteger(fp, "skip", IntMin, IntMax);
    var n :- Deref(size, "\"skip\" is not an integer");
    Ok(PField("skip", PSkip(n), false, Plain))
  }

  /** The element type an array's "type" names: terminal when in the name
      map, else a described type by name. */
  function ElemOf(namemap: NameMap, ty: string): ArrayElem {
    if ty in namemap then TerminalElem(namemap[ty]) else NestedElem(ty)
  }

  /** The variant a field entry of type ty holds. */
  function KindOf(namemap: NameMap, fp: Table, ty: string): Result<PKind> {
    if Contains(fp, "count") then
      var fixed :- GetInteger(fp, "count", 0, SizeMax);
      var size :-
        if fixed.Some? then Ok(Fixed(fixed.value))
        else
          var s :- RequireString(fp, "count");
          Ok(SizedBy(s));
      Ok(PArray(size, ElemOf(namemap, ty)))
    else if ty in namemap then Ok(PTerminal(namemap[ty]))
    else Ok(PNested(ty))
  }

  /** The formatter a "format" key selects: "hex", or none at all (any other
      name is only warned about). */
  function FormatOf(fp: Table): (r: Result<Format>)
    ensures r.Ok? ==> r.value == Plain || r.value == HexFormat
    ensures r.Ok? && r.value == HexFormat <==> GetString(fp, "format") == Some("hex")
  {
    if !Contains(fp, "format") then Ok(Plain)
    else
      var format :- RequireString(fp, "format");
      Ok(if format == "hex" then HexFormat else Plain)
  }

  /** A normal field entry. */
  function FieldEntry(namemap: NameMap, fp: Table): Result<PField> {
    if !Contains(fp, "name") then Err(Fail("missing required \"name\" field"))
    else if !Contains(fp, "type") then Err(Fail("missing required \"type\" field"))
    else
      var fname :- RequireString(fp, "name");
      var ty :- RequireString(fp, "type");
      var kind :- KindOf(namemap, fp, ty);
      var format :- FormatOf(fp);
      Ok(PField(fname, kind, Contains(fp, "endian"), format))
  }

  /** What one entry of a description table array becomes. */
  function EntryField(namemap: NameMap, fp: Table): Result<PField> {
    if Contains(fp, "skip") then SkipEntry(fp) else FieldEntry(namemap, fp)
  }

  /** The loop over a description from entry i on, with the fields so far. */
  function Description(namemap: NameMap, elems: seq<Table>, i: nat, acc: seq<PField>): (r: Result<seq<PField>>)
    requires i <= |elems|
    ensures r.Ok? ==> |r.value| == |acc| + |elems| - i && acc <= r.value
    decreases |elems| - i
  {
    if i == |elems| then Ok(acc)
    else
      var f :- EntryField(namemap, elems[i]);
      Description(namemap, elems, i + 1, acc + [f])
  }

  /** catalog.emplace(name, desc): inserts only when the name is new. */
  function Emplace(c: Catalog, name: string, desc: seq<PField>): (r: Catalog)
    ensures r.Keys == c.Keys + {name}
    ensures forall k :: k in c ==> r[k] == c[k]
    ensures name !in c ==> r[name] == desc
  {
    if name in c then c else c[name := desc]
  }

  /** The catalog a load leaves behind (inserts made before an error stay),
      and the error it throws, if any. */
  datatype Loaded = Loaded(catalog: Catalog, error: Option<Error>)

  /** The handler around load: a polysync::error gets the type being loaded
      unless an inner call named one, and always the module "description". */
  function WithLoadContext(e: Error, name: string): (r: Error)
    ensures e.Failure? ==> r.Failure? && r.msg == e.msg && r.status == e.status && r.context.field == e.context.field
    ensures e.Failure? ==> r.context.moduleName == Some("description")
    ensures e.Failure? ==> r.context.typeName == if e.context.typeName.Some? then e.context.typeName else Some(name)
    ensures !e.Failure? ==> r == e
  {
    match e
    case Failure(m, st, ctx) =>
      var ty := if ctx.typeName.None? then Some(name) else ctx.typeName;
      Failure(m, st, ctx.(typeName := ty, moduleName := Some("description")))
    case _ => e
  }

  /** A described table: its description must be a table array. */
  function LoadDescribed(namemap: NameMap, c: Catalog, name: string, dt: Value): Loaded {
    if !dt.TTableArray? then Loaded(c, Some(Fail("[description] must be a table array")))
    else
      match Description(namemap, dt.tables, 0, [])
      case Ok(desc) => Loaded(Emplace(c, name, desc), None)
      case Err(e) => Loaded(c, Some(e))
  }

  /** descriptor::load(name, table, catalog). */
  function LoadSpec(namemap: NameMap, c: Catalog, name: string, t: Table): Loaded
    decreases t, 1, 0
  {
    var r :=
      if !Contains(t, "description") then LoadNested(namemap, c, name, t, 0)
      else LoadDescribed(namemap, c, name, Get(t, "description").value);
    match r.error
    case Some(e) => Loaded(r.catalog, Some(WithLoadContext(e, name)))
    case None => r
  }

  /** The recursion over the entries of a table without "description", from
      entry i on: each is loaded as a table named "name.key", stopping at the
      first error. */
  function LoadNested(namemap: NameMap, c: Catalog, name: string, t: Table, i: nat): Loaded
    requires i <= |t.entries|
    decreases t, 0, |t.entries| - i
  {
    if i == |t.entries| then Loaded(c, None)
    else
      match t.entries[i].value
      case TTable(sub) =>
        var r := LoadSpec(namemap, c, name + "." + t.entries[i].key, sub);
        if r.error.Some? then r else LoadNested(namemap, r.catalog, name, t, i + 1)
      case _ => Loaded(c, Some(Undefined("as_table of a value that is not a table")))
  }

  /** The caller's catalog, with the loader working on it in place. */
  class TypeCatalog {
    /** the terminal type names (descriptor::namemap) */
    const namemap: NameMap
    /** the catalog's contents */
    var types: Catalog

    constructor(namemap: NameMap)
      ensures this.namemap == namemap && types == map[]
    {
      this.namemap := namemap;
      types := map[];
    }

    /** The loop over a description: each field is appended, then the last
        one is tuned by "endian" and "format". */
    method Describe(elems: seq<Table>) returns (r: Result<seq<PField>>)
      ensures r == Description(namemap, elems, 0, [])
    {
      var desc: seq<PField> := [];
      for i := 0 to |elems|
        invariant Description(namemap, elems, 0, []) == Description(namemap, elems, i, desc)
      {
        var fp := elems[i];
        if Contains(fp, "skip") {
          var f :- SkipEntry(fp);
          desc := desc + [f];
        } else {
          if !Contains(fp, "name") {
            return Err(Fail("missing required \"name\" field"));
          }
          if !Contains(fp, "type") {
            return Err(Fail("missing required \"type\" field"));
          }
          var fname :- RequireString(fp, "name");
          var ty :- RequireString(fp, "type");
          var kind :- KindOf(namemap, fp, ty);
          var before := desc;
          desc := desc + [PField(fname, kind, false, Plain)];
          var last := |desc| - 1;
          if Contains(fp, "endian") {
            desc := desc[last := desc[last].(bigendian := true)];
          }
          if Contains(fp, "format") {
            var format :- RequireString(fp, "format");
            if format == "hex" {
              desc := desc[last := desc[last].(format := HexFormat)];
            }
          }
          assert desc == before + [PField(fname, kind, Contains(fp, "endian"), FormatOf(fp).value)];
        }
      }
      return Ok(desc);
    }

    /** descriptor::load: registers the types the table describes. */
    method Load(name: string, t: Table) returns (err: Option<Error>)
      modifies this
      ensures Loaded(types, err) == LoadSpec(namemap, old(types), name, t)
      decreases t
    {
      if !Contains(t, "description") {
        for i := 0 to |t.entries|
          invariant LoadNested(namemap, old(types), name, t, 0) == LoadNested(namemap, types, name, t, i)
        {
          match t.entries[i].value
          case TTable(sub) =>
            var e := Load(name + "." + t.entries[i].key, sub);
            if e.Some? {
              return Some(WithLoadContext(e.value, name));
            }
          case _ =>
            return Some(WithLoadContext(Undefined("as_table of a value that is not a table"), name));
        }
        return None;
      }
      var dt := Get(t, "description").value;
      if !dt.TTableArray? {
        return Some(WithLoadContext(Fail("[description] must be a table array"), name));
      }
      var desc := Describe(dt.tables);
      if desc.Err? {
        return Some(WithLoadContext(desc.error, name));
      }
      if name !in types {
        types := types[name := desc.value];
      }
      return None;
    }
  }
}
