/** What the descriptor loader of lib/descriptor/toml.cpp guarantees, as
    lemmas about the functions of module DescriptorToml. */
module DescriptorTomlLemmas {
  import opened Common
  import opened Toml
  import opened Descriptor
  import opened DescriptorToml
  import Bytes

  // ---------------------------------------------------------------------
  // Nested tables

  /** A reference reading of a table without "description": each entry is a
      table whose types, loaded under the entry's path, are concatenated in
      entry order. */
  function Joined(maps: Typemaps, entries: seq<Entry>, path: string): Result<seq<Type>>
    decreases entries
  {
    if entries == [] then Ok([])
    else
      match entries[0].value
      case TTable(sub) =>
        var head :- FromToml(maps, sub, SubPath(path, entries[0].key));
        var tail :- Joined(maps, entries[1..], path);
        Ok(head + tail)
      case _ => Err(Undefined("as_table of a value that is not a table"))
  }

  /** Every polysync::error escaping fromToml carries a type. */
  lemma FromTomlErrorTyped(maps: Typemaps, t: Table, path: string)
    ensures var r := FromToml(maps, t, path);
      r.Err? && r.error.Failure? ==> r.error.context.typeName.Some?
  {
  }

  lemma {:induction false} NestedTablesJoined(maps: Typemaps, t: Table, i: nat, path: string, acc: seq<Type>)
    requires i <= |t.entries|
    ensures NestedTables(maps, t, i, path, acc)
         == match Joined(maps, t.entries[i..], path)
            case Ok(v) => Ok(acc + v)
            case Err(e) => Err(e)
    decreases |t.entries| - i
  {
    if i == |t.entries| {
      assert t.entries[i..] == [];
      assert acc + [] == acc;
    } else {
      assert t.entries[i..][1..] == t.entries[i + 1..];
      match t.entries[i].value
      case TTable(sub) =>
        var head := FromToml(maps, sub, SubPath(path, t.entries[i].key));
        if head.Ok? {
          NestedTablesJoined(maps, t, i + 1, path, acc + head.value);
          match Joined(maps, t.entries[i + 1..], path)
          case Ok(v) =>
            assert acc + head.value + v == acc + (head.value + v);
          case Err(_) =>
        }
      case _ =>
    }
  }

  /** A table without "description" yields, in entry order, the types of
      its sub-tables, each loaded under "path.key" ("key" at the top). */
  lemma NestedTablesConcatenate(maps: Typemaps, t: Table, path: string)
    requires !Contains(t, "description")
    ensures FromToml(maps, t, path) == Joined(maps, t.entries, path)
  {
    NestedTablesJoined(maps, t, 0, path, []);
    assert t.entries[0..] == t.entries;
    match Joined(maps, t.entries, path)
    case Ok(v) =>
      assert [] + v == v;
    case Err(e) =>
      JoinedErrorTyped(maps, t.entries, path);
  }

  lemma {:induction false} JoinedErrorTyped(maps: Typemaps, entries: seq<Entry>, path: string)
    ensures var r := Joined(maps, entries, path);
      r.Err? && r.error.Failure? ==> r.error.context.typeName.Some?
    decreases entries
  {
    if entries != [] && entries[0].value.TTable? {
      FromTomlErrorTyped(maps, entries[0].value.table, SubPath(path, entries[0].key));
      JoinedErrorTyped(maps, entries[1..], path);
    }
  }

  lemma SubPathJoins(path: string, key: string)
    ensures path == [] ==> SubPath(path, key) == key
    ensures path != [] ==> SubPath(path, key) == path + "." + key && |SubPath(path, key)| == |path| + 1 + |key|
  {
  }

  // ---------------------------------------------------------------------
  // Described tables

  /** A "description" that is not a table array is rejected, with the
      path and this module as context. */
  lemma DescriptionMustBeTableArray(maps: Typemaps, t: Table, path: string)
    requires Contains(t, "description") && !Get(t, "description").value.TTableArray?
    ensures FromToml(maps, t, path)
         == Err(Failure("[description] must be a TOML table array", None, ErrorContext(Some(path), Some("description"), None)))
  {
  }

  /** A description yields exactly one type, named by the path, with one
      field per description entry. */
  lemma DescriptionMakesOneType(maps: Typemaps, t: Table, path: string, elems: seq<Table>)
    requires Get(t, "description") == Some(TTableArray(elems))
    ensures var r := FromToml(maps, t, path);
      r.Ok? ==> |r.value| == 1 && r.value[0].name == path && |r.value[0].fields| == |elems|
  {
  }

  /** An entry's error without context is reported with the path and this
      module. */
  lemma DescriptionErrorContext(maps: Typemaps, t: Table, path: string, elems: seq<Table>, msg: string, st: Option<Status>)
    requires Get(t, "description") == Some(TTableArray(elems))
    requires DescribedType(maps, elems, path) == Err(Failure(msg, st, NoContext))
    ensures FromToml(maps, t, path) == Err(Failure(msg, st, ErrorContext(Some(path), Some("description"), None)))
  {
    assert Contains(t, "description");
  }

  // ---------------------------------------------------------------------
  // Skip numbering

  /** The number of skip entries in a list of description entries. */
  function SkipsIn(elems: seq<Table>): nat {
    if elems == [] then 0
    else SkipsIn(elems[..|elems| - 1]) + (if Contains(elems[|elems| - 1], "skip") then 1 else 0)
  }

  /** The field each entry makes, from entry j on: a skip is numbered by
      the count of skips up to and including it (modulo the uint16 counter);
      any other entry is made by the field factory. */
  lemma {:induction false} BuildFieldsAt(maps: Typemaps, elems: seq<Table>, i: nat, index: nat, acc: seq<Field>, j: nat)
    requires i <= j < |elems| && |acc| == i
    requires index == SkipsIn(elems[..i]) % SkipIndexModulus
    ensures var r := BuildFields(maps, elems, i, index, acc);
      r.Ok? ==>
        if Contains(elems[j], "skip") then SkipField(elems[j], SkipsIn(elems[..j + 1]) % SkipIndexModulus) == Ok(r.value[j])
        else MakeField(maps, elems[j]) == Ok(r.value[j])
    decreases |elems| - i
  {
    var r := BuildFields(maps, elems, i, index, acc);
    if r.Ok? {
      assert elems[..i + 1][..i] == elems[..i];
      var isSkip := Contains(elems[i], "skip");
      var next := if isSkip then NextSkipIndex(index) else index;
      assert next == SkipsIn(elems[..i + 1]) % SkipIndexModulus by {
        if isSkip {
          ModSucc(SkipsIn(elems[..i]), SkipIndexModulus);
        }
      }
      var f := if isSkip then SkipField(elems[i], next) else MakeField(maps, elems[i]);
      assert f.Ok? && r == BuildFields(maps, elems, i + 1, next, acc + [f.value]);
      if j == i {
        assert (acc + [f.value])[i] == f.value;
      } else {
        BuildFieldsAt(maps, elems, i + 1, next, acc + [f.value], j);
      }
    }
  }

  lemma ModSucc(a: nat, m: nat)
    requires m > 0
    ensures (a % m + 1) % m == (a + 1) % m
  {
    var q := a / m;
    assert a == m * q + a % m;
    if a % m + 1 == m {
      Bytes.DivModUnique(a + 1, m, q + 1, 0);
      Bytes.DivModUnique(a % m + 1, m, 1, 0);
    } else {
      Bytes.DivModUnique(a + 1, m, q, a % m + 1);
      Bytes.DivModUnique(a % m + 1, m, 0, a % m + 1);
    }
  }

  /** Within one type, the k-th skip entry (k below the counter's range) is
      the field "skip-k" of order k; the count starts afresh for each type,
      and non-skip entries become fields in their TOML order. */
  lemma SkipNumbering(maps: Typemaps, elems: seq<Table>, name: string, j: nat)
    requires j < |elems|
    ensures var r := DescribedType(maps, elems, name);
      r.Ok? ==>
        r.value.name == name && |r.value.fields| == |elems|
        && (Contains(elems[j], "skip") && SkipsIn(elems[..j + 1]) < SkipIndexModulus ==>
              r.value.fields[j].name == SkipName(SkipsIn(elems[..j + 1]))
              && r.value.fields[j].kind.SkipKind? && r.value.fields[j].kind.order == SkipsIn(elems[..j + 1]))
        && (!Contains(elems[j], "skip") ==> MakeField(maps, elems[j]) == Ok(r.value.fields[j]))
  {
    assert elems[..0] == [];
    BuildFieldsAt(maps, elems, 0, 0, [], j);
  }

  // ---------------------------------------------------------------------
  // Fields

  /** A field entry needs "name" then "type". */
  lemma RequiredKeys(maps: Typemaps, t: Table)
    ensures !Contains(t, "name") ==> MakeField(maps, t) == Err(Fail("missing required \"name\" field"))
    ensures Contains(t, "name") && !Contains(t, "type") ==> MakeField(maps, t) == Err(Fail("missing required \"type\" field"))
  {
  }

  /** "count" makes an array: an integer count a fixed length, a string the
      name of the sizing field; its element is terminal exactly when the
      type is in terminalNameMap. Without "count" the field is terminal or
      nested by the same rule. */
  lemma FieldKinds(maps: Typemaps, t: Table)
    ensures var r := Construct(maps, t);
      r.Ok? ==>
        GetString(t, "name") == Some(r.value.name) && GetString(t, "type").Some?
        && var tn := GetString(t, "type").value;
           (Contains(t, "count") ==>
              r.value.kind.ArrayKind? && r.value.kind.elem == ElemOf(maps, tn)
              && (Get(t, "count").value.TInt? ==> r.value.kind.size == Fixed(Get(t, "count").value.i))
              && (Get(t, "count").value.TStr? ==> r.value.kind.size == SizedBy(Get(t, "count").value.s)))
           && (!Contains(t, "count") ==>
                r.value.kind == if tn in maps.terminalNames then TerminalKind(maps.terminalNames[tn]) else NestedKind(tn))
  {
  }

  /** A negative count is rejected by the conversion to size_t. */
  lemma NegativeCount(maps: Typemaps, t: Table)
    requires Contains(t, "name") && Contains(t, "type") && GetString(t, "name").Some? && GetString(t, "type").Some?
    requires Get(t, "count").Some? && Get(t, "count").value.TInt? && Get(t, "count").value.i < 0
    ensures Construct(maps, t) == Err(StdException("std::underflow_error"))
  {
  }

  /** The mere presence of "endian" makes a field big-endian; a "format" is
      installed exactly when present and known, and an unknown one fails. */
  lemma FieldOptions(maps: Typemaps, t: Table)
    ensures var r := MakeField(maps, t);
      r.Ok? ==>
        (r.value.byteorder == Big <==> Contains(t, "endian"))
        && (r.value.format.Formatter? <==> Contains(t, "format"))
        && (Contains(t, "format") ==>
              r.value.format == Formatter(GetString(t, "format").value) && r.value.format.name in maps.formats)
    ensures Construct(maps, t).Ok? && GetString(t, "format").Some? && GetString(t, "format").value !in maps.formats ==>
      MakeField(maps, t) == Err(Fail("unsupported formatter \"" + GetString(t, "format").value + "\""))
  {
  }
}
