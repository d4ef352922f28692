/** What the older loader of transcode/description.cpp guarantees, as lemmas
    about the functions of module PlogCatalog. */
module PlogCatalogLemmas {
  import opened Common
  import opened Toml
  import opened Descriptor
  import opened PlogCatalog

  // ---------------------------------------------------------------------
  // The catalog

  /** A load never removes or replaces an entry of the catalog: emplace
      keeps an existing entry, and inserts made by nested loads stay even
      when a later one fails. */
  lemma {:induction false} LoadKeepsEntries(namemap: NameMap, c: Catalog, name: string, t: Table)
    ensures var r := LoadSpec(namemap, c, name, t);
      forall k :: k in c ==> k in r.catalog && r.catalog[k] == c[k]
    decreases t, 1, 0
  {
    if !Contains(t, "description") {
      NestedKeepsEntries(namemap, c, name, t, 0);
    }
  }

  lemma {:induction false} NestedKeepsEntries(namemap: NameMap, c: Catalog, name: string, t: Table, i: nat)
    requires i <= |t.entries|
    ensures var r := LoadNested(namemap, c, name, t, i);
      forall k :: k in c ==> k in r.catalog && r.catalog[k] == c[k]
    decreases t, 0, |t.entries| - i
  {
    if i < |t.entries| {
      match t.entries[i].value
      case TTable(sub) =>
        var sn := name + "." + t.entries[i].key;
        LoadKeepsEntries(namemap, c, sn, sub);
        var r := LoadSpec(namemap, c, sn, sub);
        if r.error.None? {
          NestedKeepsEntries(namemap, r.catalog, name, t, i + 1);
        }
      case _ =>
    }
  }

  /** A name under "name.": name + "." is a prefix of it. */
  predicate Under(name: string, k: string) {
    name + "." <= k
  }

  lemma UnderNested(name: string, key: string, k: string)
    requires k == name + "." + key || Under(name + "." + key, k)
    ensures Under(name, k)
  {
    var sn := name + "." + key;
    assert sn[..|name + "."|] == name + ".";
    if k != sn {
      assert k[..|sn|] == sn;
      assert k[..|name + "."|] == sn[..|name + "."|];
    }
  }

  /** A load registers nothing but the table's own name and names below it,
      "name.key", "name.key.key2" and so on. */
  lemma {:induction false} LoadAddsOnlyBelow(namemap: NameMap, c: Catalog, name: string, t: Table)
    ensures var r := LoadSpec(namemap, c, name, t);
      forall k :: k in r.catalog && k !in c ==> k == name || Under(name, k)
    decreases t, 1, 0
  {
    if !Contains(t, "description") {
      NestedAddsOnlyBelow(namemap, c, name, t, 0);
    }
  }

  lemma {:induction false} NestedAddsOnlyBelow(namemap: NameMap, c: Catalog, name: string, t: Table, i: nat)
    requires i <= |t.entries|
    ensures var r := LoadNested(namemap, c, name, t, i);
      forall k :: k in r.catalog && k !in c ==> Under(name, k)
    decreases t, 0, |t.entries| - i
  {
    if i < |t.entries| {
      match t.entries[i].value
      case TTable(sub) =>
        var key := t.entries[i].key;
        var sn := name + "." + key;
        LoadAddsOnlyBelow(namemap, c, sn, sub);
        var r := LoadSpec(namemap, c, sn, sub);
        forall k | k in r.catalog && k !in c
          ensures Under(name, k)
        {
          UnderNested(name, key, k);
        }
        if r.error.None? {
          NestedAddsOnlyBelow(namemap, r.catalog, name, t, i + 1);
        }
      case _ =>
    }
  }

  /** A table without "description" that loads without error registers each
      of its described sub-tables under "name.key". */
  lemma {:induction false} NestedRegistered(namemap: NameMap, c: Catalog, name: string, t: Table, i: nat, j: nat)
    requires !Contains(t, "description") && i <= j < |t.entries|
    requires t.entries[j].value.TTable? && Contains(t.entries[j].value.table, "description")
    ensures var r := LoadNested(namemap, c, name, t, i);
      r.error.None? ==> name + "." + t.entries[j].key in r.catalog
    decreases |t.entries| - i
  {
    var r := LoadNested(namemap, c, name, t, i);
    if r.error.None? {
      var sub := t.entries[i].value.table;
      var sn := name + "." + t.entries[i].key;
      var ri := LoadSpec(namemap, c, sn, sub);
      assert ri.error.None? && r == LoadNested(namemap, ri.catalog, name, t, i + 1);
      if i == j {
        assert sn in ri.catalog;
        NestedKeepsEntries(namemap, ri.catalog, name, t, i + 1);
      } else {
        NestedRegistered(namemap, ri.catalog, name, t, i + 1, j);
      }
    }
  }

  /** The top-level form of NestedRegistered. */
  lemma SubTablesRegistered(namemap: NameMap, c: Catalog, name: string, t: Table, j: nat)
    requires !Contains(t, "description") && j < |t.entries|
    requires t.entries[j].value.TTable? && Contains(t.entries[j].value.table, "description")
    ensures var r := LoadSpec(namemap, c, name, t);
      r.error.None? ==> name + "." + t.entries[j].key in r.catalog
  {
    NestedRegistered(namemap, c, name, t, 0, j);
  }

  /** A description that is a table array and loads without error is
      inserted under the name, unless the name is already taken, in which
      case the catalog is left as it was. */
  lemma DescribedInstalls(namemap: NameMap, c: Catalog, name: string, t: Table, elems: seq<Table>, desc: seq<PField>)
    requires Get(t, "description") == Some(TTableArray(elems))
    requires Description(namemap, elems, 0, []) == Ok(desc)
    ensures var r := LoadSpec(namemap, c, name, t);
      r.error.None? && r.catalog.Keys == c.Keys + {name}
      && (name in c ==> r.catalog == c)
      && (name !in c ==> r.catalog == c[name := desc])
  {
    assert Contains(t, "description");
  }

  /** A "description" that is not a table array is rejected, with the name
      and this module as context, and nothing is inserted. */
  lemma DescriptionMustBeTableArray(namemap: NameMap, c: Catalog, name: string, t: Table)
    requires Contains(t, "description") && !Get(t, "description").value.TTableArray?
    ensures LoadSpec(namemap, c, name, t)
         == Loaded(c, Some(Failure("[description] must be a table array", None, ErrorContext(Some(name), Some("description"), None))))
  {
  }

  /** Every polysync::error escaping a load names a type and the module
      "description"; one raised by a field entry names the table loaded. */
  lemma {:induction false} LoadErrorContext(namemap: NameMap, c: Catalog, name: string, t: Table)
    ensures var r := LoadSpec(namemap, c, name, t);
      r.error.Some? && r.error.value.Failure? ==>
        r.error.value.context.typeName.Some? && r.error.value.context.moduleName == Some("description")
  {
  }

  /** An entry's error without context is reported with the table's name. */
  lemma EntryErrorContext(namemap: NameMap, c: Catalog, name: string, t: Table, elems: seq<Table>, msg: string)
    requires Get(t, "description") == Some(TTableArray(elems))
    requires Description(namemap, elems, 0, []) == Err(Fail(msg))
    ensures LoadSpec(namemap, c, name, t)
         == Loaded(c, Some(Failure(msg, None, ErrorContext(Some(name), Some("description"), None))))
  {
    assert Contains(t, "description");
  }

  // ---------------------------------------------------------------------
  // Description entries

  /** Each entry of a description makes the field at its own position. */
  lemma {:induction false} DescriptionAt(namemap: NameMap, elems: seq<Table>, i: nat, acc: seq<PField>, j: nat)
    requires i <= j < |elems| && |acc| == i
    ensures var r := Description(namemap, elems, i, acc);
      r.Ok? ==> EntryField(namemap, elems[j]) == Ok(r.value[j])
    decreases |elems| - i
  {
    var r := Description(namemap, elems, i, acc);
    if r.Ok? {
      var f := EntryField(namemap, elems[i]);
      assert f.Ok? && r == Description(namemap, elems, i + 1, acc + [f.value]);
      if j == i {
        assert (acc + [f.value])[i] == f.value;
      } else {
        DescriptionAt(namemap, elems, i + 1, acc + [f.value], j);
      }
    }
  }

  /** A loaded description has one field per entry, in entry order. */
  lemma DescriptionInOrder(namemap: NameMap, elems: seq<Table>)
    ensures var r := Description(namemap, elems, 0, []);
      r.Ok? ==> |r.value| == |elems| && forall j :: 0 <= j < |elems| ==> EntryField(namemap, elems[j]) == Ok(r.value[j])
  {
    var r := Description(namemap, elems, 0, []);
    if r.Ok? {
      forall j | 0 <= j < |elems|
        ensures EntryField(namemap, elems[j]) == Ok(r.value[j])
      {
        DescriptionAt(namemap, elems, 0, [], j);
      }
    }
  }

  /** A skip entry is the field "skip" of the given int size, whatever else
      the entry holds. */
  lemma SkipEntryNamedSkip(namemap: NameMap, fp: Table)
    requires Contains(fp, "skip")
    ensures var r := EntryField(namemap, fp);
      r.Ok? ==> Get(fp, "skip").value.TInt? && r.value == PField("skip", PSkip(Get(fp, "skip").value.i), false, Plain)
    ensures Get(fp, "skip").value.TInt? && IntMin <= Get(fp, "skip").value.i <= IntMax ==> EntryField(namemap, fp).Ok?
  {
  }

  /** A field entry needs "name" then "type". */
  lemma RequiredKeys(namemap: NameMap, fp: Table)
    requires !Contains(fp, "skip")
    ensures !Contains(fp, "name") ==> EntryField(namemap, fp) == Err(Fail("missing required \"name\" field"))
    ensures Contains(fp, "name") && !Contains(fp, "type") ==> EntryField(namemap, fp) == Err(Fail("missing required \"type\" field"))
  {
  }

  /** "count" makes an array, fixed-size for an integer count and sized by
      the named field for a string count; the element, like a plain
      field's type, is terminal exactly when the type is in the name map. */
  lemma FieldKinds(namemap: NameMap, fp: Table)
    requires !Contains(fp, "skip")
    ensures var r := EntryField(namemap, fp);
      r.Ok? ==>
        GetString(fp, "name") == Some(r.value.name) && GetString(fp, "type").Some?
        && var ty := GetString(fp, "type").value;
           (Contains(fp, "count") ==>
              r.value.kind.PArray? && r.value.kind.elem == ElemOf(namemap, ty)
              && (Get(fp, "count").value.TInt? ==> r.value.kind.size == Fixed(Get(fp, "count").value.i))
              && (Get(fp, "count").value.TStr? ==> r.value.kind.size == SizedBy(Get(fp, "count").value.s)))
           && (!Contains(fp, "count") ==>
                r.value.kind == if ty in namemap then PTerminal(namemap[ty]) else PNested(ty))
  {
  }

  /** "endian" alone makes a field big-endian; "format" installs the hex
      formatter for "hex" and nothing for any other name, which does not
      make the entry fail. */
  lemma FieldOptions(namemap: NameMap, fp: Table)
    requires !Contains(fp, "skip")
    ensures var r := EntryField(namemap, fp);
      r.Ok? ==>
        (r.value.bigendian <==> Contains(fp, "endian"))
        && (r.value.format == HexFormat <==> GetString(fp, "format") == Some("hex"))
        && (r.value.format != HexFormat ==> r.value.format == Plain)
    ensures GetString(fp, "format").Some? ==>
      (EntryField(namemap, fp).Ok? <==>
        Contains(fp, "name") && Contains(fp, "type") && GetString(fp, "name").Some? && GetString(fp, "type").Some?
        && KindOf(namemap, fp, GetString(fp, "type").value).Ok?)
  {
  }
}
