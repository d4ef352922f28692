/** What the tables of transcode/core.cpp hold, as lemmas about module
    Typemaps: first the insertion rule of a std::map built from a list,
    then the entries themselves. */
module TypemapLemmas {
  import opened Common
  import opened Layout
  import opened LayoutLemmas
  import opened PlogCore
  import opened Typemaps

  // ---------------------------------------------------------------------
  // A map built from an initializer list

  /** The keys of the map are the keys of the entries. */
  lemma {:induction false} FromEntriesKeys<K, V>(es: seq<(K, V)>, k: K)
    ensures k in FromEntries(es) <==> exists i :: 0 <= i < |es| && es[i].0 == k
    decreases |es|
  {
    if es != [] {
      var init := es[..|es| - 1];
      FromEntriesKeys(init, k);
      if exists i :: 0 <= i < |init| && init[i].0 == k {
        var i :| 0 <= i < |init| && init[i].0 == k;
        assert es[i].0 == k;
      }
      if exists i :: 0 <= i < |es| && es[i].0 == k {
        var i :| 0 <= i < |es| && es[i].0 == k;
        if i < |init| {
          assert init[i].0 == k;
        }
      }
    }
  }

  /** Each key maps to the value of its first entry; later entries of the
      same key are dropped. */
  lemma {:induction false} FromEntriesFirst<K, V>(es: seq<(K, V)>, j: nat)
    requires j < |es| && forall i :: 0 <= i < j ==> es[i].0 != es[j].0
    ensures es[j].0 in FromEntries(es) && FromEntries(es)[es[j].0] == es[j].1
    decreases |es|
  {
    var init := es[..|es| - 1];
    if j < |es| - 1 {
      FromEntriesFirst(init, j);
    } else {
      FromEntriesKeys(init, es[j].0);
      assert es[j].0 !in FromEntries(init);
    }
  }

  /** Hence every value in the map is the value of the first entry of its
      key. */
  lemma FromEntriesValue<K, V>(es: seq<(K, V)>, k: K)
    requires k in FromEntries(es)
    ensures exists j :: 0 <= j < |es| && es[j].0 == k && FromEntries(es)[k] == es[j].1
                        && forall i :: 0 <= i < j ==> es[i].0 != k
  {
    FromEntriesKeys(es, k);
    var j := FirstOf(es, k);
    FromEntriesFirst(es, j);
  }

  /** The position of the first entry with key k. */
  ghost function FirstOf<K, V>(es: seq<(K, V)>, k: K): (j: nat)
    requires exists i :: 0 <= i < |es| && es[i].0 == k
    ensures j < |es| && es[j].0 == k && forall i :: 0 <= i < j ==> es[i].0 != k
  {
    if es[0].0 == k then 0
    else
      assert exists i :: 0 <= i < |es[1..]| && es[1..][i].0 == k by {
        var i :| 0 <= i < |es| && es[i].0 == k;
        assert es[1..][i - 1].0 == k;
      }
      1 + FirstOf(es[1..], k)
  }

  // ---------------------------------------------------------------------
  // The entries

  lemma StaticLookup(host: Host, j: nat)
    requires j < |StaticEntries(host)| && j != 12
    ensures var es := StaticEntries(host);
      es[j].0 in StaticTypemap(host) && StaticTypemap(host)[es[j].0] == es[j].1
  {
    FromEntriesFirst(StaticEntries(host), j);
  }

  lemma DynamicLookup(host: Host, j: nat)
    requires j < |DynamicEntries(host)|
    ensures var es := DynamicEntries(host);
      es[j].0 in DynamicTypemap(host) && DynamicTypemap(host)[es[j].0] == es[j].1
  {
    FromEntriesFirst(DynamicEntries(host), j);
  }

  /** The position of the n-byte integer types among the first entries. */
  function IntIndex(signed: bool, n: nat): (j: nat)
    ensures j < 8
  {
    (if signed then 0 else 4) + (if n == 1 then 0 else if n == 2 then 1 else if n == 4 then 2 else 3)
  }

  /** The integer types: "intN" and "uintN" of N/8 bytes, under the same
      name and size in both tables. */
  lemma IntegerEntries(host: Host, signed: bool, n: nat)
    requires n == 1 || n == 2 || n == 4 || n == 8
    ensures Num(signed, n) in StaticTypemap(host) && StaticTypemap(host)[Num(signed, n)] == Atom(IntName(signed, n), n)
    ensures IntName(signed, n) in DynamicTypemap(host) && DynamicTypemap(host)[IntName(signed, n)] == Atom(IntName(signed, n), n)
  {
    if signed {
      if n == 1 { IntegerEntriesAt(host, 0); }
      else if n == 2 { IntegerEntriesAt(host, 1); }
      else if n == 4 { IntegerEntriesAt(host, 2); }
      else { IntegerEntriesAt(host, 3); }
    } else {
      if n == 1 { IntegerEntriesAt(host, 4); }
      else if n == 2 { IntegerEntriesAt(host, 5); }
      else if n == 4 { IntegerEntriesAt(host, 6); }
      else { IntegerEntriesAt(host, 7); }
    }
  }

  /** Entry j of both tables, for one of the eight integer types. */
  lemma IntegerEntriesAt(host: Host, j: nat)
    requires j < 8
    ensures var signed, n := j < 4, [1, 2, 4, 8][j % 4];
      Num(signed, n) in StaticTypemap(host) && StaticTypemap(host)[Num(signed, n)] == Atom(IntName(signed, n), n) &&
      IntName(signed, n) in DynamicTypemap(host) && DynamicTypemap(host)[IntName(signed, n)] == Atom(IntName(signed, n), n)
  {
    StaticLookup(host, j);
    DynamicLookup(host, j);
  }

  /** ">uintN" has the size of "uintN". */
  lemma BigEndianEntries(host: Host, n: nat)
    requires n == 1 || n == 2 || n == 4 || n == 8
    ensures ">" + IntName(false, n) in DynamicTypemap(host) && IntName(false, n) in DynamicTypemap(host)
    ensures DynamicTypemap(host)[">" + IntName(false, n)].size == DynamicTypemap(host)[IntName(false, n)].size == n
  {
    var j := IntIndex(false, n) + 4;
    DynamicLookup(host, j);
    assert DynamicEntries(host)[j].0 == ">" + IntName(false, n) && DynamicEntries(host)[j].1.size == n;
    IntegerEntries(host, false, n);
  }

  /** "ps_guid" is 8 bytes and "ps_msg_type" 4. */
  lemma GuidAndMsgType(host: Host)
    ensures "ps_guid" in DynamicTypemap(host) && DynamicTypemap(host)["ps_guid"].size == 8
    ensures "ps_msg_type" in DynamicTypemap(host) && DynamicTypemap(host)["ps_msg_type"].size == 4
  {
    DynamicLookup(host, 12);
    DynamicLookup(host, 13);
  }

  /** msg_header and log_record are sized by the packed fold, 20 and 40
      bytes, and both tables hold the same entry for them; a timestamp is 8
      bytes in both. */
  lemma TablesAgree(host: Host)
    ensures MsgHeader in StaticTypemap(host) && "msg_header" in DynamicTypemap(host)
    ensures StaticTypemap(host)[MsgHeader] == DynamicTypemap(host)["msg_header"] == Atom("msg_header", 20)
    ensures LogRecord in StaticTypemap(host) && "log_record" in DynamicTypemap(host)
    ensures StaticTypemap(host)[LogRecord] == DynamicTypemap(host)["log_record"] == Atom("log_record", 40)
    ensures Timestamp in StaticTypemap(host) && "ps_timestamp" in DynamicTypemap(host)
    ensures StaticTypemap(host)[Timestamp].size == DynamicTypemap(host)["ps_timestamp"].size == 8
  {
    MsgHeaderPacked(host);
    LogRecordPacked(host);
    StaticLookup(host, 8);
    StaticLookup(host, 9);
    StaticLookup(host, 7);
    DynamicLookup(host, 14);
    DynamicLookup(host, 15);
    DynamicLookup(host, 16);
  }

  /** timestamp is std::uint64_t, so its static entry has the key of the
      earlier "uint64" entry and is dropped: a timestamp is described as
      "uint64", and no static entry is named "ps_timestamp". */
  lemma TimestampShadowed(host: Host)
    ensures Timestamp in StaticTypemap(host) && StaticTypemap(host)[Timestamp] == Atom("uint64", 8)
    ensures forall t :: t in StaticTypemap(host) ==> StaticTypemap(host)[t].name != "ps_timestamp"
  {
    var es := StaticEntries(host);
    StaticLookup(host, 7);
    forall t | t in StaticTypemap(host)
      ensures StaticTypemap(host)[t].name != "ps_timestamp"
    {
      FromEntriesValue(es, t);
      var j :| 0 <= j < |es| && es[j].0 == t && StaticTypemap(host)[t] == es[j].1 && forall i :: 0 <= i < j ==> es[i].0 != t;
      if j == 12 {
        assert false;
      }
    }
  }

  // ---------------------------------------------------------------------
  // describe<Struct>() over the static table

  /** msg_header's members are described as a uint32 and two uint64s. */
  lemma DescribeMsgHeader(host: Host)
    ensures Describe(StaticTypemap(host), MsgHeader.members)
         == Ok([FieldDescriptor("type", "uint32"), FieldDescriptor("timestamp", "uint64"), FieldDescriptor("src_guid", "uint64")])
  {
    var tm := StaticTypemap(host);
    var ms := MsgHeader.members;
    IntegerEntries(host, false, 4);
    IntegerEntries(host, false, 8);
    assert tm[UInt32].name == "uint32" && tm[UInt64].name == "uint64";
    DescribeFields(tm, ms);
    var r := Describe(tm, ms);
    assert r.Ok?;
    assert r.value[0] == FieldDescriptor("type", "uint32");
    assert r.value[1] == FieldDescriptor("timestamp", "uint64");
    assert r.value[2] == FieldDescriptor("src_guid", "uint64");
    assert |r.value| == 3;
    assert r.value == [FieldDescriptor("type", "uint32"), FieldDescriptor("timestamp", "uint64"), FieldDescriptor("src_guid", "uint64")];
  }

  /** log_record's members: three uint32, a uint64 and the msg_header. */
  lemma DescribeLogRecord(host: Host)
    ensures Describe(StaticTypemap(host), LogRecord.members)
         == Ok([FieldDescriptor("index", "uint32"), FieldDescriptor("size", "uint32"), FieldDescriptor("prev_size", "uint32"),
                FieldDescriptor("timestamp", "uint64"), FieldDescriptor("header", "msg_header")])
  {
    var tm := StaticTypemap(host);
    var ms := LogRecord.members;
    IntegerEntries(host, false, 4);
    IntegerEntries(host, false, 8);
    StaticLookup(host, 8);
    assert tm[UInt32].name == "uint32" && tm[UInt64].name == "uint64" && tm[MsgHeader].name == "msg_header";
    DescribeFields(tm, ms);
    var r := Describe(tm, ms);
    assert r.Ok?;
    assert r.value[0] == FieldDescriptor("index", "uint32");
    assert r.value[1] == FieldDescriptor("size", "uint32");
    assert r.value[2] == FieldDescriptor("prev_size", "uint32");
    assert r.value[3] == FieldDescriptor("timestamp", "uint64");
    assert r.value[4] == FieldDescriptor("header", "msg_header");
    assert |r.value| == 5;
    assert r.value == [FieldDescriptor("index", "uint32"), FieldDescriptor("size", "uint32"), FieldDescriptor("prev_size", "uint32"),
                       FieldDescriptor("timestamp", "uint64"), FieldDescriptor("header", "msg_header")];
  }

  /** log_module cannot be described: hash_type has no static entry. */
  lemma DescribeLogModule(host: Host)
    ensures Describe(StaticTypemap(host), LogModule.members) == Err(StdException("missing typemap for build_hash"))
  {
    IntegerEntries(host, false, 1);
    IntegerEntries(host, false, 2);
    IntegerEntries(host, false, 4);
    HashAbsent(host);
    LogModuleMissingHash(StaticTypemap(host));
  }

  /** hash_type has no entry in static_typemap. */
  lemma HashAbsent(host: Host)
    ensures Hash !in StaticTypemap(host)
  {
    FromEntriesKeys(StaticEntries(host), Hash);
  }

  /** Describing log_module stops at build_hash under any table that has the
      integer types but not hash_type. */
  lemma LogModuleMissingHash(tm: map<CType, Atom>)
    requires UInt8 in tm && UInt16 in tm && UInt32 in tm && Hash !in tm
    ensures Describe(tm, LogModule.members) == Err(StdException("missing typemap for build_hash"))
  {
    var ms := LogModule.members;
    assert ms[0].mtype == UInt8 && ms[1].mtype == UInt8 && ms[2].mtype == UInt16 && ms[3].mtype == UInt32;
    assert ms[4].mtype == Hash;
    DescribeMissing(tm, ms, 4);
    assert "missing typemap for " + ms[4].name == "missing typemap for build_hash";
  }
}
