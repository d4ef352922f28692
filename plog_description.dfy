/** The size metaprograms of polysync/plog/description.hpp. describe<Struct>()
    there is the fold of transcode/core.hpp (Layout.Describe); the size of a
    plain number or struct is the packed size (Layout.Packed); what is new
    is the size of a dynamically described field, looked up by its type
    name in dynamic_typemap. */
module PlogDescription {
  import opened Common
  import opened Layout

  /** size<descriptor::field>::value(): dynamic_typemap.at(type).size;
      std::map::at throws std::out_of_range for a missing key. */
  function FieldSize(dynamic: map<string, Atom>, f: FieldDescriptor): Result<nat> {
    if f.typeName in dynamic then Ok(dynamic[f.typeName].size) else Err(StdException("map::at"))
  }

  /** The sizes of a described type's fields added up in order, stopping at
      the first field that cannot be sized. */
  function SizeOfFields(dynamic: map<string, Atom>, desc: seq<FieldDescriptor>): Result<nat> {
    if desc == [] then Ok(0)
    else
      var first :- FieldSize(dynamic, desc[0]);
      var rest :- SizeOfFields(dynamic, desc[1..]);
      Ok(first + rest)
  }
}

/** The sizes of described fields against the packed sizes of the structs
    they were described from. */
module PlogDescriptionLemmas {
  import opened Common
  import opened Layout
  import opened LayoutLemmas
  import opened PlogCore
  import opened Typemaps
  import opened TypemapLemmas
  import opened PlogDescription

  /** The dynamic table agrees with the static one on the members' types:
      each static name is a dynamic key whose size is the packed size. */
  predicate Agree(statics: map<CType, Atom>, dynamic: map<string, Atom>, host: Host, ms: seq<Member>) {
    forall j :: 0 <= j < |ms| && ms[j].mtype in statics ==>
      statics[ms[j].mtype].name in dynamic && dynamic[statics[ms[j].mtype].name].size == Packed(ms[j].mtype, host)
  }

  lemma {:induction false} SizeOfFieldsFrom(statics: map<CType, Atom>, dynamic: map<string, Atom>, host: Host,
                                            ms: seq<Member>, desc: seq<FieldDescriptor>, i: nat)
    requires Agree(statics, dynamic, host, ms) && i <= |ms| && |desc| == |ms|
    requires forall j :: 0 <= j < |ms| ==> ms[j].mtype in statics && desc[j] == FieldDescriptor(ms[j].name, statics[ms[j].mtype].name)
    ensures SizeOfFields(dynamic, desc[i..]) == Ok(MemberSum(ms[i..], host))
    decreases |ms| - i
  {
    if i < |ms| {
      SizeOfFieldsFrom(statics, dynamic, host, ms, desc, i + 1);
      assert desc[i..][1..] == desc[i + 1..] && ms[i..][1..] == ms[i + 1..];
      assert desc[i..][0] == desc[i];
    } else {
      assert desc[i..] == [] && ms[i..] == [];
    }
  }

  /** Sizing the fields of a static description through a dynamic table that
      agrees with the static one gives the struct's packed size. */
  lemma DescribedSizeIsPacked(statics: map<CType, Atom>, dynamic: map<string, Atom>, host: Host, ms: seq<Member>)
    requires Agree(statics, dynamic, host, ms) && Describe(statics, ms).Ok?
    ensures SizeOfFields(dynamic, Describe(statics, ms).value) == Ok(MemberSum(ms, host))
  {
    DescribeFields(statics, ms);
    SizeOfFieldsFrom(statics, dynamic, host, ms, Describe(statics, ms).value, 0);
    assert Describe(statics, ms).value[0..] == Describe(statics, ms).value && ms[0..] == ms;
  }

  /** With the tables of transcode/core.cpp, the described fields of
      msg_header size to 20 bytes and those of log_record to 40, their
      packed sizes. */
  lemma RecordsSized(host: Host)
    ensures Describe(StaticTypemap(host), MsgHeader.members).Ok?
    ensures SizeOfFields(DynamicTypemap(host), Describe(StaticTypemap(host), MsgHeader.members).value) == Ok(20)
    ensures Describe(StaticTypemap(host), LogRecord.members).Ok?
    ensures SizeOfFields(DynamicTypemap(host), Describe(StaticTypemap(host), LogRecord.members).value) == Ok(40)
  {
    var st, dy := StaticTypemap(host), DynamicTypemap(host);
    IntegerEntries(host, false, 4);
    IntegerEntries(host, false, 8);
    TablesAgree(host);
    MsgHeaderPacked(host);
    LogRecordPacked(host);
    DescribeMsgHeader(host);
    DescribeLogRecord(host);
    var mh, lr := MsgHeader.members, LogRecord.members;
    assert mh[0].mtype == UInt32 && mh[1].mtype == UInt64 && mh[2].mtype == UInt64;
    assert Agree(st, dy, host, mh);
    assert lr[0].mtype == UInt32 && lr[1].mtype == UInt32 && lr[2].mtype == UInt32 && lr[3].mtype == UInt64 && lr[4].mtype == MsgHeader;
    assert Agree(st, dy, host, lr);
    DescribedSizeIsPacked(st, dy, host, mh);
    DescribedSizeIsPacked(st, dy, host, lr);
    PackedStruct("msg_header", mh, host);
    PackedStruct("log_record", lr, host);
  }

  /** A field whose type name has no dynamic entry cannot be sized:
      log_header describes statically (its sequences have static entries),
      but "sequence<log_module>" is not a key of dynamic_typemap, so sizing
      its fields throws std::out_of_range. */
  lemma LogHeaderUnsized(host: Host)
    ensures Describe(StaticTypemap(host), LogHeader.members).Ok?
    ensures SizeOfFields(DynamicTypemap(host), Describe(StaticTypemap(host), LogHeader.members).value)
         == Err(StdException("map::at"))
  {
    var st, dy := StaticTypemap(host), DynamicTypemap(host);
    IntegerEntries(host, false, 1);
    IntegerEntries(host, false, 2);
    IntegerEntries(host, false, 4);
    IntegerEntries(host, false, 8);
    StaticLookup(host, 11);
    StaticLookup(host, 13);
    assert StaticEntries(host)[11].0 == Seq(4, LogModule) && StaticEntries(host)[11].1.name == "sequence<log_module>";
    assert StaticEntries(host)[13].0 == Seq(4, TypeSupport);
    FromEntriesKeys(DynamicEntries(host), "sequence<log_module>");
    LogHeaderUnsizedIn(st, dy);
  }

  /** The same under any pair of tables that size the integer members of
      log_header but not its sequence of modules. */
  lemma LogHeaderUnsizedIn(st: map<CType, Atom>, dy: map<string, Atom>)
    requires UInt8 in st && UInt16 in st && UInt32 in st && UInt64 in st
    requires Seq(4, LogModule) in st && Seq(4, TypeSupport) in st
    requires st[UInt8].name in dy && st[UInt16].name in dy && st[UInt32].name in dy && st[UInt64].name in dy
    requires st[Seq(4, LogModule)].name !in dy
    ensures Describe(st, LogHeader.members).Ok?
    ensures SizeOfFields(dy, Describe(st, LogHeader.members).value) == Err(StdException("map::at"))
  {
    var ms := LogHeader.members;
    assert ms[0].mtype == UInt8 && ms[1].mtype == UInt8 && ms[2].mtype == UInt16 && ms[3].mtype == UInt32 && ms[4].mtype == UInt64;
    assert ms[5].mtype == Seq(4, LogModule) && ms[6].mtype == Seq(4, TypeSupport);
    assert forall j :: 0 <= j < |ms| ==> ms[j].mtype in st;
    DescribeFields(st, ms);
    var desc := Describe(st, ms).value;
    assert forall j :: 0 <= j < 5 ==> FieldSize(dy, desc[j]).Ok?;
    SizeOfFieldsStops(dy, desc, 5);
  }

  /** Sizing fails with the error of the first field that cannot be sized. */
  lemma {:induction false} SizeOfFieldsStops(dynamic: map<string, Atom>, desc: seq<FieldDescriptor>, k: nat)
    requires k < |desc| && FieldSize(dynamic, desc[k]).Err?
    requires forall j :: 0 <= j < k ==> FieldSize(dynamic, desc[j]).Ok?
    ensures SizeOfFields(dynamic, desc) == Err(FieldSize(dynamic, desc[k]).error)
    decreases k
  {
    if k > 0 {
      SizeOfFieldsStops(dynamic, desc[1..], k - 1);
    }
  }
}
