/** The compile-time record layouts of polysync/transcode/core.hpp. The C++
    reflects over hana-adapted structs; here each struct carries its member
    list explicitly, in declaration order. The packed size and the field
    list of a struct are folds over that list. */
module Layout {
  import opened Common

  /** PSYNC_MODULE_VERIFY_HASH_LEN: hash_type is a 128-bit unsigned number. */
  const HashLen := 16

  /** name_type is sequence<std::uint16_t, std::uint8_t>: its length type
      is two bytes wide. */
  const NameLengthBytes := 2

  /** The C++ types a record member can have. */
  datatype CType =
      /** an arithmetic type of the given width, stored in host order */
    | Num(signed: bool, bytes: nat)
      /** a boost::endian big-endian arithmetic type */
    | BigNum(signed: bool, bytes: nat)
      /** hash_type, a fixed-width multiprecision number */
    | Hash
      /** name_type: a string whose length is written as a std::uint16_t */
    | Name
      /** sequence<LenType, T>: a vector whose length is written as LenType */
    | Seq(lenBytes: nat, elem: CType)
      /** std::array<T, N> */
    | Array(elem: CType, count: nat)
      /** a hana-adapted struct and its members in declaration order */
    | Struct(name: string, members: seq<Member>)

  datatype Member = Member(name: string, mtype: CType)

  /** What sizeof reports for the library types whose size the host decides. */
  datatype Host = Host(stringSize: nat, vectorSize: nat, hashSize: nat)

  const Int8 := Num(true, 1)
  const Int16 := Num(true, 2)
  const Int32 := Num(true, 4)
  const Int64 := Num(true, 8)
  const UInt8 := Num(false, 1)
  const UInt16 := Num(false, 2)
  const UInt32 := Num(false, 4)
  const UInt64 := Num(false, 8)

  /** ps_msg_type and ps_guid. */
  const MsgType := UInt32
  const Guid := UInt64

  const LogModule := Struct("log_module", [
    Member("version_major", UInt8), Member("version_minor", UInt8), Member("version_subminor", UInt16),
    Member("build_date", UInt32), Member("build_hash", Hash), Member("name", Name)])

  const TypeSupport := Struct("type_support", [Member("type", UInt32), Member("name", Name)])

  const LogHeader := Struct("log_header", [
    Member("version_major", UInt8), Member("version_minor", UInt8), Member("version_subminor", UInt16),
    Member("build_date", UInt32), Member("node_guid", UInt64),
    Member("modules", Seq(4, LogModule)), Member("type_supports", Seq(4, TypeSupport))])

  const MsgHeader := Struct("msg_header", [Member("type", MsgType), Member("timestamp", UInt64), Member("src_guid", Guid)])

  /** The transcode log_record embeds the msg_header. */
  const LogRecord := Struct("log_record", [
    Member("index", UInt32), Member("size", UInt32), Member("prev_size", UInt32),
    Member("timestamp", UInt64), Member("header", MsgHeader)])

  /** size<T>::packed(): sizeof for anything that is not a struct, the fold
      over the members for a struct. */
  function Packed(t: CType, host: Host): nat
    decreases t, 1, 0
  {
    match t
    case Num(_, n) => n
    case BigNum(_, n) => n
    case Hash => host.hashSize
    case Name => host.stringSize
    case Seq(_, e) =>
      // sequence<LenType, std::uint8_t> is a std::string, any other a std::vector
      if e == UInt8 then host.stringSize else host.vectorSize
    case Array(e, n) => n * Packed(e, host)
    case Struct(_, _) => PackedFold(t, host, 0, 0)
  }

  /** The fold of size<Struct>::packed from member i on, with the sum so far. */
  function PackedFold(t: CType, host: Host, i: nat, s: nat): nat
    requires t.Struct? && i <= |t.members|
    decreases t, 0, |t.members| - i
  {
    if i == |t.members| then s
    else PackedFold(t, host, i + 1, s + Packed(t.members[i].mtype, host))
  }

  /** The sum of the members' packed sizes, as a plain recursion. */
  function MemberSum(ms: seq<Member>, host: Host): nat {
    if ms == [] then 0 else Packed(ms[0].mtype, host) + MemberSum(ms[1..], host)
  }

  /** atom_description (and descriptor::atom): a type's name and size. */
  datatype Atom = Atom(name: string, size: nat)

  /** field_descriptor (and descriptor::field): a member's name and type name. */
  datatype FieldDescriptor = FieldDescriptor(name: string, typeName: string)

  /** The fold of describe<Struct>() from member i on. */
  function DescribeFold(typemap: map<CType, Atom>, ms: seq<Member>, i: nat, desc: seq<FieldDescriptor>): (r: Result<seq<FieldDescriptor>>)
    requires i <= |ms|
    ensures r.Ok? ==> |r.value| == |desc| + |ms| - i && desc <= r.value
    decreases |ms| - i
  {
    if i == |ms| then Ok(desc)
    else if ms[i].mtype !in typemap then Err(StdException("missing typemap for " + ms[i].name))
    else DescribeFold(typemap, ms, i + 1, desc + [FieldDescriptor(ms[i].name, typemap[ms[i].mtype].name)])
  }

  /** describe<Struct>(): one field descriptor per member, typed from the
      static type map. */
  function Describe(typemap: map<CType, Atom>, ms: seq<Member>): Result<seq<FieldDescriptor>> {
    DescribeFold(typemap, ms, 0, [])
  }
}
