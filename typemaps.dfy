/** The name and size tables of transcode/core.cpp: static_typemap, keyed by
    the C++ type, and dynamic_typemap, keyed by the type's name. Both are
    std::maps built from an initializer list, in which an entry whose key
    is already present is dropped. */
module Typemaps {
  import opened Layout
  import opened PlogCore

  /** A std::map built from the entries in order, the first entry of a key
      winning. */
  function FromEntries<K, V>(es: seq<(K, V)>): map<K, V> {
    if es == [] then map[]
    else
      var m := FromEntries(es[..|es| - 1]);
      var e := es[|es| - 1];
      if e.0 in m then m else m[e.0 := e.1]
  }

  /** The name of the n-byte integer type: "intN" or "uintN", N = 8n. */
  function IntName(signed: bool, n: nat): string {
    if signed then
      if n == 1 then "int8" else if n == 2 then "int16" else if n == 4 then "int32" else "int64"
    else
      if n == 1 then "uint8" else if n == 2 then "uint16" else if n == 4 then "uint32" else "uint64"
  }

  /** static_typemap's initializer list, in source order. */
  function StaticEntries(host: Host): seq<(CType, Atom)> {
    [ (Int8, Atom("int8", Packed(Int8, host))),
      (Int16, Atom("int16", Packed(Int16, host))),
      (Int32, Atom("int32", Packed(Int32, host))),
      (Int64, Atom("int64", Packed(Int64, host))),
      (UInt8, Atom("uint8", Packed(UInt8, host))),
      (UInt16, Atom("uint16", Packed(UInt16, host))),
      (UInt32, Atom("uint32", Packed(UInt32, host))),
      (UInt64, Atom("uint64", Packed(UInt64, host))),
      (MsgHeader, Atom("msg_header", Packed(MsgHeader, host))),
      (LogRecord, Atom("log_record", Packed(LogRecord, host))),
      (LogHeader, Atom("log_header", Packed(LogHeader, host))),
      (Seq(4, LogModule), Atom("sequence<log_module>", Packed(Seq(4, LogModule), host))),
      (Timestamp, Atom("ps_timestamp", Packed(Timestamp, host))),
      (Seq(4, TypeSupport), Atom("sequence<type_support>", Packed(Seq(4, TypeSupport), host))) ]
  }

  function StaticTypemap(host: Host): map<CType, Atom> {
    FromEntries(StaticEntries(host))
  }

  /** dynamic_typemap's initializer list, in source order. */
  function DynamicEntries(host: Host): seq<(string, Atom)> {
    [ ("int8", Atom("int8", Packed(Int8, host))),
      ("int16", Atom("int16", Packed(Int16, host))),
      ("int32", Atom("int32", Packed(Int32, host))),
      ("int64", Atom("int64", Packed(Int64, host))),
      ("uint8", Atom("uint8", Packed(UInt8, host))),
      ("uint16", Atom("uint16", Packed(UInt16, host))),
      ("uint32", Atom("uint32", Packed(UInt32, host))),
      ("uint64", Atom("uint64", Packed(UInt64, host))),
      (">uint8", Atom(">uint8", Packed(UInt8, host))),
      (">uint16", Atom(">uint16", Packed(UInt16, host))),
      (">uint32", Atom(">uint32", Packed(UInt32, host))),
      (">uint64", Atom(">uint64", Packed(UInt64, host))),
      ("ps_guid", Atom("ps_guid", Packed(PlogGuid, host))),
      ("ps_msg_type", Atom("ps_msg_type", Packed(PlogMsgType, host))),
      ("log_record", Atom("log_record", Packed(LogRecord, host))),
      ("msg_header", Atom("msg_header", Packed(MsgHeader, host))),
      ("ps_timestamp", Atom("ps_timestamp", Packed(Timestamp, host))) ]
  }

  function DynamicTypemap(host: Host): map<string, Atom> {
    FromEntries(DynamicEntries(host))
  }
}
