/** The plog encoder of polysync/transcode/writer.hpp: a writer appends the
    bytes of record values to its output stream, one write overload per
    kind of C++ type, and renders self-descriptions of record types. The
    bytes each value becomes are functions; the writer is an object whose
    methods are proved to append exactly those bytes. */
module Writer {
  import opened Common
  import opened Bytes
  import opened Layout
  import opened Values

  /** A value of one of the record member types of module Layout. */
  datatype CValue =
    | NumV(n: int)
    | HashV(h: nat)
    | NameV(text: seq<byte>)
    | SeqV(elems: seq<CValue>)
    | ArrayV(items: seq<int>)
    | StructV(fields: seq<CValue>)

  /** x is representable in an n-byte integer of the given signedness. */
  predicate InRange(signed: bool, n: nat, x: int) {
    n > 0 && if signed then -(Pow256(n) / 2) <= x < Pow256(n) / 2 else 0 <= x < Pow256(n)
  }

  /** v is a value of the C++ type t (as the compiler guarantees). */
  predicate HasType(t: CType, v: CValue)
    decreases v
  {
    match t
    case Num(signed, n) => v.NumV? && InRange(signed, n, v.n)
    case BigNum(signed, n) => v.NumV? && InRange(signed, n, v.n)
    case Hash => v.HashV? && v.h < Pow256(HashLen)
    case Name => v.NameV?
    case Seq(_, e) => v.SeqV? && forall i :: 0 <= i < |v.elems| ==> HasType(e, v.elems[i])
    case Array(e, count) =>
      e.Num? && v.ArrayV? && |v.items| == count && forall i :: 0 <= i < count ==> InRange(e.signed, e.bytes, v.items[i])
    case Struct(_, ms) =>
      v.StructV? && |v.fields| == |ms| && forall i :: 0 <= i < |ms| ==> HasType(ms[i].mtype, v.fields[i])
  }

  /** The memory image of an n-byte integer on a little-endian host. */
  function NumBytes(x: int, n: nat): (r: seq<byte>)
    ensures |r| == n
  {
    ToLittleEndian(Unsigned(x, n), n)
  }

  /** The bytes of a boost::endian big-endian integer. */
  function BigBytes(x: int, n: nat): (r: seq<byte>)
    ensures |r| == n
  {
    ToBigEndian(Unsigned(x, n), n)
  }

  /** export_bits with 8-bit chunks, as the multiprecision overload calls
      it: the magnitude most significant byte first, in as few bytes as it
      needs (one zero byte for zero). */
  function ExportBits(h: nat): (r: seq<byte>)
    ensures 1 <= |r| && BigEndian(r) == h
    ensures |r| > 1 ==> Pow256(|r| - 1) <= h
    decreases h
  {
    if h < 256 then [h]
    else
      var r := ExportBits(h / 256) + [h % 256];
      assert r[..|r| - 1] == ExportBits(h / 256);
      r
  }

  /** A hash_type written as the full 16 bytes the format holds, most
      significant first. */
  function HashBytes(h: nat): (r: seq<byte>)
    ensures |r| == HashLen
  {
    ToBigEndian(h, HashLen)
  }

  /** name_type: the length narrowed to a std::uint16_t, then that many of
      the string's bytes, with no terminator. */
  function NameBytes(text: seq<byte>): (r: seq<byte>)
    ensures |r| == NameLengthBytes + |text| % Pow256(NameLengthBytes)
  {
    var len := |text| % Pow256(NameLengthBytes);
    ToLittleEndian(len, NameLengthBytes) + text[..len]
  }

  /** A std::array of n-byte integers: the elements' memory images back to
      back, with no length. */
  function ArrayBytes(items: seq<int>, n: nat): (r: seq<byte>)
    ensures |r| == |items| * n
  {
    if items == [] then [] else NumBytes(items[0], n) + ArrayBytes(items[1..], n)
  }

  /** The bytes the writer produces for a value of type t. */
  function Encoding(t: CType, v: CValue): seq<byte>
    requires HasType(t, v)
    decreases v, 2, 0
  {
    match t
    case Num(_, n) => NumBytes(v.n, n)
    case BigNum(_, n) => BigBytes(v.n, n)
    case Hash => HashBytes(v.h)
    case Name => NameBytes(v.text)
    case Seq(lenBytes, _) => ToLittleEndian(|v.elems| % Pow256(lenBytes), lenBytes) + Elements(t, v, 0)
    case Array(e, _) => ArrayBytes(v.items, e.bytes)
    case Struct(_, _) => Fields(t, v, 0)
  }

  /** The elements of a sequence from the i-th on, each encoded in turn. */
  function Elements(t: CType, v: CValue, i: nat): seq<byte>
    requires t.Seq? && HasType(t, v) && i <= |v.elems|
    decreases v, 1, |v.elems| - i
  {
    if i == |v.elems| then [] else Encoding(t.elem, v.elems[i]) + Elements(t, v, i + 1)
  }

  /** The members of a struct from the i-th on, each encoded in turn. */
  function Fields(t: CType, v: CValue, i: nat): seq<byte>
    requires t.Struct? && HasType(t, v) && i <= |t.members|
    decreases v, 1, |t.members| - i
  {
    if i == |t.members| then [] else Encoding(t.members[i].mtype, v.fields[i]) + Fields(t, v, i + 1)
  }

  /** One member's bytes, then the rest. */
  lemma FieldsStep(t: CType, v: CValue, i: nat)
    requires t.Struct? && HasType(t, v) && i < |t.members|
    ensures HasType(t.members[i].mtype, v.fields[i])
    ensures Fields(t, v, i) == Encoding(t.members[i].mtype, v.fields[i]) + Fields(t, v, i + 1)
  {
  }

  // ---------------------------------------------------------------------
  // Decoded trees

  /** What writing stops with: the bytes written, and the error if the
      writer met a value it cannot represent. */
  datatype Written = Written(bytes: seq<byte>, error: Option<Error>)

  /** A node value that is not a tree: its memory image. A byte buffer or a
      list of trees has no overload of its own, so the generic one would
      copy the container object itself, which the model cannot represent. */
  function LeafBytes(v: Value): Result<seq<byte>>
    requires !v.Branch?
  {
    match v
    case Int(k, x) => Ok(if k.big then BigBytes(x, k.bytes) else NumBytes(x, k.bytes))
    case Float(n, bits) => Ok(ToLittleEndian(bits, n))
    case RealText(_, _) => Err(Undefined("a converted float has no stored bytes"))
    case Bytes(_) => Err(Undefined("the object representation of a byte vector"))
    case Trees(_) => Err(Undefined("the object representation of a vector of trees"))
  }

  /** What writing a value that is not a tree does. */
  function LeafWritten(v: Value): (w: Written)
    requires !v.Branch?
    ensures w.error.None? <==> LeafBytes(v).Ok?
  {
    match LeafBytes(v)
    case Ok(bs) => Written(bs, None)
    case Err(e) => Written([], Some(e))
  }

  /** The nodes of a tree from the i-th on, each written in turn; a nested
      tree is written in place. */
  function NodesWritten(t: Tree, i: nat): Written
    requires i <= |t.nodes|
    decreases t, |t.nodes| - i
  {
    if i == |t.nodes| then Written([], None)
    else
      var value := t.nodes[i].value;
      var w := if value.Branch? then NodesWritten(value.tree, 0) else LeafWritten(value);
      if w.error.Some? then w
      else
        var rest := NodesWritten(t, i + 1);
        Written(w.bytes + rest.bytes, rest.error)
  }

  /** encode(node): the node's value written by its overload. */
  function NodeWritten(n: Node): Written {
    if n.value.Branch? then NodesWritten(n.value.tree, 0) else LeafWritten(n.value)
  }

  // ---------------------------------------------------------------------
  // Self-descriptions

  /** One member's part of a self-description. */
  function DescribeEntry(name: string, atom: Atom): string {
    name + ": " + atom.name + " " + NatToString(atom.size) + "; "
  }

  /** The loop of describe from member i on, with the text so far. */
  function DescribeLoop(typemap: map<CType, Atom>, tpname: string, ms: seq<Member>, i: nat, result: string): (r: Result<string>)
    requires i <= |ms|
    ensures r.Ok? ==> result <= r.value
    decreases |ms| - i
  {
    if i == |ms| then Ok(result)
    else if ms[i].mtype !in typemap then
      Err(StdException("type not described for field \"" + tpname + "::" + ms[i].name + "\""))
    else DescribeLoop(typemap, tpname, ms, i + 1, result + DescribeEntry(ms[i].name, typemap[ms[i].mtype]))
  }

  /** describe<Record>(): "Name { member: type size; ... }". */
  function DescribeText(typemap: map<CType, Atom>, record: CType): Result<string>
    requires record.Struct?
  {
    if record !in typemap then Err(StdException("no typemap description"))
    else
      var tpname := typemap[record].name;
      var body :- DescribeLoop(typemap, tpname, record.members, 0, tpname + " { ");
      Ok(body + "}")
  }

  // ---------------------------------------------------------------------
  // The writer

  class PlogWriter {
    /** everything written to the stream so far */
    var out: seq<byte>
    /** descriptor::static_typemap, which describe consults */
    const typemap: map<CType, Atom>

    constructor(typemap: map<CType, Atom>)
      ensures out == [] && this.typemap == typemap
    {
      out := [];
      this.typemap := typemap;
    }

    /** write(Number): sizeof(Number) bytes of the value's memory. */
    method WriteNumber(t: CType, x: int)
      requires t.Num? && HasType(t, NumV(x))
      modifies this
      ensures out == old(out) + Encoding(t, NumV(x))
    {
      out := out + ToLittleEndian(Unsigned(x, t.bytes), t.bytes);
    }

    /** write(endian_arithmetic<big, T, N>): the stored big-endian bytes. */
    method WriteBigEndian(t: CType, x: int)
      requires t.BigNum? && HasType(t, NumV(x))
      modifies this
      ensures out == old(out) + Encoding(t, NumV(x))
    {
      out := out + ToBigEndian(Unsigned(x, t.bytes), t.bytes);
    }

    /** write(multiprecision::number): the hash, most significant byte
        first, over the full 16 bytes. */
    method WriteHash(h: nat)
      requires h < Pow256(HashLen)
      modifies this
      ensures out == old(out) + Encoding(Hash, HashV(h))
    {
      out := out + ToBigEndian(h, HashLen);
    }

    /** write(name_type): a std::uint16_t length, then that many bytes. */
    method WriteName(text: seq<byte>)
      modifies this
      ensures out == old(out) + Encoding(Name, NameV(text))
    {
      var len := |text| % 0x1_0000;
      out := out + ToLittleEndian(len, 2);
      out := out + text[..len];
    }

    /** write(std::array): the array's memory in one piece. */
    method WriteArray(t: CType, v: CValue)
      requires t.Array? && HasType(t, v)
      modifies this
      ensures out == old(out) + Encoding(t, v)
    {
      out := out + ArrayBytes(v.items, t.elem.bytes);
    }

    /** write(sequence<LenType, T>): the element count narrowed to LenType,
        then each element by its own overload. */
    method WriteSequence(t: CType, v: CValue)
      requires t.Seq? && HasType(t, v)
      modifies this
      ensures out == old(out) + Encoding(t, v)
      decreases v, 1
    {
      var len := |v.elems| % Pow256(t.lenBytes);
      out := out + ToLittleEndian(len, t.lenBytes);
      for i := 0 to |v.elems|
        invariant out + Elements(t, v, i) == old(out) + Encoding(t, v)
      {
        Write(t.elem, v.elems[i]);
      }
    }

    /** write(Struct): the members in declaration order, nothing between. */
    method WriteStruct(t: CType, v: CValue)
      requires t.Struct? && HasType(t, v)
      modifies this
      ensures out == old(out) + Encoding(t, v)
      decreases v, 1
    {
      assert Encoding(t, v) == Fields(t, v, 0);
      for i := 0 to |t.members|
        invariant out + Fields(t, v, i) == old(out) + Fields(t, v, 0)
      {
        FieldsStep(t, v, i);
        Write(t.members[i].mtype, v.fields[i]);
      }
    }

    /** The overload the compiler picks for a value of type t. */
    method Write(t: CType, v: CValue)
      requires HasType(t, v)
      modifies this
      ensures out == old(out) + Encoding(t, v)
      decreases v, 2
    {
      match t
      case Num(_, _) => WriteNumber(t, v.n);
      case BigNum(_, _) => WriteBigEndian(t, v.n);
      case Hash => WriteHash(v.h);
      case Name => WriteName(v.text);
      case Seq(_, _) => WriteSequence(t, v);
      case Array(_, _) => WriteArray(t, v);
      case Struct(_, _) => WriteStruct(t, v);
    }

    /** write(tree): each node's value by its overload, in order. */
    method WriteTree(t: Tree) returns (err: Option<Error>)
      modifies this
      ensures out == old(out) + NodesWritten(t, 0).bytes && err == NodesWritten(t, 0).error
      decreases t
    {
      for i := 0 to |t.nodes|
        invariant old(out) + NodesWritten(t, 0).bytes == out + NodesWritten(t, i).bytes
        invariant NodesWritten(t, 0).error == NodesWritten(t, i).error
      {
        var value := t.nodes[i].value;
        if value.Branch? {
          err := WriteTree(value.tree);
          if err.Some? {
            return;
          }
        } else {
          var w := LeafWritten(value);
          if w.error.Some? {
            return w.error;
          }
          out := out + w.bytes;
        }
      }
      return None;
    }

    /** encode(node). */
    method Encode(n: Node) returns (err: Option<Error>)
      modifies this
      ensures out == old(out) + NodeWritten(n).bytes && err == NodeWritten(n).error
    {
      if n.value.Branch? {
        err := WriteTree(n.value.tree);
      } else {
        var w := LeafWritten(n.value);
        out := out + w.bytes;
        return w.error;
      }
    }

    /** describe<Record>(). */
    method Describe(record: CType) returns (r: Result<string>)
      requires record.Struct?
      ensures r == DescribeText(typemap, record)
    {
      if record !in typemap {
        return Err(StdException("no typemap description"));
      }
      var tpname := typemap[record].name;
      var result := tpname + " { ";
      for i := 0 to |record.members|
        invariant DescribeLoop(typemap, tpname, record.members, 0, tpname + " { ")
               == DescribeLoop(typemap, tpname, record.members, i, result)
      {
        var m := record.members[i];
        if m.mtype !in typemap {
          return Err(StdException("type not described for field \"" + tpname + "::" + m.name + "\""));
        }
        result := result + DescribeEntry(m.name, typemap[m.mtype]);
      }
      return Ok(result + "}");
    }
  }
}
