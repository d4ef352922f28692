/** The type descriptions the generic decoder walks. The C++ declares these
    in headers (descriptor catalog, formatter) that are not part of this
    model; they are reconstructed from how lib/decoder.cpp and
    lib/descriptor/toml.cpp use them. */
module Descriptor {
  import opened Common

  /** A C++ scalar type as named by a std::type_index. */
  datatype Terminal =
    | Integral(signed: bool, bytes: nat)
    | Real(bytes: nat)
    | OtherType(id: string)

  datatype ByteOrder = Little | Big

  /** The formatter attached to a field or a decoded node. */
  datatype Format = Plain | Formatter(name: string)

  /** One partition of a bit field: a name and a width in bits. */
  datatype SubField = SubField(name: string, width: nat)

  /** An array's length: fixed, or the value of an earlier sibling field. */
  datatype ArraySize = Fixed(count: nat) | SizedBy(sizeField: string)

  /** An array's element: a terminal type, or a described type by name. */
  datatype ArrayElem = TerminalElem(terminal: Terminal) | NestedElem(typeName: string)

  /** The variant a field's type holds. */
  datatype FieldKind =
    | TerminalKind(terminal: Terminal)
    | BitFieldKind(subfields: seq<SubField>)
    | NestedKind(typeName: string)
    | SkipKind(skipSize: int, order: nat)
    | ArrayKind(size: ArraySize, elem: ArrayElem)

  datatype Field = Field(name: string, kind: FieldKind, byteorder: ByteOrder, format: Format)

  /** A named type: its fields in serialisation order. */
  datatype Type = Type(name: string, fields: seq<Field>)

  /** The global lookup tables the descriptor code consults:
      terminalNameMap (type name -> C++ type), terminalTypeMap (C++ type ->
      canonical name) and the names formatFunction knows. */
  datatype Typemaps = Typemaps(
    terminalNames: map<string, Terminal>,
    terminalTypes: map<Terminal, string>,
    formats: set<string>)

  /** The name a skip of the given order goes by: "skip-<order>". */
  function SkipName(order: nat): string {
    "skip-" + NatToString(order)
  }

  /** Skips of different order get different names. */
  lemma SkipNamesDistinct(m: nat, n: nat)
    ensures SkipName(m) == SkipName(n) ==> m == n
  {
    if SkipName(m) == SkipName(n) {
      assert NatToString(m) == SkipName(m)[5..];
      assert NatToString(n) == SkipName(n)[5..];
      NatToStringInjective(m, n);
    }
  }

  /** Total number of bits of a bit field. */
  function TotalWidth(subs: seq<SubField>): nat {
    if subs == [] then 0 else subs[0].width + TotalWidth(subs[1..])
  }
}

/** Decoded values: the tree of named nodes the decoder builds. */
module Values {
  import opened Common
  import opened Descriptor

  /** An integer type: signedness, width in bytes, and whether it is a
      boost::endian big-endian type (a different variant alternative). */
  datatype IntType = IntType(signed: bool, bytes: nat, big: bool)

  datatype Value =
    | Int(kind: IntType, v: int)
      /** a floating point value, kept as its bit pattern */
    | Float(bytes: nat, bits: nat)
      /** a floating point value converted from text, kept as the text */
    | RealText(bytes: nat, text: string)
    | Bytes(data: seq<byte>)
    | Branch(tree: Tree)
    | Trees(trees: seq<Tree>)

  datatype Node = Node(name: string, value: Value, format: Format)

  /** A decoded record: its type name and its nodes in decoding order. */
  datatype Tree = Tree(name: string, nodes: seq<Node>)

  const UInt8Type := IntType(false, 1, false)

  /** Names of a list of nodes, in order. */
  function Names(nodes: seq<Node>): (r: seq<string>)
    ensures |r| == |nodes|
    ensures forall i :: 0 <= i < |nodes| ==> r[i] == nodes[i].name
  {
    if nodes == [] then [] else [nodes[0].name] + Names(nodes[1..])
  }

  /** The first node with the given name (std::find_if on a tree). */
  function FindNode(nodes: seq<Node>, name: string): (r: Option<Node>)
    ensures r.Some? ==> r.value in nodes && r.value.name == name
    ensures r.None? ==> forall i :: 0 <= i < |nodes| ==> nodes[i].name != name
  {
    if nodes == [] then None
    else if nodes[0].name == name then Some(nodes[0])
    else FindNode(nodes[1..], name)
  }

  lemma NamesAppend(a: seq<Node>, b: seq<Node>)
    ensures Names(a + b) == Names(a) + Names(b)
  {
  }
}
