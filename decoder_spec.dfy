/** What the generic decoder of lib/decoder.cpp computes, as functions of
    the stream contents and the read position. The imperative decoder
    (module GenericDecoder) is proved to agree with these functions; the
    properties of decoding are lemmas about them (module DecoderLemmas). */
module DecoderSpec {
  import opened Common
  import opened Bytes
  import opened Descriptor
  import opened Values

  /** What decoding consults besides the stream: the type catalog and the
      lookup tables (global in the C++, passed explicitly here). */
  datatype Context = Context(catalog: map<string, Type>, maps: Typemaps)

  /** A decoded value and the stream position after it. */
  datatype Decoded<+T> = Decoded(value: T, pos: nat)

  /** The primitive parsers of Decoder::parseMap. */
  datatype Primitive =
    | PInt(t: IntType)
      /** a float of the given width; big-endian ones are byte-swapped first */
    | PReal(bytes: nat, big: bool)
      /** the rest of the record as a byte buffer */
    | PRaw

  const ParseMap: map<string, Primitive> := map[
    "uint8" := PInt(IntType(false, 1, false)),
    "uint16" := PInt(IntType(false, 2, false)),
    "uint32" := PInt(IntType(false, 4, false)),
    "uint64" := PInt(IntType(false, 8, false)),
    "int8" := PInt(IntType(true, 1, false)),
    "int16" := PInt(IntType(true, 2, false)),
    "int32" := PInt(IntType(true, 4, false)),
    "int64" := PInt(IntType(true, 8, false)),
    "uint16.be" := PInt(IntType(false, 2, true)),
    "uint32.be" := PInt(IntType(false, 4, true)),
    "uint64.be" := PInt(IntType(false, 8, true)),
    "int16.be" := PInt(IntType(true, 2, true)),
    "int32.be" := PInt(IntType(true, 4, true)),
    "int64.be" := PInt(IntType(true, 8, true)),
    "float" := PReal(4, false),
    "float32" := PReal(4, false),
    "double" := PReal(8, false),
    "float64" := PReal(8, false),
    "float.be" := PReal(4, true),
    "float32.be" := PReal(4, true),
    "double.be" := PReal(8, true),
    "float64.be" := PReal(8, true),
    "raw" := PRaw
  ]

  /** A method result r with the decoder left at position pos agrees with
      the specification's outcome. */
  predicate Agrees<T(==)>(r: Result<T>, pos: nat, spec: Result<Decoded<T>>) {
    match spec
    case Ok(d) => r == Ok(d.value) && pos == d.pos
    case Err(e) => r == Err(e)
  }

  /** stream.read of n bytes (Decoder::decode(Bytes&)): the bytes at the
      position, or the stream's failure exception past its end. */
  function Read(s: seq<byte>, pos: nat, n: nat): (r: Result<Decoded<seq<byte>>>)
    requires pos <= |s|
    ensures r.Ok? <==> pos + n <= |s|
    ensures r.Ok? ==> r.value.value == s[pos..pos + n] && r.value.pos == pos + n
    ensures r.Err? ==> r.error == StreamFailure
  {
    if pos + n <= |s| then Ok(Decoded(s[pos..pos + n], pos + n)) else Err(StreamFailure)
  }

  /** Decoder::decode(cpp_int&): 16 bytes, most significant first. */
  function ParseHash(s: seq<byte>, pos: nat): (r: Result<Decoded<nat>>)
    requires pos <= |s|
  {
    var d :- Read(s, pos, 16);
    Ok(Decoded(BigEndian(d.value), d.pos))
  }

  /** One primitive parser of parseMap. */
  function ParsePrimitive(p: Primitive, s: seq<byte>, end: int, pos: nat): (r: Result<Decoded<Value>>)
    requires pos <= |s|
    ensures r.Ok? ==> pos <= r.value.pos <= |s|
  {
    match p
    case PInt(t) =>
      var d :- Read(s, pos, t.bytes);
      var u := if t.big then BigEndian(d.value) else LittleEndian(d.value);
      Ok(Decoded(Int(t, if t.signed && t.bytes > 0 then Signed(u, t.bytes) else u), d.pos))
    case PReal(n, big) =>
      var d :- Read(s, pos, n);
      // a big-endian float is byte-swapped as an unsigned integer of its
      // width and its first four bytes are then read back as a float
      if big then Ok(Decoded(Float(4, BigEndian(d.value) % Pow256(4)), d.pos))
      else Ok(Decoded(Float(n, LittleEndian(d.value)), d.pos))
    case PRaw =>
      if end < pos then Err(StdException("std::length_error"))
      else
        var d :- Read(s, pos, end - pos);
        Ok(Decoded(Bytes(d.value), d.pos))
  }

  /** The context Decoder::decode(Type) attaches to an error escaping it:
      a polysync::error gets this module and type; a stream failure becomes
      "read error"; anything else passes unchanged. */
  function DecoderContext(e: Error, typeName: string): (r: Error)
    ensures r != StreamFailure
    ensures e.Failure? ==> r == Failure(e.msg, e.status, e.context.(typeName := Some(typeName), moduleName := Some("decoder")))
    ensures e == StreamFailure ==> r == Failure("read error", None, ErrorContext(Some(typeName), Some("decoder"), None))
    ensures !e.Failure? && e != StreamFailure ==> r == e
  {
    match e
    case Failure(m, st, c) => Failure(m, st, c.(typeName := Some(typeName), moduleName := Some("decoder")))
    case StreamFailure => Failure("read error", None, ErrorContext(Some(typeName), Some("decoder"), None))
    case _ => e
  }

  /** Decoder::decode(string): the primitive parser if the name has one,
      else the catalog type, else "no decoder". */
  function ParseName(ctx: Context, s: seq<byte>, end: int, name: string, pos: nat, fuel: nat): (r: Result<Decoded<Value>>)
    requires pos <= |s|
    ensures r.Ok? ==> pos <= r.value.pos <= |s|
    decreases fuel, 1, 0
  {
    if name in ParseMap then ParsePrimitive(ParseMap[name], s, end, pos)
    else if name !in ctx.catalog then
      Err(Failure("no decoder", Some(DescriptionError), ErrorContext(Some(name), Some("decoder"), None)))
    else
      var d :- ParseType(ctx, s, end, ctx.catalog[name], pos, fuel);
      Ok(Decoded(Branch(d.value), d.pos))
  }

  /** Decoder::decode(Type): the fields in declaration order into a tree
      named after the type. Each level of nesting spends one unit of fuel. */
  function ParseType(ctx: Context, s: seq<byte>, end: int, ty: Type, pos: nat, fuel: nat): (r: Result<Decoded<Tree>>)
    requires pos <= |s|
    ensures r.Ok? ==> pos <= r.value.pos <= |s| && r.value.value.name == ty.name
    ensures r.Err? ==> r.error != StreamFailure
    decreases fuel, 0, 0
  {
    if fuel == 0 then Err(OutOfFuel)
    else
      match ParseFields(ctx, s, end, ty.fields, 0, [], pos, fuel - 1)
      case Ok(d) => Ok(Decoded(Tree(ty.name, d.value), d.pos))
      case Err(e) => Err(DecoderContext(e, ty.name))
  }

  /** The std::for_each over the fields from index i, each appending to the
      branch built so far. */
  function ParseFields(ctx: Context, s: seq<byte>, end: int, fields: seq<Field>, i: nat, branch: seq<Node>, pos: nat, fuel: nat)
    : (r: Result<Decoded<seq<Node>>>)
    requires i <= |fields| && pos <= |s|
    ensures r.Ok? ==> pos <= r.value.pos <= |s| && branch <= r.value.value
    decreases fuel, 4, |fields| - i
  {
    if i == |fields| then Ok(Decoded(branch, pos))
    else
      match ParseField(ctx, s, end, fields[i], branch, pos, fuel)
      case Ok(d) => ParseFields(ctx, s, end, fields, i + 1, d.value, d.pos, fuel)
      case Err(e) => Err(e)
  }

  /** branch_builder applied to one field's variant. */
  function ParseField(ctx: Context, s: seq<byte>, end: int, field: Field, branch: seq<Node>, pos: nat, fuel: nat)
    : (r: Result<Decoded<seq<Node>>>)
    requires pos <= |s|
    ensures r.Ok? ==> pos <= r.value.pos <= |s| && branch <= r.value.value
    decreases fuel, 3, 0
  {
    match field.kind
    case TerminalKind(t) => ParseTerminal(ctx, s, end, field, t, branch, pos, fuel)
    case BitFieldKind(subs) => ParseBits(s, subs, branch, pos)
    case NestedKind(n) =>
      // a type alias defined after its use looks like a nested type
      if n in ctx.maps.terminalNames then ParseTerminal(ctx, s, end, field, ctx.maps.terminalNames[n], branch, pos, fuel)
      else if n !in ctx.catalog then Err(Fail("no nested descriptor for \"" + n + "\""))
      else
        var d :- ParseType(ctx, s, end, ctx.catalog[n], pos, fuel);
        Ok(Decoded(branch + [Node(field.name, Branch(d.value), Plain)], d.pos))
    case SkipKind(size, order) => ParseSkip(s, size, order, branch, pos)
    case ArrayKind(size, elem) => ParseArray(ctx, s, end, field.name, size, elem, branch, pos, fuel)
  }

  /** The parser name of a terminal: its canonical name, with ".be" when
      the field is big-endian. */
  function TerminalName(base: string, order: ByteOrder): string {
    if order == Big then base + ".be" else base
  }

  /** A terminal field: looked up in terminalTypeMap, decoded by name. */
  function ParseTerminal(ctx: Context, s: seq<byte>, end: int, field: Field, t: Terminal, branch: seq<Node>, pos: nat, fuel: nat)
    : (r: Result<Decoded<seq<Node>>>)
    requires pos <= |s|
    ensures r.Ok? ==> pos <= r.value.pos <= |s| && branch <= r.value.value
    decreases fuel, 2, 0
  {
    if t !in ctx.maps.terminalTypes then Err(Failure("no typemap", None, ErrorContext(None, None, Some(field.name))))
    else
      var d :- ParseName(ctx, s, end, TerminalName(ctx.maps.terminalTypes[t], field.byteorder), pos, fuel);
      Ok(Decoded(branch + [Node(field.name, d.value, field.format)], d.pos))
  }

  /** The w low-order bits of blob, and the bits above them. */
  function LowBits(blob: nat, w: nat): (r: (nat, nat))
    ensures r.0 < Pow2(w) && blob == r.1 * Pow2(w) + r.0
  {
    var p := Pow2(w);
    var high, low := blob / p, blob % p;
    DivMod(blob, p);
    (low, high)
  }

  /** The width the splitting loop works with: a subfield's width stored
      into a std::uint8_t. */
  function ShiftWidth(sub: SubField): (r: nat)
    ensures r < 256 && (sub.width < 256 ==> r == sub.width)
  {
    sub.width % 256
  }

  /** The sum of the narrowed widths: how far the blob has been shifted
      once these subfields are peeled off. */
  function ShiftTotal(subs: seq<SubField>): nat {
    if subs == [] then 0 else ShiftWidth(subs[0]) + ShiftTotal(subs[1..])
  }

  /** The mask (1 << size) - 1 is computed in int: it is defined only for a
      narrowed width of at most 30 bits. */
  predicate ShiftsDefined(subs: seq<SubField>) {
    forall k :: 0 <= k < |subs| ==> ShiftWidth(subs[k]) < 31
  }

  const MaskOverflow := Undefined("the int expression (1 << size) - 1 for a subfield of 31 or more bits")

  /** The subfield nodes of a bit field read as the number blob: each takes
      the next low-order group of its narrowed width, narrowed to a byte. */
  function SplitBits(blob: nat, subs: seq<SubField>): seq<Node> {
    if subs == [] then []
    else
      var (low, rest) := LowBits(blob, ShiftWidth(subs[0]));
      [Node(subs[0].name, Int(UInt8Type, low % 256), Formatter("hex"))] + SplitBits(rest, subs[1..])
  }

  /** A bit field: total width a whole number of bytes, read most
      significant byte first, then split; a subfield whose mask overflows
      int makes the whole decode undefined. */
  function ParseBits(s: seq<byte>, subs: seq<SubField>, branch: seq<Node>, pos: nat): (r: Result<Decoded<seq<Node>>>)
    requires pos <= |s|
    ensures r.Ok? ==> pos <= r.value.pos <= |s| && branch <= r.value.value
  {
    var total := TotalWidth(subs);
    if total % 8 != 0 then Err(Fail("bitfield must have total size an integral number of bytes"))
    else
      var d :- Read(s, pos, total / 8);
      if !ShiftsDefined(subs) then Err(MaskOverflow)
      else Ok(Decoded(branch + SplitBits(BigEndian(d.value), subs), d.pos))
  }

  /** A skip: the reserved bytes, kept under "skip-<order>". */
  function ParseSkip(s: seq<byte>, size: int, order: nat, branch: seq<Node>, pos: nat): (r: Result<Decoded<seq<Node>>>)
    requires pos <= |s|
    ensures r.Ok? ==> pos <= r.value.pos <= |s| && branch <= r.value.value
  {
    if size < 0 then Err(StdException("std::length_error"))
    else
      var d :- Read(s, pos, size);
      Ok(Decoded(branch + [Node(SkipName(order), Bytes(d.value), Plain)], d.pos))
  }

  const Int64Max := 0x7fff_ffff_ffff_ffff

  /** An array's length: fixed, or the integer value of the first earlier
      sibling node with the size field's name, as a size_t. */
  function ArrayLength(branch: seq<Node>, size: ArraySize): Result<nat> {
    match size
    case Fixed(n) => Ok(n)
    case SizedBy(f) =>
      match FindNode(branch, f)
      case None =>
        Err(Failure("array size indicator field not found", Some(DescriptionError), ErrorContext(None, None, Some(f))))
      case Some(node) =>
        match node.value
        // std::stoll of the printed integer, stored into a size_t
        case Int(_, v) =>
          if v > Int64Max || v < -Int64Max - 1 then Err(StdException("std::out_of_range"))
          else Ok(v % Pow2(64))
        case _ => Err(Failure("cannot parse array size value", Some(DescriptionError), ErrorContext(None, None, Some(f))))
  }

  /** An array: trees of a described element type, or one byte per element
      for a terminal element type. The byte vector is allocated first, so a
      count above max_size() (PTRDIFF_MAX with libstdc++ and libc++) throws
      std::length_error, which decode does not catch. */
  function ParseArray(ctx: Context, s: seq<byte>, end: int, name: string, size: ArraySize, elem: ArrayElem,
                      branch: seq<Node>, pos: nat, fuel: nat): (r: Result<Decoded<seq<Node>>>)
    requires pos <= |s|
    ensures r.Ok? ==> pos <= r.value.pos <= |s| && branch <= r.value.value
    decreases fuel, 2, 0
  {
    var count :- ArrayLength(branch, size);
    match elem
    case NestedElem(n) =>
      if n !in ctx.catalog then Err(Fail("unknown nested type"))
      else
        var d :- ParseTrees(ctx, s, end, ctx.catalog[n], count, [], pos, fuel);
        Ok(Decoded(branch + [Node(name, Trees(d.value), Plain)], d.pos))
    case TerminalElem(_) =>
      // std::vector<std::uint8_t>(count) throws beyond its max_size()
      if count > Int64Max then Err(StdException("std::length_error"))
      else
        var d :- Read(s, pos, count);
        Ok(Decoded(branch + [Node(name, Bytes(d.value), Plain)], d.pos))
  }

  /** The element loop of a nested array: decode the type until count trees
      are collected. */
  function ParseTrees(ctx: Context, s: seq<byte>, end: int, ty: Type, count: nat, acc: seq<Tree>, pos: nat, fuel: nat)
    : (r: Result<Decoded<seq<Tree>>>)
    requires |acc| <= count && pos <= |s|
    ensures r.Ok? ==> pos <= r.value.pos <= |s| && |r.value.value| == count && acc <= r.value.value
    decreases fuel, 1, count - |acc|
  {
    if |acc| == count then Ok(Decoded(acc, pos))
    else
      match ParseType(ctx, s, end, ty, pos, fuel)
      case Ok(d) => ParseTrees(ctx, s, end, ty, count, acc + [d.value], d.pos, fuel)
      case Err(e) => Err(e)
  }
}
