/** What the generic decoder of lib/decoder.cpp guarantees, stated as lemmas
    about the specification functions of module DecoderSpec. */
module DecoderLemmas {
  import opened Common
  import opened Bytes
  import opened Descriptor
  import opened Values
  import opened DecoderSpec

  // ---------------------------------------------------------------------
  // Dispatch by name

  /** A name with a primitive parser is decoded by it, whatever the
      catalog holds under that name. */
  lemma PrimitiveBeforeCatalog(ctx: Context, s: seq<byte>, end: int, name: string, ty: Type, pos: nat, fuel: nat)
    requires pos <= |s| && name in ParseMap
    ensures ParseName(ctx.(catalog := ctx.catalog[name := ty]), s, end, name, pos, fuel)
         == ParsePrimitive(ParseMap[name], s, end, pos)
  {
  }

  /** A name known to neither the parser table nor the catalog fails with
      "no decoder" and the description-error status. */
  lemma UnknownNameFails(ctx: Context, s: seq<byte>, end: int, name: string, pos: nat, fuel: nat)
    requires pos <= |s| && name !in ParseMap && name !in ctx.catalog
    ensures ParseName(ctx, s, end, name, pos, fuel)
         == Err(Failure("no decoder", Some(DescriptionError), ErrorContext(Some(name), Some("decoder"), None)))
    ensures ParseName(ctx, s, end, name, pos, fuel).error.status.value.Code() == -4
  {
  }

  /** "raw" takes exactly the bytes from the position to the record end. */
  lemma RawReadsToRecordEnd(ctx: Context, s: seq<byte>, end: int, pos: nat, fuel: nat)
    requires pos <= |s|
    ensures pos <= end <= |s| ==> ParseName(ctx, s, end, "raw", pos, fuel) == Ok(Decoded(Bytes(s[pos..end]), end))
    ensures end > |s| ==> ParseName(ctx, s, end, "raw", pos, fuel) == Err(StreamFailure)
    ensures end < pos ==> ParseName(ctx, s, end, "raw", pos, fuel).Err?
  {
  }

  // ---------------------------------------------------------------------
  // Terminal fields

  /** The value of bytes in a byte order. */
  function InOrder(order: ByteOrder, bs: seq<byte>): (v: nat)
    ensures v < Pow256(|bs|)
  {
    if order == Big then BigEndian(bs) else LittleEndian(bs)
  }

  /** The integer an integer type gives to an unsigned pattern of its width. */
  function IntegerValue(t: IntType, u: nat): int
    requires u < Pow256(t.bytes)
  {
    if t.signed && t.bytes > 0 then Signed(u, t.bytes) else u
  }

  /** Every multi-byte integer parser has a big-endian twin under the name
      with ".be" appended. */
  lemma BigEndianTwin(base: string)
    requires base in ParseMap && ParseMap[base].PInt? && !ParseMap[base].t.big && ParseMap[base].t.bytes > 1
    ensures base + ".be" in ParseMap && ParseMap[base + ".be"] == PInt(ParseMap[base].t.(big := true))
  {
    assert base in {"uint16", "uint32", "uint64", "int16", "int32", "int64"};
    if base == "uint16" {
      assert base + ".be" == "uint16.be";
    } else if base == "uint32" {
      assert base + ".be" == "uint32.be";
    } else if base == "uint64" {
      assert base + ".be" == "uint64.be";
    } else if base == "int16" {
      assert base + ".be" == "int16.be";
    } else if base == "int32" {
      assert base + ".be" == "int32.be";
    } else {
      assert base + ".be" == "int64.be";
    }
  }

  /** A terminal field whose canonical name is an integer reads that many
      bytes, in the field's byte order (one-byte integers only in little
      endian: see BigEndianByteField for the other order). */
  lemma TerminalIntegerField(ctx: Context, s: seq<byte>, end: int, field: Field, term: Terminal, branch: seq<Node>, pos: nat, fuel: nat)
    requires pos <= |s|
    requires term in ctx.maps.terminalTypes
    requires var base := ctx.maps.terminalTypes[term];
      base in ParseMap && ParseMap[base].PInt? && !ParseMap[base].t.big
      && (ParseMap[base].t.bytes > 1 || field.byteorder == Little)
    ensures var t := ParseMap[ctx.maps.terminalTypes[term]].t;
      ParseTerminal(ctx, s, end, field, term, branch, pos, fuel)
        == if pos + t.bytes <= |s| then
             var bs := s[pos..pos + t.bytes];
             Ok(Decoded(branch + [Node(field.name, Int(t.(big := field.byteorder == Big), IntegerValue(t, InOrder(field.byteorder, bs))), field.format)],
                        pos + t.bytes))
           else Err(StreamFailure)
  {
    var base := ctx.maps.terminalTypes[term];
    if field.byteorder == Big {
      BigEndianTwin(base);
    }
  }

  lemma TerminalWithoutTypemap(ctx: Context, s: seq<byte>, end: int, field: Field, term: Terminal, branch: seq<Node>, pos: nat, fuel: nat)
    requires pos <= |s| && term !in ctx.maps.terminalTypes
    ensures ParseTerminal(ctx, s, end, field, term, branch, pos, fuel)
         == Err(Failure("no typemap", None, ErrorContext(None, None, Some(field.name))))
  {
  }

  /** A big-endian one-byte field asks for "uint8.be" or "int8.be", which
      have no parser: unless the catalog defines them it fails. */
  lemma BigEndianByteField(ctx: Context, s: seq<byte>, end: int, field: Field, term: Terminal, branch: seq<Node>, pos: nat, fuel: nat)
    requires pos <= |s| && field.byteorder == Big
    requires term in ctx.maps.terminalTypes && ctx.maps.terminalTypes[term] in {"uint8", "int8"}
    requires ctx.maps.terminalTypes[term] + ".be" !in ctx.catalog
    ensures ParseTerminal(ctx, s, end, field, term, branch, pos, fuel)
         == Err(Failure("no decoder", Some(DescriptionError), ErrorContext(Some(ctx.maps.terminalTypes[term] + ".be"), Some("decoder"), None)))
  {
    var name := ctx.maps.terminalTypes[term] + ".be";
    assert name == "uint8.be" || name == "int8.be";
    assert name !in ParseMap;
  }

  // ---------------------------------------------------------------------
  // Bit fields

  function SubNames(subs: seq<SubField>): (r: seq<string>)
    ensures |r| == |subs|
  {
    if subs == [] then [] else [subs[0].name] + SubNames(subs[1..])
  }

  lemma {:induction false} SplitBitsNames(blob: nat, subs: seq<SubField>)
    ensures Names(SplitBits(blob, subs)) == SubNames(subs)
  {
    if subs != [] {
      var (low, rest) := LowBits(blob, ShiftWidth(subs[0]));
      SplitBitsNames(rest, subs[1..]);
      NamesAppend([Node(subs[0].name, Int(UInt8Type, low % 256), Formatter("hex"))], SplitBits(rest, subs[1..]));
    }
  }

  /** Subfield i holds the bits of its byte-narrowed width that start above
      the narrowed widths of the subfields before it: the first subfield
      takes the lowest bits. */
  lemma {:induction false} SplitBitsField(blob: nat, subs: seq<SubField>, i: nat)
    requires i < |subs|
    ensures |SplitBits(blob, subs)| == |subs|
    ensures SplitBits(blob, subs)[i]
         == Node(subs[i].name, Int(UInt8Type, (blob / Pow2(ShiftTotal(subs[..i]))) % Pow2(subs[i].width % 256) % 256), Formatter("hex"))
  {
    var (low, rest) := LowBits(blob, ShiftWidth(subs[0]));
    if |subs| > 1 {
      SplitBitsField(rest, subs[1..], if i == 0 then 0 else i - 1);
    }
    if i > 0 {
      var w, t := ShiftWidth(subs[0]), ShiftTotal(subs[1..][..i - 1]);
      assert subs[..i] == [subs[0]] + subs[1..][..i - 1];
      assert ShiftTotal(subs[..i]) == w + t;
      assert rest == blob / Pow2(w);
      DivDiv(blob, Pow2(w), Pow2(t));
      Pow2Add(w, t);
    }
  }

  /** Reassemble subfield values into one number, first subfield lowest. */
  function JoinBits(nodes: seq<Node>, subs: seq<SubField>): int
    requires |nodes| == |subs|
  {
    if subs == [] then 0
    else (if nodes[0].value.Int? then nodes[0].value.v else 0) + Pow2(subs[0].width) * JoinBits(nodes[1..], subs[1..])
  }

  /** When no subfield is wider than the byte it is narrowed to, splitting
      loses nothing: the subfields reassemble into the low bits of blob. */
  lemma {:induction false} SplitBitsLossless(blob: nat, subs: seq<SubField>)
    requires forall k :: 0 <= k < |subs| ==> subs[k].width <= 8
    ensures |SplitBits(blob, subs)| == |subs|
    ensures JoinBits(SplitBits(blob, subs), subs) == blob % Pow2(TotalWidth(subs))
  {
    if subs != [] {
      var w := subs[0].width;
      assert ShiftWidth(subs[0]) == w;
      var (low, rest) := LowBits(blob, w);
      SplitBitsLossless(rest, subs[1..]);
      Pow2Monotone(w, 8);
      assert low % 256 == low;
      var nodes := SplitBits(blob, subs);
      assert nodes[1..] == SplitBits(rest, subs[1..]);
      ModSplit(blob, Pow2(w), Pow2(TotalWidth(subs[1..])));
      Pow2Add(w, TotalWidth(subs[1..]));
    } else {
      assert blob % 1 == 0;
    }
  }

  /** A bit field with a total width of 8k bits consumes exactly k bytes,
      read most significant first; any other width is rejected, too few
      bytes fail the read, and a subfield of 31 or more (narrowed) bits
      leaves the decode undefined. */
  lemma BitFieldDecoding(s: seq<byte>, subs: seq<SubField>, branch: seq<Node>, pos: nat)
    requires pos <= |s|
    ensures TotalWidth(subs) % 8 != 0 ==>
      ParseBits(s, subs, branch, pos) == Err(Fail("bitfield must have total size an integral number of bytes"))
    ensures var n := TotalWidth(subs) / 8;
      TotalWidth(subs) % 8 == 0 && pos + n > |s| ==> ParseBits(s, subs, branch, pos) == Err(StreamFailure)
    ensures var n := TotalWidth(subs) / 8;
      TotalWidth(subs) % 8 == 0 && pos + n <= |s| && !ShiftsDefined(subs) ==>
        ParseBits(s, subs, branch, pos) == Err(MaskOverflow)
    ensures var n := TotalWidth(subs) / 8;
      TotalWidth(subs) % 8 == 0 && pos + n <= |s| && ShiftsDefined(subs) ==>
        ParseBits(s, subs, branch, pos) == Ok(Decoded(branch + SplitBits(BigEndian(s[pos..pos + n]), subs), pos + n))
  {
  }

  /** A subfield of 31 bits makes the mask overflow int, and 256 bits is
      narrowed to 0 bits and so is defined. */
  lemma MaskWidths()
    ensures !ShiftsDefined([SubField("a", 1), SubField("b", 31)])
    ensures ShiftsDefined([SubField("a", 256), SubField("b", 30)])
  {
    assert ShiftWidth([SubField("a", 1), SubField("b", 31)][1]) == 31;
  }

  /** When no subfield is wider than a byte, the subfields of a decoded bit
      field reassemble into the number its bytes hold. */
  lemma BitFieldLossless(s: seq<byte>, subs: seq<SubField>, branch: seq<Node>, pos: nat)
    requires pos <= |s|
    requires forall k :: 0 <= k < |subs| ==> subs[k].width <= 8
    ensures var r := ParseBits(s, subs, branch, pos);
      r.Ok? ==> (|r.value.value| == |branch| + |subs|
                 && JoinBits(r.value.value[|branch|..], subs) == BigEndian(s[pos..r.value.pos]))
  {
    var r := ParseBits(s, subs, branch, pos);
    if r.Ok? {
      var n := TotalWidth(subs) / 8;
      var bs := s[pos..pos + n];
      assert r.value.value == branch + SplitBits(BigEndian(bs), subs) && r.value.pos == pos + n;
      SplitBitsLossless(BigEndian(bs), subs);
      assert r.value.value[|branch|..] == SplitBits(BigEndian(bs), subs);
      Pow256IsPow2(n);
      assert TotalWidth(subs) == 8 * n;
      ModBelow(BigEndian(bs), Pow2(TotalWidth(subs)));
    }
  }

  lemma ModBelow(v: nat, m: nat)
    requires v < m
    ensures v % m == v
  {
    DivModUnique(v, m, 0, v);
  }

  // ---------------------------------------------------------------------
  // Skips

  /** A skip consumes exactly its size and keeps the bytes under
      "skip-<order>"; a negative size fails. */
  lemma SkipDecoding(s: seq<byte>, size: int, order: nat, branch: seq<Node>, pos: nat)
    requires pos <= |s|
    ensures size >= 0 && pos + size <= |s| ==>
      ParseSkip(s, size, order, branch, pos)
        == Ok(Decoded(branch + [Node("skip-" + NatToString(order), Bytes(s[pos..pos + size]), Plain)], pos + size))
    ensures size >= 0 && pos + size > |s| ==> ParseSkip(s, size, order, branch, pos) == Err(StreamFailure)
    ensures size < 0 ==> ParseSkip(s, size, order, branch, pos).Err?
  {
  }

  // ---------------------------------------------------------------------
  // Arrays

  /** FindNode returns the first node with the name. */
  lemma {:induction false} FindNodeFirst(nodes: seq<Node>, name: string, i: nat)
    requires i < |nodes| && nodes[i].name == name
    requires forall j :: 0 <= j < i ==> nodes[j].name != name
    ensures FindNode(nodes, name) == Some(nodes[i])
  {
    if i > 0 {
      FindNodeFirst(nodes[1..], name, i - 1);
    }
  }

  lemma Pow2Of64()
    ensures Pow2(64) == 0x1_0000_0000_0000_0000
  {
    Pow256IsPow2(8);
    assert Pow256(8) == 0x1_0000_0000_0000_0000;
  }

  /** A length named by a field is the value of the first earlier sibling
      with that name, read by std::stoll and stored into a size_t: a
      non-negative value is kept, a negative one wraps modulo 2^64, and one
      outside the long long range throws std::out_of_range. */
  lemma SiblingArrayLength(branch: seq<Node>, f: string, i: nat)
    requires i < |branch| && branch[i].name == f
    requires forall j :: 0 <= j < i ==> branch[j].name != f
    requires branch[i].value.Int?
    ensures var v := branch[i].value.v;
      0 <= v <= Int64Max ==> ArrayLength(branch, SizedBy(f)) == Ok(v)
    ensures var v := branch[i].value.v;
      -Int64Max - 1 <= v < 0 ==> ArrayLength(branch, SizedBy(f)) == Ok(v + 0x1_0000_0000_0000_0000)
    ensures var v := branch[i].value.v;
      (v > Int64Max || v < -Int64Max - 1) ==> ArrayLength(branch, SizedBy(f)) == Err(StdException("std::out_of_range"))
  {
    FindNodeFirst(branch, f, i);
    var v := branch[i].value.v;
    Pow2Of64();
    if 0 <= v <= Int64Max {
      DivModUnique(v, Pow2(64), 0, v);
    } else if -Int64Max - 1 <= v < 0 {
      DivModUnique(v, Pow2(64), -1, v + Pow2(64));
    }
  }

  /** A terminal array whose length is beyond max_size() throws
      std::length_error before anything is read; decode passes it on. */
  lemma TerminalArrayTooLong(ctx: Context, s: seq<byte>, end: int, name: string, size: ArraySize, t: Terminal,
                             branch: seq<Node>, pos: nat, fuel: nat)
    requires pos <= |s|
    requires ArrayLength(branch, size).Ok? && ArrayLength(branch, size).value > Int64Max
    ensures ParseArray(ctx, s, end, name, size, TerminalElem(t), branch, pos, fuel) == Err(StdException("std::length_error"))
    ensures DecoderContext(StdException("std::length_error"), name) == StdException("std::length_error")
  {
  }

  /** An int32 size field holding -1 becomes the size_t 2^64 - 1, so a
      byte array sized by it throws std::length_error. */
  lemma NegativeSizeSibling(ctx: Context, s: seq<byte>, end: int, pos: nat, fuel: nat)
    requires pos <= |s|
    ensures var branch := [Node("n", Int(IntType(true, 4, false), -1), Plain)];
      ArrayLength(branch, SizedBy("n")) == Ok(0xffff_ffff_ffff_ffff)
      && ParseArray(ctx, s, end, "a", SizedBy("n"), TerminalElem(Integral(false, 1)), branch, pos, fuel)
         == Err(StdException("std::length_error"))
  {
    var branch := [Node("n", Int(IntType(true, 4, false), -1), Plain)];
    SiblingArrayLength(branch, "n", 0);
  }

  lemma MissingSizeField(branch: seq<Node>, f: string)
    requires forall j :: 0 <= j < |branch| ==> branch[j].name != f
    ensures ArrayLength(branch, SizedBy(f))
         == Err(Failure("array size indicator field not found", Some(DescriptionError), ErrorContext(None, None, Some(f))))
  {
  }

  lemma FixedArrayLength(branch: seq<Node>, n: nat)
    ensures ArrayLength(branch, Fixed(n)) == Ok(n)
  {
  }

  /** An array of a terminal type holds one byte per element, whatever the
      declared element type. */
  lemma TerminalArrayBytes(ctx: Context, s: seq<byte>, end: int, name: string, size: ArraySize, t: Terminal, u: Terminal,
                           branch: seq<Node>, pos: nat, fuel: nat)
    requires pos <= |s|
    ensures ParseArray(ctx, s, end, name, size, TerminalElem(t), branch, pos, fuel)
         == ParseArray(ctx, s, end, name, size, TerminalElem(u), branch, pos, fuel)
    ensures var len := ArrayLength(branch, size);
      len.Ok? && len.value <= Int64Max && pos + len.value <= |s| ==>
        ParseArray(ctx, s, end, name, size, TerminalElem(t), branch, pos, fuel)
          == Ok(Decoded(branch + [Node(name, Bytes(s[pos..pos + len.value]), Plain)], pos + len.value))
  {
  }

  /** The element loop yields trees of the element type only. */
  lemma {:induction false} TreesOfType(ctx: Context, s: seq<byte>, end: int, ty: Type, count: nat, acc: seq<Tree>, pos: nat, fuel: nat)
    requires |acc| <= count && pos <= |s|
    requires forall k :: 0 <= k < |acc| ==> acc[k].name == ty.name
    ensures var r := ParseTrees(ctx, s, end, ty, count, acc, pos, fuel);
      r.Ok? ==> forall k :: 0 <= k < |r.value.value| ==> r.value.value[k].name == ty.name
    decreases count - |acc|
  {
    if |acc| < count {
      var d := ParseType(ctx, s, end, ty, pos, fuel);
      if d.Ok? {
        TreesOfType(ctx, s, end, ty, count, acc + [d.value.value], d.value.pos, fuel);
      }
    }
  }

  /** An array of a described type holds exactly its length in trees of
      that type; an element type the catalog lacks fails. */
  lemma NestedArrayTrees(ctx: Context, s: seq<byte>, end: int, name: string, size: ArraySize, n: string,
                         branch: seq<Node>, pos: nat, fuel: nat)
    requires pos <= |s|
    ensures var len := ArrayLength(branch, size);
      len.Ok? && n !in ctx.catalog ==>
        ParseArray(ctx, s, end, name, size, NestedElem(n), branch, pos, fuel) == Err(Fail("unknown nested type"))
    ensures var r := ParseArray(ctx, s, end, name, size, NestedElem(n), branch, pos, fuel);
      r.Ok? ==>
        n in ctx.catalog && ArrayLength(branch, size).Ok?
        && |r.value.value| == |branch| + 1 && r.value.value[..|branch|] == branch
        && r.value.value[|branch|].name == name && r.value.value[|branch|].value.Trees?
        && |r.value.value[|branch|].value.trees| == ArrayLength(branch, size).value
        && forall k :: 0 <= k < |r.value.value[|branch|].value.trees| ==>
             r.value.value[|branch|].value.trees[k].name == ctx.catalog[n].name
  {
    var len := ArrayLength(branch, size);
    if len.Ok? && n in ctx.catalog {
      TreesOfType(ctx, s, end, ctx.catalog[n], len.value, [], pos, fuel);
    }
  }

  // ---------------------------------------------------------------------
  // Structures

  /** The node names a field contributes. */
  function FieldNames(f: Field): seq<string> {
    match f.kind
    case BitFieldKind(subs) => SubNames(subs)
    case SkipKind(_, order) => [SkipName(order)]
    case _ => [f.name]
  }

  /** The node names a field list contributes, in order. */
  function FieldsNames(fields: seq<Field>): seq<string> {
    if fields == [] then [] else FieldNames(fields[0]) + FieldsNames(fields[1..])
  }

  /** Appending one node adds its name. */
  lemma AppendOneName(branch: seq<Node>, node: Node)
    ensures Names(branch + [node]) == Names(branch) + [node.name]
  {
    NamesAppend(branch, [node]);
  }

  lemma TerminalNodeNames(ctx: Context, s: seq<byte>, end: int, field: Field, t: Terminal, branch: seq<Node>, pos: nat, fuel: nat)
    requires pos <= |s|
    ensures var r := ParseTerminal(ctx, s, end, field, t, branch, pos, fuel);
      r.Ok? ==> Names(r.value.value) == Names(branch) + [field.name]
  {
    var r := ParseTerminal(ctx, s, end, field, t, branch, pos, fuel);
    if r.Ok? {
      var d := ParseName(ctx, s, end, TerminalName(ctx.maps.terminalTypes[t], field.byteorder), pos, fuel);
      AppendOneName(branch, Node(field.name, d.value.value, field.format));
    }
  }

  lemma BitsNodeNames(s: seq<byte>, subs: seq<SubField>, branch: seq<Node>, pos: nat)
    requires pos <= |s|
    ensures var r := ParseBits(s, subs, branch, pos);
      r.Ok? ==> Names(r.value.value) == Names(branch) + SubNames(subs)
  {
    var r := ParseBits(s, subs, branch, pos);
    if r.Ok? {
      var blob := BigEndian(s[pos..r.value.pos]);
      assert r.value.value == branch + SplitBits(blob, subs);
      NamesAppend(branch, SplitBits(blob, subs));
      SplitBitsNames(blob, subs);
    }
  }

  lemma ArrayNodeNames(ctx: Context, s: seq<byte>, end: int, name: string, size: ArraySize, elem: ArrayElem,
                       branch: seq<Node>, pos: nat, fuel: nat)
    requires pos <= |s|
    ensures var r := ParseArray(ctx, s, end, name, size, elem, branch, pos, fuel);
      r.Ok? ==> Names(r.value.value) == Names(branch) + [name]
  {
    var r := ParseArray(ctx, s, end, name, size, elem, branch, pos, fuel);
    if r.Ok? {
      var node := r.value.value[|branch|];
      assert r.value.value == branch + [node] && node.name == name;
      AppendOneName(branch, node);
    }
  }

  lemma FieldNodeNames(ctx: Context, s: seq<byte>, end: int, field: Field, branch: seq<Node>, pos: nat, fuel: nat)
    requires pos <= |s|
    ensures var r := ParseField(ctx, s, end, field, branch, pos, fuel);
      r.Ok? ==> Names(r.value.value) == Names(branch) + FieldNames(field)
  {
    var r := ParseField(ctx, s, end, field, branch, pos, fuel);
    if r.Ok? {
      match field.kind
      case TerminalKind(t) =>
        TerminalNodeNames(ctx, s, end, field, t, branch, pos, fuel);
      case BitFieldKind(subs) =>
        BitsNodeNames(s, subs, branch, pos);
      case NestedKind(n) =>
        if n in ctx.maps.terminalNames {
          TerminalNodeNames(ctx, s, end, field, ctx.maps.terminalNames[n], branch, pos, fuel);
        } else {
          var node := r.value.value[|branch|];
          assert r.value.value == branch + [node] && node.name == field.name;
          AppendOneName(branch, node);
        }
      case SkipKind(size, order) =>
        var node := r.value.value[|branch|];
        assert r.value.value == branch + [node] && node.name == SkipName(order);
        AppendOneName(branch, node);
      case ArrayKind(size, elem) =>
        ArrayNodeNames(ctx, s, end, field.name, size, elem, branch, pos, fuel);
    }
  }

  lemma {:induction false} FieldsNodeNames(ctx: Context, s: seq<byte>, end: int, fields: seq<Field>, i: nat,
                                           branch: seq<Node>, pos: nat, fuel: nat)
    requires i <= |fields| && pos <= |s|
    ensures var r := ParseFields(ctx, s, end, fields, i, branch, pos, fuel);
      r.Ok? ==> Names(r.value.value) == Names(branch) + FieldsNames(fields[i..])
    decreases |fields| - i
  {
    if i < |fields| {
      var d := ParseField(ctx, s, end, fields[i], branch, pos, fuel);
      if d.Ok? {
        FieldNodeNames(ctx, s, end, fields[i], branch, pos, fuel);
        FieldsNodeNames(ctx, s, end, fields, i + 1, d.value.value, d.value.pos, fuel);
        assert fields[i..][1..] == fields[i + 1..];
      }
    } else {
      assert fields[i..] == [];
    }
  }

  /** A structure decodes its fields in declaration order into a tree
      named after the type. */
  lemma StructureInOrder(ctx: Context, s: seq<byte>, end: int, ty: Type, pos: nat, fuel: nat)
    requires pos <= |s|
    ensures var r := ParseType(ctx, s, end, ty, pos, fuel);
      r.Ok? ==> r.value.value.name == ty.name && Names(r.value.value.nodes) == FieldsNames(ty.fields)
  {
    if fuel > 0 {
      FieldsNodeNames(ctx, s, end, ty.fields, 0, [], pos, fuel - 1);
      assert ty.fields[0..] == ty.fields;
    }
  }

  /** A stream read failure anywhere inside a structure surfaces as
      "read error" with the structure's type and the decoder module. */
  lemma ReadFailureReported(ctx: Context, s: seq<byte>, end: int, ty: Type, pos: nat, fuel: nat)
    requires pos <= |s| && fuel > 0
    requires ParseFields(ctx, s, end, ty.fields, 0, [], pos, fuel - 1) == Err(StreamFailure)
    ensures ParseType(ctx, s, end, ty, pos, fuel)
         == Err(Failure("read error", None, ErrorContext(Some(ty.name), Some("decoder"), None)))
  {
  }

  // ---------------------------------------------------------------------
  // Fuel: the model's bound on nesting depth

  /** More fuel never changes an outcome that did not run out of fuel: the
      bound only cuts off descriptions that nest too deeply (or cyclically,
      which the C++ would recurse on until the stack overflows). */
  lemma {:induction false} TypeFuel(ctx: Context, s: seq<byte>, end: int, ty: Type, pos: nat, fuel: nat, more: nat)
    requires pos <= |s| && fuel <= more
    requires ParseType(ctx, s, end, ty, pos, fuel) != Err(OutOfFuel)
    ensures ParseType(ctx, s, end, ty, pos, more) == ParseType(ctx, s, end, ty, pos, fuel)
    decreases fuel, 0, 0
  {
    FieldsFuel(ctx, s, end, ty.fields, 0, [], pos, fuel - 1, more - 1);
  }

  lemma {:induction false} NameFuel(ctx: Context, s: seq<byte>, end: int, name: string, pos: nat, fuel: nat, more: nat)
    requires pos <= |s| && fuel <= more
    requires ParseName(ctx, s, end, name, pos, fuel) != Err(OutOfFuel)
    ensures ParseName(ctx, s, end, name, pos, more) == ParseName(ctx, s, end, name, pos, fuel)
    decreases fuel, 1, 0
  {
    if name !in ParseMap && name in ctx.catalog {
      TypeFuel(ctx, s, end, ctx.catalog[name], pos, fuel, more);
    }
  }

  lemma {:induction false} TreesFuel(ctx: Context, s: seq<byte>, end: int, ty: Type, count: nat, acc: seq<Tree>, pos: nat,
                                     fuel: nat, more: nat)
    requires |acc| <= count && pos <= |s| && fuel <= more
    requires ParseTrees(ctx, s, end, ty, count, acc, pos, fuel) != Err(OutOfFuel)
    ensures ParseTrees(ctx, s, end, ty, count, acc, pos, more) == ParseTrees(ctx, s, end, ty, count, acc, pos, fuel)
    decreases fuel, 1, count - |acc|
  {
    if |acc| < count {
      var d := ParseType(ctx, s, end, ty, pos, fuel);
      TypeFuel(ctx, s, end, ty, pos, fuel, more);
      if d.Ok? {
        TreesFuel(ctx, s, end, ty, count, acc + [d.value.value], d.value.pos, fuel, more);
      }
    }
  }

  lemma {:induction false} TerminalFuel(ctx: Context, s: seq<byte>, end: int, field: Field, t: Terminal, branch: seq<Node>,
                                        pos: nat, fuel: nat, more: nat)
    requires pos <= |s| && fuel <= more
    requires ParseTerminal(ctx, s, end, field, t, branch, pos, fuel) != Err(OutOfFuel)
    ensures ParseTerminal(ctx, s, end, field, t, branch, pos, more) == ParseTerminal(ctx, s, end, field, t, branch, pos, fuel)
    decreases fuel, 2, 0
  {
    if t in ctx.maps.terminalTypes {
      NameFuel(ctx, s, end, TerminalName(ctx.maps.terminalTypes[t], field.byteorder), pos, fuel, more);
    }
  }

  lemma {:induction false} ArrayFuel(ctx: Context, s: seq<byte>, end: int, name: string, size: ArraySize, elem: ArrayElem,
                                     branch: seq<Node>, pos: nat, fuel: nat, more: nat)
    requires pos <= |s| && fuel <= more
    requires ParseArray(ctx, s, end, name, size, elem, branch, pos, fuel) != Err(OutOfFuel)
    ensures ParseArray(ctx, s, end, name, size, elem, branch, pos, more) == ParseArray(ctx, s, end, name, size, elem, branch, pos, fuel)
    decreases fuel, 2, 0
  {
    var len := ArrayLength(branch, size);
    if len.Ok? && elem.NestedElem? && elem.typeName in ctx.catalog {
      TreesFuel(ctx, s, end, ctx.catalog[elem.typeName], len.value, [], pos, fuel, more);
    }
  }

  lemma {:induction false} FieldFuel(ctx: Context, s: seq<byte>, end: int, field: Field, branch: seq<Node>,
                                     pos: nat, fuel: nat, more: nat)
    requires pos <= |s| && fuel <= more
    requires ParseField(ctx, s, end, field, branch, pos, fuel) != Err(OutOfFuel)
    ensures ParseField(ctx, s, end, field, branch, pos, more) == ParseField(ctx, s, end, field, branch, pos, fuel)
    decreases fuel, 3, 0
  {
    match field.kind
    case TerminalKind(t) =>
      TerminalFuel(ctx, s, end, field, t, branch, pos, fuel, more);
    case NestedKind(n) =>
      if n in ctx.maps.terminalNames {
        TerminalFuel(ctx, s, end, field, ctx.maps.terminalNames[n], branch, pos, fuel, more);
      } else if n in ctx.catalog {
        TypeFuel(ctx, s, end, ctx.catalog[n], pos, fuel, more);
      }
    case ArrayKind(size, elem) =>
      ArrayFuel(ctx, s, end, field.name, size, elem, branch, pos, fuel, more);
    case _ =>
  }

  lemma {:induction false} FieldsFuel(ctx: Context, s: seq<byte>, end: int, fields: seq<Field>, i: nat, branch: seq<Node>,
                                      pos: nat, fuel: nat, more: nat)
    requires i <= |fields| && pos <= |s| && fuel <= more
    requires ParseFields(ctx, s, end, fields, i, branch, pos, fuel) != Err(OutOfFuel)
    ensures ParseFields(ctx, s, end, fields, i, branch, pos, more) == ParseFields(ctx, s, end, fields, i, branch, pos, fuel)
    decreases fuel, 4, |fields| - i
  {
    if i < |fields| {
      var d := ParseField(ctx, s, end, fields[i], branch, pos, fuel);
      FieldFuel(ctx, s, end, fields[i], branch, pos, fuel, more);
      if d.Ok? {
        FieldsFuel(ctx, s, end, fields, i + 1, d.value.value, d.value.pos, fuel, more);
      }
    }
  }

  // ---------------------------------------------------------------------
  // An example: a count-sized array of 16-bit elements

  const ExampleMaps := Typemaps(map["uint16" := Integral(false, 2)], map[Integral(false, 2) := "uint16"], {"hex"})

  const ExampleType := Type("msg", [
    Field("count", TerminalKind(Integral(false, 2)), Little, Plain),
    Field("data", ArrayKind(SizedBy("count"), TerminalElem(Integral(false, 2))), Little, Plain)])

  const ExampleStream: seq<byte> := [2, 0, 0xAA, 0xBB, 0xCC, 0xDD]
  const ExampleCount := [Node("count", Int(IntType(false, 2, false), 2), Plain)]
  const ExampleNodes := ExampleCount + [Node("data", Bytes([0xAA, 0xBB]), Plain)]

  lemma ExampleCountField()
    ensures ParseField(Context(map[], ExampleMaps), ExampleStream, 6, ExampleType.fields[0], [], 0, 0)
         == Ok(Decoded(ExampleCount, 2))
  {
    var ctx := Context(map[], ExampleMaps);
    var s := ExampleStream;
    var f0 := ExampleType.fields[0];
    assert f0 == Field("count", TerminalKind(Integral(false, 2)), Little, Plain);
    assert ctx.maps.terminalTypes[Integral(false, 2)] == "uint16";
    assert "uint16" in ParseMap && ParseMap["uint16"] == PInt(IntType(false, 2, false));
    TerminalIntegerField(ctx, s, 6, f0, Integral(false, 2), [], 0, 0);
    assert InOrder(Little, s[0..2]) == 2 by {
      assert s[0..2] == [2, 0];
      assert LittleEndian([0]) == 0;
    }
    assert [] + ExampleCount == ExampleCount;
  }

  lemma ExampleDataField()
    ensures ParseField(Context(map[], ExampleMaps), ExampleStream, 6, ExampleType.fields[1], ExampleCount, 2, 0)
         == Ok(Decoded(ExampleNodes, 4))
  {
    var ctx := Context(map[], ExampleMaps);
    var s := ExampleStream;
    assert ExampleType.fields[1] == Field("data", ArrayKind(SizedBy("count"), TerminalElem(Integral(false, 2))), Little, Plain);
    SiblingArrayLength(ExampleCount, "count", 0);
    TerminalArrayBytes(ctx, s, 6, "data", SizedBy("count"), Integral(false, 2), Integral(false, 2), ExampleCount, 2, 0);
    assert s[2..4] == [0xAA, 0xBB];
  }

  /** The element count is taken from "count" and each element of a
      uint16 array is one byte: two elements consume two bytes, not four. */
  lemma SixteenBitArrayReadsBytes()
    ensures ParseType(Context(map[], ExampleMaps), ExampleStream, 6, ExampleType, 0, 1)
         == Ok(Decoded(Tree("msg", [Node("count", Int(IntType(false, 2, false), 2), Plain),
                                    Node("data", Bytes([0xAA, 0xBB]), Plain)]), 4))
  {
    var ctx := Context(map[], ExampleMaps);
    ExampleCountField();
    ExampleDataField();
    assert ParseFields(ctx, ExampleStream, 6, ExampleType.fields, 2, ExampleNodes, 4, 0) == Ok(Decoded(ExampleNodes, 4));
    assert ParseFields(ctx, ExampleStream, 6, ExampleType.fields, 1, ExampleCount, 2, 0) == Ok(Decoded(ExampleNodes, 4));
    assert ParseFields(ctx, ExampleStream, 6, ExampleType.fields, 0, [], 0, 0) == Ok(Decoded(ExampleNodes, 4));
    assert ExampleNodes == [Node("count", Int(IntType(false, 2, false), 2), Plain), Node("data", Bytes([0xAA, 0xBB]), Plain)];
  }
}
