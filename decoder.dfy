/** The generic decoder of lib/decoder.cpp: an object over an input stream
    whose read position advances as each field is decoded. Every method is
    proved to agree with its specification function in module DecoderSpec. */
module GenericDecoder {
  import opened Common
  import opened Bytes
  import opened Descriptor
  import opened Values
  import opened DecoderSpec

  class Decoder {
    /** the descriptor catalog and lookup tables */
    const ctx: Context
    /** the contents of the input stream */
    const stream: seq<byte>
    /** the stream offset where the current record ends ("raw" reads up to it) */
    const recordEnd: int
    /** the stream's read position */
    var pos: nat

    ghost predicate Valid()
      reads this
    {
      pos <= |stream|
    }

    constructor(ctx: Context, stream: seq<byte>, recordEnd: int, start: nat)
      requires start <= |stream|
      ensures Valid()
      ensures this.ctx == ctx && this.stream == stream && this.recordEnd == recordEnd && pos == start
    {
      this.ctx := ctx;
      this.stream := stream;
      this.recordEnd := recordEnd;
      pos := start;
    }

    /** Decoder::decode(Bytes&): n bytes from the stream. */
    method ReadBytes(n: nat) returns (r: Result<seq<byte>>)
      requires Valid()
      modifies this
      ensures Valid()
      ensures Agrees(r, pos, Read(stream, old(pos), n))
    {
      if pos + n > |stream| {
        return Err(StreamFailure);
      }
      r := Ok(stream[pos..pos + n]);
      pos := pos + n;
    }

    /** Decoder::decode(cpp_int&): a 128-bit hash, most significant byte first. */
    method ReadHash() returns (r: Result<nat>)
      requires Valid()
      modifies this
      ensures Valid()
      ensures Agrees(r, pos, ParseHash(stream, old(pos)))
    {
      var buf :- ReadBytes(16);
      return Ok(BigEndian(buf));
    }

    /** One primitive parser of parseMap. */
    method DecodePrimitive(p: Primitive) returns (r: Result<Value>)
      requires Valid()
      modifies this
      ensures Valid()
      ensures Agrees(r, pos, ParsePrimitive(p, stream, recordEnd, old(pos)))
    {
      match p
      case PInt(t) =>
        var buf :- ReadBytes(t.bytes);
        var u := if t.big then BigEndian(buf) else LittleEndian(buf);
        if t.signed && t.bytes > 0 {
          return Ok(Int(t, Signed(u, t.bytes)));
        }
        return Ok(Int(t, u));
      case PReal(n, big) =>
        var buf :- ReadBytes(n);
        if big {
          return Ok(Float(4, BigEndian(buf) % Pow256(4)));
        }
        return Ok(Float(n, LittleEndian(buf)));
      case PRaw =>
        if recordEnd < pos {
          return Err(StdException("std::length_error"));
        }
        var buf :- ReadBytes(recordEnd - pos);
        return Ok(Bytes(buf));
    }

    /** Decoder::decode(string): a primitive by name, else a catalog type. */
    method DecodeName(name: string, fuel: nat) returns (r: Result<Value>)
      requires Valid()
      modifies this
      ensures Valid()
      ensures Agrees(r, pos, ParseName(ctx, stream, recordEnd, name, old(pos), fuel))
      decreases fuel, 1, 0
    {
      if name in ParseMap {
        r := DecodePrimitive(ParseMap[name]);
        return;
      }
      if name !in ctx.catalog {
        return Err(Failure("no decoder", Some(DescriptionError), ErrorContext(Some(name), Some("decoder"), None)));
      }
      var tree :- DecodeType(ctx.catalog[name], fuel);
      return Ok(Branch(tree));
    }

    /** Decoder::decode(Type): every field in order, with the decoder's
        context attached to an error that escapes. */
    method DecodeType(ty: Type, fuel: nat) returns (r: Result<Tree>)
      requires Valid()
      modifies this
      ensures Valid()
      ensures Agrees(r, pos, ParseType(ctx, stream, recordEnd, ty, old(pos), fuel))
      decreases fuel, 0, 0
    {
      if fuel == 0 {
        return Err(OutOfFuel);
      }
      var branch: seq<Node> := [];
      var i := 0;
      while i < |ty.fields|
        invariant i <= |ty.fields| && Valid()
        invariant ParseFields(ctx, stream, recordEnd, ty.fields, 0, [], old(pos), fuel - 1)
               == ParseFields(ctx, stream, recordEnd, ty.fields, i, branch, pos, fuel - 1)
      {
        var step := BuildField(ty.fields[i], branch, fuel - 1);
        if step.Err? {
          return Err(DecoderContext(step.error, ty.name));
        }
        branch := step.value;
        i := i + 1;
      }
      return Ok(Tree(ty.name, branch));
    }

    /** branch_builder: one field appended to the branch built so far. */
    method BuildField(field: Field, branch: seq<Node>, fuel: nat) returns (r: Result<seq<Node>>)
      requires Valid()
      modifies this
      ensures Valid()
      ensures Agrees(r, pos, ParseField(ctx, stream, recordEnd, field, branch, old(pos), fuel))
      decreases fuel, 3, 0
    {
      match field.kind
      case TerminalKind(t) =>
        r := DecodeTerminal(field, t, branch, fuel);
      case BitFieldKind(subs) =>
        r := DecodeBits(subs, branch);
      case NestedKind(n) =>
        if n in ctx.maps.terminalNames {
          r := DecodeTerminal(field, ctx.maps.terminalNames[n], branch, fuel);
          return;
        }
        if n !in ctx.catalog {
          return Err(Fail("no nested descriptor for \"" + n + "\""));
        }
        var tree :- DecodeType(ctx.catalog[n], fuel);
        return Ok(branch + [Node(field.name, Branch(tree), Plain)]);
      case SkipKind(size, order) =>
        r := DecodeSkip(size, order, branch);
      case ArrayKind(size, elem) =>
        r := DecodeArray(field.name, size, elem, branch, fuel);
    }

    /** A terminal field, decoded by its canonical name (".be" when big-endian). */
    method DecodeTerminal(field: Field, t: Terminal, branch: seq<Node>, fuel: nat) returns (r: Result<seq<Node>>)
      requires Valid()
      modifies this
      ensures Valid()
      ensures Agrees(r, pos, ParseTerminal(ctx, stream, recordEnd, field, t, branch, old(pos), fuel))
      decreases fuel, 2, 0
    {
      if t !in ctx.maps.terminalTypes {
        return Err(Failure("no typemap", None, ErrorContext(None, None, Some(field.name))));
      }
      var tname := ctx.maps.terminalTypes[t];
      if field.byteorder == Big {
        tname := tname + ".be";
      }
      var a :- DecodeName(tname, fuel);
      return Ok(branch + [Node(field.name, a, field.format)]);
    }

    /** A bit field: read whole bytes, then peel off each subfield's bits,
        lowest first, with its width held in a byte. */
    method DecodeBits(subs: seq<SubField>, branch: seq<Node>) returns (r: Result<seq<Node>>)
      requires Valid()
      modifies this
      ensures Valid()
      ensures Agrees(r, pos, ParseBits(stream, subs, branch, old(pos)))
    {
      var size := TotalWidth(subs);
      if size % 8 != 0 {
        return Err(Fail("bitfield must have total size an integral number of bytes"));
      }
      var buf :- ReadBytes(size / 8);
      assert Read(stream, old(pos), size / 8) == Ok(Decoded(buf, pos));
      var blob := BigEndian(buf);
      var nodes := branch;
      var j := 0;
      ghost var after := pos;
      while j < |subs|
        invariant j <= |subs| && pos == after
        invariant forall k :: 0 <= k < j ==> ShiftWidth(subs[k]) < 31
        invariant nodes + SplitBits(blob, subs[j..]) == branch + SplitBits(BigEndian(buf), subs)
      {
        var width := subs[j].width % 256;
        if width >= 31 {
          return Err(MaskOverflow);
        }
        var mask := Pow2(width);
        var value := (blob % mask) % 256;
        assert SplitBits(blob, subs[j..])
            == [Node(subs[j].name, Int(UInt8Type, value), Formatter("hex"))] + SplitBits(blob / mask, subs[j + 1..]) by {
          assert subs[j..][1..] == subs[j + 1..];
        }
        blob := blob / mask;
        nodes := nodes + [Node(subs[j].name, Int(UInt8Type, value), Formatter("hex"))];
        j := j + 1;
      }
      assert subs[j..] == [];
      assert nodes == branch + SplitBits(BigEndian(buf), subs);
      return Ok(nodes);
    }

    /** A skip: the reserved bytes, kept under "skip-<order>". */
    method DecodeSkip(size: int, order: nat, branch: seq<Node>) returns (r: Result<seq<Node>>)
      requires Valid()
      modifies this
      ensures Valid()
      ensures Agrees(r, pos, ParseSkip(stream, size, order, branch, old(pos)))
    {
      if size < 0 {
        return Err(StdException("std::length_error"));
      }
      var raw :- ReadBytes(size);
      return Ok(branch + [Node("skip-" + NatToString(order), Bytes(raw), Plain)]);
    }

    /** An array: count trees of a described type, or count single bytes. */
    method DecodeArray(name: string, size: ArraySize, elem: ArrayElem, branch: seq<Node>, fuel: nat)
      returns (r: Result<seq<Node>>)
      requires Valid()
      modifies this
      ensures Valid()
      ensures Agrees(r, pos, ParseArray(ctx, stream, recordEnd, name, size, elem, branch, old(pos), fuel))
      decreases fuel, 2, 0
    {
      var count :- ArrayLength(branch, size);
      match elem
      case NestedElem(n) =>
        if n !in ctx.catalog {
          return Err(Fail("unknown nested type"));
        }
        var items :- DecodeTrees(ctx.catalog[n], count, fuel);
        return Ok(branch + [Node(name, Trees(items), Plain)]);
      case TerminalElem(_) =>
        if count > Int64Max {
          return Err(StdException("std::length_error"));
        }
        var items :- ReadByteRun(count);
        return Ok(branch + [Node(name, Bytes(items), Plain)]);
    }

    /** The element loop of a nested array: count trees of type ty, one
        after another. */
    method DecodeTrees(ty: Type, count: nat, fuel: nat) returns (r: Result<seq<Tree>>)
      requires Valid()
      modifies this
      ensures Valid()
      ensures Agrees(r, pos, ParseTrees(ctx, stream, recordEnd, ty, count, [], old(pos), fuel))
      decreases fuel, 1, 0
    {
      var items: seq<Tree> := [];
      while |items| < count
        invariant |items| <= count && Valid()
        invariant ParseTrees(ctx, stream, recordEnd, ty, count, [], old(pos), fuel)
               == ParseTrees(ctx, stream, recordEnd, ty, count, items, pos, fuel)
        decreases count - |items|
      {
        var tree :- DecodeType(ty, fuel);
        items := items + [tree];
      }
      return Ok(items);
    }

    /** The element loop of an array of terminals: count single-byte reads. */
    method ReadByteRun(count: nat) returns (r: Result<seq<byte>>)
      requires Valid()
      modifies this
      ensures Valid()
      ensures Agrees(r, pos, Read(stream, old(pos), count))
    {
      var start := pos;
      var items: seq<byte> := [];
      while |items| < count
        invariant |items| <= count && Valid()
        invariant pos == start + |items| && items == stream[start..pos]
        decreases count - |items|
      {
        var val :- ReadBytes(1);
        items := items + val;
      }
      return Ok(items);
    }
  }
}
