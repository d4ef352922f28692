/** What the plog writer guarantees, as lemmas about module Writer: every
    value it writes is read back by the reference reader below, fixed-size
    records take exactly their packed size, a hash written by export_bits
    can be short, and describe renders the member list in order. */
module WriterLemmas {
  import opened Common
  import opened Bytes
  import opened Layout
  import opened LayoutLemmas
  import opened Values
  import opened Writer
  import opened Typemaps
  import opened TypemapLemmas
  import DecoderSpec

  // ---------------------------------------------------------------------
  // A reference reader

  /** A value read and the bytes after it. */
  datatype Parsed = Parsed(value: CValue, rest: seq<byte>)

  /** Reads a value of type t from the front of s: numbers in their stored
      byte order, a hash as 16 bytes most significant first, a name or a
      sequence as its length and then that many characters or elements. */
  function Parse(t: CType, s: seq<byte>): Option<Parsed>
    decreases t, 2, 0
  {
    match t
    case Num(signed, n) =>
      if n == 0 || |s| < n then None
      else
        var u := LittleEndian(s[..n]);
        Some(Parsed(NumV(if signed then Signed(u, n) else u), s[n..]))
    case BigNum(signed, n) =>
      if n == 0 || |s| < n then None
      else
        var u := BigEndian(s[..n]);
        Some(Parsed(NumV(if signed then Signed(u, n) else u), s[n..]))
    case Hash =>
      if |s| < HashLen then None else Some(Parsed(HashV(BigEndian(s[..HashLen])), s[HashLen..]))
    case Name =>
      if |s| < NameLengthBytes then None
      else
        var len := LittleEndian(s[..NameLengthBytes]);
        if |s| < NameLengthBytes + len then None
        else Some(Parsed(NameV(s[NameLengthBytes..NameLengthBytes + len]), s[NameLengthBytes + len..]))
    case Seq(lenBytes, _) =>
      if |s| < lenBytes then None else ParseElements(t, LittleEndian(s[..lenBytes]), s[lenBytes..], [])
    case Array(e, count) =>
      if !e.Num? then None else ParseItems(t, count, s, [])
    case Struct(_, _) => ParseFields(t, 0, s, [])
  }

  /** count more elements of a sequence, after those in acc. */
  function ParseElements(t: CType, count: nat, s: seq<byte>, acc: seq<CValue>): Option<Parsed>
    requires t.Seq?
    decreases t, 1, count
  {
    if count == 0 then Some(Parsed(SeqV(acc), s))
    else
      match Parse(t.elem, s)
      case None => None
      case Some(p) => ParseElements(t, count - 1, p.rest, acc + [p.value])
  }

  /** count more integers of an array, after those in acc. */
  function ParseItems(t: CType, count: nat, s: seq<byte>, acc: seq<int>): Option<Parsed>
    requires t.Array?
    decreases t, 1, count
  {
    if count == 0 then Some(Parsed(ArrayV(acc), s))
    else
      match Parse(t.elem, s)
      case Some(Parsed(NumV(x), rest)) => ParseItems(t, count - 1, rest, acc + [x])
      case _ => None
  }

  /** The members of a struct from the i-th on, after those in acc. */
  function ParseFields(t: CType, i: nat, s: seq<byte>, acc: seq<CValue>): Option<Parsed>
    requires t.Struct? && i <= |t.members|
    decreases t, 1, |t.members| - i
  {
    if i == |t.members| then Some(Parsed(StructV(acc), s))
    else
      match Parse(t.members[i].mtype, s)
      case None => None
      case Some(p) => ParseFields(t, i + 1, p.rest, acc + [p.value])
  }

  /** Lengths that survive the narrowing to their length type. */
  predicate Fits(t: CType, v: CValue)
    decreases v
  {
    match t
    case Name => v.NameV? && |v.text| < Pow256(NameLengthBytes)
    case Seq(lenBytes, e) =>
      v.SeqV? && |v.elems| < Pow256(lenBytes) && forall i :: 0 <= i < |v.elems| ==> Fits(e, v.elems[i])
    case Struct(_, ms) =>
      v.StructV? && |v.fields| == |ms| && forall i :: 0 <= i < |ms| ==> Fits(ms[i].mtype, v.fields[i])
    case _ => true
  }

  // ---------------------------------------------------------------------
  // Numbers

  /** Reading an n-byte two's complement pattern gives back the value. */
  lemma SignedUnsigned(x: int, n: nat)
    requires InRange(true, n, x)
    ensures Signed(Unsigned(x, n), n) == x
  {
    var p := Pow256(n);
    if x >= 0 {
      DivModUnique(x, p, 0, x);
    } else {
      DivModUnique(x, p, -1, x + p);
    }
  }

  lemma UnsignedExact(x: int, n: nat)
    requires InRange(false, n, x)
    ensures Unsigned(x, n) == x
  {
    DivModUnique(x, Pow256(n), 0, x);
  }

  /** The value an n-byte integer's pattern reads back as. */
  lemma PatternValue(signed: bool, n: nat, x: int)
    requires InRange(signed, n, x)
    ensures (if signed then Signed(Unsigned(x, n), n) else Unsigned(x, n)) == x
  {
    if signed {
      SignedUnsigned(x, n);
    } else {
      UnsignedExact(x, n);
    }
  }

  lemma NumRoundTrip(signed: bool, n: nat, x: int, rest: seq<byte>)
    requires InRange(signed, n, x)
    ensures Parse(Num(signed, n), NumBytes(x, n) + rest) == Some(Parsed(NumV(x), rest))
    ensures Parse(BigNum(signed, n), BigBytes(x, n) + rest) == Some(Parsed(NumV(x), rest))
  {
    var s := NumBytes(x, n) + rest;
    assert s[..n] == NumBytes(x, n) && s[n..] == rest;
    LittleEndianExact(Unsigned(x, n), n);
    var b := BigBytes(x, n) + rest;
    assert b[..n] == BigBytes(x, n) && b[n..] == rest;
    BigEndianExact(Unsigned(x, n), n);
    PatternValue(signed, n, x);
  }

  // ---------------------------------------------------------------------
  // The round trip

  /** Every value whose lengths fit their length types is read back from
      what the writer wrote, whatever follows it. */
  lemma {:induction false} RoundTrip(t: CType, v: CValue, rest: seq<byte>)
    requires HasType(t, v) && Fits(t, v)
    ensures Parse(t, Encoding(t, v) + rest) == Some(Parsed(v, rest))
    decreases v, 2, 0
  {
    match t
    case Num(signed, n) =>
      NumRoundTrip(signed, n, v.n, rest);
    case BigNum(signed, n) =>
      NumRoundTrip(signed, n, v.n, rest);
    case Hash =>
      var s := HashBytes(v.h) + rest;
      assert s[..HashLen] == HashBytes(v.h) && s[HashLen..] == rest;
      BigEndianExact(v.h, HashLen);
    case Name =>
      var len := |v.text|;
      DivModUnique(len, Pow256(NameLengthBytes), 0, len);
      var prefix := ToLittleEndian(len, NameLengthBytes);
      var s := Encoding(t, v) + rest;
      assert s == prefix + v.text + rest;
      assert s[..NameLengthBytes] == prefix;
      LittleEndianExact(len, NameLengthBytes);
      assert s[NameLengthBytes..NameLengthBytes + len] == v.text;
      assert s[NameLengthBytes + len..] == rest;
    case Seq(lenBytes, _) =>
      var count := |v.elems|;
      DivModUnique(count, Pow256(lenBytes), 0, count);
      var prefix := ToLittleEndian(count, lenBytes);
      var s := Encoding(t, v) + rest;
      assert s == prefix + (Elements(t, v, 0) + rest);
      assert s[..lenBytes] == prefix && s[lenBytes..] == Elements(t, v, 0) + rest;
      LittleEndianExact(count, lenBytes);
      ElementsRoundTrip(t, v, 0, rest);
      assert v.elems[..0] == [];
    case Array(_, _) =>
      ItemsRoundTrip(t, v, 0, rest);
      assert v.items[..0] == [] && v.items[0..] == v.items;
    case Struct(_, _) =>
      FieldsRoundTrip(t, v, 0, rest);
      assert v.fields[..0] == [];
  }

  lemma {:induction false} ElementsRoundTrip(t: CType, v: CValue, i: nat, rest: seq<byte>)
    requires t.Seq? && HasType(t, v) && Fits(t, v) && i <= |v.elems|
    ensures ParseElements(t, |v.elems| - i, Elements(t, v, i) + rest, v.elems[..i]) == Some(Parsed(v, rest))
    decreases v, 1, |v.elems| - i
  {
    if i < |v.elems| {
      var x := v.elems[i];
      var tail := Elements(t, v, i + 1) + rest;
      RoundTrip(t.elem, x, tail);
      assert Elements(t, v, i) + rest == Encoding(t.elem, x) + tail;
      assert v.elems[..i] + [x] == v.elems[..i + 1];
      ElementsRoundTrip(t, v, i + 1, rest);
    } else {
      assert v.elems[..i] == v.elems && Elements(t, v, i) == [];
      assert SeqV(v.elems) == v && Elements(t, v, i) + rest == rest;
    }
  }

  lemma {:induction false} ItemsRoundTrip(t: CType, v: CValue, i: nat, rest: seq<byte>)
    requires t.Array? && HasType(t, v) && i <= |v.items|
    ensures ParseItems(t, |v.items| - i, ArrayBytes(v.items[i..], t.elem.bytes) + rest, v.items[..i]) == Some(Parsed(v, rest))
    decreases |v.items| - i
  {
    var n := t.elem.bytes;
    if i < |v.items| {
      var x := v.items[i];
      var tail := ArrayBytes(v.items[i + 1..], n) + rest;
      assert v.items[i..][1..] == v.items[i + 1..];
      assert ArrayBytes(v.items[i..], n) + rest == NumBytes(x, n) + tail;
      NumRoundTrip(t.elem.signed, n, x, tail);
      assert v.items[..i] + [x] == v.items[..i + 1];
      ItemsRoundTrip(t, v, i + 1, rest);
    } else {
      assert v.items[..i] == v.items && v.items[i..] == [];
      assert ArrayV(v.items) == v && ArrayBytes(v.items[i..], t.elem.bytes) + rest == rest;
    }
  }

  lemma {:induction false} FieldsRoundTrip(t: CType, v: CValue, i: nat, rest: seq<byte>)
    requires t.Struct? && HasType(t, v) && Fits(t, v) && i <= |t.members|
    ensures ParseFields(t, i, Fields(t, v, i) + rest, v.fields[..i]) == Some(Parsed(v, rest))
    decreases v, 1, |t.members| - i
  {
    if i < |t.members| {
      var x := v.fields[i];
      FieldsSplit(t, v, i, rest);
      RoundTrip(t.members[i].mtype, x, Fields(t, v, i + 1) + rest);
      FieldsRoundTrip(t, v, i + 1, rest);
    } else {
      assert v.fields[..i] == v.fields && Fields(t, v, i) == [];
      assert StructV(v.fields) == v && Fields(t, v, i) + rest == rest;
    }
  }

  lemma FieldsSplit(t: CType, v: CValue, i: nat, rest: seq<byte>)
    requires t.Struct? && HasType(t, v) && Fits(t, v) && i < |t.members|
    ensures HasType(t.members[i].mtype, v.fields[i]) && Fits(t.members[i].mtype, v.fields[i])
    ensures Fields(t, v, i) + rest == Encoding(t.members[i].mtype, v.fields[i]) + (Fields(t, v, i + 1) + rest)
    ensures v.fields[..i] + [v.fields[i]] == v.fields[..i + 1]
  {
    FieldsStep(t, v, i);
  }

  // ---------------------------------------------------------------------
  // Lengths

  /** Types whose written size does not depend on the value. */
  predicate FixedSize(t: CType)
    decreases t
  {
    match t
    case Num(_, _) => true
    case BigNum(_, _) => true
    case Array(e, _) => e.Num?
    case Struct(_, ms) => forall i :: 0 <= i < |ms| ==> FixedSize(ms[i].mtype)
    case _ => false
  }

  /** A value of a fixed-size type is written in exactly its packed size:
      sizeof for a number, element count times element size for an array,
      the sum of the members for a struct. */
  lemma {:induction false} EncodingPacked(t: CType, v: CValue, host: Host)
    requires HasType(t, v) && FixedSize(t)
    ensures |Encoding(t, v)| == Packed(t, host)
    decreases v, 2, 0
  {
    match t
    case Num(_, _) =>
    case BigNum(_, _) =>
    case Array(e, count) =>
      assert |Encoding(t, v)| == count * e.bytes;
    case Struct(name, ms) =>
      FieldsPacked(t, v, 0, host);
      PackedStruct(name, ms, host);
      assert ms[0..] == ms;
  }

  lemma {:induction false} FieldsPacked(t: CType, v: CValue, i: nat, host: Host)
    requires t.Struct? && HasType(t, v) && FixedSize(t) && i <= |t.members|
    ensures |Fields(t, v, i)| == MemberSum(t.members[i..], host)
    decreases v, 1, |t.members| - i
  {
    if i < |t.members| {
      EncodingPacked(t.members[i].mtype, v.fields[i], host);
      FieldsPacked(t, v, i + 1, host);
      assert t.members[i..][1..] == t.members[i + 1..];
    }
  }

  /** A msg_header is written as 20 bytes and a transcode log_record as 40. */
  lemma RecordsWritten(host: Host, header: CValue, record: CValue)
    requires HasType(MsgHeader, header) && HasType(LogRecord, record)
    ensures |Encoding(MsgHeader, header)| == 20 && |Encoding(LogRecord, record)| == 40
  {
    assert FixedSize(MsgHeader);
    assert FixedSize(LogRecord);
    EncodingPacked(MsgHeader, header, host);
    EncodingPacked(LogRecord, record, host);
    MsgHeaderPacked(host);
    LogRecordPacked(host);
  }

  /** A name is its length in two bytes, least significant first, then
      exactly its bytes; a name of 65536 bytes or more keeps only the
      length's low 16 bits, and that many bytes. */
  lemma NameLayout(text: seq<byte>)
    ensures Pow256(NameLengthBytes) == 0x1_0000
    ensures var len := |text| % Pow256(NameLengthBytes); var w := NameBytes(text);
      LittleEndian(w[..NameLengthBytes]) == len && w[NameLengthBytes..] == text[..len]
    ensures |text| < Pow256(NameLengthBytes) ==> NameBytes(text) == ToLittleEndian(|text|, NameLengthBytes) + text
  {
    assert Pow256(NameLengthBytes) == 256 * Pow256(1) == 256 * 256;
    var len := |text| % Pow256(NameLengthBytes);
    var w := NameBytes(text);
    assert w[..NameLengthBytes] == ToLittleEndian(len, NameLengthBytes);
    LittleEndianExact(len, NameLengthBytes);
    if |text| < Pow256(NameLengthBytes) {
      DivModUnique(|text|, Pow256(NameLengthBytes), 0, |text|);
      assert text[..len] == text;
    }
  }

  /** A sequence is its element count in lenBytes bytes, narrowed to that
      width, followed by its elements in order. */
  lemma SequenceLayout(t: CType, v: CValue)
    requires t.Seq? && HasType(t, v)
    ensures var w := Encoding(t, v);
      |w| >= t.lenBytes && LittleEndian(w[..t.lenBytes]) == |v.elems| % Pow256(t.lenBytes)
      && w[t.lenBytes..] == Elements(t, v, 0)
  {
    var len := |v.elems| % Pow256(t.lenBytes);
    var w := Encoding(t, v);
    assert w[..t.lenBytes] == ToLittleEndian(len, t.lenBytes);
    LittleEndianExact(len, t.lenBytes);
  }

  // ---------------------------------------------------------------------
  // The hash, as export_bits writes it and as the format holds it

  lemma {:induction false} Pow256Monotone(a: nat, b: nat)
    requires a <= b
    ensures Pow256(a) <= Pow256(b)
    decreases b
  {
    if a < b {
      Pow256Monotone(a, b - 1);
    }
  }

  /** export_bits writes a hash below 2^120 in fewer than 16 bytes, while
      the decoder always reads 16: it then takes bytes of the following
      field, or fails at the end of the stream. A hash of 1 is written as
      the single byte 1. */
  lemma HashWrittenShort(h: nat, rest: seq<byte>)
    requires h < Pow256(HashLen - 1)
    ensures |ExportBits(h)| < HashLen
    ensures DecoderSpec.ParseHash(ExportBits(h) + rest, 0) != Ok(DecoderSpec.Decoded(h, |ExportBits(h)|))
    ensures ExportBits(1) == [1]
  {
    var r := ExportBits(h);
    if |r| > 1 {
      Pow256Below(|r| - 1, HashLen - 1);
    }
  }

  /** Pow256 is strictly increasing. */
  lemma Pow256Below(a: nat, b: nat)
    requires Pow256(a) < Pow256(b)
    ensures a < b
  {
    if b <= a {
      Pow256Monotone(b, a);
    }
  }

  /** The 16-byte form is read back by the decoder. */
  lemma HashRoundTrip(h: nat, rest: seq<byte>)
    requires h < Pow256(HashLen)
    ensures DecoderSpec.ParseHash(HashBytes(h) + rest, 0) == Ok(DecoderSpec.Decoded(h, HashLen))
  {
    var s := HashBytes(h) + rest;
    assert s[0..HashLen] == HashBytes(h);
    BigEndianExact(h, HashLen);
  }

  lemma {:induction false} BigEndianInjective(a: seq<byte>, b: seq<byte>)
    requires |a| == |b| && BigEndian(a) == BigEndian(b)
    ensures a == b
    decreases |a|
  {
    if a != [] {
      var n := |a| - 1;
      DivModUnique(BigEndian(a), 256, BigEndian(a[..n]), a[n]);
      DivModUnique(BigEndian(b), 256, BigEndian(b[..n]), b[n]);
      BigEndianInjective(a[..n], b[..n]);
      assert a == a[..n] + [a[n]] && b == b[..n] + [b[n]];
    }
  }

  /** export_bits and the 16-byte form agree exactly on the hashes whose
      top byte is not zero. */
  lemma HashFullWidth(h: nat)
    requires h < Pow256(HashLen)
    ensures ExportBits(h) == HashBytes(h) <==> Pow256(HashLen - 1) <= h
  {
    if Pow256(HashLen - 1) <= h {
      ExportBitsFullLength(h);
      BigEndianExact(h, HashLen);
      BigEndianInjective(ExportBits(h), HashBytes(h));
    } else {
      HashWrittenShort(h, []);
    }
  }

  /** A hash whose top byte is not zero takes all 16 bytes. */
  lemma ExportBitsFullLength(h: nat)
    requires Pow256(HashLen - 1) <= h < Pow256(HashLen)
    ensures |ExportBits(h)| == HashLen
  {
    var n := |ExportBits(h)|;
    Pow256Below(HashLen - 1, n);
    Pow256Below(n - 1, HashLen);
  }

  // ---------------------------------------------------------------------
  // Decoded trees

  /** An integer node is written so that the decoder's parser for its type
      reads the same node value back. */
  lemma IntNodeRoundTrip(k: IntType, x: int, rest: seq<byte>, end: int)
    requires InRange(k.signed, k.bytes, x)
    ensures var w := LeafBytes(Int(k, x));
      w.Ok? && DecoderSpec.ParsePrimitive(DecoderSpec.PInt(k), w.value + rest, end, 0)
               == Ok(DecoderSpec.Decoded(Int(k, x), k.bytes))
  {
    var n := k.bytes;
    var w := LeafBytes(Int(k, x)).value;
    assert (w + rest)[0..n] == w;
    if k.big {
      BigEndianExact(Unsigned(x, n), n);
    } else {
      LittleEndianExact(Unsigned(x, n), n);
    }
    PatternValue(k.signed, n, x);
  }

  /** The bytes of encode(node) for each node of a list, back to back. */
  function NodesBytes(nodes: seq<Node>): seq<byte> {
    if nodes == [] then [] else NodeWritten(nodes[0]).bytes + NodesBytes(nodes[1..])
  }

  /** A tree is written node by node in order: when no node fails, the
      bytes are those of encode on each node in turn. */
  lemma {:induction false} TreeNodeByNode(t: Tree, i: nat)
    requires i <= |t.nodes|
    ensures NodesWritten(t, i).error.None? ==> NodesWritten(t, i).bytes == NodesBytes(t.nodes[i..])
    decreases |t.nodes| - i
  {
    if i < |t.nodes| {
      TreeNodeByNode(t, i + 1);
      assert t.nodes[i..][1..] == t.nodes[i + 1..];
    }
  }

  // ---------------------------------------------------------------------
  // Self-descriptions

  /** The members' parts of a self-description, joined in member order. */
  function Joined(typemap: map<CType, Atom>, ms: seq<Member>): string
    requires forall j :: 0 <= j < |ms| ==> ms[j].mtype in typemap
  {
    if ms == [] then "" else DescribeEntry(ms[0].name, typemap[ms[0].mtype]) + Joined(typemap, ms[1..])
  }

  lemma {:induction false} DescribeLoopJoined(typemap: map<CType, Atom>, tpname: string, ms: seq<Member>, i: nat, result: string)
    requires i <= |ms| && forall j :: 0 <= j < |ms| ==> ms[j].mtype in typemap
    ensures DescribeLoop(typemap, tpname, ms, i, result) == Ok(result + Joined(typemap, ms[i..]))
    decreases |ms| - i
  {
    if i < |ms| {
      var entry := DescribeEntry(ms[i].name, typemap[ms[i].mtype]);
      DescribeLoopJoined(typemap, tpname, ms, i + 1, result + entry);
      assert ms[i..][1..] == ms[i + 1..];
      assert Joined(typemap, ms[i..]) == entry + Joined(typemap, ms[i + 1..]);
      assert result + entry + Joined(typemap, ms[i + 1..]) == result + (entry + Joined(typemap, ms[i + 1..]));
    } else {
      assert ms[i..] == [];
      assert result + Joined(typemap, ms[i..]) == result;
    }
  }

  lemma {:induction false} DescribeLoopMissing(typemap: map<CType, Atom>, tpname: string, ms: seq<Member>, i: nat, result: string, j: nat)
    requires i <= j < |ms| && ms[j].mtype !in typemap
    requires forall k :: i <= k < j ==> ms[k].mtype in typemap
    ensures DescribeLoop(typemap, tpname, ms, i, result)
         == Err(StdException("type not described for field \"" + tpname + "::" + ms[j].name + "\""))
    decreases |ms| - i
  {
    if i < j {
      DescribeLoopMissing(typemap, tpname, ms, i + 1, result + DescribeEntry(ms[i].name, typemap[ms[i].mtype]), j);
    }
  }

  /** describe succeeds exactly when the record and all its member types
      are in the type map (so exactly when the record is mapped and
      describe<Struct>() of core.hpp succeeds on it), and then renders
      "Name { " followed by each member's "name: type size; " in member
      order and a closing "}". */
  lemma DescribeTextCharacterised(typemap: map<CType, Atom>, record: CType)
    requires record.Struct?
    ensures var r := DescribeText(typemap, record);
      (r.Ok? <==> record in typemap && forall j :: 0 <= j < |record.members| ==> record.members[j].mtype in typemap)
      && (r.Ok? <==> record in typemap && Describe(typemap, record.members).Ok?)
      && (r.Ok? ==> r.value == typemap[record].name + " { " + Joined(typemap, record.members) + "}")
      && (record !in typemap ==> r == Err(StdException("no typemap description")))
  {
    var ms := record.members;
    DescribeFields(typemap, ms);
    if record in typemap {
      var tpname := typemap[record].name;
      if forall j :: 0 <= j < |ms| ==> ms[j].mtype in typemap {
        DescribeLoopJoined(typemap, tpname, ms, 0, tpname + " { ");
        assert ms[0..] == ms;
      } else {
        var j := FirstUnmapped(typemap, ms);
        DescribeLoopMissing(typemap, tpname, ms, 0, tpname + " { ", j);
      }
    }
  }

  /** The position of the first member whose type is not in the map. */
  function FirstUnmapped(typemap: map<CType, Atom>, ms: seq<Member>): (j: nat)
    requires exists j :: 0 <= j < |ms| && ms[j].mtype !in typemap
    ensures j < |ms| && ms[j].mtype !in typemap && forall k :: 0 <= k < j ==> ms[k].mtype in typemap
  {
    if ms[0].mtype !in typemap then 0
    else
      assert exists j :: 0 <= j < |ms[1..]| && ms[1..][j].mtype !in typemap by {
        var j :| 0 <= j < |ms| && ms[j].mtype !in typemap;
        assert ms[1..][j - 1] == ms[j];
      }
      1 + FirstUnmapped(typemap, ms[1..])
  }

  /** The first unmapped member type makes describe throw, naming the
      record and the member. */
  lemma DescribeTextMissing(typemap: map<CType, Atom>, record: CType, j: nat)
    requires record.Struct? && record in typemap && j < |record.members| && record.members[j].mtype !in typemap
    requires forall k :: 0 <= k < j ==> record.members[k].mtype in typemap
    ensures DescribeText(typemap, record)
         == Err(StdException("type not described for field \"" + typemap[record].name + "::" + record.members[j].name + "\""))
  {
    DescribeLoopMissing(typemap, typemap[record].name, record.members, 0, typemap[record].name + " { ", j);
  }

  /** msg_header's members' parts, for any map naming its integers. */
  lemma JoinedMsgHeader(tm: map<CType, Atom>)
    requires UInt32 in tm && tm[UInt32] == Atom("uint32", 4) && UInt64 in tm && tm[UInt64] == Atom("uint64", 8)
    ensures forall j :: 0 <= j < |MsgHeader.members| ==> MsgHeader.members[j].mtype in tm
    ensures Joined(tm, MsgHeader.members) == "type: uint32 4; " + "timestamp: uint64 8; " + "src_guid: uint64 8; "
  {
    var ms := MsgHeader.members;
    MsgHeaderEntries();
    var e0 := DescribeEntry("type", Atom("uint32", 4));
    var e1 := DescribeEntry("timestamp", Atom("uint64", 8));
    var e2 := DescribeEntry("src_guid", Atom("uint64", 8));
    var t2 := ms[1..][1..];
    assert t2 == [ms[2]] && t2[1..] == [];
    assert Joined(tm, t2) == e2 + Joined(tm, t2[1..]) == e2;
    assert Joined(tm, ms[1..]) == e1 + e2;
    assert Joined(tm, ms) == e0 + (e1 + e2);
  }

  /** With the entries of transcode/core.cpp, msg_header describes itself
      as "msg_header { type: uint32 4; timestamp: uint64 8; src_guid: uint64 8; }". */
  lemma MsgHeaderEntries()
    ensures DescribeEntry("type", Atom("uint32", 4)) == "type: uint32 4; "
    ensures DescribeEntry("timestamp", Atom("uint64", 8)) == "timestamp: uint64 8; "
    ensures DescribeEntry("src_guid", Atom("uint64", 8)) == "src_guid: uint64 8; "
  {
    assert NatToString(4) == "4" && NatToString(8) == "8";
  }

  lemma DescribeMsgHeaderText(host: Host)
    ensures DescribeText(StaticTypemap(host), MsgHeader)
         == Ok("msg_header" + " { " + "type: uint32 4; " + "timestamp: uint64 8; " + "src_guid: uint64 8; " + "}")
  {
    IntegerEntries(host, false, 4);
    IntegerEntries(host, false, 8);
    TablesAgree(host);
    MsgHeaderText(StaticTypemap(host));
  }

  /** The text of msg_header under any table with its three entries. */
  lemma MsgHeaderText(tm: map<CType, Atom>)
    requires UInt32 in tm && tm[UInt32] == Atom("uint32", 4) && UInt64 in tm && tm[UInt64] == Atom("uint64", 8)
    requires MsgHeader in tm && tm[MsgHeader].name == "msg_header"
    ensures DescribeText(tm, MsgHeader)
         == Ok("msg_header" + " { " + "type: uint32 4; " + "timestamp: uint64 8; " + "src_guid: uint64 8; " + "}")
  {
    JoinedMsgHeader(tm);
    DescribeTextCharacterised(tm, MsgHeader);
    var a, b, c := "type: uint32 4; ", "timestamp: uint64 8; ", "src_guid: uint64 8; ";
    assert "msg_header" + " { " + (a + b + c) + "}" == "msg_header" + " { " + a + b + c + "}";
  }
}
