/** What the folds of polysync/transcode/core.hpp compute, as lemmas about
    the functions of module Layout. */
module LayoutLemmas {
  import opened Common
  import opened Layout

  // ---------------------------------------------------------------------
  // Packed sizes

  lemma {:induction false} PackedFoldSum(t: CType, host: Host, i: nat, s: nat)
    requires t.Struct? && i <= |t.members|
    ensures PackedFold(t, host, i, s) == s + MemberSum(t.members[i..], host)
    decreases |t.members| - i
  {
    if i < |t.members| {
      PackedFoldSum(t, host, i + 1, s + Packed(t.members[i].mtype, host));
      assert t.members[i..][1..] == t.members[i + 1..];
    }
  }

  /** A struct packs to the sum of its members' packed sizes: no padding is
      counted, whatever the host's alignment. */
  lemma PackedStruct(name: string, ms: seq<Member>, host: Host)
    ensures Packed(Struct(name, ms), host) == MemberSum(ms, host)
  {
    PackedFoldSum(Struct(name, ms), host, 0, 0);
    assert ms[0..] == ms;
  }

  lemma {:induction false} MemberSumAppend(a: seq<Member>, b: seq<Member>, host: Host)
    ensures MemberSum(a + b, host) == MemberSum(a, host) + MemberSum(b, host)
  {
    if a == [] {
      assert a + b == b;
    } else {
      assert (a + b)[1..] == a[1..] + b;
      MemberSumAppend(a[1..], b, host);
    }
  }

  /** The sum over a list, one member at a time from the end. */
  lemma {:induction false} MemberSumSnoc(ms: seq<Member>, m: Member, host: Host)
    ensures MemberSum(ms + [m], host) == MemberSum(ms, host) + Packed(m.mtype, host)
  {
    MemberSumAppend(ms, [m], host);
    assert [m][1..] == [];
  }

  /** msg_header packs to 4 + 8 + 8 bytes on every host. */
  lemma MsgHeaderPacked(host: Host)
    ensures Packed(MsgHeader, host) == 20
  {
    var ms := MsgHeader.members;
    PackedStruct("msg_header", ms, host);
    MemberSumSnoc([], ms[0], host);
    MemberSumSnoc([ms[0]], ms[1], host);
    MemberSumSnoc([ms[0], ms[1]], ms[2], host);
    assert [ms[0], ms[1]] + [ms[2]] == ms;
  }

  /** log_record packs to 4 + 4 + 4 + 8 bytes plus its embedded msg_header,
      40 in all, on every host. */
  lemma LogRecordPacked(host: Host)
    ensures Packed(LogRecord, host) == 40
  {
    var ms := LogRecord.members;
    PackedStruct("log_record", ms, host);
    MsgHeaderPacked(host);
    MemberSumSnoc([], ms[0], host);
    MemberSumSnoc(ms[..1], ms[1], host);
    MemberSumSnoc(ms[..2], ms[2], host);
    MemberSumSnoc(ms[..3], ms[3], host);
    MemberSumSnoc(ms[..4], ms[4], host);
    assert ms[..1] == [] + [ms[0]] && ms[..2] == ms[..1] + [ms[1]] && ms[..3] == ms[..2] + [ms[2]];
    assert ms[..4] == ms[..3] + [ms[3]] && ms == ms[..4] + [ms[4]];
  }

  lemma LogHeaderNumbers(host: Host)
    ensures MemberSum(LogHeader.members[..5], host) == 16
  {
    var ms := LogHeader.members;
    MemberSumSnoc([], ms[0], host);
    MemberSumSnoc(ms[..1], ms[1], host);
    MemberSumSnoc(ms[..2], ms[2], host);
    MemberSumSnoc(ms[..3], ms[3], host);
    MemberSumSnoc(ms[..4], ms[4], host);
    assert ms[..1] == [] + [ms[0]] && ms[..2] == ms[..1] + [ms[1]] && ms[..3] == ms[..2] + [ms[2]];
    assert ms[..4] == ms[..3] + [ms[3]] && ms[..5] == ms[..4] + [ms[4]];
  }

  /** log_header packs to its 16 bytes of numbers plus the sizeof of its two
      sequences, which the host decides. */
  lemma LogHeaderPacked(host: Host)
    ensures Packed(LogHeader, host) == 16 + 2 * host.vectorSize
  {
    var ms := LogHeader.members;
    assert ms[5].mtype == Seq(4, LogModule) && LogModule != UInt8;
    assert ms[6].mtype == Seq(4, TypeSupport) && TypeSupport != UInt8;
    PackedStruct("log_header", ms, host);
    LogHeaderNumbers(host);
    MemberSumSnoc(ms[..5], ms[5], host);
    MemberSumSnoc(ms[..6], ms[6], host);
    assert ms[..6] == ms[..5] + [ms[5]] && ms == ms[..6] + [ms[6]];
  }

  // ---------------------------------------------------------------------
  // describe<Struct>()

  lemma {:induction false} DescribeFoldFields(typemap: map<CType, Atom>, ms: seq<Member>, i: nat, desc: seq<FieldDescriptor>)
    requires i <= |ms| && |desc| == i
    requires forall j :: 0 <= j < i ==> ms[j].mtype in typemap && desc[j] == FieldDescriptor(ms[j].name, typemap[ms[j].mtype].name)
    ensures var r := DescribeFold(typemap, ms, i, desc);
      (r.Ok? <==> forall j :: i <= j < |ms| ==> ms[j].mtype in typemap)
      && (r.Ok? ==> forall j :: 0 <= j < |ms| ==> ms[j].mtype in typemap && r.value[j] == FieldDescriptor(ms[j].name, typemap[ms[j].mtype].name))
    decreases |ms| - i
  {
    if i < |ms| && ms[i].mtype in typemap {
      DescribeFoldFields(typemap, ms, i + 1, desc + [FieldDescriptor(ms[i].name, typemap[ms[i].mtype].name)]);
    }
  }

  /** describe succeeds exactly when every member's type is in the type
      map, and then yields one descriptor per member, in member order, named
      by the member and typed by the map's name for its type. */
  lemma DescribeFields(typemap: map<CType, Atom>, ms: seq<Member>)
    ensures var r := Describe(typemap, ms);
      (r.Ok? <==> forall j :: 0 <= j < |ms| ==> ms[j].mtype in typemap)
      && (r.Ok? ==> |r.value| == |ms| && forall j :: 0 <= j < |ms| ==> r.value[j] == FieldDescriptor(ms[j].name, typemap[ms[j].mtype].name))
  {
    DescribeFoldFields(typemap, ms, 0, []);
  }

  lemma {:induction false} DescribeFoldMissing(typemap: map<CType, Atom>, ms: seq<Member>, i: nat, desc: seq<FieldDescriptor>, j: nat)
    requires i <= j < |ms| && ms[j].mtype !in typemap
    requires forall k :: i <= k < j ==> ms[k].mtype in typemap
    ensures DescribeFold(typemap, ms, i, desc) == Err(StdException("missing typemap for " + ms[j].name))
    decreases |ms| - i
  {
    if i < j {
      DescribeFoldMissing(typemap, ms, i + 1, desc + [FieldDescriptor(ms[i].name, typemap[ms[i].mtype].name)], j);
    }
  }

  /** The first member whose type is not in the map makes describe throw
      "missing typemap for" that member's name. */
  lemma DescribeMissing(typemap: map<CType, Atom>, ms: seq<Member>, j: nat)
    requires j < |ms| && ms[j].mtype !in typemap
    requires forall k :: 0 <= k < j ==> ms[k].mtype in typemap
    ensures Describe(typemap, ms) == Err(StdException("missing typemap for " + ms[j].name))
  {
    DescribeFoldMissing(typemap, ms, 0, [], j);
  }
}
