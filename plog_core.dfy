/** The plog record definitions of polysync/plog/core.hpp: the type aliases,
    the member lists hana serialises, and sequence equality. */
module PlogCore {
  import opened Layout

  /** msg_type, guid and timestamp are aliases of the fixed-width integers,
      so each is the very type it names (one std::type_index). */
  const PlogMsgType := UInt32
  const PlogGuid := UInt64
  const Timestamp := UInt64

  /** Every member log_record declares, in declaration order. */
  const LogRecordDeclared: seq<string> := ["index", "size", "prev_size", "timestamp", "blob"]

  /** log_record as hana adapts it: the blob is not among the members, so
      neither the struct fold nor the writer ever sees it. */
  const PlogLogRecord := Struct("log_record", [
    Member("index", UInt32), Member("size", UInt32), Member("prev_size", UInt32), Member("timestamp", Timestamp)])

  /** std::equal over two ranges of the same length, from position i. */
  function EqualFrom<T(==)>(lhs: seq<T>, rhs: seq<T>, i: nat): bool
    requires |lhs| == |rhs| && i <= |lhs|
    decreases |lhs| - i
  {
    i == |lhs| || (lhs[i] == rhs[i] && EqualFrom(lhs, rhs, i + 1))
  }

  /** operator== on two sequences of the same type: a length check, then
      std::equal with hana::equal on the elements (the elements' own value
      equality). */
  function SequenceEquals<T(==)>(lhs: seq<T>, rhs: seq<T>): bool {
    if |lhs| != |rhs| then false else EqualFrom(lhs, rhs, 0)
  }
}

/** What sequence equality and the plog layouts guarantee. */
module PlogCoreLemmas {
  import opened Layout
  import opened LayoutLemmas
  import opened PlogCore

  lemma {:induction false} EqualFromElementwise<T>(lhs: seq<T>, rhs: seq<T>, i: nat)
    requires |lhs| == |rhs| && i <= |lhs|
    ensures EqualFrom(lhs, rhs, i) <==> forall j :: i <= j < |lhs| ==> lhs[j] == rhs[j]
    decreases |lhs| - i
  {
    if i < |lhs| {
      EqualFromElementwise(lhs, rhs, i + 1);
    }
  }

  /** Sequences of different lengths are never equal; sequences of the
      same length are equal exactly when they agree at every position; so
      operator== is value equality of the sequences. */
  lemma SequenceEqualsCharacterised<T>(lhs: seq<T>, rhs: seq<T>)
    ensures |lhs| != |rhs| ==> !SequenceEquals(lhs, rhs)
    ensures |lhs| == |rhs| ==> (SequenceEquals(lhs, rhs) <==> forall j :: 0 <= j < |lhs| ==> lhs[j] == rhs[j])
    ensures SequenceEquals(lhs, rhs) <==> lhs == rhs
  {
    if |lhs| == |rhs| {
      EqualFromElementwise(lhs, rhs, 0);
    }
  }

  /** The serialised members of the plog log_record are its declared
      members without the blob, in declaration order; they pack to 20 bytes. */
  lemma PlogLogRecordMembers(host: Host)
    ensures |PlogLogRecord.members| == |LogRecordDeclared| - 1
    ensures forall j :: 0 <= j < |PlogLogRecord.members| ==> PlogLogRecord.members[j].name == LogRecordDeclared[j]
    ensures LogRecordDeclared[|LogRecordDeclared| - 1] == "blob"
    ensures forall j :: 0 <= j < |PlogLogRecord.members| ==> PlogLogRecord.members[j].name != "blob"
    ensures Packed(PlogLogRecord, host) == 20
  {
    var ms := PlogLogRecord.members;
    PackedStruct("log_record", ms, host);
    MemberSumSnoc([], ms[0], host);
    MemberSumSnoc(ms[..1], ms[1], host);
    MemberSumSnoc(ms[..2], ms[2], host);
    MemberSumSnoc(ms[..3], ms[3], host);
    assert ms[..1] == [] + [ms[0]] && ms[..2] == ms[..1] + [ms[1]] && ms[..3] == ms[..2] + [ms[2]];
    assert ms == ms[..3] + [ms[3]];
  }
}
