/** The sequel detector of transcode/detector.cpp: detectors are loaded from
    TOML next to the type descriptions, and a decoded record's follow-on type
    is picked by comparing its fields with each detector's constants. Text to
    number conversion and the selection rule are functions; the detector
    catalog is an object whose Load and Detect methods are proved to compute
    them. */
module Detector {
  import opened Common
  import opened Descriptor
  import opened Values
  import T = Toml
  import PlogCatalog

  // ---------------------------------------------------------------------
  // std::stoul

  /** isspace in the "C" locale. */
  predicate IsSpace(c: char) {
    c == ' ' || c == '\t' || c == '\n' || c == '\r' || c as int == 11 || c as int == 12
  }

  /** The value of c as a digit of the base (up to 36), if it is one. */
  function DigitIn(c: char, base: nat): (r: Option<nat>)
    ensures r.Some? ==> r.value < base
  {
    var d :=
      if '0' <= c <= '9' then c as int - '0' as int
      else if 'a' <= c <= 'z' then c as int - 'a' as int + 10
      else if 'A' <= c <= 'Z' then c as int - 'A' as int + 10
      else 36;
    if d < base then Some(d) else None
  }

  /** The first position from k that is not white space. */
  function SkipSpace(s: string, k: nat): (e: nat)
    requires k <= |s|
    ensures k <= e <= |s| && (e < |s| ==> !IsSpace(s[e]))
    ensures forall j :: k <= j < e ==> IsSpace(s[j])
    decreases |s| - k
  {
    if k < |s| && IsSpace(s[k]) then SkipSpace(s, k + 1) else k
  }

  /** The end of the longest run of digits of the base from k. */
  function DigitsEnd(s: string, k: nat, base: nat): (e: nat)
    requires k <= |s|
    ensures k <= e <= |s| && (e < |s| ==> DigitIn(s[e], base).None?)
    ensures forall j :: k <= j < e ==> DigitIn(s[j], base).Some?
    decreases |s| - k
  {
    if k < |s| && DigitIn(s[k], base).Some? then DigitsEnd(s, k + 1, base) else k
  }

  /** The value of a run of digits, most significant first. */
  function DigitsValue(d: string, base: nat): nat
    requires forall j :: 0 <= j < |d| ==> DigitIn(d[j], base).Some?
  {
    if d == [] then 0
    else
      var prefix := d[..|d| - 1];
      assert forall j :: 0 <= j < |prefix| ==> prefix[j] == d[j];
      var high := DigitsValue(prefix, base);
      NatProduct(high, base);
      high * base + DigitIn(d[|d| - 1], base).value
  }

  lemma NatProduct(a: nat, b: nat)
    ensures a * b >= 0
  {
  }

  /** ULONG_MAX: unsigned long is 64 bits wide. */
  const ULongMax := 0xffff_ffff_ffff_ffff

  /** std::stoul(s, nullptr, base) for base 10 or 16: leading white space,
      an optional sign (a minus negates modulo 2^64), in base 16 an optional
      "0x" or "0X" before a hex digit, then the longest run of digits. No
      digit is std::invalid_argument; a magnitude beyond ULONG_MAX is
      std::out_of_range. */
  function Stoul(s: string, base: nat): (r: Result<nat>)
    requires base == 10 || base == 16
    ensures r.Ok? ==> r.value <= ULongMax
  {
    var i := SkipSpace(s, 0);
    var neg := i < |s| && s[i] == '-';
    var j := if i < |s| && (s[i] == '-' || s[i] == '+') then i + 1 else i;
    var k :=
      if base == 16 && j + 2 < |s| && s[j] == '0' && (s[j + 1] == 'x' || s[j + 1] == 'X') && DigitIn(s[j + 2], 16).Some?
      then j + 2 else j;
    var e := DigitsEnd(s, k, base);
    if e == k then Err(StdException("std::invalid_argument"))
    else
      var m := RunValue(s, k, e, base);
      if m > ULongMax then Err(StdException("std::out_of_range"))
      else Ok(if neg then Negate(m) else m)
  }

  /** The value of the digits s[k..e]. */
  function RunValue(s: string, k: nat, e: nat, base: nat): nat
    requires k <= e <= |s| && forall j :: k <= j < e ==> DigitIn(s[j], base).Some?
  {
    assert forall j :: 0 <= j < e - k ==> s[k..e][j] == s[k + j];
    DigitsValue(s[k..e], base)
  }

  /** Unsigned negation modulo 2^64. */
  function Negate(m: nat): (r: nat)
    ensures r <= ULongMax
  {
    (ULongMax + 1 - m) % (ULongMax + 1)
  }

  /** std::regex_match(value, std::regex("0x.+")): "0x" then at least one
      character, none of them a line terminator (ECMAScript "."). */
  predicate IsHexForm(s: string) {
    |s| >= 3 && s[0] == '0' && s[1] == 'x' && forall j :: 2 <= j < |s| ==> s[j] != '\n' && s[j] != '\r'
  }

  /** hex_stoul<T> for an unsigned T of the given width: base 16 for the
      hex form, base 10 otherwise, then narrowed by static_cast<T>. */
  function HexStoul(bytes: nat, s: string): (r: Result<nat>)
    ensures r.Ok? ==> r.value < Pow2(8 * bytes)
    ensures r.Ok? <==> Stoul(s, if IsHexForm(s) then 16 else 10).Ok?
  {
    var v :- Stoul(s, if IsHexForm(s) then 16 else 10);
    Ok(v % Pow2(8 * bytes))
  }

  /** The unsigned integer types the converter factory knows. */
  predicate HasIntConverter(t: Terminal) {
    t.Integral? && !t.signed && (t.bytes == 1 || t.bytes == 2 || t.bytes == 4 || t.bytes == 8)
  }

  /** convert: the text of a match value as the field's terminal type.
      typemap gives the name reported for a type without a converter. */
  function Convert(typemap: map<Terminal, string>, value: string, t: Terminal): (r: Result<Value>)
    ensures r.Ok? ==> HasIntConverter(t) || t == Real(4) || t == Real(8)
    ensures r.Ok? && HasIntConverter(t) ==>
      r.value.Int? && r.value.kind == IntType(false, t.bytes, false) && 0 <= r.value.v < Pow2(8 * t.bytes)
  {
    if HasIntConverter(t) then
      var v :- HexStoul(t.bytes, value);
      Ok(Int(IntType(false, t.bytes, false), v))
    else if t == Real(4) || t == Real(8) then Ok(RealText(t.bytes, value))
    else if t in typemap then Err(Failure("no string converter", None, ErrorContext(Some(typemap[t]), None, None)))
    else Err(StdException("std::out_of_range"))
  }

  // ---------------------------------------------------------------------
  // The match map: a std::map from field name to value

  /** std::less<std::string>: lexicographic by character code. */
  predicate Before(a: string, b: string)
    decreases |a|
  {
    if a == [] then b != []
    else b != [] && (a[0] < b[0] || (a[0] == b[0] && Before(a[1..], b[1..])))
  }

  lemma {:induction false} BeforeIrreflexive(a: string)
    ensures !Before(a, a)
    decreases |a|
  {
    if a != [] {
      BeforeIrreflexive(a[1..]);
    }
  }

  lemma {:induction false} BeforeTransitive(a: string, b: string, c: string)
    requires Before(a, b) && Before(b, c)
    ensures Before(a, c)
    decreases |a|
  {
    if a != [] && a[0] == b[0] && b[0] == c[0] {
      BeforeTransitive(a[1..], b[1..], c[1..]);
    }
  }

  lemma {:induction false} BeforeTotal(a: string, b: string)
    ensures a == b || Before(a, b) || Before(b, a)
    decreases |a|
  {
    if a != [] && b != [] && a[0] == b[0] {
      BeforeTotal(a[1..], b[1..]);
      if a[1..] == b[1..] {
        assert a == [a[0]] + a[1..] && b == [b[0]] + b[1..];
      }
    }
  }

  datatype MatchEntry = MatchEntry(field: string, value: Value)

  /** The map's iteration order: strictly increasing keys. */
  predicate Sorted(m: seq<MatchEntry>) {
    forall i, j :: 0 <= i < j < |m| ==> Before(m[i].field, m[j].field)
  }

  function Keys(m: seq<MatchEntry>): set<string> {
    set e | e in m :: e.field
  }

  /** std::map::emplace: a new key goes in at its place in key order; an
      existing key keeps its value. */
  function Emplace(m: seq<MatchEntry>, key: string, v: Value): (r: seq<MatchEntry>)
    requires Sorted(m)
    ensures Sorted(r)
    ensures key in Keys(m) ==> r == m
    ensures key !in Keys(m) ==> multiset(r) == multiset(m) + multiset{MatchEntry(key, v)}
    decreases |m|
  {
    if m == [] then [MatchEntry(key, v)]
    else if m[0].field == key then m
    else if Before(key, m[0].field) then
      EmplaceFront(m, MatchEntry(key, v));
      [MatchEntry(key, v)] + m
    else
      BeforeTotal(key, m[0].field);
      var rest := Emplace(m[1..], key, v);
      EmplaceBehind(m, MatchEntry(key, v), rest);
      [m[0]] + rest
  }

  /** A key before the first of a sorted map is absent from it and goes in front. */
  lemma EmplaceFront(m: seq<MatchEntry>, e: MatchEntry)
    requires Sorted(m) && m != [] && Before(e.field, m[0].field)
    ensures e.field !in Keys(m) && Sorted([e] + m)
  {
    HeadBeforeTail(m);
    forall x | x in m
      ensures Before(e.field, x.field) && x.field != e.field
    {
      if x != m[0] {
        assert x in m[1..];
        BeforeTransitive(e.field, m[0].field, x.field);
      }
      BeforeIrreflexive(e.field);
    }
    SortedCons(e, m);
  }

  /** A key after the first of a sorted map goes into the rest of it. */
  lemma EmplaceBehind(m: seq<MatchEntry>, e: MatchEntry, rest: seq<MatchEntry>)
    requires Sorted(m) && m != [] && Before(m[0].field, e.field) && Sorted(rest)
    requires e.field in Keys(m[1..]) ==> rest == m[1..]
    requires e.field !in Keys(m[1..]) ==> multiset(rest) == multiset(m[1..]) + multiset{e}
    ensures Sorted([m[0]] + rest)
    ensures e.field in Keys(m) ==> [m[0]] + rest == m
    ensures e.field !in Keys(m) ==> multiset([m[0]] + rest) == multiset(m) + multiset{e}
  {
    assert m == [m[0]] + m[1..];
    assert Keys(m) == {m[0].field} + Keys(m[1..]);
    BeforeIrreflexive(e.field);
    HeadBeforeTail(m);
    forall x | x in rest
      ensures Before(m[0].field, x.field)
    {
      assert x in multiset(rest);
      if x != e {
        assert x in multiset(m[1..]);
      }
    }
    SortedCons(m[0], rest);
  }

  lemma HeadBeforeTail(m: seq<MatchEntry>)
    requires Sorted(m) && m != []
    ensures forall e | e in m[1..] :: Before(m[0].field, e.field)
  {
    forall e | e in m[1..]
      ensures Before(m[0].field, e.field)
    {
      var l :| 0 <= l < |m[1..]| && m[1..][l] == e;
      assert m[l + 1] == e;
    }
  }

  /** An entry before every entry of a sorted map keeps it sorted in front. */
  lemma SortedCons(e: MatchEntry, m: seq<MatchEntry>)
    requires Sorted(m) && forall x | x in m :: Before(e.field, x.field)
    ensures Sorted([e] + m)
  {
    var r := [e] + m;
    forall i, j | 0 <= i < j < |r|
      ensures Before(r[i].field, r[j].field)
    {
      assert r[j] == m[j - 1];
      if i > 0 {
        assert r[i] == m[i - 1];
      }
    }
  }

  // ---------------------------------------------------------------------
  // Detectors and their loading

  /** detector::type: a record of type parent whose fields equal matching
      is followed by a record of type child. */
  datatype Detector = Detector(parent: string, matching: seq<MatchEntry>, child: string)

  /** The first field of a description with the given name. */
  function FindField(desc: seq<PlogCatalog.PField>, name: string): (r: Option<PlogCatalog.PField>)
    ensures r.Some? ==> r.value.name == name
    ensures r.Some? ==> exists i :: 0 <= i < |desc| && desc[i] == r.value && forall j :: 0 <= j < i ==> desc[j].name != name
    ensures r.None? ==> forall i :: 0 <= i < |desc| ==> desc[i].name != name
  {
    if desc == [] then None
    else if desc[0].name == name then Some(desc[0])
    else
      var r := FindField(desc[1..], name);
      if r.Some? then
        var i :| 0 <= i < |desc[1..]| && desc[1..][i] == r.value && forall j :: 0 <= j < i ==> desc[1..][j].name != name;
        assert desc[i + 1] == r.value && forall j :: 0 <= j < i + 1 ==> desc[j].name != name;
        r
      else r
  }

  /** The error for a match key that names no field of the parent: the
      reported type is the key. */
  function UnknownField(key: string): Error {
    Failure("unknown field", Some(DescriptionError), ErrorContext(Some(key), None, None))
  }

  /** The same error as the C++ builds it: the context it attaches reads the
      name of the field at desc.end(), a dereference of the end iterator. */
  function UnknownFieldAsWritten(key: string): Error {
    Undefined("unknown field: name of the field at desc.end()")
  }

  /** A match pair that names a terminal field of the parent and holds a string. */
  predicate TerminalPair(desc: seq<PlogCatalog.PField>, e: T.Entry) {
    FindField(desc, e.key).Some? && FindField(desc, e.key).value.kind.PTerminal? && e.value.TStr?
  }

  /** The match map of one detector branch, from pair i on. */
  function BranchMatch(typemap: map<Terminal, string>, desc: seq<PlogCatalog.PField>, pairs: seq<T.Entry>, i: nat, m: seq<MatchEntry>)
    : (r: Result<seq<MatchEntry>>)
    requires i <= |pairs| && Sorted(m)
    ensures r.Ok? ==> Sorted(r.value)
    ensures r.Ok? ==> forall j :: i <= j < |pairs| ==> TerminalPair(desc, pairs[j])
    decreases |pairs| - i
  {
    if i == |pairs| then Ok(m)
    else
      var key := pairs[i].key;
      match FindField(desc, key)
      case None => Err(UnknownField(key))
      case Some(f) =>
        if !f.kind.PTerminal? then
          Err(Failure("illegal branch on compound type", Some(DescriptionError), ErrorContext(Some(key), None, Some(f.name))))
        else if !pairs[i].value.TStr? then Err(Undefined("match value is not a string"))
        else
          var v :- Convert(typemap, pairs[i].value.s, f.kind.terminal);
          BranchMatch(typemap, desc, pairs, i + 1, Emplace(m, key, v))
  }

  /** The detectors a load leaves installed (those of earlier branches stay
      when a later one fails), and the error it throws, if any. */
  datatype Installed = Installed(detectors: seq<Detector>, error: Option<Error>)

  /** The loop over the branches of a "detector" table, from branch i on,
      appending one detector per branch. */
  function Branches(descriptions: PlogCatalog.Catalog, typemap: map<Terminal, string>, name: string,
                    branches: seq<T.Entry>, i: nat, acc: seq<Detector>): (r: Installed)
    requires i <= |branches|
    ensures acc <= r.detectors
    decreases |branches| - i
  {
    if i == |branches| then Installed(acc, None)
    else if !branches[i].value.TTable? then
      Installed(acc, Some(Failure("detector must be a TOML table", None, ErrorContext(Some(branches[i].key), None, None))))
    else if name !in descriptions then
      Installed(acc, Some(Failure("no type description", None, ErrorContext(Some(name), None, None))))
    else
      match BranchMatch(typemap, descriptions[name], branches[i].value.table.entries, 0, [])
      case Err(e) => Installed(acc, Some(e))
      case Ok(m) => Branches(descriptions, typemap, name, branches, i + 1, acc + [Detector(name, m, branches[i].key)])
  }

  /** detector::load(name, table): the detectors of a table are appended to
      those already installed. */
  function LoadSpec(descriptions: PlogCatalog.Catalog, typemap: map<Terminal, string>, acc: seq<Detector>, name: string, t: T.Table)
    : (r: Installed)
    ensures acc <= r.detectors
    decreases t, 1, 0
  {
    if !T.Contains(t, "description") then LoadNested(descriptions, typemap, acc, name, t, 0)
    else if !T.Contains(t, "detector") then Installed(acc, None)
    else
      var det := T.Get(t, "detector").value;
      if !det.TTable? then Installed(acc, Some(Fail("detector must be a table")))
      else Branches(descriptions, typemap, name, det.table.entries, 0, acc)
  }

  /** The recursion over the entries of a table without "description", from
      entry i on, each loaded as the table "name.key". */
  function LoadNested(descriptions: PlogCatalog.Catalog, typemap: map<Terminal, string>, acc: seq<Detector>, name: string, t: T.Table, i: nat)
    : (r: Installed)
    requires i <= |t.entries|
    ensures acc <= r.detectors
    decreases t, 0, |t.entries| - i
  {
    if i == |t.entries| then Installed(acc, None)
    else
      match t.entries[i].value
      case TTable(sub) =>
        var r := LoadSpec(descriptions, typemap, acc, name + "." + t.entries[i].key, sub);
        if r.error.Some? then r
        else
          var rest := LoadNested(descriptions, typemap, r.detectors, name, t, i + 1);
          assert acc <= r.detectors <= rest.detectors;
          rest
      case _ => Installed(acc, Some(Undefined("as_table of a value that is not a table")))
  }

  // ---------------------------------------------------------------------
  // Detection

  /** The loop over a detector's match map from entry i on: the names of the
      fields whose value differs, stopping at the first field the tree
      lacks. */
  function Mismatches(m: seq<MatchEntry>, tree: seq<Node>, i: nat, acc: seq<string>): seq<string>
    requires i <= |m|
    decreases |m| - i
  {
    if i == |m| then acc
    else
      match FindNode(tree, m[i].field)
      case None => acc
      case Some(n) => Mismatches(m, tree, i + 1, if n.value != m[i].value then acc + [m[i].field] else acc)
  }

  /** The mismatch loop as its log message ("not matched: ... missing
      field") intends it: a field the tree lacks counts as a mismatch and
      ends the loop. */
  function StrictMismatches(m: seq<MatchEntry>, tree: seq<Node>, i: nat, acc: seq<string>): seq<string>
    requires i <= |m|
    decreases |m| - i
  {
    if i == |m| then acc
    else
      match FindNode(tree, m[i].field)
      case None => acc + [m[i].field]
      case Some(n) => StrictMismatches(m, tree, i + 1, if n.value != m[i].value then acc + [m[i].field] else acc)
  }

  /** The loop over the detector catalog from detector i on, with the child
      detected so far (empty for none). */
  function DetectFrom(cat: seq<Detector>, i: nat, pname: string, tree: seq<Node>, tpname: string): Result<string>
    requires i <= |cat|
    decreases |cat| - i
  {
    if i == |cat| then Ok(if tpname == [] then "raw" else tpname)
    else if cat[i].parent != pname then DetectFrom(cat, i + 1, pname, tree, tpname)
    else
      var mismatch := Mismatches(cat[i].matching, tree, 0, []);
      if mismatch == [] && tpname != [] then Err(Fail("non-unique detectors: " + tpname + " and " + cat[i].child))
      else if mismatch == [] then DetectFrom(cat, i + 1, pname, tree, cat[i].child)
      else DetectFrom(cat, i + 1, pname, tree, tpname)
  }

  /** detect(parent): the type that follows a record. */
  function DetectSpec(cat: seq<Detector>, parent: Node): Result<string> {
    match parent.value
    case Branch(tree) =>
      if tree.nodes == [] then Err(Fail("parent tree is empty"))
      else DetectFrom(cat, 0, parent.name, tree.nodes, "")
    case _ => Err(Undefined("parent node does not hold a tree"))
  }

  /** detector::catalog, with the loader appending to it and detect reading
      it. The description catalog and the type names are given at
      construction. */
  class DetectorCatalog {
    /** plog::descriptor::catalog, read by load */
    const descriptions: PlogCatalog.Catalog
    /** descriptor::typemap's type names, used in convert's error */
    const typemap: map<Terminal, string>
    /** the installed detectors, in installation order */
    var detectors: seq<Detector>

    constructor(descriptions: PlogCatalog.Catalog, typemap: map<Terminal, string>)
      ensures this.descriptions == descriptions && this.typemap == typemap && detectors == []
    {
      this.descriptions := descriptions;
      this.typemap := typemap;
      detectors := [];
    }

    /** The inner loop of load over one branch's (field, value) pairs. */
    method MatchOf(desc: seq<PlogCatalog.PField>, pairs: seq<T.Entry>) returns (r: Result<seq<MatchEntry>>)
      ensures r == BranchMatch(typemap, desc, pairs, 0, [])
    {
      var m: seq<MatchEntry> := [];
      for i := 0 to |pairs|
        invariant Sorted(m)
        invariant BranchMatch(typemap, desc, pairs, 0, []) == BranchMatch(typemap, desc, pairs, i, m)
      {
        var key := pairs[i].key;
        var it := FindField(desc, key);
        if it.None? {
          return Err(UnknownField(key));
        }
        if !it.value.kind.PTerminal? {
          return Err(Failure("illegal branch on compound type", Some(DescriptionError), ErrorContext(Some(key), None, Some(it.value.name))));
        }
        if !pairs[i].value.TStr? {
          return Err(Undefined("match value is not a string"));
        }
        var v :- Convert(typemap, pairs[i].value.s, it.value.kind.terminal);
        m := Emplace(m, key, v);
      }
      return Ok(m);
    }

    /** detector::load. */
    method Load(name: string, t: T.Table) returns (err: Option<Error>)
      modifies this
      ensures Installed(detectors, err) == LoadSpec(descriptions, typemap, old(detectors), name, t)
      decreases t
    {
      if !T.Contains(t, "description") {
        for i := 0 to |t.entries|
          invariant LoadNested(descriptions, typemap, old(detectors), name, t, 0)
                 == LoadNested(descriptions, typemap, detectors, name, t, i)
        {
          match t.entries[i].value
          case TTable(sub) =>
            err := Load(name + "." + t.entries[i].key, sub);
            if err.Some? {
              return;
            }
          case _ =>
            return Some(Undefined("as_table of a value that is not a table"));
        }
        return None;
      }
      if !T.Contains(t, "detector") {
        return None;
      }
      var det := T.Get(t, "detector").value;
      if !det.TTable? {
        return Some(Fail("detector must be a table"));
      }
      var branches := det.table.entries;
      for i := 0 to |branches|
        invariant Branches(descriptions, typemap, name, branches, 0, old(detectors))
               == Branches(descriptions, typemap, name, branches, i, detectors)
      {
        if !branches[i].value.TTable? {
          return Some(Failure("detector must be a TOML table", None, ErrorContext(Some(branches[i].key), None, None)));
        }
        if name !in descriptions {
          return Some(Failure("no type description", None, ErrorContext(Some(name), None, None)));
        }
        var m := MatchOf(descriptions[name], branches[i].value.table.entries);
        if m.Err? {
          return Some(m.error);
        }
        detectors := detectors + [Detector(name, m.value, branches[i].key)];
      }
      return None;
    }

    /** detect: every detector of the parent's type is tried in turn. */
    method Detect(parent: Node) returns (r: Result<string>)
      ensures r == DetectSpec(detectors, parent)
    {
      if !parent.value.Branch? {
        return Err(Undefined("parent node does not hold a tree"));
      }
      var tree := parent.value.tree.nodes;
      if tree == [] {
        return Err(Fail("parent tree is empty"));
      }
      var tpname := "";
      for d := 0 to |detectors|
        invariant DetectFrom(detectors, 0, parent.name, tree, "") == DetectFrom(detectors, d, parent.name, tree, tpname)
      {
        var det := detectors[d];
        if det.parent != parent.name {
          continue;
        }
        var mismatch: seq<string> := [];
        var j := 0;
        while j < |det.matching|
          invariant j <= |det.matching|
          invariant Mismatches(det.matching, tree, 0, []) == Mismatches(det.matching, tree, j, mismatch)
        {
          var it := FindNode(tree, det.matching[j].field);
          if it.None? {
            break;
          }
          if it.value.value != det.matching[j].value {
            mismatch := mismatch + [det.matching[j].field];
          }
          j := j + 1;
        }
        if mismatch == [] && tpname != "" {
          return Err(Fail("non-unique detectors: " + tpname + " and " + det.child));
        }
        if mismatch == [] {
          tpname := det.child;
          continue;
        }
      }
      if tpname == "" {
        return Ok("raw");
      }
      return Ok(tpname);
    }
  }
}
