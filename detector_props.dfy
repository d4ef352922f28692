/** What the detector of transcode/detector.cpp guarantees, as lemmas about
    the functions of module Detector. */
module DetectorLemmas {
  import opened Common
  import opened Descriptor
  import opened Values
  import T = Toml
  import PlogCatalog
  import PlogCatalogLemmas
  import opened Detector

  // ---------------------------------------------------------------------
  // Text to number

  lemma DecimalDigit(c: char)
    requires IsDigit(c)
    ensures DigitIn(c, 10) == Some(DigitValue(c))
  {
  }

  /** In base 10, DigitsValue reads decimal text as DecimalValue does. */
  lemma {:induction false} DigitsValueDecimal(s: string)
    requires forall j :: 0 <= j < |s| ==> IsDigit(s[j])
    ensures forall j :: 0 <= j < |s| ==> DigitIn(s[j], 10).Some?
    ensures DigitsValue(s, 10) == DecimalValue(s)
    decreases |s|
  {
    forall j | 0 <= j < |s|
      ensures DigitIn(s[j], 10).Some?
    {
      DecimalDigit(s[j]);
    }
    if s != [] {
      DigitsValueDecimal(s[..|s| - 1]);
      DecimalDigit(s[|s| - 1]);
    }
  }

  /** The decimal text of any unsigned long reads back as that number,
      narrowed to the target width. */
  lemma DecimalRoundTrip(bytes: nat, n: nat)
    requires n <= ULongMax
    ensures HexStoul(bytes, NatToString(n)) == Ok(n % Pow2(8 * bytes))
  {
    var s := NatToString(n);
    assert !IsHexForm(s);
    DigitsValueDecimal(s);
    NatToStringRoundTrip(n);
    assert SkipSpace(s, 0) == 0 by {
      if |s| > 0 {
        assert IsDigit(s[0]);
      }
    }
    assert DigitsEnd(s, 0, 10) == |s|;
    assert s[0..|s|] == s;
  }

  /** A decimal number beyond ULONG_MAX is out of range. */
  lemma DecimalOutOfRange(bytes: nat, n: nat)
    requires n > ULongMax
    ensures HexStoul(bytes, NatToString(n)) == Err(StdException("std::out_of_range"))
  {
    var s := NatToString(n);
    assert !IsHexForm(s);
    DigitsValueDecimal(s);
    NatToStringRoundTrip(n);
    assert SkipSpace(s, 0) == 0 by {
      assert IsDigit(s[0]);
    }
    assert DigitsEnd(s, 0, 10) == |s|;
    assert s[0..|s|] == s;
  }

  function HexDigitChar(d: nat): (c: char)
    requires d < 16
    ensures DigitIn(c, 16) == Some(d)
  {
    if d < 10 then ('0' as int + d) as char else ('a' as int + d - 10) as char
  }

  /** The shortest lower-case hex text of n. */
  function HexText(n: nat): (s: string)
    ensures |s| > 0 && forall j :: 0 <= j < |s| ==> DigitIn(s[j], 16).Some?
  {
    if n < 16 then [HexDigitChar(n)] else HexText(n / 16) + [HexDigitChar(n % 16)]
  }

  lemma {:induction false} HexTextValue(n: nat)
    ensures DigitsValue(HexText(n), 16) == n
  {
    if n >= 16 {
      var s := HexText(n);
      assert s[..|s| - 1] == HexText(n / 16);
      HexTextValue(n / 16);
    }
  }

  lemma HexFormOfDigits(h: string)
    requires |h| > 0 && forall j :: 0 <= j < |h| ==> DigitIn(h[j], 16).Some?
    ensures IsHexForm("0x" + h)
  {
    var s := "0x" + h;
    forall j | 2 <= j < |s|
      ensures s[j] != '\n' && s[j] != '\r'
    {
      assert s[j] == h[j - 2];
    }
  }

  /** Stoul in base 16 of "0x" then hex digits reads the digits. */
  lemma StoulHex(h: string)
    requires |h| > 0 && forall j :: 0 <= j < |h| ==> DigitIn(h[j], 16).Some?
    ensures DigitsValue(h, 16) <= ULongMax ==> Stoul("0x" + h, 16) == Ok(DigitsValue(h, 16))
  {
    var s := "0x" + h;
    assert s[0] == '0' && s[1] == 'x' && s[2] == h[0];
    assert SkipSpace(s, 0) == 0;
    forall j | 2 <= j < |s|
      ensures DigitIn(s[j], 16).Some?
    {
      assert s[j] == h[j - 2];
    }
    assert DigitsEnd(s, 2, 16) == |s|;
    assert s[2..|s|] == h;
  }

  /** "0x" then the hex digits of any unsigned long reads back as that
      number, narrowed to the target width. */
  lemma HexRoundTrip(bytes: nat, n: nat)
    requires n <= ULongMax
    ensures HexStoul(bytes, "0x" + HexText(n)) == Ok(n % Pow2(8 * bytes))
  {
    var h := HexText(n);
    HexFormOfDigits(h);
    HexTextValue(n);
    StoulHex(h);
  }

  /** "0x" alone does not match the hex pattern; read as decimal it is 0. */
  lemma BareHexPrefix(bytes: nat)
    ensures HexStoul(bytes, "0x") == Ok(0)
  {
    var s := "0x";
    assert !IsHexForm(s);
    assert SkipSpace(s, 0) == 0;
    assert DigitsEnd(s, 1, 10) == 1;
    assert DigitsEnd(s, 0, 10) == 1;
    assert s[0..1] == "0";
    assert DigitsValue("0", 10) == 0 by {
      assert "0"[..0] == [];
    }
  }

  /** A minus sign negates modulo 2^64 before narrowing. */
  lemma NegativeWraps()
    ensures HexStoul(1, "-1") == Ok(255)
  {
    var s := "-1";
    assert SkipSpace(s, 0) == 0;
    assert DigitsEnd(s, 2, 10) == 2;
    assert DigitsEnd(s, 1, 10) == 2;
    assert s[1..2] == "1";
    assert DigitsValue("1", 10) == 1 by {
      assert "1"[..0] == [];
    }
    assert Pow2(8) == 256;
  }

  /** Text with no digit where one is needed is std::invalid_argument. */
  lemma NoDigits(bytes: nat)
    ensures HexStoul(bytes, "") == Err(StdException("std::invalid_argument"))
    ensures HexStoul(bytes, "x") == Err(StdException("std::invalid_argument"))
  {
    assert SkipSpace("x", 0) == 0;
    assert DigitsEnd("x", 0, 10) == 0;
  }

  /** Only uint8/16/32/64, float and double have converters; any other
      terminal type fails with its type name. */
  lemma NoStringConverter(typemap: map<Terminal, string>, value: string, t: Terminal)
    requires !HasIntConverter(t) && t != Real(4) && t != Real(8)
    ensures t in typemap ==>
      Convert(typemap, value, t) == Err(Failure("no string converter", None, ErrorContext(Some(typemap[t]), None, None)))
    ensures t !in typemap ==> Convert(typemap, value, t).Err?
  {
  }

  // ---------------------------------------------------------------------
  // Match maps

  lemma KeysEmplace(m: seq<MatchEntry>, key: string, v: Value)
    requires Sorted(m)
    ensures Keys(Emplace(m, key, v)) == Keys(m) + {key}
  {
    var r := Emplace(m, key, v);
    if key !in Keys(m) {
      forall e
        ensures e in r <==> e in m || e == MatchEntry(key, v)
      {
        assert e in r <==> e in multiset(r);
        assert e in m <==> e in multiset(m);
      }
    }
  }

  /** The keys of a branch's match map are exactly its pairs' keys. */
  lemma {:induction false} MatchKeys(typemap: map<Terminal, string>, desc: seq<PlogCatalog.PField>, pairs: seq<T.Entry>, i: nat, m: seq<MatchEntry>)
    requires i <= |pairs| && Sorted(m)
    ensures var r := BranchMatch(typemap, desc, pairs, i, m);
      r.Ok? ==> Keys(r.value) == Keys(m) + PairKeys(pairs, i)
    decreases |pairs| - i
  {
    var r := BranchMatch(typemap, desc, pairs, i, m);
    if r.Ok? && i < |pairs| {
      var key := pairs[i].key;
      var f := FindField(desc, key).value;
      var v := Convert(typemap, pairs[i].value.s, f.kind.terminal).value;
      var m' := Emplace(m, key, v);
      assert r == BranchMatch(typemap, desc, pairs, i + 1, m');
      KeysEmplace(m, key, v);
      MatchKeys(typemap, desc, pairs, i + 1, m');
    }
  }

  /** The value a pair of a loaded branch converts to: convert of its text
      for the type of the field it names. */
  function PairValue(typemap: map<Terminal, string>, desc: seq<PlogCatalog.PField>, e: T.Entry): Result<Value>
    requires TerminalPair(desc, e)
  {
    Convert(typemap, e.value.s, FindField(desc, e.key).value.kind.terminal)
  }

  /** Pair j is the first pair from i on with key k. */
  predicate FirstPair(pairs: seq<T.Entry>, i: nat, j: nat, k: string) {
    i <= j < |pairs| && pairs[j].key == k && forall l :: i <= l < j ==> pairs[l].key != k
  }

  /** One step of a successful branch load: pair i converts, and the rest
      of the pairs load into the map with its value emplaced. */
  lemma BranchStep(typemap: map<Terminal, string>, desc: seq<PlogCatalog.PField>, pairs: seq<T.Entry>, i: nat, m: seq<MatchEntry>)
    requires i < |pairs| && Sorted(m)
    requires BranchMatch(typemap, desc, pairs, i, m).Ok?
    ensures TerminalPair(desc, pairs[i]) && PairValue(typemap, desc, pairs[i]).Ok?
    ensures BranchMatch(typemap, desc, pairs, i + 1, Emplace(m, pairs[i].key, PairValue(typemap, desc, pairs[i]).value))
         == BranchMatch(typemap, desc, pairs, i, m)
  {
  }

  /** Every pair of a successfully loaded branch converts. */
  lemma {:induction false} PairsConvert(typemap: map<Terminal, string>, desc: seq<PlogCatalog.PField>, pairs: seq<T.Entry>, i: nat,
                                        m: seq<MatchEntry>)
    requires i <= |pairs| && Sorted(m)
    requires BranchMatch(typemap, desc, pairs, i, m).Ok?
    ensures forall j :: i <= j < |pairs| ==> TerminalPair(desc, pairs[j]) && PairValue(typemap, desc, pairs[j]).Ok?
    decreases |pairs| - i
  {
    if i < |pairs| {
      BranchStep(typemap, desc, pairs, i, m);
      var m' := Emplace(m, pairs[i].key, PairValue(typemap, desc, pairs[i]).value);
      PairsConvert(typemap, desc, pairs, i + 1, m');
      forall j | i <= j < |pairs|
        ensures TerminalPair(desc, pairs[j]) && PairValue(typemap, desc, pairs[j]).Ok?
      {
        if j > i {
          assert i + 1 <= j < |pairs|;
        }
      }
    }
  }

  /** An entry of the map after an emplace was there before or is the new one. */
  lemma EmplaceEntries(m: seq<MatchEntry>, key: string, v: Value)
    requires Sorted(m)
    ensures forall e :: e in Emplace(m, key, v) ==> e in m || e == MatchEntry(key, v)
    ensures key !in Keys(m) ==> MatchEntry(key, v) in Emplace(m, key, v)
  {
    var r := Emplace(m, key, v);
    forall e | e in r
      ensures e in m || e == MatchEntry(key, v)
    {
      assert e in multiset(r);
    }
    if key !in Keys(m) {
      assert MatchEntry(key, v) in multiset(r);
    }
  }

  /** A key the map already held keeps its entry through the rest of the
      branch. */
  lemma {:induction false} MatchKeeps(typemap: map<Terminal, string>, desc: seq<PlogCatalog.PField>, pairs: seq<T.Entry>, i: nat,
                                      m: seq<MatchEntry>, k: string)
    requires i <= |pairs| && Sorted(m) && k in Keys(m)
    requires BranchMatch(typemap, desc, pairs, i, m).Ok?
    ensures forall e :: e in BranchMatch(typemap, desc, pairs, i, m).value && e.field == k ==> e in m
    decreases |pairs| - i
  {
    if i < |pairs| {
      BranchStep(typemap, desc, pairs, i, m);
      var key, v := pairs[i].key, PairValue(typemap, desc, pairs[i]).value;
      EmplaceEntries(m, key, v);
      KeysEmplace(m, key, v);
      MatchKeeps(typemap, desc, pairs, i + 1, Emplace(m, key, v), k);
      if key in Keys(m) {
        assert Emplace(m, key, v) == m;
      }
    }
  }

  /** The values of a branch's match map: a key new to the map holds the
      value its first pair converts to (std::map::emplace ignores the later
      ones), and a key it already held keeps its entry (MatchKeeps). */
  lemma {:induction false} MatchValues(typemap: map<Terminal, string>, desc: seq<PlogCatalog.PField>, pairs: seq<T.Entry>, i: nat,
                                       m: seq<MatchEntry>, k: string, j: nat)
    requires i <= |pairs| && Sorted(m)
    requires BranchMatch(typemap, desc, pairs, i, m).Ok?
    requires FirstPair(pairs, i, j, k) && k !in Keys(m)
    ensures TerminalPair(desc, pairs[j]) && PairValue(typemap, desc, pairs[j]).Ok?
    ensures forall e :: e in BranchMatch(typemap, desc, pairs, i, m).value && e.field == k ==>
      e.value == PairValue(typemap, desc, pairs[j]).value
    decreases |pairs| - i
  {
    PairsConvert(typemap, desc, pairs, i, m);
    BranchStep(typemap, desc, pairs, i, m);
    var v := PairValue(typemap, desc, pairs[i]).value;
    if j == i {
      FirstPairValue(typemap, desc, pairs, i, m, v);
    } else {
      KeysEmplace(m, pairs[i].key, v);
      assert FirstPair(pairs, i + 1, j, k);
      MatchValues(typemap, desc, pairs, i + 1, Emplace(m, pairs[i].key, v), k, j);
    }
  }

  /** The first pair of a key new to the map puts its converted value in. */
  lemma FirstPairValue(typemap: map<Terminal, string>, desc: seq<PlogCatalog.PField>, pairs: seq<T.Entry>, i: nat,
                       m: seq<MatchEntry>, v: Value)
    requires i < |pairs| && Sorted(m) && pairs[i].key !in Keys(m)
    requires BranchMatch(typemap, desc, pairs, i + 1, Emplace(m, pairs[i].key, v)).Ok?
    ensures forall e :: e in BranchMatch(typemap, desc, pairs, i + 1, Emplace(m, pairs[i].key, v)).value && e.field == pairs[i].key ==>
      e.value == v
  {
    var k := pairs[i].key;
    var m' := Emplace(m, k, v);
    EmplaceEntries(m, k, v);
    KeysEmplace(m, k, v);
    MatchKeeps(typemap, desc, pairs, i + 1, m', k);
  }

  /** A sorted match map holds one entry per key. */
  lemma SortedKeyUnique(m: seq<MatchEntry>, e: MatchEntry, x: MatchEntry)
    requires Sorted(m) && e in m && x in m && e.field == x.field
    ensures e == x
  {
    var a :| 0 <= a < |m| && m[a] == e;
    var b :| 0 <= b < |m| && m[b] == x;
    BeforeIrreflexive(e.field);
  }

  /** The keys of the pairs from i on. */
  function PairKeys(pairs: seq<T.Entry>, i: nat): (r: set<string>)
    requires i <= |pairs|
    ensures forall j :: i <= j < |pairs| ==> pairs[j].key in r
    ensures forall k :: k in r ==> exists j :: i <= j < |pairs| && pairs[j].key == k
    decreases |pairs| - i
  {
    if i == |pairs| then {} else {pairs[i].key} + PairKeys(pairs, i + 1)
  }

  /** A key naming no field of the parent is an "unknown field" error with
      the description-error status; the C++ instead dereferences the end
      iterator while building that error. */
  lemma UnknownFieldDiscrepancy(typemap: map<Terminal, string>, desc: seq<PlogCatalog.PField>, key: string, value: string)
    requires FindField(desc, key).None?
    ensures BranchMatch(typemap, desc, [T.Entry(key, T.TStr(value))], 0, []) == Err(UnknownField(key))
    ensures UnknownField(key).Failure? && UnknownField(key).status == Some(DescriptionError)
    ensures UnknownFieldAsWritten(key).Undefined?
  {
  }

  /** A key naming a field that is not terminal is rejected. */
  lemma CompoundBranch(typemap: map<Terminal, string>, desc: seq<PlogCatalog.PField>, key: string, value: T.Value)
    requires FindField(desc, key).Some? && !FindField(desc, key).value.kind.PTerminal?
    ensures BranchMatch(typemap, desc, [T.Entry(key, value)], 0, [])
         == Err(Failure("illegal branch on compound type", Some(DescriptionError), ErrorContext(Some(key), None, Some(key))))
  {
  }

  // ---------------------------------------------------------------------
  // Loading

  /** A described table without "detector" installs nothing. */
  lemma NoDetectorKey(descriptions: PlogCatalog.Catalog, typemap: map<Terminal, string>, acc: seq<Detector>, name: string, t: T.Table)
    requires T.Contains(t, "description") && !T.Contains(t, "detector")
    ensures LoadSpec(descriptions, typemap, acc, name, t) == Installed(acc, None)
  {
  }

  /** Detector d is what branch b of the table name makes: parent the
      table's name, child the branch's key, the branch's match map. */
  predicate MadeFrom(descriptions: PlogCatalog.Catalog, typemap: map<Terminal, string>, name: string, b: T.Entry, d: Detector) {
    b.value.TTable? && name in descriptions && d.parent == name && d.child == b.key
    && BranchMatch(typemap, descriptions[name], b.value.table.entries, 0, []) == Ok(d.matching)
  }

  /** Each branch of a "detector" table appends exactly one detector, in
      table order. */
  lemma {:induction false} OneDetectorPerBranch(descriptions: PlogCatalog.Catalog, typemap: map<Terminal, string>, name: string,
                                                branches: seq<T.Entry>, i: nat, acc: seq<Detector>)
    requires i <= |branches|
    ensures var r := Branches(descriptions, typemap, name, branches, i, acc);
      r.error.None? ==>
        |r.detectors| == |acc| + |branches| - i
        && forall j :: i <= j < |branches| ==> MadeFrom(descriptions, typemap, name, branches[j], r.detectors[|acc| + j - i])
    decreases |branches| - i
  {
    var r := Branches(descriptions, typemap, name, branches, i, acc);
    if r.error.None? && i < |branches| {
      var m := BranchMatch(typemap, descriptions[name], branches[i].value.table.entries, 0, []).value;
      var acc' := acc + [Detector(name, m, branches[i].key)];
      assert r == Branches(descriptions, typemap, name, branches, i + 1, acc');
      OneDetectorPerBranch(descriptions, typemap, name, branches, i + 1, acc');
      forall j | i <= j < |branches|
        ensures MadeFrom(descriptions, typemap, name, branches[j], r.detectors[|acc| + j - i])
      {
        if j == i {
          assert r.detectors[|acc|] == acc'[|acc|];
        } else {
          assert |acc| + j - i == |acc'| + j - (i + 1);
          assert i + 1 <= j < |branches|;
        }
      }
    }
  }

  /** A branch loaded for a type without a description fails. */
  lemma NoTypeDescription(descriptions: PlogCatalog.Catalog, typemap: map<Terminal, string>, name: string,
                          branches: seq<T.Entry>, acc: seq<Detector>)
    requires |branches| > 0 && branches[0].value.TTable? && name !in descriptions
    ensures Branches(descriptions, typemap, name, branches, 0, acc)
         == Installed(acc, Some(Failure("no type description", None, ErrorContext(Some(name), None, None))))
  {
  }

  /** Every detector a load installs has the table's own name or a name
      below it ("name.key", ...) as parent. */
  lemma {:induction false} LoadParents(descriptions: PlogCatalog.Catalog, typemap: map<Terminal, string>, acc: seq<Detector>, name: string, t: T.Table)
    ensures var r := LoadSpec(descriptions, typemap, acc, name, t);
      forall k :: |acc| <= k < |r.detectors| ==> r.detectors[k].parent == name || PlogCatalogLemmas.Under(name, r.detectors[k].parent)
    decreases t, 1, 0
  {
    if !T.Contains(t, "description") {
      assert LoadSpec(descriptions, typemap, acc, name, t) == LoadNested(descriptions, typemap, acc, name, t, 0);
      NestedParents(descriptions, typemap, acc, name, t, 0);
    } else if T.Contains(t, "detector") && T.Get(t, "detector").value.TTable? {
      var branches := T.Get(t, "detector").value.table.entries;
      assert LoadSpec(descriptions, typemap, acc, name, t) == Branches(descriptions, typemap, name, branches, 0, acc);
      BranchesParents(descriptions, typemap, name, branches, 0, acc);
      var r := Branches(descriptions, typemap, name, branches, 0, acc);
      forall k | |acc| <= k < |r.detectors|
        ensures r.detectors[k].parent == name
      {
        BranchesParents(descriptions, typemap, name, branches, 0, acc);
        assert |acc| <= k < |Branches(descriptions, typemap, name, branches, 0, acc).detectors|;
        assert Branches(descriptions, typemap, name, branches, 0, acc).detectors[k].parent == name;
      }
    }
  }

  lemma {:induction false} BranchesParents(descriptions: PlogCatalog.Catalog, typemap: map<Terminal, string>, name: string,
                                           branches: seq<T.Entry>, i: nat, acc: seq<Detector>)
    requires i <= |branches|
    ensures var r := Branches(descriptions, typemap, name, branches, i, acc);
      forall k :: |acc| <= k < |r.detectors| ==> r.detectors[k].parent == name
    decreases |branches| - i
  {
    var r := Branches(descriptions, typemap, name, branches, i, acc);
    if i < |branches| && branches[i].value.TTable? && name in descriptions {
      var m := BranchMatch(typemap, descriptions[name], branches[i].value.table.entries, 0, []);
      if m.Ok? {
        var acc' := acc + [Detector(name, m.value, branches[i].key)];
        assert r == Branches(descriptions, typemap, name, branches, i + 1, acc');
        BranchesParents(descriptions, typemap, name, branches, i + 1, acc');
        forall k | |acc| <= k < |r.detectors|
          ensures r.detectors[k].parent == name
        {
          if k == |acc| {
            assert r.detectors[k] == acc'[k];
          } else {
            assert |acc'| <= k < |Branches(descriptions, typemap, name, branches, i + 1, acc').detectors|;
          }
        }
      }
    }
  }

  lemma {:induction false} NestedParents(descriptions: PlogCatalog.Catalog, typemap: map<Terminal, string>, acc: seq<Detector>, name: string, t: T.Table, i: nat)
    requires i <= |t.entries|
    ensures var r := LoadNested(descriptions, typemap, acc, name, t, i);
      forall k :: |acc| <= k < |r.detectors| ==> PlogCatalogLemmas.Under(name, r.detectors[k].parent)
    decreases t, 0, |t.entries| - i
  {
    if i < |t.entries| {
      match t.entries[i].value
      case TTable(sub) =>
        var key := t.entries[i].key;
        var r1 := LoadSpec(descriptions, typemap, acc, name + "." + key, sub);
        LoadParents(descriptions, typemap, acc, name + "." + key, sub);
        forall k | |acc| <= k < |r1.detectors|
          ensures PlogCatalogLemmas.Under(name, r1.detectors[k].parent)
        {
          assert |acc| <= k < |LoadSpec(descriptions, typemap, acc, name + "." + key, sub).detectors|;
          PlogCatalogLemmas.UnderNested(name, key, r1.detectors[k].parent);
        }
        if r1.error.None? {
          var r := LoadNested(descriptions, typemap, r1.detectors, name, t, i + 1);
          assert r == LoadNested(descriptions, typemap, acc, name, t, i);
          forall k | |acc| <= k < |r.detectors|
            ensures PlogCatalogLemmas.Under(name, r.detectors[k].parent)
          {
            if k < |r1.detectors| {
              assert r.detectors[k] == r1.detectors[k];
            } else {
              NestedParents(descriptions, typemap, r1.detectors, name, t, i + 1);
              assert |r1.detectors| <= k < |LoadNested(descriptions, typemap, r1.detectors, name, t, i + 1).detectors|;
            }
          }
        }
      case _ =>
    }
  }

  // ---------------------------------------------------------------------
  // Detection

  /** A reference reading of one detector's test: every match entry agrees
      with the tree, except that the test ends (successfully, if nothing
      disagreed so far) at the first entry the tree lacks. Entries are
      taken from i on. */
  predicate MatchesFrom(m: seq<MatchEntry>, tree: seq<Node>, i: nat) {
    forall j :: i <= j < |m| && (forall l :: i <= l <= j ==> FindNode(tree, m[l].field).Some?) ==>
      FindNode(tree, m[j].field).Some? && FindNode(tree, m[j].field).value.value == m[j].value
  }

  predicate Matches(m: seq<MatchEntry>, tree: seq<Node>) {
    MatchesFrom(m, tree, 0)
  }

  lemma {:induction false} MismatchesFrom(m: seq<MatchEntry>, tree: seq<Node>, i: nat, acc: seq<string>)
    requires i <= |m|
    ensures Mismatches(m, tree, i, acc) == [] <==> acc == [] && MatchesFrom(m, tree, i)
    decreases |m| - i
  {
    if i < |m| {
      match FindNode(tree, m[i].field)
      case None =>
      case Some(n) =>
        var acc' := if n.value != m[i].value then acc + [m[i].field] else acc;
        MismatchesFrom(m, tree, i + 1, acc');
        if MatchesFrom(m, tree, i) {
          assert n.value == m[i].value;
          forall j | i + 1 <= j < |m| && (forall l :: i + 1 <= l <= j ==> FindNode(tree, m[l].field).Some?)
            ensures FindNode(tree, m[j].field).Some? && FindNode(tree, m[j].field).value.value == m[j].value
          {
            assert forall l :: i <= l <= j ==> FindNode(tree, m[l].field).Some?;
          }
        }
        if acc' == [] && MatchesFrom(m, tree, i + 1) {
          forall j | i <= j < |m| && (forall l :: i <= l <= j ==> FindNode(tree, m[l].field).Some?)
            ensures FindNode(tree, m[j].field).Some? && FindNode(tree, m[j].field).value.value == m[j].value
          {
            if j > i {
              assert forall l :: i + 1 <= l <= j ==> FindNode(tree, m[l].field).Some?;
            }
          }
        }
    }
  }

  /** The mismatch loop finds nothing exactly when the detector matches. */
  lemma NoMismatchIffMatches(m: seq<MatchEntry>, tree: seq<Node>)
    ensures Mismatches(m, tree, 0, []) == [] <==> Matches(m, tree)
  {
    MismatchesFrom(m, tree, 0, []);
  }

  /** A match field the tree lacks ends the test with a pass: a detector
      whose first match field is missing is selected, although its log
      line reports it as not matched. */
  lemma MissingFieldPasses(m: seq<MatchEntry>, tree: seq<Node>)
    requires |m| > 0 && FindNode(tree, m[0].field).None?
    ensures Mismatches(m, tree, 0, []) == [] && Matches(m, tree)
    ensures StrictMismatches(m, tree, 0, []) == [m[0].field] && !FullyMatches(m, tree)
  {
    NoMismatchIffMatches(m, tree);
  }

  /** The input that shows it: a detector of "p" keyed on "f", and a "p"
      record without an "f" field. The detector is selected. */
  lemma MissingFieldSelected()
    ensures var cat := [Detector("p", [MatchEntry("f", Int(UInt8Type, 1))], "c")];
      var parent := Node("p", Branch(Tree("p", [Node("g", Int(UInt8Type, 0), Plain)])), Plain);
      DetectSpec(cat, parent) == Ok("c") && !FullyMatches(cat[0].matching, parent.value.tree.nodes)
  {
    var m := [MatchEntry("f", Int(UInt8Type, 1))];
    var tree := [Node("g", Int(UInt8Type, 0), Plain)];
    var cat := [Detector("p", m, "c")];
    assert FindNode(tree, "f").None?;
    MissingFieldPasses(m, tree);
    assert DetectFrom(cat, 1, "p", tree, "c") == Ok("c");
    assert DetectFrom(cat, 0, "p", tree, "") == Ok("c");
  }

  /** The intended test: every match field is in the tree with its value. */
  predicate FullyMatches(m: seq<MatchEntry>, tree: seq<Node>) {
    forall j :: 0 <= j < |m| ==> FindNode(tree, m[j].field).Some? && FindNode(tree, m[j].field).value.value == m[j].value
  }

  lemma {:induction false} StrictMismatchesFrom(m: seq<MatchEntry>, tree: seq<Node>, i: nat, acc: seq<string>)
    requires i <= |m|
    ensures StrictMismatches(m, tree, i, acc) == [] <==>
      acc == [] && forall j :: i <= j < |m| ==> FindNode(tree, m[j].field).Some? && FindNode(tree, m[j].field).value.value == m[j].value
    decreases |m| - i
  {
    if i < |m| {
      match FindNode(tree, m[i].field)
      case None =>
      case Some(n) =>
        StrictMismatchesFrom(m, tree, i + 1, if n.value != m[i].value then acc + [m[i].field] else acc);
    }
  }

  /** The corrected loop finds nothing exactly when every match field is
      present with its value. */
  lemma StrictNoMismatchIffFullyMatches(m: seq<MatchEntry>, tree: seq<Node>)
    ensures StrictMismatches(m, tree, 0, []) == [] <==> FullyMatches(m, tree)
    ensures FullyMatches(m, tree) ==> Matches(m, tree)
  {
    StrictMismatchesFrom(m, tree, 0, []);
  }

  /** The children, in catalog order, of the detectors from i on whose
      parent is pname and whose test passes on the tree. */
  function Selected(cat: seq<Detector>, i: nat, pname: string, tree: seq<Node>): (r: seq<string>)
    requires i <= |cat|
    ensures forall c :: c in r ==>
      exists k :: i <= k < |cat| && cat[k].parent == pname && Matches(cat[k].matching, tree) && cat[k].child == c
    decreases |cat| - i
  {
    if i == |cat| then []
    else
      (if cat[i].parent == pname && Matches(cat[i].matching, tree) then [cat[i].child] else [])
      + Selected(cat, i + 1, pname, tree)
  }

  /** The outcome the selection rule promises for the selected children. */
  function Verdict(selected: seq<string>): Result<string> {
    if |selected| == 0 then Ok("raw")
    else if |selected| == 1 then Ok(selected[0])
    else Err(Fail("non-unique detectors: " + selected[0] + " and " + selected[1]))
  }

  lemma {:induction false} DetectFromSelected(cat: seq<Detector>, i: nat, pname: string, tree: seq<Node>, tpname: string)
    requires i <= |cat|
    requires forall k :: i <= k < |cat| ==> cat[k].child != ""
    ensures var s := Selected(cat, i, pname, tree);
      DetectFrom(cat, i, pname, tree, tpname)
      == if tpname == "" then Verdict(s)
         else if |s| == 0 then Ok(tpname)
         else Err(Fail("non-unique detectors: " + tpname + " and " + s[0]))
    decreases |cat| - i
  {
    if i < |cat| {
      if cat[i].parent == pname {
        NoMismatchIffMatches(cat[i].matching, tree);
        if Matches(cat[i].matching, tree) && tpname == "" {
          DetectFromSelected(cat, i + 1, pname, tree, cat[i].child);
        } else {
          DetectFromSelected(cat, i + 1, pname, tree, tpname);
        }
      } else {
        DetectFromSelected(cat, i + 1, pname, tree, tpname);
      }
    }
  }

  /** detect's selection rule: over the detectors of the parent's type
      whose test passes, none gives "raw", exactly one gives its child, and
      two or more fail naming the first two; an empty tree fails. */
  lemma DetectCharacterised(cat: seq<Detector>, parent: Node)
    requires forall k :: 0 <= k < |cat| ==> cat[k].child != ""
    requires parent.value.Branch?
    ensures parent.value.tree.nodes == [] ==> DetectSpec(cat, parent) == Err(Fail("parent tree is empty"))
    ensures parent.value.tree.nodes != [] ==>
      DetectSpec(cat, parent) == Verdict(Selected(cat, 0, parent.name, parent.value.tree.nodes))
  {
    if parent.value.tree.nodes != [] {
      DetectFromSelected(cat, 0, parent.name, parent.value.tree.nodes, "");
    }
  }

  /** A detected child comes from a detector of the parent's own type whose
      test passes. */
  lemma DetectedFromParent(cat: seq<Detector>, parent: Node)
    requires forall k :: 0 <= k < |cat| ==> cat[k].child != ""
    requires parent.value.Branch? && parent.value.tree.nodes != []
    ensures var r := DetectSpec(cat, parent);
      r.Ok? && r.value != "raw" ==>
        exists k :: 0 <= k < |cat| && cat[k].parent == parent.name && Matches(cat[k].matching, parent.value.tree.nodes)
                    && cat[k].child == r.value
  {
    DetectCharacterised(cat, parent);
    var s := Selected(cat, 0, parent.name, parent.value.tree.nodes);
    if |s| == 1 {
      assert s[0] in s;
    }
  }
}
