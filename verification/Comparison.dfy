/**
 * The mechanism comparison: the document the producer derives from the verified slices, and the one the
 * independent verifier derives, over every inventory of slices, mechanisms and architectures.
 */
module Comparison {
  import opened Common

  type Name = string

  /** What both sides keep of one verified result. */
  datatype Slice = Slice(
    slice: Name, mechanism: Name, architecture: Name, sourceCommit: Name,
    resultSchema: Name, verificationSchema: Name, resultSha: Name, matrixSha: Name,
    measurementSha: Option<Name>, complete: bool, residual: Option<seq<Name>>,
    setup: Option<Name>, request: Option<Name>)

  datatype Key = Key(slice: Name, mechanism: Name, architecture: Name)

  function KeyOf(x: Slice): Key {
    Key(x.slice, x.mechanism, x.architecture)
  }

  /** One residual authority and its classification. */
  datatype Rule = Rule(residual: seq<Name>, classification: Name)

  const MEASUREMENT: Name := "measurement"
  const INCOMPLETE: Name := "incomplete-experiment"
  const READY: Name := "network-candidates-ready-for-adr-review"
  const NOT_READY: Name := "network-experiment-incomplete"

  /** The validated comparison and measurement domains. */
  datatype Domain = Domain(
    sha: Name, measurementSha: Name,
    slices: seq<Name>, mechanisms: seq<Name>, architectures: seq<Name>,
    profiles: map<Name, seq<Name>>, rules: seq<Rule>) {

    ghost predicate Valid() {
      && MEASUREMENT in slices && mechanisms != [] && architectures != []
      && (forall m :: m in mechanisms ==> m in profiles)
      && (forall i, j :: 0 <= i < j < |rules| ==> rules[i].residual != rules[j].residual)
      && (forall i :: 0 <= i < |rules| ==> rules[i].classification != INCOMPLETE)
    }
  }

  // ---- the documents ----

  datatype Input = Input(
    architecture: Name, complete: bool, mechanism: Name, resultSchema: Name,
    resultSha: Name, slice: Name, sourceCommit: Name, verificationSchema: Name)

  datatype Measured = Measured(architecture: Name, complete: bool, request: Option<Name>, setup: Option<Name>)

  datatype Mechanism = Mechanism(classification: Name, measurements: seq<Measured>, mechanism: Name, residual: Option<seq<Name>>)

  datatype SliceSource = SliceSource(slice: Name, sourceCommit: Name)

  datatype Document = Document(
    comparisonSha: Name, complete: bool, conclusion: Name, matrixSha: Name, inputs: seq<Input>,
    measurementSha: Name, mechanisms: seq<Mechanism>, sliceSources: seq<SliceSource>)

  function InputOf(x: Slice): Input {
    Input(x.architecture, x.complete, x.mechanism, x.resultSchema, x.resultSha, x.slice, x.sourceCommit, x.verificationSchema)
  }

  function MeasuredOf(x: Slice): Measured {
    Measured(x.architecture, x.complete, x.request, x.setup)
  }

  // ---- keys ----

  ghost predicate IsExpected(d: Domain, key: Key) {
    key.slice in d.slices && key.mechanism in d.mechanisms && key.architecture in d.architectures
  }

  function ExpectedKeys(d: Domain): (r: set<Key>)
    ensures forall key :: key in r <==> IsExpected(d, key)
  {
    set s, m, a | s in d.slices && m in d.mechanisms && a in d.architectures :: Key(s, m, a)
  }

  /** The keys of one slice and mechanism, of one slice, of all slices, in the order of the product. */
  function ArchitectureKeys(s: Name, m: Name, architectures: seq<Name>): (r: seq<Key>) {
    if architectures == [] then [] else [Key(s, m, architectures[0])] + ArchitectureKeys(s, m, architectures[1..])
  }

  function MechanismKeys(s: Name, mechanisms: seq<Name>, architectures: seq<Name>): (r: seq<Key>) {
    if mechanisms == [] then [] else ArchitectureKeys(s, mechanisms[0], architectures) + MechanismKeys(s, mechanisms[1..], architectures)
  }

  function ProductKeys(slices: seq<Name>, mechanisms: seq<Name>, architectures: seq<Name>): (r: seq<Key>) {
    if slices == [] then [] else MechanismKeys(slices[0], mechanisms, architectures) + ProductKeys(slices[1..], mechanisms, architectures)
  }

  /** The cells of `rows` rows of `size` cells each. */
  function Cells(rows: nat, size: nat): nat {
    rows * size
  }

  lemma {:induction false} CellsStep(rows: nat, size: nat)
    ensures Cells(rows + 1, size) == size + Cells(rows, size) && Cells(0, size) == 0
  {
  }

  /** A cell lies in one row, at one place of it. */
  lemma {:induction false} CellRow(n: nat, rows: nat, size: nat) returns (row: nat, at: nat)
    requires n < Cells(rows, size)
    ensures row < rows && at < size && n == Cells(row, size) + at
  {
    hide Cells;
    CellsStep(0, size);
    if n < size {
      row, at := 0, n;
    } else {
      CellsStep(rows - 1, size);
      row, at := CellRow(n - size, rows - 1, size);
      CellsStep(row, size);
      row := row + 1;
    }
  }

  /** The place of a slice, a mechanism and an architecture in the product, the last varying fastest. */
  function Place(i: nat, j: nat, k: nat, mechanisms: nat, architectures: nat): nat {
    Cells(i, Cells(mechanisms, architectures)) + (Cells(j, architectures) + k)
  }

  lemma {:induction false} ArchitectureKeysExact(s: Name, m: Name, architectures: seq<Name>, k: nat)
    ensures |ArchitectureKeys(s, m, architectures)| == |architectures|
    ensures k < |architectures| ==> ArchitectureKeys(s, m, architectures)[k] == Key(s, m, architectures[k])
  {
    if architectures != [] {
      ArchitectureKeysExact(s, m, architectures[1..], if k > 0 then k - 1 else 0);
    }
  }

  lemma {:induction false} MechanismKeysCount(s: Name, mechanisms: seq<Name>, architectures: seq<Name>)
    ensures |MechanismKeys(s, mechanisms, architectures)| == Cells(|mechanisms|, |architectures|)
  {
    hide Cells, ArchitectureKeys;
    CellsStep(0, |architectures|);
    if mechanisms != [] {
      CellsStep(|mechanisms| - 1, |architectures|);
      MechanismKeysCount(s, mechanisms[1..], architectures);
      ArchitectureKeysExact(s, mechanisms[0], architectures, 0);
    }
  }

  lemma {:induction false} MechanismKeysExact(s: Name, mechanisms: seq<Name>, architectures: seq<Name>, j: nat, k: nat)
    requires j < |mechanisms| && k < |architectures|
    ensures Cells(j, |architectures|) + k < |MechanismKeys(s, mechanisms, architectures)|
    ensures MechanismKeys(s, mechanisms, architectures)[Cells(j, |architectures|) + k] == Key(s, mechanisms[j], architectures[k])
  {
    hide Cells, ArchitectureKeys;
    var n := |architectures|;
    ArchitectureKeysExact(s, mechanisms[0], architectures, k);
    if j == 0 {
      CellsStep(0, n);
    } else {
      MechanismKeysExact(s, mechanisms[1..], architectures, j - 1, k);
      CellsStep(j - 1, n);
    }
  }

  /** The product lists every key once, slice by slice, mechanism by mechanism, architecture by architecture. */
  lemma {:induction false} ProductKeysExact(slices: seq<Name>, mechanisms: seq<Name>, architectures: seq<Name>,
      i: nat, j: nat, k: nat)
    ensures |ProductKeys(slices, mechanisms, architectures)| == Cells(|slices|, Cells(|mechanisms|, |architectures|))
    ensures i < |slices| && j < |mechanisms| && k < |architectures| ==>
              var at := Place(i, j, k, |mechanisms|, |architectures|);
              && at < Cells(|slices|, Cells(|mechanisms|, |architectures|))
              && ProductKeys(slices, mechanisms, architectures)[at] == Key(slices[i], mechanisms[j], architectures[k])
  {
    hide Cells, MechanismKeys;
    var block := Cells(|mechanisms|, |architectures|);
    CellsStep(0, block);
    if slices != [] {
      var rest := slices[1..];
      CellsStep(|rest|, block);
      ProductKeysExact(rest, mechanisms, architectures, if i > 0 then i - 1 else 0, j, k);
      MechanismKeysCount(slices[0], mechanisms, architectures);
      if i < |slices| && j < |mechanisms| && k < |architectures| {
        MechanismKeysExact(slices[0], mechanisms, architectures, j, k);
        if 0 < i {
          CellsStep(i - 1, block);
        }
      }
    }
  }

  /** Every place of the product belongs to a slice, a mechanism and an architecture. */
  lemma {:induction false} PlaceOnto(n: nat, slices: nat, mechanisms: nat, architectures: nat) returns (i: nat,
      j: nat, k: nat)
    requires n < Cells(slices, Cells(mechanisms, architectures))
    ensures i < slices && j < mechanisms && k < architectures && n == Place(i, j, k, mechanisms, architectures)
  {
    hide Cells;
    var rest;
    i, rest := CellRow(n, slices, Cells(mechanisms, architectures));
    j, k := CellRow(rest, mechanisms, architectures);
  }

  // ---- the index ----

  type Index = map<Key, Slice>

  function Indexed(xs: seq<Slice>): (r: Option<Index>) {
    if xs == [] then Some(map[])
    else
      var front, last := Indexed(xs[..|xs| - 1]), xs[|xs| - 1];
      if front.None? || KeyOf(last) in front.value then None else Some(front.value[KeyOf(last) := last])
  }

  /** Both sides fill the dictionary in one pass and refuse a repeated key. */
  method FillIndex(xs: seq<Slice>) returns (r: Option<Index>)
    ensures r == Indexed(xs)
  {
    var index: Index := map[];
    for n := 0 to |xs|
      invariant Indexed(xs[..n]) == Some(index)
    {
      assert xs[..n + 1][..n] == xs[..n];
      if KeyOf(xs[n]) in index {
        RepeatedKeyStays(xs, n + 1);
        return None;
      }
      index := index[KeyOf(xs[n]) := xs[n]];
    }
    assert xs[..|xs|] == xs;
    r := Some(index);
  }

  lemma {:induction false} RepeatedKeyStays(xs: seq<Slice>, n: nat)
    requires n <= |xs| && Indexed(xs[..n]).None?
    ensures Indexed(xs).None?
    decreases |xs| - n
  {
    if n < |xs| {
      assert xs[..n + 1][..n] == xs[..n];
      RepeatedKeyStays(xs, n + 1);
    } else {
      assert xs[..n] == xs;
    }
  }

  ghost predicate DistinctKeys(xs: seq<Slice>) {
    forall i, j :: 0 <= i < j < |xs| ==> KeyOf(xs[i]) != KeyOf(xs[j])
  }

  /** The index holds exactly the listed slices, each under its own key. */
  ghost predicate Holds(ix: Index, xs: seq<Slice>) {
    && (forall x :: x in xs ==> KeyOf(x) in ix && ix[KeyOf(x)] == x)
    && (forall key :: key in ix ==> ix[key] in xs && KeyOf(ix[key]) == key)
  }

  lemma {:induction false} IndexedExact(xs: seq<Slice>)
    ensures Indexed(xs).Some? <==> DistinctKeys(xs)
    ensures Indexed(xs).Some? ==> Holds(Indexed(xs).value, xs)
  {
    if xs != [] {
      var front, last := xs[..|xs| - 1], xs[|xs| - 1];
      IndexedExact(front);
      assert xs == front + [last];
      DistinctAppend(front, last);
      if Indexed(front).Some? {
        HoldsAppend(Indexed(front).value, front, last);
      }
    }
  }

  lemma {:induction false} DistinctAppend(front: seq<Slice>, last: Slice)
    ensures DistinctKeys(front + [last]) <==> DistinctKeys(front) && forall x :: x in front ==> KeyOf(x) != KeyOf(last)
  {
    var xs := front + [last];
    if DistinctKeys(xs) {
      forall i, j | 0 <= i < j < |front| ensures KeyOf(front[i]) != KeyOf(front[j]) {
        assert KeyOf(xs[i]) != KeyOf(xs[j]);
      }
      forall x | x in front ensures KeyOf(x) != KeyOf(last) {
        var i :| 0 <= i < |front| && front[i] == x;
        assert KeyOf(xs[i]) != KeyOf(xs[|front|]);
      }
    }
  }

  lemma {:induction false} HoldsAppend(ix: Index, front: seq<Slice>, last: Slice)
    requires Holds(ix, front)
    ensures KeyOf(last) in ix <==> exists x :: x in front && KeyOf(x) == KeyOf(last)
    ensures KeyOf(last) !in ix ==> Holds(ix[KeyOf(last) := last], front + [last])
  {
  }

  /** An index forgets the order of the list. */
  lemma {:induction false} IndexPermutes(xs: seq<Slice>, ys: seq<Slice>)
    requires multiset(xs) == multiset(ys)
    ensures Indexed(xs) == Indexed(ys)
  {
    hide DistinctKeys, Indexed;
    IndexedExact(xs);
    IndexedExact(ys);
    if DistinctKeys(xs) {
      DistinctPermutes(xs, ys);
    }
    if DistinctKeys(ys) {
      DistinctPermutes(ys, xs);
    }
    if Indexed(xs).Some? {
      SameMembers(xs, ys);
      assert Indexed(xs).value == Indexed(ys).value;
    }
  }

  lemma {:induction false} SameMembers(xs: seq<Slice>, ys: seq<Slice>)
    requires multiset(xs) == multiset(ys)
    ensures forall x :: x in xs <==> x in ys
  {
    forall x ensures x in xs <==> x in ys {
      assert x in xs <==> x in multiset(xs);
      assert x in ys <==> x in multiset(ys);
    }
  }

  lemma {:induction false} DistinctPermutes(xs: seq<Slice>, ys: seq<Slice>)
    requires multiset(xs) == multiset(ys) && DistinctKeys(xs)
    ensures DistinctKeys(ys)
    decreases |xs|
  {
    if xs != [] {
      assert xs[0] in multiset(ys);
      var k :| 0 <= k < |ys| && ys[k] == xs[0];
      MultisetMatch(xs, ys, k);
      var rest := ys[..k] + ys[k + 1..];
      DistinctTail(xs);
      DistinctPermutes(xs[1..], rest);
      SameMembers(xs[1..], rest);
      DistinctInsert(ys, k);
    } else {
      assert |multiset(ys)| == 0;
    }
  }

  lemma {:induction false} DistinctTail(xs: seq<Slice>)
    requires xs != [] && DistinctKeys(xs)
    ensures DistinctKeys(xs[1..]) && forall x :: x in xs[1..] ==> KeyOf(x) != KeyOf(xs[0])
  {
    forall i, j | 0 <= i < j < |xs[1..]| ensures KeyOf(xs[1..][i]) != KeyOf(xs[1..][j]) {
      assert KeyOf(xs[i + 1]) != KeyOf(xs[j + 1]);
    }
    forall x | x in xs[1..] ensures KeyOf(x) != KeyOf(xs[0]) {
      var i :| 0 <= i < |xs[1..]| && xs[1..][i] == x;
      assert KeyOf(xs[0]) != KeyOf(xs[i + 1]);
    }
  }

  lemma {:induction false} DistinctInsert(ys: seq<Slice>, k: nat)
    requires k < |ys|
    requires var rest := ys[..k] + ys[k + 1..]; DistinctKeys(rest) && forall x :: x in rest ==> KeyOf(x) != KeyOf(ys[k])
    ensures DistinctKeys(ys)
  {
    var rest := ys[..k] + ys[k + 1..];
    forall i, j | 0 <= i < j < |ys| ensures KeyOf(ys[i]) != KeyOf(ys[j]) {
      var a, b := if i < k then i else i - 1, if j < k then j else j - 1;
      if i != k && j != k {
        assert rest[a] == ys[i] && rest[b] == ys[j];
        assert KeyOf(rest[a]) != KeyOf(rest[b]);
      } else if i == k {
        assert rest[b] == ys[j];
        assert ys[j] in rest;
      } else {
        assert rest[a] == ys[i];
        assert ys[i] in rest;
      }
    }
  }

  // ---- what a comparison has to be ----

  ghost predicate OneMatrix(ix: Index) {
    forall a, b :: a in ix && b in ix ==> ix[a].matrixSha == ix[b].matrixSha
  }

  ghost predicate MeasurementsShare(d: Domain, ix: Index) {
    forall key :: key in ix && key.slice == MEASUREMENT ==> ix[key].measurementSha == Some(d.measurementSha)
  }

  ghost predicate OneSource(ix: Index, slice: Name) {
    forall a, b :: a in ix && b in ix && a.slice == slice && b.slice == slice ==> ix[a].sourceCommit == ix[b].sourceCommit
  }

  /** Every slice of the mechanism is complete on every architecture. */
  ghost predicate AllComplete(ix: Index, m: Name) {
    forall key :: key in ix && key.mechanism == m ==> ix[key].complete
  }

  /** The measured residual authority is the registered one, and it has a classification. */
  ghost predicate Classified(d: Domain, ix: Index, m: Name)
    requires m in d.profiles
  {
    && (forall key :: key in ix && key.slice == MEASUREMENT && key.mechanism == m ==> ix[key].residual == Some(d.profiles[m]))
    && (exists i :: 0 <= i < |d.rules| && d.rules[i].residual == d.profiles[m])
  }

  ghost predicate Comparable(d: Domain, ix: Index)
    requires d.Valid()
  {
    && ix.Keys == ExpectedKeys(d)
    && OneMatrix(ix)
    && MeasurementsShare(d, ix)
    && (forall s :: s in d.slices ==> OneSource(ix, s))
    && (forall m :: m in d.mechanisms && AllComplete(ix, m) ==> Classified(d, ix, m))
  }

  ghost predicate IsMechanism(d: Domain, ix: Index, m: Name, row: Mechanism)
    requires d.Valid() && ix.Keys == ExpectedKeys(d) && m in d.mechanisms
  {
    && row.mechanism == m
    && |row.measurements| == |d.architectures|
    && (forall i :: 0 <= i < |d.architectures| ==>
          var x := ix[Key(MEASUREMENT, m, d.architectures[i])];
          row.measurements[i] == Measured(d.architectures[i], x.complete, x.request, x.setup))
    && (if AllComplete(ix, m) then
          row.residual == Some(d.profiles[m])
          && exists i :: 0 <= i < |d.rules| && d.rules[i] == Rule(d.profiles[m], row.classification)
        else row.residual == None && row.classification == "incomplete-experiment")
  }

  ghost predicate IsSource(ix: Index, slice: Name, source: SliceSource) {
    source.slice == slice && forall key :: key in ix && key.slice == slice ==> ix[key].sourceCommit == source.sourceCommit
  }

  /** The document of a comparable index, field by field. */
  ghost predicate IsDocument(d: Domain, ix: Index, doc: Document)
    requires d.Valid() && ix.Keys == ExpectedKeys(d)
  {
    && doc.comparisonSha == d.sha && doc.measurementSha == d.measurementSha
    && (doc.complete <==> forall key :: key in ix ==> ix[key].complete)
    && doc.conclusion == (if doc.complete then "network-candidates-ready-for-adr-review" else "network-experiment-incomplete")
    && (forall key :: key in ix ==> ix[key].matrixSha == doc.matrixSha)
    && IsInputs(d, ix, doc.inputs)
    && |doc.sliceSources| == |d.slices|
    && (forall i :: 0 <= i < |d.slices| ==> IsSource(ix, d.slices[i], doc.sliceSources[i]))
    && |doc.mechanisms| == |d.mechanisms|
    && (forall i :: 0 <= i < |d.mechanisms| ==> IsMechanism(d, ix, d.mechanisms[i], doc.mechanisms[i]))
  }

  /** One input for every slice, mechanism and architecture, in the order of the product. */
  ghost predicate IsInputs(d: Domain, ix: Index, inputs: seq<Input>) {
    && |inputs| == Cells(|d.slices|, Cells(|d.mechanisms|, |d.architectures|))
    && forall i, j, k :: 0 <= i < |d.slices| && 0 <= j < |d.mechanisms| && 0 <= k < |d.architectures| ==>
         IsInput(ix, inputs, Place(i, j, k, |d.mechanisms|, |d.architectures|), d.slices[i], d.mechanisms[j], d.architectures[k])
  }

  ghost predicate IsInput(ix: Index, inputs: seq<Input>, at: nat, s: Name, m: Name, a: Name) {
    && at < |inputs| && Key(s, m, a) in ix
    && var x := ix[Key(s, m, a)];
       inputs[at] == Input(a, x.complete, m, x.resultSchema, x.resultSha, s, x.sourceCommit, x.verificationSchema)
  }

  /** Every indexed slice names what its key names. */
  ghost predicate Keyed(ix: Index) {
    forall key :: key in ix ==> ix[key].slice == key.slice && ix[key].mechanism == key.mechanism && ix[key].architecture == key.architecture
  }

  lemma {:induction false} HoldsKeyed(ix: Index, xs: seq<Slice>)
    requires Holds(ix, xs)
    ensures Keyed(ix)
  {
  }

  /** The result of a derivation: a document exactly for distinct keys that are comparable, and then the document. */
  ghost predicate Derives(d: Domain, xs: seq<Slice>, r: Option<Document>)
    requires d.Valid()
  {
    && (r.Some? <==> Indexed(xs).Some? && Comparable(d, Indexed(xs).value))
    && (r.Some? ==> IsDocument(d, Indexed(xs).value, r.value))
  }

  // ---- sets of one element ----

  lemma {:induction false} OneElement<T>(s: set<T>)
    ensures |s| == 1 <==> s != {} && forall a, b :: a in s && b in s ==> a == b
  {
    if s != {} {
      var x :| x in s;
      var rest := s - {x};
      assert s == rest + {x};
      if |s| == 1 {
        assert |rest| == 0;
      }
      if forall a, b :: a in s && b in s ==> a == b {
        assert rest == {};
      }
    }
  }

  lemma {:induction false} MatricesExact(ix: Index, xs: seq<Slice>)
    requires Holds(ix, xs) && xs != []
    ensures |set x | x in xs :: x.matrixSha| == 1 <==> OneMatrix(ix)
  {
    var all := set x | x in xs :: x.matrixSha;
    OneElement(all);
    assert xs[0].matrixSha in all;
    if |all| == 1 {
      forall a, b | a in ix && b in ix ensures ix[a].matrixSha == ix[b].matrixSha {
        assert ix[a].matrixSha in all && ix[b].matrixSha in all;
      }
    }
  }

  lemma {:induction false} IdentitiesExact(d: Domain, ix: Index, xs: seq<Slice>)
    requires Holds(ix, xs) && exists key :: key in ix && key.slice == MEASUREMENT
    ensures (set x | x in xs && x.slice == MEASUREMENT :: x.measurementSha) == {Some(d.measurementSha)} <==> MeasurementsShare(d, ix)
  {
    var all := set x | x in xs && x.slice == MEASUREMENT :: x.measurementSha;
    var key :| key in ix && key.slice == MEASUREMENT;
    assert ix[key].measurementSha in all;
    if all == {Some(d.measurementSha)} {
      forall k | k in ix && k.slice == MEASUREMENT ensures ix[k].measurementSha == Some(d.measurementSha) {
        assert ix[k].measurementSha in all;
      }
    }
  }

  lemma {:induction false} SourcesExact(ix: Index, xs: seq<Slice>, slice: Name)
    requires Holds(ix, xs) && exists key :: key in ix && key.slice == slice
    ensures |set x | x in xs && x.slice == slice :: x.sourceCommit| == 1 <==> OneSource(ix, slice)
    ensures forall key :: key in ix && key.slice == slice ==> ix[key].sourceCommit in set x | x in xs && x.slice == slice :: x.sourceCommit
  {
    var all := set x | x in xs && x.slice == slice :: x.sourceCommit;
    OneElement(all);
    forall key | key in ix && key.slice == slice ensures ix[key].sourceCommit in all {
    }
  }

  lemma {:induction false} SourceChosen(ix: Index, xs: seq<Slice>, slice: Name, commit: Name)
    requires Holds(ix, xs) && OneSource(ix, slice) && commit in set x | x in xs && x.slice == slice :: x.sourceCommit
    ensures IsSource(ix, slice, SliceSource(slice, commit))
  {
    var x :| x in xs && x.slice == slice && x.sourceCommit == commit;
    assert KeyOf(x) in ix && ix[KeyOf(x)] == x;
  }

  // ---- the derivations ----

  /** The source commit of each slice; nothing when a slice mixes commits. */
  method SliceSources(d: Domain, ghost ix: Index, xs: seq<Slice>) returns (r: Option<seq<SliceSource>>)
    requires d.Valid() && Holds(ix, xs) && ix.Keys == ExpectedKeys(d)
    ensures r.Some? <==> forall s :: s in d.slices ==> OneSource(ix, s)
    ensures r.Some? ==> |r.value| == |d.slices| && forall i :: 0 <= i < |d.slices| ==> IsSource(ix, d.slices[i], r.value[i])
  {
    hide OneSource, Holds;
    var found: seq<SliceSource> := [];
    for n := 0 to |d.slices|
      invariant |found| == n
      invariant forall i :: 0 <= i < n ==> OneSource(ix, d.slices[i]) && IsSource(ix, d.slices[i], found[i])
    {
      var slice := d.slices[n];
      assert Key(slice, d.mechanisms[0], d.architectures[0]) in ix;
      SourcesExact(ix, xs, slice);
      var sources := set x | x in xs && x.slice == slice :: x.sourceCommit;
      if |sources| != 1 {
        return None;
      }
      var commit :| commit in sources;
      SourceChosen(ix, xs, slice, commit);
      found := found + [SliceSource(slice, commit)];
    }
    r := Some(found);
  }

  function RulesFor(rules: seq<Rule>, residual: seq<Name>): (r: seq<Name>) {
    if rules == [] then []
    else (if rules[0].residual == residual then [rules[0].classification] else []) + RulesFor(rules[1..], residual)
  }

  /** `classify`: the classification of the one matching rule. */
  function Classify(rules: seq<Rule>, residual: seq<Name>): (r: Option<Name>) {
    var matches := RulesFor(rules, residual);
    if |matches| != 1 then None else Some(matches[0])
  }

  /** The verifier keeps the same rules as a dictionary. */
  function RuleTable(rules: seq<Rule>): (r: map<seq<Name>, Name>) {
    if rules == [] then map[] else RuleTable(rules[1..])[rules[0].residual := rules[0].classification]
  }

  ghost predicate DistinctRules(rules: seq<Rule>) {
    forall i, j :: 0 <= i < j < |rules| ==> rules[i].residual != rules[j].residual
  }

  lemma {:induction false} RulesForExact(rules: seq<Rule>, residual: seq<Name>)
    requires DistinctRules(rules)
    ensures |RulesFor(rules, residual)| <= 1
    ensures RulesFor(rules, residual) == [] <==> forall i :: 0 <= i < |rules| ==> rules[i].residual != residual
    ensures |RulesFor(rules, residual)| == 1 ==> Rule(residual, RulesFor(rules, residual)[0]) in rules
  {
    if rules != [] {
      RulesForExact(rules[1..], residual);
      if rules[0].residual == residual {
        forall i | 0 <= i < |rules[1..]| ensures rules[1..][i].residual != residual {
          assert rules[0].residual != rules[i + 1].residual;
        }
        assert rules[0] == Rule(residual, rules[0].classification);
      } else if |RulesFor(rules, residual)| == 1 {
        assert Rule(residual, RulesFor(rules, residual)[0]) in rules[1..];
      } else {
        forall i | 0 <= i < |rules| ensures rules[i].residual != residual {
          if i > 0 {
            assert rules[i] == rules[1..][i - 1];
          }
        }
      }
    }
  }

  lemma {:induction false} RuleTableExact(rules: seq<Rule>, residual: seq<Name>)
    requires DistinctRules(rules)
    ensures residual in RuleTable(rules) <==> exists i :: 0 <= i < |rules| && rules[i].residual == residual
    ensures residual in RuleTable(rules) ==> Rule(residual, RuleTable(rules)[residual]) in rules
  {
    if rules != [] {
      RuleTableExact(rules[1..], residual);
      assert rules[0] in rules;
      if rules[0].residual == residual {
        assert rules[0] == Rule(residual, rules[0].classification);
      } else {
        if exists i :: 0 <= i < |rules| && rules[i].residual == residual {
          var i :| 0 <= i < |rules| && rules[i].residual == residual;
          assert rules[1..][i - 1] == rules[i];
        }
        if residual in RuleTable(rules) {
          assert Rule(residual, RuleTable(rules)[residual]) in rules[1..];
        }
      }
    }
  }

  /** The list scan and the dictionary classify alike: by the rule there is, if there is one. */
  lemma {:induction false} ClassifyExact(d: Domain, residual: seq<Name>)
    requires d.Valid()
    ensures Classify(d.rules, residual) == (if residual in RuleTable(d.rules) then Some(RuleTable(d.rules)[residual]) else None)
    ensures Classify(d.rules, residual).Some? <==> exists i :: 0 <= i < |d.rules| && d.rules[i].residual == residual
    ensures Classify(d.rules, residual).Some? ==> exists i :: 0 <= i < |d.rules| && d.rules[i] == Rule(residual, Classify(d.rules, residual).value)
  {
    hide RulesFor, RuleTable;
    RulesForExact(d.rules, residual);
    RuleTableExact(d.rules, residual);
    if residual in RuleTable(d.rules) {
      var a, b := Rule(residual, RulesFor(d.rules, residual)[0]), Rule(residual, RuleTable(d.rules)[residual]);
      var i :| 0 <= i < |d.rules| && d.rules[i] == a;
      var j :| 0 <= j < |d.rules| && d.rules[j] == b;
      assert i == j;
    }
  }

  /** The measurement rows of one mechanism. */
  function MeasurementRows(ix: Index, m: Name, architectures: seq<Name>): (r: seq<Slice>)
    requires forall a :: a in architectures ==> Key(MEASUREMENT, m, a) in ix
    ensures |r| == |architectures| && forall i :: 0 <= i < |r| ==> r[i] == ix[Key(MEASUREMENT, m, architectures[i])]
  {
    seq(|architectures|, i requires 0 <= i < |architectures| => ix[Key(MEASUREMENT, m, architectures[i])])
  }

  predicate EveryComplete(d: Domain, ix: Index, m: Name)
    requires forall s, a :: s in d.slices && a in d.architectures ==> Key(s, m, a) in ix
  {
    forall s, a :: s in d.slices && a in d.architectures ==> ix[Key(s, m, a)].complete
  }

  lemma {:induction false} EveryCompleteExact(d: Domain, ix: Index, m: Name)
    requires d.Valid() && ix.Keys == ExpectedKeys(d) && m in d.mechanisms
    ensures forall s, a :: s in d.slices && a in d.architectures ==> Key(s, m, a) in ix
    ensures EveryComplete(d, ix, m) <==> AllComplete(ix, m)
  {
    forall s, a | s in d.slices && a in d.architectures ensures Key(s, m, a) in ix {
      assert IsExpected(d, Key(s, m, a));
    }
    if EveryComplete(d, ix, m) {
      forall key | key in ix && key.mechanism == m ensures ix[key].complete {
        assert key == Key(key.slice, m, key.architecture);
        assert IsExpected(d, key);
      }
    }
  }

  /** Comparing the set of measured authorities with the registered one is comparing each of them. */
  lemma {:induction false} AuthoritiesExact(d: Domain, ix: Index, m: Name, rows: seq<Slice>)
    requires d.Valid() && ix.Keys == ExpectedKeys(d) && m in d.mechanisms
    requires |rows| == |d.architectures|
    requires forall i :: 0 <= i < |rows| ==> Key(MEASUREMENT, m, d.architectures[i]) in ix && rows[i] == ix[Key(MEASUREMENT, m, d.architectures[i])]
    ensures (set x | x in rows :: x.residual) == {Some(d.profiles[m])}
       <==> forall key :: key in ix && key.slice == MEASUREMENT && key.mechanism == m ==> ix[key].residual == Some(d.profiles[m])
  {
    var all := set x | x in rows :: x.residual;
    assert rows[0] in rows && rows[0].residual in all;
    if all == {Some(d.profiles[m])} {
      forall key | key in ix && key.slice == MEASUREMENT && key.mechanism == m ensures ix[key].residual == Some(d.profiles[m]) {
        assert IsExpected(d, key);
        var i :| 0 <= i < |d.architectures| && d.architectures[i] == key.architecture;
        assert key == Key(MEASUREMENT, m, d.architectures[i]);
        assert rows[i] in rows && rows[i].residual in all;
      }
    }
  }

  /** The producer's row of one mechanism; nothing where it raises. */
  method ProducerMechanism(d: Domain, ix: Index, m: Name) returns (r: Option<Mechanism>)
    requires d.Valid() && ix.Keys == ExpectedKeys(d) && m in d.mechanisms && Keyed(ix)
    ensures r.Some? <==> (AllComplete(ix, m) ==> Classified(d, ix, m))
    ensures r.Some? ==> IsMechanism(d, ix, m, r.value)
  {
    hide AllComplete, ExpectedKeys, Classify, RuleTable;
    EveryCompleteExact(d, ix, m);
    var profile := d.profiles[m];
    var rows := MeasurementRows(ix, m, d.architectures);
    var measurements := seq(|rows|, i requires 0 <= i < |rows| => MeasuredOf(rows[i]));
    if EveryComplete(d, ix, m) {
      AuthoritiesExact(d, ix, m, rows);
      ClassifyExact(d, profile);
      var authorities := set x | x in rows :: x.residual;
      if authorities != {Some(profile)} {
        return None;
      }
      var classification := Classify(d.rules, profile);
      if classification.None? {
        return None;
      }
      r := Some(Mechanism(classification.value, measurements, m, Some(profile)));
    } else {
      r := Some(Mechanism(INCOMPLETE, measurements, m, None));
    }
  }

  /** The verifier's row of one mechanism. */
  method VerifierMechanism(d: Domain, ix: Index, m: Name) returns (r: Option<Mechanism>)
    requires d.Valid() && ix.Keys == ExpectedKeys(d) && m in d.mechanisms && Keyed(ix)
    ensures r.Some? <==> (AllComplete(ix, m) ==> Classified(d, ix, m))
    ensures r.Some? ==> IsMechanism(d, ix, m, r.value)
  {
    hide AllComplete, ExpectedKeys, Classify, RuleTable;
    EveryCompleteExact(d, ix, m);
    var rows := MeasurementRows(ix, m, d.architectures);
    var classification, authority := INCOMPLETE, None;
    if EveryComplete(d, ix, m) {
      var residual := d.profiles[m];
      AuthoritiesExact(d, ix, m, rows);
      ClassifyExact(d, residual);
      if (set x | x in rows :: x.residual) != {Some(residual)} || residual !in RuleTable(d.rules) {
        return None;
      }
      classification, authority := RuleTable(d.rules)[residual], Some(residual);
    }
    r := Some(Mechanism(classification, seq(|rows|, i requires 0 <= i < |rows| => MeasuredOf(rows[i])), m, authority));
  }

  function Inputs(ix: Index, keys: seq<Key>): (r: seq<Input>)
    requires forall key :: key in keys ==> key in ix
    ensures |r| == |keys| && forall i :: 0 <= i < |keys| ==> keys[i] in ix && r[i] == InputOf(ix[keys[i]])
  {
    seq(|keys|, i requires 0 <= i < |keys| => InputOf(ix[keys[i]]))
  }

  lemma {:induction false} InputsExact(d: Domain, ix: Index)
    requires ix.Keys == ExpectedKeys(d) && Keyed(ix)
    ensures forall key :: key in ProductKeys(d.slices, d.mechanisms, d.architectures) ==> key in ix
    ensures IsInputs(d, ix, Inputs(ix, ProductKeys(d.slices, d.mechanisms, d.architectures)))
  {
    hide ProductKeys, Place, Cells;
    ProductExpected(d, ix);
    var keys := ProductKeys(d.slices, d.mechanisms, d.architectures);
    var inputs := Inputs(ix, keys);
    ProductKeysExact(d.slices, d.mechanisms, d.architectures, 0, 0, 0);
    forall i, j, k | 0 <= i < |d.slices| && 0 <= j < |d.mechanisms| && 0 <= k < |d.architectures|
      ensures IsInput(ix, inputs, Place(i, j, k, |d.mechanisms|, |d.architectures|), d.slices[i], d.mechanisms[j], d.architectures[k])
    {
      ProductKeysExact(d.slices, d.mechanisms, d.architectures, i, j, k);
      var at := Place(i, j, k, |d.mechanisms|, |d.architectures|);
      assert keys[at] in keys;
    }
  }

  lemma {:induction false} ProductExpected(d: Domain, ix: Index)
    requires ix.Keys == ExpectedKeys(d)
    ensures forall key :: key in ProductKeys(d.slices, d.mechanisms, d.architectures) ==> key in ix
  {
    hide ProductKeys, Place, Cells;
    var keys := ProductKeys(d.slices, d.mechanisms, d.architectures);
    ProductKeysExact(d.slices, d.mechanisms, d.architectures, 0, 0, 0);
    forall n | 0 <= n < |keys| ensures keys[n] in ix {
      var i, j, k := PlaceOnto(n, |d.slices|, |d.mechanisms|, |d.architectures|);
      ProductKeysExact(d.slices, d.mechanisms, d.architectures, i, j, k);
      assert IsExpected(d, keys[n]);
    }
  }

  lemma {:induction false} SomeKeys(d: Domain, ix: Index, xs: seq<Slice>)
    requires d.Valid() && ix.Keys == ExpectedKeys(d) && Holds(ix, xs)
    ensures xs != [] && exists key :: key in ix && key.slice == MEASUREMENT
  {
    var key := Key(MEASUREMENT, d.mechanisms[0], d.architectures[0]);
    assert IsExpected(d, key);
    assert key in ix && ix[key] in xs;
  }

  lemma {:induction false} CompleteList(ix: Index, xs: seq<Slice>)
    requires Holds(ix, xs)
    ensures (forall x :: x in xs ==> x.complete) <==> forall key :: key in ix ==> ix[key].complete
  {
    if forall key :: key in ix ==> ix[key].complete {
      forall x | x in xs ensures x.complete {
        assert KeyOf(x) in ix;
      }
    }
  }

  lemma {:induction false} MatrixChosen(ix: Index, xs: seq<Slice>, matrix: Name)
    requires Holds(ix, xs) && OneMatrix(ix) && matrix in set x | x in xs :: x.matrixSha
    ensures forall key :: key in ix ==> ix[key].matrixSha == matrix
  {
    var x :| x in xs && x.matrixSha == matrix;
    assert KeyOf(x) in ix && ix[KeyOf(x)] == x;
  }

  /** The checks both sides make on the list before they look at mechanisms. */
  method CheckInventory(d: Domain, ix: Index, xs: seq<Slice>) returns (r: Option<Name>)
    requires d.Valid() && Holds(ix, xs) && ix.Keys == ExpectedKeys(d)
    ensures r.Some? <==> OneMatrix(ix) && MeasurementsShare(d, ix)
    ensures r.Some? ==> forall key :: key in ix ==> ix[key].matrixSha == r.value
  {
    hide OneMatrix, MeasurementsShare, Holds, ExpectedKeys;
    SomeKeys(d, ix, xs);
    MatricesExact(ix, xs);
    IdentitiesExact(d, ix, xs);
    var matrices := set x | x in xs :: x.matrixSha;
    if |matrices| != 1 {
      return None;
    }
    if (set x | x in xs && x.slice == MEASUREMENT :: x.measurementSha) != {Some(d.measurementSha)} {
      return None;
    }
    var matrix :| matrix in matrices;
    MatrixChosen(ix, xs, matrix);
    r := Some(matrix);
  }

  /** `compare_verified_results`; nothing where it raises. */
  method CompareVerifiedResults(d: Domain, xs: seq<Slice>) returns (r: Option<Document>)
    requires d.Valid()
    ensures Derives(d, xs, r)
  {
    hide Indexed, OneMatrix, MeasurementsShare, OneSource, AllComplete, Classified, IsMechanism, IsSource, Holds,
        IsInputs, ProductKeys, ExpectedKeys, Keyed;
    IndexedExact(xs);
    var index := FillIndex(xs);
    if index.None? || index.value.Keys != ExpectedKeys(d) {
      return None;
    }
    var ix := index.value;
    HoldsKeyed(ix, xs);
    var matrix := CheckInventory(d, ix, xs);
    if matrix.None? {
      return None;
    }
    var sources := SliceSources(d, ix, xs);
    if sources.None? {
      return None;
    }
    var mechanisms: seq<Mechanism> := [];
    for n := 0 to |d.mechanisms|
      invariant |mechanisms| == n
      invariant forall i :: 0 <= i < n ==> IsMechanism(d, ix, d.mechanisms[i], mechanisms[i])
      invariant forall i :: 0 <= i < n ==> (AllComplete(ix, d.mechanisms[i]) ==> Classified(d, ix, d.mechanisms[i]))
    {
      var row := ProducerMechanism(d, ix, d.mechanisms[n]);
      if row.None? {
        return None;
      }
      mechanisms := mechanisms + [row.value];
    }
    CompleteList(ix, xs);
    var complete := forall x :: x in xs ==> x.complete;
    InputsExact(d, ix);
    var inputs := Inputs(ix, ProductKeys(d.slices, d.mechanisms, d.architectures));
    r := Some(Document(d.sha, complete, if complete then READY else NOT_READY, matrix.value, inputs,
                       d.measurementSha, mechanisms, sources.value));
  }

  /** `derive_expected`; nothing where it raises. */
  method DeriveExpected(d: Domain, xs: seq<Slice>) returns (r: Option<Document>)
    requires d.Valid()
    ensures Derives(d, xs, r)
  {
    hide Indexed, OneMatrix, MeasurementsShare, OneSource, AllComplete, Classified, IsMechanism, IsSource, Holds,
        IsInputs, ProductKeys, ExpectedKeys, Keyed;
    IndexedExact(xs);
    var index := FillIndex(xs);
    if index.None? || index.value.Keys != ExpectedKeys(d) {
      return None;
    }
    var ix := index.value;
    HoldsKeyed(ix, xs);
    var matrix := CheckInventory(d, ix, xs);
    if matrix.None? {
      return None;
    }
    var sources := SliceSources(d, ix, xs);
    if sources.None? {
      return None;
    }
    var mechanisms: seq<Mechanism> := [];
    for n := 0 to |d.mechanisms|
      invariant |mechanisms| == n
      invariant forall i :: 0 <= i < n ==> IsMechanism(d, ix, d.mechanisms[i], mechanisms[i])
      invariant forall i :: 0 <= i < n ==> (AllComplete(ix, d.mechanisms[i]) ==> Classified(d, ix, d.mechanisms[i]))
    {
      var row := VerifierMechanism(d, ix, d.mechanisms[n]);
      if row.None? {
        return None;
      }
      mechanisms := mechanisms + [row.value];
    }
    CompleteList(ix, xs);
    var complete := forall x :: x in xs ==> x.complete;
    InputsExact(d, ix);
    r := Some(Document(d.sha, complete, if complete then READY else NOT_READY, matrix.value,
                       Inputs(ix, ProductKeys(d.slices, d.mechanisms, d.architectures)),
                       d.measurementSha, mechanisms, sources.value));
  }

  // ---- agreement ----

  lemma {:induction false} MechanismUnique(d: Domain, ix: Index, m: Name, a: Mechanism, b: Mechanism)
    requires d.Valid() && ix.Keys == ExpectedKeys(d) && m in d.mechanisms
    requires IsMechanism(d, ix, m, a) && IsMechanism(d, ix, m, b)
    ensures a == b
  {
    hide AllComplete, ExpectedKeys;
    assert a.measurements == b.measurements;
    if AllComplete(ix, m) {
      var i :| 0 <= i < |d.rules| && d.rules[i] == Rule(d.profiles[m], a.classification);
      var j :| 0 <= j < |d.rules| && d.rules[j] == Rule(d.profiles[m], b.classification);
      assert i == j;
    }
  }

  lemma {:induction false} SourceUnique(d: Domain, ix: Index, slice: Name, a: SliceSource, b: SliceSource)
    requires d.Valid() && ix.Keys == ExpectedKeys(d) && slice in d.slices
    requires IsSource(ix, slice, a) && IsSource(ix, slice, b)
    ensures a == b
  {
    var key := Key(slice, d.mechanisms[0], d.architectures[0]);
    assert IsExpected(d, key);
    assert key in ix;
  }

  lemma {:induction false} InputsUnique(d: Domain, ix: Index, a: seq<Input>, b: seq<Input>)
    requires IsInputs(d, ix, a) && IsInputs(d, ix, b)
    ensures a == b
  {
    hide Place, Cells;
    forall n | 0 <= n < |a| ensures a[n] == b[n] {
      var i, j, k := PlaceOnto(n, |d.slices|, |d.mechanisms|, |d.architectures|);
      assert IsInput(ix, a, n, d.slices[i], d.mechanisms[j], d.architectures[k]);
      assert IsInput(ix, b, n, d.slices[i], d.mechanisms[j], d.architectures[k]);
    }
  }

  lemma {:induction false} DocumentUnique(d: Domain, ix: Index, a: Document, b: Document)
    requires d.Valid() && ix.Keys == ExpectedKeys(d)
    requires IsDocument(d, ix, a) && IsDocument(d, ix, b)
    ensures a == b
  {
    hide IsMechanism, IsSource, IsInputs, ProductKeys, ExpectedKeys, AllComplete;
    InputsUnique(d, ix, a.inputs, b.inputs);
    forall i | 0 <= i < |d.mechanisms| ensures a.mechanisms[i] == b.mechanisms[i] {
      MechanismUnique(d, ix, d.mechanisms[i], a.mechanisms[i], b.mechanisms[i]);
    }
    forall i | 0 <= i < |d.slices| ensures a.sliceSources[i] == b.sliceSources[i] {
      SourceUnique(d, ix, d.slices[i], a.sliceSources[i], b.sliceSources[i]);
    }
    var key := Key(MEASUREMENT, d.mechanisms[0], d.architectures[0]);
    assert IsExpected(d, key);
    assert key in ix;
    assert a.matrixSha == ix[key].matrixSha == b.matrixSha;
    assert a.mechanisms == b.mechanisms;
    assert a.sliceSources == b.sliceSources;
    assert a.complete == b.complete;
  }

  /** Any two derivations over the same slices in any two orders both refuse, or give one document. */
  lemma {:induction false} DerivationsAgree(d: Domain, xs: seq<Slice>, ys: seq<Slice>, a: Option<Document>,
      b: Option<Document>)
    requires d.Valid() && multiset(xs) == multiset(ys) && Derives(d, xs, a) && Derives(d, ys, b)
    ensures a == b
  {
    hide Comparable, IsDocument, Indexed;
    IndexPermutes(xs, ys);
    if a.Some? {
      ComparableKeys(d, Indexed(xs).value);
      DocumentUnique(d, Indexed(xs).value, a.value, b.value);
    }
  }

  lemma {:induction false} ComparableKeys(d: Domain, ix: Index)
    requires d.Valid() && Comparable(d, ix)
    ensures ix.Keys == ExpectedKeys(d)
  {
  }

  /** The verifier's check of the producer's document, whichever order either side read the slices in. */
  method Recheck(d: Domain, xs: seq<Slice>, ys: seq<Slice>) returns (produced: Option<Document>,
      expected: Option<Document>)
    requires d.Valid() && multiset(xs) == multiset(ys)
    ensures produced == expected
    ensures produced.Some? <==> Indexed(xs).Some? && Comparable(d, Indexed(xs).value)
  {
    hide Comparable, IsDocument, Indexed;
    produced := CompareVerifiedResults(d, xs);
    expected := DeriveExpected(d, ys);
    DerivationsAgree(d, xs, ys, produced, expected);
  }

  /** A comparison is complete exactly when no mechanism is classified as an incomplete experiment. */
  lemma {:induction false} CompleteExact(d: Domain, xs: seq<Slice>, r: Option<Document>)
    requires d.Valid() && Derives(d, xs, r) && r.Some?
    ensures r.value.complete <==> forall i :: 0 <= i < |r.value.mechanisms| ==> r.value.mechanisms[i].classification != INCOMPLETE
    ensures r.value.complete <==> r.value.conclusion == READY
  {
    hide Comparable, Indexed, IsInputs, ProductKeys, IsSource, ExpectedKeys, AllComplete, IsMechanism;
    var ix, doc := Indexed(xs).value, r.value;
    ComparableKeys(d, ix);
    forall i | 0 <= i < |d.mechanisms|
      ensures doc.mechanisms[i].classification == INCOMPLETE <==> !AllComplete(ix, d.mechanisms[i])
    {
      IncompleteRow(d, ix, d.mechanisms[i], doc.mechanisms[i]);
    }
    AllMechanisms(d, ix);
    assert READY != NOT_READY by {
      assert |READY| != |NOT_READY|;
    }
  }

  lemma {:induction false} IncompleteRow(d: Domain, ix: Index, m: Name, row: Mechanism)
    requires d.Valid() && ix.Keys == ExpectedKeys(d) && m in d.mechanisms && IsMechanism(d, ix, m, row)
    ensures row.classification == INCOMPLETE <==> !AllComplete(ix, m)
  {
    hide AllComplete, ExpectedKeys;
  }

  lemma {:induction false} AllMechanisms(d: Domain, ix: Index)
    requires d.Valid() && ix.Keys == ExpectedKeys(d)
    ensures (forall key :: key in ix ==> ix[key].complete) <==> forall i :: 0 <= i < |d.mechanisms| ==> AllComplete(ix, d.mechanisms[i])
  {
    if forall i :: 0 <= i < |d.mechanisms| ==> AllComplete(ix, d.mechanisms[i]) {
      forall key | key in ix ensures ix[key].complete {
        assert IsExpected(d, key);
        var i :| 0 <= i < |d.mechanisms| && d.mechanisms[i] == key.mechanism;
        assert AllComplete(ix, d.mechanisms[i]);
      }
    }
  }

  // ---- the registered domain ----

  const ANY_ADDRESS: seq<Name> :=
    ["direct-tcp-to-any-address-on-allowed-port", "child-controlled-resolution", "child-controlled-tls", "arbitrary-application-bytes"]
  const SELECTED_ENDPOINT: seq<Name> := ["direct-tcp-to-selected-endpoint", "child-controlled-tls", "arbitrary-application-bytes"]
  const OPERATION: seq<Name> := ["registered-operation-via-mediator"]
  const SESSION: seq<Name> := ["arbitrary-application-bytes-on-authenticated-session"]

  const AUTHORITY_RULES: seq<Rule> :=
    [ Rule(ANY_ADDRESS, "ineligible-service-identity"),
      Rule(SELECTED_ENDPOINT, "ineligible-service-identity"),
      Rule(OPERATION, "eligible-for-adr-review-with-explicit-operation-authority"),
      Rule(SESSION, "eligible-for-adr-review-with-service-session-authority") ]

  function RegisteredDomain(sha: Name, measurementSha: Name): Domain {
    Domain(sha, measurementSha,
           ["routing-transport", "resolution-indirection", "bypass-lifecycle", MEASUREMENT],
           ["landlock-port", "cgroup-endpoint", "explicit-broker", "preconnected-channel"],
           ["x86_64", "aarch64"],
           map["landlock-port" := ANY_ADDRESS, "cgroup-endpoint" := SELECTED_ENDPOINT,
               "explicit-broker" := OPERATION, "preconnected-channel" := SESSION],
           AUTHORITY_RULES)
  }

  /** The registered rules are unambiguous, none of them means incomplete, and every profile has one. */
  lemma {:induction false} RegisteredDomainValid(sha: Name, measurementSha: Name)
    ensures var d := RegisteredDomain(sha, measurementSha);
            d.Valid() && forall m :: m in d.profiles ==> Classify(d.rules, d.profiles[m]).Some?
  {
    var d := RegisteredDomain(sha, measurementSha);
    assert |OPERATION[0]| != |SESSION[0]|;
    assert |INCOMPLETE| == 21 && |AUTHORITY_RULES[0].classification| == 27;
    assert |AUTHORITY_RULES[2].classification| == 57 && |AUTHORITY_RULES[3].classification| == 54;
    assert d.slices[3] == MEASUREMENT;
    forall m | m in d.profiles ensures Classify(d.rules, d.profiles[m]).Some? {
      hide Classify;
      assert exists i :: 0 <= i < |d.rules| && d.rules[i].residual == d.profiles[m] by {
        assert d.rules[0].residual == ANY_ADDRESS && d.rules[1].residual == SELECTED_ENDPOINT;
        assert d.rules[2].residual == OPERATION && d.rules[3].residual == SESSION;
      }
      ClassifyExact(d, d.profiles[m]);
    }
  }
}
