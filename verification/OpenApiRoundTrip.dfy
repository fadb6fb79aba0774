/** When reading a printed document gives the document back. */
module OpenApiRoundTrip {
  import opened Text
  import opened Ordering
  import opened Distinctness
  import opened OpenApiReader
  import opened ParameterLists
  import opened OpenApiProperties
  import opened OpenApiPrinting

  // ---------- One operation ----------

  lemma {:induction false} FoldOfSame(base: seq<Parameter>, a: seq<Slot>, b: seq<Slot>)
    requires |a| == |b| && forall i :: 0 <= i < |a| ==> a[i].p == b[i].p
    ensures Fold(base, a, true) == Fold(base, b, true)
    decreases |a|
  {
    if a != [] {
      FoldOfSame(base, a[..|a| - 1], b[..|b| - 1]);
    }
  }

  lemma {:induction false} FoldOfDeclared(base: seq<Parameter>, slots: seq<Slot>)
    requires forall i :: 0 <= i < |slots| ==> Declared(base, slots[i].p)
    ensures Fold(base, slots, true) == base
  {
    if slots != [] {
      FoldOfDeclared(base, slots[..|slots| - 1]);
    }
  }

  lemma AllInSlots(slots: seq<Slot>, i: nat)
    requires i < |slots|
    ensures InSlots(slots, slots[i].p, true)
  {
    assert Counts(slots[i], true);
  }

  /** With nothing skipped, an operation's declarations say what the document says. */
  lemma WrittenIsFold(p: PathDoc, k: nat)
    requires PrintablePath(p) && k < |p.operations|
    ensures Written(p, k).parameters == Fold([], ReadSlots(p, k), true)
  {
    var shared, own := Slots(p.parameters, Everything), Slots(p.operations[k].parameters, Everything);
    if p.after == 0 {
      FoldOfSame([], shared, Slots(p.parameters, InlineOnly));
      FoldConcat([], Slots(p.parameters, InlineOnly), own, true);
    } else {
      var slots := Slots(p.parameters, Nothing) + own;
      FoldOfSame([], shared, Slots(p.parameters, Nothing));
      FoldConcat([], Slots(p.parameters, Nothing), own, true);
      if k == p.after - 1 {
        RepetitionAddsNothing(slots, shared);
      } else {
        assert slots + [] == slots;
      }
    }
  }

  lemma {:induction false} RepetitionAddsNothing(slots: seq<Slot>, again: seq<Slot>)
    requires |again| <= |slots| && forall i :: 0 <= i < |again| ==> again[i].p == slots[i].p
    ensures Fold([], slots + again, true) == Fold([], slots, true)
  {
    FoldConcat([], slots, again, true);
    forall i | 0 <= i < |again| ensures Declared(Fold([], slots, true), again[i].p) {
      AllInSlots(slots, i);
      FoldDeclares(slots, true, slots[i].p);
    }
    FoldOfDeclared(Fold([], slots, true), again);
  }

  /**
   An operation is read as it is written exactly if every declaration of its path
   that it is read without, and that is the first of its key, is repeated among
   those it is read with, word for word and in its place.
   */
  lemma ReadAsWrittenIff(p: PathDoc, k: nat)
    requires PrintablePath(p) && k < |p.operations|
    ensures Read(p, k) == Written(p, k) <==> Covered(ReadSlots(p, k))
  {
    WrittenIsFold(p, k);
    SkippingLosesNothingIff(ReadSlots(p, k));
  }

  predicate DistinctSlots(slots: seq<Slot>) {
    forall i, j :: 0 <= i < j < |slots| ==> !SameKey(slots[i].p, slots[j].p)
  }

  /** For parameters written first and pairwise different keys: exactly if the path refers to none of its parameters. */
  lemma WithoutReferencesIff(p: PathDoc, k: nat)
    requires PrintablePath(p) && k < |p.operations| && p.after == 0 && DistinctSlots(ReadSlots(p, k))
    ensures Read(p, k) == Written(p, k) <==> forall i :: 0 <= i < |p.parameters| ==> !IsReference(p.parameters[i])
  {
    var shared, slots := Slots(p.parameters, InlineOnly), ReadSlots(p, k);
    ReadAsWrittenIff(p, k);
    CoveredDistinctIff(slots);
    assert forall i :: 0 <= i < |shared| ==> slots[i] == shared[i];
    assert forall i :: |shared| <= i < |slots| ==> !slots[i].skipped;
  }

  /** For parameters written behind another operation: exactly if there are none. */
  lemma LateIsLostIff(p: PathDoc, k: nat)
    requires PrintablePath(p) && k < |p.operations| && p.after > 0 && k != p.after - 1 && DistinctSlots(ReadSlots(p, k))
    ensures Read(p, k) == Written(p, k) <==> p.parameters == []
  {
    var shared, slots := Slots(p.parameters, Nothing), ReadSlots(p, k);
    ReadAsWrittenIff(p, k);
    CoveredDistinctIff(slots);
    assert forall i :: 0 <= i < |shared| ==> slots[i] == shared[i];
    assert forall i :: |shared| <= i < |slots| ==> !slots[i].skipped;
  }

  // ---------- All operations ----------

  ghost predicate PathCovered(p: PathDoc)
    requires PrintablePath(p)
  {
    forall k :: 0 <= k < |p.operations| ==> Covered(ReadSlots(p, k))
  }

  ghost predicate AllCovered(ps: seq<PathDoc>)
    requires PrintablePaths(ps)
  {
    forall i :: 0 <= i < |ps| ==> PrintablePath(ps[i]) && PathCovered(ps[i])
  }

  lemma PathAgreesIff(p: PathDoc)
    requires PrintablePath(p)
    ensures PathOperations(p, false) == PathOperations(p, true) <==> PathCovered(p)
  {
    var read, written := PathOperations(p, false), PathOperations(p, true);
    forall k | 0 <= k < |p.operations| ensures read[k] == written[k] <==> Covered(ReadSlots(p, k)) {
      ReadAsWrittenIff(p, k);
    }
  }

  lemma {:induction false} OperationsAgreeIff(ps: seq<PathDoc>)
    requires PrintablePaths(ps)
    ensures |Operations(ps, false)| == |Operations(ps, true)|
    ensures Operations(ps, false) == Operations(ps, true) <==> AllCovered(ps)
  {
    if ps != [] {
      var front, last := ps[..|ps| - 1], ps[|ps| - 1];
      OperationsAgreeIff(front);
      PathAgreesIff(last);
      ConcatEqual(Operations(front, false), PathOperations(last, false), Operations(front, true), PathOperations(last, true));
      AllCoveredSplit(ps);
    }
  }

  lemma AllCoveredSplit(ps: seq<PathDoc>)
    requires ps != [] && PrintablePaths(ps)
    ensures PrintablePath(ps[|ps| - 1]) && PrintablePaths(ps[..|ps| - 1])
    ensures AllCovered(ps) <==> AllCovered(ps[..|ps| - 1]) && PathCovered(ps[|ps| - 1])
  {
    assert forall i :: 0 <= i < |ps| - 1 ==> ps[i] == ps[..|ps| - 1][i];
  }

  lemma ConcatEqual<T>(a: seq<T>, b: seq<T>, c: seq<T>, d: seq<T>)
    requires |a| == |c|
    ensures a + b == c + d <==> a == c && b == d
  {
    if a + b == c + d {
      assert (a + b)[..|a|] == a && (c + d)[..|c|] == c;
      assert (a + b)[|a|..] == b && (c + d)[|c|..] == d;
    }
  }

  // ---------- The closing checks ----------

  predicate NameInPath(path: string, p: Parameter) { p.location == Path ==> Contains(path, "{" + p.name + "}") }

  lemma {:induction false} InPathFold(op: Operation, slots: seq<Slot>, all: bool)
    requires op.parameters == Fold([], slots, all)
    ensures InPath(op) <==> forall i :: 0 <= i < |slots| && Counts(slots[i], all) ==> NameInPath(op.path, slots[i].p)
  {
    if InPath(op) {
      forall i | 0 <= i < |slots| && Counts(slots[i], all) ensures NameInPath(op.path, slots[i].p) {
        assert InSlots(slots, slots[i].p, all);
        FoldDeclares(slots, all, slots[i].p);
      }
    }
    if forall i :: 0 <= i < |slots| && Counts(slots[i], all) ==> NameInPath(op.path, slots[i].p) {
      forall m | 0 <= m < |op.parameters| ensures NameInPath(op.path, op.parameters[m]) {
        var r := FoldOrigin(slots, all, m);
      }
    }
  }

  ghost predicate PathsNamed(p: PathDoc, written: bool)
    requires PrintablePath(p)
  {
    forall k :: 0 <= k < |p.operations| ==> InPath(PathOperations(p, written)[k])
  }

  lemma WrittenNamedIff(p: PathDoc, k: nat)
    requires PrintablePath(p) && k < |p.operations|
    ensures InPath(Written(p, k)) <==> forall i :: 0 <= i < |ReadSlots(p, k)| ==> NameInPath(p.path, ReadSlots(p, k)[i].p)
  {
    WrittenIsFold(p, k);
    InPathFold(Written(p, k), ReadSlots(p, k), true);
  }

  lemma ReadNamedIff(p: PathDoc, k: nat)
    requires PrintablePath(p) && k < |p.operations|
    ensures InPath(Read(p, k)) <==>
              forall i :: 0 <= i < |ReadSlots(p, k)| && !ReadSlots(p, k)[i].skipped ==> NameInPath(p.path, ReadSlots(p, k)[i].p)
  {
    InPathFold(Read(p, k), ReadSlots(p, k), false);
  }

  lemma ReferencesAreNamed(p: PathDoc, i: nat)
    requires PrintablePath(p) && i < |p.parameters| && IsReference(p.parameters[i])
    ensures NameInPath(p.path, Meaning(p.parameters[i]))
  {
  }

  /** The path's own parameters, if all its operations pass as they are read. */
  lemma SharedNamed(p: PathDoc, k: nat, i: nat)
    requires PrintablePath(p) && k < |p.operations| && PathsNamed(p, false) && i < |p.parameters|
    ensures NameInPath(p.path, Meaning(p.parameters[i]))
  {
    var reader := if p.after == 0 then k else p.after - 1;
    var slots := ReadSlots(p, reader);
    assert InPath(PathOperations(p, false)[reader]);
    ReadNamedIff(p, reader);
    if p.after == 0 {
      assert slots[i] == Slots(p.parameters, InlineOnly)[i];
      if IsReference(p.parameters[i]) {
        ReferencesAreNamed(p, i);
      }
    } else {
      assert slots[|slots| - |p.parameters| + i] == Slots(p.parameters, Everything)[i];
    }
  }

  /** The checks against the path pass on the operations as read exactly if they do as written. */
  lemma PathsNamedIff(p: PathDoc)
    requires PrintablePath(p)
    ensures PathsNamed(p, false) <==> PathsNamed(p, true)
  {
    if PathsNamed(p, true) {
      forall k | 0 <= k < |p.operations| ensures InPath(PathOperations(p, false)[k]) {
        assert InPath(PathOperations(p, true)[k]);
        WrittenNamedIff(p, k);
        ReadNamedIff(p, k);
      }
    }
    if PathsNamed(p, false) {
      forall k | 0 <= k < |p.operations| ensures InPath(PathOperations(p, true)[k]) {
        ReadIsNamedAsWritten(p, k);
      }
    }
  }

  lemma ReadIsNamedAsWritten(p: PathDoc, k: nat)
    requires PrintablePath(p) && k < |p.operations| && PathsNamed(p, false)
    ensures InPath(Written(p, k))
  {
    var slots := ReadSlots(p, k);
    assert InPath(PathOperations(p, false)[k]);
    ReadNamedIff(p, k);
    WrittenNamedIff(p, k);
    forall i | 0 <= i < |slots| ensures NameInPath(p.path, slots[i].p) {
      if slots[i].skipped {
        assert i < |p.parameters| && slots[i].p == Meaning(p.parameters[i]);
        SharedNamed(p, k, i);
      }
    }
  }

  ghost predicate AllNamed(ps: seq<PathDoc>, written: bool)
    requires PrintablePaths(ps)
  {
    forall i :: 0 <= i < |Operations(ps, written)| ==> InPath(Operations(ps, written)[i])
  }

  lemma {:induction false} AllNamedIff(ps: seq<PathDoc>)
    requires PrintablePaths(ps)
    ensures AllNamed(ps, false) <==> AllNamed(ps, true)
  {
    if ps != [] {
      AllNamedIff(ps[..|ps| - 1]);
      PathsNamedIff(ps[|ps| - 1]);
      AllNamedSplit(ps, false);
      AllNamedSplit(ps, true);
    }
  }

  lemma AllNamedSplit(ps: seq<PathDoc>, written: bool)
    requires PrintablePaths(ps) && ps != []
    ensures PrintablePath(ps[|ps| - 1]) && PrintablePaths(ps[..|ps| - 1])
    ensures AllNamed(ps, written) <==> AllNamed(ps[..|ps| - 1], written) && PathsNamed(ps[|ps| - 1], written)
  {
    var front, last := Operations(ps[..|ps| - 1], written), PathOperations(ps[|ps| - 1], written);
    assert Operations(ps, written) == front + last;
    assert forall i :: 0 <= i < |front| ==> (front + last)[i] == front[i];
    assert forall k :: 0 <= k < |last| ==> (front + last)[|front| + k] == last[k];
  }

  lemma {:induction false} SameIDs(ps: seq<PathDoc>)
    requires PrintablePaths(ps)
    ensures |Operations(ps, false)| == |Operations(ps, true)|
    ensures forall i :: 0 <= i < |Operations(ps, true)| ==> Operations(ps, false)[i].id == Operations(ps, true)[i].id
  {
    if ps != [] {
      SameIDs(ps[..|ps| - 1]);
    }
  }

  // ---------- The document ----------

  /** A header, at least one operation, different ids, and path parameters that occur in the path: of the operations as written. */
  ghost predicate Acceptable(d: Doc)
    requires Printable(d)
  {
    var ops := Operations(d.paths, true);
    && d.openAPI != "" && d.version != "" && d.server != "" && ops != []
    && NoRepeats(IDs(ops)) && AllNamed(d.paths, true)
  }

  /** A printed document is accepted exactly if it deserves it, although what is read may differ from it. */
  lemma AcceptedIff(d: Doc)
    requires Printable(d)
    ensures Parse(Print(d)).Ok? <==> Acceptable(d)
  {
    var read, written := Operations(d.paths, false), Operations(d.paths, true);
    PrintedIsRead(d);
    CheckPassesIff(read, {});
    SameIDs(d.paths);
    assert IDs(read) == IDs(written);
    AllNamedIff(d.paths);
  }

  lemma SameByID(a: seq<Operation>, b: seq<Operation>, i: nat)
    requires |a| == |b| && (forall k :: 0 <= k < |a| ==> a[k].id == b[k].id) && i < |a|
    requires (forall k :: 0 <= k < |a| && k != i ==> a[k].id != a[i].id) && a[i] in b
    ensures a[i] == b[i]
  {
    var j :| 0 <= j < |b| && b[j] == a[i];
    assert a[j].id == a[i].id;
  }

  /** Sorting operations with different ids forgets nothing but their order. */
  lemma {:induction false} SortKeepsApart(a: seq<Operation>, b: seq<Operation>)
    requires |a| == |b| && (forall i :: 0 <= i < |a| ==> a[i].id == b[i].id) && NoRepeats(IDs(a))
    requires Sort(ByID, a) == Sort(ByID, b)
    ensures a == b
  {
    var ms := multiset(Sort(ByID, a));
    assert ms == multiset(a) && ms == multiset(b);
    forall i | 0 <= i < |a| ensures a[i] == b[i] {
      assert a[i] in ms;
      forall k | 0 <= k < |a| && k != i ensures a[k].id != a[i].id {
        assert IDs(a)[k] == a[k].id && IDs(a)[i] == a[i].id;
      }
      SameByID(a, b, i);
    }
  }

  /** What the reader should return for a document. */
  ghost function Intended(d: Doc): Spec
    requires Printable(d)
  {
    Spec(d.openAPI, d.version, d.server, Sort(ByID, Operations(d.paths, true)))
  }

  lemma {:induction false} JudgedAsIff(openAPI: string, version: string, server: string, read: seq<Operation>, written: seq<Operation>)
    requires |read| == |written| && forall i :: 0 <= i < |read| ==> read[i].id == written[i].id
    ensures Judge(openAPI, version, server, read) == Ok(Spec(openAPI, version, server, Sort(ByID, written)))
       <==> Judge(openAPI, version, server, read).Ok? && read == written
  {
    if Judge(openAPI, version, server, read) == Ok(Spec(openAPI, version, server, Sort(ByID, written))) {
      CheckPassesIff(read, {});
      SortKeepsApart(read, written);
    }
  }

  /**
   Reading undoes printing: a printed document is read back as its own operations,
   sorted, exactly if it is acceptable and none of its operations is read without
   a parameter of its path.
   */
  lemma ReadingUndoesPrintingIff(d: Doc)
    requires Printable(d)
    ensures Parse(Print(d)) == Ok(Intended(d)) <==> Acceptable(d) && AllCovered(d.paths)
  {
    PrintedIsRead(d);
    AcceptedIff(d);
    OperationsAgreeIff(d.paths);
    SameIDs(d.paths);
    JudgedAsIff(d.openAPI, d.version, d.server, Operations(d.paths, false), Operations(d.paths, true));
  }

  /** And then a document that is not acceptable is refused for what is wrong with its own operations. */
  lemma RefusedAsWritten(d: Doc)
    requires Printable(d) && AllCovered(d.paths)
    ensures Parse(Print(d)) == Judge(d.openAPI, d.version, d.server, Operations(d.paths, true))
  {
    PrintedIsRead(d);
    OperationsAgreeIff(d.paths);
  }

  // ---------- What gets lost ----------

  lemma FoldOne(p: Parameter, skipped: bool)
    ensures Fold([], [Slot(p, skipped)], false) == if skipped then [] else [p]
  {
    assert [Slot(p, skipped)][..0] == [];
  }

  /** An accepted document whose only operation loses the reference of its path. */
  lemma LostReferenceExample() returns (d: Doc)
    ensures Printable(d) && |d.paths| == 1 && d.paths[0].parameters == [Reference("Limit")]
    ensures Parse(Print(d)).Ok? && Operation("GET", "/a", "a", [], false) in Parse(Print(d)).value.operations
  {
    var p := PathDoc("/a", [Reference("Limit")], [OperationDoc("GET", "a", [], false)], 0);
    d := Doc("3.1.0", "1", "/", [p]);
    assert KnownReference(p.parameters[0]);
    var limit := Parameter("limit", Query, TInteger, false);
    assert Slots(p.parameters, InlineOnly) + [] == Slots(p.parameters, InlineOnly);
    assert Slots(p.parameters, InlineOnly) == [Slot(limit, true)] && Slots([], Everything) == [];
    FoldOne(limit, true);
    assert Read(p, 0) == Operation("GET", "/a", "a", [], false);
    OneReadOperation(d, p, Read(p, 0));
  }

  lemma {:induction false} OnePath(ps: seq<PathDoc>, p: PathDoc)
    requires PrintablePaths(ps) && ps == [p] && PrintablePath(p)
    ensures Operations(ps, false) == PathOperations(p, false)
  {
    assert ps[..0] == [] && [] + PathOperations(p, false) == PathOperations(p, false);
  }

  lemma OneReadOperation(d: Doc, p: PathDoc, op: Operation)
    requires Printable(d) && d.paths == [p] && PrintablePath(p) && |p.operations| == 1 && op == Read(p, 0)
    requires d.openAPI != "" && d.version != "" && d.server != "" && InPath(op)
    ensures Parse(Print(d)).Ok? && op in Parse(Print(d)).value.operations
  {
    PrintedIsRead(d);
    OnePath(d.paths, p);
    assert PathOperations(p, false) == [op];
    CheckPassesIff([op], {});
    assert op in multiset(Sort(ByID, [op]));
  }

  /** An accepted document in which the parameter of a path, written behind its first operation, is lost for the second. */
  lemma LateParametersExample() returns (d: Doc)
    ensures Printable(d) && |d.paths| == 1 && d.paths[0].parameters == [Inline(Parameter("q", Query, TString, true), false)]
    ensures Parse(Print(d)).Ok? && Operation("PUT", "/a", "b", [], false) in Parse(Print(d)).value.operations
  {
    var q := Parameter("q", Query, TString, true);
    var p := PathDoc("/a", [Inline(q, false)], [OperationDoc("GET", "a", [], false), OperationDoc("PUT", "b", [], false)], 1);
    d := Doc("3.1.0", "1", "/", [p]);
    assert KnownReference(p.parameters[0]);
    var lost := Slots(p.parameters, Nothing);
    assert lost == [Slot(q, true)] && Slots([], Everything) == [] && lost + [] + [] == lost;
    FoldOne(q, true);
    assert Read(p, 1) == Operation("PUT", "/a", "b", [], false);
    QueryOnly(p);
    TwoReadOperations(d, p);
  }

  lemma QueryOnly(p: PathDoc)
    requires PrintablePath(p) && |p.operations| == 2
    requires forall i :: 0 <= i < |p.parameters| ==> Meaning(p.parameters[i]).location == Query
    requires p.operations[0].parameters == [] && p.operations[1].parameters == []
    ensures InPath(Read(p, 0)) && InPath(Read(p, 1))
  {
    ReadNamedIff(p, 0);
    ReadNamedIff(p, 1);
  }

  lemma TwoReadOperations(d: Doc, p: PathDoc)
    requires Printable(d) && d.paths == [p] && PrintablePath(p) && |p.operations| == 2
    requires d.openAPI != "" && d.version != "" && d.server != "" && InPath(Read(p, 0)) && InPath(Read(p, 1))
    requires p.operations[0].id != p.operations[1].id
    ensures Parse(Print(d)).Ok? && Read(p, 1) in Parse(Print(d)).value.operations
  {
    PrintedIsRead(d);
    OnePath(d.paths, p);
    assert PathOperations(p, false) == [Read(p, 0), Read(p, 1)];
    JudgedTwo(d.openAPI, d.version, d.server, Read(p, 0), Read(p, 1));
  }

  lemma JudgedTwo(openAPI: string, version: string, server: string, a: Operation, b: Operation)
    requires openAPI != "" && version != "" && server != "" && InPath(a) && InPath(b) && a.id != b.id
    ensures Judge(openAPI, version, server, [a, b]).Ok? && b in Judge(openAPI, version, server, [a, b]).value.operations
  {
    CheckPassesIff([a, b], {});
    assert [a, b][1] in multiset(Sort(ByID, [a, b]));
  }

  // ---------- Overriding ----------

  lemma {:induction false} FoldOnDeclares(base: seq<Parameter>, slots: seq<Slot>, q: Parameter)
    ensures Declared(Fold(base, slots, true), q) <==> Declared(base, q) || Declared(Fold([], slots, true), q)
  {
    if slots != [] {
      var front, last := slots[..|slots| - 1], slots[|slots| - 1].p;
      FoldOnDeclares(base, front, q);
      DeclaredAfterAdding(Fold(base, front, true), last, q);
      DeclaredAfterAdding(Fold([], front, true), last, q);
    }
  }

  lemma {:induction false} FoldOnMembers(base: seq<Parameter>, slots: seq<Slot>, x: Parameter)
    ensures x in Fold(base, slots, true) <==> x in base || (x in Fold([], slots, true) && !Declared(base, x))
  {
    if slots != [] {
      var front, last := slots[..|slots| - 1], slots[|slots| - 1].p;
      FoldOnMembers(base, front, x);
      FoldOnDeclares(base, front, last);
    }
  }

  /** The path's parameters and the operation's own, each merged by itself. */
  ghost function Shared(p: PathDoc): seq<Parameter>
    requires PrintablePath(p)
  {
    Fold([], Slots(p.parameters, Everything), true)
  }

  ghost function OwnParameters(p: PathDoc, k: nat): seq<Parameter>
    requires PrintablePath(p) && k < |p.operations|
  {
    Fold([], Slots(p.operations[k].parameters, Everything), true)
  }

  /** The parameters of an operation if its own override those of its path, as the OpenAPI Specification has it. */
  ghost function Overridden(p: PathDoc, k: nat): set<Parameter>
    requires PrintablePath(p) && k < |p.operations|
  {
    Elements(OwnParameters(p, k)) + set x | x in Shared(p) && !Declared(OwnParameters(p, k), x)
  }

  /** Here the path's come first: that makes no difference exactly if an operation repeats them unchanged. */
  lemma OverridingMakesNoDifferenceIff(p: PathDoc, k: nat)
    requires PrintablePath(p) && k < |p.operations|
    ensures Elements(Written(p, k).parameters) == Overridden(p, k)
       <==> forall a, b :: a in Shared(p) && b in OwnParameters(p, k) && SameKey(a, b) ==> a == b
  {
    var shared, own, all := Shared(p), OwnParameters(p, k), Written(p, k).parameters;
    forall x ensures x in all <==> x in shared || (x in own && !Declared(shared, x)) {
      FoldOnMembers(shared, Slots(p.operations[k].parameters, Everything), x);
    }
    FoldDistinct(Slots(p.parameters, Everything), true);
    MergedBothWaysIff(shared, own, Elements(all));
  }

  lemma MergedBothWaysIff(shared: seq<Parameter>, own: seq<Parameter>, all: set<Parameter>)
    requires DistinctKeys(shared) && forall x :: x in all <==> x in shared || (x in own && !Declared(shared, x))
    ensures all == Elements(own) + (set x | x in shared && !Declared(own, x))
       <==> forall a, b :: a in shared && b in own && SameKey(a, b) ==> a == b
  {
    var other := Elements(own) + set x | x in shared && !Declared(own, x);
    if all == other {
      forall a, b | a in shared && b in own && SameKey(a, b) ensures a == b {
        SharedTwice(shared, a, b);
        assert b in other;
      }
    }
    if forall a, b :: a in shared && b in own && SameKey(a, b) ==> a == b {
      forall x ensures x in all <==> x in other {
        if x in shared && Declared(own, x) {
          var i :| 0 <= i < |own| && SameKey(own[i], x);
          assert own[i] in own;
        }
        if x in own && Declared(shared, x) {
          var i :| 0 <= i < |shared| && SameKey(shared[i], x);
          assert shared[i] in shared;
        }
      }
    }
  }

  lemma SharedTwice(shared: seq<Parameter>, a: Parameter, b: Parameter)
    requires DistinctKeys(shared) && a in shared && SameKey(a, b)
    ensures Declared(shared, b) && (b in shared ==> a == b)
  {
    var i :| 0 <= i < |shared| && shared[i] == a;
    assert SameKey(shared[i], b);
    if b in shared {
      var j :| 0 <= j < |shared| && shared[j] == b;
    }
  }
}
