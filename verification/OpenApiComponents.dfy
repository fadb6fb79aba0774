/**
 Documents with parameters of their own under `components`: a reference means
 what the document defines it to be, but the reader goes by the three definitions
 it knows. Here the path's parameters come first, and no operation has two
 parameters of the same name and location.
 */
module OpenApiComponents {
  import opened Text
  import opened Ordering
  import opened Distinctness
  import opened OpenApiReader
  import opened ParameterLists
  import opened OpenApiProperties
  import opened OpenApiPrinting
  import opened OpenApiRoundTrip

  type Definitions = map<string, Parameter>

  // ---------- What such a document says ----------

  predicate Defined(ds: seq<Spelling>, comps: Definitions) {
    forall i :: 0 <= i < |ds| ==> IsReference(ds[i]) ==> ds[i].ref in comps
  }

  /** The same declarations without references: each is replaced by its definition. */
  function Inlined(ds: seq<Spelling>, comps: Definitions): (r: seq<Spelling>)
    requires Defined(ds, comps)
    ensures |r| == |ds| && Known(r) && NoReferences(r)
    ensures forall i :: 0 <= i < |ds| ==> Meaning(r[i]) == if IsReference(ds[i]) then comps[ds[i].ref] else Meaning(ds[i])
  {
    seq(|ds|, i requires 0 <= i < |ds| => if IsReference(ds[i]) then Inline(comps[ds[i].ref], false) else ds[i])
  }

  predicate NoReferences(ds: seq<Spelling>) { forall i :: 0 <= i < |ds| ==> !IsReference(ds[i]) }

  predicate DefinedOperations(os: seq<OperationDoc>, comps: Definitions) {
    forall k :: 0 <= k < |os| ==> os[k].id != "" && Defined(os[k].parameters, comps)
  }

  predicate DefinedPath(p: PathDoc, comps: Definitions) {
    p.path != "" && p.after == 0 && Defined(p.parameters, comps) && DefinedOperations(p.operations, comps)
  }

  function InlinedPath(p: PathDoc, comps: Definitions): (r: PathDoc)
    requires DefinedPath(p, comps)
    ensures PrintablePath(r)
  {
    p.(parameters := Inlined(p.parameters, comps),
       operations := seq(|p.operations|, k requires 0 <= k < |p.operations| =>
                           p.operations[k].(parameters := Inlined(p.operations[k].parameters, comps))))
  }

  function Parameters(ds: seq<Spelling>): (r: seq<Parameter>)
    requires Known(ds)
    ensures |r| == |ds| && forall i :: 0 <= i < |ds| ==> r[i] == Meaning(ds[i])
  {
    seq(|ds|, i requires 0 <= i < |ds| => Meaning(ds[i]))
  }

  /** The parameters that operation `k` of a path is declared to have. */
  function Declarations(p: PathDoc, k: nat, comps: Definitions): seq<Parameter>
    requires DefinedPath(p, comps) && k < |p.operations|
  {
    Parameters(Inlined(p.parameters, comps)) + Parameters(Inlined(p.operations[k].parameters, comps))
  }

  ghost predicate WellFormedPath(p: PathDoc, comps: Definitions) {
    DefinedPath(p, comps) && forall k :: 0 <= k < |p.operations| ==> DistinctKeys(Declarations(p, k, comps))
  }

  ghost predicate WellFormedPaths(ps: seq<PathDoc>, comps: Definitions) {
    Placed(ps) && forall i :: 0 <= i < |ps| ==> WellFormedPath(ps[i], comps)
  }

  ghost function InlinedPaths(ps: seq<PathDoc>, comps: Definitions): (r: seq<PathDoc>)
    requires WellFormedPaths(ps, comps)
    ensures |r| == |ps| && PrintablePaths(r)
  {
    if ps == [] then [] else InlinedPaths(ps[..|ps| - 1], comps) + [InlinedPath(ps[|ps| - 1], comps)]
  }

  /** The document without references. */
  ghost function InlinedDoc(d: Doc, comps: Definitions): (r: Doc)
    requires WellFormedPaths(d.paths, comps)
    ensures Printable(r)
  {
    d.(paths := InlinedPaths(d.paths, comps))
  }

  /** Every reference is to one of three names, and the document defines that name as the published one does. */
  predicate AsPublished(ds: seq<Spelling>, comps: Definitions) {
    forall i :: 0 <= i < |ds| ==> IsReference(ds[i]) ==>
      var name := ds[i].ref;
      && name in comps && name in COMPONENTS
      && comps[name] == COMPONENTS[name]
  }

  /** Paths with operations refer to nothing, and operations only to what the generator knows. */
  predicate SupportedPath(p: PathDoc, comps: Definitions) {
    && (p.operations != [] ==> NoReferences(p.parameters))
    && (forall k :: 0 <= k < |p.operations| ==> AsPublished(p.operations[k].parameters, comps))
  }

  predicate Supported(ps: seq<PathDoc>, comps: Definitions) { forall i :: 0 <= i < |ps| ==> SupportedPath(ps[i], comps) }

  // ---------- Lines that stop the reader ----------

  lemma {:induction false} RunAppend(s: State, a: seq<Line>, b: seq<Line>)
    ensures Run(s, a + b) == match Run(s, a) { case Err(e) => Err(e) case Ok(t) => Run(t, b) }
  {
    if Run(s, a).Ok? {
      RunConcat(s, a, b);
    } else {
      assert (a + b)[..|a|] == a;
      RunFails(s, a + b, |a|);
    }
  }

  /** Under `paths`, a reference inside an operation to any other name, and a schema but one, are refused. */
  lemma UnsupportedIsRefused(lines: seq<Line>, i: nat)
    requires i < |lines| && UnderPaths(lines, i)
    requires match lines[i]
             case RefParameterLine(ref) => !BetweenOperations(lines, i) && ref != "Limit" && ref != "Cursor" && ref != "IdempotencyKey"
             case InlineRefParameterLine(ref) => !BetweenOperations(lines, i) && ref != "Limit" && ref != "Cursor" && ref != "IdempotencyKey"
             case SchemaRefParameterLine(_, _, _, schema) => schema != "SortableID"
             case _ => false
    ensures Parse(lines).Err?
  {
    if Run(INITIAL, lines[..i]).Ok? {
      RunKeeps(lines, i);
      RunPrefix(INITIAL, lines, i);
      RunFails(INITIAL, lines, i + 1);
    } else {
      RunFails(INITIAL, lines, i);
    }
  }

  // ---------- What can be read at all ----------

  lemma {:induction false} OneMoreParameter(s: State, ds: seq<Spelling>)
    requires ds != []
    ensures Run(s, PrintParameters(ds)) == match Run(s, PrintParameters(ds[..|ds| - 1]))
                                           case Err(e) => Err(e)
                                           case Ok(t) => Step(t, PrintParameter(ds[|ds| - 1]))
  {
    assert PrintParameters(ds)[..|PrintParameters(ds)| - 1] == PrintParameters(ds[..|ds| - 1]);
  }

  lemma ParameterOk(s: State, d: Spelling)
    requires s.inPaths && s.current.Some? && Step(s, PrintParameter(d)).Ok?
    ensures KnownReference(d) && Step(s, PrintParameter(d)).value.inPaths && Step(s, PrintParameter(d)).value.current.Some?
  {
    if IsReference(d) {
      ResolvesAsDefined(d.ref);
    }
  }

  lemma {:induction false} ParametersOk(s: State, ds: seq<Spelling>)
    requires s.inPaths && s.current.Some? && Run(s, PrintParameters(ds)).Ok?
    ensures Known(ds) && Run(s, PrintParameters(ds)).value.inPaths && Run(s, PrintParameters(ds)).value.current.Some?
  {
    if ds != [] {
      var front, last := ds[..|ds| - 1], ds[|ds| - 1];
      OneMoreParameter(s, ds);
      ParametersOk(s, front);
      ParameterOk(Run(s, PrintParameters(front)).value, last);
      assert forall i :: 0 <= i < |ds| ==> ds[i] == if i < |front| then front[i] else last;
    }
  }

  lemma {:induction false} HeadOk(s: State, m: string, id: string)
    requires s.inPaths && Run(s, [MethodLine(m), OperationIDLine(id)]).Ok?
    ensures var t := Run(s, [MethodLine(m), OperationIDLine(id)]).value; t.inPaths && t.current.Some?
  {
    var head: seq<Line> := [MethodLine(m), OperationIDLine(id)];
    assert head[..1] == [MethodLine(m)];
    RunOne(s, MethodLine(m));
  }

  lemma {:induction false} RestOk(s: State, hasBody: bool)
    requires s.inPaths
    ensures Run(s, PrintRest(hasBody)).Ok? && Run(s, PrintRest(hasBody)).value.inPaths
  {
    var rest := PrintRest(hasBody);
    if hasBody {
      assert rest[..1] == [RequestBodyLine];
      RunOne(s, RequestBodyLine);
    } else {
      RunOne(s, Other);
    }
  }

  lemma {:induction false} OperationOk(s: State, o: OperationDoc)
    requires s.inPaths && Run(s, PrintOperation(o)).Ok?
    ensures Known(o.parameters) && Run(s, PrintOperation(o)).value.inPaths
  {
    var head: seq<Line> := [MethodLine(o.method_), OperationIDLine(o.id)];
    RunAppend(s, head + PrintParameters(o.parameters), PrintRest(o.hasBody));
    RunAppend(s, head, PrintParameters(o.parameters));
    HeadOk(s, o.method_, o.id);
    ParametersOk(Run(s, head).value, o.parameters);
    RestOk(Run(s, head + PrintParameters(o.parameters)).value, o.hasBody);
  }

  predicate OwnKnown(os: seq<OperationDoc>) { forall k :: 0 <= k < |os| ==> Known(os[k].parameters) }

  lemma OneMoreKnown(os: seq<OperationDoc>)
    requires os != [] && OwnKnown(os[..|os| - 1]) && Known(os[|os| - 1].parameters)
    ensures OwnKnown(os)
  {
    assert forall k :: 0 <= k < |os| - 1 ==> os[k] == os[..|os| - 1][k];
  }

  lemma {:induction false} OperationsOk(s: State, os: seq<OperationDoc>)
    requires s.inPaths && Run(s, PrintOperations(os)).Ok?
    ensures OwnKnown(os) && Run(s, PrintOperations(os)).value.inPaths
  {
    if os != [] {
      var lines, more := PrintOperations(os[..|os| - 1]), PrintOperation(os[|os| - 1]);
      assert PrintOperations(os) == lines + more;
      RunAppend(s, lines, more);
      OperationsOk(s, os[..|os| - 1]);
      OperationOk(Run(s, lines).value, os[|os| - 1]);
      OneMoreKnown(os);
    }
  }

  // ---------- References outside operations are skipped ----------

  function NonReferences(ds: seq<Spelling>): (r: seq<Spelling>)
    ensures Known(r) && NoReferences(r) && |r| <= |ds|
    ensures |r| == |ds| <==> NoReferences(ds)
    ensures NoReferences(ds) ==> r == ds
  {
    if ds == [] then []
    else
      var front, last := NonReferences(ds[..|ds| - 1]), ds[|ds| - 1];
      assert ds == ds[..|ds| - 1] + [last];
      if IsReference(last) then front else front + [last]
  }

  function Stripped(p: PathDoc): PathDoc { p.(parameters := NonReferences(p.parameters)) }

  lemma ReferenceSkipped(s: State, d: Spelling)
    requires s.inPaths && s.current.None?
    ensures IsReference(d) ==> Step(s, PrintParameter(d)) == Ok(s)
    ensures Step(s, PrintParameter(d)).Ok? ==> Step(s, PrintParameter(d)).value.inPaths && Step(s, PrintParameter(d)).value.current.None?
  {
  }

  lemma {:induction false} ReferencesSkipped(s: State, ds: seq<Spelling>)
    requires s.inPaths && s.current.None?
    ensures Run(s, PrintParameters(ds)) == Run(s, PrintParameters(NonReferences(ds)))
    ensures Run(s, PrintParameters(ds)).Ok? && Run(s, PrintParameters(ds)).value.inPaths && Run(s, PrintParameters(ds)).value.current.None?
  {
    SharedReadBack(s, NonReferences(ds));
    if ds != [] {
      var front, last := ds[..|ds| - 1], ds[|ds| - 1];
      ReferencesSkipped(s, front);
      OneMoreParameter(s, ds);
      ReferenceSkipped(Run(s, PrintParameters(front)).value, last);
      if !IsReference(last) {
        assert NonReferences(ds)[..|NonReferences(ds)| - 1] == NonReferences(front);
        OneMoreParameter(s, NonReferences(ds));
      }
    }
  }

  lemma {:induction false} OpenedPath(s: State, path: string)
    requires s.inPaths && Run(s, [PathLine(path)]).Ok?
    ensures Run(s, [PathLine(path)]).value.inPaths && Run(s, [PathLine(path)]).value.current.None?
  {
    RunOne(s, PathLine(path));
  }

  lemma {:induction false} PathRead(s: State, p: PathDoc)
    requires s.inPaths && p.after == 0
    ensures Run(s, PrintPath(p)) == Run(s, PrintPath(Stripped(p)))
    ensures Run(s, PrintPath(p)).Ok? ==> Run(s, PrintPath(p)).value.inPaths && OwnKnown(p.operations)
  {
    var opening: seq<Line> := [PathLine(p.path)];
    var q := Stripped(p);
    PrintedFirst(p);
    PrintedFirst(q);
    RunAppend(s, opening, PrintParameters(p.parameters) + PrintOperations(p.operations));
    RunAppend(s, opening, PrintParameters(q.parameters) + PrintOperations(p.operations));
    if Run(s, opening).Ok? {
      var t := Run(s, opening).value;
      OpenedPath(s, p.path);
      ReferencesSkipped(t, p.parameters);
      RunAppend(t, PrintParameters(p.parameters), PrintOperations(p.operations));
      RunAppend(t, PrintParameters(q.parameters), PrintOperations(p.operations));
      if Run(s, PrintPath(p)).Ok? {
        OperationsOk(Run(t, PrintParameters(p.parameters)).value, p.operations);
      }
    }
  }

  predicate First(ps: seq<PathDoc>) { forall i :: 0 <= i < |ps| ==> ps[i].after == 0 }

  predicate AllOwnKnown(ps: seq<PathDoc>) { forall i :: 0 <= i < |ps| ==> OwnKnown(ps[i].operations) }

  function StrippedPaths(ps: seq<PathDoc>): (r: seq<PathDoc>)
    requires First(ps)
    ensures First(r) && Placed(r)
  {
    if ps == [] then [] else StrippedPaths(ps[..|ps| - 1]) + [Stripped(ps[|ps| - 1])]
  }

  lemma {:induction false} PathsRead(s: State, ps: seq<PathDoc>)
    requires s.inPaths && First(ps)
    ensures Run(s, PrintPaths(ps)) == Run(s, PrintPaths(StrippedPaths(ps)))
    ensures Run(s, PrintPaths(ps)).Ok? ==> Run(s, PrintPaths(ps)).value.inPaths && AllOwnKnown(ps)
  {
    if ps != [] {
      var front, last := ps[..|ps| - 1], ps[|ps| - 1];
      var kept := StrippedPaths(front);
      PathsRead(s, front);
      assert StrippedPaths(ps)[..|kept|] == kept;
      RunAppend(s, PrintPaths(front), PrintPath(last));
      RunAppend(s, PrintPaths(kept), PrintPath(Stripped(last)));
      if Run(s, PrintPaths(front)).Ok? {
        PathRead(Run(s, PrintPaths(front)).value, last);
        assert AllOwnKnown(front) && OwnKnown(last.operations) ==> AllOwnKnown(ps) by {
          AllOwnKnownSplit(ps);
        }
      }
    }
  }

  lemma AllOwnKnownSplit(ps: seq<PathDoc>)
    requires ps != []
    ensures AllOwnKnown(ps) <==> AllOwnKnown(ps[..|ps| - 1]) && OwnKnown(ps[|ps| - 1].operations)
  {
    assert forall i :: 0 <= i < |ps| - 1 ==> ps[i] == ps[..|ps| - 1][i];
  }

  function StrippedDoc(d: Doc): Doc
    requires First(d.paths)
  {
    d.(paths := StrippedPaths(d.paths))
  }

  /** References of paths make no difference to the reader, and a document it reads has no unknown ones in operations. */
  lemma {:induction false} DocRead(d: Doc)
    requires First(d.paths)
    ensures Parse(Print(d)) == Parse(Print(StrippedDoc(d)))
    ensures Parse(Print(d)).Ok? ==> AllOwnKnown(d.paths)
  {
    var s := HeaderRead(d);
    var e := StrippedDoc(d);
    assert PrintHeader(e) == PrintHeader(d);
    PathsRead(s, d.paths);
    RunAppend(INITIAL, PrintHeader(d), PrintPaths(d.paths));
    RunAppend(INITIAL, PrintHeader(d), PrintPaths(e.paths));
    RunAppend(INITIAL, PrintHeader(d) + PrintPaths(d.paths), [ComponentsLine]);
    RunAppend(INITIAL, PrintHeader(d) + PrintPaths(e.paths), [ComponentsLine]);
  }

  // ---------- One operation ----------

  function Of(slots: seq<Slot>): (r: seq<Parameter>)
    ensures |r| == |slots| && forall i :: 0 <= i < |slots| ==> r[i] == slots[i].p
  {
    seq(|slots|, i requires 0 <= i < |slots| => slots[i].p)
  }

  /** Declarations that all count come out as they are if no two have the same key, and if none is lost. */
  lemma {:induction false} FoldOfAll(slots: seq<Slot>, all: bool)
    requires forall i :: 0 <= i < |slots| ==> Counts(slots[i], all)
    ensures |Fold([], slots, all)| <= |slots|
    ensures |Fold([], slots, all)| == |slots| ==> Fold([], slots, all) == Of(slots)
    ensures DistinctKeys(Of(slots)) ==> Fold([], slots, all) == Of(slots)
  {
    if slots != [] {
      var front, last := slots[..|slots| - 1], slots[|slots| - 1];
      FoldOfAll(front, all);
      assert Of(slots) == Of(front) + [last.p];
      if DistinctKeys(Of(slots)) {
        assert forall i :: 0 <= i < |front| ==> Of(front)[i] == Of(slots)[i];
        assert Of(slots)[|front|] == last.p;
      }
    }
  }

  lemma OfSlots(a: seq<Spelling>, m: Mode, b: seq<Spelling>, n: Mode)
    requires Known(a) && Known(b)
    ensures Of(Slots(a, m) + Slots(b, n)) == Parameters(a) + Parameters(b)
  {
  }

  lemma WrittenIsDeclared(p: PathDoc, k: nat, comps: Definitions)
    requires WellFormedPath(p, comps) && k < |p.operations|
    ensures Written(InlinedPath(p, comps), k).parameters == Declarations(p, k, comps)
  {
    var shared, own := Inlined(p.parameters, comps), Inlined(p.operations[k].parameters, comps);
    FoldConcat([], Slots(shared, Everything), Slots(own, Everything), true);
    OfSlots(shared, Everything, own, Everything);
    FoldOfAll(Slots(shared, Everything) + Slots(own, Everything), true);
  }

  /** What is read, when nothing is lost. */
  lemma StrippedIsRead(p: PathDoc, k: nat)
    requires p.after == 0 && PrintablePath(Stripped(p)) && k < |p.operations|
    ensures var read, all := Read(Stripped(p), k).parameters, Parameters(NonReferences(p.parameters)) + Parameters(p.operations[k].parameters);
            && |read| <= |all|
            && (|read| == |all| ==> read == all) && (DistinctKeys(all) ==> read == all)
  {
    var q := Stripped(p);
    var slots := Slots(q.parameters, InlineOnly) + Slots(p.operations[k].parameters, Everything);
    assert ReadSlots(q, k) == slots;
    FoldOfAll(slots, false);
    OfSlots(q.parameters, InlineOnly, p.operations[k].parameters, Everything);
  }

  lemma AgreementIff(ds: seq<Spelling>, comps: Definitions)
    requires Defined(ds, comps) && Known(ds)
    ensures Parameters(ds) == Parameters(Inlined(ds, comps)) <==> AsPublished(ds, comps)
  {
    if Parameters(ds) == Parameters(Inlined(ds, comps)) {
      forall i | 0 <= i < |ds| && IsReference(ds[i]) ensures comps[ds[i].ref] == COMPONENTS[ds[i].ref] {
        assert Parameters(ds)[i] == Parameters(Inlined(ds, comps))[i];
      }
    }
  }

  lemma NothingToInline(ds: seq<Spelling>, comps: Definitions)
    requires NoReferences(ds)
    ensures Defined(ds, comps) && Known(ds) && Inlined(ds, comps) == ds
  {
  }

  lemma OperationAgreesIff(p: PathDoc, k: nat, comps: Definitions)
    requires WellFormedPath(p, comps) && k < |p.operations| && PrintablePath(Stripped(p))
    ensures Read(Stripped(p), k) == Written(InlinedPath(p, comps), k)
       <==> NoReferences(p.parameters) && AsPublished(p.operations[k].parameters, comps)
  {
    var ds, own := p.parameters, p.operations[k].parameters;
    var a, b := Parameters(Inlined(ds, comps)), Parameters(Inlined(own, comps));
    WrittenIsDeclared(p, k, comps);
    StrippedIsRead(p, k);
    AgreementIff(own, comps);
    if NoReferences(ds) {
      NothingToInline(ds, comps);
      ConcatEqual(a, Parameters(own), a, b);
    }
  }

  // ---------- The document ----------

  lemma PathStripped(p: PathDoc, comps: Definitions)
    requires DefinedPath(p, comps) && OwnKnown(p.operations)
    ensures PrintablePath(Stripped(p))
  {
  }

  lemma PathAgreesWithInlinedIff(p: PathDoc, comps: Definitions)
    requires WellFormedPath(p, comps) && PrintablePath(Stripped(p))
    ensures PathOperations(Stripped(p), false) == PathOperations(InlinedPath(p, comps), true) <==> SupportedPath(p, comps)
  {
    var read, written := PathOperations(Stripped(p), false), PathOperations(InlinedPath(p, comps), true);
    assert |read| == |p.operations| == |written|;
    forall k | 0 <= k < |p.operations|
      ensures read[k] == written[k] <==> NoReferences(p.parameters) && AsPublished(p.operations[k].parameters, comps)
    {
      OperationAgreesIff(p, k, comps);
    }
    if read == written && p.operations != [] {
      assert read[0] == written[0];
      assert forall k :: 0 <= k < |p.operations| ==> read[k] == written[k];
    }
  }

  lemma SupportedSplit(ps: seq<PathDoc>, comps: Definitions)
    requires ps != []
    ensures Supported(ps, comps) <==> Supported(ps[..|ps| - 1], comps) && SupportedPath(ps[|ps| - 1], comps)
  {
    assert forall i :: 0 <= i < |ps| - 1 ==> ps[i] == ps[..|ps| - 1][i];
  }

  /** Two lists of operations with the same ids. */
  predicate SameIds(a: seq<Operation>, b: seq<Operation>) {
    |a| == |b| && forall i :: 0 <= i < |a| ==> a[i].id == b[i].id
  }

  lemma {:induction false} OneMorePath(ps: seq<PathDoc>, p: PathDoc, written: bool)
    requires PrintablePaths(ps) && PrintablePath(p)
    ensures PrintablePaths(ps + [p]) && Operations(ps + [p], written) == Operations(ps, written) + PathOperations(p, written)
  {
    assert (ps + [p])[..|ps|] == ps;
  }

  lemma SamePathIds(p: PathDoc, comps: Definitions)
    requires DefinedPath(p, comps) && PrintablePath(Stripped(p))
    ensures SameIds(PathOperations(Stripped(p), false), PathOperations(InlinedPath(p, comps), true))
  {
  }

  lemma {:induction false} PathsAgreeIff(ps: seq<PathDoc>, comps: Definitions)
    requires WellFormedPaths(ps, comps) && First(ps) && AllOwnKnown(ps)
    ensures PrintablePaths(StrippedPaths(ps))
    ensures SameIds(Operations(StrippedPaths(ps), false), Operations(InlinedPaths(ps, comps), true))
    ensures Operations(StrippedPaths(ps), false) == Operations(InlinedPaths(ps, comps), true) <==> Supported(ps, comps)
  {
    if ps != [] {
      var front, last := ps[..|ps| - 1], ps[|ps| - 1];
      AllOwnKnownSplit(ps);
      PathsAgreeIff(front, comps);
      PathStripped(last, comps);
      PathAgreesWithInlinedIff(last, comps);
      SupportedSplit(ps, comps);
      OneMorePath(StrippedPaths(front), Stripped(last), false);
      OneMorePath(InlinedPaths(front, comps), InlinedPath(last, comps), true);
      SamePathIds(last, comps);
      JoinedAgreeIff(Operations(StrippedPaths(front), false), PathOperations(Stripped(last), false),
                     Operations(InlinedPaths(front, comps), true), PathOperations(InlinedPath(last, comps), true));
    }
  }

  lemma JoinedAgreeIff(a: seq<Operation>, b: seq<Operation>, c: seq<Operation>, d: seq<Operation>)
    requires SameIds(a, c) && SameIds(b, d)
    ensures SameIds(a + b, c + d) && (a + b == c + d <==> a == c && b == d)
  {
    ConcatEqual(a, b, c, d);
  }

  lemma SupportedIsKnown(ps: seq<PathDoc>, comps: Definitions)
    requires Supported(ps, comps)
    ensures AllOwnKnown(ps)
  {
    forall i | 0 <= i < |ps| ensures OwnKnown(ps[i].operations) {
      assert SupportedPath(ps[i], comps);
    }
  }

  /** A document that can be read at all is judged by its operations without the references of paths. */
  lemma ReadIsJudged(d: Doc, comps: Definitions)
    requires WellFormedPaths(d.paths, comps) && First(d.paths) && AllOwnKnown(d.paths)
    ensures PrintablePaths(StrippedPaths(d.paths))
    ensures Parse(Print(d)) == Judge(d.openAPI, d.version, d.server, Operations(StrippedPaths(d.paths), false))
  {
    DocRead(d);
    PathsAgreeIff(d.paths, comps);
    PrintedIsRead(StrippedDoc(d));
  }

  lemma {:induction false} AcceptableIsJudged(d: Doc)
    requires Printable(d)
    ensures Acceptable(d) <==> Judge(d.openAPI, d.version, d.server, Operations(d.paths, true)).Ok?
  {
    CheckPassesIff(Operations(d.paths, true), {});
  }

  /**
   A document with its own definitions is read back as what it says exactly if
   that is acceptable, no path with operations refers to a definition, and all
   references in operations are to `Limit`, `Cursor` and `IdempotencyKey` and
   these are defined as published. A definition that differs is not noticed.
   */
  lemma {:induction false} ReadingGoesByPublishedIff(d: Doc, comps: Definitions)
    requires WellFormedPaths(d.paths, comps)
    ensures Parse(Print(d)) == Ok(Intended(InlinedDoc(d, comps)))
       <==> Acceptable(InlinedDoc(d, comps)) && Supported(d.paths, comps)
  {
    DocRead(d);
    if Supported(d.paths, comps) {
      SupportedIsKnown(d.paths, comps);
    }
    if AllOwnKnown(d.paths) {
      var plain := InlinedDoc(d, comps);
      ReadIsJudged(d, comps);
      PathsAgreeIff(d.paths, comps);
      AcceptableIsJudged(plain);
      JudgedAsIff(d.openAPI, d.version, d.server, Operations(StrippedPaths(d.paths), false), Operations(plain.paths, true));
    }
  }

  /** Whatever a document defines one of the three names to be, its operation gets the published parameter, and the document is accepted. */
  lemma OtherDefinitionIsMissed(d: Doc, p: PathDoc, o: OperationDoc, name: string, comps: Definitions)
    requires d.paths == [p] && p == PathDoc(p.path, [], [o], 0) && p.path != "" && o.id != "" && o.parameters == [Reference(name)]
    requires d.openAPI != "" && d.version != "" && d.server != "" && name in comps && name in COMPONENTS
    ensures WellFormedPaths(d.paths, comps) && Parse(Print(d)).Ok?
    ensures Operation(o.method_, p.path, o.id, [COMPONENTS[name]], o.hasBody) in Parse(Print(d)).value.operations
  {
    OneDeclaration(p, o, name, comps);
    OneIsRead(p, o, name);
    OnePathDoc(d, p, comps);
    OneReadOperation(d, p, Read(p, 0));
  }

  lemma {:induction false} OnePathDoc(d: Doc, p: PathDoc, comps: Definitions)
    requires d.paths == [p] && WellFormedPath(p, comps) && PrintablePath(p)
    ensures WellFormedPaths(d.paths, comps) && Printable(d)
  {
  }

  lemma {:induction false} OneDeclaration(p: PathDoc, o: OperationDoc, name: string, comps: Definitions)
    requires p == PathDoc(p.path, [], [o], 0) && p.path != "" && o.id != "" && o.parameters == [Reference(name)] && name in comps
    ensures WellFormedPath(p, comps)
  {
    assert DefinedPath(p, comps);
    assert |Declarations(p, 0, comps)| == 1;
  }

  lemma OneSlot(ds: seq<Spelling>, published: Parameter)
    requires |ds| == 1 && Known(ds) && Meaning(ds[0]) == published
    ensures Slots([], InlineOnly) + Slots(ds, Everything) == [Slot(published, false)]
  {
  }

  lemma {:induction false} OneIsRead(p: PathDoc, o: OperationDoc, name: string)
    requires p == PathDoc(p.path, [], [o], 0) && o.parameters == [Reference(name)] && p.path != "" && o.id != "" && name in COMPONENTS
    ensures PrintablePath(p)
    ensures Read(p, 0) == Operation(o.method_, p.path, o.id, [COMPONENTS[name]], o.hasBody) && InPath(Read(p, 0))
  {
    var published := COMPONENTS[name];
    assert KnownReference(o.parameters[0]) && Meaning(o.parameters[0]) == published;
    OneSlot(o.parameters, published);
    FoldOne(published, false);
    NeverInPath(name);
  }

  lemma NeverInPath(name: string)
    requires name in COMPONENTS
    ensures COMPONENTS[name].location != Path
  {
  }
}
