/**
 Reading a printed document: what the reader makes of every document, and when
 that is what the document says. A path's own parameters may be written before
 its operations or after some of them, which makes no difference to a YAML
 document but does to a reader that goes line by line.
 */
module OpenApiPrinting {
  import opened Text
  import opened Ordering
  import opened Distinctness
  import opened OpenApiReader
  import opened ParameterLists
  import opened OpenApiProperties

  // ---------- Documents ----------

  /** A parameter as a document spells it. */
  datatype Spelling =
    | Inline(p: Parameter, omitFalse: bool)
    | Compact(p: Parameter, omitFalse: bool)
    | Sortable(name: string, location: Location, required: bool, omitFalse: bool)
    | Reference(ref: string)
    | CompactReference(ref: string)

  datatype OperationDoc = OperationDoc(method_: string, id: string, parameters: seq<Spelling>, hasBody: bool)

  /** The path's own parameters are written behind the first `after` operations. */
  datatype PathDoc = PathDoc(path: string, parameters: seq<Spelling>, operations: seq<OperationDoc>, after: nat)
  datatype Doc = Doc(openAPI: string, version: string, server: string, paths: seq<PathDoc>)

  function Flag(required: bool, omitFalse: bool): Option<bool> {
    if !required && omitFalse then None else Some(required)
  }

  function PrintParameter(d: Spelling): Line {
    match d
    case Inline(p, o) => InlineParameterLine(p.name, p.location, Flag(p.required, o), p.typ)
    case Compact(p, o) => InlineParametersLine(p.name, p.location, Flag(p.required, o), p.typ)
    case Sortable(n, l, r, o) => SchemaRefParameterLine(n, l, Flag(r, o), "SortableID")
    case Reference(ref) => RefParameterLine(ref)
    case CompactReference(ref) => InlineRefParameterLine(ref)
  }

  function PrintParameters(ds: seq<Spelling>): seq<Line> {
    if ds == [] then [] else PrintParameters(ds[..|ds| - 1]) + [PrintParameter(ds[|ds| - 1])]
  }

  function PrintRest(hasBody: bool): seq<Line> {
    if hasBody then [RequestBodyLine, Other] else [Other]
  }

  function PrintOperation(o: OperationDoc): seq<Line> {
    [MethodLine(o.method_), OperationIDLine(o.id)] + PrintParameters(o.parameters) + PrintRest(o.hasBody)
  }

  function PrintOperations(os: seq<OperationDoc>): seq<Line> {
    if os == [] then [] else PrintOperations(os[..|os| - 1]) + PrintOperation(os[|os| - 1])
  }

  function PrintPath(p: PathDoc): seq<Line>
    requires p.after <= |p.operations|
  {
    [PathLine(p.path)] + PrintOperations(p.operations[..p.after]) + PrintParameters(p.parameters)
    + PrintOperations(p.operations[p.after..])
  }

  ghost predicate Printable(d: Doc) { PrintablePaths(d.paths) }

  ghost predicate PrintablePaths(ps: seq<PathDoc>) { Placed(ps) && forall i :: 0 <= i < |ps| ==> PrintablePath(ps[i]) }

  ghost predicate PrintablePath(p: PathDoc) {
    && p.path != "" && p.after <= |p.operations| && Known(p.parameters)
    && PrintableOperations(p.operations)
  }

  predicate PrintableOperations(os: seq<OperationDoc>) {
    forall j :: 0 <= j < |os| ==> os[j].id != "" && Known(os[j].parameters)
  }

  predicate Placed(ps: seq<PathDoc>) { forall i :: 0 <= i < |ps| ==> ps[i].after <= |ps[i].operations| }

  function PrintPaths(ps: seq<PathDoc>): seq<Line>
    requires Placed(ps)
  {
    if ps == [] then [] else PrintPaths(ps[..|ps| - 1]) + PrintPath(ps[|ps| - 1])
  }

  function PrintHeader(d: Doc): seq<Line> {
    [OpenAPILine(d.openAPI), InfoLine, VersionLine(d.version), ServersLine, ServerLine(d.server), PathsLine]
  }

  function Print(d: Doc): seq<Line>
    requires Placed(d.paths)
  {
    PrintHeader(d) + PrintPaths(d.paths) + [ComponentsLine]
  }

  // ---------- What a document says ----------

  predicate IsReference(d: Spelling) { d.Reference? || d.CompactReference? }

  /** What the published document defines under `components`, and the generator expects. */
  const COMPONENTS: map<string, Parameter> := map[
    "Limit" := Parameter("limit", Query, TInteger, false),
    "Cursor" := Parameter("cursor", Query, TString, false),
    "IdempotencyKey" := Parameter("Idempotency-Key", Header, TString, true)]

  predicate KnownReference(d: Spelling) { IsReference(d) ==> d.ref in COMPONENTS }

  function Meaning(d: Spelling): Parameter
    requires KnownReference(d)
  {
    match d
    case Inline(p, _) => p
    case Compact(p, _) => p
    case Sortable(n, l, r, _) => Parameter(n, l, TString, r)
    case _ => COMPONENTS[d.ref]
  }

  predicate Known(ds: seq<Spelling>) { forall i :: 0 <= i < |ds| ==> KnownReference(ds[i]) }

  /** Which of the path's own parameters an operation is read with. */
  datatype Mode = Everything | InlineOnly | Nothing

  predicate Skips(mode: Mode, d: Spelling) { mode.Nothing? || (mode.InlineOnly? && IsReference(d)) }

  function Slots(ds: seq<Spelling>, mode: Mode): (slots: seq<Slot>)
    requires Known(ds)
    ensures |slots| == |ds| && forall i :: 0 <= i < |ds| ==> slots[i] == Slot(Meaning(ds[i]), Skips(mode, ds[i]))
  {
    seq(|ds|, i requires 0 <= i < |ds| => Slot(Meaning(ds[i]), Skips(mode, ds[i])))
  }

  /** What operation `k` of a path says: the path's parameters, then its own, the first of a key counting. */
  ghost function Written(p: PathDoc, k: nat): Operation
    requires PrintablePath(p) && k < |p.operations|
  {
    var o := p.operations[k];
    var shared := Fold([], Slots(p.parameters, Everything), true);
    Operation(o.method_, p.path, o.id, Fold(shared, Slots(o.parameters, Everything), true), o.hasBody)
  }

  /**
   The declarations operation `k` is read with. Written first, the path's
   parameters come first, but for references. Written behind an operation, they
   come last for that one, and are missed by every other.
   */
  ghost function ReadSlots(p: PathDoc, k: nat): seq<Slot>
    requires PrintablePath(p) && k < |p.operations|
  {
    var own := Slots(p.operations[k].parameters, Everything);
    if p.after == 0 then Slots(p.parameters, InlineOnly) + own
    else Slots(p.parameters, Nothing) + own + if k == p.after - 1 then Slots(p.parameters, Everything) else []
  }

  ghost function Read(p: PathDoc, k: nat): Operation
    requires PrintablePath(p) && k < |p.operations|
  {
    var o := p.operations[k];
    Operation(o.method_, p.path, o.id, Fold([], ReadSlots(p, k), false), o.hasBody)
  }

  /** The operations of a path, as written or as read. */
  ghost function PathOperations(p: PathDoc, written: bool): seq<Operation>
    requires PrintablePath(p)
  {
    seq(|p.operations|, k requires 0 <= k < |p.operations| => if written then Written(p, k) else Read(p, k))
  }

  /** All operations in document order. */
  ghost function Operations(ps: seq<PathDoc>, written: bool): seq<Operation>
    requires PrintablePaths(ps)
  {
    if ps == [] then []
    else
      assert PrintablePath(ps[|ps| - 1]);
      Operations(ps[..|ps| - 1], written) + PathOperations(ps[|ps| - 1], written)
  }

  // ---------- The reader on printed lines ----------

  lemma {:induction false} RunConcat(s: State, a: seq<Line>, b: seq<Line>)
    requires Run(s, a).Ok?
    ensures Run(s, a + b) == Run(Run(s, a).value, b)
    decreases |b|
  {
    if b == [] {
      assert a + b == a;
    } else {
      assert (a + b)[..|a + b| - 1] == a + b[..|b| - 1];
      RunConcat(s, a, b[..|b| - 1]);
    }
  }

  lemma {:induction false} RunOne(s: State, line: Line)
    ensures Run(s, [line]) == Step(s, line)
  {
    assert [line][..0] == [];
  }

  /** The generator knows these three definitions, and no other name. */
  lemma ResolvesAsDefined(name: string)
    ensures ResolveParameterRef(name) == if name in COMPONENTS then Ok(COMPONENTS[name]) else Err(UnknownReference)
  {
  }

  lemma ParameterReadBack(s: State, d: Spelling)
    requires s.inPaths && KnownReference(d)
    ensures Step(s, PrintParameter(d)) ==
      if s.current.Some? then
        Ok(s.(current := Some(s.current.value.(parameters := AddParameter(s.current.value.parameters, Meaning(d))))))
      else
        Ok(if IsReference(d) then s else s.(pathParameters := AddParameter(s.pathParameters, Meaning(d))))
  {
    if IsReference(d) {
      ResolvesAsDefined(d.ref);
    }
  }

  lemma MoreSlots(ds: seq<Spelling>, mode: Mode)
    requires ds != [] && Known(ds)
    ensures var front := ds[..|ds| - 1];
            Slots(ds, mode) == Slots(front, mode) + [Slot(Meaning(ds[|ds| - 1]), Skips(mode, ds[|ds| - 1]))]
  {
  }

  lemma {:induction false} FoldMore(base: seq<Parameter>, ds: seq<Spelling>, mode: Mode)
    requires ds != [] && Known(ds)
    ensures var front, last := Fold(base, Slots(ds[..|ds| - 1], mode), false), ds[|ds| - 1];
            Fold(base, Slots(ds, mode), false) == if Skips(mode, last) then front else AddParameter(front, Meaning(last))
  {
    MoreSlots(ds, mode);
    assert Slots(ds, mode)[..|ds| - 1] == Slots(ds[..|ds| - 1], mode);
  }

  /** Inside an operation all declarations are read. */
  lemma {:induction false} OwnReadBack(s: State, ds: seq<Spelling>)
    requires s.inPaths && Known(ds) && s.current.Some?
    ensures Run(s, PrintParameters(ds))
         == Ok(s.(current := Some(s.current.value.(parameters := Fold(s.current.value.parameters, Slots(ds, Everything), false)))))
  {
    if ds != [] {
      var front := ds[..|ds| - 1];
      OwnReadBack(s, front);
      ParameterReadBack(Run(s, PrintParameters(front)).value, ds[|ds| - 1]);
      assert PrintParameters(ds)[..|PrintParameters(ds)| - 1] == PrintParameters(front);
      FoldMore(s.current.value.parameters, ds, Everything);
    }
  }

  /** Outside, references are skipped. */
  lemma {:induction false} SharedReadBack(s: State, ds: seq<Spelling>)
    requires s.inPaths && Known(ds) && s.current.None?
    ensures Run(s, PrintParameters(ds)) == Ok(s.(pathParameters := Fold(s.pathParameters, Slots(ds, InlineOnly), false)))
  {
    if ds != [] {
      var front := ds[..|ds| - 1];
      SharedReadBack(s, front);
      ParameterReadBack(Run(s, PrintParameters(front)).value, ds[|ds| - 1]);
      assert PrintParameters(ds)[..|PrintParameters(ds)| - 1] == PrintParameters(front);
      FoldMore(s.pathParameters, ds, InlineOnly);
    }
  }

  /** Ready for the next path or operation: under `paths`, nothing pending without an id. */
  ghost predicate Ready(s: State) {
    s.inPaths && (s.current.Some? ==> s.current.value.id != "")
  }

  lemma {:induction false} ReadyFlush(s: State)
    requires Ready(s)
    ensures Flush(s) == Ok(s.(operations := Flushed(s), current := None))
  {
    if s.current.None? {
      assert Flushed(s) == s.operations;
    }
  }

  lemma {:induction false} HeadReadBack(s: State, m: string, id: string)
    requires Ready(s) && s.path != ""
    ensures Run(s, [MethodLine(m), OperationIDLine(id)])
         == Ok(s.(operations := Flushed(s), current := Some(Operation(m, s.path, id, s.pathParameters, false))))
  {
    var head: seq<Line> := [MethodLine(m), OperationIDLine(id)];
    assert head[..1] == [MethodLine(m)];
    RunOne(s, MethodLine(m));
    ReadyFlush(s);
  }

  lemma {:induction false} RestReadBack(s: State, hasBody: bool)
    requires s.inPaths && s.current.Some? && !s.current.value.hasBody
    ensures Run(s, PrintRest(hasBody)) == Ok(s.(current := Some(s.current.value.(hasBody := hasBody))))
  {
    var rest := PrintRest(hasBody);
    if hasBody {
      assert rest[..1] == [RequestBodyLine];
      RunOne(s, RequestBodyLine);
    } else {
      RunOne(s, Other);
    }
  }

  function ReadWith(o: OperationDoc, path: string, inherited: seq<Parameter>): Operation
    requires Known(o.parameters)
  {
    Operation(o.method_, path, o.id, Fold(inherited, Slots(o.parameters, Everything), false), o.hasBody)
  }

  lemma {:induction false} OperationReadBack(s: State, o: OperationDoc)
    requires Ready(s) && s.path != "" && o.id != "" && Known(o.parameters)
    ensures Run(s, PrintOperation(o))
         == Ok(s.(operations := Flushed(s), current := Some(ReadWith(o, s.path, s.pathParameters))))
  {
    HeadReadBack(s, o.method_, o.id);
    var head: seq<Line> := [MethodLine(o.method_), OperationIDLine(o.id)];
    var t := Run(s, head).value;
    OwnReadBack(t, o.parameters);
    RunConcat(s, head, PrintParameters(o.parameters));
    RestReadBack(Run(t, PrintParameters(o.parameters)).value, o.hasBody);
    RunConcat(s, head + PrintParameters(o.parameters), PrintRest(o.hasBody));
  }

  function AllReadWith(os: seq<OperationDoc>, path: string, inherited: seq<Parameter>): seq<Operation>
    requires PrintableOperations(os)
  {
    if os == [] then []
    else
      assert Known(os[|os| - 1].parameters);
      AllReadWith(os[..|os| - 1], path, inherited) + [ReadWith(os[|os| - 1], path, inherited)]
  }

  /** The operations `os` have been read between `s` and `t`, the last one being pending. */
  ghost predicate OperationsDone(s: State, t: State, os: seq<OperationDoc>)
    requires PrintableOperations(os)
  {
    && Ready(t) && t == s.(operations := t.operations, current := t.current)
    && (os == [] ==> t == s)
    && (os != [] ==> t.current == Some(ReadWith(os[|os| - 1], s.path, s.pathParameters)))
    && Flushed(t) == Flushed(s) + AllReadWith(os, s.path, s.pathParameters)
  }

  lemma OneMoreDone(s: State, t: State, u: State, os: seq<OperationDoc>)
    requires os != [] && PrintableOperations(os) && OperationsDone(s, t, os[..|os| - 1])
    requires u == t.(operations := Flushed(t), current := Some(ReadWith(os[|os| - 1], t.path, t.pathParameters)))
    ensures OperationsDone(s, u, os)
  {
  }

  lemma {:induction false} OperationsReadBack(s: State, os: seq<OperationDoc>)
    requires Ready(s) && s.path != "" && PrintableOperations(os)
    ensures Run(s, PrintOperations(os)).Ok? && OperationsDone(s, Run(s, PrintOperations(os)).value, os)
  {
    if os == [] {
      assert AllReadWith(os, s.path, s.pathParameters) == [];
    } else {
      var front, last := os[..|os| - 1], os[|os| - 1];
      OperationsReadBack(s, front);
      var t := Run(s, PrintOperations(front)).value;
      OperationReadBack(t, last);
      RunConcat(s, PrintOperations(front), PrintOperation(last));
      OneMoreDone(s, t, Run(s, PrintOperations(os)).value, os);
    }
  }

  /** The line of a path, and then its parameters and operations in either order. */
  lemma {:induction false} PathOpened(s: State, path: string)
    requires Ready(s)
    ensures Run(s, [PathLine(path)]) == Ok(s.(operations := Flushed(s), current := None, path := path, pathParameters := []))
    ensures Flushed(s.(operations := Flushed(s), current := None, path := path, pathParameters := [])) == Flushed(s)
  {
    RunOne(s, PathLine(path));
    ReadyFlush(s);
  }

  lemma FirstRead(p: PathDoc, k: nat)
    requires PrintablePath(p) && k < |p.operations| && p.after == 0
    ensures PathOperations(p, false)[k] == ReadWith(p.operations[k], p.path, Fold([], Slots(p.parameters, InlineOnly), false))
  {
    FoldConcat([], Slots(p.parameters, InlineOnly), Slots(p.operations[k].parameters, Everything), false);
  }

  lemma {:induction false} FirstList(p: PathDoc, shared: seq<Parameter>)
    requires PrintablePath(p) && p.after == 0 && shared == Fold([], Slots(p.parameters, InlineOnly), false)
    ensures PathOperations(p, false) == AllReadWith(p.operations, p.path, shared)
  {
    var all := AllReadWith(p.operations, p.path, shared);
    if |p.operations| > 0 {
      AllReadWithAt(p.operations, p.path, shared, 0);
    }
    forall k | 0 <= k < |p.operations| ensures PathOperations(p, false)[k] == all[k] {
      FirstRead(p, k);
      AllReadWithAt(p.operations, p.path, shared, k);
    }
  }

  lemma DoneBehindShared(s: State, t: State, u: State, p: PathDoc)
    requires PrintablePath(p) && s.path == p.path && s.current.None?
    requires t == s.(pathParameters := t.pathParameters) && OperationsDone(t, u, p.operations)
    requires PathOperations(p, false) == AllReadWith(p.operations, p.path, t.pathParameters)
    ensures Ready(u) && u == s.(operations := u.operations, current := u.current, pathParameters := u.pathParameters)
    ensures Flushed(u) == Flushed(s) + PathOperations(p, false)
  {
  }

  lemma {:induction false} SharedFirst(s: State, p: PathDoc)
    requires Ready(s) && s.current.None? && s.pathParameters == [] && s.path == p.path && PrintablePath(p) && p.after == 0
    ensures Run(s, PrintParameters(p.parameters) + PrintOperations(p.operations)).Ok?
    ensures var t := Run(s, PrintParameters(p.parameters) + PrintOperations(p.operations)).value;
            && Ready(t) && t == s.(operations := t.operations, current := t.current, pathParameters := t.pathParameters)
            && Flushed(t) == Flushed(s) + PathOperations(p, false)
  {
    SharedReadBack(s, p.parameters);
    var t := Run(s, PrintParameters(p.parameters)).value;
    RunConcat(s, PrintParameters(p.parameters), PrintOperations(p.operations));
    OperationsReadBack(t, p.operations);
    FirstList(p, t.pathParameters);
    DoneBehindShared(s, t, Run(t, PrintOperations(p.operations)).value, p);
  }

  lemma {:induction false} NothingRead(base: seq<Parameter>, ds: seq<Spelling>)
    requires Known(ds)
    ensures Fold(base, Slots(ds, Nothing), false) == base
  {
    if ds != [] {
      NothingRead(base, ds[..|ds| - 1]);
      assert Slots(ds, Nothing)[..|ds| - 1] == Slots(ds[..|ds| - 1], Nothing);
    }
  }

  lemma ReadLate(p: PathDoc, k: nat)
    requires PrintablePath(p) && k < |p.operations| && p.after > 0
    ensures Read(p, k) ==
              var alone := ReadWith(p.operations[k], p.path, []);
              if k == p.after - 1 then alone.(parameters := Fold(alone.parameters, Slots(p.parameters, Everything), false)) else alone
  {
    var lost, own := Slots(p.parameters, Nothing), Slots(p.operations[k].parameters, Everything);
    NothingRead([], p.parameters);
    FoldConcat([], lost, own, false);
    if k == p.after - 1 {
      FoldConcat([], lost + own, Slots(p.parameters, Everything), false);
    } else {
      assert lost + own + [] == lost + own;
    }
  }

  lemma {:induction false} SharedLate(s: State, p: PathDoc)
    requires Ready(s) && s.current.None? && s.pathParameters == [] && s.path == p.path && PrintablePath(p) && p.after > 0
    ensures var lines := PrintOperations(p.operations[..p.after]) + PrintParameters(p.parameters) + PrintOperations(p.operations[p.after..]);
            && Run(s, lines).Ok?
            && var t := Run(s, lines).value;
               && Ready(t) && t == s.(operations := t.operations, current := t.current, pathParameters := t.pathParameters)
               && Flushed(t) == Flushed(s) + PathOperations(p, false)
  {
    var before, behind, shared := p.operations[..p.after], p.operations[p.after..], PrintParameters(p.parameters);
    OperationsReadBack(s, before);
    var t := Run(s, PrintOperations(before)).value;
    OwnReadBack(t, p.parameters);
    RunConcat(s, PrintOperations(before), shared);
    var u := Run(t, shared).value;
    OperationsReadBack(u, behind);
    RunConcat(s, PrintOperations(before) + shared, PrintOperations(behind));
    LateOperations(s, t, u, p);
  }

  lemma {:induction false} AllReadWithAt(os: seq<OperationDoc>, path: string, inherited: seq<Parameter>, k: nat)
    requires PrintableOperations(os) && k < |os|
    ensures |AllReadWith(os, path, inherited)| == |os|
    ensures AllReadWith(os, path, inherited)[k] == ReadWith(os[k], path, inherited)
    decreases |os|
  {
    if k < |os| - 1 {
      AllReadWithAt(os[..|os| - 1], path, inherited, k);
    } else if k > 0 {
      AllReadWithAt(os[..|os| - 1], path, inherited, k - 1);
    }
  }

  lemma {:induction false} AllReadWithConcat(a: seq<OperationDoc>, b: seq<OperationDoc>, path: string, inherited: seq<Parameter>)
    requires PrintableOperations(a) && PrintableOperations(b) && PrintableOperations(a + b)
    ensures AllReadWith(a + b, path, inherited) == AllReadWith(a, path, inherited) + AllReadWith(b, path, inherited)
  {
    if b == [] {
      assert a + b == a;
    } else {
      assert (a + b)[..|a + b| - 1] == a + b[..|b| - 1];
      AllReadWithConcat(a, b[..|b| - 1], path, inherited);
    }
  }

  lemma ReadAlone(p: PathDoc, k: nat)
    requires PrintablePath(p) && p.after > 0 && k < |p.operations| && k != p.after - 1
    ensures |AllReadWith(p.operations, p.path, [])| == |p.operations|
    ensures PathOperations(p, false)[k] == AllReadWith(p.operations, p.path, [])[k]
  {
    AllReadWithAt(p.operations, p.path, [], k);
    ReadLate(p, k);
  }

  lemma SameBut<T>(a: seq<T>, b: seq<T>, m: nat)
    requires m < |a| == |b| && forall k :: 0 <= k < |a| && k != m ==> a[k] == b[k]
    ensures a == b[m := a[m]]
  {
  }

  /** The operations of a path whose parameters come late: the one before them gets them, and no other does. */
  lemma LateList(p: PathDoc)
    requires PrintablePath(p) && p.after > 0
    ensures |AllReadWith(p.operations, p.path, [])| == |p.operations|
    ensures PathOperations(p, false) == AllReadWith(p.operations, p.path, [])[p.after - 1 := PathOperations(p, false)[p.after - 1]]
  {
    AllReadWithAt(p.operations, p.path, [], 0);
    forall k | 0 <= k < |p.operations| && k != p.after - 1
      ensures PathOperations(p, false)[k] == AllReadWith(p.operations, p.path, [])[k]
    {
      ReadAlone(p, k);
    }
    SameBut(PathOperations(p, false), AllReadWith(p.operations, p.path, []), p.after - 1);
  }

  lemma LateOperation(p: PathDoc)
    requires PrintablePath(p) && p.after > 0
    ensures var alone := ReadWith(p.operations[p.after - 1], p.path, []);
            PathOperations(p, false)[p.after - 1] == alone.(parameters := Fold(alone.parameters, Slots(p.parameters, Everything), false))
  {
    ReadAt(p, p.after - 1);
    ReadLate(p, p.after - 1);
  }

  lemma ReadAt(p: PathDoc, k: nat)
    requires PrintablePath(p) && k < |p.operations|
    ensures PathOperations(p, false)[k] == Read(p, k)
  {
  }

  lemma LateSplit(p: PathDoc)
    requires PrintablePath(p) && p.after > 0
    ensures var before, behind := AllReadWith(p.operations[..p.after], p.path, []), AllReadWith(p.operations[p.after..], p.path, []);
            && |before| == p.after
            && PathOperations(p, false) == (before + behind)[p.after - 1 := PathOperations(p, false)[p.after - 1]]
  {
    LateList(p);
    AllReadWithAt(p.operations[..p.after], p.path, [], 0);
    assert p.operations == p.operations[..p.after] + p.operations[p.after..];
    AllReadWithConcat(p.operations[..p.after], p.operations[p.after..], p.path, []);
  }

  lemma LateOperations(s: State, t: State, u: State, p: PathDoc)
    requires PrintablePath(p) && p.after > 0 && s.path == p.path && s.pathParameters == []
    requires OperationsDone(s, t, p.operations[..p.after])
    requires var last := t.current.value;
             u == t.(current := Some(last.(parameters := Fold(last.parameters, Slots(p.parameters, Everything), false))))
    ensures Flushed(u) + AllReadWith(p.operations[p.after..], p.path, []) == Flushed(s) + PathOperations(p, false)
  {
    var before, behind := p.operations[..p.after], p.operations[p.after..];
    LateOperation(p);
    LateSplit(p);
    PendingReplaced(Flushed(s), t, u, AllReadWith(before, p.path, []), AllReadWith(behind, p.path, []));
  }

  lemma PendingReplaced(flushed: seq<Operation>, t: State, u: State, before: seq<Operation>, behind: seq<Operation>)
    requires t.current.Some? && before != [] && Flushed(t) == flushed + before
    requires u.current.Some? && u == t.(current := u.current)
    ensures Flushed(u) + behind == flushed + (before + behind)[|before| - 1 := u.current.value]
  {
    assert Flushed(u) == Flushed(t)[|Flushed(t)| - 1 := u.current.value];
  }

  lemma PrintedFirst(p: PathDoc)
    requires p.after == 0
    ensures PrintPath(p) == [PathLine(p.path)] + (PrintParameters(p.parameters) + PrintOperations(p.operations))
  {
    assert p.operations[..0] == [] && p.operations[0..] == p.operations;
    assert [PathLine(p.path)] + [] == [PathLine(p.path)];
  }

  lemma PrintedLate(p: PathDoc)
    requires p.after <= |p.operations|
    ensures PrintPath(p) == [PathLine(p.path)]
         + (PrintOperations(p.operations[..p.after]) + PrintParameters(p.parameters) + PrintOperations(p.operations[p.after..]))
  {
  }

  lemma {:induction false} PathReadBack(s: State, p: PathDoc)
    requires Ready(s) && PrintablePath(p)
    ensures Run(s, PrintPath(p)).Ok?
    ensures var t := Run(s, PrintPath(p)).value;
            && Ready(t) && t.openAPI == s.openAPI && t.version == s.version && t.server == s.server
            && Flushed(t) == Flushed(s) + PathOperations(p, false)
  {
    PathOpened(s, p.path);
    var t := Run(s, [PathLine(p.path)]).value;
    if p.after == 0 {
      SharedFirst(t, p);
      PrintedFirst(p);
      RunConcat(s, [PathLine(p.path)], PrintParameters(p.parameters) + PrintOperations(p.operations));
    } else {
      SharedLate(t, p);
      PrintedLate(p);
      RunConcat(s, [PathLine(p.path)],
                PrintOperations(p.operations[..p.after]) + PrintParameters(p.parameters) + PrintOperations(p.operations[p.after..]));
    }
  }

  lemma {:induction false} PathsReadBack(s: State, ps: seq<PathDoc>)
    requires Ready(s) && Flushed(s) == [] && PrintablePaths(ps)
    ensures Run(s, PrintPaths(ps)).Ok?
    ensures var t := Run(s, PrintPaths(ps)).value;
            && Ready(t) && t.openAPI == s.openAPI && t.version == s.version && t.server == s.server
            && Flushed(t) == Operations(ps, false)
  {
    if ps != [] {
      PathsReadBack(s, ps[..|ps| - 1]);
      var t := Run(s, PrintPaths(ps[..|ps| - 1])).value;
      assert PrintablePath(ps[|ps| - 1]);
      PathReadBack(t, ps[|ps| - 1]);
      RunConcat(s, PrintPaths(ps[..|ps| - 1]), PrintPath(ps[|ps| - 1]));
    }
  }

  /** The closing checks on a document's operations. */
  function Judge(openAPI: string, version: string, server: string, ops: seq<Operation>): Result<Spec> {
    if openAPI == "" || version == "" || server == "" then Err(HeaderMissing)
    else if ops == [] then Err(NoOperations)
    else if CheckOperations(ops, {}).Some? then Err(CheckOperations(ops, {}).value)
    else Ok(Spec(openAPI, version, server, Sort(ByID, ops)))
  }

  lemma {:induction false} FinishSettled(f: State)
    requires f.current.None?
    ensures Finish(f) == Judge(f.openAPI, f.version, f.server, f.operations)
  {
    assert Flush(f) == Ok(f);
  }

  lemma {:induction false} Finished(t: State)
    requires Ready(t)
    ensures Step(t, ComponentsLine).Ok?
    ensures Finish(Step(t, ComponentsLine).value) == Judge(t.openAPI, t.version, t.server, Flushed(t))
  {
    ReadyFlush(t);
    var f := t.(operations := Flushed(t), current := None, inPaths := false);
    assert Step(t, ComponentsLine) == Ok(f);
    FinishSettled(f);
  }

  lemma {:induction false} HeaderRead(d: Doc) returns (s: State)
    ensures Run(INITIAL, PrintHeader(d)) == Ok(s)
    ensures Ready(s) && Flushed(s) == [] && s.openAPI == d.openAPI && s.version == d.version && s.server == d.server
  {
    var l := PrintHeader(d);
    assert l[..0] == [];
    RunPrefix(INITIAL, l, 0);
    RunPrefix(INITIAL, l, 1);
    RunPrefix(INITIAL, l, 2);
    RunPrefix(INITIAL, l, 3);
    RunPrefix(INITIAL, l, 4);
    RunPrefix(INITIAL, l, 5);
    assert l[..6] == l;
    s := Run(INITIAL, l).value;
  }

  /** What the reader makes of every printed document. */
  lemma {:induction false} PrintedIsRead(d: Doc)
    requires Printable(d)
    ensures Parse(Print(d)) == Judge(d.openAPI, d.version, d.server, Operations(d.paths, false))
  {
    var s := HeaderRead(d);
    PathsReadBack(s, d.paths);
    RunConcat(INITIAL, PrintHeader(d), PrintPaths(d.paths));
    var t := Run(s, PrintPaths(d.paths)).value;
    RunOne(t, ComponentsLine);
    ReadyFlush(t);
    RunConcat(INITIAL, PrintHeader(d) + PrintPaths(d.paths), [ComponentsLine]);
    Finished(t);
  }

  /** Lines of no recognised form can be put anywhere. */
  lemma {:induction false} OtherLinesIgnored(a: seq<Line>, b: seq<Line>)
    ensures Parse(a + [Other] + b) == Parse(a + b)
  {
    if Run(INITIAL, a).Ok? {
      OtherLineRead(a, b);
    } else {
      assert (a + b)[..|a|] == a && (a + [Other] + b)[..|a|] == a;
      RunFails(INITIAL, a + b, |a|);
      RunFails(INITIAL, a + [Other] + b, |a|);
    }
  }

  lemma {:induction false} OtherLineRead(a: seq<Line>, b: seq<Line>)
    requires Run(INITIAL, a).Ok?
    ensures Run(INITIAL, a + [Other] + b) == Run(INITIAL, a + b)
  {
    var s := Run(INITIAL, a).value;
    RunOne(s, Other);
    assert Step(s, Other) == Ok(s);
    RunConcat(INITIAL, a, [Other]);
    RunConcat(INITIAL, a + [Other], b);
    RunConcat(INITIAL, a, b);
  }
}
