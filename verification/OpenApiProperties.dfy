/**
 What the reader of the OpenAPI document keeps: every operation line yields one
 operation, with what the lines around it say.
 */
module OpenApiProperties {
  import opened Text
  import opened Ordering
  import opened Distinctness
  import opened OpenApiReader
  import opened ParameterLists

  // ---------- Conservation ----------

  // What a line stands under is told from the lines alone, without the reader's variables.

  /** A `paths:` line stands before `i`, and no `components:` line in between. */
  predicate UnderPaths(lines: seq<Line>, i: nat)
    requires i <= |lines|
  {
    exists k :: 0 <= k < i && lines[k].PathsLine? && forall j :: k < j < i ==> !lines[j].ComponentsLine?
  }

  predicate OpensPath(lines: seq<Line>, i: nat)
    requires i < |lines|
  {
    lines[i].PathLine? && UnderPaths(lines, i)
  }

  predicate OpensOperation(lines: seq<Line>, i: nat)
    requires i < |lines|
  {
    lines[i].MethodLine? && UnderPaths(lines, i)
  }

  /** The last path line before `i`. */
  function PathLineBefore(lines: seq<Line>, i: nat): (k: Option<nat>)
    requires i <= |lines|
    ensures match k
            case None => forall j :: 0 <= j < i ==> !OpensPath(lines, j)
            case Some(k) => k < i && OpensPath(lines, k) && forall j :: k < j < i ==> !OpensPath(lines, j)
  {
    if i == 0 then None
    else if OpensPath(lines, i - 1) then Some(i - 1)
    else PathLineBefore(lines, i - 1)
  }

  function PathAt(lines: seq<Line>, i: nat): string
    requires i <= |lines|
  {
    match PathLineBefore(lines, i)
    case None => ""
    case Some(k) => lines[k].path
  }

  /** Every operation opened before `i` is closed again, by a path line or by the `components:` line. */
  predicate BetweenOperations(lines: seq<Line>, i: nat)
    requires i <= |lines|
  {
    forall m :: 0 <= m < i && OpensOperation(lines, m) ==>
      exists c :: m < c < i && (lines[c].ComponentsLine? || OpensPath(lines, c))
  }

  /** The parameters declared on lines `from..i` under `paths` outside operations, the first one of a key winning. */
  function SharedParameters(lines: seq<Line>, from: nat, i: nat): seq<Parameter>
    requires from <= i <= |lines|
    decreases i
  {
    if i == from then []
    else
      var front := SharedParameters(lines, from, i - 1);
      if UnderPaths(lines, i - 1) && BetweenOperations(lines, i - 1) && Declares(lines[i - 1]) then
        AddParameter(front, LineParameter(lines[i - 1], false).value.value)
      else front
  }

  predicate Declares(line: Line) { LineParameter(line, false).Ok? && LineParameter(line, false).value.Some? }

  /** The parameters shared by the operations of the path that `i` stands in, as far as they are declared before it. */
  function InheritedAt(lines: seq<Line>, i: nat): seq<Parameter>
    requires i <= |lines|
  {
    SharedParameters(lines, match PathLineBefore(lines, i) { case None => 0 case Some(k) => k + 1 }, i)
  }

  /** What the lines say about an operation before it is read. */
  datatype Opened = Opened(method_: string, path: string, inherited: seq<Parameter>)

  /** The method lines under `paths` before `i`, in order. */
  function OpenedBy(lines: seq<Line>, i: nat): seq<Opened>
    requires i <= |lines|
  {
    if i == 0 then []
    else
      OpenedBy(lines, i - 1) +
      if OpensOperation(lines, i - 1) then
        [Opened(lines[i - 1].method_, PathAt(lines, i - 1), InheritedAt(lines, i - 1))]
      else []
  }

  // ---------- The reader's variables agree ----------

  lemma UnderPathsNext(lines: seq<Line>, i: nat)
    requires i < |lines|
    ensures UnderPaths(lines, i + 1) <==> lines[i].PathsLine? || (UnderPaths(lines, i) && !lines[i].ComponentsLine?)
  {
    if !lines[i].PathsLine? && UnderPaths(lines, i + 1) {
      var k :| 0 <= k < i + 1 && lines[k].PathsLine? && forall j :: k < j < i + 1 ==> !lines[j].ComponentsLine?;
      assert k < i;
    }
    if UnderPaths(lines, i) && !lines[i].ComponentsLine? {
      var k :| 0 <= k < i && lines[k].PathsLine? && forall j :: k < j < i ==> !lines[j].ComponentsLine?;
      assert forall j :: k < j < i + 1 ==> !lines[j].ComponentsLine?;
    }
  }

  lemma BetweenOperationsNext(lines: seq<Line>, i: nat)
    requires i < |lines|
    ensures BetweenOperations(lines, i + 1) <==>
              OpensPath(lines, i) || lines[i].ComponentsLine? || (BetweenOperations(lines, i) && !OpensOperation(lines, i))
  {
    if OpensPath(lines, i) || lines[i].ComponentsLine? {
      assert forall m :: 0 <= m < i + 1 && OpensOperation(lines, m) ==> m < i;
    }
  }

  /** One more line, for what is shared at the end of the lines before. */
  lemma InheritedNext(lines: seq<Line>, i: nat)
    requires i < |lines|
    ensures InheritedAt(lines, i + 1) ==
              if OpensPath(lines, i) then []
              else if UnderPaths(lines, i) && BetweenOperations(lines, i) && Declares(lines[i]) then
                AddParameter(InheritedAt(lines, i), LineParameter(lines[i], false).value.value)
              else InheritedAt(lines, i)
  {
  }

  ghost predicate Agrees(s: State, lines: seq<Line>, i: nat)
    requires i <= |lines|
  {
    && (s.inPaths <==> UnderPaths(lines, i)) && s.path == PathAt(lines, i)
    && (s.current.None? <==> BetweenOperations(lines, i)) && s.pathParameters == InheritedAt(lines, i)
  }

  /** How one line changes the variables that tell where the reader is. */
  lemma StepMoves(s: State, line: Line)
    requires Step(s, line).Ok?
    ensures var t, path, method_ := Step(s, line).value, line.PathLine? && s.inPaths, line.MethodLine? && s.inPaths;
            && (t.inPaths <==> line.PathsLine? || (s.inPaths && !line.ComponentsLine?))
            && t.path == (if path then line.path else s.path)
            && (t.current.None? <==> path || line.ComponentsLine? || (s.current.None? && !method_))
            && t.pathParameters ==
                 if path then []
                 else if s.inPaths && s.current.None? && Declares(line) then
                   AddParameter(s.pathParameters, LineParameter(line, false).value.value)
                 else s.pathParameters
  {
  }

  lemma StepAgrees(s: State, lines: seq<Line>, i: nat)
    requires i < |lines| && Agrees(s, lines, i) && Step(s, lines[i]).Ok?
    ensures Agrees(Step(s, lines[i]).value, lines, i + 1)
  {
    StepMoves(s, lines[i]);
    UnderPathsNext(lines, i);
    BetweenOperationsNext(lines, i);
    InheritedNext(lines, i);
    assert PathAt(lines, i + 1) == if OpensPath(lines, i) then lines[i].path else PathAt(lines, i);
  }

  /** The operations read so far, with the pending one. */
  function Flushed(s: State): seq<Operation> {
    s.operations + if s.current.Some? then [s.current.value] else []
  }

  predicate Starts(op: Operation, o: Opened) {
    op.method_ == o.method_ && op.path == o.path && o.inherited <= op.parameters
  }

  ghost predicate Conserved(s: State, starts: seq<Opened>) {
    && |Flushed(s)| == |starts|
    && (forall i :: 0 <= i < |starts| ==> Starts(Flushed(s)[i], starts[i]) && DistinctKeys(Flushed(s)[i].parameters))
    && (forall i :: 0 <= i < |s.operations| ==> s.operations[i].id != "")
    && DistinctKeys(s.pathParameters)
  }

  lemma FlushKeeps(s: State, starts: seq<Opened>)
    requires Conserved(s, starts) && Flush(s).Ok?
    ensures Conserved(Flush(s).value, starts) && Flush(s).value.current.None?
    ensures Flush(s).value.operations == Flushed(s)
  {
    assert Flushed(Flush(s).value) == Flushed(s);
  }

  lemma CurrentChanged(s: State, op: Operation, starts: seq<Opened>)
    requires Conserved(s, starts) && s.current.Some? && DistinctKeys(op.parameters)
    requires op.method_ == s.current.value.method_ && op.path == s.current.value.path && s.current.value.parameters <= op.parameters
    ensures Conserved(s.(current := Some(op)), starts)
  {
    var t := s.(current := Some(op));
    var last := |s.operations|;
    assert Flushed(s)[last] == s.current.value && Flushed(t)[last] == op;
    assert forall i :: 0 <= i < last ==> Flushed(t)[i] == Flushed(s)[i];
  }

  lemma MethodOpens(s: State, m: string, starts: seq<Opened>)
    requires Conserved(s, starts) && s.inPaths && Step(s, MethodLine(m)).Ok?
    ensures Conserved(Step(s, MethodLine(m)).value, starts + [Opened(m, s.path, s.pathParameters)])
  {
    FlushKeeps(s, starts);
    var f, t := Flush(s).value, Step(s, MethodLine(m)).value;
    assert Flushed(t) == f.operations + [t.current.value];
    assert forall i :: 0 <= i < |starts| ==> Flushed(t)[i] == Flushed(f)[i];
  }

  lemma StepKeeps(s: State, line: Line, starts: seq<Opened>)
    requires Conserved(s, starts) && Step(s, line).Ok?
    ensures Conserved(Step(s, line).value, starts + if line.MethodLine? && s.inPaths then [Opened(line.method_, s.path, s.pathParameters)] else [])
  {
    assert starts + [] == starts;
    var t := Step(s, line).value;
    if line.MethodLine? && s.inPaths {
      MethodOpens(s, line.method_, starts);
    } else if line.ComponentsLine? || (line.PathLine? && s.inPaths) {
      FlushKeeps(s, starts);
      assert Flushed(t) == Flushed(Flush(s).value);
    } else if t.current != s.current {
      OperationChanges(s, line, t);
      ParametersOf(s, starts);
      if t.current.value.parameters != s.current.value.parameters {
        AddParameterKeeps(s.current.value.parameters, LineParameter(line, true).value.value);
      }
      CurrentChanged(s, t.current.value, starts);
    } else {
      assert Flushed(t) == Flushed(s);
      if t.pathParameters != s.pathParameters {
        AddParameterKeeps(s.pathParameters, LineParameter(line, false).value.value);
      }
    }
  }

  lemma OperationChanges(s: State, line: Line, t: State)
    requires Step(s, line) == Ok(t) && t.current != s.current && !line.ComponentsLine? && !line.PathLine? && !line.MethodLine?
    ensures s.current.Some? && t.current.Some? && t == s.(current := t.current)
    ensures var op, op' := s.current.value, t.current.value;
            && op'.method_ == op.method_ && op'.path == op.path
            && (op'.parameters == op.parameters
                || (LineParameter(line, true).Ok? && LineParameter(line, true).value.Some?
                    && op'.parameters == AddParameter(op.parameters, LineParameter(line, true).value.value)))
  {
  }

  lemma ParametersOf(s: State, starts: seq<Opened>)
    requires Conserved(s, starts) && s.current.Some?
    ensures DistinctKeys(s.current.value.parameters)
  {
    assert Flushed(s)[|s.operations|] == s.current.value;
  }

  lemma {:induction false} RunKeeps(lines: seq<Line>, i: nat)
    requires i <= |lines| && Run(INITIAL, lines[..i]).Ok?
    ensures Agrees(Run(INITIAL, lines[..i]).value, lines, i)
    ensures Conserved(Run(INITIAL, lines[..i]).value, OpenedBy(lines, i))
  {
    if i > 0 {
      RunPrefix(INITIAL, lines, i - 1);
      RunKeeps(lines, i - 1);
      var s := Run(INITIAL, lines[..i - 1]).value;
      StepAgrees(s, lines, i - 1);
      StepKeeps(s, lines[i - 1], OpenedBy(lines, i - 1));
    }
  }

  function IDs(ops: seq<Operation>): seq<string> { seq(|ops|, i requires 0 <= i < |ops| => ops[i].id) }

  /** The closing checks pass exactly on operations with unseen, pairwise different ids whose path parameters occur in their paths. */
  lemma {:induction false} CheckPassesIff(ops: seq<Operation>, seen: set<string>)
    ensures CheckOperations(ops, seen).None?
       <==> NoRepeats(IDs(ops)) && (forall i :: 0 <= i < |ops| ==> ops[i].id !in seen && InPath(ops[i]))
    decreases |ops|
  {
    if ops != [] {
      var ids, tail := IDs(ops), IDs(ops[1..]);
      CheckPassesIff(ops[1..], seen + {ops[0].id});
      assert forall i :: 0 <= i < |tail| ==> tail[i] == ids[i + 1] && ops[1..][i] == ops[i + 1];
      if NoRepeats(ids) && (forall i :: 0 <= i < |ops| ==> ops[i].id !in seen && InPath(ops[i])) {
        assert forall i :: 0 <= i < |tail| ==> tail[i] != ids[0];
      }
      if CheckOperations(ops, seen).None? {
        assert forall i :: 1 <= i < |ops| ==> ops[i] == ops[1..][i - 1] && ids[i] == tail[i - 1];
      }
    }
  }

  lemma ByIDOrder(ops: seq<Operation>)
    requires NoRepeats(IDs(ops))
    ensures TotalOrder(ByID) && AntisymmetricOn(ByID, ops)
  {
    forall a: Operation, b: Operation ensures ByID(a, b) || ByID(b, a) { LexTotal(a.id, b.id); }
    forall a: Operation, b: Operation, c: Operation | ByID(a, b) && ByID(b, c) ensures ByID(a, c) { LexTransitive(a.id, b.id, c.id); }
    forall a: Operation, b: Operation | a in ops && b in ops && ByID(a, b) && ByID(b, a) ensures a == b {
      LexAntisymmetric(a.id, b.id);
      var i, j :| 0 <= i < |ops| && 0 <= j < |ops| && ops[i] == a && ops[j] == b;
      assert IDs(ops)[i] == IDs(ops)[j];
    }
  }

  /** No two parameters have the same name and location. */
  predicate DistinctNames(ps: seq<Parameter>) {
    forall i, j :: 0 <= i < j < |ps| ==> ps[i].name != ps[j].name || ps[i].location != ps[j].location
  }

  /** Every path parameter stands in the path, in braces. */
  ghost predicate PathParametersIn(op: Operation) {
    forall p :: p in op.parameters && p.location == Path ==> exists a, b :: op.path == a + "{" + p.name + "}" + b
  }

  lemma InBracesIff(path: string, name: string)
    ensures Contains(path, "{" + name + "}") <==> exists a, b :: path == a + "{" + name + "}" + b
  {
    var braced := "{" + name + "}";
    if k :| 0 <= k <= |path| && OccursAt(braced, path, k) {
      assert path == path[..k] + "{" + name + "}" + path[k + |braced|..];
    }
    if a, b :| path == a + "{" + name + "}" + b {
      assert path == a + braced + b;
      assert path[|a|..|a| + |braced|] == braced;
      assert OccursAt(braced, path, |a|);
    }
  }

  lemma InPathIff(op: Operation)
    ensures InPath(op) <==> PathParametersIn(op)
  {
    forall i | 0 <= i < |op.parameters|
      ensures Contains(op.path, "{" + op.parameters[i].name + "}")
         <==> exists a, b :: op.path == a + "{" + op.parameters[i].name + "}" + b
    {
      InBracesIff(op.path, op.parameters[i].name);
    }
    if PathParametersIn(op) {
      assert forall i :: 0 <= i < |op.parameters| ==> op.parameters[i] in op.parameters;
    }
  }

  /**
   An accepted document yields, in order of id, exactly one operation per method
   line under `paths`: with that line's method, the path of the last path line
   before it, first the parameters shared since that line, no parameter twice,
   and every path parameter present in the path.
   */
  lemma OperationsConserved(lines: seq<Line>) returns (inOrder: seq<Operation>)
    requires Parse(lines).Ok?
    ensures var ops, starts := Parse(lines).value.operations, OpenedBy(lines, |lines|);
            && multiset(ops) == multiset(inOrder) && Sorted(ByID, ops)
            && |inOrder| == |starts| && (forall i :: 0 <= i < |starts| ==> Starts(inOrder[i], starts[i]))
    ensures NoRepeats(IDs(inOrder))
    ensures forall op :: op in inOrder ==> op.id != "" && DistinctNames(op.parameters) && PathParametersIn(op)
  {
    assert lines[..|lines|] == lines;
    var s, starts := Run(INITIAL, lines).value, OpenedBy(lines, |lines|);
    RunKeeps(lines, |lines|);
    FlushKeeps(s, starts);
    inOrder := Flush(s).value.operations;
    CheckPassesIff(inOrder, {});
    ByIDOrder(inOrder);
    SortSorts(ByID, inOrder);
    forall op | op in inOrder ensures PathParametersIn(op) {
      InPathIff(op);
    }
  }
}
