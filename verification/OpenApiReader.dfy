/**
 The SDK generator's reader of the OpenAPI document: one pass over the lines
 with a few mode flags, a pending operation that is flushed when the next one
 starts, and path-level parameters that later operations inherit.

 Lines come classified, one constructor per pattern the reader tests for; the
 patterns exclude each other. `Other` is any line that matches none of them.
 */
module OpenApiReader {
  import opened Text
  import opened Ordering

  // ---------- Data ----------

  datatype Location = Query | Path | Header
  datatype Type = TString | TInteger | TBoolean

  datatype Parameter = Parameter(name: string, location: Location, typ: Type, required: bool)
  datatype Operation = Operation(method_: string, path: string, id: string, parameters: seq<Parameter>, hasBody: bool)
  datatype Spec = Spec(openAPI: string, version: string, server: string, operations: seq<Operation>)

  datatype Line =
    | OpenAPILine(version: string)
    | InfoLine | ServersLine | PathsLine | ComponentsLine
    | VersionLine(version: string)
    | ServerLine(url: string)
    | PathLine(path: string)
    | MethodLine(method_: string)
    | OperationIDLine(id: string)
    | RequestBodyLine
    | InlineParameterLine(name: string, location: Location, required: Option<bool>, typ: Type)
    | InlineParametersLine(name: string, location: Location, required: Option<bool>, typ: Type)
    | SchemaRefParameterLine(name: string, location: Location, required: Option<bool>, schema: string)
    | RefParameterLine(ref: string)
    | InlineRefParameterLine(ref: string)
    | Other

  datatype Error =
    | NoOperationID | MethodWithoutPath | UnknownSchema | UnknownReference
    | HeaderMissing | NoOperations | DuplicateID | ParameterNotInPath

  datatype Result<+T> = Ok(value: T) | Err(error: Error)

  // ---------- Parameters ----------

  /** `strconv.ParseBool` of an optional group: an omitted `required` means false. */
  function ParseBool(b: Option<bool>): bool { if b.Some? then b.value else false }

  function ResolveParameterRef(name: string): Result<Parameter> {
    if name == "Limit" then Ok(Parameter("limit", Query, TInteger, false))
    else if name == "Cursor" then Ok(Parameter("cursor", Query, TString, false))
    else if name == "IdempotencyKey" then Ok(Parameter("Idempotency-Key", Header, TString, true))
    else Err(UnknownReference)
  }

  predicate SameKey(p: Parameter, q: Parameter) { p.name == q.name && p.location == q.location }

  predicate Declared(ps: seq<Parameter>, p: Parameter) { exists i :: 0 <= i < |ps| && SameKey(ps[i], p) }

  function AddParameter(ps: seq<Parameter>, p: Parameter): seq<Parameter> {
    if Declared(ps, p) then ps else ps + [p]
  }

  method AppendParameter(target: seq<Parameter>, value: Parameter) returns (r: seq<Parameter>)
    ensures r == AddParameter(target, value)
  {
    for i := 0 to |target|
      invariant forall k :: 0 <= k < i ==> !SameKey(target[k], value)
    {
      if target[i].name == value.name && target[i].location == value.location {
        return target;
      }
    }
    return target + [value];
  }

  /** The parameter a line declares; `Ok(None)` when the line declares none in this position. */
  function LineParameter(line: Line, insideOperation: bool): Result<Option<Parameter>> {
    match line
    case InlineParameterLine(n, l, r, t) => Ok(Some(Parameter(n, l, t, ParseBool(r))))
    case InlineParametersLine(n, l, r, t) => Ok(Some(Parameter(n, l, t, ParseBool(r))))
    case SchemaRefParameterLine(n, l, r, schema) =>
      if schema == "SortableID" then Ok(Some(Parameter(n, l, TString, ParseBool(r)))) else Err(UnknownSchema)
    case RefParameterLine(ref) => if insideOperation then Resolved(ref) else Ok(None)
    case InlineRefParameterLine(ref) => if insideOperation then Resolved(ref) else Ok(None)
    case _ => Ok(None)
  }

  function Resolved(ref: string): Result<Option<Parameter>> {
    match ResolveParameterRef(ref)
    case Ok(p) => Ok(Some(p))
    case Err(e) => Err(e)
  }

  // ---------- One line ----------

  datatype State = State(
    openAPI: string, version: string, server: string,
    inInfo: bool, inServers: bool, inPaths: bool,
    path: string, pathParameters: seq<Parameter>,
    current: Option<Operation>, operations: seq<Operation>)

  const INITIAL := State("", "", "", false, false, false, "", [], None, [])

  function Flush(s: State): Result<State> {
    if s.current.None? then Ok(s)
    else if s.current.value.id == "" then Err(NoOperationID)
    else Ok(s.(operations := s.operations + [s.current.value], current := None))
  }

  function Step(s: State, line: Line): Result<State> {
    match line
    case OpenAPILine(v) => Ok(s.(openAPI := v))
    case InfoLine => Ok(s.(inInfo := true, inServers := false))
    case ServersLine => Ok(s.(inInfo := false, inServers := true))
    case PathsLine => Ok(s.(inInfo := false, inServers := false, inPaths := true))
    case ComponentsLine =>
      (match Flush(s)
       case Err(e) => Err(e)
       case Ok(f) => Ok(f.(inPaths := false)))
    case VersionLine(v) => Ok(if s.inInfo then s.(version := v) else s)
    case ServerLine(u) => Ok(if s.inServers then s.(server := u) else s)
    case _ => if s.inPaths then StepInPaths(s, line) else Ok(s)
  }

  function StepInPaths(s: State, line: Line): Result<State> {
    match line
    case PathLine(p) =>
      (match Flush(s)
       case Err(e) => Err(e)
       case Ok(f) => Ok(f.(path := p, pathParameters := [])))
    case MethodLine(m) =>
      (match Flush(s)
       case Err(e) => Err(e)
       case Ok(f) =>
         if f.path == "" then Err(MethodWithoutPath)
         else Ok(f.(current := Some(Operation(m, f.path, "", f.pathParameters, false)))))
    case OperationIDLine(id) => Ok(if s.current.Some? then s.(current := Some(s.current.value.(id := id))) else s)
    case RequestBodyLine => Ok(if s.current.Some? then s.(current := Some(s.current.value.(hasBody := true))) else s)
    case _ => StepParameter(s, line)
  }

  /** A declared parameter belongs to the pending operation, or to the path when there is none. */
  function StepParameter(s: State, line: Line): Result<State> {
    match LineParameter(line, s.current.Some?)
    case Err(e) => Err(e)
    case Ok(None) => Ok(s)
    case Ok(Some(p)) =>
      if s.current.Some? then
        Ok(s.(current := Some(s.current.value.(parameters := AddParameter(s.current.value.parameters, p)))))
      else Ok(s.(pathParameters := AddParameter(s.pathParameters, p)))
  }

  function Run(s: State, lines: seq<Line>): Result<State> {
    if lines == [] then Ok(s)
    else
      match Run(s, lines[..|lines| - 1])
      case Err(e) => Err(e)
      case Ok(t) => Step(t, lines[|lines| - 1])
  }

  // ---------- The closing checks ----------

  predicate ByID(a: Operation, b: Operation) { LexLe(a.id, b.id) }

  predicate InPath(op: Operation) {
    forall i :: 0 <= i < |op.parameters| ==> op.parameters[i].location == Path ==> Contains(op.path, "{" + op.parameters[i].name + "}")
  }

  /** The first thing the loop over the operations objects to. */
  function CheckOperations(ops: seq<Operation>, seen: set<string>): Option<Error>
    decreases |ops|
  {
    if ops == [] then None
    else if ops[0].id in seen then Some(DuplicateID)
    else if !InPath(ops[0]) then Some(ParameterNotInPath)
    else CheckOperations(ops[1..], seen + {ops[0].id})
  }

  function Finish(s: State): Result<Spec> {
    match Flush(s)
    case Err(e) => Err(e)
    case Ok(f) =>
      if f.openAPI == "" || f.version == "" || f.server == "" then Err(HeaderMissing)
      else if f.operations == [] then Err(NoOperations)
      else
        match CheckOperations(f.operations, {})
        case Some(e) => Err(e)
        case None => Ok(Spec(f.openAPI, f.version, f.server, Sort(ByID, f.operations)))
  }

  function Parse(lines: seq<Line>): Result<Spec> {
    match Run(INITIAL, lines)
    case Err(e) => Err(e)
    case Ok(s) => Finish(s)
  }

  // ---------- The source's loop ----------

  method CheckAll(ops: seq<Operation>) returns (e: Option<Error>)
    ensures e == CheckOperations(ops, {})
  {
    var seen: set<string> := {};
    for i := 0 to |ops|
      invariant CheckOperations(ops, {}) == CheckOperations(ops[i..], seen)
    {
      var op := ops[i];
      assert ops[i..][1..] == ops[i + 1..];
      if op.id in seen {
        return Some(DuplicateID);
      }
      seen := seen + {op.id};
      for j := 0 to |op.parameters|
        invariant forall k :: 0 <= k < j ==> op.parameters[k].location == Path ==> Contains(op.path, "{" + op.parameters[k].name + "}")
      {
        if op.parameters[j].location == Path && !Contains(op.path, "{" + op.parameters[j].name + "}") {
          return Some(ParameterNotInPath);
        }
      }
    }
    return None;
  }

  lemma {:induction false} RunPrefix(s: State, lines: seq<Line>, i: nat)
    requires i < |lines|
    ensures Run(s, lines[..i + 1]) == match Run(s, lines[..i]) { case Err(e) => Err(e) case Ok(t) => Step(t, lines[i]) }
  {
    assert lines[..i + 1][..i] == lines[..i];
  }

  lemma {:induction false} RunFails(s: State, lines: seq<Line>, i: nat)
    requires i <= |lines| && Run(s, lines[..i]).Err?
    ensures Run(s, lines) == Run(s, lines[..i])
    decreases |lines| - i
  {
    if i < |lines| {
      RunPrefix(s, lines, i);
      RunFails(s, lines, i + 1);
    } else {
      assert lines[..i] == lines;
    }
  }

  /** The variables of the reading loop, and the closures over them. */
  class Reader {
    var openAPI: string
    var version: string
    var server: string
    var inInfo: bool
    var inServers: bool
    var inPaths: bool
    var currentPath: string
    var pathParameters: seq<Parameter>
    var current: Option<Operation>
    var operations: seq<Operation>

    constructor ()
      ensures Value() == INITIAL
    {
      openAPI, version, server := "", "", "";
      inInfo, inServers, inPaths := false, false, false;
      currentPath, pathParameters, current, operations := "", [], None, [];
    }

    ghost function Value(): State
      reads this
    {
      State(openAPI, version, server, inInfo, inServers, inPaths, currentPath, pathParameters, current, operations)
    }

    method FlushCurrent() returns (e: Option<Error>)
      modifies this
      ensures match Flush(old(Value())) { case Err(x) => e == Some(x) case Ok(f) => e == None && Value() == f }
    {
      if current.None? {
        return None;
      }
      if current.value.id == "" {
        return Some(NoOperationID);
      }
      operations := operations + [current.value];
      current := None;
      return None;
    }

    method ReadLine(line: Line) returns (e: Option<Error>)
      modifies this
      ensures match Step(old(Value()), line) { case Err(x) => e == Some(x) case Ok(t) => e == None && Value() == t }
    {
      e := None;
      match line {
        case OpenAPILine(v) => openAPI := v;
        case InfoLine => inInfo, inServers := true, false;
        case ServersLine => inInfo, inServers := false, true;
        case PathsLine => inInfo, inServers, inPaths := false, false, true;
        case ComponentsLine =>
          e := FlushCurrent();
          if e.None? {
            inPaths := false;
          }
        case VersionLine(v) =>
          if inInfo {
            version := v;
          }
        case ServerLine(u) =>
          if inServers {
            server := u;
          }
        case _ =>
          if inPaths {
            e := ReadLineInPaths(line);
          }
      }
    }

    method ReadLineInPaths(line: Line) returns (e: Option<Error>)
      modifies this
      ensures match StepInPaths(old(Value()), line) { case Err(x) => e == Some(x) case Ok(t) => e == None && Value() == t }
    {
      e := None;
      match line {
        case PathLine(p) =>
          e := FlushCurrent();
          if e.None? {
            currentPath := p;
            pathParameters := [];
          }
        case MethodLine(m) =>
          e := FlushCurrent();
          if e.None? {
            if currentPath == "" {
              return Some(MethodWithoutPath);
            }
            current := Some(Operation(m, currentPath, "", pathParameters, false));
          }
        case OperationIDLine(id) =>
          if current.Some? {
            current := Some(current.value.(id := id));
          }
        case RequestBodyLine =>
          if current.Some? {
            current := Some(current.value.(hasBody := true));
          }
        case _ => e := ReadParameterLine(line);
      }
    }

    method ReadParameterLine(line: Line) returns (e: Option<Error>)
      modifies this
      ensures match StepParameter(old(Value()), line) { case Err(x) => e == Some(x) case Ok(t) => e == None && Value() == t }
    {
      var declared := LineParameter(line, current.Some?);
      if declared.Err? {
        return Some(declared.error);
      }
      if declared.value.Some? {
        if current.Some? {
          var ps := AppendParameter(current.value.parameters, declared.value.value);
          current := Some(current.value.(parameters := ps));
        } else {
          pathParameters := AppendParameter(pathParameters, declared.value.value);
        }
      }
      return None;
    }

    method Close() returns (r: Result<Spec>)
      modifies this
      ensures r == Finish(old(Value()))
    {
      var failed := FlushCurrent();
      if failed.Some? {
        return Err(failed.value);
      }
      if openAPI == "" || version == "" || server == "" {
        return Err(HeaderMissing);
      }
      if operations == [] {
        return Err(NoOperations);
      }
      var e := CheckAll(operations);
      if e.Some? {
        return Err(e.value);
      }
      return Ok(Spec(openAPI, version, server, Sort(ByID, operations)));
    }
  }

  method ReadSpec(lines: seq<Line>) returns (r: Result<Spec>)
    ensures r == Parse(lines)
  {
    var reader := new Reader();
    for i := 0 to |lines|
      invariant Run(INITIAL, lines[..i]) == Ok(reader.Value())
    {
      RunPrefix(INITIAL, lines, i);
      var e := reader.ReadLine(lines[i]);
      if e.Some? {
        RunFails(INITIAL, lines, i + 1);
        return Err(e.value);
      }
    }
    assert lines[..|lines|] == lines;
    r := reader.Close();
  }
}
