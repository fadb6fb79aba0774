/**
 The pre-v1 migration chain is squashed into a few baseline files. Each file
 wraps the payloads of a contiguous range of legacy migrations, in order, into
 one transaction with generated comments. Squashing must not change what the
 statements do, whatever SQL means.
 */
module MigrationSquash {
  import opened Text

  const BEGIN := "BEGIN;"
  const COMMIT := "COMMIT;"
  const HISTORY := "INSERT INTO migration_history"

  // ---------- Taking the payload out of a migration ----------

  /** Python's whitespace for `strip()`. */
  predicate IsBlank(c: char) { IsSpace(c) || '\U{1C}' <= c <= '\U{1F}' }
  predicate IsNewline(c: char) { c == '\n' }

  predicate EndsWith(s: string, suffix: string) { |s| >= |suffix| && s[|s| - |suffix|..] == suffix }

  /** A text that begins with BEGIN and ends with COMMIT has room for both. */
  lemma RoomForBoth(s: string)
    requires BEGIN <= s && EndsWith(s, COMMIT)
    ensures |s| >= |BEGIN| + |COMMIT|
  {
    var tail := s[|s| - |COMMIT|..];
    assert tail[0] == s[|s| - |COMMIT|] == 'C';
    assert forall k :: 0 <= k < |BEGIN| ==> s[k] == BEGIN[k] != 'C';
  }

  lemma LastIndexAtEnd(s: string, suffix: string)
    requires EndsWith(s, suffix) && suffix != ""
    ensures LastIndex(s, suffix) == |s| - |suffix|
  {
    assert OccursAt(suffix, s, |s| - |suffix|);
  }

  /** `None` stands for the ValueError. */
  function StripPayload(version: nat, text: string): Option<string> {
    var stripped := Trim(IsBlank, text);
    if !(BEGIN <= stripped) || !EndsWith(stripped, COMMIT) then None
    else
      var body := stripped[|BEGIN|..];
      var inner := body[..Found(stripped)];
      if version < 4 then Some(Trim(IsNewline, inner) + "\n")
      else
        var marker := LastIndex(inner, HISTORY);
        if marker < 0 then None else Some(Trim(IsNewline, inner[..marker]) + "\n")
  }

  /** Where the last COMMIT begins behind BEGIN; the search cannot fail. */
  function Found(stripped: string): (k: nat)
    requires BEGIN <= stripped && EndsWith(stripped, COMMIT)
    ensures k == |stripped| - |BEGIN| - |COMMIT|
  {
    RoomForBoth(stripped);
    LastIndexAtEnd(stripped[|BEGIN|..], COMMIT);
    LastIndex(stripped[|BEGIN|..], COMMIT)
  }

  lemma FrameIsTrimmed(left: string, inner: string, right: string)
    requires forall c :: c in left || c in right ==> IsBlank(c)
    ensures Trim(IsBlank, left + BEGIN + inner + COMMIT + right) == BEGIN + inner + COMMIT
  {
    var core := BEGIN + inner + COMMIT;
    assert core[0] == 'B' && core[|core| - 1] == ';';
    assert left + BEGIN + inner + COMMIT + right == left + core + right;
    TrimPadded(IsBlank, left, core, right);
  }

  /** Of the first three migrations, everything between BEGIN and COMMIT is the payload. */
  lemma EarlyPayloadRecovered(version: nat, left: string, payload: string, right: string)
    requires version < 4 && forall c :: c in left || c in right ==> IsBlank(c)
    ensures StripPayload(version, left + BEGIN + payload + COMMIT + right) == Some(Trim(IsNewline, payload) + "\n")
  {
    FrameIsTrimmed(left, payload, right);
    var core := BEGIN + payload + COMMIT;
    assert BEGIN <= core && EndsWith(core, COMMIT);
    assert core[|BEGIN|..][..|payload|] == payload;
  }

  /** No proper end of the marker is a beginning of it, so it cannot reappear across its own end. */
  lemma MarkerDoesNotOverlap(d: nat, rest: string)
    requires 0 < d < |HISTORY|
    ensures !OccursAt(HISTORY, HISTORY + rest, d)
  {
    var s := HISTORY + rest;
    if OccursAt(HISTORY, s, d) {
      assert s[d] == HISTORY[0] && (d + 1 < |HISTORY| ==> HISTORY[d + 1] == HISTORY[1]) && (d + 2 < |HISTORY| ==> HISTORY[d + 2] == HISTORY[2]) by {
        assert s[d..d + |HISTORY|][0] == HISTORY[0];
        assert s[d..d + |HISTORY|][1] == HISTORY[1];
        assert s[d..d + |HISTORY|][2] == HISTORY[2];
      }
    }
  }

  lemma LastMarker(payload: string, rest: string)
    requires !Contains(rest, HISTORY)
    ensures LastIndex(payload + HISTORY + rest, HISTORY) == |payload|
  {
    var s := payload + HISTORY + rest;
    assert OccursAt(HISTORY, s, |payload|);
    var k := LastIndex(s, HISTORY);
    if k > |payload| {
      var d := k - |payload|;
      var behind := HISTORY + rest;
      assert s[k..k + |HISTORY|] == behind[d..d + |HISTORY|];
      if d < |HISTORY| {
        MarkerDoesNotOverlap(d, rest);
      } else {
        assert behind[d..d + |HISTORY|] == rest[d - |HISTORY|..d];
        assert OccursAt(HISTORY, rest, d - |HISTORY|);
      }
    }
  }

  /** Of later ones, everything up to the last history insert: whatever the payload is, and whatever follows the insert. */
  lemma PayloadRecovered(version: nat, left: string, payload: string, rest: string, right: string)
    requires version >= 4 && !Contains(rest, HISTORY) && forall c :: c in left || c in right ==> IsBlank(c)
    ensures StripPayload(version, left + BEGIN + (payload + HISTORY + rest) + COMMIT + right) == Some(Trim(IsNewline, payload) + "\n")
  {
    var inner := payload + HISTORY + rest;
    FrameIsTrimmed(left, inner, right);
    var core := BEGIN + inner + COMMIT;
    assert BEGIN <= core && EndsWith(core, COMMIT);
    assert core[|BEGIN|..][..|inner|] == inner;
    LastMarker(payload, rest);
    assert inner[..|payload|] == payload;
  }

  // ---------- Building the baseline files ----------

  /** A legacy migration: its file name and its text; the version is its position, counted from one. */
  datatype Migration = Migration(file: string, text: string)

  datatype Group = Group(start: nat, end: nat, name: string)

  /** The groups of the generator; the phase of each is not modelled. */
  const GROUPS: seq<Group> := [
    Group(4, 8, "security_eventing"), Group(9, 17, "commerce_core"), Group(18, 27, "operations_foundation"),
    Group(28, 40, "commerce_extensions"), Group(41, 54, "regulated_integrations"), Group(55, 63, "control_plane"),
    Group(64, 64, "legacy_contract"), Group(65, 74, "runtime_operations")]

  /** The groups cover `from..to` without gaps, in order. */
  predicate Contiguous(groups: seq<Group>, from: nat, to: nat) {
    if groups == [] then from == to + 1
    else groups[0].start == from <= groups[0].end <= to && Contiguous(groups[1..], groups[0].end + 1, to)
  }

  /** The fixed texts of every file: the history insert, the evidence of version 4, and the generated comment lines. */
  datatype Frame = Frame(history: string, evidence: string, component: string, range: string, doNotEdit: string,
                         sourceBegin: string, sourceEnd: string, source: string) {
    ghost predicate Valid() {
      && CommentStart(component) && CommentStart(range) && CommentStart(doNotEdit)
      && CommentStart(sourceBegin) && CommentStart(sourceEnd) && CommentStart(source)
    }
  }

  predicate OneLine(s: string) { '\n' !in s }
  predicate CommentStart(s: string) { OneLine(s) && "--" <= s }

  function Pad6(n: nat): string {
    seq(6, i requires 0 <= i < 6 => '0' + ((n / [100000, 10000, 1000, 100, 10, 1][i]) % 10) as char)
  }

  function Head(version: nat, g: Group, f: Frame): seq<string> {
    ["BEGIN;\n",
     "\n" + (f.component + (Pad6(version) + ": " + g.name + ".") + "\n"),
     f.range + (Pad6(g.start) + ".." + Pad6(g.end) + ".") + "\n",
     f.doNotEdit + "\n",
     "\n" + (f.sourceBegin + "\n")]
  }

  function Tail(version: nat, frame: Frame): seq<string> {
    [frame.sourceEnd + "\n" + "\n"] + (if version == 4 then [frame.evidence] else []) + [frame.history, "\nCOMMIT;\n"]
  }

  function SourceComment(m: Migration, f: Frame): string { "\n" + (f.source + m.file + "\n") }

  function Payload(legacy: seq<Migration>, version: nat): Option<string>
    requires 1 <= version <= |legacy|
  {
    StripPayload(version, legacy[version - 1].text)
  }

  /** The sources of `from..to`: a comment and the payload of each. */
  function Sources(legacy: seq<Migration>, from: nat, to: nat, f: Frame): Option<seq<string>>
    requires 1 <= from <= to + 1 <= |legacy| + 1
    decreases 1 + to - from
  {
    if from > to then Some([])
    else
      var front := Sources(legacy, from, to - 1, f);
      var last := Payload(legacy, to);
      if front.None? || last.None? then None
      else Some(front.value + [SourceComment(legacy[to - 1], f), last.value])
  }

  function BaselineFile(legacy: seq<Migration>, version: nat, g: Group, frame: Frame): Option<seq<string>>
    requires 1 <= g.start <= g.end <= |legacy|
  {
    var sources := Sources(legacy, g.start, g.end, frame);
    if sources.None? then None else Some(Head(version, g, frame) + sources.value + Tail(version, frame))
  }

  predicate InRange(legacy: seq<Migration>, groups: seq<Group>) {
    forall i :: 0 <= i < |groups| ==> 1 <= groups[i].start <= groups[i].end <= |legacy|
  }

  /** One file per group, versions counted on from `next`. */
  ghost predicate IsBuild(legacy: seq<Migration>, groups: seq<Group>, next: nat, frame: Frame, files: seq<seq<string>>)
    requires InRange(legacy, groups)
  {
    |files| == |groups| && forall i :: 0 <= i < |groups| ==> BaselineFile(legacy, next + i, groups[i], frame) == Some(files[i])
  }

  method WriteBaselineFile(legacy: seq<Migration>, version: nat, g: Group, frame: Frame) returns (pieces: Option<seq<string>>)
    requires 1 <= g.start <= g.end <= |legacy|
    ensures pieces == BaselineFile(legacy, version, g, frame)
  {
    var head := Head(version, g, frame);
    var out: seq<string> := head;
    for old_ := g.start to g.end + 1
      invariant Sources(legacy, g.start, old_ - 1, frame).Some? && out == head + Sources(legacy, g.start, old_ - 1, frame).value
    {
      var source := legacy[old_ - 1];
      var payload := StripPayload(old_, source.text);
      if payload.None? {
        SourcesFail(legacy, g.start, old_, g.end, frame);
        return None;
      }
      out := out + [SourceComment(source, frame)] + [payload.value];
    }
    return Some(out + Tail(version, frame));
  }

  lemma {:induction false} SourcesFail(legacy: seq<Migration>, from: nat, to: nat, end: nat, f: Frame)
    requires 1 <= from <= to <= end <= |legacy| && Payload(legacy, to).None?
    ensures Sources(legacy, from, end, f).None?
    decreases end
  {
    if Sources(legacy, from, end, f).Some? {
      SourcesEnd(legacy, from, end, f);
      if to < end {
        SourcesFail(legacy, from, to, end - 1, f);
      }
    }
  }

  /** The generator's loop over the groups; it stops at the first migration that cannot be stripped. */
  method BuildBaseline(legacy: seq<Migration>, groups: seq<Group>, frame: Frame) returns (files: Option<seq<seq<string>>>)
    requires InRange(legacy, groups)
    ensures files.Some? ==> IsBuild(legacy, groups, 4, frame, files.value)
    ensures files.None? ==> exists i :: 0 <= i < |groups| && Sources(legacy, groups[i].start, groups[i].end, frame).None?
  {
    var nextVersion := 4;
    var out: seq<seq<string>> := [];
    for i := 0 to |groups|
      invariant nextVersion == 4 + i && |out| == i
      invariant forall k :: 0 <= k < i ==> BaselineFile(legacy, 4 + k, groups[k], frame) == Some(out[k])
    {
      var group := groups[i];
      var file := WriteBaselineFile(legacy, nextVersion, group, frame);
      if file.None? {
        assert Sources(legacy, group.start, group.end, frame).None?;
        return None;
      }
      out := out + [file.value];
      nextVersion := nextVersion + 1;
    }
    return Some(out);
  }

  /** The comment and the payload of migration `v` stand at `i` in the pieces. */
  predicate StandsAt(pieces: seq<string>, i: nat, legacy: seq<Migration>, v: nat, f: Frame)
    requires 1 <= v <= |legacy|
  {
    && i + 1 < |pieces| && pieces[i] == "\n" + (f.source + legacy[v - 1].file + "\n")
    && StripPayload(v, legacy[v - 1].text) == Some(pieces[i + 1])
  }

  lemma {:induction false} SourcesEnd(legacy: seq<Migration>, from: nat, end: nat, f: Frame)
    requires 1 <= from <= end <= |legacy| && Sources(legacy, from, end, f).Some?
    ensures Sources(legacy, from, end - 1, f).Some? && Payload(legacy, end).Some?
    ensures Sources(legacy, from, end, f).value
         == Sources(legacy, from, end - 1, f).value + [SourceComment(legacy[end - 1], f), Payload(legacy, end).value]
  {
  }

  lemma {:induction false} SourcesCount(legacy: seq<Migration>, from: nat, end: nat, f: Frame)
    requires 1 <= from <= end + 1 <= |legacy| + 1 && Sources(legacy, from, end, f).Some?
    ensures |Sources(legacy, from, end, f).value| == 2 * (end + 1 - from)
    decreases end
  {
    if from <= end {
      SourcesEnd(legacy, from, end, f);
      SourcesCount(legacy, from, end - 1, f);
    }
  }

  lemma {:induction false} SourcesAt(legacy: seq<Migration>, from: nat, end: nat, f: Frame, v: nat)
    requires 1 <= from <= v <= end <= |legacy| && Sources(legacy, from, end, f).Some?
    ensures StandsAt(Sources(legacy, from, end, f).value, 2 * (v - from), legacy, v, f)
    decreases end
  {
    SourcesEnd(legacy, from, end, f);
    SourcesCount(legacy, from, end - 1, f);
    var front, all := Sources(legacy, from, end - 1, f).value, Sources(legacy, from, end, f).value;
    LastStands(front, all, legacy, end, f);
    if v < end {
      SourcesAt(legacy, from, end - 1, f, v);
      FrontStands(front, all, 2 * (v - from), legacy, v, f);
    }
  }

  lemma LastStands(front: seq<string>, all: seq<string>, legacy: seq<Migration>, v: nat, f: Frame)
    requires 1 <= v <= |legacy| && Payload(legacy, v).Some?
    requires all == front + [SourceComment(legacy[v - 1], f), Payload(legacy, v).value]
    ensures StandsAt(all, |front|, legacy, v, f)
  {
  }

  lemma FrontStands(front: seq<string>, all: seq<string>, i: nat, legacy: seq<Migration>, v: nat, f: Frame)
    requires 1 <= v <= |legacy| && StandsAt(front, i, legacy, v, f) && front <= all
    ensures StandsAt(all, i, legacy, v, f)
  {
  }

  /**
   A baseline file piece by piece: BEGIN and the generated comments, the comment
   and the payload of each migration of its group, and behind them the evidence
   in version 4 only, the history insert and COMMIT.
   */
  lemma FileLayout(legacy: seq<Migration>, version: nat, g: Group, f: Frame, v: nat) returns (file: seq<string>)
    requires 1 <= g.start <= v <= g.end <= |legacy| && BaselineFile(legacy, version, g, f).Some?
    ensures BaselineFile(legacy, version, g, f) == Some(file)
    ensures file != [] && file[0] == "BEGIN;\n"
    ensures StandsAt(file, 5 + 2 * (v - g.start), legacy, v, f)
    ensures |file| > 5 + 2 * (g.end + 1 - g.start) && IsEnd(file[5 + 2 * (g.end + 1 - g.start)..], version, f)
  {
    var head, sources, tail := FileParts(legacy, version, g, f);
    SourcesAt(legacy, g.start, g.end, f, v);
    Enclosed(head, sources, tail, 2 * (v - g.start), legacy, v, f);
    file := head + sources + tail;
  }

  lemma FileParts(legacy: seq<Migration>, version: nat, g: Group, f: Frame) returns (head: seq<string>, sources: seq<string>, tail: seq<string>)
    requires 1 <= g.start <= g.end <= |legacy| && BaselineFile(legacy, version, g, f).Some?
    ensures BaselineFile(legacy, version, g, f) == Some(head + sources + tail) && Sources(legacy, g.start, g.end, f) == Some(sources)
    ensures |head| == 5 && head[0] == "BEGIN;\n" && |sources| == 2 * (g.end + 1 - g.start)
    ensures tail != [] && IsEnd(tail, version, f)
  {
    head, sources, tail := Head(version, g, f), Sources(legacy, g.start, g.end, f).value, Tail(version, f);
    SourcesCount(legacy, g.start, g.end, f);
  }

  /** What every file ends with, and the evidence in version 4 only. */
  predicate IsEnd(pieces: seq<string>, version: nat, f: Frame) {
    pieces == if version == 4 then [f.sourceEnd + "\n" + "\n", f.evidence, f.history, "\nCOMMIT;\n"]
              else [f.sourceEnd + "\n" + "\n", f.history, "\nCOMMIT;\n"]
  }

  lemma Enclosed(head: seq<string>, sources: seq<string>, tail: seq<string>, i: nat, legacy: seq<Migration>, v: nat, f: Frame)
    requires 1 <= v <= |legacy| && StandsAt(sources, i, legacy, v, f)
    ensures StandsAt(head + sources + tail, |head| + i, legacy, v, f)
    ensures head != [] ==> (head + sources + tail)[0] == head[0]
    ensures (head + sources + tail)[|head| + |sources|..] == tail
  {
  }

  lemma GroupsAreContiguous()
    ensures Contiguous(GROUPS, 4, 74) && |GROUPS| == 8
  {
    var g := GROUPS;
    assert Contiguous([], 75, 74);
    assert g[7..] == [Group(65, 74, "runtime_operations")] && g[7..][1..] == [];
    assert Contiguous(g[7..], 65, 74);
    assert g[6..][1..] == g[7..] && Contiguous(g[6..], 64, 74);
    assert g[5..][1..] == g[6..] && Contiguous(g[5..], 55, 74);
    assert g[4..][1..] == g[5..] && Contiguous(g[4..], 41, 74);
    assert g[3..][1..] == g[4..] && Contiguous(g[3..], 28, 74);
    assert g[2..][1..] == g[3..] && Contiguous(g[2..], 18, 74);
    assert g[1..][1..] == g[2..] && Contiguous(g[1..], 9, 74);
  }

  // ---------- Executing SQL texts ----------

  /**
   Any way of executing SQL texts: `run` turns a state into the next one, and
   `complete` tells the texts after which execution can be continued separately.
   */
  ghost predicate Sequential<S(!new)>(run: (S, string) -> S, complete: string -> bool) {
    && (forall s :: run(s, "") == s)
    && (forall s, a, b :: complete(a) ==> run(s, a + b) == run(run(s, a), b))
  }

  ghost predicate AllComplete(complete: string -> bool, pieces: seq<string>) { forall p :: p in pieces ==> complete(p) }

  /** The consequence used below: a text made of complete pieces runs piece by piece. */
  ghost predicate Piecewise<S(!new)>(run: (S, string) -> S, complete: string -> bool) {
    forall s, pieces :: AllComplete(complete, pieces) ==> run(s, Concat(pieces)) == RunAll(run, s, pieces)
  }

  lemma SequentialIsPiecewise<S(!new)>(run: (S, string) -> S, complete: string -> bool)
    requires Sequential(run, complete)
    ensures Piecewise(run, complete)
  {
    forall s, pieces | AllComplete(complete, pieces) ensures run(s, Concat(pieces)) == RunAll(run, s, pieces) {
      RunPieces(run, complete, s, pieces);
    }
  }

  ghost predicate Silent<S(!new)>(run: (S, string) -> S, complete: string -> bool, text: string) {
    complete(text) && forall s :: run(s, text) == s
  }

  /** A text of comment lines and empty lines. */
  ghost predicate IsComment(text: string) {
    text != "" && text[|text| - 1] == '\n' && forall k :: 0 <= k < |Split('\n', text)| ==>
      Split('\n', text)[k] == "" || "--" <= Split('\n', text)[k]
  }

  function RunAll<S>(run: (S, string) -> S, s: S, texts: seq<string>): S {
    if texts == [] then s else run(RunAll(run, s, texts[..|texts| - 1]), texts[|texts| - 1])
  }

  lemma {:induction false} RunAllConcat<S>(run: (S, string) -> S, s: S, a: seq<string>, b: seq<string>)
    ensures RunAll(run, s, a + b) == RunAll(run, RunAll(run, s, a), b)
  {
    if b == [] {
      assert a + b == a;
    } else {
      assert (a + b)[..|a + b| - 1] == a + b[..|b| - 1];
      RunAllConcat(run, s, a, b[..|b| - 1]);
    }
  }

  /** Running a text made of complete pieces runs the pieces one by one. */
  lemma {:induction false} RunPieces<S(!new)>(run: (S, string) -> S, complete: string -> bool, s: S, pieces: seq<string>)
    requires Sequential(run, complete) && AllComplete(complete, pieces)
    ensures run(s, Concat(pieces)) == RunAll(run, s, pieces)
  {
    if pieces != [] {
      RunPieces(run, complete, run(s, pieces[0]), pieces[1..]);
      assert pieces == [pieces[0]] + pieces[1..];
      RunAllConcat(run, s, [pieces[0]], pieces[1..]);
      assert RunAll(run, s, [pieces[0]]) == run(s, pieces[0]) by {
        assert [pieces[0]][..0] == [];
      }
    }
  }

  lemma {:induction false} SilentPieces<S(!new)>(run: (S, string) -> S, complete: string -> bool, s: S, pieces: seq<string>)
    requires forall p :: p in pieces ==> Silent(run, complete, p)
    ensures RunAll(run, s, pieces) == s
  {
    if pieces != [] {
      SilentPieces(run, complete, s, pieces[..|pieces| - 1]);
      assert Silent(run, complete, pieces[|pieces| - 1]);
    }
  }

  ghost predicate Readable(legacy: seq<Migration>, from: nat, to: nat)
    requires 1 <= from <= to + 1 <= |legacy| + 1
  {
    forall v :: from <= v <= to ==> Payload(legacy, v).Some?
  }

  /** Executing the legacy payloads of `from..to` in version order. */
  ghost function RunLegacy<S>(run: (S, string) -> S, s: S, legacy: seq<Migration>, from: nat, to: nat): S
    requires 1 <= from <= to + 1 <= |legacy| + 1 && Readable(legacy, from, to)
    decreases 1 + to - from
  {
    if from > to then s else run(RunLegacy(run, s, legacy, from, to - 1), Payload(legacy, to).value)
  }

  /** What is assumed of the surroundings: comments, transaction brackets and bookkeeping inserts do not matter. */
  ghost predicate FrameIsSilent<S(!new)>(run: (S, string) -> S, complete: string -> bool, frame: Frame) {
    && (forall c :: IsComment(c) ==> Silent(run, complete, c))
    && Silent(run, complete, "BEGIN;\n") && Silent(run, complete, "\nCOMMIT;\n")
    && frame.Valid() && Silent(run, complete, frame.history) && Silent(run, complete, frame.evidence)
  }

  lemma CommentLine(s: string)
    requires CommentStart(s)
    ensures IsComment(s + "\n")
  {
    assert s + "\n" == s + ['\n'] + "";
    SplitAcross('\n', s, "");
    SplitSeparatorFree('\n', s);
  }

  lemma EmptyLineAround(c: string)
    requires IsComment(c)
    ensures IsComment("\n" + c) && IsComment(c + "\n")
  {
    assert "\n" + c == "" + ['\n'] + c && c + "\n" == c + ['\n'] + "";
    SplitAcross('\n', "", c);
    SplitAcross('\n', c, "");
  }

  lemma CommentContinued(start: string, rest: string)
    requires CommentStart(start) && OneLine(rest)
    ensures CommentStart(start + rest)
  {
    assert start[0] == '-' && start[1] == '-';
  }

  lemma Pad6OneLine(n: nat)
    ensures OneLine(Pad6(n))
  {
    var s := Pad6(n);
    forall i | 0 <= i < |s| ensures s[i] != '\n' {
      assert s[i] >= '0';
    }
  }

  lemma HeadLines(version: nat, g: Group, frame: Frame)
    requires OneLine(g.name) && frame.Valid()
    ensures forall i :: 1 <= i < 5 ==> IsComment(Head(version, g, frame)[i])
  {
    Pad6OneLine(version);
    Pad6OneLine(g.start);
    Pad6OneLine(g.end);
    CommentContinued(frame.component, Pad6(version) + ": " + g.name + ".");
    CommentLine(frame.component + (Pad6(version) + ": " + g.name + "."));
    EmptyLineAround(frame.component + (Pad6(version) + ": " + g.name + ".") + "\n");
    CommentContinued(frame.range, Pad6(g.start) + ".." + Pad6(g.end) + ".");
    CommentLine(frame.range + (Pad6(g.start) + ".." + Pad6(g.end) + "."));
    CommentLine(frame.doNotEdit);
    CommentLine(frame.sourceBegin);
    EmptyLineAround(frame.sourceBegin + "\n");
  }

  // ---------- The squash preserves meaning ----------

  /** What is assumed of the legacy chain: payloads that can be executed on their own, under one-line file names. */
  ghost predicate Executable(complete: string -> bool, legacy: seq<Migration>, from: nat, to: nat)
    requires 1 <= from <= to + 1 <= |legacy| + 1
  {
    Readable(legacy, from, to) && forall v :: from <= v <= to ==> ExecutableFile(complete, legacy, v)
  }

  predicate ExecutableFile(complete: string -> bool, legacy: seq<Migration>, v: nat) {
    1 <= v <= |legacy| && OneLine(legacy[v - 1].file) && Payload(legacy, v).Some? && complete(Payload(legacy, v).value)
  }

  lemma {:induction false} SourcesComplete<S(!new)>(run: (S, string) -> S, complete: string -> bool, legacy: seq<Migration>, from: nat, to: nat, f: Frame)
    requires 1 <= from <= to + 1 <= |legacy| + 1 && f.Valid()
    requires Executable(complete, legacy, from, to) && forall c :: IsComment(c) ==> Silent(run, complete, c)
    ensures Sources(legacy, from, to, f).Some?
    ensures forall p :: p in Sources(legacy, from, to, f).value ==> complete(p)
    decreases 1 + to - from
  {
    if from <= to {
      assert ExecutableFile(complete, legacy, to);
      SourcesComplete(run, complete, legacy, from, to - 1, f);
      SourceCommentIsComment(legacy[to - 1], f);
      assert Silent(run, complete, SourceComment(legacy[to - 1], f));
    }
  }

  lemma {:induction false} SourcesRunPayloads<S(!new)>(run: (S, string) -> S, complete: string -> bool, s: S, legacy: seq<Migration>, from: nat, to: nat, f: Frame)
    requires 1 <= from <= to + 1 <= |legacy| + 1 && f.Valid()
    requires Executable(complete, legacy, from, to) && forall c :: IsComment(c) ==> Silent(run, complete, c)
    ensures Sources(legacy, from, to, f).Some?
    ensures RunAll(run, s, Sources(legacy, from, to, f).value) == RunLegacy(run, s, legacy, from, to)
    decreases 1 + to - from
  {
    SourcesComplete(run, complete, legacy, from, to, f);
    if from <= to {
      assert ExecutableFile(complete, legacy, to);
      SourcesRunPayloads(run, complete, s, legacy, from, to - 1, f);
      var front, comment, payload := Sources(legacy, from, to - 1, f).value, SourceComment(legacy[to - 1], f), Payload(legacy, to).value;
      SourceCommentIsComment(legacy[to - 1], f);
      RunCommented(run, complete, s, front, comment, payload);
    }
  }

  lemma SourceCommentIsComment(m: Migration, f: Frame)
    requires f.Valid() && OneLine(m.file)
    ensures IsComment(SourceComment(m, f))
  {
    CommentContinued(f.source, m.file);
    CommentLine(f.source + m.file);
    EmptyLineAround(f.source + m.file + "\n");
  }

  lemma {:induction false} RunCommented<S(!new)>(run: (S, string) -> S, complete: string -> bool, s: S, front: seq<string>, comment: string, payload: string)
    requires Silent(run, complete, comment)
    ensures RunAll(run, s, front + [comment, payload]) == run(RunAll(run, s, front), payload)
  {
    RunAllConcat(run, s, front, [comment, payload]);
    assert [comment, payload][..1] == [comment] && [comment][..0] == [];
    var t := RunAll(run, s, front);
    assert RunAll(run, t, [comment]) == t;
  }

  /** One baseline file, executed as a text, does what its range of legacy migrations does. */
  lemma {:induction false} FileRunsRange<S(!new)>(run: (S, string) -> S, complete: string -> bool, s: S, legacy: seq<Migration>, version: nat, g: Group,
                               frame: Frame, pieces: seq<string>)
    requires 1 <= g.start <= g.end <= |legacy| && OneLine(g.name)
    requires Piecewise(run, complete) && FrameIsSilent(run, complete, frame) && Executable(complete, legacy, g.start, g.end)
    requires BaselineFile(legacy, version, g, frame) == Some(pieces)
    ensures run(s, Concat(pieces)) == RunLegacy(run, s, legacy, g.start, g.end)
  {
    SourcesComplete(run, complete, legacy, g.start, g.end, frame);
    SourcesRunPayloads(run, complete, s, legacy, g.start, g.end, frame);
    FrameSilent(run, complete, version, g, frame);
    RunFramed(run, complete, s, Head(version, g, frame), Sources(legacy, g.start, g.end, frame).value, Tail(version, frame));
  }

  lemma FrameSilent<S(!new)>(run: (S, string) -> S, complete: string -> bool, version: nat, g: Group, frame: Frame)
    requires OneLine(g.name) && FrameIsSilent(run, complete, frame)
    ensures forall p :: p in Head(version, g, frame) ==> Silent(run, complete, p)
    ensures forall p :: p in Tail(version, frame) ==> Silent(run, complete, p)
  {
    HeadLines(version, g, frame);
    var head := Head(version, g, frame);
    assert head[0] == "BEGIN;\n";
    forall p | p in head ensures Silent(run, complete, p) {
      var i :| 0 <= i < |head| && head[i] == p;
      if i > 0 {
        assert IsComment(head[i]);
      }
    }
    CommentLine(frame.sourceEnd);
    EmptyLineAround(frame.sourceEnd + "\n");
  }

  lemma {:induction false} RunFramed<S(!new)>(run: (S, string) -> S, complete: string -> bool, s: S, head: seq<string>, sources: seq<string>, tail: seq<string>)
    requires Piecewise(run, complete)
    requires (forall p :: p in head ==> Silent(run, complete, p)) && (forall p :: p in tail ==> Silent(run, complete, p))
    requires forall p :: p in sources ==> complete(p)
    ensures run(s, Concat(head + sources + tail)) == RunAll(run, s, sources)
  {
    assert AllComplete(complete, head + sources + tail);
    RunAllConcat(run, s, head + sources, tail);
    RunAllConcat(run, s, head, sources);
    SilentPieces(run, complete, s, head);
    SilentPieces(run, complete, RunAll(run, s, head + sources), tail);
  }

  lemma {:induction false} RunLegacySplit<S>(run: (S, string) -> S, s: S, legacy: seq<Migration>, from: nat, mid: nat, to: nat)
    requires 1 <= from <= mid + 1 <= to + 1 <= |legacy| + 1
    requires forall v :: from <= v <= to ==> Payload(legacy, v).Some?
    ensures RunLegacy(run, s, legacy, from, to) == RunLegacy(run, RunLegacy(run, s, legacy, from, mid), legacy, mid + 1, to)
    decreases 1 + to - mid
  {
    if mid < to {
      RunLegacySplit(run, s, legacy, from, mid, to - 1);
    }
  }

  lemma {:induction false} ContiguousLast(groups: seq<Group>, from: nat, to: nat)
    requires 1 <= from && Contiguous(groups, from, to) && groups != []
    ensures var last := groups[|groups| - 1];
            from <= last.start <= last.end == to && Contiguous(groups[..|groups| - 1], from, last.start - 1)
  {
    if |groups| > 1 {
      ContiguousLast(groups[1..], groups[0].end + 1, to);
      var front := groups[..|groups| - 1];
      assert front[1..] == groups[1..][..|groups| - 2];
    }
  }

  lemma {:induction false} ContiguousBounds(groups: seq<Group>, from: nat, to: nat)
    requires Contiguous(groups, from, to)
    ensures from <= to + 1 && forall i :: 0 <= i < |groups| ==> from <= groups[i].start <= groups[i].end <= to
  {
    if groups != [] {
      ContiguousBounds(groups[1..], groups[0].end + 1, to);
      assert forall i :: 1 <= i < |groups| ==> groups[i] == groups[1..][i - 1];
    }
  }

  /** The text of every file. */
  function Texts(files: seq<seq<string>>): (texts: seq<string>)
    ensures |texts| == |files| && forall i :: 0 <= i < |files| ==> texts[i] == Concat(files[i])
  {
    if files == [] then [] else Texts(files[..|files| - 1]) + [Concat(files[|files| - 1])]
  }

  /** Executing the text does what the range of legacy migrations does, from every state. */
  ghost predicate RunsRange<S(!new)>(run: (S, string) -> S, legacy: seq<Migration>, g: Group, text: string)
    requires 1 <= g.start <= g.end <= |legacy| && Readable(legacy, g.start, g.end)
  {
    forall s :: run(s, text) == RunLegacy(run, s, legacy, g.start, g.end)
  }

  /** Texts that each do their range do, one after the other, the whole chain. */
  lemma {:induction false} RangesAddUp<S(!new)>(run: (S, string) -> S, s: S, legacy: seq<Migration>, groups: seq<Group>, texts: seq<string>, from: nat, to: nat)
    requires 1 <= from <= to + 1 <= |legacy| + 1 && Contiguous(groups, from, to) && Readable(legacy, from, to)
    requires InRange(legacy, groups) && |texts| == |groups|
    requires forall i :: 0 <= i < |groups| ==> Readable(legacy, groups[i].start, groups[i].end) && RunsRange(run, legacy, groups[i], texts[i])
    ensures RunAll(run, s, texts) == RunLegacy(run, s, legacy, from, to)
    decreases |groups|
  {
    if groups != [] {
      var k := |groups| - 1;
      ContiguousLast(groups, from, to);
      RangesAddUp(run, s, legacy, groups[..k], texts[..k], from, groups[k].start - 1);
      assert RunsRange(run, legacy, groups[k], texts[k]);
      RunLegacySplit(run, s, legacy, from, groups[k].start - 1, to);
    }
  }

  lemma {:induction false} BuildPreservesMeaning<S(!new)>(run: (S, string) -> S, complete: string -> bool, s: S, legacy: seq<Migration>,
                                       groups: seq<Group>, from: nat, to: nat, next: nat, frame: Frame, files: seq<seq<string>>)
    requires 1 <= from <= to + 1 <= |legacy| + 1 && InRange(legacy, groups) && IsBuild(legacy, groups, next, frame, files)
    requires Contiguous(groups, from, to) && (forall i :: 0 <= i < |groups| ==> OneLine(groups[i].name))
    requires Executable(complete, legacy, from, to) && FrameIsSilent(run, complete, frame) && Piecewise(run, complete)
    ensures Readable(legacy, from, to)
    ensures RunAll(run, s, Texts(files)) == RunLegacy(run, s, legacy, from, to)
  {
    ContiguousBounds(groups, from, to);
    forall i | 0 <= i < |groups| ensures Executable(complete, legacy, groups[i].start, groups[i].end) {
    }
    FilesDoRanges(run, complete, legacy, groups, next, frame, files);
    RangesAddUp(run, s, legacy, groups, Texts(files), from, to);
  }

  /**
   For every way of executing SQL, every contiguous grouping and every state:
   executing the baseline files in order does what executing the legacy payloads
   in version order does.
   */
  lemma {:induction false} SquashPreservesMeaning<S(!new)>(run: (S, string) -> S, complete: string -> bool, s: S, legacy: seq<Migration>,
                                        groups: seq<Group>, from: nat, to: nat, next: nat, frame: Frame, files: seq<seq<string>>)
    requires 1 <= from <= to + 1 <= |legacy| + 1 && InRange(legacy, groups) && IsBuild(legacy, groups, next, frame, files)
    requires Contiguous(groups, from, to) && (forall i :: 0 <= i < |groups| ==> OneLine(groups[i].name))
    requires Executable(complete, legacy, from, to) && FrameIsSilent(run, complete, frame) && Sequential(run, complete)
    ensures Readable(legacy, from, to)
    ensures RunAll(run, s, Texts(files)) == RunLegacy(run, s, legacy, from, to)
  {
    SequentialIsPiecewise(run, complete);
    BuildPreservesMeaning(run, complete, s, legacy, groups, from, to, next, frame, files);
  }

  lemma FilesDoRanges<S(!new)>(run: (S, string) -> S, complete: string -> bool, legacy: seq<Migration>,
                               groups: seq<Group>, next: nat, frame: Frame, files: seq<seq<string>>)
    requires Piecewise(run, complete) && FrameIsSilent(run, complete, frame) && InRange(legacy, groups)
    requires forall i :: 0 <= i < |groups| ==> OneLine(groups[i].name) && Executable(complete, legacy, groups[i].start, groups[i].end)
    requires IsBuild(legacy, groups, next, frame, files)
    ensures forall i :: 0 <= i < |groups| ==> Readable(legacy, groups[i].start, groups[i].end) && RunsRange(run, legacy, groups[i], Concat(files[i]))
  {
    forall i | 0 <= i < |groups|
      ensures Readable(legacy, groups[i].start, groups[i].end) && RunsRange(run, legacy, groups[i], Concat(files[i]))
    {
      FileDoesRange(run, complete, legacy, next + i, groups[i], frame, files[i]);
    }
  }

  lemma {:induction false} FileDoesRange<S(!new)>(run: (S, string) -> S, complete: string -> bool, legacy: seq<Migration>, version: nat, g: Group,
                               frame: Frame, pieces: seq<string>)
    requires 1 <= g.start <= g.end <= |legacy| && OneLine(g.name)
    requires Piecewise(run, complete) && FrameIsSilent(run, complete, frame) && Executable(complete, legacy, g.start, g.end)
    requires BaselineFile(legacy, version, g, frame) == Some(pieces)
    ensures Readable(legacy, g.start, g.end) && RunsRange(run, legacy, g, Concat(pieces))
  {
    forall s ensures run(s, Concat(pieces)) == RunLegacy(run, s, legacy, g.start, g.end) {
      FileRunsRange(run, complete, s, legacy, version, g, frame, pieces);
    }
  }

  /** The generated files themselves are well-formed migrations: stripping one gives its body back. */
  lemma GeneratedFileStrips(legacy: seq<Migration>, version: nat, g: Group, frame: Frame, rest: string)
    requires version >= 4 && 1 <= g.start <= g.end <= |legacy| && frame.history == HISTORY + rest && !Contains(rest + "\n", HISTORY)
    requires BaselineFile(legacy, version, g, frame).Some?
    ensures var pieces := BaselineFile(legacy, version, g, frame).value;
            StripPayload(version, Concat(pieces)) == Some(Trim(IsNewline, "\n" + Concat(pieces[1..|pieces| - 2])) + "\n")
  {
    var head, sources, tail := Head(version, g, frame), Sources(legacy, g.start, g.end, frame).value, Tail(version, frame);
    var body := head[1..] + sources + tail[..|tail| - 2];
    assert head == ["BEGIN;\n"] + head[1..];
    assert tail == tail[..|tail| - 2] + [HISTORY + rest, "\nCOMMIT;\n"];
    var pieces := head + sources + tail;
    assert pieces == ["BEGIN;\n"] + body + [HISTORY + rest, "\nCOMMIT;\n"];
    assert pieces[1..|pieces| - 2] == body;
    FramedFileStrips(version, body, rest);
  }

  lemma {:induction false} FramedFileStrips(version: nat, body: seq<string>, rest: string)
    requires version >= 4 && !Contains(rest + "\n", HISTORY)
    ensures StripPayload(version, Concat(["BEGIN;\n"] + body + [HISTORY + rest, "\nCOMMIT;\n"]))
         == Some(Trim(IsNewline, "\n" + Concat(body)) + "\n")
  {
    ConcatFrame("BEGIN;\n", body, HISTORY + rest, "\nCOMMIT;\n");
    var payload := "\n" + Concat(body);
    FrameText(Concat(body), rest);
    PayloadRecovered(version, "", payload, rest + "\n", "\n");
  }

  lemma FrameText(body: string, rest: string)
    ensures "BEGIN;\n" + body + (HISTORY + rest) + "\nCOMMIT;\n"
         == "" + BEGIN + (("\n" + body) + HISTORY + (rest + "\n")) + COMMIT + "\n"
  {
    assert "BEGIN;\n" == BEGIN + "\n" && "\nCOMMIT;\n" == "\n" + COMMIT + "\n";
  }

  lemma {:induction false} ConcatFrame(a: string, body: seq<string>, b: string, c: string)
    ensures Concat([a] + body + [b, c]) == a + Concat(body) + b + c
  {
    ConcatAppend([a] + body, [b, c]);
    assert ([a] + body)[1..] == body;
    assert [b, c][1..] == [c] && [c][1..] == [];
    assert Concat([c]) == c + "" == c;
    assert Concat([b, c]) == b + c;
    assert a + Concat(body) + (b + c) == a + Concat(body) + b + c;
  }

  lemma {:induction false} ConcatAppend(a: seq<string>, b: seq<string>)
    ensures Concat(a + b) == Concat(a) + Concat(b)
  {
    if a == [] {
      assert a + b == b;
    } else {
      assert (a + b)[1..] == a[1..] + b;
      ConcatAppend(a[1..], b);
    }
  }

  /** The wording of the generator's comments. */
  function GeneratorFrame(history: string, evidence: string): Frame {
    Frame(history, evidence,
          "-- TORGNEXA pre-v1 " + "baseline component ",
          "-- Squashed, statement-" + "order-preserving source " + "range: legacy ",
          "-- Do not edit by hand; " + "regenerate with scripts/" + "generate-pre-v1-baseline.py.",
          "-- BASELINE_SOURCE_BEGIN", "-- BASELINE_SOURCE_END", "-- SOURCE ")
  }

  lemma GeneratorCommentsAreComments(history: string, evidence: string)
    ensures GeneratorFrame(history, evidence).Valid()
  {
    ComponentIsComment();
    RangeIsComment();
    DoNotEditIsComment();
    MarkersAreComments();
  }

  lemma ComponentIsComment()
    ensures CommentStart("-- TORGNEXA pre-v1 " + "baseline component ")
  {
    assert OneLine("-- TORGNEXA pre-v1 ") && OneLine("baseline component ");
    CommentContinued("-- TORGNEXA pre-v1 ", "baseline component ");
  }

  lemma RangeIsComment()
    ensures CommentStart("-- Squashed, statement-" + "order-preserving source " + "range: legacy ")
  {
    assert OneLine("-- Squashed, statement-") && OneLine("order-preserving source ") && OneLine("range: legacy ");
    CommentContinued("-- Squashed, statement-", "order-preserving source ");
    CommentContinued("-- Squashed, statement-" + "order-preserving source ", "range: legacy ");
  }

  lemma MarkersAreComments()
    ensures CommentStart("-- BASELINE_SOURCE_BEGIN") && CommentStart("-- BASELINE_SOURCE_END") && CommentStart("-- SOURCE ")
  {
  }

  lemma DoNotEditIsComment()
    ensures CommentStart("-- Do not edit by hand; " + "regenerate with scripts/" + "generate-pre-v1-baseline.py.")
  {
    assert OneLine("-- Do not edit by hand; ") && OneLine("regenerate with scripts/") && OneLine("generate-pre-v1-baseline.py.");
    CommentContinued("-- Do not edit by hand; ", "regenerate with scripts/");
    CommentContinued("-- Do not edit by hand; " + "regenerate with scripts/", "generate-pre-v1-baseline.py.");
  }

  // ---------- The generator's own run ----------

  /** The history insert behind its first words. */
  const HISTORY_COLUMNS := " (\n  version, name, file_name, " + "phase, risk, checksum_sha256,\n" + "  application_version, " + "execution_id, duration_ms\n"
  const HISTORY_VALUES_1 := ") VALUES (\n  current_setting(" + "'torgnexa.migration_version'" + ")::integer,\n" + "  current_setting("
                            + "'torgnexa.migration_name'),\n" + "  current_setting(" + "'torgnexa.migration_file'),\n"
  const HISTORY_VALUES_2 := "  current_setting(" + "'torgnexa.migration_phase'),\n" + "  current_setting(" + "'torgnexa.migration_risk'),\n"
                            + "  current_setting(" + "'torgnexa.migration_checksum'" + "),\n"
  const HISTORY_VALUES_3 := "  current_setting(" + "'torgnexa.application_version'" + "),\n" + "  current_setting("
                            + "'torgnexa.migration_execution_id'" + "),\n"
  const HISTORY_VALUES_4 := "  current_setting(" + "'torgnexa.migration_duration_ms'" + ")::bigint\n);\n"

  function HistoryRest(): string {
    HISTORY_COLUMNS + HISTORY_VALUES_1 + HISTORY_VALUES_2 + HISTORY_VALUES_3 + HISTORY_VALUES_4
  }

  function HistorySQL(): string { HISTORY + HistoryRest() }

  /** Every occurrence of the history insert starts with a capital I. */
  lemma NoMarkerWithoutI(s: string)
    requires 'I' !in s
    ensures !Contains(s, HISTORY)
  {
    forall k | 0 <= k <= |s| ensures !OccursAt(HISTORY, s, k) {
      assert HISTORY[0] == 'I';
      assert k < |s| ==> s[k] != 'I';
    }
  }

  lemma NoIInColumns()
    ensures 'I' !in HISTORY_COLUMNS
  {
    assert 'I' !in " (\n  version, name, file_name, " && 'I' !in "phase, risk, checksum_sha256,\n";
    assert 'I' !in "  application_version, " && 'I' !in "execution_id, duration_ms\n";
  }

  lemma NoIInValues1()
    ensures 'I' !in HISTORY_VALUES_1
  {
    assert 'I' !in ") VALUES (\n  current_setting(" && 'I' !in "'torgnexa.migration_version'" && 'I' !in ")::integer,\n";
    assert 'I' !in "  current_setting(" && 'I' !in "'torgnexa.migration_name'),\n" && 'I' !in "'torgnexa.migration_file'),\n";
  }

  lemma NoIInValues2()
    ensures 'I' !in HISTORY_VALUES_2
  {
    assert 'I' !in "  current_setting(" && 'I' !in "'torgnexa.migration_phase'),\n" && 'I' !in "'torgnexa.migration_risk'),\n";
    assert 'I' !in "'torgnexa.migration_checksum'" && 'I' !in "),\n";
  }

  lemma NoIInValues3()
    ensures 'I' !in HISTORY_VALUES_3
  {
    assert 'I' !in "  current_setting(" && 'I' !in "'torgnexa.application_version'" && 'I' !in "),\n";
    assert 'I' !in "'torgnexa.migration_execution_id'";
  }

  lemma NoIInValues4()
    ensures 'I' !in HISTORY_VALUES_4
  {
    assert 'I' !in "  current_setting(" && 'I' !in "'torgnexa.migration_duration_ms'" && 'I' !in ")::bigint\n);\n";
  }

  /** The history insert of a generated file holds no second marker. */
  lemma HistoryHasOneMarker()
    ensures !Contains(HistoryRest() + "\n", HISTORY)
  {
    NoIInColumns();
    NoIInValues1();
    NoIInValues2();
    NoIInValues3();
    NoIInValues4();
    NoIInSum(HISTORY_COLUMNS, HISTORY_VALUES_1, HISTORY_VALUES_2, HISTORY_VALUES_3, HISTORY_VALUES_4);
    NoMarkerWithoutI(HistoryRest() + "\n");
  }

  lemma NoIInSum(a: string, b: string, c: string, d: string, e: string)
    requires 'I' !in a && 'I' !in b && 'I' !in c && 'I' !in d && 'I' !in e
    ensures 'I' !in a + b + c + d + e + "\n"
  {
  }

  lemma GroupNameIsOneLine(i: nat)
    requires i < |GROUPS|
    ensures OneLine(GROUPS[i].name)
  {
    var name := GROUPS[i].name;
    if i < 4 {
      FirstNamesAreOneLine();
      assert name == ["security_eventing", "commerce_core", "operations_foundation", "commerce_extensions"][i];
    } else {
      LastNamesAreOneLine();
      assert name == ["regulated_integrations", "control_plane", "legacy_contract", "runtime_operations"][i - 4];
    }
  }

  lemma FirstNamesAreOneLine()
    ensures OneLine("security_eventing") && OneLine("commerce_core")
    ensures OneLine("operations_foundation") && OneLine("commerce_extensions")
  {
  }

  lemma LastNamesAreOneLine()
    ensures OneLine("regulated_integrations") && OneLine("control_plane")
    ensures OneLine("legacy_contract") && OneLine("runtime_operations")
  {
  }

  lemma GeneratorFrameIsSilent<S(!new)>(run: (S, string) -> S, complete: string -> bool, history: string, evidence: string)
    requires forall c :: IsComment(c) ==> Silent(run, complete, c)
    requires Silent(run, complete, "BEGIN;\n") && Silent(run, complete, "\nCOMMIT;\n")
    requires Silent(run, complete, history) && Silent(run, complete, evidence)
    ensures FrameIsSilent(run, complete, GeneratorFrame(history, evidence))
  {
    GeneratorCommentsAreComments(history, evidence);
  }

  ghost predicate StripsBack(version: nat, file: seq<string>) {
    |file| >= 3 && StripPayload(version, Concat(file)) == Some(Trim(IsNewline, "\n" + Concat(file[1..|file| - 2])) + "\n")
  }

  lemma GeneratedFileStripsBack(legacy: seq<Migration>, version: nat, g: Group, evidence: string, file: seq<string>)
    requires version >= 4 && 1 <= g.start <= g.end <= |legacy|
    requires BaselineFile(legacy, version, g, GeneratorFrame(HistorySQL(), evidence)) == Some(file)
    ensures StripsBack(version, file)
  {
    HistoryHasOneMarker();
    GeneratedFileStrips(legacy, version, g, GeneratorFrame(HistorySQL(), evidence), HistoryRest());
  }

  /**
   The squash the generator performs: with its own groups, comments and history
   insert, executing the eight files in order does what executing the legacy
   payloads 4 to 74 in order does, and each file is a well-formed migration again.
   What is assumed is that comments, transaction brackets, the history insert and
   the baseline evidence change nothing the payloads look at.
   */
  lemma {:induction false} BaselinePreservesMeaning<S(!new)>(run: (S, string) -> S, complete: string -> bool, s: S, legacy: seq<Migration>,
                                          evidence: string, files: seq<seq<string>>)
    requires |legacy| == 74 && Executable(complete, legacy, 4, 74) && Sequential(run, complete)
    requires forall c :: IsComment(c) ==> Silent(run, complete, c)
    requires Silent(run, complete, "BEGIN;\n") && Silent(run, complete, "\nCOMMIT;\n")
    requires Silent(run, complete, HistorySQL()) && Silent(run, complete, evidence)
    requires InRange(legacy, GROUPS) && IsBuild(legacy, GROUPS, 4, GeneratorFrame(HistorySQL(), evidence), files)
    ensures |files| == 8 && RunAll(run, s, Texts(files)) == RunLegacy(run, s, legacy, 4, 74)
    ensures forall i :: 0 <= i < 8 ==> StripsBack(4 + i, files[i])
  {
    var frame := GeneratorFrame(HistorySQL(), evidence);
    GroupsAreContiguous();
    GeneratorFrameIsSilent(run, complete, HistorySQL(), evidence);
    forall i | 0 <= i < |GROUPS| ensures OneLine(GROUPS[i].name) { GroupNameIsOneLine(i); }
    SquashPreservesMeaning(run, complete, s, legacy, GROUPS, 4, 74, 4, frame, files);
    forall i | 0 <= i < 8 ensures StripsBack(4 + i, files[i]) {
      GeneratedFileStripsBack(legacy, 4 + i, GROUPS[i], evidence, files[i]);
    }
  }
}
