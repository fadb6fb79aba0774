/**
 The package index is part curated prose, part listing of the file tree. The
 generator cuts the prose out of the existing text, line by line, and puts it
 back around freshly rendered data sections.
 */
module PackageIndex {
  import opened Text
  import opened Ordering

  const SUMMARY_HEADING := "## Summary"
  const FILES_HEADING := "## Files"

  datatype Failure = NoSummary | NoNarrative | NoFiles
  datatype Existing = Ok(head: string, narrative: string) | Err(failure: Failure)
  datatype Rendered = Text(text: string) | Refused(failure: Failure)

  const ORDER := ["docs", "adrs", "tasks", "milestones", "contracts", "templates"]
  const TOTAL := "total source files " + "(excluding local " + "secrets/build/" + "dependency/cache trees)"

  /** The counts of `ORDER` and of all files, as their decimal texts, and the file paths. */
  datatype Tree = Tree(counts: seq<string>, total: string, files: seq<string>) {
    ghost predicate Valid() {
      |counts| == |ORDER| && '\n' !in total && forall k :: 0 <= k < |counts| ==> '\n' !in counts[k]
    }
  }

  // ---------- Cutting ----------

  predicate OpensNarrative(line: string) { "## " <= line && line != SUMMARY_HEADING }

  /** The first position at or after `from` where a line equals `line`; the length when there is none. */
  function IndexOf(lines: seq<string>, line: string, from: nat): nat
    requires from <= |lines|
    decreases |lines| - from
  {
    if from == |lines| || lines[from] == line then from else IndexOf(lines, line, from + 1)
  }

  function NarrativeIndex(lines: seq<string>, from: nat): nat
    requires from <= |lines|
    decreases |lines| - from
  {
    if from == |lines| || OpensNarrative(lines[from]) then from else NarrativeIndex(lines, from + 1)
  }

  lemma {:induction false} IndexOfFirst(lines: seq<string>, line: string, from: nat, at: nat)
    requires from <= at <= |lines| && (forall k :: from <= k < at ==> lines[k] != line) && (at < |lines| ==> lines[at] == line)
    ensures IndexOf(lines, line, from) == at
    decreases at - from
  {
    if from < at {
      IndexOfFirst(lines, line, from + 1, at);
    }
  }

  lemma {:induction false} NarrativeIndexFirst(lines: seq<string>, from: nat, at: nat)
    requires from <= at <= |lines| && (forall k :: from <= k < at ==> !OpensNarrative(lines[k])) && (at < |lines| ==> OpensNarrative(lines[at]))
    ensures NarrativeIndex(lines, from) == at
    decreases at - from
  {
    if from < at {
      NarrativeIndexFirst(lines, from + 1, at);
    }
  }

  lemma {:induction false} IndexOfBounds(lines: seq<string>, line: string, from: nat)
    requires from <= |lines|
    ensures var at := IndexOf(lines, line, from);
            from <= at <= |lines| && (at < |lines| ==> lines[at] == line) && forall k :: from <= k < at ==> lines[k] != line
    decreases |lines| - from
  {
    if from < |lines| && lines[from] != line {
      IndexOfBounds(lines, line, from + 1);
    }
  }

  lemma {:induction false} NarrativeIndexBounds(lines: seq<string>, from: nat)
    requires from <= |lines|
    ensures var at := NarrativeIndex(lines, from);
            from <= at <= |lines| && (at < |lines| ==> OpensNarrative(lines[at])) && forall k :: from <= k < at ==> !OpensNarrative(lines[k])
    decreases |lines| - from
  {
    if from < |lines| && !OpensNarrative(lines[from]) {
      NarrativeIndexBounds(lines, from + 1);
    }
  }

  /** The cut on lines: everything before the summary, and from the next other heading up to the file list. */
  ghost function CutLines(lines: seq<string>): Existing {
    var summary := IndexOf(lines, SUMMARY_HEADING, 0);
    IndexOfBounds(lines, SUMMARY_HEADING, 0);
    if summary == |lines| then Err(NoSummary)
    else
      var narrative := NarrativeIndex(lines, summary + 1);
      NarrativeIndexBounds(lines, summary + 1);
      if narrative == |lines| then Err(NoNarrative)
      else
        var files := IndexOf(lines, FILES_HEADING, narrative);
        IndexOfBounds(lines, FILES_HEADING, narrative);
        if files == |lines| then Err(NoFiles)
        else Ok(Join('\n', lines[..summary]), Join('\n', lines[narrative..files]))
  }

  ghost function SplitExisting(text: string): Existing { CutLines(Split('\n', text)) }

  method FindLine(lines: seq<string>, line: string, from: nat) returns (at: nat)
    requires from <= |lines|
    ensures at == IndexOf(lines, line, from)
  {
    at := from;
    while at < |lines| && lines[at] != line
      invariant from <= at <= |lines| && forall k :: from <= k < at ==> lines[k] != line
    {
      at := at + 1;
    }
    IndexOfFirst(lines, line, from, at);
  }

  method CutExisting(text: string) returns (r: Existing)
    ensures r == SplitExisting(text)
  {
    var lines := Split('\n', text);
    var summaryIndex := FindLine(lines, SUMMARY_HEADING, 0);
    if summaryIndex == |lines| {
      return Err(NoSummary);
    }
    IndexOfBounds(lines, SUMMARY_HEADING, 0);
    var narrativeStart: Option<nat> := None;
    var index := summaryIndex + 1;
    while index < |lines|
      invariant summaryIndex < index <= |lines| && narrativeStart.None?
      invariant forall k :: summaryIndex < k < index ==> !OpensNarrative(lines[k])
    {
      if "## " <= lines[index] && lines[index] != SUMMARY_HEADING {
        narrativeStart := Some(index);
        break;
      }
      index := index + 1;
    }
    NarrativeIndexFirst(lines, summaryIndex + 1, index);
    if narrativeStart.None? {
      return Err(NoNarrative);
    }
    var filesIndex := FindLine(lines, FILES_HEADING, narrativeStart.value);
    IndexOfBounds(lines, FILES_HEADING, narrativeStart.value);
    if filesIndex == |lines| {
      return Err(NoFiles);
    }
    return Ok(Join('\n', lines[..summaryIndex]), Join('\n', lines[narrativeStart.value..filesIndex]));
  }

  // ---------- Rendering ----------

  function Item(name: string, count: string): string { "- " + name + ": " + count }

  function Items(names: seq<string>, counts: seq<string>): seq<string> {
    if names == [] || counts == [] then [] else [Item(names[0], counts[0])] + Items(names[1..], counts[1..])
  }

  function SummaryLines(t: Tree): seq<string> { [SUMMARY_HEADING, ""] + (Items(ORDER, t.counts) + [Item(TOTAL, t.total)]) + ["", ""] }

  function RenderSummary(t: Tree): string { Join('\n', SummaryLines(t)) }

  function Bullets(paths: seq<string>): seq<string> {
    if paths == [] then [] else ["- `" + paths[0] + "`"] + Bullets(paths[1..])
  }

  function RenderFiles(t: Tree): string {
    Join('\n', [FILES_HEADING] + ([""] + Bullets(Sort(LexLe, t.files)))) + "\n"
  }

  function Assemble(head: string, narrative: string, t: Tree): string {
    Join('\n', [head, RenderSummary(t), narrative, RenderFiles(t)])
  }

  ghost function Render(text: string, t: Tree): Rendered {
    match SplitExisting(text)
    case Err(f) => Refused(f)
    case Ok(head, narrative) => Text(Assemble(head, narrative, t))
  }

  // ---------- The layout of an index ----------

  /** Lines in the order the cut looks for them. */
  ghost predicate Layout(lines: seq<string>, head: seq<string>, gap: seq<string>, narrative: seq<string>, rest: seq<string>) {
    && lines == head + [SUMMARY_HEADING] + gap + narrative + [FILES_HEADING] + rest
    && SUMMARY_HEADING !in head
    && (forall k :: 0 <= k < |gap| ==> !OpensNarrative(gap[k]))
    && FILES_HEADING !in narrative
    && (narrative != [] ==> OpensNarrative(narrative[0]))
  }

  lemma {:induction false} LayoutIsCut(lines: seq<string>, head: seq<string>, gap: seq<string>, narrative: seq<string>, rest: seq<string>)
    requires Layout(lines, head, gap, narrative, rest)
    ensures CutLines(lines) == Ok(Join('\n', head), Join('\n', narrative))
  {
    var summary := |head|;
    var start := summary + 1 + |gap|;
    var files := start + |narrative|;
    assert forall k :: 0 <= k < summary ==> lines[k] == head[k];
    IndexOfFirst(lines, SUMMARY_HEADING, 0, summary);
    assert forall k :: summary < k < start ==> lines[k] == gap[k - summary - 1];
    assert forall k :: start <= k < files ==> lines[k] == narrative[k - start];
    assert lines[files] == FILES_HEADING;
    NarrativeIndexFirst(lines, summary + 1, start);
    IndexOfFirst(lines, FILES_HEADING, start, files);
    assert lines[..summary] == head && lines[start..files] == narrative;
  }

  /** Whatever is accepted has such a layout. */
  lemma CutHasLayout(lines: seq<string>) returns (head: seq<string>, gap: seq<string>, narrative: seq<string>, rest: seq<string>)
    requires CutLines(lines).Ok?
    ensures Layout(lines, head, gap, narrative, rest)
    ensures CutLines(lines) == Ok(Join('\n', head), Join('\n', narrative))
  {
    var summary := IndexOf(lines, SUMMARY_HEADING, 0);
    IndexOfBounds(lines, SUMMARY_HEADING, 0);
    var start := NarrativeIndex(lines, summary + 1);
    NarrativeIndexBounds(lines, summary + 1);
    var files := IndexOf(lines, FILES_HEADING, start);
    IndexOfBounds(lines, FILES_HEADING, start);
    head, gap, narrative, rest := lines[..summary], lines[summary + 1..start], lines[start..files], lines[files + 1..];
    CutInSix(lines, summary, start, files);
  }

  lemma CutInSix<T>(s: seq<T>, i: nat, j: nat, k: nat)
    requires i < j <= k < |s|
    ensures s == s[..i] + [s[i]] + s[i + 1..j] + s[j..k] + [s[k]] + s[k + 1..]
  {
  }

  lemma {:induction false} SplitHasNoSeparator(sep: char, s: string)
    ensures forall k :: 0 <= k < |Split(sep, s)| ==> sep !in Split(sep, s)[k]
  {
    if s != "" {
      SplitHasNoSeparator(sep, s[1..]);
    }
  }

  /** Splitting a joined list of lines gives the lines, except that no lines at all come back as one empty line. */
  lemma {:induction false} LinesComeBack(lines: seq<string>)
    requires forall k :: 0 <= k < |lines| ==> '\n' !in lines[k]
    ensures Split('\n', Join('\n', lines)) == if lines == [] then [""] else lines
  {
    if lines != [] {
      SplitJoin('\n', lines);
    }
  }

  ghost predicate Plain(line: string) { '\n' !in line && !OpensNarrative(line) }

  lemma ItemIsPlain(name: string, count: string)
    requires '\n' !in name && '\n' !in count
    ensures Plain(Item(name, count))
  {
    assert Item(name, count)[0] == '-';
  }

  lemma {:induction false} ItemsArePlain(names: seq<string>, counts: seq<string>)
    requires forall k :: 0 <= k < |names| ==> '\n' !in names[k]
    requires forall k :: 0 <= k < |counts| ==> '\n' !in counts[k]
    ensures forall k :: 0 <= k < |Items(names, counts)| ==> Plain(Items(names, counts)[k])
  {
    if names != [] && counts != [] {
      ItemIsPlain(names[0], counts[0]);
      ItemsArePlain(names[1..], counts[1..]);
    }
  }

  lemma NamesArePlain()
    ensures forall k :: 0 <= k < |ORDER| ==> '\n' !in ORDER[k]
  {
    assert '\n' !in "docs" && '\n' !in "adrs" && '\n' !in "tasks";
    assert '\n' !in "milestones" && '\n' !in "contracts" && '\n' !in "templates";
  }

  lemma SummaryItemsArePlain(t: Tree) returns (items: seq<string>)
    requires t.Valid()
    ensures items == Items(ORDER, t.counts) + [Item(TOTAL, t.total)]
    ensures forall k :: 0 <= k < |items| ==> Plain(items[k])
  {
    NamesArePlain();
    ItemsArePlain(ORDER, t.counts);
    assert '\n' !in "total source files " && '\n' !in "(excluding local ";
    assert '\n' !in "secrets/build/" && '\n' !in "dependency/cache trees)";
    assert '\n' !in TOTAL;
    ItemIsPlain(TOTAL, t.total);
    items := Items(ORDER, t.counts) + [Item(TOTAL, t.total)];
  }

  lemma {:induction false} FramedItems(items: seq<string>)
    requires forall k :: 0 <= k < |items| ==> Plain(items[k])
    ensures Split('\n', Join('\n', [SUMMARY_HEADING, ""] + items + ["", ""])) == [SUMMARY_HEADING] + ([""] + items + ["", ""])
    ensures forall k :: 0 <= k < |[""] + items + ["", ""]| ==> Plain(([""] + items + ["", ""])[k])
  {
    var lines := [SUMMARY_HEADING, ""] + items + ["", ""];
    SplitJoin('\n', lines);
    assert lines == [SUMMARY_HEADING] + ([""] + items + ["", ""]);
  }

  lemma SummaryComesBack(t: Tree) returns (tail: seq<string>)
    requires t.Valid()
    ensures Split('\n', RenderSummary(t)) == [SUMMARY_HEADING] + tail
    ensures forall k :: 0 <= k < |tail| ==> Plain(tail[k])
  {
    var items := SummaryItemsArePlain(t);
    FramedItems(items);
    tail := [""] + items + ["", ""];
  }

  /** The summary names the counts one by one, in this order, and then the total. */
  lemma SummaryHoldsCounts(t: Tree)
    requires t.Valid()
    ensures var c := t.counts;
            Split('\n', RenderSummary(t)) ==
              ["## Summary", ""]
              + ["- " + "docs" + ": " + c[0], "- " + "adrs" + ": " + c[1], "- " + "tasks" + ": " + c[2],
                 "- " + "milestones" + ": " + c[3], "- " + "contracts" + ": " + c[4], "- " + "templates" + ": " + c[5]]
              + ["- " + TOTAL + ": " + t.total]
              + ["", ""]
  {
    var items := SummaryItemsArePlain(t);
    FramedItems(items);
    SixItems(ORDER, t.counts);
    assert [SUMMARY_HEADING] + ([""] + items + ["", ""]) == [SUMMARY_HEADING, ""] + items + ["", ""];
  }

  lemma {:induction false} SixItems(n: seq<string>, c: seq<string>)
    requires |n| == |c| == 6
    ensures Items(n, c) == [Item(n[0], c[0]), Item(n[1], c[1]), Item(n[2], c[2]), Item(n[3], c[3]), Item(n[4], c[4]), Item(n[5], c[5])]
  {
    assert n[0..] == n && c[0..] == c && n[6..] == [];
    OneItem(n, c, 0);
    OneItem(n, c, 1);
    OneItem(n, c, 2);
    OneItem(n, c, 3);
    OneItem(n, c, 4);
    OneItem(n, c, 5);
  }

  lemma OneItem(names: seq<string>, counts: seq<string>, k: nat)
    requires k < |names| && k < |counts|
    ensures Items(names[k..], counts[k..]) == [Item(names[k], counts[k])] + Items(names[k + 1..], counts[k + 1..])
  {
    assert names[k..][1..] == names[k + 1..] && counts[k..][1..] == counts[k + 1..];
  }

  lemma {:induction false} BulletAt(paths: seq<string>, k: nat)
    requires k < |paths|
    ensures |Bullets(paths)| == |paths| && Bullets(paths)[k] == "- `" + paths[k] + "`"
  {
    if k > 0 {
      BulletAt(paths[1..], k - 1);
    } else if |paths| > 1 {
      BulletAt(paths[1..], 0);
    }
  }

  lemma {:induction false} BulletLines(paths: seq<string>)
    requires forall k :: 0 <= k < |paths| ==> '\n' !in paths[k]
    ensures Split('\n', Join('\n', [FILES_HEADING] + ([""] + Bullets(paths))) + "\n") == [FILES_HEADING, ""] + Bullets(paths) + [""]
  {
    var lines := [FILES_HEADING, ""] + Bullets(paths);
    assert [FILES_HEADING] + ([""] + Bullets(paths)) == lines;
    forall k | 0 <= k < |Bullets(paths)| ensures '\n' !in Bullets(paths)[k] {
      if paths != [] {
        BulletAt(paths, 0);
        BulletAt(paths, k);
      }
    }
    SplitAcross('\n', Join('\n', lines), "");
    assert Join('\n', lines) + ['\n'] + "" == Join('\n', lines) + "\n";
    SplitJoin('\n', lines);
  }

  /** The file list holds every path of the tree, as often as the tree does, in order. */
  lemma {:induction false} FilesHoldPaths(t: Tree) returns (paths: seq<string>)
    requires forall k :: 0 <= k < |t.files| ==> '\n' !in t.files[k]
    ensures multiset(paths) == multiset(t.files) && Sorted(LexLe, paths)
    ensures var lines := Split('\n', RenderFiles(t));
            && |lines| == 2 + |paths| + 1 && lines[..2] == ["## Files", ""] && lines[|lines| - 1] == ""
            && (forall k :: 0 <= k < |paths| ==> lines[2 + k] == "- `" + paths[k] + "`")
  {
    paths := Sort(LexLe, t.files);
    LexOrder(t.files);
    SortSorts(LexLe, t.files);
    forall k | 0 <= k < |paths| ensures '\n' !in paths[k] {
      assert paths[k] in multiset(paths);
    }
    BulletLines(paths);
    BulletsAt(paths);
  }

  lemma {:induction false} BulletsAt(paths: seq<string>)
    ensures |Bullets(paths)| == |paths| && forall k :: 0 <= k < |paths| ==> Bullets(paths)[k] == "- `" + paths[k] + "`"
  {
    forall k | 0 <= k < |paths| ensures |Bullets(paths)| == |paths| && Bullets(paths)[k] == "- `" + paths[k] + "`" {
      BulletAt(paths, k);
    }
  }

  lemma HeadedLines(heading: string, tail: seq<string>) returns (rest: seq<string>)
    requires '\n' !in heading && tail != []
    ensures Split('\n', Join('\n', [heading] + tail) + "\n") == [heading] + rest
  {
    assert ([heading] + tail)[1..] == tail;
    var body := Join('\n', tail) + "\n";
    assert Join('\n', [heading] + tail) + "\n" == heading + ['\n'] + body;
    SplitAcross('\n', heading, body);
    SplitSeparatorFree('\n', heading);
    rest := Split('\n', body);
  }

  lemma {:induction false} AssembledLines(head: string, summary: string, narrative: string, files: string)
    ensures Split('\n', Join('\n', [head, summary, narrative, files]))
         == Split('\n', head) + Split('\n', summary) + Split('\n', narrative) + Split('\n', files)
  {
    var texts := [head, summary, narrative, files];
    SplitOfJoin('\n', texts);
    assert texts[1..] == [summary, narrative, files] && texts[1..][1..] == [narrative, files];
    assert texts[1..][1..][1..] == [files] && texts[1..][1..][1..][1..] == [];
    assert SplitAll('\n', [files]) == Split('\n', files);
    assert SplitAll('\n', [narrative, files]) == Split('\n', narrative) + SplitAll('\n', [files]);
    assert SplitAll('\n', [summary, narrative, files]) == Split('\n', summary) + SplitAll('\n', [narrative, files]);
  }

  // ---------- Regeneration ----------

  /** Around any summary and file list of the right shape, the cut finds the same curated text again. */
  lemma {:induction false} CutOfAssembled(text: string, summary: string, tail: seq<string>, files: string, rest: seq<string>)
    requires SplitExisting(text).Ok?
    requires Split('\n', summary) == [SUMMARY_HEADING] + tail && (forall k :: 0 <= k < |tail| ==> Plain(tail[k]))
    requires Split('\n', files) == [FILES_HEADING] + rest
    ensures var e := SplitExisting(text);
            SplitExisting(Join('\n', [e.head, summary, e.narrative, files])) == e
  {
    var lines, e := Split('\n', text), SplitExisting(text);
    SplitHasNoSeparator('\n', text);
    var head, gap, narrative, behind := CutHasLayout(lines);
    assert forall k :: 0 <= k < |head| ==> head[k] == lines[k];
    assert forall k :: 0 <= k < |narrative| ==> narrative[k] == lines[|head| + 1 + |gap| + k];
    AssembledLines(e.head, summary, e.narrative, files);
    AssembledLayout(head, tail, narrative, rest);
  }

  lemma {:induction false} AssembledLayout(head: seq<string>, tail: seq<string>, narrative: seq<string>, rest: seq<string>)
    requires SUMMARY_HEADING !in head && FILES_HEADING !in narrative && (narrative != [] ==> OpensNarrative(narrative[0]))
    requires forall k :: 0 <= k < |head| ==> '\n' !in head[k]
    requires forall k :: 0 <= k < |narrative| ==> '\n' !in narrative[k]
    requires forall k :: 0 <= k < |tail| ==> Plain(tail[k])
    ensures CutLines(Split('\n', Join('\n', head)) + ([SUMMARY_HEADING] + tail) + Split('\n', Join('\n', narrative)) + ([FILES_HEADING] + rest))
         == Ok(Join('\n', head), Join('\n', narrative))
  {
    LinesComeBack(head);
    LinesComeBack(narrative);
    var head' := Split('\n', Join('\n', head));
    assert SUMMARY_HEADING !in head' && Join('\n', head') == Join('\n', head) by {
      assert SUMMARY_HEADING != "";
    }
    if narrative == [] {
      EmptyNarrativeLayout(head', tail, rest);
    } else {
      NarrativeLayout(head', tail, narrative, rest);
    }
  }

  lemma {:induction false} EmptyNarrativeLayout(head: seq<string>, tail: seq<string>, rest: seq<string>)
    requires SUMMARY_HEADING !in head && forall k :: 0 <= k < |tail| ==> Plain(tail[k])
    ensures CutLines(head + ([SUMMARY_HEADING] + tail) + [""] + ([FILES_HEADING] + rest)) == Ok(Join('\n', head), "")
  {
    NarrativeLayout(head, tail + [""], [], rest);
    MoveLine(head, [SUMMARY_HEADING], tail, [""], [FILES_HEADING] + rest);
  }

  lemma MoveLine<T>(a: seq<T>, b: seq<T>, c: seq<T>, d: seq<T>, e: seq<T>)
    ensures a + (b + c) + d + e == a + (b + (c + d)) + [] + e
  {
    assert b + (c + d) == b + c + d;
  }

  lemma {:induction false} NarrativeLayout(head: seq<string>, gap: seq<string>, narrative: seq<string>, rest: seq<string>)
    requires SUMMARY_HEADING !in head && FILES_HEADING !in narrative && (narrative != [] ==> OpensNarrative(narrative[0]))
    requires forall k :: 0 <= k < |gap| ==> !OpensNarrative(gap[k])
    ensures CutLines(head + ([SUMMARY_HEADING] + gap) + narrative + ([FILES_HEADING] + rest)) == Ok(Join('\n', head), Join('\n', narrative))
  {
    var lines := head + ([SUMMARY_HEADING] + gap) + narrative + ([FILES_HEADING] + rest);
    assert lines == head + [SUMMARY_HEADING] + gap + narrative + [FILES_HEADING] + rest;
    LayoutIsCut(lines, head, gap, narrative, rest);
  }

  /** The curated text is found again in the generated index, unchanged, for every accepted text. */
  lemma CuratedTextSurvives(text: string, t: Tree)
    requires t.Valid() && SplitExisting(text).Ok?
    ensures SplitExisting(Render(text, t).text) == SplitExisting(text)
  {
    var tail := SummaryComesBack(t);
    var rest := HeadedLines(FILES_HEADING, [""] + Bullets(Sort(LexLe, t.files)));
    CutOfAssembled(text, RenderSummary(t), tail, RenderFiles(t), rest);
  }

  /** Only the last file tree matters: regenerating after regenerating is regenerating once. */
  lemma RegenerationForgets(text: string, t: Tree, t': Tree)
    requires t.Valid() && SplitExisting(text).Ok?
    ensures Render(text, t).Text? && Render(Render(text, t).text, t') == Render(text, t')
  {
    CuratedTextSurvives(text, t);
  }

  /** The `--check` run passes exactly on texts the generator has written for the same tree. */
  lemma CheckPassesIffGenerated(text: string, t: Tree)
    requires t.Valid()
    ensures Render(text, t) == Text(text) <==> exists before :: Render(before, t) == Text(text)
  {
    if before :| Render(before, t) == Text(text) {
      RegenerationForgets(before, t, t);
    }
  }
}
