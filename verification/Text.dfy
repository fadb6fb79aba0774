/**
 The string operations the repository leans on: trimming, splitting on a
 separator and joining, prefix tests and the search for the last occurrence.
 */
module Text {

  datatype Option<+T> = None | Some(value: T)

  function TrimLeft(drop: char -> bool, s: string): string {
    if s != "" && drop(s[0]) then TrimLeft(drop, s[1..]) else s
  }

  function TrimRight(drop: char -> bool, s: string): (r: string)
    ensures r <= s
  {
    if s != "" && drop(s[|s| - 1]) then TrimRight(drop, s[..|s| - 1]) else s
  }

  lemma {:induction false} TrimRightDropped(drop: char -> bool, s: string)
    ensures var r := TrimRight(drop, s);
            && (r != "" ==> !drop(r[|r| - 1]))
            && forall k :: |r| <= k < |s| ==> drop(s[k])
  {
    if s != "" && drop(s[|s| - 1]) {
      TrimRightDropped(drop, s[..|s| - 1]);
    }
  }

  lemma {:induction false} TrimLeftDropped(drop: char -> bool, s: string)
    ensures var r := TrimLeft(drop, s);
            |r| <= |s| && s[|s| - |r|..] == r && forall k :: 0 <= k < |s| - |r| ==> drop(s[k])
  {
    if s != "" && drop(s[0]) {
      TrimLeftDropped(drop, s[1..]);
      assert forall k :: 1 <= k < |s| ==> s[k] == s[1..][k - 1];
    }
  }

  function Trim(drop: char -> bool, s: string): string {
    TrimRight(drop, TrimLeft(drop, s))
  }

  lemma {:induction false} TrimLeftPadded(drop: char -> bool, left: string, s: string)
    requires forall c :: c in left ==> drop(c)
    requires s != "" && !drop(s[0])
    ensures TrimLeft(drop, left + s) == s
  {
    if left == "" {
      assert left + s == s;
    } else {
      assert (left + s)[1..] == left[1..] + s;
      TrimLeftPadded(drop, left[1..], s);
    }
  }

  lemma {:induction false} TrimRightPadded(drop: char -> bool, s: string, right: string)
    requires forall c :: c in right ==> drop(c)
    requires s == "" || !drop(s[|s| - 1])
    ensures TrimRight(drop, s + right) == s
  {
    if right == "" {
      assert s + right == s;
    } else {
      var shorter := right[..|right| - 1];
      assert (s + right)[..|s + right| - 1] == s + shorter;
      TrimRightPadded(drop, s, shorter);
    }
  }

  /** A trimmed text is found again under any padding made of dropped characters. */
  lemma TrimPadded(drop: char -> bool, left: string, s: string, right: string)
    requires forall c :: c in left || c in right ==> drop(c)
    requires s != "" && !drop(s[0]) && !drop(s[|s| - 1])
    ensures Trim(drop, left + s + right) == s
  {
    assert left + s + right == left + (s + right);
    TrimLeftPadded(drop, left, s + right);
    TrimRightPadded(drop, s, right);
  }

  predicate IsSpace(c: char) {
    || '\t' <= c <= '\r' || c == ' ' || c == '\U{85}' || c == '\U{A0}' || c == '\U{1680}'
    || '\U{2000}' <= c <= '\U{200A}' || c == '\U{2028}' || c == '\U{2029}' || c == '\U{202F}'
    || c == '\U{205F}' || c == '\U{3000}'
  }

  function ReplaceChar(from: char, to: char, s: string): string {
    if s == "" then "" else [if s[0] == from then to else s[0]] + ReplaceChar(from, to, s[1..])
  }

  lemma {:induction false} ReplaceCharAt(from: char, to_: char, s: string)
    ensures var r := ReplaceChar(from, to_, s);
            |r| == |s| && forall i :: 0 <= i < |s| ==> r[i] == if s[i] == from then to_ else s[i]
  {
    if s != "" {
      ReplaceCharAt(from, to_, s[1..]);
    }
  }

  /** `strings.Split(s, sep)` and Python's `s.split(sep)` for a one-character separator. */
  function Split(sep: char, s: string): (parts: seq<string>)
    ensures parts != []
  {
    if s == "" then [""]
    else
      var rest := Split(sep, s[1..]);
      if s[0] == sep then [""] + rest else [[s[0]] + rest[0]] + rest[1..]
  }

  function Join(sep: char, parts: seq<string>): string {
    if parts == [] then ""
    else if |parts| == 1 then parts[0]
    else parts[0] + [sep] + Join(sep, parts[1..])
  }

  lemma {:induction false} SplitSeparatorFree(sep: char, part: string)
    requires sep !in part
    ensures Split(sep, part) == [part]
  {
    if part != "" {
      SplitSeparatorFree(sep, part[1..]);
      assert part == [part[0]] + part[1..];
    }
  }

  /** Splitting distributes over a separator between two texts. */
  lemma {:induction false} SplitAcross(sep: char, a: string, b: string)
    ensures Split(sep, a + [sep] + b) == Split(sep, a) + Split(sep, b)
  {
    var t := a + [sep] + b;
    if a == "" {
      assert t[1..] == b;
    } else {
      assert t[1..] == a[1..] + [sep] + b;
      SplitAcross(sep, a[1..], b);
    }
  }

  /** The parts of all texts, one text after the other. */
  function SplitAll(sep: char, texts: seq<string>): seq<string> {
    if texts == [] then [] else Split(sep, texts[0]) + SplitAll(sep, texts[1..])
  }

  lemma {:induction false} SplitOfJoin(sep: char, texts: seq<string>)
    requires texts != []
    ensures Split(sep, Join(sep, texts)) == SplitAll(sep, texts)
  {
    if |texts| > 1 {
      SplitOfJoin(sep, texts[1..]);
      SplitAcross(sep, texts[0], Join(sep, texts[1..]));
    }
  }

  lemma {:induction false} SplitJoin(sep: char, parts: seq<string>)
    requires parts != [] && forall k :: 0 <= k < |parts| ==> sep !in parts[k]
    ensures Split(sep, Join(sep, parts)) == parts
  {
    SplitSeparatorFree(sep, parts[0]);
    if |parts| > 1 {
      SplitJoin(sep, parts[1..]);
      SplitAcross(sep, parts[0], Join(sep, parts[1..]));
    }
  }

  lemma {:induction false} JoinSplit(sep: char, s: string)
    ensures Join(sep, Split(sep, s)) == s
  {
    if s != "" {
      JoinSplit(sep, s[1..]);
      var rest := Split(sep, s[1..]);
      assert s == [s[0]] + s[1..];
      if s[0] == sep {
        assert ([""] + rest)[1..] == rest;
        assert Join(sep, [""] + rest) == "" + [sep] + Join(sep, rest);
      } else {
        assert ([[s[0]] + rest[0]] + rest[1..])[1..] == rest[1..];
      }
    }
  }

  function Concat(parts: seq<string>): string {
    if parts == [] then "" else parts[0] + Concat(parts[1..])
  }

  predicate OccursAt(pattern: string, s: string, k: int) {
    0 <= k <= |s| - |pattern| && s[k..k + |pattern|] == pattern
  }

  predicate Contains(s: string, pattern: string) {
    exists k :: 0 <= k <= |s| && OccursAt(pattern, s, k)
  }

  /** Python's `rfind`: the position of the last occurrence, or -1. */
  function LastIndex(s: string, pattern: string): (k: int)
    ensures k == -1 || OccursAt(pattern, s, k)
    ensures forall j :: k < j ==> !OccursAt(pattern, s, j)
  {
    LastIndexFrom(s, pattern, |s|)
  }

  function LastIndexFrom(s: string, pattern: string, from: nat): (k: int)
    requires from <= |s|
    ensures k == -1 || OccursAt(pattern, s, k)
    ensures forall j :: k < j <= from ==> !OccursAt(pattern, s, j)
  {
    if OccursAt(pattern, s, from) then from
    else if from == 0 then -1
    else LastIndexFrom(s, pattern, from - 1)
  }
}
