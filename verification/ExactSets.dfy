/** Checks that a list is exactly a given set, by counting and by refusing repetitions. */
module ExactSets {
  import opened Text
  import opened Distinctness

  // ---------- Restored orders ----------

  /** The check of a request's ids, and of an answer's: a bounded list of well-formed ids without repetitions. */
  ghost predicate ValidIDs(ids: seq<string>, wellFormed: string -> bool) {
    1 <= |ids| <= 100 && NoRepeats(ids) && forall id :: id in ids ==> wellFormed(id)
  }

  method ValidateIDs(ids: seq<string>, wellFormed: string -> bool) returns (valid: bool)
    ensures valid <==> ValidIDs(ids, wellFormed)
  {
    if |ids| < 1 || |ids| > 100 {
      return false;
    }
    var seen: set<string> := {};
    for i := 0 to |ids|
      invariant seen == Elements(ids[..i]) && NoRepeats(ids[..i])
      invariant forall id :: id in ids[..i] ==> wellFormed(id)
    {
      assert ids[..i + 1] == ids[..i] + [ids[i]];
      if !wellFormed(ids[i]) {
        assert ids[i] in ids;
        return false;
      }
      if ids[i] in seen {
        assert ids[i] in ids[..i];
        return false;
      }
      seen := seen + {ids[i]};
    }
    assert ids[..|ids|] == ids;
    return true;
  }

  method SameStringSet(left: seq<string>, right: seq<string>) returns (same: bool)
    ensures same <==> Accepts(left, right)
  {
    if |left| != |right| {
      return false;
    }
    var seen: set<string> := {};
    for i := 0 to |left|
      invariant seen == Elements(left[..i]) && NoRepeats(left[..i])
    {
      assert left[..i + 1] == left[..i] + [left[i]];
      if left[i] in seen {
        assert left[i] in left[..i];
        return false;
      }
      seen := seen + {left[i]};
    }
    assert left[..|left|] == left;
    for i := 0 to |right|
      invariant forall k :: 0 <= k < i ==> right[k] in seen
    {
      if right[i] !in seen {
        assert right[i] in Elements(right);
        return false;
      }
    }
    return true;
  }

  ghost predicate Accepts(left: seq<string>, right: seq<string>) {
    |left| == |right| && NoRepeats(left) && Elements(right) <= Elements(left)
  }

  /** For a request without repetitions, exactly its permutations are accepted. */
  lemma AcceptsPermutations(left: seq<string>, right: seq<string>)
    requires NoRepeats(right)
    ensures Accepts(left, right) <==> multiset(left) == multiset(right)
  {
    PermutationByElements(right, left);
    ElementsSize(left);
    ElementsSize(right);
    if Accepts(left, right) {
      SubsetOfEqualSize(Elements(right), Elements(left));
    }
    if multiset(left) == multiset(right) {
      assert |multiset(left)| == |left| && |multiset(right)| == |right|;
    }
  }

  /**
   A remark on the helper alone, whose callers rule repetitions out: it agrees
   with equality of lists as multisets on every left list exactly if the right
   list repeats nothing.
   */
  lemma AgreesWithMultisetsIff(right: seq<string>)
    ensures (forall left :: Accepts(left, right) <==> multiset(left) == multiset(right)) <==> NoRepeats(right)
  {
    if NoRepeats(right) {
      forall left ensures Accepts(left, right) <==> multiset(left) == multiset(right) { AcceptsPermutations(left, right); }
    } else {
      assert !Accepts(right, right) && multiset(right) == multiset(right);
    }
  }

  /** An acknowledgement; `plain` is false when its status or its time would be refused. */
  datatype Acknowledgement = Acknowledgement(ids: seq<string>, plain: bool)

  datatype Restoration = Refused | CallFailed | InvalidAnswer | Restored(ids: seq<string>)

  /**
   The call: a request that repeats an id never leaves, and of the answers to
   any other request exactly the plain ones whose ids are a permutation of the
   requested ones are passed on.
   */
  method RestoreLogisticsOrders(request: seq<string>, wellFormed: string -> bool, answer: Option<Acknowledgement>)
    returns (r: Restoration)
    ensures r == Refused <==> !ValidIDs(request, wellFormed)
    ensures r == CallFailed <==> ValidIDs(request, wellFormed) && answer.None?
    ensures r.Restored? <==> ValidIDs(request, wellFormed) && answer.Some? && answer.value.plain
                             && multiset(answer.value.ids) == multiset(request)
    ensures r.Restored? ==> r.ids == answer.value.ids
  {
    var valid := ValidateIDs(request, wellFormed);
    if !valid {
      return Refused;
    }
    if answer.None? {
      return CallFailed;
    }
    var out := answer.value.ids;
    AcceptsPermutations(out, request);
    PermutationIsValid(request, out, wellFormed);
    var acknowledged := ValidateIDs(out, wellFormed);
    if !answer.value.plain || !acknowledged {
      return InvalidAnswer;
    }
    var same := SameStringSet(out, request);
    if !same {
      return InvalidAnswer;
    }
    return Restored(out);
  }

  /** The check of the answer itself refuses no permutation of a valid request. */
  lemma PermutationIsValid(request: seq<string>, out: seq<string>, wellFormed: string -> bool)
    requires ValidIDs(request, wellFormed)
    ensures multiset(out) == multiset(request) ==> ValidIDs(out, wellFormed)
  {
    PermutationByElements(request, out);
    if multiset(out) == multiset(request) {
      assert |multiset(out)| == |out| && |multiset(request)| == |request|;
      forall id | id in out ensures wellFormed(id) {
        assert id in Elements(out) && id in Elements(request);
      }
    }
  }

  // ---------- Lists of a golden-path document ----------

  datatype Item = Item(id: string, evidence: string)

  datatype Verdict = Accepted | WrongLength | DuplicateOrUnknown | Incomplete

  function IDs(items: seq<Item>): seq<string> { seq(|items|, i requires 0 <= i < |items| => items[i].id) }

  /**
   The loop of the document's links, artifacts, checks and failures: the right
   length and no unknown or repeated id. The completeness test at its end never
   fires: such a list covers the required set, and binds each id to its item.
   */
  method CheckExactList(items: seq<Item>, required: set<string>) returns (verdict: Verdict, byID: map<string, Item>)
    ensures verdict != Incomplete
    ensures verdict == WrongLength <==> |items| != |required|
    ensures verdict == Accepted <==> NoRepeats(IDs(items)) && Elements(IDs(items)) == required
    ensures verdict == Accepted ==> byID.Keys == required && forall i :: 0 <= i < |items| ==>
                                items[i].id in byID && byID[items[i].id] == items[i]
  {
    byID := map[];
    ElementsSize(IDs(items));
    if |items| != |required| {
      return WrongLength, byID;
    }
    for i := 0 to |items|
      invariant byID.Keys == Elements(IDs(items)[..i]) && NoRepeats(IDs(items)[..i]) && byID.Keys <= required
      invariant forall k :: 0 <= k < i ==> items[k].id in byID && byID[items[k].id] == items[k]
    {
      var id := items[i].id;
      assert IDs(items)[i] == id && IDs(items)[..i + 1] == IDs(items)[..i] + [id];
      if id !in required || id in byID {
        Offending(IDs(items), i, required);
        return DuplicateOrUnknown, byID;
      }
      byID := byID[id := items[i]];
    }
    assert IDs(items)[..|items|] == IDs(items);
    SubsetOfEqualSize(byID.Keys, required);
    if byID.Keys != required {
      return Incomplete, byID;
    }
    return Accepted, byID;
  }

  lemma Offending(ids: seq<string>, i: nat, required: set<string>)
    requires i < |ids| && (ids[i] !in required || ids[i] in ids[..i])
    ensures !(NoRepeats(ids) && Elements(ids) == required)
  {
    assert ids[i] in Elements(ids);
    if ids[i] in ids[..i] {
      var j :| 0 <= j < i && ids[j] == ids[i];
    }
  }
}
