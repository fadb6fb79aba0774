/**
 Lists of declared parameters, of which the first one of a name and location
 counts, and what is lost when some declarations are skipped.
 */
module ParameterLists {
  import opened OpenApiReader

  ghost predicate DistinctKeys(ps: seq<Parameter>) {
    forall i, j :: 0 <= i < j < |ps| ==> !SameKey(ps[i], ps[j])
  }

  lemma AddParameterKeeps(ps: seq<Parameter>, p: Parameter)
    requires DistinctKeys(ps)
    ensures DistinctKeys(AddParameter(ps, p)) && ps <= AddParameter(ps, p) && Declared(AddParameter(ps, p), p)
  {
    if !Declared(ps, p) {
      assert SameKey((ps + [p])[|ps|], p);
    }
  }

  /** A declaration that the reader may skip. */
  datatype Slot = Slot(p: Parameter, skipped: bool)

  /** The declared parameters in order, the first one of a key winning; skipped ones are left out, unless `all` count. */
  function Fold(base: seq<Parameter>, slots: seq<Slot>, all: bool): seq<Parameter> {
    if slots == [] then base
    else
      var front, last := Fold(base, slots[..|slots| - 1], all), slots[|slots| - 1];
      if last.skipped && !all then front else AddParameter(front, last.p)
  }

  lemma {:induction false} FoldConcat(base: seq<Parameter>, a: seq<Slot>, b: seq<Slot>, all: bool)
    ensures Fold(base, a + b, all) == Fold(Fold(base, a, all), b, all)
  {
    if b == [] {
      assert a + b == a;
    } else {
      assert (a + b)[..|a + b| - 1] == a + b[..|b| - 1];
      FoldConcat(base, a, b[..|b| - 1], all);
    }
  }

  predicate Counts(slot: Slot, all: bool) { all || !slot.skipped }

  predicate InSlots(slots: seq<Slot>, p: Parameter, all: bool) {
    exists i :: 0 <= i < |slots| && Counts(slots[i], all) && SameKey(slots[i].p, p)
  }

  /** One more declaration: it is in, or something already in has its key. */
  lemma InMoreSlots(slots: seq<Slot>, p: Parameter, all: bool)
    requires slots != []
    ensures var front, last := slots[..|slots| - 1], slots[|slots| - 1];
            InSlots(slots, p, all) <==> InSlots(front, p, all) || (Counts(last, all) && SameKey(last.p, p))
  {
    var front := slots[..|slots| - 1];
    if InSlots(front, p, all) {
      var i :| 0 <= i < |front| && Counts(front[i], all) && SameKey(front[i].p, p);
      assert Counts(slots[i], all) && SameKey(slots[i].p, p);
    }
    if InSlots(slots, p, all) {
      var i :| 0 <= i < |slots| && Counts(slots[i], all) && SameKey(slots[i].p, p);
      if i < |front| {
        assert Counts(front[i], all) && SameKey(front[i].p, p);
      }
    }
  }

  lemma DeclaredAfterAdding(ps: seq<Parameter>, q: Parameter, p: Parameter)
    ensures Declared(AddParameter(ps, q), p) <==> Declared(ps, p) || SameKey(q, p)
  {
    if !Declared(ps, q) {
      assert (ps + [q])[|ps|] == q;
      if Declared(ps, p) {
        var i :| 0 <= i < |ps| && SameKey(ps[i], p);
        assert (ps + [q])[i] == ps[i];
      }
    } else if SameKey(q, p) {
      var i :| 0 <= i < |ps| && SameKey(ps[i], q);
      assert SameKey(ps[i], p);
    }
  }

  lemma {:induction false} FoldDeclares(slots: seq<Slot>, all: bool, p: Parameter)
    ensures Declared(Fold([], slots, all), p) <==> InSlots(slots, p, all)
  {
    if slots != [] {
      var front, last := slots[..|slots| - 1], slots[|slots| - 1];
      FoldDeclares(front, all, p);
      InMoreSlots(slots, p, all);
      DeclaredAfterAdding(Fold([], front, all), last.p, p);
    }
  }

  lemma {:induction false} FoldDistinct(slots: seq<Slot>, all: bool)
    ensures DistinctKeys(Fold([], slots, all))
  {
    if slots != [] {
      FoldDistinct(slots[..|slots| - 1], all);
      AddParameterKeeps(Fold([], slots[..|slots| - 1], all), slots[|slots| - 1].p);
    }
  }

  lemma {:induction false} FoldPrefix(slots: seq<Slot>, i: nat, all: bool)
    requires i <= |slots|
    ensures Fold([], slots[..i], all) <= Fold([], slots, all)
    decreases |slots|
  {
    if i < |slots| {
      var front := slots[..|slots| - 1];
      FoldPrefix(front, i, all);
      assert front[..i] == slots[..i];
    } else {
      assert slots[..i] == slots;
    }
  }

  /** Which declaration put the entry at position `m` into the list. */
  lemma {:induction false} FoldOrigin(slots: seq<Slot>, all: bool, m: nat) returns (r: nat)
    requires m < |Fold([], slots, all)|
    ensures r < |slots| && Counts(slots[r], all) && |Fold([], slots[..r], all)| == m
    ensures Fold([], slots, all)[m] == slots[r].p && !Declared(Fold([], slots[..r], all), slots[r].p)
    decreases |slots|
  {
    var front := slots[..|slots| - 1];
    if m < |Fold([], front, all)| {
      r := FoldOrigin(front, all, m);
      assert front[..r] == slots[..r];
    } else {
      r := |slots| - 1;
    }
  }

  /** What is in the list in the end: the first declaration of each name and location. */
  lemma {:induction false} FirstOfEachIff(slots: seq<Slot>, p: Parameter)
    ensures p in Fold([], slots, true) <==>
              exists i :: 0 <= i < |slots| && slots[i].p == p
                && forall j :: 0 <= j < i ==> slots[j].p.name != p.name || slots[j].p.location != p.location
  {
    if p in Fold([], slots, true) {
      var m :| 0 <= m < |Fold([], slots, true)| && Fold([], slots, true)[m] == p;
      var i := FoldOrigin(slots, true, m);
      NoneBeforeIff(slots, i);
    }
    if i :| 0 <= i < |slots| && slots[i].p == p
            && forall j :: 0 <= j < i ==> slots[j].p.name != p.name || slots[j].p.location != p.location {
      NoneBeforeIff(slots, i);
      FoldPrefix(slots, i + 1, true);
      assert slots[..i + 1][..i] == slots[..i];
      var list := Fold([], slots[..i], true);
      assert (list + [p])[|list|] == p;
    }
  }

  /** A declaration is added if no earlier one has its name and location. */
  lemma NoneBeforeIff(slots: seq<Slot>, i: nat)
    requires i < |slots|
    ensures !Declared(Fold([], slots[..i], true), slots[i].p)
       <==> forall j :: 0 <= j < i ==> slots[j].p.name != slots[i].p.name || slots[j].p.location != slots[i].p.location
  {
    FoldDeclares(slots[..i], true, slots[i].p);
    assert forall j :: 0 <= j < i ==> slots[..i][j] == slots[j];
    if j :| 0 <= j < i && slots[j].p.name == slots[i].p.name && slots[j].p.location == slots[i].p.location {
      assert Counts(slots[..i][j], true) && SameKey(slots[..i][j].p, slots[i].p);
    }
  }

  // ---------- What skipping loses ----------

  /** No earlier declaration has the key of number `i`. */
  predicate FirstOfKey(slots: seq<Slot>, i: nat)
    requires i < |slots|
  {
    !InSlots(slots[..i], slots[i].p, true)
  }

  /** A later declaration `j` repeats the skipped `i` before any other new key is declared. */
  predicate Covers(slots: seq<Slot>, i: nat, j: nat)
    requires i < |slots|
  {
    && i < j < |slots| && !slots[j].skipped && slots[j].p == slots[i].p
    && forall k :: i < k < j && !slots[k].skipped ==> InSlots(slots[..i], slots[k].p, true)
  }

  /** Every skipped declaration that is the first of its key is repeated, word for word and in its place. */
  ghost predicate Covered(slots: seq<Slot>) {
    forall i: nat :: i < |slots| && slots[i].skipped && FirstOfKey(slots, i) ==> exists j: nat :: Covers(slots, i, j)
  }

  lemma SlotBefore(slots: seq<Slot>, r: nat, i: nat)
    requires r < i <= |slots| && !slots[r].skipped
    ensures Declared(Fold([], slots[..i], false), slots[r].p)
  {
    FoldDeclares(slots[..i], false, slots[r].p);
    assert slots[..i][r] == slots[r] && Counts(slots[r], false);
  }

  /** In a covered list the entry missing first was skipped, and its repetition is still to come. */
  lemma Missing(slots: seq<Slot>, i: nat) returns (r: nat, j: nat)
    requires Covered(slots) && i <= |slots|
    requires Fold([], slots[..i], false) <= Fold([], slots[..i], true)
    requires |Fold([], slots[..i], false)| < |Fold([], slots[..i], true)|
    ensures r < i <= j && slots[r].skipped && Covers(slots, r, j)
    ensures Fold([], slots[..r], true) == Fold([], slots[..i], false)
    ensures Fold([], slots[..i], true)[|Fold([], slots[..i], false)|] == slots[r].p
  {
    var read, full := Fold([], slots[..i], false), Fold([], slots[..i], true);
    r := FoldOrigin(slots[..i], true, |read|);
    assert slots[..i][..r] == slots[..r];
    FoldPrefix(slots[..i], r, true);
    assert Fold([], slots[..r], true) == read;
    if !slots[r].skipped {
      SlotBefore(slots, r, i);
      assert false;
    }
    FoldDeclares(slots[..r], true, slots[r].p);
    assert FirstOfKey(slots, r);
    j :| Covers(slots, r, j);
    if j < i {
      SlotBefore(slots, j, i);
      assert false;
    }
  }

  /** A declaration read behind a gap is the one the gap starts with. */
  lemma {:induction false} GapFilled(slots: seq<Slot>, i: nat)
    requires Covered(slots) && i < |slots| && !slots[i].skipped
    requires Fold([], slots[..i], false) <= Fold([], slots[..i], true)
    requires |Fold([], slots[..i], false)| < |Fold([], slots[..i], true)| && !Declared(Fold([], slots[..i], false), slots[i].p)
    ensures Fold([], slots[..i], true)[|Fold([], slots[..i], false)|] == slots[i].p
  {
    var r, j := Missing(slots, i);
    if j > i {
      FoldDeclares(slots[..r], true, slots[i].p);
      assert false;
    }
  }

  /** One more declaration, read or not, keeps what is read a beginning of what is declared. */
  lemma PrefixGrows(read: seq<Parameter>, full: seq<Parameter>, p: Parameter, skipped: bool)
    requires read <= full
    requires |read| < |full| && !skipped && !Declared(read, p) ==> full[|read|] == p
    ensures (if skipped then read else AddParameter(read, p)) <= AddParameter(full, p)
  {
    if !skipped && !Declared(read, p) {
      if |read| < |full| {
        assert SameKey(full[|read|], p);
      } else {
        assert read == full;
      }
    }
  }

  lemma {:induction false} CoveredPrefix(slots: seq<Slot>, i: nat)
    requires Covered(slots) && i <= |slots|
    ensures Fold([], slots[..i], false) <= Fold([], slots[..i], true)
    decreases i
  {
    if i > 0 {
      CoveredPrefix(slots, i - 1);
      assert slots[..i][..i - 1] == slots[..i - 1];
      var read, full, last := Fold([], slots[..i - 1], false), Fold([], slots[..i - 1], true), slots[i - 1];
      if |read| < |full| && !last.skipped && !Declared(read, last.p) {
        GapFilled(slots, i - 1);
      }
      PrefixGrows(read, full, last.p, last.skipped);
    }
  }

  lemma {:induction false} CoveredKeeps(slots: seq<Slot>)
    requires Covered(slots)
    ensures Fold([], slots, false) == Fold([], slots, true)
  {
    CoveredPrefix(slots, |slots|);
    assert slots[..|slots|] == slots;
    if |Fold([], slots, false)| < |Fold([], slots, true)| {
      var r, j := Missing(slots, |slots|);
      assert false;
    }
  }

  lemma EarlierKey(slots: seq<Slot>, i: nat, j: nat)
    requires i <= |slots| && j < |slots|
    ensures j < i ==> InSlots(slots[..i], slots[j].p, true)
  {
    if j < i {
      assert slots[..i][j] == slots[j] && Counts(slots[j], true);
    }
  }

  lemma {:induction false} KeptIsCovered(slots: seq<Slot>, i: nat)
    requires Fold([], slots, false) == Fold([], slots, true)
    requires i < |slots| && slots[i].skipped && FirstOfKey(slots, i)
    ensures exists j: nat :: Covers(slots, i, j)
  {
    var before, p, list := Fold([], slots[..i], true), slots[i].p, Fold([], slots, true);
    FoldDeclares(slots[..i], true, p);
    assert slots[..i + 1][..i] == slots[..i];
    assert Fold([], slots[..i + 1], true) == before + [p];
    FoldPrefix(slots, i + 1, true);
    var m := |before|;
    assert list[m] == p && list[..m] == before;
    var j := FoldOrigin(slots, false, m);
    FoldPrefix(slots, j, false);
    assert Fold([], slots[..j], false) == before;
    EarlierKey(slots, i, j);
    forall k | i < k < j && !slots[k].skipped ensures InSlots(slots[..i], slots[k].p, true) {
      SlotBefore(slots, k, j);
      FoldDeclares(slots[..i], true, slots[k].p);
    }
    assert Covers(slots, i, j);
  }

  /** Skipping loses nothing, not even an order, exactly on covered lists. */
  lemma {:induction false} SkippingLosesNothingIff(slots: seq<Slot>)
    ensures Fold([], slots, false) == Fold([], slots, true) <==> Covered(slots)
  {
    if Covered(slots) {
      CoveredKeeps(slots);
    }
    if Fold([], slots, false) == Fold([], slots, true) {
      forall i: nat | i < |slots| && slots[i].skipped && FirstOfKey(slots, i) ensures exists j: nat :: Covers(slots, i, j) {
        KeptIsCovered(slots, i);
      }
    }
  }

  /** With pairwise different keys only a list without skipped declarations is covered. */
  lemma CoveredDistinctIff(slots: seq<Slot>)
    requires forall i, j :: 0 <= i < j < |slots| ==> !SameKey(slots[i].p, slots[j].p)
    ensures Covered(slots) <==> forall i :: 0 <= i < |slots| ==> !slots[i].skipped
  {
    if Covered(slots) {
      forall i: nat | i < |slots| ensures !slots[i].skipped {
        if slots[i].skipped {
          assert FirstOfKey(slots, i);
        }
      }
    }
  }
}
