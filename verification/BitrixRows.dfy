/**
 Replacing the product rows of a lead or deal: all current rows are read page by
 page and compared with the wanted ones through sorted signatures; if they
 differ, the rows are replaced in one write and everything is read again.
 */
module BitrixRows {
  import opened Text
  import opened Ordering
  import opened BitrixCalls
  import Upsert = BitrixUpsert
  import Paging = BitrixPaging

  const NUL: char := '\0'
  const LAST_START := 100_000

  datatype Row = Row(product: string, name: string, price: string, quantity: string, taxRate: string, taxIncluded: bool) {
    /** Guaranteed by the validation of requests and of projected rows. */
    predicate NulFree() {
      NUL !in product && NUL !in name && NUL !in price && NUL !in quantity && NUL !in taxRate
    }
  }

  datatype RemoteRow = RemoteRow(row: Row, readable: bool)

  datatype Request = Request(ownerID: string, rows: seq<Row>) {
    ghost predicate Valid() { forall r :: r in rows ==> r.NulFree() }
  }

  // ---------- Signatures ----------

  function FormatBool(b: bool): string { if b then "true" else "false" }

  function Signature(r: Row): string {
    Join(NUL, [r.product, r.name, r.price, r.quantity, r.taxRate, FormatBool(r.taxIncluded)])
  }

  function Signatures(rows: seq<Row>): seq<string> {
    if rows == [] then [] else [Signature(rows[0])] + Signatures(rows[1..])
  }

  function RowsSignature(rows: seq<Row>): seq<string> { Sort(LexLe, Signatures(rows)) }

  lemma SignatureInjective(a: Row, b: Row)
    requires a.NulFree() && b.NulFree() && Signature(a) == Signature(b)
    ensures a == b
  {
    SplitSignature(a);
    SplitSignature(b);
    assert FormatBool(a.taxIncluded) == FormatBool(b.taxIncluded);
    assert |FormatBool(true)| == 4 && |FormatBool(false)| == 5;
  }

  lemma SplitSignature(r: Row)
    requires r.NulFree()
    ensures Split(NUL, Signature(r)) == [r.product, r.name, r.price, r.quantity, r.taxRate, FormatBool(r.taxIncluded)]
  {
    SplitJoin(NUL, [r.product, r.name, r.price, r.quantity, r.taxRate, FormatBool(r.taxIncluded)]);
  }

  lemma {:induction false} SignatureCounts(rows: seq<Row>, r: Row)
    requires r.NulFree() && forall x :: x in rows ==> x.NulFree()
    ensures multiset(Signatures(rows))[Signature(r)] == multiset(rows)[r]
  {
    if rows != [] {
      SignatureCounts(rows[1..], r);
      assert rows == [rows[0]] + rows[1..];
      if Signature(rows[0]) == Signature(r) {
        SignatureInjective(rows[0], r);
      }
    }
  }

  lemma {:induction false} SignatureOfSome(rows: seq<Row>, s: string)
    requires s in Signatures(rows)
    ensures exists r :: r in rows && Signature(r) == s
  {
    if Signature(rows[0]) == s {
      assert rows[0] in rows;
    } else {
      SignatureOfSome(rows[1..], s);
      var r :| r in rows[1..] && Signature(r) == s;
      assert r in rows;
    }
  }

  lemma {:induction false} SameRowsSameSignatures(a: seq<Row>, b: seq<Row>, s: string)
    requires (forall r :: r in a || r in b ==> r.NulFree()) && multiset(a) == multiset(b)
    ensures multiset(Signatures(a))[s] == multiset(Signatures(b))[s]
  {
    if s in Signatures(a) || s in Signatures(b) {
      if s in Signatures(a) { SignatureOfSome(a, s); } else { SignatureOfSome(b, s); }
      var r :| (r in a || r in b) && Signature(r) == s;
      SignatureCounts(a, r);
      SignatureCounts(b, r);
    } else {
      assert s !in multiset(Signatures(a)) && s !in multiset(Signatures(b));
    }
  }

  lemma {:induction false} SameSignaturesSameRows(a: seq<Row>, b: seq<Row>, r: Row)
    requires (forall x :: x in a || x in b ==> x.NulFree()) && multiset(Signatures(a)) == multiset(Signatures(b))
    ensures multiset(a)[r] == multiset(b)[r]
  {
    if r in a || r in b {
      SignatureCounts(a, r);
      SignatureCounts(b, r);
    } else {
      assert r !in multiset(a) && r !in multiset(b);
    }
  }

  /** Comparing sorted signatures compares the rows as multisets. */
  lemma SameSignatureIffSameRows(a: seq<Row>, b: seq<Row>)
    requires forall r :: r in a || r in b ==> r.NulFree()
    ensures RowsSignature(a) == RowsSignature(b) <==> multiset(a) == multiset(b)
  {
    var sa, sb := Signatures(a), Signatures(b);
    LexOrder(sa);
    SortDecidesMultiset(LexLe, sa, sb);
    if multiset(a) == multiset(b) {
      forall s ensures multiset(sa)[s] == multiset(sb)[s] { SameRowsSameSignatures(a, b, s); }
    }
    if multiset(sa) == multiset(sb) {
      forall r ensures multiset(a)[r] == multiset(b)[r] { SameSignaturesSameRows(a, b, r); }
    }
  }

  // ---------- Reading all rows ----------

  /** The portal answers every page of a reading, or fails on one of them. */
  datatype ReadFate = Answers | FailsAt(page: nat)

  ghost predicate Readable(rows: seq<RemoteRow>) { forall r :: r in rows ==> r.readable && r.row.NulFree() }

  function Rows(rows: seq<RemoteRow>): (r: seq<Row>)
    ensures |r| == |rows| && forall i :: 0 <= i < |rows| ==> r[i] == rows[i].row
  {
    seq(|rows|, i requires 0 <= i < |rows| => rows[i].row)
  }

  /** A page is asked for if it is the first one or starts before the end. */
  predicate Asked(page: nat, total: nat) { page == 0 || Paging.REMOTE_PAGE * page < total }

  ghost predicate ReadsAll(rows: seq<RemoteRow>, fate: ReadFate) {
    && |rows| <= LAST_START + Paging.REMOTE_PAGE
    && Readable(rows)
    && !(fate.FailsAt? && Asked(fate.page, |rows|))
  }

  /** The source's paging loop: everything in order, or an error. */
  method ReadAllRows(rows: seq<RemoteRow>, fate: ReadFate) returns (r: Option<seq<Row>>)
    requires forall x :: x in rows && x.readable ==> x.row.NulFree()
    ensures r == if ReadsAll(rows, fate) then Some(Rows(rows)) else None
  {
    var all: seq<Row> := [];
    var start := 0;
    ghost var page := 0;
    while start <= LAST_START
      invariant start == Paging.REMOTE_PAGE * page <= LAST_START + Paging.REMOTE_PAGE
      invariant start == 0 || start < |rows|
      invariant all == Rows(rows)[..start]
      invariant forall i :: 0 <= i < start ==> rows[i].readable
      invariant fate.FailsAt? ==> page <= fate.page
      decreases LAST_START + Paging.REMOTE_PAGE - start
    {
      if fate.FailsAt? && start == Paging.REMOTE_PAGE * fate.page {
        return None;
      }
      var raw := Paging.RemotePage(rows, start);
      for k := 0 to |raw|
        invariant all == Rows(rows)[..start + k]
        invariant forall i :: 0 <= i < start + k ==> rows[i].readable
      {
        assert raw[k] == rows[start + k];
        if !raw[k].readable {
          assert raw[k] in rows;
          return None;
        }
        all := all + [raw[k].row];
      }
      if start + Paging.REMOTE_PAGE >= |rows| {
        assert Readable(rows) by {
          assert forall x :: x in rows ==> exists i :: 0 <= i < |rows| && rows[i] == x;
        }
        assert all == Rows(rows)[..|rows|] == Rows(rows);
        return Some(all);
      }
      start := start + Paging.REMOTE_PAGE;
      page := page + 1;
    }
    return None;
  }

  // ---------- The replacement, as a function of the portal's choices ----------

  datatype WriteFate = WriteFate(landed: bool, stored: seq<RemoteRow>, reply: Reply)
  datatype Env = Env(before: ReadFate, write: WriteFate, after: ReadFate)

  datatype Failure = InvalidWrite | CallFailed(error: CallError) | UnusableResponse | OutcomeUnknown
  datatype Outcome = Done(applied: bool, duplicate: bool, reconciled: bool) | Failed(failure: Failure) | Crashed

  predicate Writable(req: Request) {
    Upsert.NumericID(req.ownerID).Some? && forall r :: r in req.rows ==> Upsert.NumericOrAbsent(r.product)
  }

  /** The rows as the projection reads them are free of NUL. */
  ghost predicate WellProjected(rows: seq<RemoteRow>) {
    forall r :: r in rows && r.readable ==> r.row.NulFree()
  }

  ghost predicate Honest(w: WriteFate) {
    (Call(w.reply).None? ==> w.landed) && WellProjected(w.stored)
  }

  ghost predicate Shows(rows: seq<RemoteRow>, fate: ReadFate, wanted: seq<Row>) {
    ReadsAll(rows, fate) && multiset(Rows(rows)) == multiset(wanted)
  }

  function Land(rows: seq<RemoteRow>, w: WriteFate): seq<RemoteRow> {
    if w.landed then w.stored else rows
  }

  datatype Step = Step(rows: seq<RemoteRow>, outcome: Outcome, mutations: nat)

  ghost function Replace(req: Request, rows: seq<RemoteRow>, env: Env): Step {
    if !Writable(req) then Step(rows, Failed(InvalidWrite), 0)
    else if Shows(rows, env.before, req.rows) then Step(rows, Done(false, true, true), 0)
    else
      var error := Call(env.write.reply);
      var rows' := Land(rows, env.write);
      Step(rows',
           if error.Some? && ClassifyWrite(error.value) == Crash then Crashed
           else if error.Some? && ClassifyWrite(error.value) == Definite then Failed(CallFailed(error.value))
           else if Shows(rows', env.after, req.rows) then Done(true, false, error.Some?)
           else Failed(if error.Some? then OutcomeUnknown else UnusableResponse),
           1)
  }

  class Portal {
    var rows: seq<RemoteRow>
    var mutations: nat

    method Set(w: WriteFate) returns (error: Option<CallError>)
      modifies this
      ensures rows == Land(old(rows), w) && mutations == old(mutations) + 1 && error == Call(w.reply)
    {
      rows := Land(rows, w);
      mutations := mutations + 1;
      error := Call(w.reply);
    }
  }

  method Compare(portal: Portal, fate: ReadFate, wanted: seq<Row>) returns (same: bool)
    requires WellProjected(portal.rows) && forall r :: r in wanted ==> r.NulFree()
    ensures same <==> Shows(portal.rows, fate, wanted)
  {
    var read := ReadAllRows(portal.rows, fate);
    same := read.Some? && RowsSignature(wanted) == RowsSignature(read.value);
    if read.Some? {
      assert forall r :: r in read.value ==> exists i :: 0 <= i < |portal.rows| && portal.rows[i].row == r;
      assert forall i :: 0 <= i < |portal.rows| ==> portal.rows[i] in portal.rows;
      SameSignatureIffSameRows(wanted, read.value);
    }
  }

  method ReplaceCRMProductRows(portal: Portal, req: Request, env: Env) returns (outcome: Outcome)
    requires req.Valid() && WellProjected(portal.rows) && Honest(env.write)
    modifies portal
    ensures portal.rows == Replace(req, old(portal.rows), env).rows
    ensures portal.mutations == old(portal.mutations) + Replace(req, old(portal.rows), env).mutations
    ensures outcome == Replace(req, old(portal.rows), env).outcome
  {
    if !Writable(req) {
      return Failed(InvalidWrite);
    }
    var same := Compare(portal, env.before, req.rows);
    if same {
      return Done(false, true, true);
    }
    var callError := portal.Set(env.write);
    if callError.Some? {
      match ClassifyWrite(callError.value) {
        case Crash => return Crashed;
        case Definite => return Failed(CallFailed(callError.value));
        case Ambiguous =>
      }
    }
    same := Compare(portal, env.after, req.rows);
    if same {
      return Done(true, false, callError.Some?);
    }
    if callError.Some? {
      return Failed(OutcomeUnknown);
    }
    return Failed(UnusableResponse);
  }

  // ---------- What a replacement does, request by request ----------

  /** The rows are asked for if the owner and the products that are given are positive numbers. */
  lemma WritableIff(req: Request)
    ensures Writable(req) <==> Upsert.IsID(req.ownerID) && forall r :: r in req.rows ==> r.product == "" || Upsert.IsID(r.product)
  {
    Upsert.NumericIDIff(req.ownerID);
    forall r | r in req.rows ensures Upsert.NumericID(r.product).Some? <==> Upsert.IsID(r.product) {
      Upsert.NumericIDIff(r.product);
    }
  }

  /** Nothing is sent, and the request answered as a duplicate, exactly if the first reading shows the wanted rows. */
  lemma DuplicateIff(req: Request, rows: seq<RemoteRow>, env: Env)
    requires Writable(req)
    ensures Replace(req, rows, env) == Step(rows, Done(false, true, true), 0)
       <==> ReadsAll(rows, env.before) && multiset(Rows(rows)) == multiset(req.rows)
  {
  }

  /**
   Otherwise the rows are sent once, also after a failed reading, and the request
   gets its receipt exactly if the write is reported as done, or failed
   ambiguously, and the second reading shows the wanted rows.
   */
  lemma AppliedIff(req: Request, rows: seq<RemoteRow>, env: Env)
    requires Writable(req) && !(ReadsAll(rows, env.before) && multiset(Rows(rows)) == multiset(req.rows))
    ensures var reply, rows' := env.write.reply, if env.write.landed then env.write.stored else rows;
            && Replace(req, rows, env).rows == rows' && Replace(req, rows, env).mutations == 1
            && (Replace(req, rows, env).outcome == Done(true, false, !Succeeds(reply))
                <==> (Succeeds(reply) || AmbiguousReply(reply))
                     && ReadsAll(rows', env.after) && multiset(Rows(rows')) == multiset(req.rows))
  {
    SuccessIff(env.write.reply);
    CrashIff(env.write.reply);
    AmbiguousIff(env.write.reply);
  }

  /** Without a receipt it crashes, or fails for a reason told from the request and the reply. */
  lemma FailsFor(req: Request, rows: seq<RemoteRow>, env: Env)
    requires !Replace(req, rows, env).outcome.Done?
    ensures var reply := env.write.reply;
            Replace(req, rows, env).outcome ==
              if !Writable(req) then Failed(InvalidWrite)
              else if Crashing(reply) then Crashed
              else if Succeeds(reply) then Failed(UnusableResponse)
              else if AmbiguousReply(reply) then Failed(OutcomeUnknown)
              else Failed(CallFailed(Call(reply).value))
    ensures !Writable(req) ==> Replace(req, rows, env).rows == rows && Replace(req, rows, env).mutations == 0
  {
    SuccessIff(env.write.reply);
    CrashIff(env.write.reply);
    AmbiguousIff(env.write.reply);
  }

  // ---------- What a receipt promises ----------

  /** A receipt is returned only if the portal holds the wanted rows, as a multiset. */
  lemma ReceiptMeansRowsAreThere(req: Request, rows: seq<RemoteRow>, env: Env)
    requires Honest(env.write) && Replace(req, rows, env).outcome.Done?
    ensures var step := Replace(req, rows, env);
            && multiset(Rows(step.rows)) == multiset(req.rows)
            && step.outcome.applied != step.outcome.duplicate
            && (step.outcome.duplicate ==> step.rows == rows && step.mutations == 0)
            && (step.outcome.applied ==> step.mutations == 1)
            && (step.outcome.applied && !step.outcome.reconciled ==> env.write.landed)
  {
  }

  /**
   Unlike for entities, a failed first reading does not stop the replacement, so
   a reconciled receipt shows that the write took effect except in one case: the
   first reading failed, and the rows were already the wanted ones.
   */
  lemma ReconciledMeansLandedIff(req: Request, rows: seq<RemoteRow>, before: ReadFate)
    requires req.Valid() && Writable(req)
    ensures (forall w, after :: Honest(w) && Replace(req, rows, Env(before, w, after)).outcome == Done(true, false, true) ==> w.landed)
       <==> !(Shows(rows, Answers, req.rows) && !ReadsAll(rows, before))
  {
    if Shows(rows, Answers, req.rows) && !ReadsAll(rows, before) {
      var lost := WriteFate(false, [], TransportFailure);
      assert Honest(lost) && Replace(req, rows, Env(before, lost, Answers)).outcome == Done(true, false, true);
    } else {
      forall w, after | Honest(w) && Replace(req, rows, Env(before, w, after)).outcome == Done(true, false, true)
        ensures w.landed
      {
      }
    }
  }

  lemma ReconciledWithoutLandingExample() returns (req: Request, rows: seq<RemoteRow>, env: Env)
    ensures req.Valid() && Honest(env.write) && !env.write.landed
    ensures Replace(req, rows, env).outcome == Done(true, false, true)
  {
    req, rows := Request("7", []), [];
    env := Env(FailsAt(0), WriteFate(false, [], TransportFailure), Answers);
    assert "7"[..0] == "";
    assert Rows(rows) == [];
  }

  /** After a receipt, the same request again changes nothing and says so. */
  lemma RetryIsDuplicate(req: Request, rows: seq<RemoteRow>, env: Env, again: Env)
    requires Honest(env.write) && Replace(req, rows, env).outcome.Done? && again.before.Answers?
    ensures var step := Replace(req, rows, env);
            Replace(req, step.rows, again) == Step(step.rows, Done(false, true, true), 0)
  {
  }
}
