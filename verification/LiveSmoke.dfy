/**
 The write section of the marketplace live smoke: write one more unit than was
 observed, wait until it is seen, write the original quantity back, wait again,
 and recover where a read or a write fails. Everything that happens at the
 remote is kept in a log, which the safety statements are about.
 */
module LiveSmoke {
  import opened Text

  // ---------- The remote, as seen in the log ----------

  /** A failed write may nevertheless have landed. */
  datatype Event = Observed(quantity: int) | ReadFailed | Written(sent: int, ok: bool, landed: bool)

  /** What the remote does at one interaction: any of this, unless it is honest. */
  datatype Answer = Answer(readable: bool, quantity: int, accepts: bool, lands: bool, timeIsUp: bool)

  function Writes(log: seq<Event>): nat {
    if log == [] then 0 else Writes(log[..|log| - 1]) + if log[|log| - 1].Written? then 1 else 0
  }

  function Reads(log: seq<Event>): nat {
    if log == [] then 0 else Reads(log[..|log| - 1]) + if log[|log| - 1].Written? then 0 else 1
  }

  /** The latest successful observation, if nothing was written since. */
  function Settled(log: seq<Event>): Option<int> {
    if log == [] then None
    else
      match log[|log| - 1]
      case Observed(q) => Some(q)
      case ReadFailed => Settled(log[..|log| - 1])
      case Written(_, _, _) => None
  }

  /** First one write of `original + 1`, then at most one of `original`, and that only right after seeing `original + 1`. */
  predicate Disciplined(log: seq<Event>, original: int) {
    log == [] ||
    var before, last := log[..|log| - 1], log[|log| - 1];
    Disciplined(before, original) &&
    (last.Written? ==>
       if Writes(before) == 0 then last.sent == original + 1 && Settled(before) == Some(original)
       else Writes(before) == 1 && last.sent == original && Settled(before) == Some(original + 1))
  }

  /** The quantity at the remote when nobody else writes. */
  function Quantity(initial: int, log: seq<Event>): int {
    if log == [] then initial
    else
      match log[|log| - 1]
      case Written(q, ok, landed) => if ok || landed then q else Quantity(initial, log[..|log| - 1])
      case _ => Quantity(initial, log[..|log| - 1])
  }

  /** Every successful read shows the current quantity. */
  predicate Honest(initial: int, log: seq<Event>) {
    log == [] ||
    var before, last := log[..|log| - 1], log[|log| - 1];
    Honest(initial, before) && (last.Observed? ==> last.quantity == Quantity(initial, before))
  }

  /** From event `from` on, nothing was reported as failed. */
  ghost predicate NothingFails(log: seq<Event>, from: nat) {
    forall i :: from <= i < |log| ==> !log[i].ReadFailed? && (log[i].Written? ==> log[i].ok)
  }

  /** The log `after` was written on behind the log `before`. */
  ghost predicate Grown(before: seq<Event>, after: seq<Event>, original: int) {
    before <= after && (Honest(original, after) ==> Honest(original, before))
  }

  lemma {:induction false} Extended(log: seq<Event>, e: Event, original: int)
    ensures Writes(log + [e]) == Writes(log) + (if e.Written? then 1 else 0)
    ensures Reads(log + [e]) == Reads(log) + (if e.Written? then 0 else 1)
    ensures Settled(log + [e]) == match e { case Observed(q) => Some(q) case ReadFailed => Settled(log) case Written(_, _, _) => None }
    ensures Disciplined(log + [e], original) <==> (Disciplined(log, original) &&
              (e.Written? ==>
                 if Writes(log) == 0 then e.sent == original + 1 && Settled(log) == Some(original)
                 else Writes(log) == 1 && e.sent == original && Settled(log) == Some(original + 1)))
    ensures Quantity(original, log + [e]) == if e.Written? && (e.ok || e.landed) then e.sent else Quantity(original, log)
    ensures Honest(original, log + [e]) <==> Honest(original, log) && (e.Observed? ==> e.quantity == Quantity(original, log))
  {
    assert (log + [e])[..|log + [e]| - 1] == log;
  }

  // ---------- What the log shows about the remote ----------

  /** On an honest remote, what was seen since the last write is still there. */
  lemma {:induction false} SettledIsCurrent(initial: int, log: seq<Event>)
    requires Honest(initial, log) && Settled(log).Some?
    ensures Quantity(initial, log) == Settled(log).value
  {
    if log[|log| - 1].ReadFailed? {
      SettledIsCurrent(initial, log[..|log| - 1]);
    }
  }

  /** On an honest remote, a disciplined run never leaves any third quantity behind. */
  lemma {:induction false} OnlyTwoQuantities(original: int, log: seq<Event>)
    requires Disciplined(log, original)
    ensures Quantity(original, log) == original || Quantity(original, log) == original + 1
    ensures Writes(log) == 0 ==> Quantity(original, log) == original
  {
    if log != [] {
      OnlyTwoQuantities(original, log[..|log| - 1]);
    }
  }

  // ---------- The run ----------

  datatype Failure =
    | ReadingFailed | OrdersFailed | TaxonomyFailed | QuantityOverflow | WriterMissing
    | Timeout | QuantityMismatch | WriteRejected | WriteOutcomeUnknown
    | UnexpectedQuantity | CleanupRejected | RestoreNotConfirmed

  datatype Check = InventoryRead | OrdersRead | TaxonomyRead | InventoryWrite | ReadAfterWrite | Cleanup

  datatype Config = Config(ordersOK: bool, taxonomyOK: bool, writeInventory: bool, writerOK: bool)

  const MAX_QUANTITY := 2_000_000_000

  class Smoke {
    const answers: nat -> Answer
    ghost var log: seq<Event>
    var position: nat
    var checks: seq<Check>
    var attempted: bool
    var readAfterWrite: bool
    var restored: bool

    constructor (answers: nat -> Answer)
      ensures log == [] && position == 0 && checks == []
      ensures !attempted && !readAfterWrite && !restored
    {
      this.answers := answers;
      log, position, checks := [], 0, [];
      attempted, readAfterWrite, restored := false, false, false;
    }

    method ReadInventory() returns (quantity: Option<int>)
      modifies this`log, this`position
      ensures log == old(log) + [if quantity.Some? then Observed(quantity.value) else ReadFailed]
    {
      var a := answers(position);
      position := position + 1;
      quantity := if a.readable then Some(a.quantity) else None;
      log := log + [if quantity.Some? then Observed(quantity.value) else ReadFailed];
    }

    method WriteInventory(quantity: int) returns (ok: bool)
      modifies this`log, this`position
      ensures exists landed :: log == old(log) + [Written(quantity, ok, landed)]
    {
      var a := answers(position);
      position := position + 1;
      ok := a.accepts;
      log := log + [Written(quantity, ok, a.lands)];
    }

    /** Up to six readings; the last successful one is reported even if a later one fails. */
    method WaitInventoryQuantity(wanted: int, ghost original: int) returns (observed: int, valid: bool, failure: Option<Failure>)
      requires Disciplined(log, original)
      modifies this`log, this`position
      ensures Grown(old(log), log, original) && Disciplined(log, original)
      ensures Writes(log) == Writes(old(log)) && Reads(log) <= Reads(old(log)) + 6
      ensures failure.None? <==> valid && observed == wanted
      ensures failure == Some(QuantityMismatch) ==> valid && observed != wanted && Reads(log) == Reads(old(log)) + 6
      ensures failure == Some(Timeout) ==> valid && observed != wanted && Reads(log) < Reads(old(log)) + 6
      ensures Settled(log) == if valid then Some(observed) else Settled(old(log))
      ensures Quantity(original, log) == Quantity(original, old(log))
      ensures Honest(original, log) && NothingFails(log, |old(log)|) && Quantity(original, log) == wanted ==> failure.None?
      ensures failure.Some? && Honest(original, log) && NothingFails(log, |old(log)|) ==> valid
    {
      observed, valid := 0, false;
      for attempt := 0 to 6
        invariant Grown(old(log), log, original) && Disciplined(log, original)
        invariant Writes(log) == Writes(old(log)) && Reads(log) == Reads(old(log)) + attempt
        invariant if attempt == 0 then !valid else valid && observed != wanted
        invariant Settled(log) == if valid then Some(observed) else Settled(old(log))
        invariant Quantity(original, log) == Quantity(original, old(log))
        invariant attempt > 0 && Honest(original, log) ==> Quantity(original, log) != wanted
      {
        ghost var before := log;
        var read := ReadInventory();
        Extended(before, log[|before|], original);
        if read.None? {
          assert log[|log| - 1].ReadFailed?;
          return observed, valid, Some(ReadingFailed);
        }
        observed, valid := read.value, true;
        if observed == wanted {
          return observed, valid, None;
        }
        if attempt < 5 && answers(position).timeIsUp {
          return observed, valid, Some(Timeout);
        }
      }
      return observed, valid, Some(QuantityMismatch);
    }

    /** Sends the original quantity back and waits for it. */
    method SendBack(original: int) returns (ok: bool, waiting: Option<Failure>)
      requires Disciplined(log, original) && Writes(log) == 1 && Settled(log) == Some(original + 1)
      modifies this`log, this`position
      ensures Grown(old(log), log, original) && Disciplined(log, original)
      ensures Writes(log) == 2 && Reads(log) <= Reads(old(log)) + 6
      ensures ok && waiting.None? ==> Settled(log) == Some(original)
      ensures Honest(original, log) && NothingFails(log, |old(log)|) ==> ok && waiting.None?
    {
      ghost var before := log;
      ok := WriteInventory(original);
      Extended(before, log[|before|], original);
      ghost var sent := log;
      assert sent[|before|].Written?;
      if !ok {
        return ok, None;
      }
      var _, _, failure := WaitInventoryQuantity(original, original);
      return ok, failure;
    }

    /** After the test write was accepted but not confirmed. */
    method RestoreInventory(original: int, observed: int, valid: bool, failure: Failure) returns (r: Failure)
      requires Disciplined(log, original) && Writes(log) == 1
      requires Settled(log) == if valid then Some(observed) else None
      modifies this`log, this`position, this`restored
      ensures Grown(old(log), log, original) && Disciplined(log, original)
      ensures 1 <= Writes(log) <= 2 && Reads(log) <= Reads(old(log)) + 6
      ensures restored ==> Settled(log) == Some(original) && r == failure
      ensures Writes(log) == 2 <==> valid && observed == original + 1
      ensures !restored && Writes(log) == 1 ==> r == if valid then UnexpectedQuantity else failure
      ensures !restored && Writes(log) == 2 ==> r == CleanupRejected || r == RestoreNotConfirmed
      ensures valid && observed == original ==> restored
      ensures valid && observed == original + 1 && Honest(original, log) && NothingFails(log, |old(log)|) ==> restored
    {
      if !valid {
        restored := false;
        return failure;
      }
      if observed == original {
        restored := true;
        return failure;
      }
      if observed != original + 1 {
        restored := false;
        return UnexpectedQuantity;
      }
      var ok, waiting := SendBack(original);
      if !ok {
        restored := false;
        return CleanupRejected;
      }
      if waiting.Some? {
        restored := false;
        return RestoreNotConfirmed;
      }
      restored := true;
      return failure;
    }

    /** After the test write was reported as failed. */
    method ReconcileAfterWriteError(original: int, testQuantity: int) returns (r: Failure)
      requires testQuantity == original + 1 && Disciplined(log, original) && Writes(log) == 1 && Settled(log).None?
      requires !restored && !readAfterWrite
      modifies this`log, this`position, this`restored, this`readAfterWrite
      ensures Grown(old(log), log, original) && Disciplined(log, original)
      ensures 1 <= Writes(log) <= 2 && Reads(log) <= Reads(old(log)) + 7
      ensures restored ==> Settled(log) == Some(original)
      ensures readAfterWrite <==> restored
      ensures r == WriteRejected <==> restored
      ensures !restored && Writes(log) == 1 ==> r == WriteOutcomeUnknown || r == UnexpectedQuantity
      ensures !restored && Writes(log) == 2 ==> r == CleanupRejected || r == RestoreNotConfirmed
      ensures Honest(original, log) && NothingFails(log, |old(log)|) ==> restored
    {
      ghost var before := log;
      OnlyTwoQuantities(original, before);
      var read := ReadInventory();
      Extended(before, log[|before|], original);
      ghost var seen := log;
      assert read.None? ==> seen[|before|].ReadFailed?;
      if read.None? {
        return WriteOutcomeUnknown;
      }
      var observed := read.value;
      if observed == original {
        readAfterWrite := true;
        restored := true;
        return WriteRejected;
      }
      if observed != testQuantity {
        return UnexpectedQuantity;
      }
      var ok, waiting := SendBack(original);
      if !ok {
        return CleanupRejected;
      }
      if waiting.Some? {
        restored := false;
        return RestoreNotConfirmed;
      }
      readAfterWrite := true;
      restored := true;
      return WriteRejected;
    }

    /** From the test write on. */
    method ExerciseWrite(original: int) returns (failure: Option<Failure>)
      requires Disciplined(log, original) && Writes(log) == 0 && Reads(log) == 1 && Settled(log) == Some(original)
      requires Quantity(original, log) == original && !attempted && !readAfterWrite && !restored
      modifies this
      ensures Disciplined(log, original) && 1 <= Writes(log) <= 2 && Reads(log) <= 13
      ensures restored ==> Settled(log) == Some(original)
      ensures attempted && (failure.None? ==> restored && readAfterWrite)
      ensures checks == old(checks) + if failure.None? then [InventoryWrite, ReadAfterWrite, Cleanup] else []
      ensures old(log) <= log
      ensures Honest(original, log) && NothingFails(log, |old(log)| + 1) ==> restored
      ensures Honest(original, log) && NothingFails(log, |old(log)|) ==> failure.None?
    {
      var testQuantity := original + 1;
      attempted := true;
      ghost var before := log;
      var ok := WriteInventory(testQuantity);
      Extended(before, log[|before|], original);
      ghost var sent := log;
      assert sent[|before|].Written? && sent[|before|].ok == ok;
      if !ok {
        var r := ReconcileAfterWriteError(original, testQuantity);
        return Some(r);
      }
      var observed, valid, waiting := WaitInventoryQuantity(testQuantity, original);
      if waiting.Some? {
        var r := RestoreInventory(original, observed, valid, waiting.value);
        return Some(r);
      }
      readAfterWrite := true;
      var accepted, confirming := SendBack(original);
      if !accepted {
        return Some(CleanupRejected);
      }
      if confirming.Some? {
        return confirming;
      }
      restored := true;
      checks := checks + [InventoryWrite, ReadAfterWrite, Cleanup];
      return None;
    }

    /**
     The inventory part of the smoke, from the first reading on. Whatever the
     remote answers: at most two writes and thirteen readings, in the discipline
     above; `restored` only after the original quantity was seen since the last
     write; success only if restored. On an honest remote the original quantity is
     restored if nothing but the test write fails, and the run succeeds if nothing fails.
     */
    method RunMarketplace(cfg: Config) returns (original: int, failure: Option<Failure>)
      requires log == [] && checks == [] && !attempted && !readAfterWrite && !restored
      modifies this
      ensures Disciplined(log, original) && Writes(log) <= 2 && Reads(log) <= 13
      ensures restored ==> Settled(log) == Some(original)
      ensures failure.None? ==> restored
      ensures attempted <==> Writes(log) > 0
      ensures log != [] && !log[0].Written? && (log[0].Observed? ==> original == log[0].quantity)
      ensures attempted <==> log[0].Observed? && cfg.ordersOK && cfg.taxonomyOK && cfg.writeInventory
                             && original < 2_000_000_000 && cfg.writerOK
      ensures !attempted ==> |log| == 1
      ensures !attempted ==> failure == if log[0].ReadFailed? then Some(ReadingFailed)
                                        else if !cfg.ordersOK then Some(OrdersFailed)
                                        else if !cfg.taxonomyOK then Some(TaxonomyFailed)
                                        else if !cfg.writeInventory then None
                                        else if original >= 2_000_000_000 then Some(QuantityOverflow)
                                        else Some(WriterMissing)
      ensures Cleanup in checks <==> failure.None? && cfg.writeInventory
      ensures attempted && Honest(original, log) && NothingFails(log, 2) ==> restored
      ensures Honest(original, log) && NothingFails(log, 0) && cfg.ordersOK && cfg.taxonomyOK && cfg.writerOK && original < MAX_QUANTITY
        ==> failure.None?
    {
      var initial := ReadInventory();
      assert [] + [log[0]] == log;
      Extended([], log[0], if initial.Some? then initial.value else 0);
      if initial.None? {
        original := 0;
        return original, Some(ReadingFailed);
      }
      original := initial.value;
      checks := checks + [InventoryRead];
      if !cfg.ordersOK {
        return original, Some(OrdersFailed);
      }
      checks := checks + [OrdersRead];
      if !cfg.taxonomyOK {
        return original, Some(TaxonomyFailed);
      }
      checks := checks + [TaxonomyRead];
      if !cfg.writeInventory {
        attempted, readAfterWrite, restored := false, false, true;
        return original, None;
      }
      if original >= MAX_QUANTITY {
        return original, Some(QuantityOverflow);
      }
      if !cfg.writerOK {
        return original, Some(WriterMissing);
      }
      failure := ExerciseWrite(original);
    }
  }

  /** Restoration safety: reported as restored, an honest remote holds the original quantity; otherwise at most one unit more. */
  method RunAgainstHonestRemote(smoke: Smoke, cfg: Config) returns (original: int, failure: Option<Failure>)
    requires smoke.log == [] && smoke.checks == [] && !smoke.attempted && !smoke.readAfterWrite && !smoke.restored
    modifies smoke
    ensures Honest(original, smoke.log) ==>
      && (smoke.restored ==> Quantity(original, smoke.log) == original)
      && (failure.None? ==> Quantity(original, smoke.log) == original)
      && original <= Quantity(original, smoke.log) <= original + 1
  {
    original, failure := smoke.RunMarketplace(cfg);
    OnlyTwoQuantities(original, smoke.log);
    if Honest(original, smoke.log) && smoke.restored {
      SettledIsCurrent(original, smoke.log);
    }
  }
}
