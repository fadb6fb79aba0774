/**
 Upserting one CRM entity: find it by origin (or by id), compare, write at most
 once, and read back. The portal answers every read with its current state or
 not at all; a write reports success, a definite error or an ambiguous one, and
 whenever it does not report success it may or may not have landed.
 */
module BitrixUpsert {
  import opened Text
  import opened Digits
  import opened Ordering
  import opened Distinctness
  import opened BitrixCalls

  // ---------- Data ----------

  datatype Kind = Lead | Deal | Contact | Company

  const ORIGINATOR := "TORGNEXA"

  /** A request that has passed its own validation. */
  datatype Request = Request(
    remoteID: string, kind: Kind, externalID: string, title: string,
    firstName: string, middleName: string, lastName: string,
    stage: string, pipeline: string, company: string, contacts: seq<string>,
    opportunity: string, currency: string)
  {
    predicate Valid() { externalID != "" }
  }

  /** An item as the portal stores it; `readable` is false when its projection would be refused. */
  datatype Item = Item(
    kind: Kind, originator: string, origin: string, title: string,
    name: string, secondName: string, lastName: string,
    stage: string, category: string, company: string,
    contact: string, contacts: seq<string>,
    opportunity: string, currency: string, readable: bool)

  datatype Entity = Entity(
    id: nat, kind: Kind, externalID: string, title: string,
    firstName: string, middleName: string, lastName: string,
    stage: string, pipeline: string, company: string, contacts: seq<string>,
    opportunity: string, currency: string)

  type Store = map<nat, Item>

  datatype Receipt = Receipt(id: nat, applied: bool, duplicate: bool, reconciled: bool)

  datatype Failure = InvalidWrite | CallFailed(error: CallError) | UnusableResponse | OutcomeUnknown
  datatype Outcome = Done(receipt: Receipt) | Failed(failure: Failure) | Crashed

  datatype Result<+T> = Ok(value: T) | Err(failure: Failure)

  // ---------- Projection of a stored item ----------

  /** Contact ids in order of first appearance, empty ones dropped. */
  function Distinct(ids: seq<string>): (r: seq<string>)
    ensures forall x :: x in r <==> x in ids && x != ""
    ensures NoRepeats(r)
  {
    if ids == [] then []
    else
      var front := Distinct(ids[..|ids| - 1]);
      var last := ids[|ids| - 1];
      assert ids == ids[..|ids| - 1] + [last];
      if last == "" || last in front then front else front + [last]
  }

  /** In order of first appearance: more ids only add at the end. */
  lemma {:induction false} DistinctInOrder(ids: seq<string>, i: nat)
    requires i <= |ids|
    ensures Distinct(ids[..i]) <= Distinct(ids)
    decreases |ids|
  {
    if i < |ids| {
      DistinctInOrder(ids[..|ids| - 1], i);
      assert ids[..|ids| - 1][..i] == ids[..i];
    } else {
      assert ids[..i] == ids;
    }
  }

  /** The projection's loop over contact ids and the single contact after them. */
  method CollectContacts(ids: seq<string>, single: string) returns (contacts: seq<string>)
    ensures contacts == Distinct(ids + [single])
  {
    contacts := [];
    var seen: set<string> := {};
    for i := 0 to |ids|
      invariant contacts == Distinct(ids[..i])
      invariant seen == set x | x in contacts
    {
      var s := ids[i];
      assert ids[..i + 1][..i] == ids[..i];
      if s != "" {
        if s !in seen {
          contacts := contacts + [s];
          seen := seen + {s};
        }
      }
    }
    assert ids[..|ids|] == ids && (ids + [single])[..|ids|] == ids;
    if single != "" && single !in seen {
      contacts := contacts + [single];
    }
  }

  function Project(id: nat, v: Item): Result<Entity> {
    if !v.readable then Err(UnusableResponse)
    else
      Ok(Entity(id, v.kind, if v.originator == ORIGINATOR then v.origin else "", v.title,
                v.name, v.secondName, v.lastName, v.stage, v.category, v.company,
                Distinct(v.contacts + [v.contact]), v.opportunity, v.currency))
  }

  function EqualStrings(a: seq<string>, b: seq<string>): bool {
    |a| == |b| && Sort(LexLe, a) == Sort(LexLe, b)
  }

  lemma EqualStringsIsMultisetEquality(a: seq<string>, b: seq<string>)
    ensures EqualStrings(a, b) <==> multiset(a) == multiset(b)
  {
    LexOrder(a);
    SortDecidesMultiset(LexLe, a, b);
    assert |multiset(a)| == |a| && |multiset(b)| == |b|;
  }

  predicate EntityMatches(req: Request, item: Entity) {
    req.kind == item.kind && req.externalID == item.externalID &&
    match req.kind
    case Contact =>
      && req.firstName == item.firstName && req.middleName == item.middleName
      && req.lastName == item.lastName && req.company == item.company
    case Company => req.title == item.title
    case Lead =>
      && req.title == item.title && req.stage == item.stage && req.company == item.company
      && EqualStrings(req.contacts, item.contacts)
      && req.opportunity == item.opportunity && req.currency == item.currency
    case Deal =>
      && req.title == item.title && req.stage == item.stage && req.pipeline == item.pipeline
      && req.company == item.company && EqualStrings(req.contacts, item.contacts)
      && req.opportunity == item.opportunity && req.currency == item.currency
  }

  // ---------- What a match means for the stored item ----------

  /** Without repetitions, exactly the item's contacts. */
  ghost predicate ContactsAre(sent: seq<string>, v: Item) {
    NoRepeats(sent) && forall x :: x in sent <==> x != "" && (x in v.contacts || x == v.contact)
  }

  /** The fields that count for the kind, as the portal stores them. */
  ghost predicate SameFields(req: Request, v: Item) {
    match req.kind
    case Contact =>
      req.firstName == v.name && req.middleName == v.secondName && req.lastName == v.lastName && req.company == v.company
    case Company => req.title == v.title
    case _ =>
      && req.title == v.title && req.stage == v.stage && req.company == v.company
      && req.opportunity == v.opportunity && req.currency == v.currency && ContactsAre(req.contacts, v)
      && (req.kind.Deal? ==> req.pipeline == v.category)
  }

  /** The item is readable, of the requested origin, and holds the requested fields. */
  ghost predicate ShowsRequest(req: Request, v: Item) {
    && v.readable && v.kind == req.kind && (if v.originator == ORIGINATOR then v.origin else "") == req.externalID
    && SameFields(req, v)
  }

  lemma ContactsMatchIff(sent: seq<string>, v: Item)
    ensures EqualStrings(sent, Distinct(v.contacts + [v.contact])) <==> ContactsAre(sent, v)
  {
    var back := Distinct(v.contacts + [v.contact]);
    EqualStringsIsMultisetEquality(sent, back);
    PermutationByElements(back, sent);
    assert forall x :: x in back <==> x in Elements(back);
    assert forall x :: x in sent <==> x in Elements(sent);
    if forall x :: x in sent <==> x in back {
      assert Elements(sent) == Elements(back);
    }
  }

  /** The comparison of a request with a projected item is the comparison, field by field, with the item. */
  lemma MatchIff(req: Request, id: nat, v: Item)
    ensures Project(id, v).Ok? && EntityMatches(req, Project(id, v).value) <==> ShowsRequest(req, v)
  {
    ContactsMatchIff(req.contacts, v);
  }

  // ---------- What is sent ----------

  function NumericID(s: string): Option<int> {
    var n := ParseInt64(s);
    if n.Some? && n.value >= 1 then n else None
  }

  /** The decimal text of a number that was written as `s`. */
  function NumberText(s: string): string { TrimLeft(IsZero, Unsigned(s)) }

  /** The fields of a write; an absent one leaves the portal's value alone. */
  datatype Fields = Fields(
    originator: string, origin: string, title: Option<string>,
    name: Option<string>, secondName: Option<string>, lastName: Option<string>,
    stage: Option<string>, category: Option<string>, company: Option<string>,
    contacts: Option<seq<string>>, opportunity: Option<string>, currency: Option<string>)

  function Given(value: string): Option<string> {
    if value == "" then None else Some(value)
  }

  function GivenNumber(value: string): Option<string> {
    if value == "" then None else Some(NumberText(value))
  }

  function Plain(contacts: seq<string>): seq<string> {
    seq(|contacts|, i requires 0 <= i < |contacts| => NumberText(contacts[i]))
  }

  predicate NumericOrAbsent(s: string) { s == "" || NumericID(s).Some? }

  function FieldsForWrite(req: Request): Option<Fields> {
    var base := Fields(ORIGINATOR, req.externalID, None, None, None, None, None, None, None, None, None, None);
    match req.kind
    case Contact =>
      if !NumericOrAbsent(req.company) then None
      else
        Some(base.(name := Some(req.firstName), secondName := Some(req.middleName), lastName := Some(req.lastName),
                   company := GivenNumber(req.company)))
    case Company => Some(base.(title := Some(req.title)))
    case _ =>
      if !NumericOrAbsent(req.company) || !(forall c :: c in req.contacts ==> NumericID(c).Some?)
         || (req.kind.Deal? && !NumericOrAbsent(req.pipeline)) then None
      else
        Some(base.(title := Some(req.title), stage := Given(req.stage), company := GivenNumber(req.company),
                   contacts := if req.contacts == [] then None else Some(Plain(req.contacts)),
                   opportunity := Given(req.opportunity), currency := Given(req.currency),
                   category := if req.kind.Deal? then GivenNumber(req.pipeline) else None))
  }

  /** A positive decimal that fits 64 bits, possibly with a plus sign. */
  predicate IsID(s: string) {
    && Unsigned(s) != "" && AllDigits(Unsigned(s)) && s[0] != '-'
    && 1 <= NatVal(Unsigned(s)) <= INT64_MAX
  }

  lemma NumericIDIff(s: string)
    ensures NumericID(s).Some? <==> IsID(s)
    ensures IsID(s) ==> NumericID(s).value == NatVal(Unsigned(s))
  {
  }

  /** A request is refused before anything is sent exactly if a remote id it would write is not a positive number. */
  lemma WritableIff(req: Request)
    ensures FieldsForWrite(req).Some? <==>
              match req.kind
              case Contact => req.company == "" || IsID(req.company)
              case Company => true
              case _ =>
                && (req.company == "" || IsID(req.company)) && (forall c :: c in req.contacts ==> IsID(c))
                && (req.kind.Deal? ==> req.pipeline == "" || IsID(req.pipeline))
  {
    NumericIDIff(req.company);
    NumericIDIff(req.pipeline);
    forall c | c in req.contacts ensures NumericID(c).Some? <==> IsID(c) { NumericIDIff(c); }
  }

  // ---------- The portal's part in one upsert ----------

  datatype ReadFate = Answers | Fails(error: CallError)

  /**
   How the portal treats the one write of an upsert: whether it takes effect,
   which item it then stores (under which id, if new), the reply, and whether
   the id in the reply to an addition can be decoded.
   */
  datatype WriteFate = WriteFate(landed: bool, newID: nat, stored: Item, reply: Reply, idReadable: bool)

  datatype Env = Env(read: ReadFate, write: WriteFate, readBack: ReadFate)

  function Land(s: Store, target: Option<nat>, w: WriteFate): Store {
    if !w.landed then s
    else if target.Some? then s[target.value := w.stored]
    else s[w.newID := w.stored]
  }

  /** Success is only reported for writes that landed; a landed write carries the sent origin. */
  ghost predicate HonestWrite(s: Store, req: Request, target: Option<nat>, w: WriteFate) {
    && (Call(w.reply).None? ==> w.landed)
    && (w.landed && FieldsForWrite(req).Some? ==>
          && w.stored.kind == req.kind
          && w.stored.originator == FieldsForWrite(req).value.originator
          && w.stored.origin == FieldsForWrite(req).value.origin
          && (target.None? ==> w.newID >= 1 && w.newID !in s))
  }

  predicate Holds(v: Item, kind: Kind, externalID: string) {
    v.kind == kind && v.originator == ORIGINATOR && v.origin == externalID
  }

  function Holders(s: Store, kind: Kind, externalID: string): set<nat> {
    set id | id in s && Holds(s[id], kind, externalID)
  }

  // ---------- Reads ----------

  function FindByOrigin(s: Store, kind: Kind, externalID: string, fate: ReadFate): Result<Option<Entity>> {
    match fate
    case Fails(e) => Err(CallFailed(e))
    case Answers =>
      var ids := Holders(s, kind, externalID);
      if |ids| > 1 then Err(UnusableResponse)
      else if ids == {} then Ok(None)
      else
        var id := TheOne(ids);
        match Project(id, s[id])
        case Err(f) => Err(f)
        case Ok(e) => Ok(Some(e))
  }

  function TheOne(ids: set<nat>): (id: nat)
    requires |ids| == 1
    ensures ids == {id}
  {
    SingletonHasOne(ids);
    var id :| id in ids && forall x :: x in ids ==> x == id;
    id
  }

  lemma SingletonHasOne(ids: set<nat>)
    requires |ids| == 1
    ensures exists id :: ids == {id}
    ensures forall x, y :: x in ids && y in ids ==> x == y
  {
    var id :| id in ids;
    assert |ids - {id}| == 0;
    assert ids == {id};
  }

  function GetEntity(s: Store, kind: Kind, id: int, fate: ReadFate): Result<Entity> {
    match fate
    case Fails(e) => Err(CallFailed(e))
    case Answers =>
      if id < 0 || id !in s || s[id].kind != kind then Err(CallFailed(Remote(NotFound)))
      else Project(id, s[id])
  }

  // ---------- The upsert, as a function of the portal's choices ----------

  datatype Plan = Stop(outcome: Outcome) | Write(target: Option<nat>)

  function LookUp(req: Request, s: Store, read: ReadFate): Result<Option<Entity>> {
    if req.remoteID == "" then FindByOrigin(s, req.kind, req.externalID, read)
    else if NumericID(req.remoteID).None? then Err(InvalidWrite)
    else
      match GetEntity(s, req.kind, NumericID(req.remoteID).value, read)
      case Ok(e) => Ok(Some(e))
      case Err(f) => Err(f)
  }

  function Prepare(req: Request, s: Store, read: ReadFate): Plan {
    if FieldsForWrite(req).None? then Stop(Failed(InvalidWrite))
    else
      match LookUp(req, s, read)
      case Err(f) => Stop(Failed(f))
      case Ok(None) => Write(None)
      case Ok(Some(e)) =>
        if EntityMatches(req, e) then Stop(Done(Receipt(e.id, false, true, true))) else Write(Some(e.id))
  }

  function ReadBack(req: Request, s: Store, target: Option<nat>, fate: ReadFate): Result<Option<Entity>> {
    if target.Some? then
      match GetEntity(s, req.kind, target.value, fate)
      case Ok(e) => Ok(Some(e))
      case Err(f) => Err(f)
    else FindByOrigin(s, req.kind, req.externalID, fate)
  }

  function Conclude(req: Request, s: Store, target: Option<nat>, w: WriteFate, readBack: ReadFate): Outcome {
    if Call(w.reply).Some? then
      match ClassifyWrite(Call(w.reply).value)
      case Crash => Crashed
      case Definite => Failed(CallFailed(Call(w.reply).value))
      case Ambiguous =>
        var after := ReadBack(req, s, target, readBack);
        if after.Ok? && after.value.Some? && EntityMatches(req, after.value.value) then
          Done(Receipt(after.value.value.id, true, false, true))
        else Failed(OutcomeUnknown)
    else if target.None? && !w.idReadable then Failed(UnusableResponse)
    else
      var after := GetEntity(s, req.kind, if target.Some? then target.value else w.newID, readBack);
      if after.Ok? && EntityMatches(req, after.value) then Done(Receipt(after.value.id, true, false, false))
      else Failed(UnusableResponse)
  }

  datatype Step = Step(store: Store, outcome: Outcome, mutations: nat)

  function Upsert(req: Request, s: Store, env: Env): Step {
    match Prepare(req, s, env.read)
    case Stop(o) => Step(s, o, 0)
    case Write(target) =>
      var s' := Land(s, target, env.write);
      Step(s', Conclude(req, s', target, env.write, env.readBack), 1)
  }

  ghost predicate Honest(req: Request, s: Store, env: Env) {
    var plan := Prepare(req, s, env.read);
    plan.Write? ==> HonestWrite(s, req, plan.target, env.write)
  }

  // ---------- At most one entity per origin ----------

  ghost predicate AtMostOne(s: Store, kind: Kind, externalID: string) { |Holders(s, kind, externalID)| <= 1 }

  lemma AtMostOneIff(s: Store, kind: Kind, externalID: string)
    ensures AtMostOne(s, kind, externalID) <==>
              forall i, j :: i in Holders(s, kind, externalID) && j in Holders(s, kind, externalID) ==> i == j
  {
    var ids := Holders(s, kind, externalID);
    if |ids| == 1 {
      SingletonHasOne(ids);
    }
    if i :| i in ids && forall j :: j in ids ==> i == j {
      assert ids == {i};
    }
  }

  /** What the plan of a request by origin says about the store it was made for. */
  lemma PlanByOrigin(req: Request, s: Store, read: ReadFate)
    requires req.remoteID == "" && Prepare(req, s, read).Write?
    ensures var target := Prepare(req, s, read).target;
            Holders(s, req.kind, req.externalID) == if target.Some? then {target.value} else {}
  {
  }

  /** Because both keys are part of every write, a landed write belongs to the requested origin. */
  lemma LandedHoldsOrigin(req: Request, s: Store, target: Option<nat>, w: WriteFate)
    requires FieldsForWrite(req).Some? && HonestWrite(s, req, target, w) && w.landed
    ensures Holds(w.stored, req.kind, req.externalID)
  {
  }

  /** Who holds an origin after a landed write: the written item if it is of that origin, and the old holders but for it. */
  lemma HoldersAfter(s: Store, target: Option<nat>, w: WriteFate, kind: Kind, externalID: string)
    requires w.landed
    ensures var id := if target.Some? then target.value else w.newID;
            Holders(Land(s, target, w), kind, externalID) ==
              Holders(s, kind, externalID) - {id} + if Holds(w.stored, kind, externalID) then {id} else {}
  {
  }

  /** After a landed write of an origin at most one entity holds it exactly if nobody but the target held it. */
  lemma LandKeepsOnePerOriginIff(s: Store, target: Option<nat>, w: WriteFate, kind: Kind, externalID: string)
    requires w.landed && Holds(w.stored, kind, externalID)
    requires target.None? ==> w.newID !in s
    ensures AtMostOne(Land(s, target, w), kind, externalID)
       <==> Holders(s, kind, externalID) <= if target.Some? then {target.value} else {}
  {
    var id := if target.Some? then target.value else w.newID;
    HoldersAfter(s, target, w, kind, externalID);
    AtMostOneIff(Land(s, target, w), kind, externalID);
    if j :| j in Holders(s, kind, externalID) && j != id {
      assert j in Holders(Land(s, target, w), kind, externalID) && id in Holders(Land(s, target, w), kind, externalID);
    }
  }

  /** A landed write adds no holder to any other origin. */
  lemma OtherOriginsKept(s: Store, target: Option<nat>, w: WriteFate, kind: Kind, externalID: string)
    requires w.landed && !Holds(w.stored, kind, externalID) && AtMostOne(s, kind, externalID)
    ensures AtMostOne(Land(s, target, w), kind, externalID)
  {
    HoldersAfter(s, target, w, kind, externalID);
    SubsetOfEqualSize(Holders(Land(s, target, w), kind, externalID), Holders(s, kind, externalID));
  }

  /** The request looks its own origin up, or is about another one. */
  predicate KeepsOrigin(req: Request, kind: Kind, externalID: string) {
    req.remoteID == "" || req.kind != kind || req.externalID != externalID
  }

  /**
   An origin with at most one entity keeps at most one, however the portal
   behaves and whatever the state of other origins: through requests by origin,
   and through requests by id for any other origin.
   */
  lemma UpsertKeepsOnePerOrigin(req: Request, s: Store, env: Env, kind: Kind, externalID: string)
    requires KeepsOrigin(req, kind, externalID) && AtMostOne(s, kind, externalID) && Honest(req, s, env)
    ensures AtMostOne(Upsert(req, s, env).store, kind, externalID)
  {
    var plan := Prepare(req, s, env.read);
    if plan.Write? && env.write.landed {
      LandedHoldsOrigin(req, s, plan.target, env.write);
      if req.kind == kind && req.externalID == externalID {
        PlanByOrigin(req, s, env.read);
        LandKeepsOnePerOriginIff(s, plan.target, env.write, kind, externalID);
      } else {
        OtherOriginsKept(s, plan.target, env.write, kind, externalID);
      }
    }
  }

  datatype Attempt = Attempt(req: Request, env: Env)

  function StoreAfter(s: Store, run: seq<Attempt>): Store
    decreases |run|
  {
    if run == [] then s else StoreAfter(Upsert(run[0].req, s, run[0].env).store, run[1..])
  }

  function MutationsOf(s: Store, run: seq<Attempt>): nat
    decreases |run|
  {
    if run == [] then 0
    else
      var step := Upsert(run[0].req, s, run[0].env);
      step.mutations + MutationsOf(step.store, run[1..])
  }

  ghost predicate HonestRun(s: Store, run: seq<Attempt>)
    decreases |run|
  {
    run != [] ==> Honest(run[0].req, s, run[0].env) && HonestRun(Upsert(run[0].req, s, run[0].env).store, run[1..])
  }

  /** Over every run, also through ambiguous failures, crashes and unreadable replies, and mixed with requests for other origins. */
  lemma {:induction false} RunKeepsOnePerOrigin(s: Store, run: seq<Attempt>, kind: Kind, externalID: string)
    requires AtMostOne(s, kind, externalID) && HonestRun(s, run)
    requires forall i :: 0 <= i < |run| ==> KeepsOrigin(run[i].req, kind, externalID)
    ensures AtMostOne(StoreAfter(s, run), kind, externalID)
    decreases |run|
  {
    if run != [] {
      UpsertKeepsOnePerOrigin(run[0].req, s, run[0].env, kind, externalID);
      RunKeepsOnePerOrigin(Upsert(run[0].req, s, run[0].env).store, run[1..], kind, externalID);
    }
  }

  lemma {:induction false} AtMostOneMutationEach(s: Store, run: seq<Attempt>)
    ensures MutationsOf(s, run) <= |run|
    decreases |run|
  {
    if run != [] {
      AtMostOneMutationEach(Upsert(run[0].req, s, run[0].env).store, run[1..]);
    }
  }

  ghost predicate OnePerOrigin(s: Store) { forall kind, externalID :: AtMostOne(s, kind, externalID) }

  /** In particular runs of requests by origin keep one entity for every origin at once. */
  lemma {:induction false} RunKeepsEveryOrigin(s: Store, run: seq<Attempt>)
    requires OnePerOrigin(s) && HonestRun(s, run)
    requires forall i :: 0 <= i < |run| ==> run[i].req.remoteID == ""
    ensures OnePerOrigin(StoreAfter(s, run))
  {
    forall kind, externalID ensures AtMostOne(StoreAfter(s, run), kind, externalID) {
      RunKeepsOnePerOrigin(s, run, kind, externalID);
    }
  }

  /**
   A request that names the entity by id may give a second entity the same
   origin: afterwards at most one holds it exactly if the write does not land or
   nobody else held it.
   */
  lemma UpsertByIdKeepsOnePerOriginIff(req: Request, s: Store, env: Env)
    requires req.remoteID != "" && AtMostOne(s, req.kind, req.externalID) && Honest(req, s, env)
    requires Prepare(req, s, env.read).Write?
    ensures Prepare(req, s, env.read).target == Some(NumericID(req.remoteID).value)
    ensures AtMostOne(Upsert(req, s, env).store, req.kind, req.externalID)
       <==> !env.write.landed || Holders(s, req.kind, req.externalID) <= {NumericID(req.remoteID).value}
  {
    var plan := Prepare(req, s, env.read);
    if env.write.landed {
      LandedHoldsOrigin(req, s, plan.target, env.write);
      LandKeepsOnePerOriginIff(s, plan.target, env.write, req.kind, req.externalID);
    }
  }

  /** Once an origin is held twice, requests by origin fail without writing. */
  lemma TwoHoldersBlock(req: Request, s: Store, env: Env, i: nat, j: nat)
    requires req.remoteID == "" && i != j && {i, j} <= Holders(s, req.kind, req.externalID)
    ensures Upsert(req, s, env).outcome.Failed? && Upsert(req, s, env).store == s && Upsert(req, s, env).mutations == 0
  {
    AtMostOneIff(s, req.kind, req.externalID);
    assert i in Holders(s, req.kind, req.externalID) && j in Holders(s, req.kind, req.externalID);
  }

  // ---------- Receipts are truthful ----------

  ghost predicate Matches(s: Store, id: nat, req: Request) { id in s && ShowsRequest(req, s[id]) }

  lemma GetShowsIff(req: Request, s: Store, id: nat, fate: ReadFate)
    ensures var got := GetEntity(s, req.kind, id, fate);
            && (got.Ok? && EntityMatches(req, got.value) <==> fate.Answers? && Matches(s, id, req))
            && (got.Ok? ==> got.value.id == id)
  {
    if id in s {
      MatchIff(req, id, s[id]);
    }
  }

  lemma FoundShowsIff(req: Request, s: Store, fate: ReadFate, id: nat)
    ensures var found := FindByOrigin(s, req.kind, req.externalID, fate);
            (found.Ok? && found.value.Some? && found.value.value.id == id && EntityMatches(req, found.value.value)
             <==> fate.Answers? && Holders(s, req.kind, req.externalID) == {id} && Matches(s, id, req))
  {
    var ids := Holders(s, req.kind, req.externalID);
    if fate.Answers? && |ids| == 1 {
      MatchIff(req, TheOne(ids), s[TheOne(ids)]);
    }
  }

  /** Where the read-back confirms the request: at the target, at the id of a reported addition, or at the only holder of the origin. */
  ghost predicate Confirmed(req: Request, s: Store, target: Option<nat>, w: WriteFate, readBack: ReadFate, id: nat) {
    && readBack.Answers? && Matches(s, id, req)
    && if target.Some? then id == target.value
       else if Succeeds(w.reply) then w.idReadable && id == w.newID
       else Holders(s, req.kind, req.externalID) == {id}
  }

  /** A write gets a receipt exactly if it is reported as done, or failed ambiguously, and the read-back confirms it. */
  lemma ConcludedIff(req: Request, s: Store, target: Option<nat>, w: WriteFate, readBack: ReadFate, id: nat)
    ensures Conclude(req, s, target, w, readBack) == Done(Receipt(id, true, false, !Succeeds(w.reply)))
       <==> (Succeeds(w.reply) || AmbiguousReply(w.reply)) && Confirmed(req, s, target, w, readBack, id)
  {
    SuccessIff(w.reply);
    CrashIff(w.reply);
    AmbiguousIff(w.reply);
    GetShowsIff(req, s, if target.Some? then target.value else w.newID, readBack);
    FoundShowsIff(req, s, readBack, id);
  }

  /** And otherwise fails for a reason told from the reply. */
  lemma NotConcluded(req: Request, s: Store, target: Option<nat>, w: WriteFate, readBack: ReadFate)
    ensures var o := Conclude(req, s, target, w, readBack);
            && (o.Done? ==> o.receipt == Receipt(o.receipt.id, true, false, !Succeeds(w.reply)))
            && (o == Crashed <==> Crashing(w.reply))
            && (o.Failed? ==> o.failure == if Succeeds(w.reply) then UnusableResponse
                                           else if AmbiguousReply(w.reply) then OutcomeUnknown
                                           else CallFailed(Call(w.reply).value))
  {
    SuccessIff(w.reply);
    CrashIff(w.reply);
    AmbiguousIff(w.reply);
  }

  lemma ReceiptIsTruthful(req: Request, s: Store, env: Env)
    requires Honest(req, s, env) && Upsert(req, s, env).outcome.Done?
    ensures var step, r := Upsert(req, s, env), Upsert(req, s, env).outcome.receipt;
            && Matches(step.store, r.id, req)
            && r.applied != r.duplicate
            && (r.duplicate ==> step.store == s && step.mutations == 0)
            && (r.applied ==> step.mutations == 1 && env.write.landed && !Matches(s, r.id, req))
            && (r.applied && r.reconciled <==> r.applied && Call(env.write.reply).Some?)
  {
    var plan := Prepare(req, s, env.read);
    if plan.Stop? {
      StopIsDuplicate(req, s, env.read);
    } else {
      NotConcluded(req, Land(s, plan.target, env.write), plan.target, env.write, env.readBack);
      ConcludedIff(req, Land(s, plan.target, env.write), plan.target, env.write, env.readBack, Upsert(req, s, env).outcome.receipt.id);
      SuccessIff(env.write.reply);
      ChangeLanded(req, s, env, Upsert(req, s, env).outcome.receipt.id);
    }
  }

  /** The answer without a write: the item found already shows the request. */
  lemma StopIsDuplicate(req: Request, s: Store, read: ReadFate)
    requires Prepare(req, s, read).Stop? && Prepare(req, s, read).outcome.Done?
    ensures var r := Prepare(req, s, read).outcome.receipt;
            r == Receipt(r.id, false, true, true) && Matches(s, r.id, req)
  {
    var id := Prepare(req, s, read).outcome.receipt.id;
    if req.remoteID == "" {
      FoundShowsIff(req, s, read, id);
    } else {
      GetShowsIff(req, s, id, read);
    }
  }

  /** The target of a request that goes on to a write does not show it yet. */
  lemma TargetDiffers(req: Request, s: Store, read: ReadFate, id: nat)
    requires Prepare(req, s, read) == Write(Some(id))
    ensures !Matches(s, id, req)
  {
    if req.remoteID == "" {
      PlanByOrigin(req, s, read);
      FoundShowsIff(req, s, read, id);
    } else {
      GetShowsIff(req, s, id, read);
    }
  }

  /** A confirmed write landed, and changed what it was sent for. */
  lemma ChangeLanded(req: Request, s: Store, env: Env, id: nat)
    requires Prepare(req, s, env.read).Write? && Honest(req, s, env)
    requires var target := Prepare(req, s, env.read).target;
             Confirmed(req, Land(s, target, env.write), target, env.write, env.readBack, id)
    ensures env.write.landed && !Matches(s, id, req)
  {
    var target := Prepare(req, s, env.read).target;
    SuccessIff(env.write.reply);
    if target.Some? {
      TargetDiffers(req, s, env.read, id);
    } else {
      AdditionIsNew(req, s, env, id);
    }
  }

  lemma AdditionIsNew(req: Request, s: Store, env: Env, id: nat)
    requires Prepare(req, s, env.read) == Write(None) && Honest(req, s, env)
    requires Confirmed(req, Land(s, None, env.write), None, env.write, env.readBack, id)
    ensures env.write.landed && id == env.write.newID && id !in s
  {
    SuccessIff(env.write.reply);
    if req.remoteID == "" {
      PlanByOrigin(req, s, env.read);
    }
    if env.write.landed {
      HoldersAfter(s, None, env.write, req.kind, req.externalID);
      LandedHoldsOrigin(req, s, None, env.write);
    }
  }

  lemma MatchHolds(req: Request, s: Store, id: nat)
    ensures req.Valid() && Matches(s, id, req) ==> id in Holders(s, req.kind, req.externalID)
  {
  }

  lemma ReadMeansAtMostOne(req: Request, s: Store, read: ReadFate)
    requires req.remoteID == "" && (Prepare(req, s, read).Stop? ==> Prepare(req, s, read).outcome.Done?)
    ensures AtMostOne(s, req.kind, req.externalID)
  {
  }

  lemma PlanById(req: Request, s: Store, read: ReadFate)
    requires req.remoteID != "" && (Prepare(req, s, read).Stop? ==> Prepare(req, s, read).outcome.Done?)
    ensures FieldsForWrite(req).Some? && NumericID(req.remoteID).Some?
    ensures match Prepare(req, s, read)
            case Write(target) => target == Some(NumericID(req.remoteID).value)
            case Stop(o) => o.receipt.id == NumericID(req.remoteID).value
  {
  }

  lemma TargetConfirmed(req: Request, s: Store, id: nat, w: WriteFate, readBack: ReadFate)
    requires Conclude(req, s, Some(id), w, readBack).Done?
    ensures Conclude(req, s, Some(id), w, readBack).receipt.id == id
  {
  }

  lemma ReceiptById(req: Request, s: Store, env: Env)
    requires req.remoteID != "" && Upsert(req, s, env).outcome.Done?
    ensures FieldsForWrite(req).Some? && NumericID(req.remoteID) == Some(Upsert(req, s, env).outcome.receipt.id)
  {
    var plan := Prepare(req, s, env.read);
    PlanById(req, s, env.read);
    if plan.Write? {
      TargetConfirmed(req, Land(s, plan.target, env.write), plan.target.value, env.write, env.readBack);
    }
  }

  lemma OnlyHolder(s: Store, kind: Kind, externalID: string, id: nat)
    requires AtMostOne(s, kind, externalID) && id in Holders(s, kind, externalID)
    ensures Holders(s, kind, externalID) == {id}
  {
    AtMostOneIff(s, kind, externalID);
  }

  /** An addition that landed is found afterwards, whatever its caller was told: nobody adds it again. */
  lemma LandedAdditionIsFound(req: Request, s: Store, env: Env, retry: Request, read: ReadFate)
    requires req.remoteID == "" && Honest(req, s, env)
    requires Prepare(req, s, env.read) == Write(None) && env.write.landed
    requires retry.remoteID == "" && retry.kind == req.kind && retry.externalID == req.externalID
    ensures Prepare(retry, Upsert(req, s, env).store, read) != Write(None)
  {
    var s' := Upsert(req, s, env).store;
    LandedHoldsOrigin(req, s, None, env.write);
    assert env.write.newID in Holders(s', req.kind, req.externalID);
    if Prepare(retry, s', read).Write? {
      PlanByOrigin(retry, s', read);
    }
  }

  // ---------- What an upsert does, request by request ----------

  /** What the lookup has to find for a request to be answered without a write. */
  ghost predicate AlreadyThere(req: Request, s: Store, id: nat) {
    && Matches(s, id, req)
    && if req.remoteID == "" then Holders(s, req.kind, req.externalID) == {id} else NumericID(req.remoteID) == Some(id)
  }

  lemma AnsweredByOriginIff(req: Request, s: Store, read: ReadFate, id: nat)
    requires req.remoteID == "" && FieldsForWrite(req).Some?
    ensures Prepare(req, s, read) == Stop(Done(Receipt(id, false, true, true))) <==> read.Answers? && AlreadyThere(req, s, id)
  {
    FoundShowsIff(req, s, read, id);
  }

  lemma AnsweredByIdIff(req: Request, s: Store, read: ReadFate, id: nat)
    requires req.remoteID != "" && FieldsForWrite(req).Some?
    ensures Prepare(req, s, read) == Stop(Done(Receipt(id, false, true, true))) <==> read.Answers? && AlreadyThere(req, s, id)
  {
    if NumericID(req.remoteID).Some? {
      GetShowsIff(req, s, NumericID(req.remoteID).value, read);
    }
  }

  lemma AnsweredIff(req: Request, s: Store, read: ReadFate, id: nat)
    ensures Prepare(req, s, read) == Stop(Done(Receipt(id, false, true, true)))
       <==> FieldsForWrite(req).Some? && read.Answers? && AlreadyThere(req, s, id)
  {
    if FieldsForWrite(req).Some? {
      if req.remoteID == "" {
        AnsweredByOriginIff(req, s, read, id);
      } else {
        AnsweredByIdIff(req, s, read, id);
      }
    }
  }

  /** A request is a duplicate exactly if the lookup answers and finds an item that shows it, field by field. */
  lemma DuplicateIff(req: Request, s: Store, env: Env, id: nat)
    ensures Upsert(req, s, env) == Step(s, Done(Receipt(id, false, true, true)), 0)
       <==> FieldsForWrite(req).Some? && env.read.Answers? && AlreadyThere(req, s, id)
  {
    AnsweredIff(req, s, env.read, id);
  }

  /** What the lookup has to find for a request to be written, and where to. */
  ghost predicate Changes(req: Request, s: Store, target: Option<nat>) {
    if req.remoteID == "" then
      match target
      case None => Holders(s, req.kind, req.externalID) == {}
      case Some(id) =>
        Holders(s, req.kind, req.externalID) == {id} && id in s && s[id].readable && !SameFields(req, s[id])
    else
      && target.Some? && NumericID(req.remoteID) == Some(target.value)
      && var id := target.value;
         id in s && s[id].kind == req.kind && s[id].readable && !ShowsRequest(req, s[id])
  }

  /**
   A request is sent to the portal, as an addition or an update, exactly if the
   lookup answers and finds nothing of the origin, or one readable item that
   differs from it.
   */
  lemma WritesIff(req: Request, s: Store, read: ReadFate, target: Option<nat>)
    ensures Prepare(req, s, read) == Write(target)
       <==> FieldsForWrite(req).Some? && read.Answers? && Changes(req, s, target)
  {
    if req.remoteID == "" {
      WritesByOriginIff(req, s, read, target);
    } else if NumericID(req.remoteID).Some? {
      GetShowsIff(req, s, NumericID(req.remoteID).value, read);
    }
  }

  lemma WritesByOriginIff(req: Request, s: Store, read: ReadFate, target: Option<nat>)
    requires req.remoteID == ""
    ensures Prepare(req, s, read) == Write(target)
       <==> FieldsForWrite(req).Some? && read.Answers? && Changes(req, s, target)
  {
    var ids := Holders(s, req.kind, req.externalID);
    if read.Answers? && |ids| == 1 {
      var id := TheOne(ids);
      FoundShowsIff(req, s, read, id);
      assert Holds(s[id], req.kind, req.externalID);
    }
  }

  /** A request that ends before a write, and is no duplicate, fails for a reason told from what the lookup met. */
  lemma StopsFor(req: Request, s: Store, read: ReadFate)
    requires Prepare(req, s, read).Stop? && !Prepare(req, s, read).outcome.Done?
    ensures var named := req.remoteID != "" && IsID(req.remoteID);
            var id := if named then NatVal(Unsigned(req.remoteID)) else 0;
            Prepare(req, s, read).outcome
            == Failed(if FieldsForWrite(req).None? || (req.remoteID != "" && !IsID(req.remoteID)) then InvalidWrite
                      else if read.Fails? then CallFailed(read.error)
                      else if named && (id !in s || s[id].kind != req.kind) then CallFailed(Remote(NotFound))
                      else UnusableResponse)
  {
    NumericIDIff(req.remoteID);
  }

  lemma WrittenOnce(req: Request, s: Store, env: Env, target: Option<nat>)
    requires Prepare(req, s, env.read) == Write(target)
    ensures Upsert(req, s, env)
         == Step(Land(s, target, env.write), Conclude(req, Land(s, target, env.write), target, env.write, env.readBack), 1)
  {
  }

  /**
   And then it gets a receipt exactly if the write is reported as done, or failed
   ambiguously, and the read-back confirms the request.
   */
  lemma AppliedIff(req: Request, s: Store, env: Env, target: Option<nat>, id: nat)
    requires Prepare(req, s, env.read) == Write(target)
    ensures var reply, s' := env.write.reply, Land(s, target, env.write);
            Upsert(req, s, env) == Step(s', Done(Receipt(id, true, false, !Succeeds(reply))), 1)
            <==> (Succeeds(reply) || AmbiguousReply(reply)) && Confirmed(req, s', target, env.write, env.readBack, id)
  {
    WrittenOnce(req, s, env, target);
    ConcludedIff(req, Land(s, target, env.write), target, env.write, env.readBack, id);
  }

  /** Without a receipt it crashes, or fails for a reason told from the reply. */
  lemma FailsFor(req: Request, s: Store, env: Env, target: Option<nat>)
    requires Prepare(req, s, env.read) == Write(target) && !Upsert(req, s, env).outcome.Done?
    ensures var reply := env.write.reply;
            Upsert(req, s, env) == Step(Land(s, target, env.write),
                                        if Crashing(reply) then Crashed
                                        else if Succeeds(reply) then Failed(UnusableResponse)
                                        else if AmbiguousReply(reply) then Failed(OutcomeUnknown)
                                        else Failed(CallFailed(Call(reply).value)), 1)
  {
    WrittenOnce(req, s, env, target);
    NotConcluded(req, Land(s, target, env.write), target, env.write, env.readBack);
  }

  /** After a receipt, the same request again is answered as a duplicate, without a write. */
  lemma RetryIsDuplicate(req: Request, s: Store, env: Env, again: Env)
    requires req.Valid() && Honest(req, s, env)
    requires Upsert(req, s, env).outcome.Done? && again.read.Answers?
    ensures var step := Upsert(req, s, env);
            Upsert(req, step.store, again) == Step(step.store, Done(Receipt(step.outcome.receipt.id, false, true, true)), 0)
  {
    var s', id := Upsert(req, s, env).store, Upsert(req, s, env).outcome.receipt.id;
    ReceiptIsTruthful(req, s, env);
    DoneFindsIt(req, s, env);
    DuplicateIff(req, s', again, id);
  }

  lemma DoneFindsIt(req: Request, s: Store, env: Env)
    requires req.Valid() && Honest(req, s, env) && Upsert(req, s, env).outcome.Done?
    requires Matches(Upsert(req, s, env).store, Upsert(req, s, env).outcome.receipt.id, req)
    ensures FieldsForWrite(req).Some? && AlreadyThere(req, Upsert(req, s, env).store, Upsert(req, s, env).outcome.receipt.id)
  {
    var s', id := Upsert(req, s, env).store, Upsert(req, s, env).outcome.receipt.id;
    if req.remoteID == "" {
      MatchHolds(req, s', id);
      ReadMeansAtMostOne(req, s, env.read);
      UpsertKeepsOnePerOrigin(req, s, env, req.kind, req.externalID);
      OnlyHolder(s', req.kind, req.externalID, id);
    } else {
      ReceiptById(req, s, env);
    }
  }

  // ---------- What is written is what is compared ----------

  function Kept<T>(sent: Option<T>, stored: T): T {
    if sent.Some? then sent.value else stored
  }

  function Stored(base: Item, f: Fields): Item {
    base.(originator := f.originator, origin := f.origin, title := Kept(f.title, base.title),
          name := Kept(f.name, base.name), secondName := Kept(f.secondName, base.secondName),
          lastName := Kept(f.lastName, base.lastName), stage := Kept(f.stage, base.stage),
          category := Kept(f.category, base.category), company := Kept(f.company, base.company),
          opportunity := Kept(f.opportunity, base.opportunity), currency := Kept(f.currency, base.currency),
          contacts := Kept(f.contacts, base.contacts))
  }

  /** A field left out of the request is left out of the write, so it must be empty already. */
  predicate SettledText(sent: string, stored: string) { sent != "" || stored == "" }

  /** A number comes back in its plain spelling. */
  predicate SettledNumber(sent: string, stored: string) {
    if sent == "" then stored == "" else NumberText(sent) == sent
  }

  ghost predicate SettledContacts(sent: seq<string>, v: Item) {
    if sent == [] then Distinct(v.contacts + [v.contact]) == []
    else NoRepeats(sent) && (forall c :: c in sent ==> NumberText(c) == c) && (v.contact == "" || v.contact in sent)
  }

  ghost predicate Settled(req: Request, v: Item) {
    match req.kind
    case Contact => SettledNumber(req.company, v.company)
    case Company => true
    case _ =>
      && SettledText(req.stage, v.stage) && SettledNumber(req.company, v.company)
      && SettledText(req.opportunity, v.opportunity) && SettledText(req.currency, v.currency)
      && (req.kind.Deal? ==> SettledNumber(req.pipeline, v.category))
      && SettledContacts(req.contacts, v)
  }

  /**
   On a portal that stores exactly what it is sent, the read-back matches the
   request if and only if the request is settled over the previous item: the
   fields written and the fields compared are the same ones for every kind.
   */
  lemma WrittenIsCompared(req: Request, base: Item, id: nat)
    requires FieldsForWrite(req).Some? && base.kind == req.kind && base.readable
    requires NumberText(base.contact) == base.contact
    ensures ShowsRequest(req, Stored(base, FieldsForWrite(req).value)) <==> Settled(req, base)
  {
    var v := Stored(base, FieldsForWrite(req).value);
    MatchIff(req, id, v);
    NumberSettledIff(req.company, base.company);
    if req.kind.Lead? || req.kind.Deal? {
      NumberSettledIff(req.pipeline, base.category);
      TextSettledIff(req.stage, base.stage);
      TextSettledIff(req.opportunity, base.opportunity);
      TextSettledIff(req.currency, base.currency);
      ContactsComeBackIff(req, v, base);
      OpportunityComesBackIff(req, base, id);
    }
  }

  lemma TextSettledIff(sent: string, stored: string)
    ensures Kept(Given(sent), stored) == sent <==> SettledText(sent, stored)
  {
  }

  lemma NumberSettledIff(sent: string, stored: string)
    ensures Kept(GivenNumber(sent), stored) == sent <==> SettledNumber(sent, stored)
  {
  }

  lemma OpportunityComesBackIff(req: Request, base: Item, id: nat)
    requires FieldsForWrite(req).Some? && base.kind == req.kind && base.readable && (req.kind.Lead? || req.kind.Deal?)
    ensures var v := Stored(base, FieldsForWrite(req).value);
            EntityMatches(req, Project(id, v).value) <==>
              && Kept(Given(req.stage), base.stage) == req.stage
              && Kept(GivenNumber(req.company), base.company) == req.company
              && Kept(Given(req.opportunity), base.opportunity) == req.opportunity
              && Kept(Given(req.currency), base.currency) == req.currency
              && (req.kind.Deal? ==> Kept(GivenNumber(req.pipeline), base.category) == req.pipeline)
              && EqualStrings(req.contacts, Distinct(v.contacts + [v.contact]))
  {
  }

  lemma ContactsComeBackIff(req: Request, v: Item, base: Item)
    requires forall c :: c in req.contacts ==> NumericID(c).Some?
    requires v.contacts == if req.contacts == [] then base.contacts else Plain(req.contacts)
    requires v.contact == base.contact && NumberText(base.contact) == base.contact
    ensures EqualStrings(req.contacts, Distinct(v.contacts + [v.contact])) <==> SettledContacts(req.contacts, base)
  {
    var sent, back := req.contacts, Distinct(v.contacts + [v.contact]);
    EqualStringsIsMultisetEquality(sent, back);
    PermutationByElements(back, sent);
    if sent == [] {
      assert multiset(sent) == multiset(back) ==> |multiset(back)| == 0;
    } else {
      PlainContactsComeBackIff(sent, base.contact, back);
    }
  }

  lemma PlainContactsComeBackIff(sent: seq<string>, single: string, back: seq<string>)
    requires sent != [] && forall c :: c in sent ==> NumericID(c).Some?
    requires NumberText(single) == single && back == Distinct(Plain(sent) + [single])
    ensures Elements(sent) == Elements(back) <==> (forall c :: c in sent ==> NumberText(c) == c) && (single == "" || single in sent)
  {
    var plain := Plain(sent);
    forall c | c in sent ensures NumberText(c) in plain && NumberText(c) != "" && NumberText(NumberText(c)) == NumberText(c) {
      var i :| 0 <= i < |sent| && sent[i] == c;
      assert plain[i] == NumberText(c);
      NumberTextPlain(c);
    }
    forall x | x in plain ensures exists c :: c in sent && x == NumberText(c) {
      var i :| 0 <= i < |plain| && plain[i] == x;
      assert sent[i] in sent;
    }
    if Elements(sent) == Elements(back) {
      forall c | c in sent ensures NumberText(c) == c {
        assert c in Elements(back) && c in back;
        if c in plain {
          var c' :| c' in sent && c == NumberText(c');
        }
      }
      if single != "" {
        assert single in Elements(back) && single in Elements(sent);
      }
    }
    if (forall c :: c in sent ==> NumberText(c) == c) && (single == "" || single in sent) {
      forall x ensures x in Elements(sent) <==> x in Elements(back) {
        if x in sent {
          assert NumberText(x) in plain;
        }
      }
    }
  }

  lemma NumberTextPlain(c: string)
    requires NumericID(c).Some?
    ensures NumberText(c) != "" && NumberText(NumberText(c)) == NumberText(c)
  {
    LeadingZerosDenoteNothing(Unsigned(c));
  }

  // ---------- Requests that can never be confirmed ----------

  /** Contacts come back without repetitions, so a request that repeats one never gets a receipt. */
  lemma RepeatedContactsGetNoReceipt(req: Request, s: Store, env: Env)
    requires (req.kind.Lead? || req.kind.Deal?) && !NoRepeats(req.contacts)
    requires Honest(req, s, env)
    ensures !Upsert(req, s, env).outcome.Done?
  {
    if Upsert(req, s, env).outcome.Done? {
      ReceiptIsTruthful(req, s, env);
    }
  }

  /** Yet each attempt whose lookup succeeds writes again, by origin or by id. */
  lemma RepeatedContactsWriteAgain(req: Request, s: Store, env: Env)
    requires (req.kind.Lead? || req.kind.Deal?) && !NoRepeats(req.contacts)
    requires FieldsForWrite(req).Some? && Honest(req, s, env) && LookUp(req, s, env.read).Ok?
    ensures Upsert(req, s, env).mutations == 1
  {
    RepeatedContactsGetNoReceipt(req, s, env);
  }

  /** A request by id that gives a second entity the origin of another one. */
  lemma SecondHolderExample() returns (req: Request, s: Store, env: Env)
    ensures req.remoteID != "" && OnePerOrigin(s) && Honest(req, s, env)
    ensures !AtMostOne(Upsert(req, s, env).store, req.kind, req.externalID)
  {
    var blank := Item(Company, "", "", "B", "", "", "", "", "", "", "", [], "", "", true);
    var owned := blank.(originator := ORIGINATOR, origin := "x");
    s := map[1 := owned, 2 := blank];
    forall kind, externalID ensures AtMostOne(s, kind, externalID) {
      AtMostOneIff(s, kind, externalID);
    }
    req := Request("2", Company, "x", "T", "", "", "", "", "", "", [], "", "");
    env := Env(Answers, WriteFate(true, 3, owned.(title := "T"), Reply(200, false, 0, true, Json("")), true), Answers);
    assert NatVal("2") == 2 by {
      assert "2"[..0] == "";
    }
    assert NumericID("2") == Some(2);
    var s' := Upsert(req, s, env).store;
    AtMostOneIff(s', Company, "x");
    assert 1 in Holders(s', Company, "x") && 2 in Holders(s', Company, "x");
  }

  // ---------- The source's steps ----------

  class Portal {
    var items: Store
    var mutations: nat

    constructor (s: Store)
      ensures items == s && mutations == 0
    {
      items, mutations := s, 0;
    }

    method List(kind: Kind, externalID: string, fate: ReadFate) returns (found: Result<Option<Entity>>)
      ensures found == FindByOrigin(items, kind, externalID, fate)
    {
      found := FindByOrigin(items, kind, externalID, fate);
    }

    method Get(kind: Kind, id: int, fate: ReadFate) returns (found: Result<Entity>)
      ensures found == GetEntity(items, kind, id, fate)
    {
      found := GetEntity(items, kind, id, fate);
    }

    /** `crm.item.add` without a target, `crm.item.update` with one. */
    method Submit(target: Option<nat>, w: WriteFate) returns (error: Option<CallError>)
      modifies this
      ensures items == Land(old(items), target, w) && mutations == old(mutations) + 1
      ensures error == Call(w.reply)
    {
      items := Land(items, target, w);
      mutations := mutations + 1;
      error := Call(w.reply);
    }
  }

  method LookUpExisting(portal: Portal, req: Request, fate: ReadFate) returns (found: Result<Option<Entity>>)
    ensures found == LookUp(req, portal.items, fate)
  {
    if req.remoteID != "" {
      var id := NumericID(req.remoteID);
      if id.None? {
        return Err(InvalidWrite);
      }
      var got := portal.Get(req.kind, id.value, fate);
      if got.Err? {
        return Err(got.failure);
      }
      return Ok(Some(got.value));
    }
    found := portal.List(req.kind, req.externalID, fate);
  }

  /** After an ambiguous failure: read the target, or look the origin up again. */
  method Reconcile(portal: Portal, req: Request, target: Option<nat>, fate: ReadFate) returns (outcome: Outcome)
    ensures outcome ==
      var after := ReadBack(req, portal.items, target, fate);
      if after.Ok? && after.value.Some? && EntityMatches(req, after.value.value) then
        Done(Receipt(after.value.value.id, true, false, true))
      else Failed(OutcomeUnknown)
  {
    var after: Option<Entity> := None;
    if target.Some? {
      var got := portal.Get(req.kind, target.value, fate);
      if got.Ok? {
        after := Some(got.value);
      }
    } else {
      var found := portal.List(req.kind, req.externalID, fate);
      if found.Ok? {
        after := found.value;
      }
    }
    if after.Some? && EntityMatches(req, after.value) {
      return Done(Receipt(after.value.id, true, false, true));
    }
    return Failed(OutcomeUnknown);
  }

  method UpsertCRMEntity(portal: Portal, req: Request, env: Env) returns (outcome: Outcome)
    modifies portal
    ensures portal.items == Upsert(req, old(portal.items), env).store
    ensures portal.mutations == old(portal.mutations) + Upsert(req, old(portal.items), env).mutations
    ensures outcome == Upsert(req, old(portal.items), env).outcome
  {
    if FieldsForWrite(req).None? {
      return Failed(InvalidWrite);
    }
    var found := LookUpExisting(portal, req, env.read);
    if found.Err? {
      return Failed(found.failure);
    }
    var existing := found.value;
    if existing.Some? && EntityMatches(req, existing.value) {
      return Done(Receipt(existing.value.id, false, true, true));
    }
    var target: Option<nat> := None;
    if existing.Some? {
      target := Some(existing.value.id);
    }
    assert Prepare(req, portal.items, env.read) == Write(target);
    var callError := portal.Submit(target, env.write);
    if callError.Some? {
      match ClassifyWrite(callError.value) {
        case Crash => return Crashed;
        case Definite => return Failed(CallFailed(callError.value));
        case Ambiguous =>
      }
      outcome := Reconcile(portal, req, target, env.readBack);
      return;
    }
    var id: nat;
    if target.None? {
      if !env.write.idReadable {
        return Failed(UnusableResponse);
      }
      id := env.write.newID;
    } else {
      id := target.value;
    }
    var after := portal.Get(req.kind, id, env.readBack);
    if after.Err? || !EntityMatches(req, after.value) {
      return Failed(UnusableResponse);
    }
    return Done(Receipt(after.value.id, true, false, false));
  }
}
