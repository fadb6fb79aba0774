/**
 The GigaChat connector exchanges a credential for an access token and caches it
 per account. Completions of many callers share the cache; each step on it is
 atomic, the network calls in between are not. Times are in nanoseconds.
 */
module TokenCache {
  import opened Text

  const NANOS_PER_MS := 1_000_000
  const EXPIRY_BUFFER := 60_000_000_000

  datatype Entry = Entry(value: string, expiresAt: int)
  type Tokens = map<string, Entry>

  function Lookup(tokens: Tokens, account: string, now: int): Option<string> {
    if account !in tokens || !(now < tokens[account].expiresAt) then None else Some(tokens[account].value)
  }

  /** The entry a token is cached under; `None` when it is not worth caching. */
  function CacheEntry(token: string, expiresAtMS: int, now: int): Option<Entry> {
    var expiresAt := expiresAtMS * NANOS_PER_MS - EXPIRY_BUFFER;
    if expiresAtMS <= 0 || !(now < expiresAt) then None else Some(Entry(token, expiresAt))
  }

  class Cache {
    var tokens: Tokens

    constructor ()
      ensures tokens == map[]
    {
      tokens := map[];
    }

    method CachedAccessToken(account: string, now: int) returns (token: Option<string>)
      ensures token == Lookup(tokens, account, now)
    {
      if account !in tokens {
        return None;
      }
      var entry := tokens[account];
      if !(now < entry.expiresAt) {
        return None;
      }
      return Some(entry.value);
    }

    method StoreAccessToken(account: string, token: string, expiresAtMS: int, now: int)
      modifies this
      ensures tokens == match CacheEntry(token, expiresAtMS, now) { case None => old(tokens) case Some(e) => old(tokens)[account := e] }
    {
      if expiresAtMS <= 0 {
        return;
      }
      var expiresAt := expiresAtMS * NANOS_PER_MS - EXPIRY_BUFFER;
      if !(expiresAt > now) {
        return;
      }
      tokens := tokens[account := Entry(token, expiresAt)];
    }

    method InvalidateAccessToken(account: string)
      modifies this
      ensures tokens == old(tokens) - {account}
    {
      tokens := map a | a in tokens && a != account :: tokens[a];
    }
  }

  // ---------- The cache over a history of its atomic updates ----------

  datatype Update = Put(account: string, entry: Entry) | Delete(account: string)

  function Apply(tokens: Tokens, u: Update): Tokens {
    match u
    case Put(a, e) => tokens[a := e]
    case Delete(a) => tokens - {a}
  }

  function Contents(updates: seq<Update>): Tokens {
    if updates == [] then map[] else Apply(Contents(updates[..|updates| - 1]), updates[|updates| - 1])
  }

  ghost predicate LastFor(updates: seq<Update>, i: nat) {
    i < |updates| && forall j :: i < j < |updates| ==> updates[j].account != updates[i].account
  }

  /** Update `i` is the account's last one and stored the token with a lifetime beyond `now`. */
  ghost predicate Serves(updates: seq<Update>, i: nat, account: string, now: int, token: string) {
    && LastFor(updates, i) && updates[i].Put? && updates[i].account == account
    && updates[i].entry.value == token && now < updates[i].entry.expiresAt
  }

  /** A token is served exactly if the account's last update stored it and its shortened lifetime has not passed. */
  lemma {:induction false} ServedIff(updates: seq<Update>, account: string, now: int, token: string)
    ensures Lookup(Contents(updates), account, now) == Some(token) <==> exists i: nat :: Serves(updates, i, account, now, token)
  {
    if updates != [] {
      var k := |updates| - 1;
      var front := updates[..k];
      if updates[k].account == account {
        assert Serves(updates, k, account, now, token) <==> Lookup(Contents(updates), account, now) == Some(token);
        assert forall i: nat :: i < k ==> !Serves(updates, i, account, now, token);
      } else {
        ServedIff(front, account, now, token);
        forall i: nat ensures Serves(updates, i, account, now, token) <==> Serves(front, i, account, now, token) {
          if i < k && updates[i].account == account {
            assert LastFor(updates, i) <==> LastFor(front, i) by {
              assert forall j :: i < j < k ==> updates[j] == front[j];
            }
          }
        }
      }
    }
  }

  // ---------- Concurrent completions ----------

  datatype Grant = Grant(token: string, expiresAtMS: int)

  /** What a completion does: with the cache, in an exchange and in a completion call. */
  datatype Event =
    | Served(token: string, at: int)
    | Missed(at: int)
    | Called(token: string, status: Option<int>)
    | Dropped
    | Exchanged(answer: Option<Grant>)
    | Stored(entry: Entry, at: int)
    | Declined(at: int)

  datatype Logged = Logged(caller: nat, account: string, event: Event)

  datatype PC =
    | Starting
    | Exchanging
    | Guarding(grant: Grant)
    | Putting(entry: Entry, at: int)
    | Calling(token: string, cached: bool)
    | Invalidating
    | Finished

  /** One running completion. */
  datatype Caller = Caller(account: string, pc: PC)

  /** The shared cache, the callers, and the log of everything they did. */
  datatype System = System(tokens: Tokens, callers: map<nat, Caller>, log: seq<Logged>)

  /** What one step meets: the clock, the provider's answer to an exchange, the status of a completion call. */
  datatype Weather = Weather(now: int, exchange: Option<Grant>, status: Option<int>)

  function Move(s: System, id: nat, pc: PC): System
    requires id in s.callers
  {
    s.(callers := s.callers[id := s.callers[id].(pc := pc)])
  }

  function Record(s: System, id: nat, e: Event): System
    requires id in s.callers
  {
    s.(log := s.log + [Logged(id, s.callers[id].account, e)])
  }

  /** One atomic step of a caller. */
  function Next(s: System, id: nat, w: Weather): System
    requires id in s.callers
  {
    var c := s.callers[id];
    match c.pc
    case Starting =>
      (match Lookup(s.tokens, c.account, w.now)
       case Some(t) => Move(Record(s, id, Served(t, w.now)), id, Calling(t, true))
       case None => Move(Record(s, id, Missed(w.now)), id, Exchanging))
    case Exchanging =>
      Move(Record(s, id, Exchanged(w.exchange)), id, if w.exchange.Some? then Guarding(w.exchange.value) else Finished)
    case Guarding(g) =>
      (match CacheEntry(g.token, g.expiresAtMS, w.now)
       case None => Move(Record(s, id, Declined(w.now)), id, Calling(g.token, false))
       case Some(entry) => Move(s, id, Putting(entry, w.now)))
    case Putting(entry, at) =>
      Move(Record(s.(tokens := s.tokens[c.account := entry]), id, Stored(entry, at)), id, Calling(entry.value, false))
    case Calling(t, cached) =>
      Move(Record(s, id, Called(t, w.status)), id, if cached && w.status == Some(401) then Invalidating else Finished)
    case Invalidating => Move(Record(s.(tokens := s.tokens - {c.account}), id, Dropped), id, Exchanging)
    case Finished => s
  }

  datatype Action = Enter(id: nat, account: string) | Advance(id: nat, weather: Weather)

  function Perform(s: System, a: Action): System {
    match a
    case Enter(id, account) => if id in s.callers then s else s.(callers := s.callers[id := Caller(account, Starting)])
    case Advance(id, w) => if id in s.callers then Next(s, id, w) else s
  }

  function Run(actions: seq<Action>): System {
    if actions == [] then System(map[], map[], []) else Perform(Run(actions[..|actions| - 1]), actions[|actions| - 1])
  }

  /** The caller's own part of the log, in order. */
  function Own(log: seq<Logged>, id: nat): seq<Event> {
    if log == [] then []
    else
      var last := log[|log| - 1];
      Own(log[..|log| - 1], id) + if last.caller == id then [last.event] else []
  }

  /** The updates of the cache that the log tells of. */
  function Updates(log: seq<Logged>): seq<Update> {
    if log == [] then [] else Updates(log[..|log| - 1]) + UpdateOf(log[|log| - 1])
  }

  function UpdateOf(l: Logged): seq<Update> {
    match l.event
    case Stored(entry, _) => [Put(l.account, entry)]
    case Dropped => [Delete(l.account)]
    case _ => []
  }

  // ---------- What one completion does ----------

  /** A granted token is stored with its shortened lifetime if the provider states one and it has not ended, and not stored otherwise. */
  predicate Kept(e: Event, g: Grant) {
    var end := g.expiresAtMS * 1_000_000 - 60_000_000_000;
    match e
    case Stored(entry, at) => g.expiresAtMS > 0 && at < end && entry == Entry(g.token, end)
    case Declined(at) => g.expiresAtMS <= 0 || at >= end
    case _ => false
  }

  /** As much as has been done of: one exchange, and if it grants a token, storing that and a call with it. */
  predicate Renewal(own: seq<Event>) {
    && |own| <= 3
    && (|own| >= 1 ==> own[0].Exchanged?)
    && (|own| >= 2 ==> own[0].answer.Some? && Kept(own[1], own[0].answer.value))
    && (|own| == 3 ==> own[2].Called? && own[2].token == own[0].answer.value.token)
  }

  /** As much as has been done of: a call with a cached token, and if that gets a 401, dropping the token. */
  predicate CachedCall(own: seq<Event>) {
    && (|own| >= 1 ==> own[0].Served?)
    && (|own| >= 2 ==> own[1].Called? && own[1].token == own[0].token)
    && (|own| >= 3 ==> own[1].status == Some(401) && own[2] == Dropped)
  }

  /** A miss and a renewal; or a call with a cached token, and once that token is dropped, a renewal. */
  predicate Disciplined(own: seq<Event>) {
    || own == []
    || (own[0].Missed? && Renewal(own[1..]))
    || (own[0].Served? && CachedCall(own) && (|own| > 3 ==> Renewal(own[3..])))
  }

  /** The log ends in a failed exchange, or in a call that is not a cached token's call that got a 401. */
  predicate Completed(own: seq<Event>) {
    && Disciplined(own) && own != []
    && var last := own[|own| - 1];
       last == Exchanged(None) || (last.Called? && (last.status == Some(401) ==> |own| > 2))
  }

  /**
   What that comes to for a finished completion: unless its exchange failed, it
   ends in a call; there are two calls exactly if a token from the cache got a 401
   and was dropped and an exchange granted another; and there is at most one exchange.
   */
  lemma DisciplineCounts(own: seq<Event>)
    requires Completed(own)
    ensures own[|own| - 1].Called? || own[|own| - 1] == Exchanged(None)
    ensures forall i, j :: 0 <= i < j < |own| && own[i].Exchanged? ==> !own[j].Exchanged?
    ensures forall i, j :: 0 <= i < j < |own| && own[i].Called? && own[j].Called? ==>
              && i == 1 && j == 5 && own[0].Served? && own[0].token == own[1].token && own[1].status == Some(401) && own[2] == Dropped
              && own[3].Exchanged? && own[3].answer.Some? && own[3].answer.value.token == own[5].token
    ensures own[0].Served? ==>
              (|own| == 2 <==> own[1].status != Some(401)) && (|own| == 4 ==> own[3] == Exchanged(None)) && |own| in {2, 4, 6}
    ensures own[0].Missed? ==> (|own| == 2 ==> own[1] == Exchanged(None)) && |own| in {2, 4}
  {
    var rest := if own[0].Missed? then own[1..] else if |own| > 3 then own[3..] else [];
    var k := |own| - |rest|;
    assert forall i :: 0 <= i < |rest| ==> rest[i] == own[k + i];
  }

  /** Before an exchange: a miss, or a call with a cached token that got a 401, and the token dropped. */
  predicate BeforeExchange(own: seq<Event>) {
    if |own| == 3 then CachedCall(own) else |own| == 1 && own[0].Missed?
  }

  predicate JustGranted(own: seq<Event>, g: Grant) {
    |own| >= 1 && BeforeExchange(own[..|own| - 1]) && own[|own| - 1] == Exchanged(Some(g))
  }

  predicate JustKept(own: seq<Event>, token: string) {
    && |own| >= 2 && BeforeExchange(own[..|own| - 2])
    && var e := own[|own| - 2];
       e.Exchanged? && e.answer.Some? && e.answer.value.token == token && Kept(own[|own| - 1], e.answer.value)
  }

  /** What the caller's own log looks like at a program position. */
  predicate Reached(pc: PC, own: seq<Event>) {
    match pc
    case Starting => own == []
    case Exchanging => BeforeExchange(own)
    case Guarding(g) => JustGranted(own, g)
    case Putting(entry, at) =>
      |own| >= 1 && own[|own| - 1].Exchanged? && own[|own| - 1].answer.Some?
      && JustGranted(own, own[|own| - 1].answer.value) && Kept(Stored(entry, at), own[|own| - 1].answer.value)
    case Calling(t, cached) => if cached then |own| == 1 && own[0].Served? && own[0].token == t else JustKept(own, t)
    case Invalidating => |own| == 2 && CachedCall(own) && own[1].status == Some(401)
    case Finished => Completed(own)
  }

  lemma BeforeExchangeParts(before: seq<Event>, rest: seq<Event>)
    requires BeforeExchange(before) && Renewal(rest) && rest != []
    ensures Disciplined(before + rest)
  {
    var own := before + rest;
    assert own[|before|..] == rest;
    assert forall i :: 0 <= i < |before| ==> own[i] == before[i];
  }

  lemma GrantedIsDisciplined(own: seq<Event>, g: Grant)
    requires JustGranted(own, g)
    ensures Disciplined(own)
  {
    var before, rest := own[..|own| - 1], [Exchanged(Some(g))];
    BeforeExchangeParts(before, rest);
    assert before + rest == own;
  }

  lemma KeptIsDisciplined(own: seq<Event>, token: string)
    requires JustKept(own, token)
    ensures Disciplined(own)
  {
    var before, rest := own[..|own| - 2], own[|own| - 2..];
    BeforeExchangeParts(before, rest);
    assert before + rest == own;
  }

  lemma ReachedIsDisciplined(pc: PC, own: seq<Event>)
    requires Reached(pc, own)
    ensures Disciplined(own)
  {
    match pc {
      case Guarding(g) => GrantedIsDisciplined(own, g);
      case Putting(_, _) => GrantedIsDisciplined(own, own[|own| - 1].answer.value);
      case Calling(token, cached) =>
        if !cached {
          KeptIsDisciplined(own, token);
        }
      case _ =>
    }
  }

  /** What the step of a caller logs. */
  function Got(s: System, id: nat, w: Weather): seq<Event>
    requires id in s.callers
  {
    match s.callers[id].pc
    case Starting =>
      var token := Lookup(s.tokens, s.callers[id].account, w.now);
      [if token.Some? then Served(token.value, w.now) else Missed(w.now)]
    case Exchanging => [Exchanged(w.exchange)]
    case Guarding(g) => if CacheEntry(g.token, g.expiresAtMS, w.now).None? then [Declined(w.now)] else []
    case Putting(entry, at) => [Stored(entry, at)]
    case Calling(t, _) => [Called(t, w.status)]
    case Invalidating => [Dropped]
    case Finished => []
  }

  lemma StepLogs(s: System, id: nat, w: Weather)
    requires id in s.callers
    ensures var t, account := Next(s, id, w), s.callers[id].account;
            && t.log == (if Got(s, id, w) == [] then s.log else s.log + [Logged(id, account, Got(s, id, w)[0])])
            && t.callers.Keys == s.callers.Keys && t.callers[id].account == account
  {
  }

  lemma CallAfterServed(own: seq<Event>, token: string, status: Option<int>)
    requires |own| == 1 && own[0].Served? && own[0].token == token
    ensures Reached(if status == Some(401) then Invalidating else Finished, own + [Called(token, status)])
  {
  }

  lemma CallAfterGrant(own: seq<Event>, token: string, status: Option<int>)
    requires JustKept(own, token)
    ensures Completed(own + [Called(token, status)])
  {
    var before, rest := own[..|own| - 2], own[|own| - 2..] + [Called(token, status)];
    BeforeExchangeParts(before, rest);
    assert before + rest == own + [Called(token, status)];
  }

  lemma ExchangeReaches(own: seq<Event>, answer: Option<Grant>)
    requires BeforeExchange(own)
    ensures var all := own + [Exchanged(answer)];
            if answer.Some? then JustGranted(all, answer.value) else Completed(all)
  {
    var all := own + [Exchanged(answer)];
    assert all[..|all| - 1] == own;
    BeforeExchangeParts(own, [Exchanged(answer)]);
  }

  lemma KeptReaches(own: seq<Event>, g: Grant, e: Event)
    requires JustGranted(own, g) && Kept(e, g)
    ensures JustKept(own + [e], g.token)
  {
    assert (own + [e])[..|own| - 1] == own[..|own| - 1];
  }

  /** A step takes the caller's own log along. */
  lemma StepReaches(s: System, id: nat, w: Weather, own: seq<Event>)
    requires id in s.callers && Reached(s.callers[id].pc, own)
    ensures Reached(Next(s, id, w).callers[id].pc, own + Got(s, id, w))
  {
    match s.callers[id].pc {
      case Starting =>
      case Exchanging => ExchangeReaches(own, w.exchange);
      case Guarding(g) => GuardReaches(s, id, w, own, g);
      case Putting(entry, at) => KeptReaches(own, own[|own| - 1].answer.value, Stored(entry, at));
      case Calling(t, cached) =>
        if cached {
          CallAfterServed(own, t, w.status);
        } else {
          CallAfterGrant(own, t, w.status);
        }
      case Invalidating =>
      case Finished => assert own + Got(s, id, w) == own;
    }
  }

  lemma GuardReaches(s: System, id: nat, w: Weather, own: seq<Event>, g: Grant)
    requires id in s.callers && s.callers[id].pc == Guarding(g) && JustGranted(own, g)
    ensures Reached(Next(s, id, w).callers[id].pc, own + Got(s, id, w))
  {
    if CacheEntry(g.token, g.expiresAtMS, w.now).None? {
      KeptReaches(own, g, Declined(w.now));
    } else {
      assert own + Got(s, id, w) == own;
    }
  }

  // ---------- Every completion comes to its end ----------

  /** The most steps a caller has still to take. */
  function StepsLeft(pc: PC): nat {
    match pc
    case Starting => 7
    case Calling(_, cached) => if cached then 6 else 1
    case Invalidating => 5
    case Exchanging => 4
    case Guarding(_) => 3
    case Putting(_, _) => 2
    case Finished => 0
  }

  /** How many of the actions were steps of this caller. */
  function StepsOf(actions: seq<Action>, id: nat): nat {
    if actions == [] then 0
    else
      var k := |actions| - 1;
      StepsOf(actions[..k], id) + if actions[k].Advance? && actions[k].id == id && id in Run(actions[..k]).callers then 1 else 0
  }

  lemma {:induction false} FewStepsLeft(actions: seq<Action>, id: nat)
    ensures id in Run(actions).callers ==>
              var pc := Run(actions).callers[id].pc; pc == Finished || StepsLeft(pc) + StepsOf(actions, id) <= 7
    ensures id !in Run(actions).callers ==> StepsOf(actions, id) == 0
  {
    if actions != [] {
      FewStepsLeft(actions[..|actions| - 1], id);
      StepLowers(Run(actions[..|actions| - 1]), actions[|actions| - 1], id);
    }
  }

  lemma StepLowers(s: System, a: Action, id: nat)
    ensures id in s.callers ==>
              && id in Perform(s, a).callers
              && var before, after := s.callers[id].pc, Perform(s, a).callers[id].pc;
                 if a.Advance? && a.id == id then after == Finished || StepsLeft(after) < StepsLeft(before) else after == before
    ensures id !in s.callers && id in Perform(s, a).callers ==> Perform(s, a).callers[id].pc == Starting
  {
  }

  /** Whatever the others do, after seven steps of its own a completion has ended. */
  lemma {:induction false} SevenStepsEnd(actions: seq<Action>, id: nat)
    requires StepsOf(actions, id) >= 7
    ensures id in Run(actions).callers && Run(actions).callers[id].pc == Finished
  {
    FewStepsLeft(actions, id);
  }

  // ---------- Over every interleaving ----------

  /** An exchange of the account granted the entry's token, and the entry ends a minute before the reported expiry. */
  predicate Grants(l: Logged, account: string, entry: Entry) {
    && l.account == account && l.event.Exchanged? && l.event.answer.Some?
    && var g := l.event.answer.value;
       g.token == entry.value && g.expiresAtMS > 0 && entry.expiresAt == g.expiresAtMS * NANOS_PER_MS - EXPIRY_BUFFER
  }

  ghost predicate Backed(log: seq<Logged>, account: string, entry: Entry) {
    exists n :: 0 <= n < |log| && Grants(log[n], account, entry)
  }

  /** The token served at `n` was granted before, to the same account, and ends more than a minute later than it is served. */
  ghost predicate ServedInTime(log: seq<Logged>, n: nat)
    requires n < |log|
  {
    log[n].event.Served? ==>
      exists entry :: Backed(log[..n], log[n].account, entry) && entry.value == log[n].event.token && log[n].event.at < entry.expiresAt
  }

  /** The cache served, or had nothing to serve, after the updates logged before `n`; and a deletion leaves nothing of the account. */
  ghost predicate CacheAnswered(log: seq<Logged>, n: nat)
    requires n < |log|
  {
    var account, before := log[n].account, Contents(Updates(log[..n]));
    match log[n].event
    case Served(token, at) => Lookup(before, account, at) == Some(token)
    case Missed(at) => Lookup(before, account, at) == None
    case Dropped => account !in Contents(Updates(log[..n + 1]))
    case _ => true
  }

  ghost predicate LogTrue(log: seq<Logged>) { forall n :: 0 <= n < |log| ==> ServedInTime(log, n) && CacheAnswered(log, n) }

  ghost predicate CacheSafe(s: System) {
    && s.tokens == Contents(Updates(s.log))
    && forall a :: a in s.tokens ==> Backed(s.log, a, s.tokens[a])
  }

  ghost predicate LogOwned(s: System) {
    forall n :: 0 <= n < |s.log| ==> s.log[n].caller in s.callers && s.log[n].account == s.callers[s.log[n].caller].account
  }

  ghost predicate WasGranted(log: seq<Logged>, id: nat, account: string, g: Grant) {
    exists n :: 0 <= n < |log| && log[n] == Logged(id, account, Exchanged(Some(g)))
  }

  ghost predicate CallerSafe(log: seq<Logged>, id: nat, c: Caller) {
    && Reached(c.pc, Own(log, id))
    && (c.pc.Guarding? ==> WasGranted(log, id, c.account, c.pc.grant))
    && (c.pc.Putting? ==> Backed(log, c.account, c.pc.entry))
  }

  ghost predicate CallersSafe(s: System) { forall id :: id in s.callers ==> CallerSafe(s.log, id, s.callers[id]) }

  ghost predicate Safe(s: System) { CacheSafe(s) && LogOwned(s) && LogTrue(s.log) && CallersSafe(s) }

  lemma {:induction false} NothingOfStrangers(log: seq<Logged>, id: nat)
    requires forall n :: 0 <= n < |log| ==> log[n].caller != id
    ensures Own(log, id) == []
  {
    if log != [] {
      NothingOfStrangers(log[..|log| - 1], id);
    }
  }

  lemma BackedLater(log: seq<Logged>, l: Logged, account: string, entry: Entry)
    requires Backed(log, account, entry)
    ensures Backed(log + [l], account, entry)
  {
    var n :| 0 <= n < |log| && Grants(log[n], account, entry);
    assert (log + [l])[n] == log[n];
  }

  lemma GrantedLater(log: seq<Logged>, l: Logged, id: nat, account: string, g: Grant)
    requires WasGranted(log, id, account, g)
    ensures WasGranted(log + [l], id, account, g)
  {
    var n :| 0 <= n < |log| && log[n] == Logged(id, account, Exchanged(Some(g)));
    assert (log + [l])[n] == log[n];
  }

  lemma {:induction false} OwnGrows(log: seq<Logged>, l: Logged, id: nat)
    ensures Own(log + [l], id) == Own(log, id) + if l.caller == id then [l.event] else []
  {
    assert (log + [l])[..|log|] == log;
  }

  /** Callers that do not move stay safe when another caller's event is logged. */
  lemma OtherStaysSafe(log: seq<Logged>, l: Logged, id: nat, c: Caller)
    requires CallerSafe(log, id, c) && l.caller != id
    ensures CallerSafe(log + [l], id, c)
  {
    OwnGrows(log, l, id);
    assert Own(log, id) + [] == Own(log, id);
    if c.pc.Guarding? {
      GrantedLater(log, l, id, c.account, c.pc.grant);
    }
    if c.pc.Putting? {
      BackedLater(log, l, c.account, c.pc.entry);
    }
  }

  lemma EntryIsBacked(log: seq<Logged>, id: nat, account: string, g: Grant, now: int)
    requires WasGranted(log, id, account, g) && CacheEntry(g.token, g.expiresAtMS, now).Some?
    ensures Backed(log, account, CacheEntry(g.token, g.expiresAtMS, now).value)
  {
    var n :| 0 <= n < |log| && log[n] == Logged(id, account, Exchanged(Some(g)));
    assert Grants(log[n], account, CacheEntry(g.token, g.expiresAtMS, now).value);
  }

  lemma ServedEntry(log: seq<Logged>, l: Logged, entry: Entry)
    requires Backed(log, l.account, entry)
    requires l.event.Served? ==> l.event.token == entry.value && l.event.at < entry.expiresAt
    ensures ServedInTime(log + [l], |log|)
  {
    assert (log + [l])[..|log|] == log;
  }

  /** The moving caller stays safe. */
  lemma MoverStaysSafe(s: System, id: nat, w: Weather)
    requires id in s.callers && CallerSafe(s.log, id, s.callers[id])
    ensures CallerSafe(Next(s, id, w).log, id, Next(s, id, w).callers[id])
  {
    var c, t := s.callers[id], Next(s, id, w);
    StepReaches(s, id, w, Own(s.log, id));
    StepLogs(s, id, w);
    if Got(s, id, w) == [] {
      assert Own(s.log, id) + [] == Own(s.log, id);
      if c.pc.Guarding? && t.callers[id].pc.Putting? {
        EntryIsBacked(s.log, id, c.account, c.pc.grant, w.now);
      }
    } else {
      OwnGrows(s.log, Logged(id, c.account, Got(s, id, w)[0]), id);
      assert Got(s, id, w) == [Got(s, id, w)[0]];
      assert t.log[|s.log|] == Logged(id, c.account, Got(s, id, w)[0]);
    }
  }

  /** What the cache is after an event. */
  function Updated(tokens: Tokens, l: Logged): Tokens {
    match l.event
    case Stored(entry, _) => tokens[l.account := entry]
    case Dropped => tokens - {l.account}
    case _ => tokens
  }

  lemma {:induction false} UpdatesGrow(log: seq<Logged>, l: Logged)
    ensures Contents(Updates(log + [l])) == Updated(Contents(Updates(log)), l)
  {
    assert (log + [l])[..|log|] == log;
    var before, more := Updates(log), UpdateOf(l);
    assert Updates(log + [l]) == before + more;
    if more == [] {
      assert before + more == before;
    } else {
      assert (before + more)[..|before|] == before;
    }
  }

  /** What a step does to the cache is what it logs, and what it stores is in its hands already. */
  lemma StepUpdates(s: System, id: nat, w: Weather, e: Event)
    requires id in s.callers && Got(s, id, w) == [e]
    ensures Next(s, id, w).tokens == Updated(s.tokens, Logged(id, s.callers[id].account, e))
    ensures e.Stored? ==> s.callers[id].pc == Putting(e.entry, e.at)
    ensures e.Served? || e.Missed? ==> Lookup(s.tokens, s.callers[id].account, e.at) == if e.Served? then Some(e.token) else None
  {
  }

  lemma {:induction false} StepOfNothing(s: System, id: nat, w: Weather)
    requires id in s.callers && Got(s, id, w) == []
    ensures Next(s, id, w).tokens == s.tokens && Next(s, id, w).log == s.log
  {
  }

  /** The cache is what the logged updates make of it, and what a step puts into it is backed by what was logged before. */
  lemma {:induction false} CacheStaysSafe(s: System, id: nat, w: Weather)
    requires id in s.callers && CacheSafe(s)
    requires var c := s.callers[id]; c.pc.Putting? ==> Backed(s.log, c.account, c.pc.entry)
    ensures CacheSafe(Next(s, id, w))
  {
    if Got(s, id, w) == [] {
      StepOfNothing(s, id, w);
    } else {
      var e := Got(s, id, w)[0];
      StepLogs(s, id, w);
      StepUpdates(s, id, w, e);
      EventKeepsCacheSafe(s, Next(s, id, w), Logged(id, s.callers[id].account, e));
    }
  }

  lemma {:induction false} EventKeepsCacheSafe(s: System, t: System, l: Logged)
    requires CacheSafe(s) && t.log == s.log + [l] && (l.event.Stored? ==> Backed(s.log, l.account, l.event.entry))
    requires t.tokens == Updated(s.tokens, l)
    ensures CacheSafe(t)
  {
    UpdatesGrow(s.log, l);
    forall a | a in t.tokens ensures Backed(t.log, a, t.tokens[a]) {
      UpdatedIsBacked(s, l, a);
    }
  }

  lemma {:induction false} UpdatedIsBacked(s: System, l: Logged, account: string)
    requires CacheSafe(s) && (l.event.Stored? ==> Backed(s.log, l.account, l.event.entry))
    requires account in Updated(s.tokens, l)
    ensures Backed(s.log + [l], account, Updated(s.tokens, l)[account])
  {
    var entry := if l.event.Stored? && account == l.account then l.event.entry else s.tokens[account];
    assert Updated(s.tokens, l)[account] == entry;
    BackedLater(s.log, l, account, entry);
  }

  /** A newly served token comes from a backed entry that has not ended, and is what the logged updates serve. */
  lemma {:induction false} LogStaysTrue(s: System, id: nat, w: Weather)
    requires id in s.callers && CacheSafe(s) && LogTrue(s.log)
    ensures LogTrue(Next(s, id, w).log)
  {
    if Got(s, id, w) == [] {
      StepOfNothing(s, id, w);
    } else {
      var e := Got(s, id, w)[0];
      StepLogs(s, id, w);
      StepUpdates(s, id, w, e);
      EventKeepsLogTrue(s, Logged(id, s.callers[id].account, e));
    }
  }

  /** Its account's cache answered as the event says. */
  predicate Answered(tokens: Tokens, l: Logged) {
    l.event.Served? || l.event.Missed? ==>
      Lookup(tokens, l.account, l.event.at) == if l.event.Served? then Some(l.event.token) else None
  }

  lemma {:induction false} EventKeepsLogTrue(s: System, l: Logged)
    requires CacheSafe(s) && LogTrue(s.log) && Answered(s.tokens, l)
    ensures LogTrue(s.log + [l])
  {
    var log := s.log + [l];
    forall n | 0 <= n < |log| ensures ServedInTime(log, n) && CacheAnswered(log, n) {
      if n < |s.log| {
        EarlierStaysTrue(s.log, l, n);
      } else {
        NewEventIsTrue(s, l);
      }
    }
  }

  lemma {:induction false} NewEventIsTrue(s: System, l: Logged)
    requires CacheSafe(s) && Answered(s.tokens, l)
    ensures ServedInTime(s.log + [l], |s.log|) && CacheAnswered(s.log + [l], |s.log|)
  {
    var log := s.log + [l];
    assert log[..|s.log|] == s.log && log[..|s.log| + 1] == log;
    UpdatesGrow(s.log, l);
    if l.event.Served? {
      ServedEntry(s.log, l, s.tokens[l.account]);
    }
  }

  lemma EarlierStaysTrue(log: seq<Logged>, l: Logged, n: nat)
    requires n < |log| && ServedInTime(log, n) && CacheAnswered(log, n)
    ensures ServedInTime(log + [l], n) && CacheAnswered(log + [l], n)
  {
    assert (log + [l])[..n] == log[..n] && (log + [l])[..n + 1] == log[..n + 1];
  }

  lemma StepFrame(s: System, id: nat, w: Weather, j: nat) returns (more: Option<Logged>)
    requires id in s.callers && j in s.callers && j != id
    ensures j in Next(s, id, w).callers && Next(s, id, w).callers[j] == s.callers[j]
    ensures more.Some? ==> more.value.caller == id && Next(s, id, w).log == s.log + [more.value]
    ensures more.None? ==> Next(s, id, w).log == s.log
  {
    var t := Next(s, id, w);
    more := if t.log == s.log then None else Some(t.log[|s.log|]);
  }

  lemma OthersStaySafe(s: System, id: nat, w: Weather, j: nat)
    requires id in s.callers && j in s.callers && j != id && CallerSafe(s.log, j, s.callers[j])
    ensures j in Next(s, id, w).callers && CallerSafe(Next(s, id, w).log, j, Next(s, id, w).callers[j])
  {
    var more := StepFrame(s, id, w, j);
    if more.Some? {
      OtherStaysSafe(s.log, more.value, j, s.callers[j]);
    }
  }

  lemma AdvanceKeepsSafe(s: System, id: nat, w: Weather)
    requires Safe(s) && id in s.callers
    ensures Safe(Next(s, id, w))
  {
    CacheStaysSafe(s, id, w);
    LogStaysTrue(s, id, w);
    MoverStaysSafe(s, id, w);
    LogStaysOwned(s, id, w);
    forall j | j in Next(s, id, w).callers && j != id ensures CallerSafe(Next(s, id, w).log, j, Next(s, id, w).callers[j]) {
      OthersStaySafe(s, id, w, j);
    }
  }

  lemma LogStaysOwned(s: System, id: nat, w: Weather)
    requires id in s.callers && LogOwned(s)
    ensures LogOwned(Next(s, id, w)) && Next(s, id, w).callers.Keys == s.callers.Keys
  {
  }

  lemma EnterKeepsSafe(s: System, id: nat, account: string)
    requires Safe(s) && id !in s.callers
    ensures Safe(Perform(s, Enter(id, account)))
  {
    NothingOfStrangers(s.log, id);
  }

  lemma StepKeepsSafe(s: System, a: Action)
    requires Safe(s)
    ensures Safe(Perform(s, a))
  {
    if a.Advance? && a.id in s.callers {
      AdvanceKeepsSafe(s, a.id, a.weather);
    } else if a.Enter? && a.id !in s.callers {
      EnterKeepsSafe(s, a.id, a.account);
    }
  }

  lemma {:induction false} RunIsSafe(actions: seq<Action>)
    ensures Safe(Run(actions))
  {
    if actions != [] {
      RunIsSafe(actions[..|actions| - 1]);
      StepKeepsSafe(Run(actions[..|actions| - 1]), actions[|actions| - 1]);
    }
  }

  /**
   Over every interleaving, read off the log: all events of a caller are of its
   account; they are those of a completion, in order, and of a whole one as soon
   as the caller is finished; the cache is what the logged stores and deletions
   make of it, answers accordingly and holds nothing of an account right after a
   deletion; and it serves only tokens granted to that account before, more than
   a minute before their reported expiry.
   */
  lemma {:induction false} CompletionDiscipline(actions: seq<Action>, id: nat)
    requires id in Run(actions).callers
    ensures var s, own := Run(actions), Own(Run(actions).log, id);
            && Disciplined(own)
            && (s.callers[id].pc.Finished? ==> Completed(own))
            && (forall n :: 0 <= n < |s.log| && s.log[n].caller == id ==> s.log[n].account == s.callers[id].account)
            && s.tokens == Contents(Updates(s.log))
            && (forall n :: 0 <= n < |s.log| ==> ServedInTime(s.log, n) && CacheAnswered(s.log, n))
  {
    RunIsSafe(actions);
    var s := Run(actions);
    assert CallerSafe(s.log, id, s.callers[id]);
    ReachedIsDisciplined(s.callers[id].pc, Own(s.log, id));
  }
}
