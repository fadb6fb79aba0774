/**
 Reading a list in pages of any size up to fifty on top of a portal that serves
 fixed pages of fifty: the cursor names a remote page and how much of it was
 already handed out.
 */
module BitrixPaging {
  import opened Text

  const REMOTE_PAGE := 50
  /** The largest page a caller may ask for. */
  const MAX_LIMIT := 50
  const FINGERPRINT_LENGTH := 64

  datatype Cursor = Cursor(start: int, skip: int, fingerprint: string) {
    predicate InRange() { start >= 0 && start % REMOTE_PAGE == 0 && 0 <= skip < REMOTE_PAGE }
  }

  /**
   A cursor as the caller carries it: the empty text, the encoding of a cursor,
   or any other text. JSON and base64url (section 5 of RFC 4648) are not modelled further.
   */
  datatype Encoded = Empty | Packed(cursor: Cursor) | Garbage(text: string)

  function DecodeCursor(raw: Encoded, fp: string): (c: Option<Cursor>)
    ensures c.Some? ==> c.value.InRange() && c.value.fingerprint == fp
  {
    match raw
    case Empty => Some(Cursor(0, 0, fp))
    case Garbage(_) => None
    case Packed(c) => if !c.InRange() || c.fingerprint != fp then None else Some(c)
  }

  function EncodeCursor(c: Cursor): Option<Encoded> {
    if !c.InRange() || |c.fingerprint| != FINGERPRINT_LENGTH then None else Some(Packed(c))
  }

  /** `None` is the encoding error, `Some(Empty)` the end of the list. */
  function NextCursor(start: int, skip: int, count: int, total: int, limit: int, fp: string): Option<Encoded> {
    var used := skip + count;
    if count == 0 || used >= REMOTE_PAGE || start + used >= total then
      if start + REMOTE_PAGE >= total then Some(Empty) else EncodeCursor(Cursor(start + REMOTE_PAGE, 0, fp))
    else if count < limit then Some(Empty)
    else EncodeCursor(Cursor(start, used, fp))
  }

  /** The guard of the early stop in `NextCursor`. */
  predicate StopsEarly(start: int, skip: int, count: int, total: int, limit: int) {
    !(count == 0 || skip + count >= REMOTE_PAGE || start + skip + count >= total) && count < limit
  }

  datatype Page<T> = Page(items: seq<T>, next: Encoded)

  /** The projections of remote items, if none of them is refused. */
  function Projected<T>(raw: seq<Option<T>>): Option<seq<T>> {
    if raw == [] then Some([])
    else
      var front := Projected(raw[..|raw| - 1]);
      if front.None? || raw[|raw| - 1].None? then None else Some(front.value + [raw[|raw| - 1].value])
  }

  /**
   One call, for whatever items and total the portal reports; an item is `None`
   when its projection would be refused. `None` is an error.
   */
  function ReadPage<T>(raw: seq<Option<T>>, total: nat, cur: Cursor, limit: nat, fp: string): Option<Page<T>>
    requires cur.InRange()
  {
    if |raw| > REMOTE_PAGE || cur.skip > |raw| then None
    else
      var end := if cur.skip + limit > |raw| then |raw| else cur.skip + limit;
      var items := Projected(raw[cur.skip..end]);
      if items.None? then None
      else
        var next := NextCursor(cur.start, cur.skip, |items.value|, total, limit, fp);
        if next.None? then None else Some(Page(items.value, next.value))
  }

  lemma {:induction false} RefusedItem<T>(raw: seq<Option<T>>, i: nat)
    requires i < |raw| && raw[i].None?
    ensures Projected(raw).None?
    decreases |raw|
  {
    if i < |raw| - 1 {
      RefusedItem(raw[..|raw| - 1], i);
    }
  }

  /** The source's collecting loop over the slice of the remote page; it stops at an item that cannot be projected. */
  method CollectPage<T>(raw: seq<Option<T>>, total: nat, cur: Cursor, limit: nat, fp: string) returns (r: Option<Page<T>>)
    requires cur.InRange()
    ensures r == ReadPage(raw, total, cur, limit, fp)
  {
    if |raw| > REMOTE_PAGE || cur.skip > |raw| {
      return None;
    }
    var end := cur.skip + limit;
    if end > |raw| {
      end := |raw|;
    }
    ghost var slice := raw[cur.skip..end];
    var items: seq<T> := [];
    for i := cur.skip to end
      invariant Projected(slice[..i - cur.skip]) == Some(items)
    {
      assert slice[..i + 1 - cur.skip][..i - cur.skip] == slice[..i - cur.skip];
      if raw[i].None? {
        RefusedItem(slice, i - cur.skip);
        return None;
      }
      items := items + [raw[i].value];
    }
    assert slice[..end - cur.skip] == slice;
    var next := NextCursor(cur.start, cur.skip, |items|, total, limit, fp);
    if next.None? {
      return None;
    }
    return Some(Page(items, next.value));
  }

  // ---------- Cursors ----------

  /** Every cursor handed out is accepted again, under its own fingerprint only. */
  lemma CursorRoundTrip(c: Cursor, fp: string)
    requires EncodeCursor(c).Some?
    ensures DecodeCursor(EncodeCursor(c).value, fp) == if fp == c.fingerprint then Some(c) else None
  {
  }

  predicate Before(c: Cursor, d: Cursor) {
    c.start < d.start || (c.start == d.start && c.skip < d.skip)
  }

  /** Whatever the portal returns, a follow-up cursor is strictly later, and starts inside the reported total. */
  lemma CursorsAdvance<T>(raw: seq<Option<T>>, total: nat, cur: Cursor, limit: nat, fp: string)
    requires cur.InRange() && limit >= 1
    requires ReadPage(raw, total, cur, limit, fp).Some? && ReadPage(raw, total, cur, limit, fp).value.next != Empty
    ensures var next := ReadPage(raw, total, cur, limit, fp).value.next;
            next.Packed? && next.cursor.InRange() && Before(cur, next.cursor) && next.cursor.start < total
  {
  }

  function Rank(c: Cursor, bound: nat): nat {
    if c.start >= bound then 0 else REMOTE_PAGE * (bound - c.start) + (if c.skip < REMOTE_PAGE then REMOTE_PAGE - c.skip else 0)
  }

  lemma WalkRankDecreases<T>(raw: seq<Option<T>>, total: nat, cur: Cursor, limit: nat, fp: string, bound: nat)
    requires cur.InRange() && limit >= 1 && total <= bound
    requires ReadPage(raw, total, cur, limit, fp).Some? && ReadPage(raw, total, cur, limit, fp).value.next != Empty
    ensures Rank(ReadPage(raw, total, cur, limit, fp).value.next.cursor, bound) < Rank(cur, bound)
  {
    CursorsAdvance(raw, total, cur, limit, fp);
  }

  /** What a portal answers to one call, and the page size asked for. */
  datatype Response<T> = Response(raw: seq<Option<T>>, total: nat, limit: nat)

  /** Each response, read with the cursor handed out for the one before, hands out another one. */
  predicate Chain<T>(cur: Cursor, responses: seq<Response<T>>, bound: nat, fp: string)
    requires cur.InRange()
    decreases |responses|
  {
    responses == [] ||
    var r := responses[0];
    && r.limit >= 1 && r.total <= bound
    && var p := ReadPage(r.raw, r.total, cur, r.limit, fp);
       p.Some? && p.value.next.Packed? && p.value.next.cursor.InRange() && Chain(p.value.next.cursor, responses[1..], bound, fp)
  }

  /** Whatever the portal answers, with totals up to `bound` a walk has a bounded number of follow-up cursors. */
  lemma {:induction false} WalkIsFinite<T>(cur: Cursor, responses: seq<Response<T>>, bound: nat, fp: string)
    requires cur.InRange() && Chain(cur, responses, bound, fp)
    ensures |responses| <= Rank(cur, bound)
    decreases |responses|
  {
    if responses != [] {
      var r := responses[0];
      WalkRankDecreases(r.raw, r.total, cur, r.limit, fp, bound);
      WalkIsFinite(ReadPage(r.raw, r.total, cur, r.limit, fp).value.next.cursor, responses[1..], bound, fp);
    }
  }

  // ---------- The walk over an honest portal ----------

  function RemotePage<T>(list: seq<T>, start: nat): seq<T> {
    if start >= |list| then [] else list[start..if start + REMOTE_PAGE <= |list| then start + REMOTE_PAGE else |list|]
  }

  /** Where a cursor stands in the list. */
  ghost predicate StandsIn<T>(c: Cursor, list: seq<T>) {
    c.InRange() && (c.start + c.skip < |list| || (c.start == 0 && c.skip == 0))
  }

  /**
   The page is the next stretch of the list, of at most the limit's length. It
   is followed by a cursor exactly if something is left, and that cursor stands
   right behind it.
   */
  ghost predicate Continues<T(!new)>(list: seq<T>, cur: Cursor, limit: nat, p: Option<Page>) {
    var at := cur.start + cur.skip;
    && p.Some? && 0 <= at && at + |p.value.items| <= |list| && p.value.items == list[at..at + |p.value.items|]
    && |p.value.items| <= limit && (|list| > 0 ==> |p.value.items| > 0)
    && match DecodeCursor(p.value.next, cur.fingerprint)
       case None => false
       case Some(c) =>
         if p.value.next == Empty then at + |p.value.items| == |list|
         else StandsIn(c, list) && c.start + c.skip == at + |p.value.items|
  }

  lemma SliceOfSlice<T>(list: seq<T>, a: nat, b: nat, c: nat, d: nat)
    requires a <= b <= |list| && c <= d <= b - a
    ensures list[a..b][c..d] == list[a + c..a + d]
  {
    var x, y := list[a..b][c..d], list[a + c..a + d];
    forall k | 0 <= k < d - c ensures x[k] == y[k] {
      assert x[k] == list[a..b][c + k] == list[a + c + k];
    }
  }

  /** The portal's items, all of which can be projected. */
  function All<T>(list: seq<T>): (raw: seq<Option<T>>)
    ensures |raw| == |list| && forall i :: 0 <= i < |list| ==> raw[i] == Some(list[i])
  {
    seq(|list|, i requires 0 <= i < |list| => Some(list[i]))
  }

  lemma {:induction false} ProjectedAll<T>(list: seq<T>)
    ensures Projected(All(list)) == Some(list)
  {
    if list == [] {
    } else {
      var front := list[..|list| - 1];
      ProjectedAll(front);
      assert All(list)[..|list| - 1] == All(front);
      assert list == front + [list[|list| - 1]];
    }
  }

  lemma SliceOfAll<T>(list: seq<T>, i: nat, j: nat)
    requires i <= j <= |list|
    ensures All(list)[i..j] == All(list[i..j])
  {
  }

  /** The page before the next cursor: which items it holds, and that fewer than asked for means the end of a remote page or of the list. */
  lemma HonestItems<T>(list: seq<T>, start: nat, skip: nat, limit: nat) returns (n: nat)
    requires skip < REMOTE_PAGE && (start + skip < |list| || (start == 0 && skip == 0)) && limit >= 1
    ensures var raw := RemotePage(All(list), start);
            && |raw| <= REMOTE_PAGE && skip <= |raw| && n == (if skip + limit > |raw| then |raw| - skip else limit)
            && start + skip + n <= |list| && Projected(raw[skip..skip + n]) == Some(list[start + skip..start + skip + n])
    ensures n > 0 <==> |list| > 0
    ensures n < limit && skip + n < REMOTE_PAGE ==> start + skip + n == |list|
  {
    var raw := RemotePage(All(list), start);
    var end := if start + REMOTE_PAGE <= |list| then start + REMOTE_PAGE else |list|;
    assert raw == All(list)[start..end];
    n := if skip + limit > |raw| then |raw| - skip else limit;
    SliceOfSlice(All(list), start, end, skip, skip + n);
    SliceOfAll(list, start + skip, start + skip + n);
    ProjectedAll(list[start + skip..start + skip + n]);
  }

  lemma NextStands(start: nat, skip: nat, n: nat, total: nat, limit: nat, fp: string)
    requires start % REMOTE_PAGE == 0 && skip < REMOTE_PAGE && skip + n <= REMOTE_PAGE && start + skip + n <= total && |fp| == FINGERPRINT_LENGTH
    requires n > 0 <==> total > 0
    requires n < limit && skip + n < REMOTE_PAGE ==> start + skip + n == total
    ensures NextCursor(start, skip, n, total, limit, fp).Some?
    ensures var next, at := NextCursor(start, skip, n, total, limit, fp).value, start + skip + n;
            && !next.Garbage?
            && (next == Empty <==> at == total)
            && (next.Packed? ==> next.cursor.InRange() && next.cursor.fingerprint == fp
                                 && next.cursor.start + next.cursor.skip == at < total)
  {
    assert (start + REMOTE_PAGE) % REMOTE_PAGE == 0;
  }

  /** Every page of an honest portal continues the list, and the early stop is never taken. */
  lemma HonestPage<T(!new)>(list: seq<T>, cur: Cursor, limit: nat, fp: string)
    requires StandsIn(cur, list) && cur.fingerprint == fp && |fp| == FINGERPRINT_LENGTH && 1 <= limit <= MAX_LIMIT
    ensures var p := ReadPage(RemotePage(All(list), cur.start), |list|, cur, limit, fp);
            Continues(list, cur, limit, p) && !StopsEarly(cur.start, cur.skip, |p.value.items|, |list|, limit)
  {
    var n := HonestItems(list, cur.start, cur.skip, limit);
    NextStands(cur.start, cur.skip, n, |list|, limit, fp);
  }

  // ---------- Following the cursors ----------

  /** The items of all pages of a walk that asks for `limits[i]` items on page `i`, until the end or the last limit. */
  function Follow<T>(read: (Encoded, nat) -> Option<Page<T>>, at: Encoded, limits: seq<nat>): Option<seq<T>>
    decreases |limits|
  {
    if limits == [] then None
    else
      var p := read(at, limits[0]);
      if p.None? then None
      else if p.value.next == Empty then Some(p.value.items)
      else
        var rest := Follow(read, p.value.next, limits[1..]);
        if rest.None? then None else Some(p.value.items + rest.value)
  }

  ghost predicate PageSizes(limits: seq<nat>) {
    forall i :: 0 <= i < |limits| ==> 1 <= limits[i] <= MAX_LIMIT
  }

  /** The page takes something off `rest` and leaves what is ahead of its cursor. */
  ghost predicate TakesOff<T(!new)>(p: Option<Page<T>>, rest: seq<T>, ahead: Encoded -> Option<seq<T>>) {
    p.Some? &&
    if p.value.next == Empty then p.value.items == rest
    else p.value.items != [] && ahead(p.value.next).Some? && rest == p.value.items + ahead(p.value.next).value
  }

  /** If every page does, a finished walk has returned what was ahead, and it does finish. */
  lemma {:induction false} FollowedToTheEnd<T(!new)>(read: (Encoded, nat) -> Option<Page<T>>, ahead: Encoded -> Option<seq<T>>,
                                                     at: Encoded, limits: seq<nat>)
    requires forall a, limit :: ahead(a).Some? && 1 <= limit <= MAX_LIMIT ==> TakesOff(read(a, limit), ahead(a).value, ahead)
    requires ahead(at).Some? && PageSizes(limits)
    ensures Follow(read, at, limits).Some? ==> Follow(read, at, limits).value == ahead(at).value
    ensures |limits| > |ahead(at).value| ==> Follow(read, at, limits).Some?
    decreases |limits|
  {
    if limits != [] {
      var p := read(at, limits[0]);
      assert TakesOff(p, ahead(at).value, ahead);
      if p.value.next != Empty {
        FollowedToTheEnd(read, ahead, p.value.next, limits[1..]);
      }
    }
  }

  /** One call with a cursor text, against a portal that holds `list`. */
  function PageAt<T>(list: seq<T>, at: Encoded, limit: nat, fp: string): Option<Page<T>> {
    match DecodeCursor(at, fp)
    case None => None
    case Some(cur) => ReadPage(RemotePage(All(list), cur.start), |list|, cur, limit, fp)
  }

  function Portal<T>(list: seq<T>, fp: string): (Encoded, nat) -> Option<Page<T>> {
    (at: Encoded, limit: nat) => PageAt(list, at, limit, fp)
  }

  /** What lies at and behind a cursor that stands in the list. */
  ghost function AheadIn<T(!new)>(list: seq<T>, at: Encoded, fp: string): Option<seq<T>> {
    match DecodeCursor(at, fp)
    case None => None
    case Some(cur) => if !StandsIn(cur, list) then None else Some(list[cur.start + cur.skip..])
  }

  lemma ContinuesTakesOff<T(!new)>(list: seq<T>, cur: Cursor, limit: nat, p: Option<Page<T>>)
    requires Continues(list, cur, limit, p) && |list| > 0
    ensures TakesOff(p, list[cur.start + cur.skip..], a => AheadIn(list, a, cur.fingerprint))
  {
    var at, n := cur.start + cur.skip, |p.value.items|;
    assert list[at..] == list[at..at + n] + list[at + n..];
    if p.value.next == Empty {
      assert list[at..] == list[at..at + n];
    }
  }

  lemma HonestPageTakesOff<T(!new)>(list: seq<T>, fp: string, at: Encoded, limit: nat)
    requires |fp| == FINGERPRINT_LENGTH && AheadIn(list, at, fp).Some? && 1 <= limit <= MAX_LIMIT
    ensures TakesOff(Portal(list, fp)(at, limit), AheadIn(list, at, fp).value, a => AheadIn(list, a, fp))
  {
    var cur := DecodeCursor(at, fp).value;
    var p := PageAt(list, at, limit, fp);
    HonestPage(list, cur, limit, fp);
    if |list| > 0 {
      ContinuesTakesOff(list, cur, limit, p);
    }
  }

  /** Whatever page sizes are asked for, a finished walk has returned the rest of the list once, in order. */
  lemma {:induction false} WalkIsList<T(!new)>(list: seq<T>, at: Encoded, limits: seq<nat>, fp: string)
    requires |fp| == FINGERPRINT_LENGTH && PageSizes(limits) && AheadIn(list, at, fp).Some?
    ensures var items := Follow(Portal(list, fp), at, limits);
            && (items.Some? ==> items == AheadIn(list, at, fp))
            && (|limits| > |AheadIn(list, at, fp).value| ==> items.Some?)
  {
    var ahead := a => AheadIn(list, a, fp);
    forall a, limit | ahead(a).Some? && 1 <= limit <= MAX_LIMIT ensures TakesOff(Portal(list, fp)(a, limit), ahead(a).value, ahead) {
      HonestPageTakesOff(list, fp, a, limit);
    }
    FollowedToTheEnd(Portal(list, fp), ahead, at, limits);
  }

  /** From the first page on: the whole list, after at most one page per item and one more. */
  lemma {:induction false} FullWalk<T(!new)>(list: seq<T>, limits: seq<nat>, fp: string)
    requires |fp| == FINGERPRINT_LENGTH && PageSizes(limits) && |limits| > |list|
    ensures Follow(Portal(list, fp), Empty, limits) == Some(list)
  {
    assert AheadIn(list, Empty, fp) == Some(list[0..]);
    WalkIsList(list, Empty, limits, fp);
  }
}
