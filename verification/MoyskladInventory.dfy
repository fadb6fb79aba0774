/**
 Reading stock from MoySklad: the remote list has one row per product with a
 list of stores inside it, and is served in windows. The connector flattens it
 into balances and resumes in the middle of a row with a cursor.
 */
module MoyskladInventory {
  import opened Text
  import opened Distinctness

  const MAX_WINDOW := 100
  const MAX_STORES := 10_000
  const MAX_OFFSET := 100_000_000
  const MAX_ROW := 1000

  /** `usable` is false when an id, name or number of the entry would be refused. */
  datatype Stock = Stock(location: string, quantity: string, usable: bool)
  datatype Row = Row(product: string, usable: bool, stocks: seq<Stock>)
  datatype Balance = Balance(location: string, product: string, quantity: string)

  datatype Cursor = Cursor(offset: int, row: int, inner: int, fingerprint: string)

  /** The empty text, the encoding of a cursor, or any other text. */
  datatype Encoded = Empty | Packed(cursor: Cursor) | Garbage(text: string)

  function ParseCursor(value: Encoded, fp: string): Option<Cursor> {
    match value
    case Empty => Some(Cursor(0, 0, 0, fp))
    case Garbage(_) => None
    case Packed(c) =>
      if c.fingerprint != fp || c.offset < 0 || c.offset > MAX_OFFSET || c.row < 0 || c.row > MAX_ROW
         || c.inner < 0 || c.inner > MAX_STORES then None
      else Some(c)
  }

  /** A decoded response: what the remote says about itself, and its rows. */
  datatype Envelope = Envelope(size: int, limit: int, offset: int, rows: seq<Row>)

  predicate Acceptable(e: Envelope, limit: int, offset: int) {
    e.size >= 0 && e.limit == limit && e.offset == offset && |e.rows| <= limit && e.size >= offset + |e.rows|
  }

  function RemoteLimit(limit: nat): nat { if limit > MAX_WINDOW then MAX_WINDOW else limit }

  // ---------- The flattening, entry by entry ----------

  predicate UsableRow(r: Row) { r.usable && |r.stocks| <= MAX_STORES }

  function Entry(r: Row, k: nat): Balance
    requires k < |r.stocks|
  {
    Balance(r.stocks[k].location, r.product, r.stocks[k].quantity)
  }

  function Key(b: Balance): (string, string) { (b.location, b.product) }

  datatype Taken = Taken(items: seq<Balance>, row: nat, inner: nat)

  /** Up to `room` balances from position (`row`, `inner`), none with a key in `seen`, and where that stops. */
  function Take(rows: seq<Row>, row: nat, inner: nat, room: nat, seen: set<(string, string)>): Option<Taken>
    decreases |rows| - row, if row < |rows| && inner <= |rows[row].stocks| then |rows[row].stocks| - inner else 0
  {
    if row >= |rows| || room == 0 then Some(Taken([], row, inner))
    else if !UsableRow(rows[row]) || inner > |rows[row].stocks| then None
    else if inner == |rows[row].stocks| then Take(rows, row + 1, 0, room, seen)
    else
      var b := Entry(rows[row], inner);
      if !rows[row].stocks[inner].usable || Key(b) in seen then None
      else
        var rest :=
          if inner + 1 == |rows[row].stocks| then Take(rows, row + 1, 0, room - 1, seen + {Key(b)})
          else Take(rows, row, inner + 1, room - 1, seen + {Key(b)});
        if rest.None? then None else Some(rest.value.(items := [b] + rest.value.items))
  }

  datatype Page = Page(items: seq<Balance>, next: Encoded)

  /** The page made of what was taken from a window of `rows` rows, in a list of `size`. */
  function PageOf(cur: Cursor, rows: nat, size: int, taken: Option<Taken>): Option<Page> {
    if taken.None? then None
    else if taken.value.row < rows then
      Some(Page(taken.value.items, Packed(cur.(row := taken.value.row, inner := taken.value.inner))))
    else if cur.offset + rows < size then
      if rows == 0 then None
      else Some(Page(taken.value.items, Packed(cur.(offset := cur.offset + rows, row := 0, inner := 0))))
    else Some(Page(taken.value.items, Empty))
  }

  /** One call; `None` is an error. */
  function ReadPage(cur: Cursor, limit: nat, e: Envelope): Option<Page>
    requires cur.offset >= 0 && cur.row >= 0 && cur.inner >= 0
  {
    if !Acceptable(e, RemoteLimit(limit), cur.offset) || cur.row > |e.rows| then None
    else PageOf(cur, |e.rows|, e.size, Take(e.rows, cur.row, cur.inner, limit, {}))
  }

  // ---------- The source's nested loops ----------

  function Prepend(items: seq<Balance>, t: Option<Taken>): Option<Taken> {
    if t.None? then None else Some(t.value.(items := items + t.value.items))
  }

  lemma PrependOne(items: seq<Balance>, b: Balance, t: Option<Taken>)
    ensures Prepend(items, Prepend([b], t)) == Prepend(items + [b], t)
  {
    if t.Some? {
      assert items + ([b] + t.value.items) == items + [b] + t.value.items;
    }
  }

  lemma PrependNothing(t: Option<Taken>)
    ensures Prepend([], t) == t
  {
    if t.Some? {
      assert [] + t.value.items == t.value.items;
    }
  }

  method ReadERPInventory(cur: Cursor, limit: nat, e: Envelope) returns (r: Option<Page>)
    requires cur.offset >= 0 && cur.row >= 0 && cur.inner >= 0 && limit >= 1
    ensures r == ReadPage(cur, limit, e)
  {
    if !Acceptable(e, RemoteLimit(limit), cur.offset) {
      return None;
    }
    var items: seq<Balance> := [];
    var seen: set<(string, string)> := {};
    var rowIndex: nat, inner: nat := cur.row, cur.inner;
    if rowIndex > |e.rows| {
      return None;
    }
    ghost var all := Take(e.rows, cur.row, cur.inner, limit, {});
    PrependNothing(all);
    while rowIndex < |e.rows| && |items| < limit
      invariant rowIndex <= |e.rows| && |items| <= limit
      invariant all == Prepend(items, Take(e.rows, rowIndex, inner, limit - |items|, seen))
      decreases |e.rows| - rowIndex, limit - |items|
    {
      var row := e.rows[rowIndex];
      if !row.usable || |row.stocks| > MAX_STORES || inner > |row.stocks| {
        return None;
      }
      while inner < |row.stocks| && |items| < limit
        invariant inner <= |row.stocks| && |items| <= limit
        invariant all == Prepend(items, if inner == |row.stocks| then Take(e.rows, rowIndex + 1, 0, limit - |items|, seen)
                                        else Take(e.rows, rowIndex, inner, limit - |items|, seen))
      {
        var stock := row.stocks[inner];
        if !stock.usable {
          return None;
        }
        var item := Balance(stock.location, row.product, stock.quantity);
        if Key(item) in seen {
          return None;
        }
        PrependOne(items, item,
          if inner + 1 == |row.stocks| then Take(e.rows, rowIndex + 1, 0, limit - |items| - 1, seen + {Key(item)})
          else Take(e.rows, rowIndex, inner + 1, limit - |items| - 1, seen + {Key(item)}));
        seen := seen + {Key(item)};
        items := items + [item];
        inner := inner + 1;
      }
      if inner >= |row.stocks| {
        rowIndex := rowIndex + 1;
        inner := 0;
      }
    }
    assert all == Some(Taken(items, rowIndex, inner)) by {
      assert items + [] == items;
    }
    var hasMoreCurrent := rowIndex < |e.rows|;
    var hasMoreRemote := cur.offset + |e.rows| < e.size;
    if hasMoreCurrent || hasMoreRemote {
      var next := cur.(row := rowIndex, inner := inner);
      if !hasMoreCurrent {
        if |e.rows| == 0 {
          return None;
        }
        next := next.(offset := cur.offset + |e.rows|, row := 0, inner := 0);
      }
      return Some(Page(items, Packed(next)));
    }
    return Some(Page(items, Empty));
  }

  // ---------- The list the pages are taken from ----------

  function Entries(r: Row, k: nat): seq<Balance>
    decreases |r.stocks| - k
  {
    if k >= |r.stocks| then [] else [Entry(r, k)] + Entries(r, k + 1)
  }

  function Flatten(rows: seq<Row>): seq<Balance> {
    if rows == [] then [] else Entries(rows[0], 0) + Flatten(rows[1..])
  }

  /** Everything at and after entry `inner` of row `row`. */
  function Remaining(rows: seq<Row>, row: nat, inner: nat): seq<Balance>
    decreases |rows| - row, if row < |rows| && inner <= |rows[row].stocks| then |rows[row].stocks| - inner else 0
  {
    if row >= |rows| then []
    else if inner >= |rows[row].stocks| then Remaining(rows, row + 1, 0)
    else [Entry(rows[row], inner)] + Remaining(rows, row, inner + 1)
  }

  lemma Reassociate<T>(a: seq<T>, b: seq<T>, c: seq<T>)
    ensures (a + b) + c == a + (b + c)
  {
  }

  lemma {:induction false} EntriesLength(r: Row, k: nat)
    requires k <= |r.stocks|
    ensures |Entries(r, k)| == |r.stocks| - k
    decreases |r.stocks| - k
  {
    if k < |r.stocks| {
      EntriesLength(r, k + 1);
    }
  }

  lemma {:induction false} RemainingInRow(rows: seq<Row>, row: nat, inner: nat)
    requires row < |rows| && inner <= |rows[row].stocks|
    ensures Remaining(rows, row, inner) == Entries(rows[row], inner) + Remaining(rows, row + 1, 0)
    decreases |rows[row].stocks| - inner
  {
    var behind := Remaining(rows, row + 1, 0);
    if inner < |rows[row].stocks| {
      RemainingInRow(rows, row, inner + 1);
      Reassociate([Entry(rows[row], inner)], Entries(rows[row], inner + 1), behind);
    } else {
      assert [] + behind == behind;
    }
  }

  lemma {:induction false} RemainingIsFlattened(rows: seq<Row>, row: nat)
    requires row <= |rows|
    ensures Remaining(rows, row, 0) == Flatten(rows[row..])
    decreases |rows| - row
  {
    if row < |rows| {
      RemainingInRow(rows, row, 0);
      RemainingIsFlattened(rows, row + 1);
      assert rows[row..][1..] == rows[row + 1..];
    }
  }

  ghost predicate Usable(rows: seq<Row>) {
    forall i :: 0 <= i < |rows| ==> UsableRow(rows[i]) && forall k :: 0 <= k < |rows[i].stocks| ==> rows[i].stocks[k].usable
  }

  /** Pairwise different keys, none of them in `seen`. */
  predicate Fresh(items: seq<Balance>, seen: set<(string, string)>) {
    items == [] || (Key(items[0]) !in seen && Fresh(items[1..], seen + {Key(items[0])}))
  }

  function Keys(items: seq<Balance>): seq<(string, string)> {
    seq(|items|, i requires 0 <= i < |items| => Key(items[i]))
  }

  lemma {:induction false} FreshIff(items: seq<Balance>, seen: set<(string, string)>)
    ensures Fresh(items, seen) <==> NoRepeats(Keys(items)) && Elements(Keys(items)) !! seen
  {
    if items != [] {
      var k, rest, seen' := Key(items[0]), Keys(items[1..]), seen + {Key(items[0])};
      FreshIff(items[1..], seen');
      assert Keys(items) == [k] + rest;
      assert Elements(Keys(items)) == {k} + Elements(rest);
      if NoRepeats(rest) && k !in rest {
        assert NoRepeats(Keys(items));
      }
      if NoRepeats(Keys(items)) {
        assert forall i :: 0 <= i < |rest| ==> rest[i] == Keys(items)[i + 1];
        assert k == Keys(items)[0];
      }
    }
  }

  lemma {:induction false} FreshTail(b: Balance, rest: seq<Balance>, seen: set<(string, string)>)
    requires Fresh([b] + rest, seen)
    ensures Key(b) !in seen && Fresh(rest, seen + {Key(b)})
  {
    assert ([b] + rest)[1..] == rest;
  }

  lemma {:induction false} FreshAgainstFewer(items: seq<Balance>, seen: set<(string, string)>, fewer: set<(string, string)>)
    requires Fresh(items, seen) && fewer <= seen
    ensures Fresh(items, fewer)
  {
    if items != [] {
      FreshAgainstFewer(items[1..], seen + {Key(items[0])}, fewer + {Key(items[0])});
    }
  }

  lemma {:induction false} FreshPrefix(a: seq<Balance>, b: seq<Balance>, seen: set<(string, string)>)
    requires Fresh(a + b, seen)
    ensures Fresh(a, seen)
  {
    if a != [] {
      assert (a + b)[1..] == a[1..] + b;
      FreshPrefix(a[1..], b, seen + {Key(a[0])});
    }
  }

  /** `t` is the next stretch of the list from a position: up to `room` entries, and fewer only at the end. */
  ghost predicate Stretch(rows: seq<Row>, row: nat, inner: nat, room: nat, t: Option<Taken>) {
    && t.Some? && row <= t.value.row <= |rows| && |t.value.items| <= room
    && Remaining(rows, row, inner) == t.value.items + Remaining(rows, t.value.row, t.value.inner)
    && (t.value.row < |rows| ==> t.value.inner <= |rows[t.value.row].stocks| && |t.value.items| == room)
  }

  lemma StretchGrows(rows: seq<Row>, row: nat, inner: nat, room: nat, row': nat, inner': nat, rest: Option<Taken>)
    requires row < |rows| && inner < |rows[row].stocks| && room >= 1 && row <= row'
    requires Remaining(rows, row', inner') == Remaining(rows, row, inner + 1)
    requires Stretch(rows, row', inner', room - 1, rest)
    ensures Stretch(rows, row, inner, room, Prepend([Entry(rows[row], inner)], rest))
  {
    var t := rest.value;
    Reassociate([Entry(rows[row], inner)], t.items, Remaining(rows, t.row, t.inner));
  }

  lemma TakeOne(rows: seq<Row>, row: nat, inner: nat, room: nat, seen: set<(string, string)>)
    requires row < |rows| && room >= 1 && UsableRow(rows[row]) && inner < |rows[row].stocks|
    requires rows[row].stocks[inner].usable && Key(Entry(rows[row], inner)) !in seen
    ensures var b := Entry(rows[row], inner);
            Take(rows, row, inner, room, seen) ==
            Prepend([b], if inner + 1 == |rows[row].stocks| then Take(rows, row + 1, 0, room - 1, seen + {Key(b)})
                         else Take(rows, row, inner + 1, room - 1, seen + {Key(b)}))
  {
  }

  /** Whatever the rows, what is taken is the next stretch of the list, and stops right behind it. */
  lemma {:induction false} TakeIsStretch(rows: seq<Row>, row: nat, inner: nat, room: nat, seen: set<(string, string)>)
    requires row <= |rows| && (row < |rows| ==> inner <= |rows[row].stocks|)
    requires Take(rows, row, inner, room, seen).Some?
    ensures Stretch(rows, row, inner, room, Take(rows, row, inner, room, seen))
    decreases |rows| - row, if row < |rows| && inner <= |rows[row].stocks| then |rows[row].stocks| - inner else 0
  {
    if row < |rows| && room > 0 {
      if inner == |rows[row].stocks| {
        TakeIsStretch(rows, row + 1, 0, room, seen);
      } else {
        var b := Entry(rows[row], inner);
        TakeOne(rows, row, inner, room, seen);
        var row', inner' := if inner + 1 == |rows[row].stocks| then row + 1 else row, if inner + 1 == |rows[row].stocks| then 0 else inner + 1;
        assert Remaining(rows, row', inner') == Remaining(rows, row, inner + 1);
        TakeIsStretch(rows, row', inner', room - 1, seen + {Key(b)});
        StretchGrows(rows, row, inner, room, row', inner', Take(rows, row', inner', room - 1, seen + {Key(b)}));
      }
    }
  }

  // ---------- Which pages are refused ----------

  /** How many entries stand between a position and the beginning of row `i`; negative inside that row. */
  function Distance(rows: seq<Row>, row: nat, inner: nat, i: nat): int {
    |Remaining(rows, row, inner)| - |Remaining(rows, i, 0)|
  }

  /** The page is not full when it gets to row `i`. */
  predicate RowReached(rows: seq<Row>, row: nat, inner: nat, room: nat, i: nat) {
    room > 0 && row <= i < |rows| && Distance(rows, row, inner, i) < room
  }

  /** Entry `k` of row `i` is one of the next `room` entries. */
  predicate EntryReached(rows: seq<Row>, row: nat, inner: nat, room: nat, i: nat, k: nat) {
    row <= i < |rows| && k < |rows[i].stocks| && 0 <= Distance(rows, row, inner, i) + k < room
  }

  /** No row and no entry that the page gets to is refused for its fields. */
  ghost predicate ReachedUsable(rows: seq<Row>, row: nat, inner: nat, room: nat) {
    && (forall i: nat :: RowReached(rows, row, inner, room, i) ==> UsableRow(rows[i]))
    && (forall i: nat, k: nat :: EntryReached(rows, row, inner, room, i, k) ==> rows[i].stocks[k].usable)
  }

  function First<T>(s: seq<T>, n: nat): seq<T> { if n <= |s| then s[..n] else s }

  lemma {:induction false} LaterRowsFollow(rows: seq<Row>, row: nat, inner: nat, i: nat)
    requires row < i <= |rows| && inner <= |rows[row].stocks|
    ensures Distance(rows, row, inner, i) >= |rows[row].stocks| - inner
    decreases i - row
  {
    RemainingInRow(rows, row, inner);
    EntriesLength(rows[row], inner);
    if row + 1 < i {
      LaterRowsFollow(rows, row + 1, 0, i);
    }
  }

  lemma DistanceInRow(rows: seq<Row>, row: nat, inner: nat)
    requires row < |rows| && inner <= |rows[row].stocks|
    ensures Distance(rows, row, inner, row) == 0 - inner
  {
    RemainingInRow(rows, row, inner);
    RemainingInRow(rows, row, 0);
    EntriesLength(rows[row], inner);
    EntriesLength(rows[row], 0);
  }

  /** At the end of a row, what is reached is the row and what is reached from the next one. */
  lemma ReachedBehindRow(rows: seq<Row>, row: nat, room: nat)
    requires row < |rows| && room > 0
    ensures ReachedUsable(rows, row, |rows[row].stocks|, room) <==> UsableRow(rows[row]) && ReachedUsable(rows, row + 1, 0, room)
  {
    var n := |rows[row].stocks|;
    assert Remaining(rows, row, n) == Remaining(rows, row + 1, 0);
    DistanceInRow(rows, row, n);
    assert RowReached(rows, row, n, room, row);
    forall i: nat ensures RowReached(rows, row, n, room, i) <==> i == row || RowReached(rows, row + 1, 0, room, i) {
      if i > row && i < |rows| {
        assert Distance(rows, row, n, i) == Distance(rows, row + 1, 0, i);
      }
    }
    forall i: nat, k: nat ensures EntryReached(rows, row, n, room, i, k) <==> EntryReached(rows, row + 1, 0, room, i, k) {
      if i > row && i < |rows| {
        assert Distance(rows, row, n, i) == Distance(rows, row + 1, 0, i);
      }
    }
  }

  /** At an entry, what is reached is its row, the entry, and what is reached behind it with one place less. */
  lemma ReachedBehindEntry(rows: seq<Row>, row: nat, inner: nat, room: nat, row': nat, inner': nat)
    requires row < |rows| && inner < |rows[row].stocks| && room > 0 && UsableRow(rows[row])
    requires if inner + 1 == |rows[row].stocks| then row' == row + 1 && inner' == 0 else row' == row && inner' == inner + 1
    ensures ReachedUsable(rows, row, inner, room) <==> rows[row].stocks[inner].usable && ReachedUsable(rows, row', inner', room - 1)
  {
    DistanceInRow(rows, row, inner);
    assert |Remaining(rows, row, inner)| == 1 + |Remaining(rows, row', inner')|;
    assert EntryReached(rows, row, inner, room, row, inner);
    forall i: nat | i != row ensures RowReached(rows, row, inner, room, i) <==> RowReached(rows, row', inner', room - 1, i) {
      if row < i < |rows| {
        LaterRowsFollow(rows, row, inner, i);
      }
    }
    forall i: nat, k: nat | !(i == row && k == inner)
      ensures EntryReached(rows, row, inner, room, i, k) <==> EntryReached(rows, row', inner', room - 1, i, k)
    {
      if row < i < |rows| {
        LaterRowsFollow(rows, row, inner, i);
      }
    }
  }

  /**
   A page is refused exactly if it reaches a row or an entry that is, or if a key
   occurs twice among its entries, or is seen already: told from the rows alone.
   */
  lemma {:induction false} TakenIff(rows: seq<Row>, row: nat, inner: nat, room: nat, seen: set<(string, string)>)
    requires row <= |rows| && (row < |rows| ==> inner <= |rows[row].stocks|)
    ensures Take(rows, row, inner, room, seen).Some?
       <==> ReachedUsable(rows, row, inner, room) && Fresh(First(Remaining(rows, row, inner), room), seen)
    decreases |rows| - row, if row < |rows| && inner <= |rows[row].stocks| then |rows[row].stocks| - inner else 0
  {
    if row >= |rows| || room == 0 {
      NothingReached(rows, row, inner, room);
    } else if !UsableRow(rows[row]) {
      DistanceInRow(rows, row, inner);
      assert RowReached(rows, row, inner, room, row);
    } else if inner == |rows[row].stocks| {
      ReachedBehindRow(rows, row, room);
      TakenIff(rows, row + 1, 0, room, seen);
    } else {
      TakenOneIff(rows, row, inner, room, seen);
      var row', inner' := if inner + 1 == |rows[row].stocks| then row + 1 else row, if inner + 1 == |rows[row].stocks| then 0 else inner + 1;
      TakenIff(rows, row', inner', room - 1, seen + {Key(Entry(rows[row], inner))});
    }
  }

  lemma {:induction false} NothingReached(rows: seq<Row>, row: nat, inner: nat, room: nat)
    requires row >= |rows| || (room == 0 && inner <= |rows[row].stocks|)
    ensures ReachedUsable(rows, row, inner, room) && First(Remaining(rows, row, inner), room) == []
  {
  }

  lemma {:induction false} FreshOne(b: Balance, rest: seq<Balance>, room: nat, seen: set<(string, string)>)
    requires room > 0
    ensures Fresh(First([b] + rest, room), seen) <==> Key(b) !in seen && Fresh(First(rest, room - 1), seen + {Key(b)})
  {
    assert First([b] + rest, room) == [b] + First(rest, room - 1);
    assert ([b] + First(rest, room - 1))[1..] == First(rest, room - 1);
  }

  lemma TakenOneIff(rows: seq<Row>, row: nat, inner: nat, room: nat, seen: set<(string, string)>)
    requires row < |rows| && room >= 1 && UsableRow(rows[row]) && inner < |rows[row].stocks|
    ensures var b, last := Entry(rows[row], inner), inner + 1 == |rows[row].stocks|;
            var row', inner' := if last then row + 1 else row, if last then 0 else inner + 1;
            && (Take(rows, row, inner, room, seen).Some?
                <==> rows[row].stocks[inner].usable && Key(b) !in seen && Take(rows, row', inner', room - 1, seen + {Key(b)}).Some?)
            && (ReachedUsable(rows, row, inner, room) <==> rows[row].stocks[inner].usable && ReachedUsable(rows, row', inner', room - 1))
            && (Fresh(First(Remaining(rows, row, inner), room), seen)
                <==> Key(b) !in seen && Fresh(First(Remaining(rows, row', inner'), room - 1), seen + {Key(b)}))
  {
    var last := inner + 1 == |rows[row].stocks|;
    var row', inner' := if last then row + 1 else row, if last then 0 else inner + 1;
    ReachedBehindEntry(rows, row, inner, room, row', inner');
    assert Remaining(rows, row, inner) == [Entry(rows[row], inner)] + Remaining(rows, row', inner');
    FreshOne(Entry(rows[row], inner), Remaining(rows, row', inner'), room, seen);
  }

  /**
   A call is refused exactly if the remote's figures do not fit the request, the
   cursor points behind the rows it is served, the page reaches something unusable
   or repeats a key, or there should be rows and are none.
   */
  lemma RefusedIff(c: Cursor, limit: nat, e: Envelope)
    requires c.offset >= 0 && c.row >= 0 && c.inner >= 0 && limit >= 1
    ensures ReadPage(c, limit, e).None? <==>
              var w := if limit > 100 then 100 else limit;
              || e.limit != w || e.offset != c.offset || |e.rows| > w || e.size < c.offset + |e.rows|
              || c.row > |e.rows| || (c.row < |e.rows| && c.inner > |e.rows[c.row].stocks|)
              || !ReachedUsable(e.rows, c.row, c.inner, limit)
              || !NoRepeats(Keys(First(Remaining(e.rows, c.row, c.inner), limit)))
              || (|e.rows| == 0 && c.offset < e.size)
  {
    if c.row <= |e.rows| {
      if c.row < |e.rows| && c.inner > |e.rows[c.row].stocks| {
        assert Take(e.rows, c.row, c.inner, limit, {}).None?;
      } else {
        TakenIff(e.rows, c.row, c.inner, limit, {});
        FreshIff(First(Remaining(e.rows, c.row, c.inner), limit), {});
        if Take(e.rows, c.row, c.inner, limit, {}).Some? {
          TakeIsStretch(e.rows, c.row, c.inner, limit, {});
        }
      }
    }
  }

  /** And otherwise it returns the next entries, up to the limit, whatever the remote is like. */
  lemma PageIsStretch(c: Cursor, limit: nat, e: Envelope)
    requires c.offset >= 0 && c.row >= 0 && c.inner >= 0 && ReadPage(c, limit, e).Some?
    requires c.row < |e.rows| ==> c.inner <= |e.rows[c.row].stocks|
    ensures ReadPage(c, limit, e).value.items == First(Remaining(e.rows, c.row, c.inner), limit)
  {
    TakeIsStretch(e.rows, c.row, c.inner, limit, {});
    var t := Take(e.rows, c.row, c.inner, limit, {}).value;
    if t.row == |e.rows| {
      assert Remaining(e.rows, t.row, t.inner) == [];
    }
  }

  // ---------- An honest remote ----------

  /** Usable rows, and no store listed twice for a product anywhere in the list. */
  ghost predicate Good(all: seq<Row>) {
    Usable(all) && NoRepeats(Keys(Flatten(all)))
  }

  function Window(all: seq<Row>, offset: nat, limit: nat): seq<Row> {
    if offset >= |all| then [] else all[offset..if offset + limit <= |all| then offset + limit else |all|]
  }

  function Answer(all: seq<Row>, offset: nat, limit: nat): Envelope {
    Envelope(|all|, limit, offset, Window(all, offset, limit))
  }

  function Ahead(all: seq<Row>, c: Cursor): seq<Balance>
    requires c.offset >= 0 && c.row >= 0 && c.inner >= 0
  {
    Remaining(all, c.offset + c.row, c.inner)
  }

  /** The page holds the next stretch of the list and its cursor stands right behind that. */
  ghost predicate Continues(all: seq<Row>, c: Cursor, limit: nat, p: Option<Page>)
    requires c.offset >= 0 && c.row >= 0 && c.inner >= 0
  {
    && p.Some? && |p.value.items| <= limit
    && match p.value.next
       case Empty => Ahead(all, c) == p.value.items
       case Packed(d) => d.offset >= 0 && d.row >= 0 && d.inner >= 0 && Ahead(all, c) == p.value.items + Ahead(all, d)
       case Garbage(_) => false
  }

  /** A cursor inside the current window, or at its start. */
  ghost predicate Inside(all: seq<Row>, c: Cursor, window: nat) {
    && 0 <= c.offset <= |all| && 0 <= c.row && 0 <= c.inner
    && if c.row < window && c.offset + c.row < |all| then c.inner <= |all[c.offset + c.row].stocks|
       else c.row == 0 && c.inner == 0
  }

  lemma {:induction false} AheadIsFresh(all: seq<Row>, row: nat, inner: nat)
    requires Good(all) && row <= |all| && (row < |all| ==> inner <= |all[row].stocks|)
    ensures Fresh(Remaining(all, row, inner), {})
    decreases row, inner
  {
    if row == |all| && row > 0 {
      AheadIsFresh(all, row - 1, |all[row - 1].stocks|);
    } else if row < |all| && inner > 0 {
      AheadIsFresh(all, row, inner - 1);
      FreshTail(Entry(all[row], inner - 1), Remaining(all, row, inner), {});
      FreshAgainstFewer(Remaining(all, row, inner), {} + {Key(Entry(all[row], inner - 1))}, {});
    } else if row > 0 {
      AheadIsFresh(all, row - 1, |all[row - 1].stocks|);
    } else {
      RemainingIsFlattened(all, 0);
      assert all[0..] == all;
      FreshIff(Flatten(all), {});
    }
  }

  lemma {:induction false} FlattenConcat(a: seq<Row>, b: seq<Row>)
    ensures Flatten(a + b) == Flatten(a) + Flatten(b)
  {
    if a == [] {
      assert a + b == b;
    } else {
      assert (a + b)[1..] == a[1..] + b;
      FlattenConcat(a[1..], b);
      Reassociate(Entries(a[0], 0), Flatten(a[1..]), Flatten(b));
    }
  }

  lemma {:induction false} RestOfRowThenRows(rows: seq<Row>, row: nat, inner: nat)
    requires row < |rows| && inner <= |rows[row].stocks|
    ensures Remaining(rows, row, inner) == Entries(rows[row], inner) + Flatten(rows[row + 1..])
  {
    RemainingInRow(rows, row, inner);
    RemainingIsFlattened(rows, row + 1);
  }

  /** What lies ahead in the whole list is what lies ahead in the window, then everything behind the window. */
  lemma AheadOfWindow(all: seq<Row>, offset: nat, w: nat, row: nat, inner: nat)
    requires offset + w <= |all| && row <= w && (row < w ==> inner <= |all[offset + row].stocks|) && (row == w ==> inner == 0)
    ensures Remaining(all, offset + row, inner) == Remaining(all[offset..offset + w], row, inner) + Remaining(all, offset + w, 0)
  {
    var window := all[offset..offset + w];
    if row < w {
      assert all[offset + row + 1..] == window[row + 1..] + all[offset + w..];
      FlattenConcat(window[row + 1..], all[offset + w..]);
      Reassociate(Entries(window[row], inner), Flatten(window[row + 1..]), Flatten(all[offset + w..]));
      RestOfRowThenRows(all, offset + row, inner);
      RestOfRowThenRows(window, row, inner);
      RemainingIsFlattened(all, offset + w);
    }
  }

  /** What was taken from the window `offset..offset + w` is the next stretch of the whole list. */
  ghost predicate WindowStretch(all: seq<Row>, offset: nat, w: nat, row: nat, inner: nat, room: nat, t: Option<Taken>) {
    && offset + w <= |all| && t.Some? && row <= t.value.row <= w && |t.value.items| <= room
    && Remaining(all, offset + row, inner)
       == t.value.items + Remaining(all, offset + t.value.row, if t.value.row < w then t.value.inner else 0)
    && (t.value.row < w ==> t.value.inner <= |all[offset + t.value.row].stocks| && |t.value.items| == room)
  }

  /** From a cursor inside the window, the page continues the list; its own cursor is inside the same window, or at the start of the next. */
  lemma HonestPage(all: seq<Row>, c: Cursor, limit: nat)
    requires Good(all) && limit >= 1 && Inside(all, c, RemoteLimit(limit))
    ensures HandsOver(all, c, limit, ReadPage(c, limit, Answer(all, c.offset, RemoteLimit(limit))))
  {
    var w := WindowOf(all, c, limit);
    StretchOfWindow(all, c.offset, w, c.row, c.inner, limit);
    StretchHandsOver(all, c, limit, w, Take(all[c.offset..c.offset + w], c.row, c.inner, limit, {}));
  }

  /** What the honest remote serves for a cursor inside the window. */
  lemma WindowOf(all: seq<Row>, c: Cursor, limit: nat) returns (w: nat)
    requires limit >= 1 && Inside(all, c, RemoteLimit(limit))
    ensures w <= RemoteLimit(limit) && c.offset + w <= |all| && (w < RemoteLimit(limit) ==> c.offset + w == |all|)
    ensures c.row <= w && (c.row < w ==> c.inner <= |all[c.offset + c.row].stocks|) && (c.row == w ==> c.inner == 0)
    ensures ReadPage(c, limit, Answer(all, c.offset, RemoteLimit(limit)))
         == PageOf(c, w, |all|, Take(all[c.offset..c.offset + w], c.row, c.inner, limit, {}))
  {
    var window := Window(all, c.offset, RemoteLimit(limit));
    w := |window|;
    assert window == all[c.offset..c.offset + w];
  }

  /** The page continues the list, and its cursor can be followed: inside the window, and past this page's entries or rows. */
  ghost predicate HandsOver(all: seq<Row>, c: Cursor, limit: nat, p: Option<Page>)
    requires c.offset >= 0 && c.row >= 0 && c.inner >= 0
  {
    && Continues(all, c, limit, p)
    && (p.value.next.Packed? ==>
          var d := p.value.next.cursor;
          && Inside(all, d, RemoteLimit(limit)) && d.fingerprint == c.fingerprint && c.offset <= d.offset < |all|
          && (|p.value.items| >= 1 || d.offset > c.offset))
  }

  lemma StretchHandsOver(all: seq<Row>, c: Cursor, limit: nat, w: nat, t: Option<Taken>)
    requires Inside(all, c, RemoteLimit(limit)) && limit >= 1 && w <= RemoteLimit(limit)
    requires w < RemoteLimit(limit) ==> c.offset + w == |all|
    requires WindowStretch(all, c.offset, w, c.row, c.inner, limit, t)
    ensures HandsOver(all, c, limit, PageOf(c, w, |all|, t))
  {
  }

  /** A stretch of the window is a stretch of the list. */
  lemma StretchMoved(all: seq<Row>, offset: nat, w: nat, row: nat, inner: nat, room: nat, t: Option<Taken>)
    requires offset + w <= |all| && row <= w && (row < w ==> inner <= |all[offset + row].stocks|) && (row == w ==> inner == 0)
    requires Stretch(all[offset..offset + w], row, inner, room, t)
    ensures WindowStretch(all, offset, w, row, inner, room, t)
  {
    var window, taken := all[offset..offset + w], t.value;
    var inner' := if taken.row < w then taken.inner else 0;
    var ahead, ahead' := Remaining(all, offset + row, inner), Remaining(all, offset + taken.row, inner');
    AheadOfWindow(all, offset, w, row, inner);
    assert ahead' == Remaining(window, taken.row, inner') + Remaining(all, offset + w, 0) by {
      assert taken.row < w ==> window[taken.row] == all[offset + taken.row];
      AheadOfWindow(all, offset, w, taken.row, inner');
    }
    StretchThrough(taken.items, Remaining(window, row, inner), Remaining(window, taken.row, inner'), Remaining(all, offset + w, 0),
                   ahead, ahead');
    assert taken.row < w ==> taken.inner <= |all[offset + taken.row].stocks|;
  }

  lemma StretchThrough<T>(items: seq<T>, inside: seq<T>, inside': seq<T>, behind: seq<T>, ahead: seq<T>, ahead': seq<T>)
    requires inside == items + inside' && ahead == inside + behind && ahead' == inside' + behind
    ensures ahead == items + ahead'
  {
  }

  /** Taking from a window takes from the list. */
  lemma StretchOfWindow(all: seq<Row>, offset: nat, w: nat, row: nat, inner: nat, room: nat)
    requires Good(all) && offset + w <= |all| && row <= w && room >= 1
    requires (row < w ==> inner <= |all[offset + row].stocks|) && (row == w ==> inner == 0)
    ensures WindowStretch(all, offset, w, row, inner, room, Take(all[offset..offset + w], row, inner, room, {}))
  {
    var window := all[offset..offset + w];
    assert row < w ==> window[row] == all[offset + row];
    WindowIsUsable(all, offset, offset + w);
    RestIsFresh(all, offset, w, row, inner);
    WindowIsFresh(all, offset, w, row, inner);
    FreshIsTaken(window, row, inner, room);
    TakeIsStretch(window, row, inner, room, {});
    StretchMoved(all, offset, w, row, inner, room, Take(window, row, inner, room, {}));
  }

  /** Usable rows without repeated keys are never refused. */
  lemma {:induction false} FreshIsTaken(rows: seq<Row>, row: nat, inner: nat, room: nat)
    requires Usable(rows) && row <= |rows| && (row < |rows| ==> inner <= |rows[row].stocks|)
    requires Fresh(Remaining(rows, row, inner), {})
    ensures Take(rows, row, inner, room, {}).Some?
  {
    var all := Remaining(rows, row, inner);
    TakenIff(rows, row, inner, room, {});
    assert ReachedUsable(rows, row, inner, room);
    if room <= |all| {
      assert all == First(all, room) + all[room..];
      FreshPrefix(First(all, room), all[room..], {});
    }
  }

  lemma WindowIsUsable(all: seq<Row>, from: nat, to: nat)
    requires Usable(all) && from <= to <= |all|
    ensures Usable(all[from..to])
  {
    assert forall i :: 0 <= i < to - from ==> all[from..to][i] == all[from + i];
  }

  lemma RestIsFresh(all: seq<Row>, offset: nat, w: nat, row: nat, inner: nat)
    requires Good(all) && offset + w <= |all| && row <= w
    requires (row < w ==> inner <= |all[offset + row].stocks|) && (row == w ==> inner == 0)
    ensures Fresh(Remaining(all, offset + row, inner), {})
  {
    if offset + row < |all| {
      AheadIsFresh(all, offset + row, inner);
    } else {
      AheadIsFresh(all, |all|, 0);
    }
  }

  lemma WindowIsFresh(all: seq<Row>, offset: nat, w: nat, row: nat, inner: nat)
    requires offset + w <= |all| && row <= w && (row < w ==> inner <= |all[offset + row].stocks|) && (row == w ==> inner == 0)
    requires Fresh(Remaining(all, offset + row, inner), {})
    ensures Fresh(Remaining(all[offset..offset + w], row, inner), {})
  {
    AheadOfWindow(all, offset, w, row, inner);
    FreshPrefix(Remaining(all[offset..offset + w], row, inner), Remaining(all, offset + w, 0), {});
  }

  /**
   A smaller window on the next call breaks the continuation in one case: from a
   cursor anywhere in the list, the page continues it exactly if the window still
   reaches past the cursor's row, or ends right before that row and the cursor
   is at the row's start. Otherwise the call fails, or begins the row again.
   */
  lemma ContinuesIff(all: seq<Row>, c: Cursor, limit: nat)
    requires Good(all) && limit >= 1
    requires c.offset >= 0 && c.row >= 0 && c.inner >= 0 && c.offset + c.row < |all|
    requires c.inner <= |all[c.offset + c.row].stocks|
    ensures Continues(all, c, limit, ReadPage(c, limit, Answer(all, c.offset, RemoteLimit(limit))))
       <==> c.row < RemoteLimit(limit) || (c.row == RemoteLimit(limit) && c.inner == 0)
  {
    var w := RemoteLimit(limit);
    if c.row < w {
      HonestPage(all, c, limit);
    } else if c.row == w {
      var window := Window(all, c.offset, w);
      assert |window| == w && Take(window, c.row, c.inner, limit, {}) == Some(Taken([], c.row, c.inner));
      var d := c.(offset := c.offset + w, row := 0, inner := 0);
      assert ReadPage(c, limit, Answer(all, c.offset, w)) == Some(Page([], Packed(d)));
      RemainingInRow(all, c.offset + c.row, c.inner);
      RemainingInRow(all, c.offset + c.row, 0);
      EntriesLength(all[c.offset + c.row], c.inner);
      EntriesLength(all[c.offset + c.row], 0);
      assert |Ahead(all, d)| == |Ahead(all, c)| + c.inner;
    }
  }

  /** Every cursor handed out for a list of at most 100000001 rows is accepted by the next call, under its own fingerprint only. */
  lemma CursorAccepted(all: seq<Row>, c: Cursor, window: nat, fp: string)
    requires Usable(all) && |all| <= MAX_OFFSET + 1 && window <= MAX_WINDOW
    requires Inside(all, c, window) && c.offset < |all|
    ensures ParseCursor(Packed(c), fp) == if fp == c.fingerprint then Some(c) else None
  {
  }

  // ---------- Walks ----------

  /** The entries of all pages of a walk asking for `limits[i]` entries on page `i`, until the end or the last limit. */
  function Walk(all: seq<Row>, at: Encoded, limits: seq<nat>, fp: string): Option<seq<Balance>>
    decreases |limits|
  {
    if limits == [] || ParseCursor(at, fp).None? then None
    else
      var c := ParseCursor(at, fp).value;
      var p := ReadPage(c, limits[0], Answer(all, c.offset, RemoteLimit(limits[0])));
      if p.None? then None
      else if p.value.next == Empty then Some(p.value.items)
      else
        var rest := Walk(all, p.value.next, limits[1..], fp);
        if rest.None? then None else Some(p.value.items + rest.value)
  }

  /** Limits whose windows never shrink. */
  ghost predicate NeverShrinking(limits: seq<nat>) {
    && (forall i :: 0 <= i < |limits| ==> limits[i] >= 1)
    && (forall i, j :: 0 <= i < j < |limits| ==> RemoteLimit(limits[i]) <= RemoteLimit(limits[j]))
  }

  lemma {:induction false} WalkIsRest(all: seq<Row>, at: Encoded, limits: seq<nat>, fp: string)
    requires Good(all) && |all| <= MAX_OFFSET + 1 && NeverShrinking(limits)
    requires ParseCursor(at, fp).Some? && limits != [] ==> Inside(all, ParseCursor(at, fp).value, RemoteLimit(limits[0]))
    ensures Walk(all, at, limits, fp).Some? ==> Walk(all, at, limits, fp).value == Ahead(all, ParseCursor(at, fp).value)
    ensures limits != [] && ParseCursor(at, fp).Some? && |limits| > |Ahead(all, ParseCursor(at, fp).value)| + |all| - ParseCursor(at, fp).value.offset
        ==> Walk(all, at, limits, fp).Some?
    decreases |limits|
  {
    if limits != [] && ParseCursor(at, fp).Some? {
      var c := ParseCursor(at, fp).value;
      HonestPage(all, c, limits[0]);
      var p := ReadPage(c, limits[0], Answer(all, c.offset, RemoteLimit(limits[0]))).value;
      if p.next != Empty {
        CursorAccepted(all, p.next.cursor, RemoteLimit(limits[0]), fp);
        if |limits| > 1 {
          assert RemoteLimit(limits[0]) <= RemoteLimit(limits[1..][0]);
        }
        WalkIsRest(all, p.next, limits[1..], fp);
      }
    }
  }

  /** Following the cursors from the start returns the flattened list once, in order, and finishes. */
  lemma {:induction false} FullWalk(all: seq<Row>, limits: seq<nat>, fp: string)
    requires Good(all) && |all| <= MAX_OFFSET + 1 && NeverShrinking(limits)
    requires |limits| > |Flatten(all)| + |all|
    ensures Walk(all, Empty, limits, fp) == Some(Flatten(all))
  {
    RemainingIsFlattened(all, 0);
    assert all[0..] == all;
    WalkIsRest(all, Empty, limits, fp);
  }

  /** A cursor handed out for a page of two, followed by a page of one: the walk falls back to the start of the row. */
  lemma ShrinkingWindowExample(fp: string) returns (all: seq<Row>, c: Cursor)
    ensures Good(all)
    ensures ReadPage(Cursor(0, 0, 0, fp), 2, Answer(all, 0, 2)).Some?
    ensures ReadPage(Cursor(0, 0, 0, fp), 2, Answer(all, 0, 2)).value.next == Packed(c)
    ensures !Continues(all, c, 1, ReadPage(c, 1, Answer(all, c.offset, 1)))
  {
    var a := Row("a", true, [Stock("s", "1", true)]);
    var b := Row("b", true, [Stock("s", "2", true), Stock("t", "3", true)]);
    all, c := [a, b], Cursor(0, 1, 1, fp);
    var ba, bs, bt := Balance("s", "a", "1"), Balance("s", "b", "2"), Balance("t", "b", "3");
    assert Entries(a, 0) == [ba] && Entries(b, 1) == [bt] && Entries(b, 0) == [bs, bt];
    assert all[1..] == [b] && [b][1..] == [];
    assert Flatten([b]) == [bs, bt];
    assert Flatten(all) == Entries(all[0], 0) + Flatten(all[1..]) == [ba] + [bs, bt];
    assert Flatten(all) == [ba, bs, bt];
    assert "a" != "b" && "s" != "t" by {
      assert "a"[0] != "b"[0] && "s"[0] != "t"[0];
    }
    assert Entry(all[0], 0) == ba && Entry(all[1], 0) == bs && Key(bs) != Key(ba);
    var seen: set<(string, string)> := {} + {Key(ba)};
    assert Take(all, 1, 1, 0, seen + {Key(bs)}) == Some(Taken([], 1, 1));
    assert Take(all, 1, 0, 1, seen).value.items == [bs] + [];
    assert Take(all, 0, 0, 2, {}) == Some(Taken([ba] + ([bs] + []), 1, 1));
    assert Window(all, 0, 2) == all;
    ContinuesIff(all, c, 1);
  }

  // ---------- Termination, whatever the remote returns ----------

  predicate Before(c: Cursor, d: Cursor) {
    c.offset < d.offset || (c.offset == d.offset && (c.row < d.row || (c.row == d.row && c.inner < d.inner)))
  }

  lemma {:induction false} TakeAdvances(rows: seq<Row>, row: nat, inner: nat, room: nat, seen: set<(string, string)>)
    requires row < |rows| && room >= 1 && Take(rows, row, inner, room, seen).Some?
    ensures var t := Take(rows, row, inner, room, seen).value;
            && row <= t.row <= |rows| && (t.row > row || t.inner > inner)
            && (t.row < |rows| ==> t.inner <= MAX_STORES)
    decreases |rows| - row, if row < |rows| && inner <= |rows[row].stocks| then |rows[row].stocks| - inner else 0
  {
    if inner == |rows[row].stocks| {
      if row + 1 < |rows| {
        TakeAdvances(rows, row + 1, 0, room, seen);
      }
    } else {
      var seen' := seen + {Key(Entry(rows[row], inner))};
      if room > 1 {
        if inner + 1 < |rows[row].stocks| {
          TakeAdvances(rows, row, inner + 1, room - 1, seen');
        } else if row + 1 < |rows| {
          TakeAdvances(rows, row + 1, 0, room - 1, seen');
        }
      }
    }
  }

  /** A follow-up cursor is strictly later than the one before, for any response at all. */
  lemma CursorsAdvance(c: Cursor, limit: nat, e: Envelope)
    requires c.offset >= 0 && c.row >= 0 && c.inner >= 0 && limit >= 1
    requires ReadPage(c, limit, e).Some? && ReadPage(c, limit, e).value.next != Empty
    ensures var next := ReadPage(c, limit, e).value.next;
            && next.Packed? && Before(c, next.cursor)
            && next.cursor.offset < e.size && next.cursor.row < MAX_WINDOW && next.cursor.inner <= MAX_STORES
  {
    if c.row < |e.rows| {
      TakeAdvances(e.rows, c.row, c.inner, limit, {});
    }
  }

  /** With totals of at most `bound`, the position of a cursor as one number that every page makes smaller. */
  function Rank(c: Cursor, bound: nat): int {
    1_000_000_000 * (bound - c.offset) - 100_000 * c.row - c.inner
  }

  lemma WalkRankDecreases(c: Cursor, limit: nat, e: Envelope, bound: nat)
    requires 0 <= c.offset && 0 <= c.row <= MAX_ROW && 0 <= c.inner <= MAX_STORES && limit >= 1 && e.size <= bound
    requires ReadPage(c, limit, e).Some? && ReadPage(c, limit, e).value.next != Empty
    ensures 0 <= Rank(ReadPage(c, limit, e).value.next.cursor, bound) < Rank(c, bound)
  {
    CursorsAdvance(c, limit, e);
  }

  datatype Response = Response(envelope: Envelope, limit: nat)

  /** Each response, read with the cursor handed out for the one before, hands out another one. */
  predicate Chain(c: Cursor, responses: seq<Response>, bound: nat)
    requires c.offset >= 0 && c.row >= 0 && c.inner >= 0
    decreases |responses|
  {
    responses == [] ||
    var r := responses[0];
    && r.limit >= 1 && r.envelope.size <= bound
    && var p := ReadPage(c, r.limit, r.envelope);
       p.Some? && p.value.next.Packed?
       && var d := p.value.next.cursor;
          d.offset >= 0 && d.row >= 0 && d.inner >= 0 && Chain(d, responses[1..], bound)
  }

  /** Whatever the remote answers, with sizes up to `bound` a walk has a bounded number of follow-up cursors. */
  lemma {:induction false} WalkIsFinite(c: Cursor, responses: seq<Response>, bound: nat)
    requires 0 <= c.offset && 0 <= c.row <= MAX_ROW && 0 <= c.inner <= MAX_STORES && Chain(c, responses, bound)
    ensures responses != [] ==> |responses| <= Rank(c, bound)
    decreases |responses|
  {
    if responses != [] {
      var r := responses[0];
      CursorsAdvance(c, r.limit, r.envelope);
      WalkRankDecreases(c, r.limit, r.envelope, bound);
      WalkIsFinite(ReadPage(c, r.limit, r.envelope).value.next.cursor, responses[1..], bound);
    }
  }
}
