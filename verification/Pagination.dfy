/** `list_paginated` of `entries.rs` (ascending), `boards.rs` and `versions.rs`
    (descending): keyset pages, and walks over them while the table changes. */
module Pagination {
  import opened Core
  import opened Ordering
  import opened Cursor

  /** A row of a listed table; its key never changes and is never reused. */
  datatype Row<T> = Row(key: Key, value: T)

  datatype PaginatedResponse<T> = PaginatedResponse(items: seq<Row<T>>, nextCursor: Option<string>)

  // ------------------------------------------------------------------ key order

  predicate LexLt(a: seq<nat>, b: seq<nat>) {
    if a == [] || b == [] then false
    else if a[0] == b[0] then LexLt(a[1..], b[1..])
    else a[0] < b[0]
  }

  /** A key as the numbers it compares by, most significant first. */
  function Parts(k: Key): (s: seq<nat>)
    ensures |s| == 12
  {
    [k.at.date.year, k.at.date.month, k.at.date.day, k.at.time.hour, k.at.time.minute, k.at.time.second,
     k.at.time.micros, k.id.a, k.id.b, k.id.c, k.id.d, k.id.e]
  }

  /** (created_at, id) < (created_at, id), as a row comparison. */
  predicate KeyLt(a: Key, b: Key) {
    LexLt(Parts(a), Parts(b))
  }

  /** a comes before b in the listing. */
  predicate Precedes(desc: bool, a: Key, b: Key) {
    if desc then KeyLt(b, a) else KeyLt(a, b)
  }

  lemma {:induction false} LexLtTotal(a: seq<nat>, b: seq<nat>)
    requires |a| == |b|
    ensures a == b <==> !LexLt(a, b) && !LexLt(b, a)
    ensures !(LexLt(a, b) && LexLt(b, a))
  {
    if a != [] && a[0] == b[0] {
      LexLtTotal(a[1..], b[1..]);
      assert a == [a[0]] + a[1..] && b == [b[0]] + b[1..];
    }
  }

  lemma {:induction false} LexLtTransitive(a: seq<nat>, b: seq<nat>, c: seq<nat>)
    requires LexLt(a, b) && LexLt(b, c)
    ensures LexLt(a, c)
  {
    if a[0] == b[0] == c[0] {
      LexLtTransitive(a[1..], b[1..], c[1..]);
    }
  }

  lemma PrecedesTotal(desc: bool, a: Key, b: Key)
    ensures a == b <==> !Precedes(desc, a, b) && !Precedes(desc, b, a)
    ensures !(Precedes(desc, a, b) && Precedes(desc, b, a))
  {
    LexLtTotal(Parts(a), Parts(b));
    var p, q := Parts(a), Parts(b);
    if p == q {
      assert p[0] == q[0] && p[1] == q[1] && p[2] == q[2] && p[3] == q[3] && p[4] == q[4] && p[5] == q[5];
      assert p[6] == q[6] && p[7] == q[7] && p[8] == q[8] && p[9] == q[9] && p[10] == q[10] && p[11] == q[11];
      assert a == b;
    }
  }

  lemma PrecedesTransitive(desc: bool, a: Key, b: Key, c: Key)
    requires Precedes(desc, a, b) && Precedes(desc, b, c)
    ensures Precedes(desc, a, c)
  {
    if desc {
      LexLtTransitive(Parts(c), Parts(b), Parts(a));
    } else {
      LexLtTransitive(Parts(a), Parts(b), Parts(c));
    }
  }

  // ----------------------------------------------------- the order, written out

  predicate EarlierDate(a: Date, b: Date) {
    a.year < b.year
    || (a.year == b.year && (a.month < b.month || (a.month == b.month && a.day < b.day)))
  }

  predicate EarlierTime(a: Time, b: Time) {
    a.hour < b.hour
    || (a.hour == b.hour && (a.minute < b.minute
        || (a.minute == b.minute && (a.second < b.second
            || (a.second == b.second && a.micros < b.micros)))))
  }

  predicate Earlier(a: Timestamp, b: Timestamp) {
    EarlierDate(a.date, b.date) || (a.date == b.date && EarlierTime(a.time, b.time))
  }

  predicate SmallerId(a: Uuid, b: Uuid) {
    a.a < b.a
    || (a.a == b.a && (a.b < b.b
        || (a.b == b.b && (a.c < b.c
            || (a.c == b.c && (a.d < b.d
                || (a.d == b.d && a.e < b.e)))))))
  }

  /** Created earlier, or at the same time under a smaller id. */
  predicate Older(a: Key, b: Key) {
    Earlier(a.at, b.at) || (a.at == b.at && SmallerId(a.id, b.id))
  }

  lemma LexLtCons(x: nat, a: seq<nat>, y: nat, b: seq<nat>)
    ensures LexLt([x] + a, [y] + b) <==> x < y || (x == y && LexLt(a, b))
  {
    assert ([x] + a)[1..] == a && ([y] + b)[1..] == b;
  }

  function IdParts(id: Uuid): seq<nat> {
    [id.a] + ([id.b] + ([id.c] + ([id.d] + ([id.e] + []))))
  }

  function TimeParts(t: Time, rest: seq<nat>): seq<nat> {
    [t.hour] + ([t.minute] + ([t.second] + ([t.micros] + rest)))
  }

  function DateParts(d: Date, rest: seq<nat>): seq<nat> {
    [d.year] + ([d.month] + ([d.day] + rest))
  }

  lemma IdPartsOrder(a: Uuid, b: Uuid)
    ensures LexLt(IdParts(a), IdParts(b)) <==> SmallerId(a, b)
  {
    hide LexLt;
    LexLtCons(a.a, [a.b] + ([a.c] + ([a.d] + ([a.e] + []))), b.a, [b.b] + ([b.c] + ([b.d] + ([b.e] + []))));
    LexLtCons(a.b, [a.c] + ([a.d] + ([a.e] + [])), b.b, [b.c] + ([b.d] + ([b.e] + [])));
    LexLtCons(a.c, [a.d] + ([a.e] + []), b.c, [b.d] + ([b.e] + []));
    LexLtCons(a.d, [a.e] + [], b.d, [b.e] + []);
    LexLtCons(a.e, [], b.e, []);
    LexLtNil();
  }

  lemma LexLtNil()
    ensures !LexLt([], [])
  {
  }

  lemma TimePartsOrder(a: Time, b: Time, r: seq<nat>, s: seq<nat>)
    ensures LexLt(TimeParts(a, r), TimeParts(b, s)) <==> EarlierTime(a, b) || (a == b && LexLt(r, s))
  {
    hide LexLt;
    LexLtCons(a.hour, [a.minute] + ([a.second] + ([a.micros] + r)),
              b.hour, [b.minute] + ([b.second] + ([b.micros] + s)));
    LexLtCons(a.minute, [a.second] + ([a.micros] + r), b.minute, [b.second] + ([b.micros] + s));
    LexLtCons(a.second, [a.micros] + r, b.second, [b.micros] + s);
    LexLtCons(a.micros, r, b.micros, s);
  }

  lemma DatePartsOrder(a: Date, b: Date, r: seq<nat>, s: seq<nat>)
    ensures LexLt(DateParts(a, r), DateParts(b, s)) <==> EarlierDate(a, b) || (a == b && LexLt(r, s))
  {
    hide LexLt;
    LexLtCons(a.year, [a.month] + ([a.day] + r), b.year, [b.month] + ([b.day] + s));
    LexLtCons(a.month, [a.day] + r, b.month, [b.day] + s);
    LexLtCons(a.day, r, b.day, s);
  }

  lemma KeyLtIsOlder(a: Key, b: Key)
    ensures KeyLt(a, b) <==> Older(a, b)
  {
    hide LexLt;
    assert Parts(a) == DateParts(a.at.date, TimeParts(a.at.time, IdParts(a.id)));
    assert Parts(b) == DateParts(b.at.date, TimeParts(b.at.time, IdParts(b.id)));
    hide EarlierDate, EarlierTime, SmallerId, IdParts, TimeParts, DateParts, Parts;
    DatePartsOrder(a.at.date, b.at.date, TimeParts(a.at.time, IdParts(a.id)), TimeParts(b.at.time, IdParts(b.id)));
    TimePartsOrder(a.at.time, b.at.time, IdParts(a.id), IdParts(b.id));
    IdPartsOrder(a.id, b.id);
  }

  /** a is listed before b: entries oldest first, boards and versions newest first. */
  predicate ListedBefore(desc: bool, a: Key, b: Key) {
    if desc then Older(b, a) else Older(a, b)
  }

  lemma PrecedesIsListed(desc: bool, a: Key, b: Key)
    ensures Precedes(desc, a, b) <==> ListedBefore(desc, a, b)
  {
    KeyLtIsOlder(a, b);
    KeyLtIsOlder(b, a);
    hide KeyLt, Older;
  }

  // ---------------------------------------------------------------------- a page

  function RowOrder<T(!new)>(desc: bool): (Row<T>, Row<T>) -> bool {
    (a: Row<T>, b: Row<T>) => !Precedes(desc, b.key, a.key)
  }

  function After<T(!new)>(desc: bool, cursor: Option<Key>): Row<T> -> bool {
    (r: Row<T>) => cursor.None? || Precedes(desc, cursor.value, r.key)
  }

  /** The query without its LIMIT: the rows after the cursor, in order. */
  function Remaining<T(!new)>(rows: seq<Row<T>>, desc: bool, cursor: Option<Key>): seq<Row<T>> {
    SortBy(RowOrder(desc), Filter(After(desc, cursor), rows))
  }

  function Take<T>(s: seq<T>, n: nat): seq<T> {
    if |s| <= n then s else s[..n]
  }

  /** Fetch one row more than asked for; hand out `limit`, and a cursor if there was more. */
  function PageFrom<T(!new)>(remaining: seq<Row<T>>, limit: nat): PaginatedResponse<T> {
    var found := Take(remaining, limit + 1);
    var items := Take(found, limit);
    PaginatedResponse(items,
                      if |found| > limit && items != [] then Some(EncodeCursor(items[|items| - 1].key)) else None)
  }

  function PageOf<T(!new)>(rows: seq<Row<T>>, limit: nat, desc: bool, cursor: Option<Key>): PaginatedResponse<T> {
    PageFrom(Remaining(rows, desc, cursor), limit)
  }

  /** `list_paginated`. */
  function ListPaginated<T(!new)>(rows: seq<Row<T>>, params: PaginationParams, desc: bool)
    : Result<PaginatedResponse<T>>
  {
    var cursor := DecodeCursor(params);
    if cursor.Failure? then Failure(cursor.error)
    else Success(PageOf(rows, EffectiveLimit(params), desc, cursor.value))
  }

  /** Primary key on id. */
  ghost predicate KeysOk<T(!new)>(rows: seq<Row<T>>) {
    && (forall i | 0 <= i < |rows| :: ValidKey(rows[i].key))
    && (forall i, j | 0 <= i < j < |rows| :: rows[i].key != rows[j].key)
  }

  ghost predicate InOrder<T(!new)>(desc: bool, rows: seq<Row<T>>) {
    forall i, j | 0 <= i < j < |rows| :: Precedes(desc, rows[i].key, rows[j].key)
  }

  ghost predicate HasKey<T(!new)>(rows: seq<Row<T>>, key: Key) {
    exists i :: 0 <= i < |rows| && rows[i].key == key
  }

  lemma OrderIsTotal<T(!new)>(desc: bool)
    ensures TotalPreorder(RowOrder<T>(desc))
  {
    forall x: Row<T>, y: Row<T> ensures !Precedes(desc, y.key, x.key) || !Precedes(desc, x.key, y.key) {
      PrecedesTotal(desc, x.key, y.key);
    }
    forall x: Row<T>, y: Row<T>, z: Row<T>
      | !Precedes(desc, y.key, x.key) && !Precedes(desc, z.key, y.key)
      ensures !Precedes(desc, z.key, x.key)
    {
      PrecedesTotal(desc, x.key, y.key);
      PrecedesTotal(desc, y.key, z.key);
      if x.key != y.key && y.key != z.key {
        PrecedesTransitive(desc, x.key, y.key, z.key);
      }
      PrecedesTotal(desc, x.key, z.key);
    }
  }

  function KeyOf<T(!new)>(): Row<T> -> Key {
    (r: Row<T>) => r.key
  }

  lemma {:induction false} FilterKeepsKeys<T(!new)>(p: Row<T> -> bool, rows: seq<Row<T>>)
    requires KeysOk(rows)
    ensures KeysOk(Filter(p, rows))
  {
    if rows != [] {
      assert forall i | 0 <= i < |rows| - 1 :: rows[1..][i] == rows[i + 1];
      FilterKeepsKeys(p, rows[1..]);
      FilterKeeps(p, rows[1..]);
      var f := Filter(p, rows[1..]);
      forall i | 0 <= i < |f| ensures f[i].key != rows[0].key {
        assert f[i] in rows[1..];
      }
    }
  }

  /** The rest of the listing: in order, and exactly the rows after the cursor. */
  lemma RemainingIs<T(!new)>(rows: seq<Row<T>>, desc: bool, cursor: Option<Key>)
    requires KeysOk(rows)
    ensures var found := Remaining(rows, desc, cursor);
            && InOrder(desc, found) && KeysOk(found)
            && forall r :: r in found <==> r in rows && After(desc, cursor)(r)
  {
    var f := Filter(After(desc, cursor), rows);
    var found := Remaining(rows, desc, cursor);
    FilterKeepsKeys(After(desc, cursor), rows);
    FilterKeeps(After(desc, cursor), rows);
    OrderIsTotal<T>(desc);
    SortIsSorted(RowOrder(desc), f);
    SortKeepsElements(RowOrder(desc), f);
    SortKeepsDistinct(RowOrder(desc), KeyOf<T>(), f);
    forall i, j | 0 <= i < j < |found| ensures Precedes(desc, found[i].key, found[j].key) {
      assert RowOrder<T>(desc)(found[i], found[j]);
      assert KeyOf<T>()(found[i]) != KeyOf<T>()(found[j]);
      PrecedesTotal(desc, found[i].key, found[j].key);
    }
    forall i | 0 <= i < |found| ensures ValidKey(found[i].key) {
      assert found[i] in f;
    }
  }

  /** The key that the cursor of a page stands for. */
  function LastKey<T>(page: PaginatedResponse<T>): Option<Key> {
    if page.items == [] then None else Some(page.items[|page.items| - 1].key)
  }

  /** The next rows in order. Without a cursor nothing is left; with one, it is the
      last item's and everything else lies after it. */
  ghost predicate PageFits<T(!new)>(
    rows: seq<Row<T>>, desc: bool, cursor: Option<Key>, page: PaginatedResponse<T>)
  {
    && InOrder(desc, page.items)
    && (forall r | r in page.items :: r in rows && After(desc, cursor)(r) && ValidKey(r.key))
    && (page.nextCursor.None? ==> forall r | r in rows && After(desc, cursor)(r) :: r in page.items)
    && (page.nextCursor.Some? ==>
          && LastKey(page).Some? && page.nextCursor == Some(EncodeCursor(LastKey(page).value))
          && forall r | r in rows && After(desc, cursor)(r) ::
               r in page.items || Precedes(desc, LastKey(page).value, r.key))
  }

  /** The page against the rows that were left: all of them, or those up to its cursor. */
  ghost predicate Covers<T(!new)>(found: seq<Row<T>>, desc: bool, page: PaginatedResponse<T>) {
    && InOrder(desc, page.items)
    && (forall r | r in page.items :: r in found)
    && (page.nextCursor.None? ==> forall r | r in found :: r in page.items)
    && (page.nextCursor.Some? ==>
          && LastKey(page).Some? && page.nextCursor == Some(EncodeCursor(LastKey(page).value))
          && forall r | r in found :: r in page.items || Precedes(desc, LastKey(page).value, r.key))
  }

  lemma TakenCovers<T(!new)>(found: seq<Row<T>>, limit: nat, desc: bool)
    requires InOrder(desc, found) && limit >= 1
    ensures Covers(found, desc, PageFrom(found, limit))
  {
    var page := PageFrom(found, limit);
    hide Precedes, EncodeCursor;
    forall r | r in found
      ensures r in page.items || (|found| > limit && Precedes(desc, found[limit - 1].key, r.key))
    {
      var k :| 0 <= k < |found| && found[k] == r;
      assert k < limit ==> page.items[k] == r;
    }
  }

  lemma CoversFits<T(!new)>(
    rows: seq<Row<T>>, found: seq<Row<T>>, desc: bool, cursor: Option<Key>, page: PaginatedResponse<T>)
    requires Covers(found, desc, page)
    requires forall r | r in found :: r in rows && After(desc, cursor)(r) && ValidKey(r.key)
    requires forall r | r in rows && After(desc, cursor)(r) :: r in found
    ensures PageFits(rows, desc, cursor, page)
  {
    hide Precedes, EncodeCursor, After, ValidKey, InOrder;
  }

  /** The row belongs to what the cursor leaves. */
  predicate IsLeft<T(!new)>(desc: bool, cursor: Option<Key>, r: Row<T>) {
    cursor.None? || ListedBefore(desc, cursor.value, r.key)
  }

  /** The page has the first rows left, in the listing's order, at most `limit` of them;
      it has a cursor exactly when more are left, and then it is full and the cursor
      is the text of its last key. */
  ghost predicate PageReads<T(!new)>(
    rows: seq<Row<T>>, limit: nat, desc: bool, cursor: Option<Key>, page: PaginatedResponse<T>)
  {
    var items := page.items;
    && |items| <= limit
    && (forall i, j | 0 <= i < j < |items| :: ListedBefore(desc, items[i].key, items[j].key))
    && (forall r | r in items :: r in rows && IsLeft(desc, cursor, r))
    && (forall r, i | r in rows && IsLeft(desc, cursor, r) && r !in items && 0 <= i < |items| ::
          ListedBefore(desc, items[i].key, r.key))
    && (page.nextCursor.Some? <==> exists r :: r in rows && IsLeft(desc, cursor, r) && r !in items)
    && (page.nextCursor.Some? ==>
          |items| == limit && items != [] && page.nextCursor == Some(EncodeCursor(items[|items| - 1].key)))
  }

  lemma TakenSize<T(!new)>(found: seq<Row<T>>, limit: nat)
    requires KeysOk(found) && limit >= 1
    ensures var page := PageFrom(found, limit);
            && |page.items| <= limit
            && (page.nextCursor.Some? ==> |page.items| == limit)
            && (page.nextCursor.Some? ==> exists r :: r in found && r !in page.items)
  {
    var page := PageFrom(found, limit);
    if page.nextCursor.Some? {
      var r := found[limit];
      assert r in found;
      forall i | 0 <= i < |page.items| ensures page.items[i] != r {
        assert page.items[i] == found[i] && found[i].key != found[limit].key;
      }
    }
  }

  lemma FitsReads<T(!new)>(
    rows: seq<Row<T>>, limit: nat, desc: bool, cursor: Option<Key>, page: PaginatedResponse<T>)
    requires PageFits(rows, desc, cursor, page) && |page.items| <= limit
    requires page.nextCursor.Some? ==>
               |page.items| == limit && exists r :: r in rows && After(desc, cursor)(r) && r !in page.items
    ensures PageReads(rows, limit, desc, cursor, page)
  {
    hide Precedes, ListedBefore, EncodeCursor, ValidKey;
    forall a, b ensures Precedes(desc, a, b) <==> ListedBefore(desc, a, b) {
      PrecedesIsListed(desc, a, b);
    }
    var items := page.items;
    forall r | r in rows ensures IsLeft(desc, cursor, r) <==> After(desc, cursor)(r) {
    }
    forall r, i | r in rows && IsLeft(desc, cursor, r) && r !in items && 0 <= i < |items|
      ensures ListedBefore(desc, items[i].key, r.key)
    {
      if i < |items| - 1 {
        PrecedesTransitive(desc, items[i].key, items[|items| - 1].key, r.key);
      }
    }
  }

  lemma PageIs<T(!new)>(rows: seq<Row<T>>, limit: nat, desc: bool, cursor: Option<Key>)
    requires KeysOk(rows) && limit >= 1
    ensures PageFits(rows, desc, cursor, PageOf(rows, limit, desc, cursor))
    ensures PageReads(rows, limit, desc, cursor, PageOf(rows, limit, desc, cursor))
  {
    PageFit(rows, limit, desc, cursor);
    var found, page := Remaining(rows, desc, cursor), PageOf(rows, limit, desc, cursor);
    RemainingIs(rows, desc, cursor);
    TakenSize(found, limit);
    hide Remaining, PageFits, PageReads, PageFrom, After, ValidKey, KeysOk, InOrder;
    if page.nextCursor.Some? {
      var r :| r in found && r !in page.items;
      assert r in rows && After(desc, cursor)(r);
    }
    FitsReads(rows, limit, desc, cursor, page);
  }

  /** What a caller gets: the page for the cursor's key, or a validation error exactly
      when the cursor does not decode. */
  lemma ListedPage<T(!new)>(rows: seq<Row<T>>, params: PaginationParams, desc: bool)
    requires KeysOk(rows)
    ensures var r := ListPaginated(rows, params, desc);
            && (r.Failure? <==> DecodeCursor(params).Failure?)
            && (r.Failure? ==> r.error == Validation)
            && (r.Success? ==> PageReads(rows, EffectiveLimit(params), desc, DecodeCursor(params).value, r.value))
  {
    if DecodeCursor(params).Success? {
      PageIs(rows, EffectiveLimit(params), desc, DecodeCursor(params).value);
    }
    hide PageOf, PageReads, EffectiveLimit, PageFits;
  }

  lemma PageFit<T(!new)>(rows: seq<Row<T>>, limit: nat, desc: bool, cursor: Option<Key>)
    requires KeysOk(rows) && limit >= 1
    ensures PageFits(rows, desc, cursor, PageOf(rows, limit, desc, cursor))
  {
    var found := Remaining(rows, desc, cursor);
    RemainingIs(rows, desc, cursor);
    TakenCovers(found, limit, desc);
    hide Remaining, Covers, PageFits, PageFrom, After, ValidKey;
    CoversFits(rows, found, desc, cursor, PageOf(rows, limit, desc, cursor));
  }

  lemma ListedPageFits<T(!new)>(
    rows: seq<Row<T>>, params: PaginationParams, desc: bool, cursor: Option<Key>, page: PaginatedResponse<T>)
    requires KeysOk(rows) && ListPaginated(rows, params, desc) == Success(page)
    requires DecodeCursor(params) == Success(cursor)
    ensures PageFits(rows, desc, cursor, page)
  {
    PageFit(rows, EffectiveLimit(params), desc, cursor);
    hide PageOf, KeysOk, PageFits, DecodeCursor;
  }

  /** The cursor that a page hands out is decoded to its last key. */
  lemma CursorDecodes<T(!new)>(
    rows: seq<Row<T>>, desc: bool, cursor: Option<Key>, page: PaginatedResponse<T>, limit: Option<int>)
    requires PageFits(rows, desc, cursor, page) && page.nextCursor.Some?
    ensures LastKey(page).Some?
    ensures DecodeCursor(PaginationParams(limit, page.nextCursor)) == Success(LastKey(page))
  {
    var last := page.items[|page.items| - 1];
    assert last in page.items;
    hide DecodeCursor, EncodeCursor;
    CursorRoundTrip(last.key, limit);
  }

  lemma NoCursor(limit: Option<int>)
    ensures DecodeCursor(PaginationParams(limit, None)) == Success(None)
  {
  }

  // ---------------------------------------------------- walks over changing tables

  function CursorBefore<T>(pages: seq<PaginatedResponse<T>>, k: nat): Option<string>
    requires k <= |pages|
  {
    if k == 0 then None else pages[k - 1].nextCursor
  }

  /** Page k is read from the table of its moment, with the cursor of page k - 1. */
  ghost predicate IsRead<T(!new)>(
    tables: seq<seq<Row<T>>>, limits: seq<Option<int>>, pages: seq<PaginatedResponse<T>>, desc: bool, k: nat)
    requires |tables| == |limits| == |pages| && k < |pages|
  {
    && KeysOk(tables[k])
    && ListPaginated(tables[k], PaginationParams(limits[k], CursorBefore(pages, k)), desc) == Success(pages[k])
    && (k > 0 ==> CursorBefore(pages, k).Some?)
  }

  /** A client that follows next_cursor: page k was read when the table was
      tables[k]. Rows may come and go, and change, between any two pages. */
  ghost predicate IsWalk<T(!new)>(
    tables: seq<seq<Row<T>>>, limits: seq<Option<int>>, pages: seq<PaginatedResponse<T>>, desc: bool)
  {
    && |tables| == |limits| == |pages| && |pages| > 0
    && forall k | 0 <= k < |pages| :: IsRead(tables, limits, pages, desc, k)
  }

  ghost predicate PageHas<T>(page: PaginatedResponse<T>, key: Key) {
    exists i :: 0 <= i < |page.items| && page.items[i].key == key
  }

  function KeyBefore<T>(pages: seq<PaginatedResponse<T>>, k: nat): Option<Key>
    requires k <= |pages|
  {
    if k == 0 then None else LastKey(pages[k - 1])
  }

  /** What a walk says about page k. */
  lemma ReadAt<T(!new)>(
    tables: seq<seq<Row<T>>>, limits: seq<Option<int>>, pages: seq<PaginatedResponse<T>>, desc: bool, k: nat)
    requires IsWalk(tables, limits, pages, desc) && k < |pages|
    ensures |tables| == |limits| == |pages| && KeysOk(tables[k])
    ensures ListPaginated(tables[k], PaginationParams(limits[k], CursorBefore(pages, k)), desc) == Success(pages[k])
    ensures k > 0 ==> pages[k - 1].nextCursor.Some?
  {
    assert IsRead(tables, limits, pages, desc, k);
  }

  /** Page k starts after the last row of page k - 1, in the table as it is by then. */
  lemma WalkPage<T(!new)>(
    tables: seq<seq<Row<T>>>, limits: seq<Option<int>>, pages: seq<PaginatedResponse<T>>, desc: bool, k: nat)
    requires IsWalk(tables, limits, pages, desc) && k < |pages|
    ensures k > 0 ==> KeyBefore(pages, k).Some?
    ensures DecodeCursor(PaginationParams(limits[k], CursorBefore(pages, k))) == Success(KeyBefore(pages, k))
    ensures PageFits(tables[k], desc, KeyBefore(pages, k), pages[k])
    decreases k
  {
    hide IsWalk, ListPaginated, KeysOk, PageFits, DecodeCursor, EffectiveLimit;
    ReadAt(tables, limits, pages, desc, k);
    if k > 0 {
      WalkPage(tables, limits, pages, desc, k - 1);
      CursorDecodes(tables[k - 1], desc, KeyBefore(pages, k - 1), pages[k - 1], limits[k]);
    }
    NoCursor(limits[k]);
    ListedPageFits(tables[k], PaginationParams(limits[k], CursorBefore(pages, k)), desc, KeyBefore(pages, k), pages[k]);
  }

  lemma ItemIsAfter<T(!new)>(
    rows: seq<Row<T>>, desc: bool, cursor: Option<Key>, page: PaginatedResponse<T>, r: Row<T>)
    requires PageFits(rows, desc, cursor, page) && r in page.items && cursor.Some?
    ensures Precedes(desc, cursor.value, r.key)
  {
  }

  /** Every row of a page lies after the last row of every earlier page. */
  lemma LaterPagesLieAfter<T(!new)>(
    tables: seq<seq<Row<T>>>, limits: seq<Option<int>>, pages: seq<PaginatedResponse<T>>, desc: bool,
    i: nat, j: nat, r: Row<T>)
    requires IsWalk(tables, limits, pages, desc) && i < j < |pages| && r in pages[j].items
    ensures LastKey(pages[i]).Some? && Precedes(desc, LastKey(pages[i]).value, r.key)
    decreases j
  {
    hide IsWalk, PageFits, Precedes, DecodeCursor;
    ReadAt(tables, limits, pages, desc, j);
    WalkPage(tables, limits, pages, desc, j);
    ItemIsAfter(tables[j], desc, KeyBefore(pages, j), pages[j], r);
    if i < j - 1 {
      var last := pages[j - 1].items[|pages[j - 1].items| - 1];
      LaterPagesLieAfter(tables, limits, pages, desc, i, j - 1, last);
      PrecedesTransitive(desc, LastKey(pages[i]).value, last.key, r.key);
    }
  }

  lemma ItemsInOrder<T(!new)>(
    rows: seq<Row<T>>, desc: bool, cursor: Option<Key>, page: PaginatedResponse<T>, m: nat, n: nat)
    requires PageFits(rows, desc, cursor, page) && m < n < |page.items|
    ensures Precedes(desc, page.items[m].key, page.items[n].key)
  {
  }

  /** No row is handed out twice: keys go strictly forward, within a page and from
      page to page, whatever happens to the table in between. */
  lemma NoRowTwice<T(!new)>(
    tables: seq<seq<Row<T>>>, limits: seq<Option<int>>, pages: seq<PaginatedResponse<T>>, desc: bool,
    i: nat, m: nat, j: nat, n: nat)
    requires IsWalk(tables, limits, pages, desc)
    requires i < |pages| && m < |pages[i].items| && j < |pages| && n < |pages[j].items|
    requires i < j || (i == j && m < n)
    ensures ListedBefore(desc, pages[i].items[m].key, pages[j].items[n].key)
    ensures pages[i].items[m].key != pages[j].items[n].key
  {
    hide IsWalk, PageFits, Precedes, DecodeCursor, ListedBefore;
    PrecedesIsListed(desc, pages[i].items[m].key, pages[j].items[n].key);
    var a, b := pages[i].items[m].key, pages[j].items[n].key;
    ReadAt(tables, limits, pages, desc, i);
    WalkPage(tables, limits, pages, desc, i);
    if i == j {
      ItemsInOrder(tables[i], desc, KeyBefore(pages, i), pages[i], m, n);
    } else {
      LaterPagesLieAfter(tables, limits, pages, desc, i, j, pages[j].items[n]);
      var top := |pages[i].items| - 1;
      if m < top {
        ItemsInOrder(tables[i], desc, KeyBefore(pages, i), pages[i], m, top);
        PrecedesTransitive(desc, a, pages[i].items[top].key, b);
      }
    }
    PrecedesTotal(desc, a, b);
  }

  /** A row after the cursor is on the page, or after its end. */
  lemma OnPageOrAfter<T(!new)>(
    rows: seq<Row<T>>, desc: bool, cursor: Option<Key>, page: PaginatedResponse<T>, key: Key)
    requires PageFits(rows, desc, cursor, page) && HasKey(rows, key)
    requires cursor.None? || Precedes(desc, cursor.value, key)
    ensures PageHas(page, key)
            || (page.nextCursor.Some? && LastKey(page).Some? && Precedes(desc, LastKey(page).value, key))
  {
    var i :| 0 <= i < |rows| && rows[i].key == key;
    var r := rows[i];
    assert After<T>(desc, cursor)(r);
    if r in page.items {
      var k :| 0 <= k < |page.items| && page.items[k] == r;
    }
  }

  /** Up to page k, a row that was there all along was seen, or lies ahead. */
  lemma SeenOrAhead<T(!new)>(
    tables: seq<seq<Row<T>>>, limits: seq<Option<int>>, pages: seq<PaginatedResponse<T>>, desc: bool,
    key: Key, k: nat)
    requires IsWalk(tables, limits, pages, desc) && k < |pages|
    requires forall i | 0 <= i < |tables| :: HasKey(tables[i], key)
    ensures (exists i :: 0 <= i <= k && PageHas(pages[i], key))
            || (pages[k].nextCursor.Some? && LastKey(pages[k]).Some?
                && Precedes(desc, LastKey(pages[k]).value, key))
    decreases k
  {
    hide IsWalk, PageFits, Precedes, PageHas, DecodeCursor, KeysOk, ListPaginated, HasKey;
    ReadAt(tables, limits, pages, desc, k);
    WalkPage(tables, limits, pages, desc, k);
    if k > 0 {
      SeenOrAhead(tables, limits, pages, desc, key, k - 1);
    }
    if k == 0 || Precedes(desc, KeyBefore(pages, k).value, key) {
      OnPageOrAfter(tables[k], desc, KeyBefore(pages, k), pages[k], key);
    }
  }

  /** A walk that ran to its end has every row that was in the table throughout:
      once, and by NoRowTwice only once. */
  lemma NothingIsMissed<T(!new)>(
    tables: seq<seq<Row<T>>>, limits: seq<Option<int>>, pages: seq<PaginatedResponse<T>>, desc: bool, key: Key)
    requires IsWalk(tables, limits, pages, desc) && pages[|pages| - 1].nextCursor.None?
    requires forall i | 0 <= i < |tables| :: HasKey(tables[i], key)
    ensures exists i :: 0 <= i < |pages| && PageHas(pages[i], key)
  {
    ReadAt(tables, limits, pages, desc, |pages| - 1);
    hide IsWalk, PageHas, HasKey;
    SeenOrAhead(tables, limits, pages, desc, key, |pages| - 1);
  }

  // ------------------------------------------------------- walks over a still table

  /** The whole listing. */
  function Listing<T(!new)>(rows: seq<Row<T>>, desc: bool): seq<Row<T>> {
    SortBy(RowOrder(desc), rows)
  }

  lemma {:induction false} OrderedUnique<T(!new)>(desc: bool, a: seq<Row<T>>, b: seq<Row<T>>)
    requires InOrder(desc, a) && InOrder(desc, b) && forall r :: r in a <==> r in b
    ensures a == b
  {
    assert (a != [] ==> a[0] in a) && (b != [] ==> b[0] in b);
    if a != [] {
      FirstsEqual(desc, a, b);
      forall r ensures r in a[1..] <==> r in b[1..] {
        RestHas(desc, a, r);
        RestHas(desc, b, r);
      }
      OrderedUnique(desc, a[1..], b[1..]);
      assert a == [a[0]] + a[1..] && b == [b[0]] + b[1..];
    }
  }

  lemma FirstsEqual<T(!new)>(desc: bool, a: seq<Row<T>>, b: seq<Row<T>>)
    requires InOrder(desc, a) && InOrder(desc, b) && a != [] && b != [] && a[0] in b && b[0] in a
    ensures a[0] == b[0]
  {
    var i :| 0 <= i < |b| && b[i] == a[0];
    var j :| 0 <= j < |a| && a[j] == b[0];
    PrecedesTotal(desc, a[0].key, b[0].key);
  }

  lemma RestHas<T(!new)>(desc: bool, a: seq<Row<T>>, r: Row<T>)
    requires InOrder(desc, a) && a != []
    ensures r in a[1..] <==> r in a && r != a[0]
  {
    if r in a[1..] {
      var i :| 0 <= i < |a[1..]| && a[1..][i] == r;
      PrecedesTotal(desc, a[0].key, a[i + 1].key);
    }
  }

  lemma ListingIs<T(!new)>(rows: seq<Row<T>>, desc: bool)
    requires KeysOk(rows)
    ensures InOrder(desc, Listing(rows, desc)) && |Listing(rows, desc)| == |rows|
    ensures forall r :: r in Listing(rows, desc) <==> r in rows
    ensures Listing(rows, desc) == Remaining(rows, desc, None)
  {
    RemainingIs(rows, desc, None);
    FilterAll(After<T>(desc, None), rows);
    SortKeepsElements(RowOrder(desc), rows);
  }

  /** What is left after the first m rows is the rest of the listing. */
  lemma RemainingIsSuffix<T(!new)>(rows: seq<Row<T>>, desc: bool, m: nat)
    requires KeysOk(rows) && 1 <= m <= |Listing(rows, desc)|
    ensures Remaining(rows, desc, Some(Listing(rows, desc)[m - 1].key)) == Listing(rows, desc)[m..]
  {
    var all := Listing(rows, desc);
    var cursor := Some(all[m - 1].key);
    var found := Remaining(rows, desc, cursor);
    ListingIs(rows, desc);
    RemainingIs(rows, desc, cursor);
    hide Listing, Remaining, KeysOk;
    forall r ensures r in found <==> r in all[m..] {
      AfterIsSuffix(all, desc, m, r);
    }
    assert InOrder(desc, all[m..]);
    OrderedUnique(desc, found, all[m..]);
  }

  lemma AfterIsSuffix<T(!new)>(all: seq<Row<T>>, desc: bool, m: nat, r: Row<T>)
    requires InOrder(desc, all) && 1 <= m <= |all|
    ensures r in all[m..] <==> r in all && Precedes(desc, all[m - 1].key, r.key)
  {
    if r in all[m..] {
      var i :| 0 <= i < |all[m..]| && all[m..][i] == r;
      assert all[m + i] == r;
    }
    if r in all && Precedes(desc, all[m - 1].key, r.key) {
      var i :| 0 <= i < |all| && all[i] == r;
      PrecedesTotal(desc, all[m - 1].key, r.key);
      assert i >= m;
      assert all[m..][i - m] == r;
    }
  }

  /** Page k, counting from 0, of a table that stands still. */
  function Chunk<T(!new)>(all: seq<Row<T>>, limit: nat, start: nat): seq<Row<T>>
    requires start <= |all|
  {
    Take(all[start..], limit)
  }

  lemma FirstChunk<T(!new)>(all: seq<Row<T>>, limit: nat, start: nat)
    requires start <= |all| && limit >= 1
    ensures IsChunk(all, limit, start, PageFrom(all[start..], limit))
  {
    hide EncodeCursor;
  }

  ghost predicate IsStill<T(!new)>(
    tables: seq<seq<Row<T>>>, limits: seq<Option<int>>, rows: seq<Row<T>>, limit: nat)
  {
    && limit >= 1
    && (forall k | 0 <= k < |tables| :: tables[k] == rows)
    && (forall k | 0 <= k < |limits| :: EffectiveLimit(PaginationParams(limits[k], None)) == limit)
  }

  /** The page that starts at row `start` of the listing: the next chunk, and a
      cursor unless it reaches the end. */
  ghost predicate IsChunk<T(!new)>(all: seq<Row<T>>, limit: nat, start: nat, page: PaginatedResponse<T>) {
    && start <= |all| && limit >= 1
    && page.items == Chunk(all, limit, start)
    && (page.nextCursor.Some? <==> start + limit < |all|)
    && (start + limit < |all| ==> LastKey(page) == Some(all[start + limit - 1].key))
  }

  /** The row of the listing that page k starts at. */
  function Start(k: nat, limit: nat): nat {
    k * limit
  }

  lemma NextStart(k: nat, limit: nat)
    ensures Start(0, limit) == 0 && Start(k + 1, limit) == Start(k, limit) + limit
  {
  }

  lemma {:induction false} StillPage<T(!new)>(
    tables: seq<seq<Row<T>>>, limits: seq<Option<int>>, pages: seq<PaginatedResponse<T>>, desc: bool,
    rows: seq<Row<T>>, limit: nat, k: nat)
    requires IsWalk(tables, limits, pages, desc) && IsStill(tables, limits, rows, limit) && k < |pages|
    ensures KeysOk(rows) && IsChunk(Listing(rows, desc), limit, Start(k, limit), pages[k])
    decreases k
  {
    hide EffectiveLimit, Listing, Remaining, KeysOk, PageFrom, ListPaginated, Start, InOrder;
    var all := Listing(rows, desc);
    ReadAt(tables, limits, pages, desc, k);
    assert tables[k] == rows && EffectiveLimit(PaginationParams(limits[k], None)) == limit;
    hide IsWalk, IsStill;
    ListingIs(rows, desc);
    StillRead(tables, limits, pages, desc, k);
    assert all[0..] == all;
    NextStart(if k > 0 then k - 1 else 0, limit);
    if k > 0 {
      StillPage(tables, limits, pages, desc, rows, limit, k - 1);
      RemainingIsSuffix(rows, desc, Start(k, limit));
    }
    hide IsChunk;
    FirstChunk(all, limit, Start(k, limit));
  }

  lemma StillRead<T(!new)>(
    tables: seq<seq<Row<T>>>, limits: seq<Option<int>>, pages: seq<PaginatedResponse<T>>, desc: bool, k: nat)
    requires IsWalk(tables, limits, pages, desc) && k < |pages|
    ensures pages[k] == PageFrom(Remaining(tables[k], desc, KeyBefore(pages, k)),
                                 EffectiveLimit(PaginationParams(limits[k], None)))
  {
    hide IsWalk, PageFits, DecodeCursor, KeysOk, PageFrom, Remaining, EffectiveLimit;
    ReadAt(tables, limits, pages, desc, k);
    WalkPage(tables, limits, pages, desc, k);
    SameLimit(limits[k], CursorBefore(pages, k));
  }

  lemma SameLimit(limit: Option<int>, cursor: Option<string>)
    ensures EffectiveLimit(PaginationParams(limit, cursor)) == EffectiveLimit(PaginationParams(limit, None))
  {
  }

  function Concat<T>(pages: seq<PaginatedResponse<T>>): seq<Row<T>> {
    if pages == [] then [] else Concat(pages[..|pages| - 1]) + pages[|pages| - 1].items
  }

  lemma ConcatNext<T>(pages: seq<PaginatedResponse<T>>, k: nat)
    requires 0 < k <= |pages|
    ensures Concat(pages[..k]) == Concat(pages[..k - 1]) + pages[k - 1].items
  {
    assert pages[..k][..k - 1] == pages[..k - 1];
  }

  lemma ChunkExtends<T(!new)>(all: seq<Row<T>>, limit: nat, start: nat)
    requires start <= |all|
    ensures Take(all, start + limit) == Take(all, start) + Chunk(all, limit, start)
  {
  }

  lemma {:induction false} StillPrefix<T(!new)>(
    tables: seq<seq<Row<T>>>, limits: seq<Option<int>>, pages: seq<PaginatedResponse<T>>, desc: bool,
    rows: seq<Row<T>>, limit: nat, k: nat)
    requires IsWalk(tables, limits, pages, desc) && IsStill(tables, limits, rows, limit) && k <= |pages|
    ensures KeysOk(rows)
    ensures Concat(pages[..k]) == Take(Listing(rows, desc), Start(k, limit))
  {
    var all := Listing(rows, desc);
    StillPage(tables, limits, pages, desc, rows, limit, 0);
    NextStart(0, limit);
    hide IsWalk, Listing, IsStill, Start;
    if k > 0 {
      ConcatNext(pages, k);
      hide Concat;
      StillPrefix(tables, limits, pages, desc, rows, limit, k - 1);
      StillPage(tables, limits, pages, desc, rows, limit, k - 1);
      NextStart(k - 1, limit);
      hide KeysOk, Chunk, LastKey;
      ChunkExtends(all, limit, Start(k - 1, limit));
    }
  }

  lemma Rounded(n: nat, limit: nat, p: nat)
    requires limit >= 1 && p >= 1 && (p - 1) * limit < n <= p * limit
    ensures (n + limit - 1) / limit == p
  {
    var x := n + limit - 1;
    var q := x / limit;
    assert p * limit == (p - 1) * limit + limit;
    assert x == q * limit + x % limit;
    if q < p {
      ProductGrows(p - 1, q, limit);
    }
    if q > p {
      ProductGrows(q, p + 1, limit);
    }
  }

  /** max(1, ceil(n / limit)). */
  function PageTotal(n: nat, limit: nat): nat
    requires limit >= 1
  {
    if n == 0 then 1 else (n + limit - 1) / limit
  }

  /** On a table that stands still the pages of a finished walk are the listing, in
      max(1, ceil(n / limit)) pages, and no walk is longer. */
  lemma StillWalkIsListing<T(!new)>(
    tables: seq<seq<Row<T>>>, limits: seq<Option<int>>, pages: seq<PaginatedResponse<T>>, desc: bool,
    rows: seq<Row<T>>, limit: nat)
    requires IsWalk(tables, limits, pages, desc) && IsStill(tables, limits, rows, limit)
    ensures var total := PageTotal(|rows|, limit);
            && |pages| <= total
            && (pages[|pages| - 1].nextCursor.None? <==> |pages| == total)
            && (|pages| == total ==> IsListing(rows, desc, Concat(pages)))
  {
    var p := |pages|;
    WholeListing(tables, limits, pages, desc, rows, limit);
    StillWalkCount(tables, limits, pages, desc, rows, limit);
    StillPrefix(tables, limits, pages, desc, rows, limit, p);
    StillPage(tables, limits, pages, desc, rows, limit, p - 1);
    NextStart(p - 1, limit);
    hide IsWalk, IsStill, PageTotal, Start, Listing, KeysOk, LastKey, Chunk;
    assert pages[..p] == pages;
  }

  /** Every row once, entries oldest first, boards and versions newest first. */
  ghost predicate IsListing<T(!new)>(rows: seq<Row<T>>, desc: bool, list: seq<Row<T>>) {
    && |list| == |rows| && (forall r :: r in list <==> r in rows)
    && forall i, j | 0 <= i < j < |list| :: ListedBefore(desc, list[i].key, list[j].key)
  }

  lemma WholeListing<T(!new)>(
    tables: seq<seq<Row<T>>>, limits: seq<Option<int>>, pages: seq<PaginatedResponse<T>>, desc: bool,
    rows: seq<Row<T>>, limit: nat)
    requires IsWalk(tables, limits, pages, desc) && IsStill(tables, limits, rows, limit)
    ensures IsListing(rows, desc, Listing(rows, desc))
  {
    StillPage(tables, limits, pages, desc, rows, limit, 0);
    hide IsWalk, IsStill, Precedes, ListedBefore, Listing, KeysOk;
    ListingIs(rows, desc);
    ListingLength(rows, desc);
    forall a, b ensures Precedes(desc, a, b) <==> ListedBefore(desc, a, b) {
      PrecedesIsListed(desc, a, b);
    }
  }

  /** Page k has no cursor exactly when the listing ends with it. */
  lemma PageEnds<T(!new)>(
    tables: seq<seq<Row<T>>>, limits: seq<Option<int>>, pages: seq<PaginatedResponse<T>>, desc: bool,
    rows: seq<Row<T>>, limit: nat, k: nat)
    requires IsWalk(tables, limits, pages, desc) && IsStill(tables, limits, rows, limit) && k < |pages|
    ensures pages[k].nextCursor.None? <==> |rows| <= Start(k + 1, limit)
  {
    hide IsWalk, IsStill, Listing, KeysOk, Chunk, LastKey, Start;
    StillPage(tables, limits, pages, desc, rows, limit, k);
    NextStart(k, limit);
    ListingLength(rows, desc);
  }

  /** A page after the first starts inside the listing. */
  lemma LaterPageStarts<T(!new)>(
    tables: seq<seq<Row<T>>>, limits: seq<Option<int>>, pages: seq<PaginatedResponse<T>>, desc: bool,
    rows: seq<Row<T>>, limit: nat, k: nat)
    requires IsWalk(tables, limits, pages, desc) && IsStill(tables, limits, rows, limit) && 0 < k < |pages|
    ensures Start(k, limit) < |rows|
  {
    hide IsWalk, IsStill, KeysOk, Start, ListPaginated, DecodeCursor, EffectiveLimit;
    ReadAt(tables, limits, pages, desc, k);
    PageEnds(tables, limits, pages, desc, rows, limit, k - 1);
  }

  lemma StillWalkCount<T(!new)>(
    tables: seq<seq<Row<T>>>, limits: seq<Option<int>>, pages: seq<PaginatedResponse<T>>, desc: bool,
    rows: seq<Row<T>>, limit: nat)
    requires IsWalk(tables, limits, pages, desc) && IsStill(tables, limits, rows, limit)
    ensures |pages| <= PageTotal(|rows|, limit)
    ensures pages[|pages| - 1].nextCursor.None? <==> |pages| == PageTotal(|rows|, limit)
    ensures |Listing(rows, desc)| == |rows|
  {
    var p := |pages|;
    assert p > 0 && limit >= 1;
    hide IsWalk, IsStill, Listing, PageTotal, Start;
    PageEnds(tables, limits, pages, desc, rows, limit, p - 1);
    if p > 1 {
      LaterPageStarts(tables, limits, pages, desc, rows, limit, p - 1);
    }
    ListingLength(rows, desc);
    PageCount(|rows|, limit, p, pages[p - 1].nextCursor.None?);
  }

  lemma ListingLength<T(!new)>(rows: seq<Row<T>>, desc: bool)
    ensures |Listing(rows, desc)| == |rows|
  {
  }

  /** p pages so far, the last one with or without a cursor. */
  lemma PageCount(n: nat, limit: nat, p: nat, atEnd: bool)
    requires limit >= 1 && p >= 1 && (p > 1 ==> Start(p - 1, limit) < n)
    requires atEnd <==> n <= Start(p, limit)
    ensures p <= PageTotal(n, limit) && (atEnd <==> p == PageTotal(n, limit))
  {
    if n > 0 {
      var count := (n + limit - 1) / limit;
      assert n + limit - 1 == count * limit + (n + limit - 1) % limit;
      if atEnd {
        assert p == 1 ==> (p - 1) * limit == 0;
        Rounded(n, limit, p);
      } else {
        assert count * limit >= n > p * limit;
        if count <= p {
          ProductGrows(p, count, limit);
        }
      }
    }
  }
}
