/** The ranking that `derive_scored_positions` writes, and the live standings
    that `latest` reads from Redis. */
module Ranking {
  import opened Core
  import opened Floats
  import opened Ordering

  // ---------------------------------------------------- frozen (PostgreSQL)

  /** What ROW_NUMBER() sorts on. */
  datatype Item = Item(entryId: EntryId, score: Option<Float64>)

  /** ORDER BY score {dir} NULLS LAST, entry_id ASC. */
  predicate ItemLt(dir: Direction, a: Item, b: Item) {
    match (a.score, b.score)
    case (Some(_), None) => true
    case (None, Some(_)) => false
    case (None, None) => a.entryId < b.entryId
    case (Some(x), Some(y)) =>
      if OrderKey(x) == OrderKey(y) then a.entryId < b.entryId
      else Better(dir, x, y)
  }

  predicate Better(dir: Direction, x: Float64, y: Float64) {
    if dir == Asc then OrderKey(x) < OrderKey(y) else OrderKey(x) > OrderKey(y)
  }

  function ItemOrder(dir: Direction): (Item, Item) -> bool {
    (a: Item, b: Item) => ItemLt(dir, a, b)
  }

  function ItemSortOrder(dir: Direction): (Item, Item) -> bool {
    (a: Item, b: Item) => !ItemLt(dir, b, a)
  }

  ghost predicate DistinctIds(s: set<Item>) {
    forall a, b | a in s && b in s && a != b :: a.entryId != b.entryId
  }

  lemma ItemOrderIsStrict(dir: Direction, s: set<Item>)
    requires DistinctIds(s)
    ensures StrictOrderOn(ItemOrder(dir), s)
  {
  }

  function ItemOf(p: Placement): Item {
    Item(p.entryId, p.score)
  }

  function ItemsOf(rows: seq<Placement>, versionId: VersionId): set<Item> {
    set p | p in rows && p.versionId == versionId :: ItemOf(p)
  }

  /** UNIQUE (version_id, entry_id), for one version. */
  ghost predicate UniqueEntries(rows: seq<Placement>, versionId: VersionId) {
    forall i, j | 0 <= i < j < |rows| && rows[i].versionId == versionId == rows[j].versionId ::
      rows[i].entryId != rows[j].entryId
  }

  function PositionOf(dir: Direction, rows: seq<Placement>, p: Placement): int {
    Rank(ItemOrder(dir), ItemsOf(rows, p.versionId), ItemOf(p))
  }

  /** The table after the UPDATE: the version's rows numbered, every other row as it was. */
  function Derived(dir: Direction, rows: seq<Placement>, versionId: VersionId): (r: seq<Placement>)
    ensures |r| == |rows|
  {
    seq(|rows|, i requires 0 <= i < |rows| =>
      if rows[i].versionId == versionId
      then rows[i].(position := Some(PositionOf(dir, rows, rows[i])))
      else rows[i])
  }

  lemma UniqueItems(rows: seq<Placement>, versionId: VersionId)
    requires UniqueEntries(rows, versionId)
    ensures DistinctIds(ItemsOf(rows, versionId))
  {
    forall a, b | a in ItemsOf(rows, versionId) && b in ItemsOf(rows, versionId) && a != b
      ensures a.entryId != b.entryId
    {
      var i :| 0 <= i < |rows| && rows[i].versionId == versionId && ItemOf(rows[i]) == a;
      var j :| 0 <= j < |rows| && rows[j].versionId == versionId && ItemOf(rows[j]) == b;
      assert i != j;
      assert i < j || j < i;
    }
  }

  lemma DerivedAt(dir: Direction, rows: seq<Placement>, versionId: VersionId, i: nat)
    requires UniqueEntries(rows, versionId) && i < |rows| && rows[i].versionId == versionId
    ensures var x := ItemOf(rows[i]);
            var s := ItemsOf(rows, versionId);
            && x in s
            && Derived(dir, rows, versionId)[i] == rows[i].(position := Some(Rank(ItemOrder(dir), s, x)))
            && 1 <= Rank(ItemOrder(dir), s, x) <= |s|
  {
    assert rows[i] in rows;
    UniqueItems(rows, versionId);
    ItemOrderIsStrict(dir, ItemsOf(rows, versionId));
    RankBounds(ItemOrder(dir), ItemsOf(rows, versionId), ItemOf(rows[i]));
  }

  /** Every number 1..n is given to a row of the version. */
  lemma DerivedIsOnto(dir: Direction, rows: seq<Placement>, versionId: VersionId, k: nat)
    requires UniqueEntries(rows, versionId) && 1 <= k <= |ItemsOf(rows, versionId)|
    ensures exists i :: 0 <= i < |rows| && rows[i].versionId == versionId
                        && Derived(dir, rows, versionId)[i].position == Some(k)
  {
    var s := ItemsOf(rows, versionId);
    UniqueItems(rows, versionId);
    ItemOrderIsStrict(dir, s);
    RankOnto(ItemOrder(dir), s, k);
    var x :| x in s && Rank(ItemOrder(dir), s, x) == k;
    var i :| 0 <= i < |rows| && rows[i].versionId == versionId && ItemOf(rows[i]) == x;
    assert Derived(dir, rows, versionId)[i].position == Some(k);
  }

  /** ORDER BY score {dir} NULLS LAST, entry_id ASC, in terms of the numbers. */
  predicate Outranks(dir: Direction, a: Placement, b: Placement) {
    match (a.score, b.score)
    case (Some(_), None) => true
    case (None, Some(_)) => false
    case (None, None) => a.entryId < b.entryId
    case (Some(x), Some(y)) =>
      if dir == Asc then Less(x, y) || (!Less(y, x) && a.entryId < b.entryId)
      else Less(y, x) || (!Less(x, y) && a.entryId < b.entryId)
  }

  lemma ItemsOutrank(dir: Direction, a: Placement, b: Placement)
    ensures ItemLt(dir, ItemOf(a), ItemOf(b)) <==> Outranks(dir, a, b)
  {
    hide OrderKey, Less;
    if a.score.Some? && b.score.Some? {
      OrderIsNumeric(a.score.value, b.score.value);
      OrderIsNumeric(b.score.value, a.score.value);
    }
  }

  /** Positions rise exactly as the rows get worse, so no two rows share one. */
  lemma DerivedFollowsScores(
    dir: Direction, rows: seq<Placement>, versionId: VersionId, i: nat, j: nat)
    requires UniqueEntries(rows, versionId) && i < |rows| && j < |rows| && i != j
    requires rows[i].versionId == versionId == rows[j].versionId
    ensures var r := Derived(dir, rows, versionId);
            && r[i].position != r[j].position
            && (r[i].position.value < r[j].position.value
                <==> Outranks(dir, rows[i], rows[j]))
  {
    UniqueItems(rows, versionId);
    ItemOrderIsStrict(dir, ItemsOf(rows, versionId));
    DerivedAt(dir, rows, versionId, i);
    DerivedAt(dir, rows, versionId, j);
    assert rows[i].entryId != rows[j].entryId by {
      assert i < j || j < i;
    }
    RankMonotone(ItemOrder(dir), ItemsOf(rows, versionId), ItemOf(rows[i]), ItemOf(rows[j]));
    hide Outranks, ItemLt;
    ItemsOutrank(dir, rows[i], rows[j]);
  }

  /** No other numbering does: whatever writes 1..n in that order wrote this table. */
  lemma DerivedIsCanonical(
    dir: Direction, rows: seq<Placement>, versionId: VersionId, other: seq<Placement>)
    requires UniqueEntries(rows, versionId) && |other| == |rows|
    requires forall i | 0 <= i < |rows| ::
               if rows[i].versionId == versionId then other[i] == rows[i].(position := other[i].position)
               else other[i] == rows[i]
    requires forall i | 0 <= i < |rows| && rows[i].versionId == versionId ::
               other[i].position.Some?
               && 1 <= other[i].position.value <= |ItemsOf(rows, versionId)|
    requires forall i, j | 0 <= i < |rows| && 0 <= j < |rows|
                           && rows[i].versionId == versionId == rows[j].versionId
                           && Outranks(dir, rows[i], rows[j]) ::
               other[i].position.value < other[j].position.value
    ensures other == Derived(dir, rows, versionId)
  {
    hide Outranks, ItemLt;
    forall i, j | 0 <= i < |rows| && 0 <= j < |rows|
      ensures ItemLt(dir, ItemOf(rows[i]), ItemOf(rows[j])) <==> Outranks(dir, rows[i], rows[j])
    {
      ItemsOutrank(dir, rows[i], rows[j]);
    }
    NumberMapIsRank(dir, rows, versionId, other);
    forall i | 0 <= i < |rows| ensures other[i] == Derived(dir, rows, versionId)[i] {
      if rows[i].versionId == versionId {
        DerivedAt(dir, rows, versionId, i);
        assert other[i].position == Some(NumberMap(rows, versionId, other)[ItemOf(rows[i])]);
      }
    }
  }

  lemma NumberMapIsRank(
    dir: Direction, rows: seq<Placement>, versionId: VersionId, other: seq<Placement>)
    requires UniqueEntries(rows, versionId) && |other| == |rows|
    requires forall i | 0 <= i < |rows| && rows[i].versionId == versionId ::
               other[i].position.Some?
               && 1 <= other[i].position.value <= |ItemsOf(rows, versionId)|
    requires forall i, j | 0 <= i < |rows| && 0 <= j < |rows|
                           && rows[i].versionId == versionId == rows[j].versionId
                           && ItemLt(dir, ItemOf(rows[i]), ItemOf(rows[j])) ::
               other[i].position.value < other[j].position.value
    ensures forall x | x in ItemsOf(rows, versionId) ::
              NumberMap(rows, versionId, other)[x]
              == Rank(ItemOrder(dir), ItemsOf(rows, versionId), x)
  {
    hide OrderKey, Better;
    var s := ItemsOf(rows, versionId);
    var lt := ItemOrder(dir);
    var pos := NumberMap(rows, versionId, other);
    forall x, y | x in s && y in s && lt(x, y) ensures pos[x] < pos[y] {
      var i :| 0 <= i < |rows| && rows[i].versionId == versionId && ItemOf(rows[i]) == x;
      var j :| 0 <= j < |rows| && rows[j].versionId == versionId && ItemOf(rows[j]) == y;
      assert ItemLt(dir, ItemOf(rows[i]), ItemOf(rows[j]));
    }
    UniqueItems(rows, versionId);
    ItemOrderIsStrict(dir, s);
    forall x | x in s ensures 1 <= pos[x] <= |s| {
      var i :| 0 <= i < |rows| && rows[i].versionId == versionId && ItemOf(rows[i]) == x;
    }
    RankUnique(lt, s, pos);
  }

  ghost function NumberMap(rows: seq<Placement>, versionId: VersionId, other: seq<Placement>)
    : (pos: map<Item, int>)
    requires UniqueEntries(rows, versionId) && |other| == |rows|
    requires forall i | 0 <= i < |rows| && rows[i].versionId == versionId :: other[i].position.Some?
    ensures pos.Keys == ItemsOf(rows, versionId)
    ensures forall i | 0 <= i < |rows| && rows[i].versionId == versionId ::
              ItemOf(rows[i]) in pos && pos[ItemOf(rows[i])] == other[i].position.value
  {
    assert forall i | 0 <= i < |rows| && rows[i].versionId == versionId ::
      rows[i] in rows && ItemOf(rows[i]) in ItemsOf(rows, versionId);
    map x | x in ItemsOf(rows, versionId) :: Numbered(rows, versionId, other, x)
  }

  /** The number that `other` gives to item x. */
  ghost function Numbered(
    rows: seq<Placement>, versionId: VersionId, other: seq<Placement>, x: Item): (k: int)
    requires UniqueEntries(rows, versionId) && |other| == |rows|
    requires forall i | 0 <= i < |rows| && rows[i].versionId == versionId :: other[i].position.Some?
    requires x in ItemsOf(rows, versionId)
    ensures exists i :: 0 <= i < |rows| && rows[i].versionId == versionId
                        && ItemOf(rows[i]) == x && k == other[i].position.value
    ensures forall i | 0 <= i < |rows| && rows[i].versionId == versionId && ItemOf(rows[i]) == x ::
              k == other[i].position.value
  {
    var i :| 0 <= i < |rows| && rows[i].versionId == versionId && ItemOf(rows[i]) == x;
    other[i].position.value
  }

  /** The insertion order of the rows is irrelevant: a row gets the same position
      in any permutation of the table. */
  lemma DerivedIgnoresRowOrder(
    dir: Direction, rows: seq<Placement>, shuffled: seq<Placement>, versionId: VersionId, i: nat, j: nat)
    requires multiset(rows) == multiset(shuffled)
    requires i < |rows| && j < |shuffled| && rows[i] == shuffled[j]
    ensures Derived(dir, rows, versionId)[i] == Derived(dir, shuffled, versionId)[j]
  {
    forall p ensures p in rows <==> p in shuffled {
      assert p in multiset(rows) <==> p in multiset(shuffled);
    }
    assert ItemsOf(rows, rows[i].versionId) == ItemsOf(shuffled, rows[i].versionId);
  }

  // --------------------------------------------------------- live (Redis)

  /** Redis orders equal scores by the bytes of the member. */
  predicate LexLess(a: string, b: string) {
    if b == "" then false
    else if a == "" then true
    else if a[0] == b[0] then LexLess(a[1..], b[1..])
    else a[0] < b[0]
  }

  lemma {:induction false} LexTotal(a: string, b: string)
    ensures a == b <==> !LexLess(a, b) && !LexLess(b, a)
    ensures !(LexLess(a, b) && LexLess(b, a))
  {
    if a != "" && b != "" && a[0] == b[0] {
      LexTotal(a[1..], b[1..]);
      assert a == [a[0]] + a[1..] && b == [b[0]] + b[1..];
    }
  }

  lemma {:induction false} LexTransitive(a: string, b: string, c: string)
    requires LexLess(a, b) && LexLess(b, c)
    ensures LexLess(a, c)
  {
    if a != "" && a[0] == b[0] == c[0] {
      LexTransitive(a[1..], b[1..], c[1..]);
    }
  }

  lemma NamesTransitive(a: string, b: string, c: string)
    requires !LexLess(b, a) && !LexLess(c, b)
    ensures !LexLess(c, a)
  {
    LexTotal(a, b);
    LexTotal(b, c);
    if a != b && b != c {
      LexTransitive(a, b, c);
    }
    LexTotal(a, c);
  }

  /** a is a proper prefix of b, or smaller where they first differ. */
  ghost predicate BytesBefore(a: string, b: string) {
    exists n: nat :: n <= |a| && n < |b| && a[..n] == b[..n] && (n == |a| || a[n] < b[n])
  }

  lemma SamePrefix(a: string, b: string, n: nat)
    requires n <= |a| && n <= |b| && a[..n] == b[..n]
    ensures n > 0 ==> a[0] == b[0]
  {
    if n > 0 {
      assert a[..n][0] == b[..n][0];
    }
  }

  lemma {:induction false} LexIsBytewise(a: string, b: string)
    ensures LexLess(a, b) <==> BytesBefore(a, b)
  {
    if a != "" && b != "" && a[0] == b[0] {
      LexIsBytewise(a[1..], b[1..]);
      if BytesBefore(a[1..], b[1..]) {
        var n: nat :| n <= |a[1..]| && n < |b[1..]| && a[1..][..n] == b[1..][..n]
                      && (n == |a[1..]| || a[1..][n] < b[1..][n]);
        assert a[..n + 1] == [a[0]] + a[1..][..n] && b[..n + 1] == [b[0]] + b[1..][..n];
      }
      if BytesBefore(a, b) {
        var n: nat :| n <= |a| && n < |b| && a[..n] == b[..n] && (n == |a| || a[n] < b[n]);
        assert n > 0;
        assert a[1..][..n - 1] == a[..n][1..] && b[1..][..n - 1] == b[..n][1..];
      }
    } else if a == "" && b != "" {
      assert a[..0] == b[..0];
    } else if a != "" && b != "" {
      assert a[..0] == b[..0];
      if BytesBefore(a, b) {
        var n: nat :| n <= |a| && n < |b| && a[..n] == b[..n] && (n == |a| || a[n] < b[n]);
        SamePrefix(a, b, n);
      }
    }
  }

  /** The order of a sorted set, lowest first. */
  predicate ZLess(scores: map<Slug, Float64>, a: Slug, b: Slug)
    requires a in scores && b in scores
  {
    if OrderKey(scores[a]) == OrderKey(scores[b]) then LexLess(a, b)
    else OrderKey(scores[a]) < OrderKey(scores[b])
  }

  /** ZRANGE for ascending boards, ZREVRANGE (the same list reversed) otherwise. */
  function LiveOrder(scores: map<Slug, Float64>, dir: Direction): (Slug, Slug) -> bool {
    (a: Slug, b: Slug) =>
      a in scores && b in scores && if dir == Asc then ZLess(scores, a, b) else ZLess(scores, b, a)
  }

  lemma LiveOrderIsStrict(scores: map<Slug, Float64>, dir: Direction)
    ensures StrictOrderOn(LiveOrder(scores, dir), scores.Keys)
  {
    var lt := LiveOrder(scores, dir);
    forall a, b | a in scores && b in scores
      ensures a == b ==> !lt(a, b)
      ensures a != b ==> lt(a, b) || lt(b, a)
    {
      LexTotal(a, b);
    }
    forall a, b, c | a in scores && b in scores && c in scores && lt(a, b) && lt(b, c)
      ensures lt(a, c)
    {
      if LexLess(a, b) && LexLess(b, c) {
        LexTransitive(a, b, c);
      }
      if LexLess(b, a) && LexLess(c, b) {
        LexTransitive(c, b, a);
      }
    }
  }

  datatype Standing = Standing(slug: Slug, name: string, position: int, score: Float64)

  ghost function LiveListing(scores: map<Slug, Float64>, dir: Direction): (q: seq<Slug>)
    ensures StrictlySorted(LiveOrder(scores, dir), q)
    ensures Elements(q) == scores.Keys && |q| == |scores|
  {
    LiveOrderIsStrict(scores, dir);
    Listing(LiveOrder(scores, dir), scores.Keys)
  }

  /** `latest`: the sorted set enumerated from 1; a missing name falls back to the slug. */
  ghost function Latest(scores: map<Slug, Float64>, names: map<Slug, string>, dir: Direction)
    : (r: seq<Standing>)
    ensures |r| == |scores|
  {
    var q := LiveListing(scores, dir);
    assert forall k | 0 <= k < |q| :: q[k] in Elements(q);
    seq(|q|, k requires 0 <= k < |q| =>
      Standing(q[k], if q[k] in names then names[q[k]] else q[k], k + 1, scores[q[k]]))
  }

  function LiveRank(scores: map<Slug, Float64>, dir: Direction, slug: Slug): int {
    Rank(LiveOrder(scores, dir), scores.Keys, slug)
  }

  lemma LatestRow(scores: map<Slug, Float64>, names: map<Slug, string>, dir: Direction, k: nat)
    requires k < |scores|
    ensures var row := Latest(scores, names, dir)[k];
            && row.slug == LiveListing(scores, dir)[k] && row.slug in scores && row.score == scores[row.slug]
  {
    var q := LiveListing(scores, dir);
    assert q[k] in Elements(q);
  }

  /** ZRANGE for ascending boards and ZREVRANGE for all others, in terms of the numbers:
      equal scores go by the bytes of the member, reversed with the rest. */
  ghost predicate Above(dir: Direction, a: Standing, b: Standing) {
    if dir == Asc then Less(a.score, b.score) || (!Less(b.score, a.score) && BytesBefore(a.slug, b.slug))
    else Less(b.score, a.score) || (!Less(a.score, b.score) && BytesBefore(b.slug, a.slug))
  }

  lemma LiveIsAbove(scores: map<Slug, Float64>, dir: Direction, a: Standing, b: Standing)
    requires a.slug in scores && b.slug in scores && a.score == scores[a.slug] && b.score == scores[b.slug]
    ensures LiveOrder(scores, dir)(a.slug, b.slug) <==> Above(dir, a, b)
  {
    hide OrderKey, Less, LexLess, BytesBefore;
    OrderIsNumeric(a.score, b.score);
    OrderIsNumeric(b.score, a.score);
    LexIsBytewise(a.slug, b.slug);
    LexIsBytewise(b.slug, a.slug);
  }

  /** Every row of `latest` is a scored slug at its rank, below every row before it,
      with its own score and name, or the slug for want of a name... */
  lemma LatestIsRanking(
    scores: map<Slug, Float64>, names: map<Slug, string>, dir: Direction, k: nat)
    requires k < |scores|
    ensures var row := Latest(scores, names, dir)[k];
            && row.slug in scores
            && row.score == scores[row.slug]
            && row.name == (if row.slug in names then names[row.slug] else row.slug)
            && row.position == k + 1 == LiveRank(scores, dir, row.slug)
            && forall j | 0 <= j < k :: Above(dir, Latest(scores, names, dir)[j], row)
  {
    var q := LiveListing(scores, dir);
    assert q[k] in Elements(q);
    forall j | 0 <= j < k ensures Above(dir, Latest(scores, names, dir)[j], Latest(scores, names, dir)[k]) {
      assert q[j] in Elements(q) && LiveOrder(scores, dir)(q[j], q[k]);
      hide *;
      LatestRow(scores, names, dir, j);
      LatestRow(scores, names, dir, k);
      LiveIsAbove(scores, dir, Latest(scores, names, dir)[j], Latest(scores, names, dir)[k]);
    }
    LiveOrderIsStrict(scores, dir);
    SortedIndexIsRank(LiveOrder(scores, dir), q, k);
  }

  /** ...and every scored slug has a row. */
  lemma LatestIsComplete(
    scores: map<Slug, Float64>, names: map<Slug, string>, dir: Direction, slug: Slug)
    requires slug in scores
    ensures exists k :: 0 <= k < |scores| && Latest(scores, names, dir)[k].slug == slug
  {
    var q := LiveListing(scores, dir);
    assert slug in Elements(q);
    var k :| 0 <= k < |q| && q[k] == slug;
    assert Latest(scores, names, dir)[k].slug == slug;
  }

  // --------------------------------------------------- live against frozen

  ghost predicate Injective(ids: map<Slug, EntryId>) {
    forall a, b | a in ids && b in ids && a != b :: ids[a] != ids[b]
  }

  function IdsOf(entries: map<Slug, EntryRow>): map<Slug, EntryId> {
    map slug | slug in entries :: entries[slug].id
  }

  function Frozen(scores: map<Slug, Float64>, ids: map<Slug, EntryId>): map<Slug, Item>
    requires scores.Keys <= ids.Keys
  {
    map slug | slug in scores :: Item(ids[slug], Some(scores[slug]))
  }

  /** The position a snapshot of the same scores stores for the slug. */
  function FrozenRank(
    scores: map<Slug, Float64>, ids: map<Slug, EntryId>, dir: Direction, slug: Slug): int
    requires scores.Keys <= ids.Keys && slug in scores
  {
    var frozen := Frozen(scores, ids);
    Rank(ItemOrder(dir), Image(frozen, scores.Keys), frozen[slug])
  }

  function FrozenOrder(scores: map<Slug, Float64>, ids: map<Slug, EntryId>, dir: Direction)
    : (Slug, Slug) -> bool
    requires scores.Keys <= ids.Keys
  {
    (a: Slug, b: Slug) =>
      a in scores && b in scores
      && ItemLt(dir, Item(ids[a], Some(scores[a])), Item(ids[b], Some(scores[b])))
  }

  function Group(scores: map<Slug, Float64>, key: int): set<Slug> {
    set s | s in scores && OrderKey(scores[s]) == key
  }

  /** The slugs with a strictly better score. */
  function Ahead(scores: map<Slug, Float64>, dir: Direction, key: int): set<Slug> {
    set s | s in scores && if dir == Asc then OrderKey(scores[s]) < key else OrderKey(scores[s]) > key
  }

  lemma FrozenOrderIsStrict(scores: map<Slug, Float64>, ids: map<Slug, EntryId>, dir: Direction)
    requires scores.Keys <= ids.Keys && Injective(ids)
    ensures StrictOrderOn(FrozenOrder(scores, ids, dir), scores.Keys)
  {
  }

  lemma FrozenRankOnSlugs(
    scores: map<Slug, Float64>, ids: map<Slug, EntryId>, dir: Direction, slug: Slug)
    requires scores.Keys <= ids.Keys && Injective(ids) && slug in scores
    ensures FrozenRank(scores, ids, dir, slug)
            == Rank(FrozenOrder(scores, ids, dir), scores.Keys, slug)
  {
    hide OrderKey, Better;
    var f := Frozen(scores, ids);
    var lt := FrozenOrder(scores, ids, dir);
    forall y, z | y in scores.Keys && z in scores.Keys
      ensures ItemOrder(dir)(f[y], f[z]) <==> lt(y, z)
    {
    }
    RankImage(lt, ItemOrder(dir), f, scores.Keys, slug);
  }

  /** Both rankings give each equal-score group the same block of positions: the
      ones right after all better scores. */
  lemma LiveMatchesFrozen(
    scores: map<Slug, Float64>, ids: map<Slug, EntryId>, dir: Direction, key: int, k: int)
    requires scores.Keys <= ids.Keys && Injective(ids)
    ensures var group := Group(scores, key);
            var ahead := |Ahead(scores, dir, key)|;
            && (ahead < k <= ahead + |group|
                <==> exists s :: s in group && LiveRank(scores, dir, s) == k)
            && (ahead < k <= ahead + |group|
                <==> exists s :: s in group && FrozenRank(scores, ids, dir, s) == k)
  {
    LiveBlock(scores, dir, key, k);
    FrozenBlock(scores, ids, dir, key, k);
  }

  lemma LiveBlock(scores: map<Slug, Float64>, dir: Direction, key: int, k: int)
    ensures |Ahead(scores, dir, key)| < k <= |Ahead(scores, dir, key)| + |Group(scores, key)|
            <==> exists s :: s in Group(scores, key) && LiveRank(scores, dir, s) == k
  {
    LiveOrderIsStrict(scores, dir);
    GroupRanks(LiveOrder(scores, dir), scores.Keys, Group(scores, key), Ahead(scores, dir, key));
    assert HasRank(LiveOrder(scores, dir), scores.Keys, Group(scores, key), k)
      <==> exists s :: s in Group(scores, key) && LiveRank(scores, dir, s) == k;
  }

  lemma FrozenBlock(
    scores: map<Slug, Float64>, ids: map<Slug, EntryId>, dir: Direction, key: int, k: int)
    requires scores.Keys <= ids.Keys && Injective(ids)
    ensures |Ahead(scores, dir, key)| < k <= |Ahead(scores, dir, key)| + |Group(scores, key)|
            <==> exists s :: s in Group(scores, key) && FrozenRank(scores, ids, dir, s) == k
  {
    var group := Group(scores, key);
    forall s | s in group
      ensures FrozenRank(scores, ids, dir, s) == Rank(FrozenOrder(scores, ids, dir), scores.Keys, s)
    {
      FrozenRankOnSlugs(scores, ids, dir, s);
    }
    FrozenOrderIsStrict(scores, ids, dir);
    GroupRanks(FrozenOrder(scores, ids, dir), scores.Keys, group, Ahead(scores, dir, key));
    assert HasRank(FrozenOrder(scores, ids, dir), scores.Keys, group, k)
      <==> exists s :: s in group && FrozenRank(scores, ids, dir, s) == k;
  }

  /** With no ties the two rankings are equal. */
  lemma LiveEqualsFrozenWithoutTies(
    scores: map<Slug, Float64>, ids: map<Slug, EntryId>, dir: Direction, slug: Slug)
    requires scores.Keys <= ids.Keys && Injective(ids) && slug in scores
    requires forall s | s in scores && s != slug :: OrderKey(scores[s]) != OrderKey(scores[slug])
    ensures LiveRank(scores, dir, slug) == FrozenRank(scores, ids, dir, slug)
  {
    var key := OrderKey(scores[slug]);
    assert Group(scores, key) == {slug};
    LiveMatchesFrozen(scores, ids, dir, key, LiveRank(scores, dir, slug));
  }
}
