/** `versions::diff` and `entries::history`: the difference of two versions as a
    patch that can be applied, reversed and composed. */
module Diff {
  import opened Core
  import opened Ordering
  import opened Ranking
  import opened Tables
  import opened Versions

  datatype DiffEntry = DiffEntry(
    entrySlug: Slug, entryName: string,
    position: Option<int>, score: Option<Float64>, tier: Option<string>)

  datatype DiffMovedEntry = DiffMovedEntry(
    entrySlug: Slug, entryName: string,
    fromPosition: Option<int>, toPosition: Option<int>,
    fromScore: Option<Float64>, toScore: Option<Float64>,
    fromTier: Option<string>, toTier: Option<string>)

  datatype VersionDiff = VersionDiff(
    fromVersion: int, toVersion: int,
    added: seq<DiffEntry>, removed: seq<DiffEntry>,
    moved: seq<DiffMovedEntry>, same: seq<DiffEntry>)

  type Rows = seq<PlacementWithEntry>

  // ----------------------------------------------------------- the four lists

  /** A HashMap collected from the rows: the last row of a slug wins. */
  function BySlug(rows: Rows): (m: map<Slug, PlacementWithEntry>)
    ensures forall slug | slug in m :: m[slug] in rows && m[slug].entrySlug == slug
    ensures forall i | 0 <= i < |rows| :: rows[i].entrySlug in m
  {
    if rows == [] then map[]
    else
      var last := rows[|rows| - 1];
      assert rows == rows[..|rows| - 1] + [last];
      BySlug(rows[..|rows| - 1])[last.entrySlug := last]
  }

  predicate SameSpot(a: PlacementWithEntry, b: PlacementWithEntry) {
    && a.placement.position == b.placement.position
    && ScoresEqual(a.placement.score, b.placement.score)
    && a.placement.tier == b.placement.tier
  }

  function Missing(m: map<Slug, PlacementWithEntry>): PlacementWithEntry -> bool {
    (p: PlacementWithEntry) => p.entrySlug !in m
  }

  function Changed(m: map<Slug, PlacementWithEntry>): PlacementWithEntry -> bool {
    (p: PlacementWithEntry) => p.entrySlug in m && !SameSpot(m[p.entrySlug], p)
  }

  function Kept(m: map<Slug, PlacementWithEntry>): PlacementWithEntry -> bool {
    (p: PlacementWithEntry) => p.entrySlug in m && SameSpot(m[p.entrySlug], p)
  }

  function EntryOf(p: PlacementWithEntry): DiffEntry {
    DiffEntry(p.entrySlug, p.entryName, p.placement.position, p.placement.score, p.placement.tier)
  }

  function MoveOf(a: PlacementWithEntry, b: PlacementWithEntry): DiffMovedEntry {
    DiffMovedEntry(b.entrySlug, b.entryName,
                   a.placement.position, b.placement.position,
                   a.placement.score, b.placement.score,
                   a.placement.tier, b.placement.tier)
  }

  function EntriesOf(rows: Rows): (r: seq<DiffEntry>)
    ensures |r| == |rows|
  {
    seq(|rows|, i requires 0 <= i < |rows| => EntryOf(rows[i]))
  }

  function MovesOf(m: map<Slug, PlacementWithEntry>, rows: Rows): (r: seq<DiffMovedEntry>)
    requires forall i | 0 <= i < |rows| :: rows[i].entrySlug in m
    ensures |r| == |rows|
  {
    seq(|rows|, i requires 0 <= i < |rows| => MoveOf(m[rows[i].entrySlug], rows[i]))
  }

  /** The specification of `diff` on the two lists of rows. */
  function DiffOf(from: Rows, to: Rows, n: int, m: int): VersionDiff {
    var fromMap, toMap := BySlug(from), BySlug(to);
    VersionDiff(n, m,
                EntriesOf(Filter(Missing(fromMap), to)),
                EntriesOf(Filter(Missing(toMap), from)),
                MovesOf(fromMap, Filter(Changed(fromMap), to)),
                EntriesOf(Filter(Kept(fromMap), to)))
  }

  lemma {:induction false} FilterSnoc<T>(p: T -> bool, s: seq<T>, x: T)
    ensures Filter(p, s + [x]) == Filter(p, s) + if p(x) then [x] else []
  {
    FilterAppend(p, s, [x]);
  }

  method DiffRows(from: Rows, to: Rows, n: int, m: int) returns (d: VersionDiff)
    ensures d == DiffOf(from, to, n, m)
  {
    var fromMap, toMap := BySlug(from), BySlug(to);
    var added: seq<DiffEntry>, same: seq<DiffEntry> := [], [];
    var moved: seq<DiffMovedEntry> := [];
    assert to[..0] == [];
    assert Filter(Missing(fromMap), to[..0]) == [] && Filter(Kept(fromMap), to[..0]) == [];
    assert Filter(Changed(fromMap), to[..0]) == [];
    hide Filter, BySlug;
    for i := 0 to |to|
      invariant added == EntriesOf(Filter(Missing(fromMap), to[..i]))
      invariant moved == MovesOf(fromMap, Filter(Changed(fromMap), to[..i]))
      invariant same == EntriesOf(Filter(Kept(fromMap), to[..i]))
    {
      var p := to[i];
      OneMore(fromMap, to, i);
      if p.entrySlug !in fromMap {
        added := added + [EntryOf(p)];
      } else {
        var fromP := fromMap[p.entrySlug];
        var posChanged := fromP.placement.position != p.placement.position;
        var scoreChanged := !ScoresEqual(fromP.placement.score, p.placement.score);
        var tierChanged := fromP.placement.tier != p.placement.tier;
        if posChanged || scoreChanged || tierChanged {
          moved := moved + [MoveOf(fromP, p)];
        } else {
          same := same + [EntryOf(p)];
        }
      }
    }
    assert to[..|to|] == to;
    var removed := RemovedRows(from, toMap);
    return VersionDiff(n, m, added, removed, moved, same);
  }

  method RemovedRows(from: Rows, toMap: map<Slug, PlacementWithEntry>) returns (removed: seq<DiffEntry>)
    ensures removed == EntriesOf(Filter(Missing(toMap), from))
  {
    removed := [];
    for i := 0 to |from|
      invariant removed == EntriesOf(Filter(Missing(toMap), from[..i]))
    {
      assert from[..i + 1] == from[..i] + [from[i]];
      FilterSnoc(Missing(toMap), from[..i], from[i]);
      if from[i].entrySlug !in toMap {
        removed := removed + [EntryOf(from[i])];
      }
    }
    assert from[..|from|] == from;
  }

  /** One more row of `to` goes to exactly one of the three lists. */
  lemma OneMore(m: map<Slug, PlacementWithEntry>, to: Rows, i: nat)
    requires i < |to|
    ensures EntriesOf(Filter(Missing(m), to[..i + 1]))
            == EntriesOf(Filter(Missing(m), to[..i])) + if to[i].entrySlug !in m then [EntryOf(to[i])] else []
    ensures MovesOf(m, Filter(Changed(m), to[..i + 1]))
            == MovesOf(m, Filter(Changed(m), to[..i]))
               + if Changed(m)(to[i]) then [MoveOf(m[to[i].entrySlug], to[i])] else []
    ensures EntriesOf(Filter(Kept(m), to[..i + 1]))
            == EntriesOf(Filter(Kept(m), to[..i])) + if Kept(m)(to[i]) then [EntryOf(to[i])] else []
  {
    assert to[..i + 1] == to[..i] + [to[i]];
    FilterSnoc(Missing(m), to[..i], to[i]);
    FilterSnoc(Changed(m), to[..i], to[i]);
    FilterSnoc(Kept(m), to[..i], to[i]);
  }

  // ------------------------------------------------------------------ patches

  /** Where an entry stands in a version. */
  datatype Spot = Spot(position: Option<int>, score: Option<Float64>, tier: Option<string>)

  function SpotOf(p: Placement): Spot {
    Spot(p.position, p.score, p.tier)
  }

  function Spots(rows: map<Slug, Placement>): map<Slug, Spot> {
    map slug | slug in rows :: SpotOf(rows[slug])
  }

  /** What a diff says to do: drop some slugs, then put others. */
  datatype Patch = Patch(drop: set<Slug>, put: map<Slug, Spot>)

  function Puts(added: seq<DiffEntry>): map<Slug, Spot> {
    if added == [] then map[]
    else
      var e := added[|added| - 1];
      Puts(added[..|added| - 1])[e.entrySlug := Spot(e.position, e.score, e.tier)]
  }

  function PatchOf(d: VersionDiff): Patch {
    Patch(set i | 0 <= i < |d.removed| :: d.removed[i].entrySlug, Puts(d.added) + Puts(Targets(d.moved)))
  }

  function Apply(p: Patch, m: map<Slug, Spot>): map<Slug, Spot> {
    (m - p.drop) + p.put
  }

  /** First p, then q. */
  function Compose(p: Patch, q: Patch): Patch {
    Patch(p.drop + q.drop, (p.put - q.drop) + q.put)
  }

  function Flip(e: DiffMovedEntry): DiffMovedEntry {
    DiffMovedEntry(e.entrySlug, e.entryName,
                   e.toPosition, e.fromPosition, e.toScore, e.fromScore, e.toTier, e.fromTier)
  }

  /** The diff read backwards, without looking at the versions again. */
  function Reverse(d: VersionDiff): VersionDiff {
    VersionDiff(d.toVersion, d.fromVersion, d.removed, d.added,
                Flipped(d.moved), d.same)
  }

  function Flipped(moved: seq<DiffMovedEntry>): (r: seq<DiffMovedEntry>)
    ensures |r| == |moved|
  {
    seq(|moved|, i requires 0 <= i < |moved| => Flip(moved[i]))
  }

  // ------------------------------------------------------ lists and their maps

  lemma BySlugIs(rows: Rows, m: map<Slug, Placement>)
    requires Lists(rows, m)
    ensures BySlug(rows).Keys == m.Keys
    ensures forall slug | slug in m :: BySlug(rows)[slug].placement == m[slug]
    ensures forall i | 0 <= i < |rows| :: BySlug(rows)[rows[i].entrySlug] == rows[i]
  {
    var b := BySlug(rows);
    forall slug | slug in m ensures slug in b {
      var i :| 0 <= i < |rows| && rows[i].entrySlug == slug;
    }
    forall slug | slug in b ensures slug in m && b[slug].placement == m[slug] {
      var k :| 0 <= k < |rows| && rows[k] == b[slug];
    }
    forall i | 0 <= i < |rows| ensures b[rows[i].entrySlug] == rows[i] {
      var k :| 0 <= k < |rows| && rows[k] == b[rows[i].entrySlug];
      assert k == i;
    }
  }

  /** Where the row of a slug is, in the list of a mapping. */
  ghost function IndexOf(rows: Rows, m: map<Slug, Placement>, slug: Slug): (i: nat)
    requires Lists(rows, m) && slug in m
    ensures i < |rows| && rows[i].entrySlug == slug && rows[i].placement == m[slug]
  {
    var i :| 0 <= i < |rows| && rows[i].entrySlug == slug;
    i
  }

  ghost predicate HasSlug(rows: Rows, slug: Slug) {
    exists i :: 0 <= i < |rows| && rows[i].entrySlug == slug
  }

  ghost predicate Distinct(rows: Rows) {
    forall i, j | 0 <= i < j < |rows| :: rows[i].entrySlug != rows[j].entrySlug
  }

  lemma {:induction false} FilterDistinct(p: PlacementWithEntry -> bool, rows: Rows)
    requires Distinct(rows)
    ensures Distinct(Filter(p, rows))
  {
    if rows != [] {
      FilterDistinct(p, rows[1..]);
      FilterKeeps(p, rows[1..]);
      var f := Filter(p, rows[1..]);
      forall k | 0 <= k < |f| ensures f[k].entrySlug != rows[0].entrySlug {
        assert f[k] in rows[1..];
        var j :| 0 <= j < |rows[1..]| && rows[1..][j] == f[k];
        assert rows[j + 1] == f[k];
      }
    }
  }

  /** The rows kept: one per slug of the mapping whose row passes. */
  lemma FilterLists(p: PlacementWithEntry -> bool, rows: Rows, m: map<Slug, Placement>, slug: Slug)
    requires Lists(rows, m)
    ensures Distinct(Filter(p, rows))
    ensures HasSlug(Filter(p, rows), slug) <==> slug in m && p(rows[IndexOf(rows, m, slug)])
  {
    FilterDistinct(p, rows);
    FilterKeeps(p, rows);
    var f := Filter(p, rows);
    if HasSlug(f, slug) {
      var k :| 0 <= k < |f| && f[k].entrySlug == slug;
      assert f[k] in rows;
      var i :| 0 <= i < |rows| && rows[i] == f[k];
      assert i == IndexOf(rows, m, slug);
    }
    if slug in m && p(rows[IndexOf(rows, m, slug)]) {
      assert rows[IndexOf(rows, m, slug)] in f;
    }
  }

  /** The list has an entry for the slug. */
  ghost predicate Mentions(list: seq<DiffEntry>, slug: Slug) {
    exists i :: 0 <= i < |list| && list[i].entrySlug == slug
  }

  ghost predicate MentionsMove(list: seq<DiffMovedEntry>, slug: Slug) {
    exists i :: 0 <= i < |list| && list[i].entrySlug == slug
  }

  /** No slug twice. */
  ghost predicate OncePerSlug(list: seq<DiffEntry>) {
    forall i, j | 0 <= i < j < |list| :: list[i].entrySlug != list[j].entrySlug
  }

  ghost predicate MovesOncePerSlug(list: seq<DiffMovedEntry>) {
    forall i, j | 0 <= i < j < |list| :: list[i].entrySlug != list[j].entrySlug
  }

  ghost predicate NoRepeats(d: VersionDiff) {
    OncePerSlug(d.added) && OncePerSlug(d.removed) && MovesOncePerSlug(d.moved) && OncePerSlug(d.same)
  }

  /** Another position, another score, by its bits, or another tier. */
  predicate Moves(p: Placement, q: Placement) {
    p.position != q.position || p.score != q.score || p.tier != q.tier
  }

  /** The four lists partition the slugs of the two versions. */
  lemma Partition(from: Rows, to: Rows, a: map<Slug, Placement>, b: map<Slug, Placement>, n: int, m: int, slug: Slug)
    requires Lists(from, a) && Lists(to, b)
    ensures var d := DiffOf(from, to, n, m);
            && NoRepeats(d)
            && (Mentions(d.added, slug) <==> slug in b && slug !in a)
            && (Mentions(d.removed, slug) <==> slug in a && slug !in b)
            && (MentionsMove(d.moved, slug) <==> slug in a && slug in b && Moves(a[slug], b[slug]))
            && (Mentions(d.same, slug) <==> slug in a && slug in b && !Moves(a[slug], b[slug]))
  {
    AddedIs(from, to, a, b, slug);
    AddedIs(to, from, b, a, slug);
    MovedIs(from, to, a, b, slug);
    SameIs(from, to, a, b, slug);
    hide Lists, BySlug, Filter, EntriesOf, MovesOf, Mentions, MentionsMove, OncePerSlug, MovesOncePerSlug;
  }

  lemma AddedIs(from: Rows, to: Rows, a: map<Slug, Placement>, b: map<Slug, Placement>, slug: Slug)
    requires Lists(from, a) && Lists(to, b)
    ensures var list := EntriesOf(Filter(Missing(BySlug(from)), to));
            OncePerSlug(list) && (Mentions(list, slug) <==> slug in b && slug !in a)
  {
    BySlugIs(from, a);
    Selected(Missing(BySlug(from)), to, b, slug);
    hide Lists, BySlug, Filter, EntriesOf, Mentions, OncePerSlug;
  }

  lemma MovedIs(from: Rows, to: Rows, a: map<Slug, Placement>, b: map<Slug, Placement>, slug: Slug)
    requires Lists(from, a) && Lists(to, b)
    ensures var fm := BySlug(from);
            var list := MovesOf(fm, Filter(Changed(fm), to));
            && MovesOncePerSlug(list)
            && (MentionsMove(list, slug) <==> slug in a && slug in b && SpotOf(a[slug]) != SpotOf(b[slug]))
  {
    SelectedMoves(BySlug(from), to, b, slug);
    if slug in b {
      SpotsAgree(from, a, to[IndexOf(to, b, slug)]);
    }
    hide Lists, BySlug, Filter, MovesOf, MentionsMove, MovesOncePerSlug, SameSpot, SpotOf;
  }

  lemma SpotsAgree(from: Rows, a: map<Slug, Placement>, p: PlacementWithEntry)
    requires Lists(from, a)
    ensures p.entrySlug in BySlug(from) <==> p.entrySlug in a
    ensures p.entrySlug in a ==>
              (SameSpot(BySlug(from)[p.entrySlug], p) <==> SpotOf(a[p.entrySlug]) == SpotOf(p.placement))
  {
    BySlugIs(from, a);
  }

  lemma SameIs(from: Rows, to: Rows, a: map<Slug, Placement>, b: map<Slug, Placement>, slug: Slug)
    requires Lists(from, a) && Lists(to, b)
    ensures var list := EntriesOf(Filter(Kept(BySlug(from)), to));
            && OncePerSlug(list)
            && (Mentions(list, slug) <==> slug in a && slug in b && SpotOf(a[slug]) == SpotOf(b[slug]))
  {
    Selected(Kept(BySlug(from)), to, b, slug);
    if slug in b {
      SpotsAgree(from, a, to[IndexOf(to, b, slug)]);
    }
    hide Lists, BySlug, Filter, EntriesOf, Mentions, OncePerSlug, SameSpot, SpotOf;
  }

  lemma Selected(p: PlacementWithEntry -> bool, rows: Rows, m: map<Slug, Placement>, slug: Slug)
    requires Lists(rows, m)
    ensures var list := EntriesOf(Filter(p, rows));
            && OncePerSlug(list)
            && (Mentions(list, slug) <==> slug in m && p(rows[IndexOf(rows, m, slug)]))
  {
    FilterLists(p, rows, m, slug);
    hide Lists;
    var f := Filter(p, rows);
    if HasSlug(f, slug) {
      var k :| 0 <= k < |f| && f[k].entrySlug == slug;
      assert EntriesOf(f)[k].entrySlug == slug;
    }
  }

  lemma SelectedMoves(fm: map<Slug, PlacementWithEntry>, rows: Rows, m: map<Slug, Placement>, slug: Slug)
    requires Lists(rows, m)
    ensures var list := MovesOf(fm, Filter(Changed(fm), rows));
            && MovesOncePerSlug(list)
            && (MentionsMove(list, slug) <==> slug in m && Changed(fm)(rows[IndexOf(rows, m, slug)]))
  {
    FilterLists(Changed(fm), rows, m, slug);
    hide Lists;
    var f := Filter(Changed(fm), rows);
    if HasSlug(f, slug) {
      var k :| 0 <= k < |f| && f[k].entrySlug == slug;
      assert MovesOf(fm, f)[k].entrySlug == slug;
    }
  }

  // --------------------------------------------------------- what a diff does

  lemma {:induction false} PutsKeys(list: seq<DiffEntry>)
    ensures forall slug :: slug in Puts(list) <==> Mentions(list, slug)
  {
    if list != [] {
      var n := |list| - 1;
      PutsKeys(list[..n]);
      forall slug ensures slug in Puts(list) <==> Mentions(list, slug) {
        if Mentions(list[..n], slug) {
          var k :| 0 <= k < n && list[..n][k].entrySlug == slug;
          assert list[k].entrySlug == slug;
        }
        if Mentions(list, slug) && slug != list[n].entrySlug {
          var k :| 0 <= k < |list| && list[k].entrySlug == slug;
          assert list[..n][k].entrySlug == slug;
        }
      }
    }
  }

  lemma {:induction false} PutsIs(list: seq<DiffEntry>)
    requires OncePerSlug(list)
    ensures forall i | 0 <= i < |list| ::
              list[i].entrySlug in Puts(list)
              && Puts(list)[list[i].entrySlug] == Spot(list[i].position, list[i].score, list[i].tier)
  {
    if list != [] {
      var n := |list| - 1;
      PutsIs(list[..n]);
      forall i | 0 <= i < n
        ensures list[i].entrySlug in Puts(list)
        ensures Puts(list)[list[i].entrySlug] == Spot(list[i].position, list[i].score, list[i].tier)
      {
        assert list[..n][i] == list[i];
      }
    }
  }

  /** A move puts its target: the same as an entry with that spot. */
  function Target(e: DiffMovedEntry): DiffEntry {
    DiffEntry(e.entrySlug, e.entryName, e.toPosition, e.toScore, e.toTier)
  }

  function Targets(moved: seq<DiffMovedEntry>): (r: seq<DiffEntry>)
    ensures |r| == |moved|
  {
    seq(|moved|, i requires 0 <= i < |moved| => Target(moved[i]))
  }

  /** The entries carry the spots of a version. */
  ghost predicate Carries(list: seq<DiffEntry>, m: map<Slug, Placement>) {
    forall i | 0 <= i < |list| ::
      list[i].entrySlug in m
      && Spot(list[i].position, list[i].score, list[i].tier) == SpotOf(m[list[i].entrySlug])
  }

  lemma SelectedCarries(p: PlacementWithEntry -> bool, rows: Rows, m: map<Slug, Placement>)
    requires Lists(rows, m)
    ensures Carries(EntriesOf(Filter(p, rows)), m)
  {
    FilterKeeps(p, rows);
    var f := Filter(p, rows);
    forall i | 0 <= i < |f| ensures f[i].entrySlug in m && f[i].placement == m[f[i].entrySlug] {
      assert f[i] in rows;
    }
  }

  lemma MovesCarry(from: Rows, to: Rows, a: map<Slug, Placement>, b: map<Slug, Placement>)
    requires Lists(from, a) && Lists(to, b)
    ensures var fm := BySlug(from);
            var moved := MovesOf(fm, Filter(Changed(fm), to));
            Carries(Targets(moved), b) && Carries(Targets(Flipped(moved)), a)
  {
    BySlugIs(from, a);
    var fm := BySlug(from);
    FilterKeeps(Changed(fm), to);
    hide BySlug;
    var f := Filter(Changed(fm), to);
    forall i | 0 <= i < |f| ensures f[i].entrySlug in b && f[i].placement == b[f[i].entrySlug] {
      assert f[i] in to;
    }
  }

  /** Applying the diff to the first version gives the second. */
  lemma ApplyReaches(from: Rows, to: Rows, a: map<Slug, Placement>, b: map<Slug, Placement>, n: int, m: int)
    requires Lists(from, a) && Lists(to, b)
    ensures Apply(PatchOf(DiffOf(from, to, n, m)), Spots(a)) == Spots(b)
  {
    var d := DiffOf(from, to, n, m);
    SelectedCarries(Missing(BySlug(from)), to, b);
    MovesCarry(from, to, a, b);
    DiffConnects(from, to, a, b, n, m);
    hide Lists, DiffOf;
    PatchActs(d, a, b);
  }

  /** The lists say how the two mappings differ. */
  ghost predicate Connects(d: VersionDiff, a: map<Slug, Placement>, b: map<Slug, Placement>) {
    && NoRepeats(d)
    && (forall slug :: Mentions(d.added, slug) <==> slug in b && slug !in a)
    && (forall slug :: Mentions(d.removed, slug) <==> slug in a && slug !in b)
    && (forall slug :: MentionsMove(d.moved, slug)
                       <==> slug in a && slug in b && SpotOf(a[slug]) != SpotOf(b[slug]))
  }

  lemma DiffConnects(from: Rows, to: Rows, a: map<Slug, Placement>, b: map<Slug, Placement>, n: int, m: int)
    requires Lists(from, a) && Lists(to, b)
    ensures Connects(DiffOf(from, to, n, m), a, b)
  {
    var d := DiffOf(from, to, n, m);
    Partition(from, to, a, b, n, m, "");
    forall slug: Slug
      ensures Mentions(d.added, slug) <==> slug in b && slug !in a
      ensures Mentions(d.removed, slug) <==> slug in a && slug !in b
      ensures MentionsMove(d.moved, slug) <==> slug in a && slug in b && SpotOf(a[slug]) != SpotOf(b[slug])
    {
      Partition(from, to, a, b, n, m, slug);
    }
  }

  /** What a patch with these lists does. */
  lemma PatchActs(d: VersionDiff, a: map<Slug, Placement>, b: map<Slug, Placement>)
    requires Connects(d, a, b) && Carries(d.added, b) && Carries(Targets(d.moved), b)
    ensures Apply(PatchOf(d), Spots(a)) == Spots(b)
  {
    var p := PatchOf(d);
    PatchParts(d, b);
    hide PatchOf, Puts, Mentions, MentionsMove, Carries, NoRepeats, SpotOf;
    assert Apply(p, Spots(a)).Keys == Spots(b).Keys;
  }

  lemma PatchParts(d: VersionDiff, b: map<Slug, Placement>)
    requires NoRepeats(d) && Carries(d.added, b) && Carries(Targets(d.moved), b)
    ensures forall slug :: slug in PatchOf(d).drop <==> Mentions(d.removed, slug)
    ensures forall slug :: slug in PatchOf(d).put <==> Mentions(d.added, slug) || MentionsMove(d.moved, slug)
    ensures forall slug | slug in PatchOf(d).put :: slug in b && PatchOf(d).put[slug] == SpotOf(b[slug])
  {
    var p := PatchOf(d);
    TargetsMention(d.moved);
    PutsKeys(d.added);
    PutsKeys(Targets(d.moved));
    forall slug ensures slug in p.drop <==> Mentions(d.removed, slug) {
    }
    hide Mentions, MentionsMove, Puts;
    forall slug | slug in p.put ensures slug in b && p.put[slug] == SpotOf(b[slug]) {
      if slug in Puts(Targets(d.moved)) {
        PutCarries(Targets(d.moved), b, slug);
      } else {
        PutCarries(d.added, b, slug);
      }
    }
  }

  lemma PutCarries(list: seq<DiffEntry>, m: map<Slug, Placement>, slug: Slug)
    requires OncePerSlug(list) && Carries(list, m) && slug in Puts(list)
    ensures slug in m && Puts(list)[slug] == SpotOf(m[slug])
  {
    PutsIs(list);
    PutsKeys(list);
    var i :| 0 <= i < |list| && list[i].entrySlug == slug;
  }

  lemma TargetsMention(moved: seq<DiffMovedEntry>)
    ensures forall slug :: Mentions(Targets(moved), slug) <==> MentionsMove(moved, slug)
    ensures OncePerSlug(Targets(moved)) <==> MovesOncePerSlug(moved)
  {
    var t := Targets(moved);
    assert forall i | 0 <= i < |moved| :: t[i].entrySlug == moved[i].entrySlug;
    forall slug ensures Mentions(t, slug) <==> MentionsMove(moved, slug) {
      if MentionsMove(moved, slug) {
        var k :| 0 <= k < |moved| && moved[k].entrySlug == slug;
        assert t[k].entrySlug == slug;
      }
    }
    if OncePerSlug(t) {
      forall i, j | 0 <= i < j < |moved| ensures moved[i].entrySlug != moved[j].entrySlug {
        assert t[i].entrySlug != t[j].entrySlug;
      }
    }
  }

  /** A diff is invertible on its own: read backwards it undoes itself... */
  lemma ReverseUndoes(from: Rows, to: Rows, a: map<Slug, Placement>, b: map<Slug, Placement>, n: int, m: int)
    requires Lists(from, a) && Lists(to, b)
    ensures Apply(PatchOf(Reverse(DiffOf(from, to, n, m))), Spots(b)) == Spots(a)
  {
    var d := DiffOf(from, to, n, m);
    SelectedCarries(Missing(BySlug(to)), from, a);
    MovesCarry(from, to, a, b);
    DiffConnects(from, to, a, b, n, m);
    assert Carries(d.removed, a) && Carries(Targets(Flipped(d.moved)), a);
    hide Lists, DiffOf;
    ReverseConnects(d, a, b);
    hide Connects, Carries;
    PatchActs(Reverse(d), b, a);
  }

  lemma ReverseConnects(d: VersionDiff, a: map<Slug, Placement>, b: map<Slug, Placement>)
    requires Connects(d, a, b)
    ensures Connects(Reverse(d), b, a)
  {
    FlippedMention(d.moved);
    hide Mentions, MentionsMove, OncePerSlug, MovesOncePerSlug, Flipped;
  }

  lemma FlippedMention(moved: seq<DiffMovedEntry>)
    ensures forall slug :: MentionsMove(Flipped(moved), slug) <==> MentionsMove(moved, slug)
    ensures MovesOncePerSlug(Flipped(moved)) <==> MovesOncePerSlug(moved)
  {
    var t := Flipped(moved);
    assert forall i | 0 <= i < |moved| :: t[i].entrySlug == moved[i].entrySlug;
    forall slug ensures MentionsMove(t, slug) <==> MentionsMove(moved, slug) {
      if MentionsMove(moved, slug) {
        var k :| 0 <= k < |moved| && moved[k].entrySlug == slug;
        assert t[k].entrySlug == slug;
      }
    }
    if MovesOncePerSlug(t) {
      forall i, j | 0 <= i < j < |moved| ensures moved[i].entrySlug != moved[j].entrySlug {
        assert t[i].entrySlug != t[j].entrySlug;
      }
    }
  }

  /** ...and it is, up to order, the diff of the versions taken the other way round. */
  lemma ReverseIsDiff(
    from: Rows, to: Rows, a: map<Slug, Placement>, b: map<Slug, Placement>,
    entries: map<Slug, EntryRow>, n: int, m: int)
    requires Lists(from, a) && Lists(to, b) && Named(from, entries) && Named(to, entries)
    ensures var r, d := Reverse(DiffOf(from, to, n, m)), DiffOf(to, from, m, n);
            && r.fromVersion == d.fromVersion && r.toVersion == d.toVersion
            && r.added == d.added && r.removed == d.removed
            && (forall e :: e in r.moved <==> e in d.moved)
            && (forall e :: e in r.same <==> e in d.same)
  {
    var r, d := Reverse(DiffOf(from, to, n, m)), DiffOf(to, from, m, n);
    forall e ensures e in r.moved <==> e in d.moved {
      MovedBothWays(from, to, a, b, entries, e);
    }
    forall e ensures e in r.same <==> e in d.same {
      SameBothWays(from, to, a, b, entries, e);
    }
    hide Lists, BySlug, Filter, EntriesOf, MovesOf;
  }

  lemma MovedBothWays(
    from: Rows, to: Rows, a: map<Slug, Placement>, b: map<Slug, Placement>,
    entries: map<Slug, EntryRow>, e: DiffMovedEntry)
    requires Lists(from, a) && Lists(to, b) && Named(from, entries) && Named(to, entries)
    ensures e in Flipped(MovesOf(BySlug(from), Filter(Changed(BySlug(from)), to)))
            <==> e in MovesOf(BySlug(to), Filter(Changed(BySlug(to)), from))
  {
    FlippedElements(MovesOf(BySlug(from), Filter(Changed(BySlug(from)), to)));
    hide Flipped;
    assert Flip(Flip(e)) == e;
    if Flip(e) in MovesOf(BySlug(from), Filter(Changed(BySlug(from)), to)) {
      MovesFlip(from, to, a, b, entries, Flip(e));
    }
    if e in MovesOf(BySlug(to), Filter(Changed(BySlug(to)), from)) {
      MovesFlip(to, from, b, a, entries, e);
    }
  }

  lemma SameBothWays(
    from: Rows, to: Rows, a: map<Slug, Placement>, b: map<Slug, Placement>,
    entries: map<Slug, EntryRow>, e: DiffEntry)
    requires Lists(from, a) && Lists(to, b) && Named(from, entries) && Named(to, entries)
    ensures e in EntriesOf(Filter(Kept(BySlug(from)), to)) <==> e in EntriesOf(Filter(Kept(BySlug(to)), from))
  {
    if e in EntriesOf(Filter(Kept(BySlug(from)), to)) {
      SameAgain(from, to, a, b, entries, e);
    }
    if e in EntriesOf(Filter(Kept(BySlug(to)), from)) {
      SameAgain(to, from, b, a, entries, e);
    }
  }

  lemma FlippedElements(moved: seq<DiffMovedEntry>)
    ensures forall e :: e in Flipped(moved) <==> Flip(e) in moved
  {
    forall e ensures e in Flipped(moved) <==> Flip(e) in moved {
      if Flip(e) in moved {
        var k :| 0 <= k < |moved| && moved[k] == Flip(e);
        assert Flipped(moved)[k] == e;
      }
    }
  }

  lemma MoveWitness(fm: map<Slug, PlacementWithEntry>, to: Rows, e: DiffMovedEntry)
    returns (q: PlacementWithEntry)
    requires e in MovesOf(fm, Filter(Changed(fm), to))
    ensures q in to && Changed(fm)(q) && e == MoveOf(fm[q.entrySlug], q)
  {
    FilterKeeps(Changed(fm), to);
    var f := Filter(Changed(fm), to);
    var k :| 0 <= k < |f| && MovesOf(fm, f)[k] == e;
    q := f[k];
  }

  lemma MoveInList(fm: map<Slug, PlacementWithEntry>, to: Rows, q: PlacementWithEntry)
    requires q in to && Changed(fm)(q)
    ensures MoveOf(fm[q.entrySlug], q) in MovesOf(fm, Filter(Changed(fm), to))
  {
    FilterKeeps(Changed(fm), to);
    var f := Filter(Changed(fm), to);
    var k :| 0 <= k < |f| && f[k] == q;
    assert MovesOf(fm, f)[k] == MoveOf(fm[q.entrySlug], q);
  }

  lemma EntryWitness(p: PlacementWithEntry -> bool, rows: Rows, e: DiffEntry) returns (q: PlacementWithEntry)
    requires e in EntriesOf(Filter(p, rows))
    ensures q in rows && p(q) && e == EntryOf(q)
  {
    FilterKeeps(p, rows);
    var f := Filter(p, rows);
    var k :| 0 <= k < |f| && EntriesOf(f)[k] == e;
    q := f[k];
  }

  lemma EntryInList(p: PlacementWithEntry -> bool, rows: Rows, q: PlacementWithEntry)
    requires q in rows && p(q)
    ensures EntryOf(q) in EntriesOf(Filter(p, rows))
  {
    FilterKeeps(p, rows);
    var f := Filter(p, rows);
    var k :| 0 <= k < |f| && f[k] == q;
    assert EntriesOf(f)[k] == EntryOf(q);
  }

  /** The row of a slug in either list, and its partner in the other. */
  lemma Partners(
    from: Rows, to: Rows, a: map<Slug, Placement>, b: map<Slug, Placement>,
    entries: map<Slug, EntryRow>, q: PlacementWithEntry)
    requires Lists(from, a) && Lists(to, b) && Named(from, entries) && Named(to, entries)
    requires q in to && q.entrySlug in BySlug(from)
    ensures var p := BySlug(from)[q.entrySlug];
            && p in from && p.entrySlug == q.entrySlug && p.entryName == q.entryName
            && p.entrySlug in BySlug(to) && BySlug(to)[p.entrySlug] == q
  {
    BySlugIs(to, b);
  }

  lemma MovesFlip(
    from: Rows, to: Rows, a: map<Slug, Placement>, b: map<Slug, Placement>,
    entries: map<Slug, EntryRow>, e: DiffMovedEntry)
    requires Lists(from, a) && Lists(to, b) && Named(from, entries) && Named(to, entries)
    requires e in MovesOf(BySlug(from), Filter(Changed(BySlug(from)), to))
    ensures Flip(e) in MovesOf(BySlug(to), Filter(Changed(BySlug(to)), from))
  {
    var q := MoveWitness(BySlug(from), to, e);
    Partners(from, to, a, b, entries, q);
    hide Lists, Named, BySlug, Filter, MovesOf;
    var p := BySlug(from)[q.entrySlug];
    MoveInList(BySlug(to), from, p);
  }

  lemma SameEntry(p: PlacementWithEntry, q: PlacementWithEntry)
    requires p.entrySlug == q.entrySlug && p.entryName == q.entryName && SameSpot(p, q)
    ensures EntryOf(p) == EntryOf(q) && SameSpot(q, p)
  {
  }

  lemma SameAgain(
    from: Rows, to: Rows, a: map<Slug, Placement>, b: map<Slug, Placement>,
    entries: map<Slug, EntryRow>, e: DiffEntry)
    requires Lists(from, a) && Lists(to, b) && Named(from, entries) && Named(to, entries)
    requires e in EntriesOf(Filter(Kept(BySlug(from)), to))
    ensures e in EntriesOf(Filter(Kept(BySlug(to)), from))
  {
    var q := EntryWitness(Kept(BySlug(from)), to, e);
    Partners(from, to, a, b, entries, q);
    hide *;
    var p := BySlug(from)[q.entrySlug];
    SameEntry(p, q);
    EntryInList(Kept(BySlug(to)), from, p);
  }

  /** Composing patches is doing one after the other, on every version. */
  lemma ComposeIsSequence(p: Patch, q: Patch, m: map<Slug, Spot>)
    ensures Apply(Compose(p, q), m) == Apply(q, Apply(p, m))
  {
  }

  /** Two consecutive diffs compose to a patch that does what the direct diff does. */
  lemma DiffsCompose(
    r1: Rows, r2: Rows, r3: Rows,
    a: map<Slug, Placement>, b: map<Slug, Placement>, c: map<Slug, Placement>, i: int, j: int, k: int)
    requires Lists(r1, a) && Lists(r2, b) && Lists(r3, c)
    ensures var first, second := PatchOf(DiffOf(r1, r2, i, j)), PatchOf(DiffOf(r2, r3, j, k));
            Apply(Compose(first, second), Spots(a)) == Apply(PatchOf(DiffOf(r1, r3, i, k)), Spots(a)) == Spots(c)
  {
    ApplyReaches(r1, r2, a, b, i, j);
    ApplyReaches(r2, r3, b, c, j, k);
    ApplyReaches(r1, r3, a, c, i, k);
    ComposeIsSequence(PatchOf(DiffOf(r1, r2, i, j)), PatchOf(DiffOf(r2, r3, j, k)), Spots(a));
  }

  // ------------------------------------------------------- the diff, written out

  /** An entry of a list, with the row it is taken from. */
  predicate EntryReads(e: DiffEntry, name: string, row: Placement) {
    e.entryName == name && e.position == row.position && e.score == row.score && e.tier == row.tier
  }

  predicate MoveReads(e: DiffMovedEntry, name: string, from: Placement, to: Placement) {
    && e.entryName == name
    && e.fromPosition == from.position && e.fromScore == from.score && e.fromTier == from.tier
    && e.toPosition == to.position && e.toScore == to.score && e.toTier == to.tier
  }

  function NameOf(entries: map<Slug, EntryRow>, slug: Slug): string {
    if slug in entries then entries[slug].name else ""
  }

  ghost predicate AllRead(list: seq<DiffEntry>, entries: map<Slug, EntryRow>, rows: map<Slug, Placement>) {
    forall e | e in list :: e.entrySlug in rows && EntryReads(e, NameOf(entries, e.entrySlug), rows[e.entrySlug])
  }

  ghost predicate AllMovesRead(
    list: seq<DiffMovedEntry>, entries: map<Slug, EntryRow>, a: map<Slug, Placement>, b: map<Slug, Placement>)
  {
    forall e | e in list ::
      && e.entrySlug in a && e.entrySlug in b
      && MoveReads(e, NameOf(entries, e.entrySlug), a[e.entrySlug], b[e.entrySlug])
  }

  /** Who is in the four lists, once each. */
  ghost predicate IsParted(a: map<Slug, Placement>, b: map<Slug, Placement>, d: VersionDiff) {
    && NoRepeats(d)
    && forall slug ::
         && (Mentions(d.added, slug) <==> slug in b && slug !in a)
         && (Mentions(d.removed, slug) <==> slug in a && slug !in b)
         && (MentionsMove(d.moved, slug) <==> slug in a && slug in b && Moves(a[slug], b[slug]))
         && (Mentions(d.same, slug) <==> slug in a && slug in b && !Moves(a[slug], b[slug]))
  }

  function EntrySlugs(list: seq<DiffEntry>): (r: seq<Slug>)
    ensures |r| == |list|
  {
    seq(|list|, i requires 0 <= i < |list| => list[i].entrySlug)
  }

  function MoveSlugs(list: seq<DiffMovedEntry>): (r: seq<Slug>)
    ensures |r| == |list|
  {
    seq(|list|, i requires 0 <= i < |list| => list[i].entrySlug)
  }

  /** The slugs stand in the order in which the version is fetched. */
  ghost predicate InQueryOrder(
    config: Option<TierConfig>, entries: map<Slug, EntryRow>, rows: map<Slug, Placement>, slugs: seq<Slug>)
  {
    forall i, j | 0 <= i < j < |slugs| :: slugs[i] in rows && slugs[j] in rows ==>
      MayPrecede(config, PlacementWithEntry(rows[slugs[i]], slugs[i], NameOf(entries, slugs[i])),
                 PlacementWithEntry(rows[slugs[j]], slugs[j], NameOf(entries, slugs[j])))
  }

  /** Each list in the order of the version it comes from. */
  ghost predicate IsOrdered(
    config: Option<TierConfig>, entries: map<Slug, EntryRow>, a: map<Slug, Placement>, b: map<Slug, Placement>,
    d: VersionDiff)
  {
    && InQueryOrder(config, entries, b, EntrySlugs(d.added)) && InQueryOrder(config, entries, a, EntrySlugs(d.removed))
    && InQueryOrder(config, entries, b, MoveSlugs(d.moved)) && InQueryOrder(config, entries, b, EntrySlugs(d.same))
  }

  ghost predicate Sorted(config: Option<TierConfig>, rows: Rows) {
    forall i, j | 0 <= i < j < |rows| :: MayPrecede(config, rows[i], rows[j])
  }

  lemma ListedRow(rows: Rows, m: map<Slug, Placement>, entries: map<Slug, EntryRow>, k: nat)
    requires Lists(rows, m) && Named(rows, entries) && k < |rows|
    ensures rows[k].entrySlug in m
    ensures rows[k] == PlacementWithEntry(m[rows[k].entrySlug], rows[k].entrySlug, NameOf(entries, rows[k].entrySlug))
  {
  }

  lemma KeptInOrder(
    p: PlacementWithEntry -> bool, rows: Rows, m: map<Slug, Placement>, config: Option<TierConfig>,
    entries: map<Slug, EntryRow>, slugs: seq<Slug>)
    requires Lists(rows, m) && Named(rows, entries) && Sorted(config, rows)
    requires |slugs| == |Filter(p, rows)| && forall i | 0 <= i < |slugs| :: slugs[i] == Filter(p, rows)[i].entrySlug
    ensures InQueryOrder(config, entries, m, slugs)
  {
    hide Lists, Named, Filter, MayPrecede, NameOf;
    forall i, j | 0 <= i < j < |slugs| && slugs[i] in m && slugs[j] in m
      ensures MayPrecede(config, PlacementWithEntry(m[slugs[i]], slugs[i], NameOf(entries, slugs[i])),
                         PlacementWithEntry(m[slugs[j]], slugs[j], NameOf(entries, slugs[j])))
    {
      var k, l := FilterIndices(p, rows, i, j);
      ListedRow(rows, m, entries, k);
      ListedRow(rows, m, entries, l);
      assert MayPrecede(config, rows[k], rows[l]);
    }
  }

  lemma EntriesInOrder(
    p: PlacementWithEntry -> bool, rows: Rows, m: map<Slug, Placement>, config: Option<TierConfig>,
    entries: map<Slug, EntryRow>)
    requires Lists(rows, m) && Named(rows, entries) && Sorted(config, rows)
    ensures InQueryOrder(config, entries, m, EntrySlugs(EntriesOf(Filter(p, rows))))
  {
    hide Lists, Named, Sorted, Filter, InQueryOrder;
    KeptInOrder(p, rows, m, config, entries, EntrySlugs(EntriesOf(Filter(p, rows))));
  }

  lemma MovesInOrder(
    fm: map<Slug, PlacementWithEntry>, rows: Rows, m: map<Slug, Placement>, config: Option<TierConfig>,
    entries: map<Slug, EntryRow>)
    requires Lists(rows, m) && Named(rows, entries) && Sorted(config, rows)
    ensures InQueryOrder(config, entries, m, MoveSlugs(MovesOf(fm, Filter(Changed(fm), rows))))
  {
    var moves := MovesOf(fm, Filter(Changed(fm), rows));
    hide Lists, Named, Sorted, Filter, InQueryOrder;
    KeptInOrder(Changed(fm), rows, m, config, entries, MoveSlugs(moves));
  }

  lemma DiffOrdered(
    from: Rows, to: Rows, a: map<Slug, Placement>, b: map<Slug, Placement>, config: Option<TierConfig>,
    entries: map<Slug, EntryRow>, n: int, m: int)
    requires Lists(from, a) && Lists(to, b) && Named(from, entries) && Named(to, entries)
    requires Sorted(config, from) && Sorted(config, to)
    ensures IsOrdered(config, entries, a, b, DiffOf(from, to, n, m))
  {
    hide Lists, Named, Filter, BySlug, InQueryOrder, Sorted, EntrySlugs, MoveSlugs, EntriesOf, MovesOf;
    EntriesInOrder(Missing(BySlug(from)), to, b, config, entries);
    EntriesInOrder(Missing(BySlug(to)), from, a, config, entries);
    EntriesInOrder(Kept(BySlug(from)), to, b, config, entries);
    MovesInOrder(BySlug(from), to, b, config, entries);
  }

  /** The whole diff. Added, moved and unchanged entries read as in the second
      version, removed ones as in the first, all under the entries' names. */
  ghost predicate IsDiff(
    entries: map<Slug, EntryRow>, a: map<Slug, Placement>, b: map<Slug, Placement>, n: int, m: int, d: VersionDiff)
  {
    && d.fromVersion == n && d.toVersion == m && IsParted(a, b, d)
    && AllRead(d.added, entries, b) && AllRead(d.removed, entries, a) && AllRead(d.same, entries, b)
    && AllMovesRead(d.moved, entries, a, b)
  }

  lemma SelectedReads(
    p: PlacementWithEntry -> bool, rows: Rows, m: map<Slug, Placement>, entries: map<Slug, EntryRow>, e: DiffEntry)
    requires Lists(rows, m) && Named(rows, entries) && e in EntriesOf(Filter(p, rows))
    ensures e.entrySlug in m && EntryReads(e, NameOf(entries, e.entrySlug), m[e.entrySlug])
  {
    var q := EntryWitness(p, rows, e);
    hide Filter, EntriesOf;
    var i :| 0 <= i < |rows| && rows[i] == q;
  }

  lemma MovedReads(
    from: Rows, to: Rows, a: map<Slug, Placement>, b: map<Slug, Placement>, entries: map<Slug, EntryRow>,
    e: DiffMovedEntry)
    requires Lists(from, a) && Lists(to, b) && Named(to, entries)
    requires e in MovesOf(BySlug(from), Filter(Changed(BySlug(from)), to))
    ensures e.entrySlug in a && e.entrySlug in b
    ensures MoveReads(e, NameOf(entries, e.entrySlug), a[e.entrySlug], b[e.entrySlug])
  {
    BySlugIs(from, a);
    var q := MoveWitness(BySlug(from), to, e);
    hide Filter, MovesOf, BySlug, SameSpot;
    var i :| 0 <= i < |to| && to[i] == q;
  }

  lemma ListReads(p: PlacementWithEntry -> bool, rows: Rows, m: map<Slug, Placement>, entries: map<Slug, EntryRow>)
    requires Lists(rows, m) && Named(rows, entries)
    ensures AllRead(EntriesOf(Filter(p, rows)), entries, m)
  {
    hide Lists, Named, Filter, EntriesOf, EntryReads, NameOf;
    forall e | e in EntriesOf(Filter(p, rows))
      ensures e.entrySlug in m && EntryReads(e, NameOf(entries, e.entrySlug), m[e.entrySlug])
    {
      SelectedReads(p, rows, m, entries, e);
    }
  }

  lemma MovesRead(
    from: Rows, to: Rows, a: map<Slug, Placement>, b: map<Slug, Placement>, entries: map<Slug, EntryRow>)
    requires Lists(from, a) && Lists(to, b) && Named(to, entries)
    ensures AllMovesRead(MovesOf(BySlug(from), Filter(Changed(BySlug(from)), to)), entries, a, b)
  {
    var moved := MovesOf(BySlug(from), Filter(Changed(BySlug(from)), to));
    hide Lists, Named, Filter, MovesOf, BySlug, MoveReads, NameOf;
    forall e | e in moved
      ensures e.entrySlug in a && e.entrySlug in b
      ensures MoveReads(e, NameOf(entries, e.entrySlug), a[e.entrySlug], b[e.entrySlug])
    {
      MovedReads(from, to, a, b, entries, e);
    }
  }

  lemma DiffParted(from: Rows, to: Rows, a: map<Slug, Placement>, b: map<Slug, Placement>, n: int, m: int)
    requires Lists(from, a) && Lists(to, b)
    ensures IsParted(a, b, DiffOf(from, to, n, m))
  {
    var d := DiffOf(from, to, n, m);
    hide DiffOf, Lists, Mentions, MentionsMove, NoRepeats, Moves;
    Partition(from, to, a, b, n, m, "");
    forall slug
      ensures Mentions(d.added, slug) <==> slug in b && slug !in a
      ensures Mentions(d.removed, slug) <==> slug in a && slug !in b
      ensures MentionsMove(d.moved, slug) <==> slug in a && slug in b && Moves(a[slug], b[slug])
      ensures Mentions(d.same, slug) <==> slug in a && slug in b && !Moves(a[slug], b[slug])
    {
      Partition(from, to, a, b, n, m, slug);
    }
  }

  lemma DiffReads(
    from: Rows, to: Rows, a: map<Slug, Placement>, b: map<Slug, Placement>, entries: map<Slug, EntryRow>,
    n: int, m: int)
    requires Lists(from, a) && Lists(to, b) && Named(from, entries) && Named(to, entries)
    ensures IsDiff(entries, a, b, n, m, DiffOf(from, to, n, m))
  {
    hide Lists, Named, Filter, MovesOf, BySlug, EntriesOf, AllRead, AllMovesRead, IsParted;
    DiffParted(from, to, a, b, n, m);
    ListReads(Missing(BySlug(from)), to, b, entries);
    ListReads(Missing(BySlug(to)), from, a, entries);
    ListReads(Kept(BySlug(from)), to, b, entries);
    MovesRead(from, to, a, b, entries);
  }

  /** `diff`: not found exactly when one of the versions is missing. */
  method Diff(t: Tables, n: int, m: int) returns (r: Result<VersionDiff>)
    requires WellFormed(t)
    ensures r.Success? <==>
              && (exists i :: 0 <= i < |t.versions| && t.versions[i].number == n)
              && (exists i :: 0 <= i < |t.versions| && t.versions[i].number == m)
    ensures r.Failure? ==> r.error == NotFound
    ensures r.Success? ==>
              exists v, w :: v in t.versions && v.number == n && w in t.versions && w.number == m
                             && r.value == DiffOf(FetchPlacements(t, v.id), FetchPlacements(t, w.id), n, m)
                             && IsDiff(t.entries, Standings(t, v.id), Standings(t, w.id), n, m, r.value)
                             && IsOrdered(t.board.tierConfig, t.entries, Standings(t, v.id), Standings(t, w.id),
                                          r.value)
  {
    var from :- GetByNumber(t, n);
    var to :- GetByNumber(t, m);
    var d := DiffRows(from.placements, to.placements, n, m);
    var v, w := from.version.id, to.version.id;
    FetchIsStandings(t, v);
    FetchIsStandings(t, w);
    FetchIsSorted(t, v);
    FetchIsSorted(t, w);
    hide WellFormed, IsDiff, IsOrdered, Lists, Named, DiffOf, Standings, FetchPlacements, MayPrecede;
    DiffReads(from.placements, to.placements, Standings(t, v), Standings(t, w), t.entries, n, m);
    DiffOrdered(from.placements, to.placements, Standings(t, v), Standings(t, w), t.board.tierConfig, t.entries, n, m);
    return Success(d);
  }

  /** All of it for two versions of a board. */
  lemma VersionsDiffer(t: Tables, v: VersionId, w: VersionId, n: int, m: int)
    requires WellFormed(t)
    ensures var d := DiffOf(FetchPlacements(t, v), FetchPlacements(t, w), n, m);
            var a, b := Spots(Standings(t, v)), Spots(Standings(t, w));
            Apply(PatchOf(d), a) == b && Apply(PatchOf(Reverse(d)), b) == a
  {
    FetchIsStandings(t, v);
    FetchIsStandings(t, w);
    ApplyReaches(FetchPlacements(t, v), FetchPlacements(t, w), Standings(t, v), Standings(t, w), n, m);
    ReverseUndoes(FetchPlacements(t, v), FetchPlacements(t, w), Standings(t, v), Standings(t, w), n, m);
  }

  // ------------------------------------------------------------------ history

  datatype HistoryItem = HistoryItem(number: int, spot: Spot, metadata: Option<Json>)

  function OfEntry(e: EntryId): Placement -> bool {
    (p: Placement) => p.entryId == e
  }

  function RowsOfEntry(rows: seq<Placement>, e: EntryId): seq<Placement> {
    Filter(OfEntry(e), rows)
  }

  function ItemFor(t: Tables, p: Placement): HistoryItem
    requires IsVersion(t.versions, p.versionId)
  {
    HistoryItem(VersionById(t.versions, p.versionId).number, SpotOf(p), p.metadata)
  }

  function ItemsFor(t: Tables, rows: seq<Placement>): (r: seq<HistoryItem>)
    requires forall i | 0 <= i < |rows| :: IsVersion(t.versions, rows[i].versionId)
    ensures |r| == |rows|
  {
    seq(|rows|, i requires 0 <= i < |rows| => ItemFor(t, rows[i]))
  }

  function NumberOrder(): (HistoryItem, HistoryItem) -> bool {
    (a: HistoryItem, b: HistoryItem) => a.number <= b.number
  }

  lemma EntryRowsJoin(t: Tables, e: EntryId)
    requires PlacementsOk(t)
    ensures forall i | 0 <= i < |RowsOfEntry(t.placements, e)| ::
              IsVersion(t.versions, RowsOfEntry(t.placements, e)[i].versionId)
  {
  }

  /** `history`. */
  function History(t: Tables, slug: Slug, limit: nat): Result<seq<HistoryItem>>
    requires WellFormed(t)
  {
    if slug !in t.entries then Failure(NotFound)
    else
      EntryRowsJoin(t, t.entries[slug].id);
      var items := SortBy(NumberOrder(), ItemsFor(t, RowsOfEntry(t.placements, t.entries[slug].id)));
      Success(if |items| <= limit then items else items[..limit])
  }

  lemma HistoryWitness(t: Tables, slug: Slug, limit: nat, x: HistoryItem) returns (p: Placement)
    requires WellFormed(t) && slug in t.entries && limit >= |t.placements|
    requires x in History(t, slug, limit).value
    ensures p in t.placements && p.entryId == t.entries[slug].id && IsVersion(t.versions, p.versionId)
    ensures x == ItemFor(t, p)
  {
    var e := t.entries[slug].id;
    EntryRowsJoin(t, e);
    FilterKeeps(OfEntry(e), t.placements);
    var rows := RowsOfEntry(t.placements, e);
    var items := ItemsFor(t, rows);
    SortKeepsElements(NumberOrder(), items);
    var k :| 0 <= k < |items| && items[k] == x;
    p := rows[k];
  }

  lemma HistoryHolds(t: Tables, slug: Slug, limit: nat, p: Placement)
    requires WellFormed(t) && slug in t.entries && limit >= |t.placements|
    requires p in t.placements && p.entryId == t.entries[slug].id
    ensures IsVersion(t.versions, p.versionId)
    ensures ItemFor(t, p) in History(t, slug, limit).value
  {
    var e := t.entries[slug].id;
    EntryRowsJoin(t, e);
    FilterKeeps(OfEntry(e), t.placements);
    var rows := RowsOfEntry(t.placements, e);
    var items := ItemsFor(t, rows);
    SortKeepsElements(NumberOrder(), items);
    var k :| 0 <= k < |rows| && rows[k] == p;
    assert items[k] == ItemFor(t, p);
  }

  lemma RestIsUnique(rows: seq<Placement>, v: VersionId)
    requires UniqueEntries(rows, v) && rows != []
    ensures UniqueEntries(rows[1..], v)
  {
    forall i, j | 0 <= i < j < |rows[1..]| && rows[1..][i].versionId == v == rows[1..][j].versionId
      ensures rows[1..][i].entryId != rows[1..][j].entryId
    {
      assert rows[1..][i] == rows[i + 1] && rows[1..][j] == rows[j + 1];
    }
  }

  lemma {:induction false} EntryVersionsDiffer(rows: seq<Placement>, e: EntryId)
    requires forall v :: UniqueEntries(rows, v)
    ensures var f := RowsOfEntry(rows, e);
            forall i, j | 0 <= i < j < |f| :: f[i].versionId != f[j].versionId
  {
    if rows != [] {
      forall v ensures UniqueEntries(rows[1..], v) {
        RestIsUnique(rows, v);
      }
      EntryVersionsDiffer(rows[1..], e);
      FilterKeeps(OfEntry(e), rows[1..]);
      var g := RowsOfEntry(rows[1..], e);
      forall k | 0 <= k < |g| && rows[0].entryId == e ensures g[k].versionId != rows[0].versionId {
        assert g[k] in rows[1..];
        var j :| 0 <= j < |rows[1..]| && rows[1..][j] == g[k];
        assert UniqueEntries(rows, rows[0].versionId) && rows[j + 1] == g[k];
      }
    }
  }

  function NumberOf(): HistoryItem -> int {
    (x: HistoryItem) => x.number
  }

  lemma HistoryNumbersDiffer(t: Tables, rows: seq<Placement>)
    requires WellFormed(t) && forall i | 0 <= i < |rows| :: IsVersion(t.versions, rows[i].versionId)
    requires forall i, j | 0 <= i < j < |rows| :: rows[i].versionId != rows[j].versionId
    ensures DistinctBy(NumberOf(), ItemsFor(t, rows))
  {
    forall i, j | 0 <= i < j < |rows| ensures ItemFor(t, rows[i]).number != ItemFor(t, rows[j]).number {
      var a, b := VersionById(t.versions, rows[i].versionId), VersionById(t.versions, rows[j].versionId);
      if a.number == b.number {
        SameVersion(t, a, b);
      }
    }
  }

  lemma HistoryRowsDiffer(t: Tables, e: EntryId)
    requires WellFormed(t)
    ensures var rows := RowsOfEntry(t.placements, e);
            && PlacementsOk(t) && |rows| <= |t.placements|
            && (forall i | 0 <= i < |rows| :: IsVersion(t.versions, rows[i].versionId))
            && forall i, j | 0 <= i < j < |rows| :: rows[i].versionId != rows[j].versionId
  {
    EntryRowsJoin(t, e);
    EntryVersionsDiffer(t.placements, e);
  }

  /** The history ascends, one item for each version, and a limit only cuts its end. */
  lemma HistoryAscends(t: Tables, slug: Slug, limit: nat)
    requires WellFormed(t) && slug in t.entries
    ensures var h, all := History(t, slug, limit).value, History(t, slug, |t.placements|).value;
            && (forall i, j | 0 <= i < j < |h| :: h[i].number < h[j].number)
            && h == if |all| <= limit then all else all[..limit]
  {
    var e := t.entries[slug].id;
    HistoryRowsDiffer(t, e);
    hide WellFormed, VersionsOk, PlacementsOk, EntriesOk;
    var rows := RowsOfEntry(t.placements, e);
    HistoryNumbersDiffer(t, rows);
    var items := ItemsFor(t, rows);
    SortIsPermutation(NumberOrder(), items);
    SortIsSorted(NumberOrder(), items);
    SortKeepsDistinct(NumberOrder(), NumberOf(), items);
    var sorted := SortBy(NumberOrder(), items);
    forall i, j | 0 <= i < j < |sorted| ensures sorted[i].number < sorted[j].number {
      assert NumberOrder()(sorted[i], sorted[j]) && NumberOf()(sorted[i]) != NumberOf()(sorted[j]);
    }
  }

  /** The history of an entry, when the limit does not cut it: one item for each
      version that places it. */
  lemma HistoryIsStandings(t: Tables, slug: Slug, limit: nat, n: int)
    requires WellFormed(t) && slug in t.entries && limit >= |t.placements| && HasNumber(t.versions, n)
    ensures var h := History(t, slug, limit).value;
            var s := Standings(t, VersionAt(t.versions, n).id);
            && (forall x | x in h && x.number == n ::
                  && slug in s && x.metadata == s[slug].metadata && x.spot.position == s[slug].position
                  && x.spot.score == s[slug].score && x.spot.tier == s[slug].tier)
            && (slug in s ==> exists x :: x in h && x.number == n)
  {
    var v := VersionAt(t.versions, n);
    var s := Standings(t, v.id);
    var h := History(t, slug, limit).value;
    forall x | x in h && x.number == n
      ensures slug in s && x.metadata == s[slug].metadata && x.spot == SpotOf(s[slug])
    {
      var p := HistoryWitness(t, slug, limit, x);
      SameVersion(t, VersionById(t.versions, p.versionId), v);
      RowForIs(t.placements, v.id, p);
    }
    if slug in s {
      var p := s[slug];
      HistoryHolds(t, slug, limit, p);
      SameVersionId(t, VersionById(t.versions, v.id), v);
      assert ItemFor(t, p).number == n;
    }
  }

  lemma SameVersion(t: Tables, a: Version, b: Version)
    requires VersionsOk(t) && a in t.versions && b in t.versions && a.number == b.number
    ensures a == b
  {
    var i :| 0 <= i < |t.versions| && t.versions[i] == a;
    var j :| 0 <= j < |t.versions| && t.versions[j] == b;
    assert i == j;
  }

  lemma SameVersionId(t: Tables, a: Version, b: Version)
    requires VersionsOk(t) && a in t.versions && b in t.versions && a.id == b.id
    ensures a == b
  {
    var i :| 0 <= i < |t.versions| && t.versions[i] == a;
    var j :| 0 <= j < |t.versions| && t.versions[j] == b;
    assert i == j;
  }

  /** An entry is listed as moved exactly when its history has an item for both
      versions and the two differ in position, score bits or tier. */
  lemma MovedIffHistoryDiffers(t: Tables, n: int, m: int, slug: Slug, limit: nat)
    requires WellFormed(t) && slug in t.entries && limit >= |t.placements|
    requires HasNumber(t.versions, n) && HasNumber(t.versions, m)
    ensures var d := DiffOf(FetchPlacements(t, VersionAt(t.versions, n).id),
                            FetchPlacements(t, VersionAt(t.versions, m).id), n, m);
            var h := History(t, slug, limit).value;
            MentionsMove(d.moved, slug) <==>
            exists x, y :: x in h && y in h && x.number == n && y.number == m && x.spot != y.spot
  {
    var v, w := VersionAt(t.versions, n).id, VersionAt(t.versions, m).id;
    FetchIsStandings(t, v);
    FetchIsStandings(t, w);
    Partition(FetchPlacements(t, v), FetchPlacements(t, w), Standings(t, v), Standings(t, w), n, m, slug);
    HistoryIsStandings(t, slug, limit, n);
    HistoryIsStandings(t, slug, limit, m);
    hide *;
  }
}
