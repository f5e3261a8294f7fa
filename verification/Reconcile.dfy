/** The full-manifest reconciliation sweep: start compares digests, the agent pages its
    manifest into staging, and finish verifies it and repairs the library's rows. */
module Reconcile {
  import opened Common
  import opened Sorting
  import opened Replication
  import Microseconds

  // One manifest row, with its mtime in integer microseconds.
  datatype Row = Row(path: string, size: int, mtimeUs: int, quickHash: Option<string>, contentHash: Option<string>)

  type RowMap = map<string, Row>

  function PathOf(r: Row): string { r.path }

  ghost predicate Keyed(m: RowMap) { forall p <- m :: m[p].path == p }

  // How a staged time becomes a stored timestamp and is read back.
  datatype Clock = Clock(store: int -> int, read: int -> int)

  ghost predicate Faithful(clock: Clock, us: int) { clock.read(clock.store(us)) == us }

  // --- The digest ------------------------------------------------------------

  // The canonical serialization: rows in path order. Its JSON text and hash are a
  // parameter of everything below.
  function Blob(rows: seq<Row>): seq<Row> { Sort(rows, ByKey(PathOf)) }

  function ManifestDigest(hash: seq<Row> -> string, rows: seq<Row>): string { hash(Blob(rows)) }

  ghost predicate DistinctPaths(rows: seq<Row>) {
    forall a, b | a in rows && b in rows && a.path == b.path :: a == b
  }

  // rows lists m in some order, as a query does.
  ghost predicate Lists(rows: seq<Row>, m: RowMap) {
    NoDuplicates(rows) && forall r :: r in rows <==> r.path in m && m[r.path] == r
  }

  // Whatever order two listings of one table come in, they have one blob.
  lemma ListingsAgree(a: seq<Row>, b: seq<Row>, m: RowMap)
    requires Lists(a, m) && Lists(b, m)
    ensures Blob(a) == Blob(b) && |a| == |b|
  {
    DistinctSameMultiset(a, b);
    assert |multiset(a)| == |multiset(b)|;
    ByKeyOrdering(PathOf);
    ByKeyStrict(a, PathOf);
    SortForgetsOrder(a, b, ByKey(PathOf));
  }

  lemma ListingLength(a: seq<Row>, m: RowMap)
    requires Lists(a, m) && Keyed(m)
    ensures |a| == |m|
  {
    DistinctCount(a);
    var paths := seq(|a|, i requires 0 <= i < |a| => a[i].path);
    DistinctCount(paths);
    forall p ensures p in paths <==> p in m {
      if p in m {
        var i :| 0 <= i < |a| && a[i] == m[p];
        assert paths[i] == p;
      }
    }
    assert Elements(paths) == m.Keys;
  }

  // The digest and row count of a table, however it is listed.
  ghost predicate Digests(hash: seq<Row> -> string, m: RowMap, digest: string, count: int) {
    exists rows: seq<Row> :: Lists(rows, m) && digest == ManifestDigest(hash, rows) && count == |rows|
  }

  lemma DigestsExactly(hash: seq<Row> -> string, m: RowMap, rows: seq<Row>, digest: string, count: int)
    requires Lists(rows, m)
    ensures Digests(hash, m, digest, count) <==> digest == ManifestDigest(hash, rows) && count == |rows|
  {
    if other: seq<Row> :| Lists(other, m) && digest == ManifestDigest(hash, other) && count == |other| {
      ListingsAgree(rows, other, m);
    }
  }

  // Equal blobs list equal tables: nothing of a manifest is lost in its digest.
  lemma BlobDetermines(a: seq<Row>, b: seq<Row>, m: RowMap, n: RowMap)
    requires Lists(a, m) && Lists(b, n) && Keyed(m) && Keyed(n) && Blob(a) == Blob(b)
    ensures m == n
  {
    SortPermutes(a, ByKey(PathOf));
    SortPermutes(b, ByKey(PathOf));
    forall p ensures Get(m, p) == Get(n, p) {
      assert forall r: Row :: r in a <==> r in b;
      if p in m {
        assert m[p] in a;
      }
      if p in n {
        assert n[p] in b;
      }
    }
    MapsEqual(m, n);
  }

  // --- Staging ---------------------------------------------------------------

  // INSERT .. ON CONFLICT DO UPDATE on (session, rel_path).
  ghost function StagePage(m: RowMap, rows: seq<Row>): RowMap {
    if rows == [] then m
    else StagePage(m, rows[..|rows| - 1])[rows[|rows| - 1].path := rows[|rows| - 1]]
  }

  ghost function StageAll(pages: seq<seq<Row>>): RowMap {
    if pages == [] then map[] else StagePage(StageAll(pages[..|pages| - 1]), pages[|pages| - 1])
  }

  // Staging invariant over any pages drawn from a manifest.
  ghost predicate Holds(m: RowMap, manifest: seq<Row>) {
    Keyed(m) && forall p <- m :: m[p] in manifest
  }

  lemma {:induction false} StagePageHolds(m: RowMap, rows: seq<Row>, manifest: seq<Row>)
    requires DistinctPaths(manifest) && Holds(m, manifest) && forall r <- rows :: r in manifest
    ensures Holds(StagePage(m, rows), manifest)
    ensures forall p <- m :: Get(StagePage(m, rows), p) == Some(m[p])
    ensures forall r <- rows :: Get(StagePage(m, rows), r.path) == Some(r)
  {
    if rows != [] {
      assert rows == rows[..|rows| - 1] + [rows[|rows| - 1]];
      StagePageHolds(m, rows[..|rows| - 1], manifest);
      assert rows[|rows| - 1] in rows;
    }
  }

  lemma {:induction false} StageAllHolds(pages: seq<seq<Row>>, manifest: seq<Row>)
    requires DistinctPaths(manifest) && forall page <- pages :: forall r <- page :: r in manifest
    ensures Holds(StageAll(pages), manifest)
    ensures forall page <- pages :: forall r <- page :: Get(StageAll(pages), r.path) == Some(r)
  {
    if pages != [] {
      var front, last := pages[..|pages| - 1], pages[|pages| - 1];
      assert pages == front + [last] && last in pages;
      forall page <- front ensures forall r <- page :: r in manifest {
        assert page in pages;
      }
      StageAllHolds(front, manifest);
      StagePageHolds(StageAll(front), last, manifest);
    }
  }

  // A manifest with distinct paths, staged in any pages, in any order, with any
  // resends, has the agent's own digest and count.
  lemma PagingDoesNotMatter(hash: seq<Row> -> string, manifest: seq<Row>, pages: seq<seq<Row>>)
    requires NoDuplicates(manifest) && DistinctPaths(manifest)
    requires forall page <- pages :: forall r <- page :: r in manifest
    requires forall r <- manifest :: exists page :: page in pages && r in page
    ensures Lists(manifest, StageAll(pages))
    ensures Digests(hash, StageAll(pages), ManifestDigest(hash, manifest), |manifest|)
  {
    StageAllHolds(pages, manifest);
    forall r ensures r in manifest <==> Get(StageAll(pages), r.path) == Some(r) {
      if r in manifest {
        var page :| page in pages && r in page;
      }
    }
    DigestsExactly(hash, StageAll(pages), manifest, ManifestDigest(hash, manifest), |manifest|);
  }

  ghost predicate Injective(hash: seq<Row> -> string) {
    forall a, b :: hash(a) == hash(b) ==> a == b
  }

  // With an injective hash, finish verifies a staging area against the agent's digest
  // exactly when it holds the agent's manifest.
  lemma VerifiesExactly(hash: seq<Row> -> string, manifest: seq<Row>, want: RowMap, staged: RowMap)
    requires Injective(hash) && Keyed(want) && Keyed(staged) && Lists(manifest, want)
    ensures Digests(hash, staged, ManifestDigest(hash, manifest), |manifest|) <==> staged == want
  {
    if staged == want {
      DigestsExactly(hash, want, manifest, ManifestDigest(hash, manifest), |manifest|);
    }
    if rows: seq<Row> :| Lists(rows, staged) && ManifestDigest(hash, manifest) == ManifestDigest(hash, rows) {
      BlobDetermines(rows, manifest, staged, want);
    }
  }

  // --- What a sweep does to the rows -----------------------------------------

  ghost function ActivePaths(t: Table, lib: string): set<string> {
    set k <- t.Keys | k.lib == lib && t[k].status == Active :: k.path
  }

  function ProjectRow(path: string, i: Item, clock: Clock): Row {
    Row(path, i.size, clock.read(i.mtime), i.quickHash, i.contentHash)
  }

  // Central's own projection of a library: its active rows.
  ghost function ActiveRows(t: Table, lib: string, clock: Clock): RowMap {
    map p <- ActivePaths(t, lib) :: ProjectRow(p, t[Key(lib, p)], clock)
  }

  datatype Outcome = Upserted | TrashedConflict | Reactivated | Updated | Unchanged

  function OutcomeOf(o: Option<Item>, r: Row, clock: Clock): Outcome {
    match o
    case None => Upserted
    case Some(i) =>
      if i.status == Trashed then TrashedConflict
      else if i.status == Missing then Reactivated
      else if ProjectRow(r.path, i, clock) != r then Updated
      else Unchanged
  }

  function FromRow(r: Row, clock: Clock): Item {
    Item(r.size, clock.store(r.mtimeUs), r.quickHash, r.contentHash, Active)
  }

  ghost function Tombstoned(o: Option<Item>): Option<Item> {
    if o.Some? && o.value.status == Active then Some(o.value.(status := Missing)) else o
  }

  ghost function SweptItem(o: Option<Item>, r: Option<Row>, clock: Clock): Option<Item> {
    match r
    case None => Tombstoned(o)
    case Some(row) =>
      match OutcomeOf(o, row, clock)
      case TrashedConflict | Unchanged => o
      case _ => Some(FromRow(row, clock))
  }

  ghost predicate IsSwept(before: Table, after: Table, lib: string, staged: RowMap, clock: Clock) {
    forall k ::
      Get(after, k) == if k.lib == lib then SweptItem(Get(before, k), Get(staged, k.path), clock) else Get(before, k)
  }

  ghost predicate IsTrashed(t: Table, lib: string, path: string) {
    Key(lib, path) in t && t[Key(lib, path)].status == Trashed
  }

  // The staged manifest minus trashed paths.
  ghost function Wanted(t: Table, lib: string, staged: RowMap): RowMap {
    map p <- staged | !IsTrashed(t, lib, p) :: staged[p]
  }

  lemma ActiveRowAt(t: Table, lib: string, clock: Clock, p: string)
    ensures Get(ActiveRows(t, lib, clock), p)
            == if Key(lib, p) in t && t[Key(lib, p)].status == Active
               then Some(ProjectRow(p, t[Key(lib, p)], clock)) else None
  {
    if Key(lib, p) in t {
      assert Key(lib, p).path == p;
    }
  }

  // Convergence: the active rows after a sweep are the staged manifest minus trashed
  // paths; other libraries and trashed rows are untouched and no row disappears.
  lemma SweepConverges(before: Table, after: Table, lib: string, staged: RowMap, clock: Clock)
    requires IsSwept(before, after, lib, staged, clock) && Keyed(staged)
    requires forall p <- staged :: Faithful(clock, staged[p].mtimeUs)
    ensures ActiveRows(after, lib, clock) == Wanted(before, lib, staged)
    ensures forall k <- before :: k in after && (k.lib != lib || before[k].status == Trashed ==> after[k] == before[k])
  {
    forall p ensures Get(ActiveRows(after, lib, clock), p) == Get(Wanted(before, lib, staged), p) {
      var k := Key(lib, p);
      ActiveRowAt(after, lib, clock, p);
      assert Get(after, k) == SweptItem(Get(before, k), Get(staged, p), clock);
    }
    MapsEqual(ActiveRows(after, lib, clock), Wanted(before, lib, staged));
    forall k <- before ensures k in after && (k.lib != lib || before[k].status == Trashed ==> after[k] == before[k]) {
      assert Get(before, k) == Some(before[k]);
      assert Get(after, k).Some?;
    }
  }

  lemma WantedAll(t: Table, lib: string, staged: RowMap)
    ensures Wanted(t, lib, staged) == staged <==> forall p <- staged :: !IsTrashed(t, lib, p)
    ensures !(forall p <- staged :: !IsTrashed(t, lib, p)) ==> |Wanted(t, lib, staged)| < |staged|
  {
    var w := Wanted(t, lib, staged);
    if p :| p in staged && IsTrashed(t, lib, p) {
      assert w.Keys < staged.Keys;
      SubsetCount(w.Keys, staged.Keys);
      assert |w| == |w.Keys| && |staged| == |staged.Keys|;
    }
  }

  // The next start on the same manifest answers "match" if and only if no staged
  // path is in the trash: a trashed path is missing from central's own count.
  lemma NextStartMatchesExactly(hash: seq<Row> -> string, before: Table, after: Table, lib: string, staged: RowMap,
                                clock: Clock, manifest: seq<Row>)
    requires IsSwept(before, after, lib, staged, clock) && Keyed(staged)
    requires forall p <- staged :: Faithful(clock, staged[p].mtimeUs)
    requires Lists(manifest, staged)
    ensures Digests(hash, ActiveRows(after, lib, clock), ManifestDigest(hash, manifest), |manifest|)
            <==> forall p <- staged :: !IsTrashed(before, lib, p)
  {
    SweepConverges(before, after, lib, staged, clock);
    WantedAll(before, lib, staged);
    ListingLength(manifest, staged);
    if forall p <- staged :: !IsTrashed(before, lib, p) {
      DigestsExactly(hash, staged, manifest, ManifestDigest(hash, manifest), |manifest|);
    } else if central: seq<Row> :| Lists(central, Wanted(before, lib, staged)) && |central| == |manifest| {
      ListingLength(central, Wanted(before, lib, staged));
    }
  }

  // A library whose one file is in the trash: the sweep changes nothing, and the next
  // start on the agent's manifest opens a session again.
  lemma TrashedNeverMatches(hash: seq<Row> -> string)
    ensures var r, lib := Row("a", 1, 1, None, None), "lib";
            var t := map[Key(lib, "a") := Item(1, 1, None, None, Trashed)];
            var staged, clock := map["a" := r], Clock(x => x, x => x);
            && IsSwept(t, t, lib, staged, clock) && Lists([r], staged)
            && !Digests(hash, ActiveRows(t, lib, clock), ManifestDigest(hash, [r]), 1)
  {
    var r, lib := Row("a", 1, 1, None, None), "lib";
    var t := map[Key(lib, "a") := Item(1, 1, None, None, Trashed)];
    var staged, clock := map["a" := r], Clock(x => x, x => x);
    assert IsTrashed(t, lib, "a");
    NextStartMatchesExactly(hash, t, t, lib, staged, clock, [r]);
  }

  // A second finish leaves an untrashed path alone exactly when the first did, or its
  // time survives storing.
  lemma SecondFinishExactly(before: Table, after: Table, lib: string, staged: RowMap, clock: Clock, p: string)
    requires IsSwept(before, after, lib, staged, clock) && Keyed(staged) && p in staged
    requires !IsTrashed(before, lib, p)
    ensures OutcomeOf(Get(after, Key(lib, p)), staged[p], clock) == Unchanged
            <==> OutcomeOf(Get(before, Key(lib, p)), staged[p], clock) == Unchanged
                 || Faithful(clock, staged[p].mtimeUs)
  {
    assert Get(after, Key(lib, p)) == SweptItem(Get(before, Key(lib, p)), Some(staged[p]), clock);
  }

  // With no trashed path, a second finish counts every row unchanged and nothing else.
  lemma SecondFinishCounts(before: Table, after: Table, lib: string, staged: RowMap, clock: Clock, c: Counts)
    requires IsSwept(before, after, lib, staged, clock) && Keyed(staged)
    requires forall p <- staged :: !IsTrashed(before, lib, p) && Faithful(clock, staged[p].mtimeUs)
    requires Counted(c, after, lib, staged, clock, staged.Keys)
    requires c.tombstoned == |Doomed(after, lib, staged, after.Keys)|
    ensures c == Counts(0, 0, 0, 0, 0, |staged|)
  {
    forall p <- staged ensures OutcomeOf(Get(after, Key(lib, p)), staged[p], clock) == Unchanged {
      SecondFinishExactly(before, after, lib, staged, clock, p);
    }
    forall x: Outcome | x != Unchanged ensures Having(after, lib, staged, clock, staged.Keys, x) == {} {
    }
    assert Having(after, lib, staged, clock, staged.Keys, Unchanged) == staged.Keys;
    forall k ensures k !in Doomed(after, lib, staged, after.Keys) {
      assert Get(after, k)
          == if k.lib == lib then SweptItem(Get(before, k), Get(staged, k.path), clock) else Get(before, k);
    }
    assert Doomed(after, lib, staged, after.Keys) == {};
  }

  // Hence a sweep is a fixed point.
  lemma SweepFixedPoint(before: Table, after: Table, again: Table, lib: string, staged: RowMap, clock: Clock)
    requires IsSwept(before, after, lib, staged, clock) && IsSwept(after, again, lib, staged, clock) && Keyed(staged)
    requires forall p <- staged :: Faithful(clock, staged[p].mtimeUs)
    ensures again == after
  {
    forall k ensures Get(again, k) == Get(after, k) {
      if k.lib == lib && k.path in staged && !IsTrashed(before, lib, k.path) {
        SecondFinishExactly(before, after, lib, staged, clock, k.path);
        assert k == Key(lib, k.path);
      } else {
        assert Get(after, k)
            == if k.lib == lib then SweptItem(Get(before, k), Get(staged, k.path), clock) else Get(before, k);
      }
    }
    MapsEqual(again, after);
  }

  // The float steps of the real clock are faithful below 2^51 microseconds.
  ghost predicate FloatStored(us: int, stored: int) {
    exists e1, e2 :: Microseconds.RelativeError(e1) && Microseconds.RelativeError(e2) &&
                     stored == Microseconds.FromTimestamp(Microseconds.Seconds(us, e1), e2)
  }

  ghost predicate FloatRead(t: int, us: int) {
    exists e1, e2 :: Microseconds.RelativeError(e1) && Microseconds.RelativeError(e2) &&
                     us == Microseconds.ToMicroseconds(Microseconds.Seconds(t, e1), e2)
  }

  ghost predicate FloatClock(clock: Clock) {
    && (forall us :: FloatStored(us, clock.store(us)))
    && (forall t :: FloatRead(t, clock.read(t)))
  }

  lemma FloatClockFaithful(clock: Clock, us: int)
    requires FloatClock(clock) && Microseconds.Abs(us) < Microseconds.LIMIT
    ensures Faithful(clock, us)
  {
    var t := clock.store(us);
    assert FloatStored(us, t) && FloatRead(t, clock.read(t));
    var e1, e2 :| Microseconds.RelativeError(e1) && Microseconds.RelativeError(e2) &&
                  t == Microseconds.FromTimestamp(Microseconds.Seconds(us, e1), e2);
    var e3, e4 :| Microseconds.RelativeError(e3) && Microseconds.RelativeError(e4) &&
                  clock.read(t) == Microseconds.ToMicroseconds(Microseconds.Seconds(t, e3), e4);
    Microseconds.StageStoreReadBack(us, e1, e2, e3, e4);
  }

  // --- The three phases ------------------------------------------------------

  datatype Session = Session(id: nat, lib: string, startedAt: int, staged: RowMap)

  datatype ReconcileError = UnknownSession | DigestMismatch

  datatype Counts = Counts(upserted: nat, tombstoned: nat, reactivated: nat, updated: nat, trashedConflicts: nat,
                           identical: nat)

  ghost function Having(t: Table, lib: string, staged: RowMap, clock: Clock, done: set<string>,
                        outcome: Outcome): set<string> {
    set p <- done | p in staged && OutcomeOf(Get(t, Key(lib, p)), staged[p], clock) == outcome
  }

  ghost predicate Counted(c: Counts, t: Table, lib: string, staged: RowMap, clock: Clock, done: set<string>) {
    && c.upserted == |Having(t, lib, staged, clock, done, Upserted)|
    && c.reactivated == |Having(t, lib, staged, clock, done, Reactivated)|
    && c.updated == |Having(t, lib, staged, clock, done, Updated)|
    && c.trashedConflicts == |Having(t, lib, staged, clock, done, TrashedConflict)|
    && c.identical == |Having(t, lib, staged, clock, done, Unchanged)|
  }

  function Bump(c: Counts, outcome: Outcome): Counts {
    match outcome
    case Upserted => c.(upserted := c.upserted + 1)
    case TrashedConflict => c.(trashedConflicts := c.trashedConflicts + 1)
    case Reactivated => c.(reactivated := c.reactivated + 1)
    case Updated => c.(updated := c.updated + 1)
    case Unchanged => c.(identical := c.identical + 1)
  }

  lemma HavingStep(t: Table, lib: string, staged: RowMap, clock: Clock, done: set<string>, p: string, x: Outcome)
    requires p !in done && p in staged
    ensures |Having(t, lib, staged, clock, done + {p}, x)|
            == |Having(t, lib, staged, clock, done, x)|
               + if x == OutcomeOf(Get(t, Key(lib, p)), staged[p], clock) then 1 else 0
  {
    var now, before := Having(t, lib, staged, clock, done + {p}, x), Having(t, lib, staged, clock, done, x);
    assert p !in before;
    if x == OutcomeOf(Get(t, Key(lib, p)), staged[p], clock) {
      assert now == before + {p};
    } else {
      assert now == before;
    }
  }

  lemma BumpCounts(c: Counts, t: Table, lib: string, staged: RowMap, clock: Clock, done: set<string>, p: string)
    requires Counted(c, t, lib, staged, clock, done) && p !in done && p in staged
    ensures Counted(Bump(c, OutcomeOf(Get(t, Key(lib, p)), staged[p], clock)), t, lib, staged, clock, done + {p})
  {
    HavingStep(t, lib, staged, clock, done, p, Upserted);
    HavingStep(t, lib, staged, clock, done, p, Reactivated);
    HavingStep(t, lib, staged, clock, done, p, Updated);
    HavingStep(t, lib, staged, clock, done, p, TrashedConflict);
    HavingStep(t, lib, staged, clock, done, p, Unchanged);
  }

  // Staged paths by what the table holds of them, compared field by field.
  ghost predicate NoRow(t: Table, lib: string, p: string) { Key(lib, p) !in t }

  ghost predicate HasStatus(t: Table, lib: string, p: string, status: Status) {
    Key(lib, p) in t && t[Key(lib, p)].status == status
  }

  ghost predicate SameFields(i: Item, r: Row, clock: Clock) {
    i.size == r.size && clock.read(i.mtime) == r.mtimeUs && i.quickHash == r.quickHash && i.contentHash == r.contentHash
  }

  lemma OutcomeMeans(t: Table, lib: string, r: Row, clock: Clock)
    ensures var o := OutcomeOf(Get(t, Key(lib, r.path)), r, clock);
            && (o == Upserted <==> NoRow(t, lib, r.path))
            && (o == Reactivated <==> HasStatus(t, lib, r.path, Missing))
            && (o == TrashedConflict <==> HasStatus(t, lib, r.path, Trashed))
            && (o == Updated <==> HasStatus(t, lib, r.path, Active) && !SameFields(t[Key(lib, r.path)], r, clock))
            && (o == Unchanged <==> HasStatus(t, lib, r.path, Active) && SameFields(t[Key(lib, r.path)], r, clock))
  {
  }

  // Every staged path has one outcome.
  lemma {:induction false} OutcomesPartition(t: Table, lib: string, staged: RowMap, clock: Clock, done: set<string>)
    requires done <= staged.Keys
    ensures |done| == |Having(t, lib, staged, clock, done, Upserted)|
                      + |Having(t, lib, staged, clock, done, Reactivated)|
                      + |Having(t, lib, staged, clock, done, TrashedConflict)|
                      + |Having(t, lib, staged, clock, done, Updated)|
                      + |Having(t, lib, staged, clock, done, Unchanged)|
  {
    if done != {} {
      var p :| p in done;
      var rest := done - {p};
      OutcomesPartition(t, lib, staged, clock, rest);
      assert rest + {p} == done;
      HavingStep(t, lib, staged, clock, rest, p, Upserted);
      HavingStep(t, lib, staged, clock, rest, p, Reactivated);
      HavingStep(t, lib, staged, clock, rest, p, TrashedConflict);
      HavingStep(t, lib, staged, clock, rest, p, Updated);
      HavingStep(t, lib, staged, clock, rest, p, Unchanged);
    }
  }

  ghost function PathsWithNoRow(t: Table, lib: string, staged: RowMap): set<string> {
    set p <- staged | NoRow(t, lib, p)
  }

  ghost function PathsWithStatus(t: Table, lib: string, staged: RowMap, status: Status): set<string> {
    set p <- staged | HasStatus(t, lib, p, status)
  }

  ghost function PathsAlike(t: Table, lib: string, staged: RowMap, clock: Clock): set<string> {
    set p <- staged | HasStatus(t, lib, p, Active) && SameFields(t[Key(lib, p)], staged[p], clock)
  }

  // What each counter of a finish counts; together they count every staged path once.
  lemma CountsMean(c: Counts, t: Table, lib: string, staged: RowMap, clock: Clock)
    requires Counted(c, t, lib, staged, clock, staged.Keys) && Keyed(staged)
    ensures c.upserted == |PathsWithNoRow(t, lib, staged)|
    ensures c.reactivated == |PathsWithStatus(t, lib, staged, Missing)|
    ensures c.trashedConflicts == |PathsWithStatus(t, lib, staged, Trashed)|
    ensures c.identical == |PathsAlike(t, lib, staged, clock)|
    ensures c.updated == |PathsWithStatus(t, lib, staged, Active) - PathsAlike(t, lib, staged, clock)|
    ensures c.upserted + c.reactivated + c.trashedConflicts + c.updated + c.identical == |staged|
  {
    forall p <- staged
      ensures var o := OutcomeOf(Get(t, Key(lib, p)), staged[p], clock);
              && (o == Upserted <==> p in PathsWithNoRow(t, lib, staged))
              && (o == Reactivated <==> p in PathsWithStatus(t, lib, staged, Missing))
              && (o == TrashedConflict <==> p in PathsWithStatus(t, lib, staged, Trashed))
              && (o == Unchanged <==> p in PathsAlike(t, lib, staged, clock))
              && (o == Updated <==> p in PathsWithStatus(t, lib, staged, Active) - PathsAlike(t, lib, staged, clock))
    {
      OutcomeMeans(t, lib, staged[p], clock);
    }
    HavingIs(t, lib, staged, clock, Upserted, PathsWithNoRow(t, lib, staged));
    HavingIs(t, lib, staged, clock, Reactivated, PathsWithStatus(t, lib, staged, Missing));
    HavingIs(t, lib, staged, clock, TrashedConflict, PathsWithStatus(t, lib, staged, Trashed));
    HavingIs(t, lib, staged, clock, Unchanged, PathsAlike(t, lib, staged, clock));
    HavingIs(t, lib, staged, clock, Updated,
             PathsWithStatus(t, lib, staged, Active) - PathsAlike(t, lib, staged, clock));
    OutcomesPartition(t, lib, staged, clock, staged.Keys);
    assert |staged.Keys| == |staged|;
  }

  lemma HavingIs(t: Table, lib: string, staged: RowMap, clock: Clock, x: Outcome, paths: set<string>)
    requires paths <= staged.Keys
    requires forall p <- staged :: OutcomeOf(Get(t, Key(lib, p)), staged[p], clock) == x <==> p in paths
    ensures Having(t, lib, staged, clock, staged.Keys, x) == paths
  {
  }

  // What one staged row leaves behind, field by field.
  lemma SweptRowMeans(before: Table, after: Table, lib: string, r: Row, clock: Clock)
    requires RowDone(before, after, lib, r, clock)
    ensures var k := Key(lib, r.path);
            if HasStatus(before, lib, r.path, Trashed) then after == before
            else
              && k in after && after[k].status == Active && after[k].size == r.size
              && after[k].quickHash == r.quickHash && after[k].contentHash == r.contentHash
              && (after[k].mtime == clock.store(r.mtimeUs)
                  || (k in before && after[k] == before[k] && clock.read(before[k].mtime) == r.mtimeUs))
    ensures forall k :: k != Key(lib, r.path) ==> Get(after, k) == Get(before, k)
  {
    var k := Key(lib, r.path);
    assert Get(after, k) == SweptItem(Get(before, k), Some(r), clock);
    if HasStatus(before, lib, r.path, Trashed) {
      MapsEqual(after, before);
    }
  }

  // The first loop of finish has handled the staged paths in done.
  ghost predicate RowsDone(before: Table, after: Table, lib: string, staged: RowMap, clock: Clock, done: set<string>) {
    forall k :: Get(after, k) == if k.lib == lib && k.path in done && k.path in staged
                                 then SweptItem(Get(before, k), Some(staged[k.path]), clock) else Get(before, k)
  }

  ghost predicate RowDone(before: Table, after: Table, lib: string, r: Row, clock: Clock) {
    forall k ::
      Get(after, k) == if k == Key(lib, r.path) then SweptItem(Get(before, k), Some(r), clock) else Get(before, k)
  }

  lemma RowsDoneStep(before: Table, middle: Table, after: Table, lib: string, staged: RowMap, clock: Clock,
                     done: set<string>, p: string)
    requires RowsDone(before, middle, lib, staged, clock, done) && Keyed(staged) && p in staged && p !in done
    requires RowDone(middle, after, lib, staged[p], clock)
    ensures Get(middle, Key(lib, p)) == Get(before, Key(lib, p))
    ensures RowsDone(before, after, lib, staged, clock, done + {p})
  {
    forall k ensures Get(after, k) == if k.lib == lib && k.path in done + {p} && k.path in staged
                                      then SweptItem(Get(before, k), Some(staged[k.path]), clock) else Get(before, k) {
      assert Get(middle, k) == if k.lib == lib && k.path in done && k.path in staged
                               then SweptItem(Get(before, k), Some(staged[k.path]), clock) else Get(before, k);
      assert k == Key(k.lib, k.path);
    }
  }

  // Central's rows and the one reconcile session of an agent; every method commits.
  class Reconciler {
    const hash: seq<Row> -> string
    const clock: Clock
    var items: Table
    var session: Option<Session>
    var watermark: int
    var lastReconcileAt: Option<int>

    ghost predicate Valid()
      reads this
    {
      session.Some? ==> Keyed(session.value.staged)
    }

    constructor (hash: seq<Row> -> string, clock: Clock, items: Table, watermark: int)
      ensures this.hash == hash && this.clock == clock && this.items == items && this.watermark == watermark
      ensures session == None && lastReconcileAt == None && Valid()
    {
      this.hash, this.clock, this.items, this.watermark := hash, clock, items, watermark;
      session, lastReconcileAt := None, None;
    }

    method ComputeCentralDigest(lib: string) returns (digest: string, count: nat)
      ensures forall d, n :: Digests(hash, ActiveRows(items, lib, clock), d, n) <==> d == digest && n == count
    {
      var rows: seq<Row> := [];
      var keys := items.Keys;
      while keys != {}
        invariant keys <= items.Keys
        invariant NoDuplicates(rows)
        invariant forall r :: r in rows <==>
                                var k := Key(lib, r.path);
                                k in items.Keys - keys && items[k].status == Active
                                && r == ProjectRow(r.path, items[k], clock)
      {
        var k :| k in keys;
        keys := keys - {k};
        if k.lib == lib && items[k].status == Active {
          var r := ProjectRow(k.path, items[k], clock);
          assert r !in rows;
          rows := rows + [r];
        }
      }
      forall r ensures r in rows <==> Get(ActiveRows(items, lib, clock), r.path) == Some(r) {
        ActiveRowAt(items, lib, clock, r.path);
      }
      digest, count := ManifestDigest(hash, rows), |rows|;
      forall d, n ensures Digests(hash, ActiveRows(items, lib, clock), d, n) <==> d == digest && n == count {
        DigestsExactly(hash, ActiveRows(items, lib, clock), rows, d, n);
      }
    }

    method ReconcileStart(lib: string, digest: string, rowCount: nat, rebuilt: bool, now: int, newId: nat)
      returns (matched: bool)
      modifies this
      ensures Valid() && items == old(items)
      ensures matched <==> Digests(hash, ActiveRows(items, lib, clock), digest, rowCount)
      ensures if matched
              then session == None && lastReconcileAt == Some(now) && watermark == if rebuilt then 0 else old(watermark)
              else session == Some(Session(newId, lib, now, map[])) && lastReconcileAt == old(lastReconcileAt)
                   && watermark == old(watermark)
    {
      var centralDigest, centralCount := ComputeCentralDigest(lib);
      if centralDigest == digest && centralCount == rowCount {
        lastReconcileAt := Some(now);
        if rebuilt {
          watermark := 0;
        }
        session := None;
        matched := true;
      } else {
        session := Some(Session(newId, lib, now, map[]));
        matched := false;
      }
    }

    // The session a page or a finish must belong to: this agent's, and unexpired.
    ghost predicate Live(id: nat, now: int, ttl: int)
      reads this
    {
      session.Some? && session.value.id == id && session.value.startedAt >= now - ttl
    }

    method LoadLiveSession(id: nat, now: int, ttl: int) returns (r: Result<Session, ReconcileError>)
      modifies this`session
      ensures r.Ok? <==> old(Live(id, now, ttl))
      ensures r.Ok? ==> session == old(session) == Some(r.value)
      ensures r.Err? ==> r.error == UnknownSession
      // An expired session is dropped, somebody else's is left alone.
      ensures r.Err? ==> session == if old(session).Some? && old(session).value.id == id then None else old(session)
    {
      if session.None? || session.value.id != id {
        return Err(UnknownSession);
      }
      if session.value.startedAt < now - ttl {
        session := None;
        return Err(UnknownSession);
      }
      return Ok(session.value);
    }

    method StageRows(id: nat, rows: seq<Row>, now: int, ttl: int) returns (r: Result<nat, ReconcileError>)
      requires Valid()
      modifies this`session
      ensures Valid()
      ensures r.Ok? <==> old(Live(id, now, ttl))
      ensures r.Err? ==> r.error == UnknownSession
      ensures r.Ok? ==>
                && session == Some(old(session).value.(staged := StagePage(old(session).value.staged, rows)))
                && r.value == |session.value.staged|
    {
      var live := LoadLiveSession(id, now, ttl);
      if live.Err? {
        return Err(live.error);
      }
      var staged := live.value.staged;
      for i := 0 to |rows|
        invariant staged == StagePage(live.value.staged, rows[..i]) && Keyed(staged)
      {
        assert rows[..i + 1][..i] == rows[..i];
        staged := staged[rows[i].path := rows[i]];
      }
      assert rows[..|rows|] == rows;
      session := Some(live.value.(staged := staged));
      return Ok(|staged|);
    }

    // An unverified manifest destroys the session and touches no row; a verified one
    // sweeps the library, counts what it did, and stamps the watermarks.
    method ReconcileFinish(id: nat, digest: string, rowCount: nat, resetSeq: bool, now: int, ttl: int)
      returns (r: Result<Counts, ReconcileError>)
      requires Valid()
      modifies this
      ensures Valid()
      ensures r.Ok? <==> old(Live(id, now, ttl)) && Digests(hash, old(session).value.staged, digest, rowCount)
      ensures r.Err? ==> r.error == if old(Live(id, now, ttl)) then DigestMismatch else UnknownSession
      ensures r.Err? ==> items == old(items) && watermark == old(watermark) && lastReconcileAt == old(lastReconcileAt)
      ensures old(Live(id, now, ttl)) ==> session == None
      ensures r.Ok? ==>
                && IsSwept(old(items), items, old(session).value.lib, old(session).value.staged, clock)
                && Counted(r.value, old(items), old(session).value.lib, old(session).value.staged, clock,
                           old(session).value.staged.Keys)
                && r.value.tombstoned
                   == |Doomed(old(items), old(session).value.lib, old(session).value.staged, old(items).Keys)|
                && lastReconcileAt == Some(now) && watermark == if resetSeq then 0 else old(watermark)
    {
      var live := LoadLiveSession(id, now, ttl);
      if live.Err? {
        return Err(live.error);
      }
      var staged, lib := live.value.staged, live.value.lib;
      var rows := ListStaged(staged);
      DigestsExactly(hash, staged, rows, digest, rowCount);
      session := None;
      if |rows| != rowCount || ManifestDigest(hash, rows) != digest {
        return Err(DigestMismatch);
      }
      var counts := SweepStaged(lib, staged);
      ghost var middle := items;
      var tombstoned := TombstoneAbsent(lib, staged);
      BothLoops(old(items), middle, items, lib, staged, clock);
      counts := counts.(tombstoned := tombstoned);
      lastReconcileAt := Some(now);
      if resetSeq {
        watermark := 0;
      }
      return Ok(counts);
    }

    method SweepRow(lib: string, r: Row) returns (outcome: Outcome)
      modifies this`items
      ensures outcome == OutcomeOf(Get(old(items), Key(lib, r.path)), r, clock)
      ensures RowDone(old(items), items, lib, r, clock)
    {
      var k := Key(lib, r.path);
      outcome := OutcomeOf(Get(items, k), r, clock);
      if outcome != TrashedConflict && outcome != Unchanged {
        items := items[k := FromRow(r, clock)];
      }
    }

    method SweepStaged(lib: string, staged: RowMap) returns (counts: Counts)
      requires Keyed(staged)
      modifies this`items
      ensures RowsDone(old(items), items, lib, staged, clock, staged.Keys)
      ensures Counted(counts, old(items), lib, staged, clock, staged.Keys)
    {
      counts := Counts(0, 0, 0, 0, 0, 0);
      var todo := staged.Keys;
      while todo != {}
        invariant todo <= staged.Keys
        invariant RowsDone(old(items), items, lib, staged, clock, staged.Keys - todo)
        invariant Counted(counts, old(items), lib, staged, clock, staged.Keys - todo)
      {
        var p :| p in todo;
        ghost var done, middle := staged.Keys - todo, items;
        todo := todo - {p};
        assert staged.Keys - todo == done + {p};
        var outcome := SweepRow(lib, staged[p]);
        RowsDoneStep(old(items), middle, items, lib, staged, clock, done, p);
        BumpCounts(counts, old(items), lib, staged, clock, done, p);
        counts := Bump(counts, outcome);
      }
      assert staged.Keys - todo == staged.Keys;
    }

    // Runs over the rows of the library, to which the first loop added only active
    // rows with staged paths.
    method TombstoneAbsent(lib: string, staged: RowMap) returns (tombstoned: nat)
      modifies this`items
      ensures items == MarkMissing(old(items), Doomed(old(items), lib, staged, old(items).Keys))
      ensures tombstoned == |Doomed(old(items), lib, staged, old(items).Keys)|
    {
      tombstoned := 0;
      var todo := items.Keys;
      while todo != {}
        invariant todo <= old(items).Keys
        invariant TombstonedTo(old(items), items, lib, staged, old(items).Keys - todo, tombstoned)
      {
        var k :| k in todo;
        TombstoneStep(old(items), items, lib, staged, old(items).Keys - todo, tombstoned, k);
        assert old(items).Keys - (todo - {k}) == old(items).Keys - todo + {k};
        todo := todo - {k};
        if k.lib == lib && items[k].status == Active && k.path !in staged {
          items := items[k := items[k].(status := Missing)];
          tombstoned := tombstoned + 1;
        }
      }
      assert old(items).Keys - todo == old(items).Keys;
    }
  }

  // The second loop of finish has looked at the rows in done.
  ghost predicate TombstonedTo(before: Table, after: Table, lib: string, staged: RowMap, done: set<Key>, count: nat) {
    after == MarkMissing(before, Doomed(before, lib, staged, done)) && count == |Doomed(before, lib, staged, done)|
  }

  lemma TombstoneStep(before: Table, after: Table, lib: string, staged: RowMap, done: set<Key>, count: nat, k: Key)
    requires TombstonedTo(before, after, lib, staged, done, count) && k in before && k !in done
    ensures k in after
    ensures if Dies(after, lib, staged, k)
            then TombstonedTo(before, after[k := after[k].(status := Missing)], lib, staged, done + {k}, count + 1)
            else TombstonedTo(before, after, lib, staged, done + {k}, count)
  {
    DoomedStep(before, lib, staged, done, k);
    MarkOneMore(before, Doomed(before, lib, staged, done), k);
  }

  // The active rows of a library that the manifest does not list.
  ghost function Doomed(t: Table, lib: string, staged: RowMap, keys: set<Key>): set<Key> {
    set k <- keys | k in t && k.lib == lib && t[k].status == Active && k.path !in staged
  }

  ghost function MarkMissing(t: Table, keys: set<Key>): Table {
    map k <- t :: if k in keys then t[k].(status := Missing) else t[k]
  }

  lemma MarkOneMore(t: Table, d: set<Key>, k: Key)
    requires k in t && k !in d
    ensures k in MarkMissing(t, d) && MarkMissing(t, d)[k] == t[k]
    ensures MarkMissing(t, d + {k}) == MarkMissing(t, d)[k := t[k].(status := Missing)]
  {
    var a, b := MarkMissing(t, d + {k}), MarkMissing(t, d)[k := t[k].(status := Missing)];
    forall x ensures Get(a, x) == Get(b, x) {
    }
    MapsEqual(a, b);
  }

  ghost predicate Dies(t: Table, lib: string, staged: RowMap, k: Key)
    requires k in t
  {
    k.lib == lib && t[k].status == Active && k.path !in staged
  }

  lemma DoomedStep(t: Table, lib: string, staged: RowMap, done: set<Key>, k: Key)
    requires k in t && k !in done
    ensures Doomed(t, lib, staged, done + {k})
            == Doomed(t, lib, staged, done) + if Dies(t, lib, staged, k) then {k} else {}
    ensures k !in Doomed(t, lib, staged, done)
  {
  }

  // What a sweep does to a row the manifest does not list: an active one becomes missing and
  // keeps its facts, any other stays as it is.
  lemma AbsentMeans(before: Table, after: Table, lib: string, staged: RowMap, clock: Clock, k: Key)
    requires IsSwept(before, after, lib, staged, clock) && k in before && k.lib == lib && k.path !in staged
    ensures k in after
    ensures var i := before[k];
            after[k] == if i.status == Active then Item(i.size, i.mtime, i.quickHash, i.contentHash, Missing) else i
  {
    assert Get(after, k) == SweptItem(Get(before, k), None, clock);
  }

  lemma BothLoops(before: Table, middle: Table, after: Table, lib: string, staged: RowMap, clock: Clock)
    requires RowsDone(before, middle, lib, staged, clock, staged.Keys)
    requires after == MarkMissing(middle, Doomed(middle, lib, staged, middle.Keys))
    ensures IsSwept(before, after, lib, staged, clock)
    ensures Doomed(middle, lib, staged, middle.Keys) == Doomed(before, lib, staged, before.Keys)
  {
    forall k ensures Get(after, k)
                     == if k.lib == lib then SweptItem(Get(before, k), Get(staged, k.path), clock) else Get(before, k)
             ensures k in Doomed(middle, lib, staged, middle.Keys) <==> k in Doomed(before, lib, staged, before.Keys)
    {
      assert Get(middle, k) == if k.lib == lib && k.path in staged.Keys && k.path in staged
                               then SweptItem(Get(before, k), Some(staged[k.path]), clock) else Get(before, k);
    }
  }

  // Reading the staging table, in whatever order the rows come.
  method ListStaged(staged: RowMap) returns (rows: seq<Row>)
    requires Keyed(staged)
    ensures Lists(rows, staged)
  {
    rows := [];
    var todo := staged.Keys;
    while todo != {}
      invariant todo <= staged.Keys
      invariant NoDuplicates(rows)
      invariant forall r :: r in rows <==> r.path in staged.Keys - todo && staged[r.path] == r
    {
      var p :| p in todo;
      todo := todo - {p};
      assert staged[p] !in rows;
      rows := rows + [staged[p]];
    }
  }
}
