/** Replication refines one event at a time: exactly which batches may be collapsed,
    and what every run over a channel that loses, repeats and reorders keeps. */
module Refinement {
  import opened Common
  import opened Sorting
  import opened Replication

  // --- Verdicts and rows, told from outside ----------------------------------

  // The reasons, told by neighbouring numbers: the first entry at fault is too old, too
  // far on, the one before again, below it, or a jump above it.
  lemma ReasonsMean(es: seq<Event>, last: int)
    requires es != [] && !Continues(es, last)
    ensures var n := ContiguousPrefix(es, last);
            && n < |es|
            && (BreakReason(es, last, n) == Stale <==> es[0].seqNo <= last)
            && (BreakReason(es, last, n) == Gap <==> es[0].seqNo > last + 1)
            && (BreakReason(es, last, n) == Duplicate <==> n > 0 && es[n].seqNo == es[n - 1].seqNo)
            && (BreakReason(es, last, n) == NonMonotonic <==> n > 0 && es[n].seqNo < es[n - 1].seqNo)
            && (BreakReason(es, last, n) == InternalGap <==> n > 0 && es[n].seqNo > es[n - 1].seqNo + 1)
  {
    PrefixIs(es, last);
  }

  lemma {:induction false} PrefixIs(es: seq<Event>, last: int)
    ensures var n := ContiguousPrefix(es, last);
            && n <= |es| && (forall k | 0 <= k < n :: es[k].seqNo == last + 1 + k)
            && (n < |es| ==> es[n].seqNo != last + 1 + n)
  {
    if es != [] && es[0].seqNo == last + 1 {
      PrefixIs(es[1..], last + 1);
    }
  }

  // Field by field: what an upsert and a tombstone make of a row.
  lemma OperationsMean(o: Option<Item>, ev: Event, lib: string, now: int)
    ensures var row := UpsertRow(o, ev, now);
            && row.status == Active && row.quickHash == ev.quickHash && row.contentHash == ev.contentHash
            && row.size == (if ev.size.Some? then ev.size.value else if o.Some? then o.value.size else 0)
            && row.mtime == (if ev.mtime.Some? then ev.mtime.value else if o.Some? then o.value.mtime else now)
    ensures Do(Upsert(ev), o, now) == Some(UpsertRow(o, ev, now))
    ensures o.None? ==> Do(Delete(lib), o, now) == None
    ensures o.Some? ==>
              Do(Delete(lib), o, now)
              == Some(Item(o.value.size, o.value.mtime, o.value.quickHash, o.value.contentHash, Missing))
  {
  }

  // --- One event at a time ---------------------------------------------------

  ghost function Update(t: Table, k: Key, o: Option<Item>): Table {
    if o.Some? then t[k := o.value] else t - {k}
  }

  // A move is a tombstone of the old path and an upsert of the new one.
  ghost function ApplyEvent(t: Table, ev: Event, now: int): Table {
    var k := Key(ev.libraryRef, ev.relPath);
    if ev.eventType == Deleted then Update(t, k, Do(Delete(ev.libraryRef), Get(t, k), now))
    else
      var t' := if ev.eventType == Moved && ev.fromRelPath.Some? then
                  var from := Key(ev.libraryRef, ev.fromRelPath.value);
                  Update(t, from, Do(Delete(ev.libraryRef), Get(t, from), now))
                else t;
      Update(t', k, Do(Upsert(ev), Get(t', k), now))
  }

  ghost function OneAtATime(t: Table, es: seq<Event>, now: int): Table {
    if es == [] then t else ApplyEvent(OneAtATime(t, es[..|es| - 1], now), es[|es| - 1], now)
  }

  // The same fold seen from one row.
  ghost function RowFold(o: Option<Item>, es: seq<Event>, k: Key, now: int): Option<Item> {
    if es == [] then o
    else DoAt(Touch(es[|es| - 1], k.path), RowFold(o, es[..|es| - 1], k, now), k, now)
  }

  lemma EventAt(t: Table, ev: Event, now: int, k: Key)
    ensures Get(ApplyEvent(t, ev, now), k) == DoAt(Touch(ev, k.path), Get(t, k), k, now)
  {
  }

  lemma {:induction false} FoldAt(t: Table, es: seq<Event>, now: int, k: Key)
    ensures Get(OneAtATime(t, es, now), k) == RowFold(Get(t, k), es, k, now)
  {
    if es != [] {
      FoldAt(t, es[..|es| - 1], now, k);
      EventAt(OneAtATime(t, es[..|es| - 1], now), es[|es| - 1], now, k);
    }
  }

  // A batch of one event is that event.
  lemma SingletonBatch(t: Table, ev: Event, now: int)
    ensures Collapsed(t, [ev], now) == ApplyEvent(t, ev, now)
  {
    forall k ensures Get(Collapsed(t, [ev], now), k) == Get(ApplyEvent(t, ev, now), k) {
      CollapsedAt(t, [ev], now, k);
      EventAt(t, ev, now, k);
      assert LastOp([], k.path) == None;
      assert [ev][..0] == [] && LastOp([ev], k.path) == Touch(ev, k.path);
    }
    MapsEqual(Collapsed(t, [ev], now), ApplyEvent(t, ev, now));
  }

  // --- Which batches may be collapsed ----------------------------------------

  ghost predicate Touches(ev: Event, path: string) { Touch(ev, path).Some? }

  ghost predicate Upserts(ev: Event, path: string) {
    Touch(ev, path).Some? && Touch(ev, path).value.Upsert?
  }

  // Every event on the path names the library of the last one.
  ghost predicate OneLibraryAt(es: seq<Event>, path: string) {
    LastOp(es, path).Some? ==>
      forall e <- es :: Touches(e, path) ==> e.libraryRef == OpLib(LastOp(es, path).value)
  }

  // If the surviving upsert omits a field, no collapsed upsert supplied it.
  ghost predicate SizeKeptAt(es: seq<Event>, path: string) {
    LastOp(es, path).Some? && LastOp(es, path).value.Upsert? && LastOp(es, path).value.ev.size.None? ==>
      forall e <- es :: Upserts(e, path) ==> e.size.None?
  }

  ghost predicate MtimeKeptAt(es: seq<Event>, path: string) {
    LastOp(es, path).Some? && LastOp(es, path).value.Upsert? && LastOp(es, path).value.ev.mtime.None? ==>
      forall e <- es :: Upserts(e, path) ==> e.mtime.None?
  }

  ghost predicate CollapsibleAt(es: seq<Event>, path: string) {
    OneLibraryAt(es, path) && SizeKeptAt(es, path) && MtimeKeptAt(es, path)
  }

  ghost predicate Collapsible(es: seq<Event>) {
    forall path :: CollapsibleAt(es, path)
  }

  lemma TouchLib(ev: Event, path: string)
    ensures Touch(ev, path).Some? ==> OpLib(Touch(ev, path).value) == ev.libraryRef
  {
  }

  lemma {:induction false} UntouchedRow(o: Option<Item>, es: seq<Event>, k: Key, now: int)
    requires forall e <- es :: Touches(e, k.path) ==> e.libraryRef != k.lib
    ensures RowFold(o, es, k, now) == o
  {
    if es != [] {
      assert es[|es| - 1] in es;
      UntouchedRow(o, es[..|es| - 1], k, now);
    }
  }

  lemma {:induction false} NeverTouched(es: seq<Event>, path: string)
    requires LastOp(es, path).None?
    ensures forall e <- es :: !Touches(e, path)
  {
    if es != [] {
      NeverTouched(es[..|es| - 1], path);
      assert es == es[..|es| - 1] + [es[|es| - 1]];
    }
  }

  ghost function SizeOf(o: Option<Item>): int { if o.Some? then o.value.size else 0 }

  ghost function MtimeOf(o: Option<Item>, now: int): int { if o.Some? then o.value.mtime else now }

  lemma {:induction false} FieldsKept(o: Option<Item>, es: seq<Event>, k: Key, now: int)
    ensures (forall e <- es :: Upserts(e, k.path) ==> e.size.None?) ==> SizeOf(RowFold(o, es, k, now)) == SizeOf(o)
    ensures (forall e <- es :: Upserts(e, k.path) ==> e.mtime.None?) ==>
              MtimeOf(RowFold(o, es, k, now), now) == MtimeOf(o, now)
  {
    if es != [] {
      FieldsKept(o, es[..|es| - 1], k, now);
      assert es[|es| - 1] in es;
    }
  }

  lemma {:induction false} CollapseAgreesAt(o: Option<Item>, es: seq<Event>, k: Key, now: int)
    requires CollapsibleAt(es, k.path)
    ensures ActiveFacts(Collapse(es, o, k, now)) == ActiveFacts(RowFold(o, es, k, now))
  {
    if LastOp(es, k.path).None? {
      NeverTouched(es, k.path);
      UntouchedRow(o, es, k, now);
    } else if OpLib(LastOp(es, k.path).value) != k.lib {
      UntouchedRow(o, es, k, now);
    } else {
      var front := es[..|es| - 1];
      if Touches(es[|es| - 1], k.path) {
        FieldsKept(o, front, k, now);
        assert es[|es| - 1] in es;
      } else {
        CollapseAgreesAt(o, front, k, now);
      }
    }
  }

  // Converse, library: an event collapsed away in another library is a lost change.
  lemma {:induction false} TouchedRow(es: seq<Event>, k: Key, now: int, row: Item)
    requires exists e <- es :: Touches(e, k.path) && e.libraryRef == k.lib
    ensures ActiveFacts(RowFold(None, es, k, now)).Some? || ActiveFacts(RowFold(Some(row), es, k, now)).None?
  {
    var ev := es[|es| - 1];
    TouchLib(ev, k.path);
    if !(Touches(ev, k.path) && ev.libraryRef == k.lib) {
      assert es == es[..|es| - 1] + [ev];
      TouchedRow(es[..|es| - 1], k, now, row);
    }
  }

  // Converse, fields: a supplied field overwrites whatever the row held.
  lemma {:induction false} SuppliedForgets(es: seq<Event>, k: Key, now: int, a: Item, b: Item)
    requires forall e <- es :: Touches(e, k.path) ==> e.libraryRef == k.lib
    ensures RowFold(Some(a), es, k, now).Some? && RowFold(Some(b), es, k, now).Some?
    ensures (exists e <- es :: Upserts(e, k.path) && e.size.Some?) ==>
              RowFold(Some(a), es, k, now).value.size == RowFold(Some(b), es, k, now).value.size
    ensures (exists e <- es :: Upserts(e, k.path) && e.mtime.Some?) ==>
              RowFold(Some(a), es, k, now).value.mtime == RowFold(Some(b), es, k, now).value.mtime
  {
    if es != [] {
      var ev := es[|es| - 1];
      TouchLib(ev, k.path);
      assert es == es[..|es| - 1] + [ev];
      SuppliedForgets(es[..|es| - 1], k, now, a, b);
    }
  }

  // The row whose collapse and fold differ, when the batch is not collapsible at a path.
  lemma DifferingRow(es: seq<Event>, path: string, now: int) returns (o: Option<Item>, k: Key)
    requires !CollapsibleAt(es, path)
    ensures ActiveFacts(Collapse(es, o, k, now)) != ActiveFacts(RowFold(o, es, k, now))
  {
    var op := LastOp(es, path).value;
    var a := Item(0, 0, None, None, Active);
    var b := Item(1, 1, None, None, Active);
    if !OneLibraryAt(es, path) {
      var e :| e in es && Touches(e, path) && e.libraryRef != OpLib(op);
      k := Key(e.libraryRef, path);
      TouchedRow(es, k, now, a);
      o := if ActiveFacts(RowFold(None, es, k, now)).Some? then None else Some(a);
    } else {
      k := Key(OpLib(op), path);
      SuppliedForgets(es, k, now, a, b);
      SurvivorActive(Some(a), es, k, now);
      SurvivorActive(Some(b), es, k, now);
      o := if ActiveFacts(Collapse(es, Some(a), k, now)) != ActiveFacts(RowFold(Some(a), es, k, now))
           then Some(a) else Some(b);
    }
  }

  lemma {:induction false} SurvivorActive(o: Option<Item>, es: seq<Event>, k: Key, now: int)
    requires LastOp(es, k.path).Some? && LastOp(es, k.path).value.Upsert? && OpLib(LastOp(es, k.path).value) == k.lib
    requires OneLibraryAt(es, k.path)
    ensures ActiveFacts(RowFold(o, es, k, now)).Some?
  {
    if !Touches(es[|es| - 1], k.path) {
      SurvivorActive(o, es[..|es| - 1], k, now);
    }
  }

  lemma ActiveAt(t: Table, k: Key)
    ensures Get(ActiveManifest(t), k) == ActiveFacts(Get(t, k))
  {
  }

  lemma CollapseAgrees(t: Table, es: seq<Event>, now: int)
    requires Collapsible(es)
    ensures ActiveManifest(Collapsed(t, es, now)) == ActiveManifest(OneAtATime(t, es, now))
  {
    var a, b := Collapsed(t, es, now), OneAtATime(t, es, now);
    forall k ensures Get(ActiveManifest(a), k) == Get(ActiveManifest(b), k) {
      CollapsedAt(t, es, now, k);
      FoldAt(t, es, now, k);
      CollapseAgreesAt(Get(t, k), es, k, now);
      ActiveAt(a, k);
      ActiveAt(b, k);
    }
    MapsEqual(ActiveManifest(a), ActiveManifest(b));
  }

  ghost predicate CollapseSafe(es: seq<Event>, now: int) {
    forall t: Table :: ActiveManifest(Collapsed(t, es, now)) == ActiveManifest(OneAtATime(t, es, now))
  }

  // Collapsing agrees with one event at a time on every table exactly when each path
  // stays in one library and no omitted field was supplied earlier in the batch.
  lemma CollapseSafeExactly(es: seq<Event>, now: int)
    ensures CollapseSafe(es, now) <==> Collapsible(es)
  {
    if Collapsible(es) {
      forall t: Table ensures ActiveManifest(Collapsed(t, es, now)) == ActiveManifest(OneAtATime(t, es, now)) {
        CollapseAgrees(t, es, now);
      }
    } else {
      var path :| !CollapsibleAt(es, path);
      var o, k := DifferingRow(es, path, now);
      var t: Table := if o.Some? then map[k := o.value] else map[];
      CollapsedAt(t, es, now, k);
      FoldAt(t, es, now, k);
      ActiveAt(Collapsed(t, es, now), k);
      ActiveAt(OneAtATime(t, es, now), k);
      assert Get(t, k) == o;
    }
  }

  // Two libraries of one agent holding the same relative path: the first change is lost.
  lemma SharedPathLosesAChange(now: int)
    ensures var a := Event(1, Created, "music", "cover.jpg", None, Some(1), Some(1), None, None);
            var b := Event(2, Created, "films", "cover.jpg", None, Some(2), Some(2), None, None);
            Continues([a, b], 0)
            && Key("music", "cover.jpg") in ActiveManifest(OneAtATime(map[], [a, b], now))
            && Key("music", "cover.jpg") !in ActiveManifest(Collapsed(map[], [a, b], now))
  {
    var a := Event(1, Created, "music", "cover.jpg", None, Some(1), Some(1), None, None);
    var b := Event(2, Created, "films", "cover.jpg", None, Some(2), Some(2), None, None);
    var k := Key("music", "cover.jpg");
    CollapsedAt(map[], [a, b], now, k);
    FoldAt(map[], [a, b], now, k);
    assert [a, b][..1] == [a] && [a][..0] == [];
    assert LastOp([a, b], k.path) == Some(Upsert(b));
    assert RowFold(None, [a], k, now) == DoAt(Touch(a, k.path), RowFold(None, [], k, now), k, now);
    assert RowFold(None, [a, b], k, now) == DoAt(Touch(b, k.path), RowFold(None, [a], k, now), k, now);
    ActiveAt(Collapsed(map[], [a, b], now), k);
    ActiveAt(OneAtATime(map[], [a, b], now), k);
  }

  // --- The report an outbox makes --------------------------------------------

  // What an agent puts on the wire: every event but a deletion carries size and mtime.
  ghost predicate Complete(ev: Event) {
    ev.eventType != Deleted ==> ev.size.Some? && ev.mtime.Some?
  }

  ghost predicate AllComplete(es: seq<Event>) { forall e <- es :: Complete(e) }

  ghost predicate OneLibraryPerPath(es: seq<Event>) {
    forall path :: OneLibraryAt(es, path)
  }

  ghost function Report(m: Manifest, ev: Event): Manifest
    requires Complete(ev)
  {
    var k := Key(ev.libraryRef, ev.relPath);
    if ev.eventType == Deleted then m - {k}
    else
      var m' := if ev.eventType == Moved && ev.fromRelPath.Some?
                then m - {Key(ev.libraryRef, ev.fromRelPath.value)} else m;
      m'[k := Facts(ev.size.value, ev.mtime.value, ev.quickHash, ev.contentHash)]
  }

  ghost function Reported(m: Manifest, es: seq<Event>): Manifest
    requires AllComplete(es)
  {
    if es == [] then m else Report(Reported(m, es[..|es| - 1]), es[|es| - 1])
  }

  lemma EventReports(t: Table, ev: Event, now: int)
    requires Complete(ev)
    ensures ActiveManifest(ApplyEvent(t, ev, now)) == Report(ActiveManifest(t), ev)
  {
    forall k ensures Get(ActiveManifest(ApplyEvent(t, ev, now)), k) == Get(Report(ActiveManifest(t), ev), k) {
      EventAt(t, ev, now, k);
      ActiveAt(t, k);
      ActiveAt(ApplyEvent(t, ev, now), k);
    }
    MapsEqual(ActiveManifest(ApplyEvent(t, ev, now)), Report(ActiveManifest(t), ev));
  }

  lemma {:induction false} FoldReports(t: Table, es: seq<Event>, now: int)
    requires AllComplete(es)
    ensures ActiveManifest(OneAtATime(t, es, now)) == Reported(ActiveManifest(t), es)
  {
    if es != [] {
      var front, ev := es[..|es| - 1], es[|es| - 1];
      FoldReports(t, front, now);
      assert Complete(ev);
      EventReports(OneAtATime(t, front, now), ev, now);
    }
  }

  lemma LastUpsertComplete(es: seq<Event>, path: string)
    requires AllComplete(es)
    ensures SizeKeptAt(es, path) && MtimeKeptAt(es, path)
  {
    if LastOp(es, path).Some? {
      LastOpFromBatch(es, path);
      var i :| 0 <= i < |es| && Touch(es[i], path) == LastOp(es, path);
      assert es[i] in es && Complete(es[i]);
    }
  }

  // A collapsed batch of complete events makes exactly its own report.
  lemma BatchReports(t: Table, es: seq<Event>, now: int)
    requires AllComplete(es) && OneLibraryPerPath(es)
    ensures ActiveManifest(Collapsed(t, es, now)) == Reported(ActiveManifest(t), es)
  {
    forall path ensures CollapsibleAt(es, path) {
      LastUpsertComplete(es, path);
    }
    CollapseAgrees(t, es, now);
    FoldReports(t, es, now);
  }

  lemma {:induction false} ReportedConcat(m: Manifest, a: seq<Event>, b: seq<Event>)
    requires AllComplete(a) && AllComplete(b)
    ensures AllComplete(a + b) && Reported(m, a + b) == Reported(Reported(m, a), b)
  {
    if b == [] {
      assert a + b == a;
    } else {
      assert (a + b)[..|a + b| - 1] == a + b[..|b| - 1];
      ReportedConcat(m, a, b[..|b| - 1]);
    }
  }

  // --- Runs ------------------------------------------------------------------

  // The outbox is durable and append-only. A batch once sent may be delivered at any
  // later time, any number of times, in any order, or never.
  datatype World = World(outbox: seq<Event>, sent: set<seq<Event>>, db: Db)

  ghost predicate ValidOutbox(outbox: seq<Event>) {
    AllComplete(outbox) && forall i | 0 <= i < |outbox| :: outbox[i].seqNo == i + 1
  }

  ghost predicate IsSlice(outbox: seq<Event>, b: seq<Event>) {
    exists i, j :: 0 <= i <= j <= |outbox| && b == outbox[i..j]
  }

  ghost predicate Init(w: World) {
    ValidOutbox(w.outbox) && w.sent == {} && w.db.watermark == 0 && w.db.ledger == map[]
  }

  ghost predicate Append(w: World, w': World) {
    exists ev :: w' == w.(outbox := w.outbox + [ev]) && Complete(ev) && ev.seqNo == |w.outbox| + 1
  }

  // Any slice, so lost and repeated acknowledgements need no step of their own.
  ghost predicate Send(w: World, w': World) {
    exists b :: w' == w.(sent := w.sent + {b}) && IsSlice(w.outbox, b) && OneLibraryPerPath(b)
  }

  ghost predicate Deliver(w: World, w': World) {
    exists b, now :: b in w.sent && w' == w.(db := AfterReceive(w.db, b, now))
  }

  ghost predicate Step(w: World, w': World) {
    Append(w, w') || Send(w, w') || Deliver(w, w')
  }

  ghost predicate StepAt(run: seq<World>, k: nat)
    requires 0 < k < |run|
  {
    Step(run[k - 1], run[k])
  }

  ghost predicate Run(run: seq<World>) {
    run != [] && Init(run[0]) && forall k: nat | 0 < k < |run| :: StepAt(run, k)
  }

  // The ledger holds exactly the events 1..n of the outbox.
  ghost predicate LedgerHolds(ledger: map<int, EventType>, outbox: seq<Event>, n: int)
    requires n <= |outbox|
  {
    && (forall s :: s in ledger <==> 1 <= s <= n)
    && (forall s | 1 <= s <= n :: ledger[s] == outbox[s - 1].eventType)
  }

  ghost predicate Inv(m0: Manifest, w: World) {
    && ValidOutbox(w.outbox)
    && (forall b <- w.sent :: IsSlice(w.outbox, b) && OneLibraryPerPath(b))
    && 0 <= w.db.watermark <= |w.outbox|
    && LedgerHolds(w.db.ledger, w.outbox, w.db.watermark)
    && AllComplete(w.outbox[..w.db.watermark])
    && ActiveManifest(w.db.items) == Reported(m0, w.outbox[..w.db.watermark])
  }

  lemma {:induction false} LedgerGrows(ledger: map<int, EventType>, es: seq<Event>, last: int)
    requires forall k | 0 <= k < |es| :: es[k].seqNo == last + 1 + k
    requires forall s <- ledger :: s <= last
    ensures forall s :: s in LedgerWith(ledger, es) <==> s in ledger || last < s <= last + |es|
    ensures forall s <- ledger :: LedgerWith(ledger, es)[s] == ledger[s]
    ensures forall s | last < s <= last + |es| :: LedgerWith(ledger, es)[s] == es[s - last - 1].eventType
  {
    if es != [] {
      LedgerGrows(ledger, es[..|es| - 1], last);
    }
  }

  // An accepted slice is the next stretch of the outbox.
  lemma AcceptedSlice(outbox: seq<Event>, b: seq<Event>, last: nat)
    requires ValidOutbox(outbox) && IsSlice(outbox, b) && Continues(b, last)
    ensures last + |b| <= |outbox| && outbox[..last + |b|] == outbox[..last] + b
  {
    var i, j :| 0 <= i <= j <= |outbox| && b == outbox[i..j];
    assert b[0] == outbox[i];
    assert i == last;
  }

  lemma LedgerKept(ledger: map<int, EventType>, outbox: seq<Event>, b: seq<Event>, last: nat)
    requires last + |b| <= |outbox| && outbox[..last + |b|] == outbox[..last] + b
    requires forall k | 0 <= k < |b| :: b[k].seqNo == last + 1 + k
    requires LedgerHolds(ledger, outbox, last)
    ensures LedgerHolds(LedgerWith(ledger, b), outbox, last + |b|)
  {
    LedgerGrows(ledger, b, last);
    forall s | 1 <= s <= last + |b| ensures LedgerWith(ledger, b)[s] == outbox[s - 1].eventType {
      if s > last {
        assert b[s - last - 1] == outbox[..last + |b|][s - 1];
      }
    }
  }

  lemma ManifestKept(m0: Manifest, items: Table, outbox: seq<Event>, b: seq<Event>, last: nat, now: int)
    requires last + |b| <= |outbox| && outbox[..last + |b|] == outbox[..last] + b
    requires ValidOutbox(outbox) && AllComplete(outbox[..last]) && OneLibraryPerPath(b)
    requires ActiveManifest(items) == Reported(m0, outbox[..last])
    ensures AllComplete(outbox[..last + |b|])
    ensures ActiveManifest(Collapsed(items, b, now)) == Reported(m0, outbox[..last + |b|])
  {
    forall k | 0 <= k < |b| ensures b[k] in outbox {
      assert b[k] == outbox[..last + |b|][last + k];
    }
    BatchReports(items, b, now);
    ReportedConcat(m0, outbox[..last], b);
  }

  lemma DeliverKeeps(m0: Manifest, w: World, b: seq<Event>, now: int)
    requires Inv(m0, w) && b in w.sent
    ensures Inv(m0, w.(db := AfterReceive(w.db, b, now)))
  {
    if Continues(b, w.db.watermark) {
      var last := w.db.watermark;
      AcceptedSlice(w.outbox, b, last);
      ManifestKept(m0, w.db.items, w.outbox, b, last, now);
      LedgerKept(w.db.ledger, w.outbox, b, last);
    }
  }

  lemma StepKeeps(m0: Manifest, w: World, w': World)
    requires Inv(m0, w) && Step(w, w')
    ensures Inv(m0, w')
  {
    if Append(w, w') {
      assert w'.outbox[..w.db.watermark] == w.outbox[..w.db.watermark];
      forall b <- w'.sent ensures IsSlice(w'.outbox, b) {
        var i, j :| 0 <= i <= j <= |w.outbox| && b == w.outbox[i..j];
        assert b == w'.outbox[i..j];
      }
    } else if Send(w, w') {
    } else {
      var b, now :| b in w.sent && w' == w.(db := AfterReceive(w.db, b, now));
      DeliverKeeps(m0, w, b, now);
    }
  }

  // At every point of every run the active rows are the outbox events 1..watermark
  // reported one at a time, and the ledger holds exactly those events.
  lemma {:induction false} RunReports(run: seq<World>, n: nat)
    requires Run(run) && n < |run|
    ensures Inv(ActiveManifest(run[0].db.items), run[n])
  {
    if n == 0 {
      assert run[0].outbox[..0] == [];
    } else {
      RunReports(run, n - 1);
      assert StepAt(run, n);
      StepKeeps(ActiveManifest(run[0].db.items), run[n - 1], run[n]);
    }
  }

  // How an outbox was cut into batches, and what the channel did, never matters.
  lemma CutsDoNotMatter(run: seq<World>, other: seq<World>, n: nat, m: nat)
    requires Run(run) && Run(other) && n < |run| && m < |other|
    requires ActiveManifest(run[0].db.items) == ActiveManifest(other[0].db.items)
    requires run[n].db.watermark == other[m].db.watermark
    requires forall i | 0 <= i < run[n].db.watermark && i < |run[n].outbox| && i < |other[m].outbox| ::
               run[n].outbox[i] == other[m].outbox[i]
    ensures ActiveManifest(run[n].db.items) == ActiveManifest(other[m].db.items)
  {
    RunReports(run, n);
    RunReports(other, m);
    assert run[n].outbox[..run[n].db.watermark] == other[m].outbox[..other[m].db.watermark];
  }
}
