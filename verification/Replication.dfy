/** Replication: an agent drains a durable outbox of file events to the central
    server. The sequence guard, the collapse of a batch into a plan, the application
    of the plan, and the protocol over an unreliable channel. */
module Replication {
  import opened Common
  import opened Sorting

  // --- Data model ------------------------------------------------------------

  datatype EventType = Created | Modified | Deleted | Moved

  // mtime is in integer microseconds, the resolution the item table stores.
  datatype Event = Event(
    seqNo: int, eventType: EventType, libraryRef: string, relPath: string,
    fromRelPath: Option<string>, size: Option<int>, mtime: Option<int>,
    quickHash: Option<string>, contentHash: Option<string>)

  datatype Status = Active | Missing | Trashed

  // A library of the agent is named by its library_ref.
  datatype Key = Key(lib: string, path: string)

  datatype Item = Item(size: int, mtime: int, quickHash: Option<string>,
                       contentHash: Option<string>, status: Status)

  type Table = map<Key, Item>

  // What an active row says about its file.
  datatype Facts = Facts(size: int, mtime: int, quickHash: Option<string>, contentHash: Option<string>)

  type Manifest = map<Key, Facts>

  ghost function ActiveFacts(o: Option<Item>): Option<Facts> {
    if o.Some? && o.value.status == Active
    then Some(Facts(o.value.size, o.value.mtime, o.value.quickHash, o.value.contentHash))
    else None
  }

  ghost function ActiveManifest(t: Table): Manifest {
    map k | k in t && t[k].status == Active :: ActiveFacts(Some(t[k])).value
  }

  // --- The sequence guard ----------------------------------------------------

  datatype Reason = EmptyBatch | Gap | Stale | Duplicate | NonMonotonic | InternalGap

  datatype Verdict = Accepted(first: int, last: int) | Rejected(reason: Reason, expectedSeqNo: int)

  // The exact contiguous continuation of what the server already has.
  ghost predicate Continues(es: seq<Event>, last: int) {
    es != [] && forall k | 0 <= k < |es| :: es[k].seqNo == last + 1 + k
  }

  // Length of the longest prefix that continues last.
  ghost function ContiguousPrefix(es: seq<Event>, last: int): nat {
    if es == [] || es[0].seqNo != last + 1 then 0 else 1 + ContiguousPrefix(es[1..], last + 1)
  }

  lemma {:induction false} PrefixLength(es: seq<Event>, last: int, n: nat)
    requires n <= |es| && forall k | 0 <= k < n :: es[k].seqNo == last + 1 + k
    requires n < |es| ==> es[n].seqNo != last + 1 + n
    ensures ContiguousPrefix(es, last) == n
  {
    if n > 0 {
      PrefixLength(es[1..], last + 1, n - 1);
    }
  }

  // Why a batch is refused, read off the first entry that breaks the continuation.
  ghost function BreakReason(es: seq<Event>, last: int, n: nat): Reason
    requires n < |es|
  {
    var s := es[n].seqNo;
    if n == 0 then (if s <= last then Stale else Gap)
    else if s == last + n then Duplicate
    else if s < last + n then NonMonotonic
    else InternalGap
  }

  method CheckBatch(es: seq<Event>, lastSeq: int) returns (v: Verdict)
    ensures v.Accepted? <==> Continues(es, lastSeq)
    ensures v.Accepted? ==> v.first == lastSeq + 1 && v.last == lastSeq + |es|
    ensures v.Rejected? ==> v.expectedSeqNo == lastSeq + 1 + ContiguousPrefix(es, lastSeq)
    ensures v.Rejected? ==>
              if es == [] then v.reason == EmptyBatch
              else ContiguousPrefix(es, lastSeq) < |es|
                   && v.reason == BreakReason(es, lastSeq, ContiguousPrefix(es, lastSeq))
  {
    if es == [] {
      return Rejected(EmptyBatch, lastSeq + 1);
    }
    var first := es[0].seqNo;
    if first <= lastSeq {
      return Rejected(Stale, lastSeq + 1);
    }
    if first != lastSeq + 1 {
      return Rejected(Gap, lastSeq + 1);
    }
    var prev := first;
    for i := 1 to |es|
      invariant prev == lastSeq + i
      invariant forall k | 0 <= k < i :: es[k].seqNo == lastSeq + 1 + k
    {
      var s := es[i].seqNo;
      if s != prev + 1 {
        PrefixLength(es, lastSeq, i);
      }
      if s == prev {
        return Rejected(Duplicate, prev + 1);
      }
      if s < prev {
        return Rejected(NonMonotonic, prev + 1);
      }
      if s != prev + 1 {
        return Rejected(InternalGap, prev + 1);
      }
      prev := s;
    }
    return Accepted(first, prev);
  }

  // Resending from the expected number: accepted exactly when the refused batch had
  // no contiguous prefix, because a prefix is counted but never applied.
  lemma ResendFromExpected(es: seq<Event>, last: int, resend: seq<Event>)
    requires !Continues(es, last)
    requires Continues(resend, last + ContiguousPrefix(es, last))
    ensures Continues(resend, last) <==> ContiguousPrefix(es, last) == 0
  {
    assert resend[0].seqNo == last + ContiguousPrefix(es, last) + 1;
  }

  // A batch 1, 3 is refused with 2 expected, and a resend from 2 is refused as well.
  lemma PrefixedResendRefused(e: Event)
    ensures var es, resend := [e.(seqNo := 1), e.(seqNo := 3)], [e.(seqNo := 2)];
            && !Continues(es, 0) && ContiguousPrefix(es, 0) == 1
            && Continues(resend, 0 + ContiguousPrefix(es, 0)) && !Continues(resend, 0)
  {
    var es, resend := [e.(seqNo := 1), e.(seqNo := 3)], [e.(seqNo := 2)];
    PrefixLength(es, 0, 1);
    assert es[1].seqNo == 3 && resend[0].seqNo == 2;
  }

  // An agent that sends contiguous slices of its outbox is accepted on the send
  // after any rejection.
  lemma SliceAcceptedAfterRejection(es: seq<Event>, last: int, start: int, resend: seq<Event>)
    requires forall k | 0 <= k < |es| :: es[k].seqNo == start + k
    requires !Continues(es, last)
    requires Continues(resend, last + ContiguousPrefix(es, last))
    ensures Continues(resend, last)
  {
    if es != [] {
      assert es[0].seqNo == start;
    }
    ResendFromExpected(es, last, resend);
  }

  // --- The plan --------------------------------------------------------------

  datatype Op = Upsert(ev: Event) | Delete(lib: string)

  ghost function OpLib(op: Op): string {
    if op.Upsert? then op.ev.libraryRef else op.lib
  }

  // What one event does to a path; a move onto itself is an upsert.
  ghost function Touch(ev: Event, path: string): Option<Op> {
    if ev.relPath == path then
      Some(if ev.eventType == Deleted then Delete(ev.libraryRef) else Upsert(ev))
    else if ev.eventType == Moved && ev.fromRelPath == Some(path) then Some(Delete(ev.libraryRef))
    else None
  }

  // The last event that touches the path decides.
  ghost function LastOp(es: seq<Event>, path: string): Option<Op> {
    if es == [] then None
    else
      var t := Touch(es[|es| - 1], path);
      if t.Some? then t else LastOp(es[..|es| - 1], path)
  }

  lemma {:induction false} LastOpFromBatch(es: seq<Event>, path: string)
    requires LastOp(es, path).Some?
    ensures exists i :: 0 <= i < |es| && Touch(es[i], path) == LastOp(es, path)
  {
    var n := |es| - 1;
    if Touch(es[n], path).None? {
      LastOpFromBatch(es[..n], path);
      var i :| 0 <= i < n && Touch(es[..n][i], path) == LastOp(es[..n], path);
      assert Touch(es[i], path) == LastOp(es, path);
    } else {
      assert Touch(es[n], path) == LastOp(es, path);
    }
  }

  datatype PlanEntry = PlanUpsert(ev: Event) | PlanDelete

  ghost predicate Agrees(entry: Option<PlanEntry>, op: Option<Op>) {
    match op
    case None => entry.None?
    case Some(Upsert(ev)) => entry == Some(PlanUpsert(ev))
    case Some(Delete(_)) => entry == Some(PlanDelete)
  }

  function EventPath(e: Event): string { e.relPath }

  function Same(p: string): string { p }

  // The plan of a batch: the winning event of every upserted path and every deleted
  // path, each listed once, in path order.
  ghost predicate IsPlan(es: seq<Event>, upserts: seq<Event>, deletes: seq<string>) {
    && (forall e <- upserts :: LastOp(es, e.relPath) == Some(Upsert(e)))
    && (forall p :: LastOp(es, p).Some? && LastOp(es, p).value.Upsert? ==> LastOp(es, p).value.ev in upserts)
    && (forall p :: p in deletes <==> LastOp(es, p).Some? && LastOp(es, p).value.Delete?)
    && NoDuplicates(upserts) && NoDuplicates(deletes)
    && SortedBy(upserts, ByKey(EventPath)) && SortedBy(deletes, ByKey(Same))
  }

  method PlanUpserts(es: seq<Event>) returns (upserts: seq<Event>, deletes: seq<string>)
    ensures IsPlan(es, upserts, deletes)
  {
    var state: map<string, PlanEntry> := map[];
    for i := 0 to |es|
      invariant forall p :: Agrees(Get(state, p), LastOp(es[..i], p))
    {
      var ev := es[i];
      ghost var before := state;
      if ev.eventType == Moved {
        if ev.fromRelPath.Some? {
          state := state[ev.fromRelPath.value := PlanDelete];
        }
        state := state[ev.relPath := PlanUpsert(ev)];
      } else if ev.eventType == Deleted {
        state := state[ev.relPath := PlanDelete];
      } else {
        state := state[ev.relPath := PlanUpsert(ev)];
      }
      forall p ensures Agrees(Get(state, p), LastOp(es[..i + 1], p)) {
        assert es[..i + 1][..i] == es[..i];
        assert Agrees(Get(before, p), LastOp(es[..i], p));
      }
    }
    assert es[..|es|] == es;
    upserts, deletes := ListPlan(state, es);
    upserts, deletes := SortPlan(es, upserts, deletes);
  }

  // The two list comprehensions over the state dictionary.
  method ListPlan(state: map<string, PlanEntry>, ghost es: seq<Event>)
    returns (upserts: seq<Event>, deletes: seq<string>)
    requires forall p :: Agrees(Get(state, p), LastOp(es, p))
    ensures forall e <- upserts :: LastOp(es, e.relPath) == Some(Upsert(e))
    ensures forall p :: LastOp(es, p).Some? && LastOp(es, p).value.Upsert? ==> LastOp(es, p).value.ev in upserts
    ensures forall p :: p in deletes <==> LastOp(es, p).Some? && LastOp(es, p).value.Delete?
    ensures NoDuplicates(upserts) && NoDuplicates(deletes)
  {
    upserts, deletes := [], [];
    var keys := state.Keys;
    while keys != {}
      invariant keys <= state.Keys
      invariant forall e <- upserts :: e.relPath in state.Keys - keys && state[e.relPath] == PlanUpsert(e)
      invariant forall p <- state.Keys - keys :: state[p].PlanUpsert? ==> state[p].ev in upserts
      invariant forall p :: p in deletes <==> p in state.Keys - keys && state[p].PlanDelete?
      invariant NoDuplicates(upserts) && NoDuplicates(deletes)
    {
      var p :| p in keys;
      keys := keys - {p};
      assert Agrees(Get(state, p), LastOp(es, p));
      match state[p] {
        case PlanUpsert(ev) =>
          TouchesOwnPath(es, p);
          upserts := upserts + [ev];
        case PlanDelete => deletes := deletes + [p];
      }
    }
    forall p | LastOp(es, p).Some? && LastOp(es, p).value.Upsert?
      ensures LastOp(es, p).value.ev in upserts
    {
      assert Agrees(Get(state, p), LastOp(es, p));
      assert p in state.Keys;
    }
    forall e | e in upserts ensures LastOp(es, e.relPath) == Some(Upsert(e)) {
      assert Agrees(Get(state, e.relPath), LastOp(es, e.relPath));
    }
    forall p ensures p in deletes <==> LastOp(es, p).Some? && LastOp(es, p).value.Delete? {
      assert Agrees(Get(state, p), LastOp(es, p));
    }
  }

  method SortPlan(ghost es: seq<Event>, unsortedUpserts: seq<Event>, unsortedDeletes: seq<string>)
    returns (upserts: seq<Event>, deletes: seq<string>)
    requires forall e <- unsortedUpserts :: LastOp(es, e.relPath) == Some(Upsert(e))
    requires forall p :: LastOp(es, p).Some? && LastOp(es, p).value.Upsert? ==>
             LastOp(es, p).value.ev in unsortedUpserts
    requires forall p :: p in unsortedDeletes <==> LastOp(es, p).Some? && LastOp(es, p).value.Delete?
    requires NoDuplicates(unsortedUpserts) && NoDuplicates(unsortedDeletes)
    ensures IsPlan(es, upserts, deletes)
  {
    upserts := Sort(unsortedUpserts, ByKey(EventPath));
    deletes := Sort(unsortedDeletes, ByKey(Same));
    ByKeyOrdering(EventPath);
    ByKeyOrdering(Same);
    SortSorts(unsortedUpserts, ByKey(EventPath));
    SortSorts(unsortedDeletes, ByKey(Same));
    SortPermutes(unsortedUpserts, ByKey(EventPath));
    SortPermutes(unsortedDeletes, ByKey(Same));
    PermutationDistinct(unsortedUpserts, upserts);
    PermutationDistinct(unsortedDeletes, deletes);
  }

  lemma TouchesOwnPath(es: seq<Event>, path: string)
    ensures LastOp(es, path).Some? && LastOp(es, path).value.Upsert? ==> LastOp(es, path).value.ev.relPath == path
  {
    if LastOp(es, path).Some? {
      LastOpFromBatch(es, path);
    }
  }

  // --- Applying a batch ------------------------------------------------------

  // The row an upsert leaves: absent fields keep the stored value, a new row
  // defaults them; the hashes are always overwritten; any status becomes active.
  function UpsertRow(o: Option<Item>, ev: Event, now: int): Item {
    match o
    case None =>
      Item(if ev.size.Some? then ev.size.value else 0,
           if ev.mtime.Some? then ev.mtime.value else now,
           ev.quickHash, ev.contentHash, Active)
    case Some(row) =>
      Item(if ev.size.Some? then ev.size.value else row.size,
           if ev.mtime.Some? then ev.mtime.value else row.mtime,
           ev.quickHash, ev.contentHash, Active)
  }

  ghost function Do(op: Op, o: Option<Item>, now: int): Option<Item> {
    match op
    case Upsert(ev) => Some(UpsertRow(o, ev, now))
    case Delete(_) => if o.Some? then Some(o.value.(status := Missing)) else None
  }

  // One row under an optional operation on its path, which reaches only its library.
  ghost function DoAt(op: Option<Op>, o: Option<Item>, k: Key, now: int): Option<Item> {
    if op.Some? && OpLib(op.value) == k.lib then Do(op.value, o, now) else o
  }

  // A whole batch on one row: only the last operation on the path runs.
  ghost function Collapse(es: seq<Event>, o: Option<Item>, k: Key, now: int): Option<Item> {
    DoAt(LastOp(es, k.path), o, k, now)
  }

  ghost function Targets(es: seq<Event>): set<Key> {
    set i | 0 <= i < |es| :: Key(es[i].libraryRef, es[i].relPath)
  }

  ghost function Collapsed(t: Table, es: seq<Event>, now: int): Table {
    map k | k in t.Keys + Targets(es) && Collapse(es, Get(t, k), k, now).Some?
      :: Collapse(es, Get(t, k), k, now).value
  }

  lemma CollapsedAt(t: Table, es: seq<Event>, now: int, k: Key)
    ensures Get(Collapsed(t, es, now), k) == Collapse(es, Get(t, k), k, now)
  {
    if k !in t && Collapse(es, None, k, now).Some? {
      LastOpFromBatch(es, k.path);
      var i :| 0 <= i < |es| && Touch(es[i], k.path) == LastOp(es, k.path);
      assert k == Key(es[i].libraryRef, es[i].relPath);
    }
  }

  ghost function LedgerWith(ledger: map<int, EventType>, es: seq<Event>): map<int, EventType> {
    if es == [] then ledger
    else
      var l := LedgerWith(ledger, es[..|es| - 1]);
      var ev := es[|es| - 1];
      if ev.seqNo in l then l else l[ev.seqNo := ev.eventType]
  }

  datatype Db = Db(items: Table, watermark: int, ledger: map<int, EventType>)

  ghost function AfterBatch(db: Db, es: seq<Event>, now: int): Db
    requires es != []
  {
    Db(Collapsed(db.items, es, now), Max(db.watermark, es[|es| - 1].seqNo), LedgerWith(db.ledger, es))
  }

  ghost function AfterReceive(db: Db, es: seq<Event>, now: int): Db {
    if Continues(es, db.watermark) then AfterBatch(db, es, now) else db
  }

  // Central's rows for one agent. Each method is one committed transaction.
  class ReplicationStore {
    var items: Table
    var watermark: int
    var ledger: map<int, EventType>

    ghost function State(): Db
      reads this
    {
      Db(items, watermark, ledger)
    }

    // The replication endpoint: guard, then apply.
    method Receive(es: seq<Event>, now: int) returns (v: Verdict)
      modifies this
      ensures State() == AfterReceive(old(State()), es, now)
      ensures v.Accepted? <==> Continues(es, old(watermark))
    {
      v := CheckBatch(es, watermark);
      if v.Accepted? {
        var _, _, _ := ApplyBatch(es, now);
      }
    }

    method ApplyBatch(es: seq<Event>, now: int) returns (upserted: nat, tombstoned: nat, noops: nat)
      requires es != []
      modifies this
      ensures State() == AfterBatch(old(State()), es, now)
      ensures upserted == |UpsertedPaths(es)| && tombstoned + noops == |DeletedPaths(es)|
      ensures noops == |set p <- DeletedPaths(es) | Key(LastOp(es, p).value.lib, p) !in old(items)|
    {
      var upserts, deletes := PlanUpserts(es);
      var deleteRef := DeleteRefs(es);
      upserted := ApplyUpserts(upserts, now);
      label afterUpserts:
      tombstoned, noops := ApplyDeletes(deletes, deleteRef);
      PlanCounts(es, upserts, deletes);
      PlanDone(es, upserts, deletes, deleteRef, old(items), old@afterUpserts(items), items, now);
      RecordLedger(es);
      var lastSeq := es[|es| - 1].seqNo;
      if lastSeq > watermark {
        watermark := lastSeq;
      }
    }

    method ApplyUpserts(upserts: seq<Event>, now: int) returns (upserted: nat)
      requires forall i, j | 0 <= i < j < |upserts| :: upserts[i].relPath != upserts[j].relPath
      modifies this`items
      ensures UpsertsDone(old(items), items, upserts, now)
      ensures upserted == |upserts|
    {
      upserted := 0;
      while upserted < |upserts|
        invariant upserted <= |upserts|
        invariant UpsertsDone(old(items), items, upserts[..upserted], now)
      {
        var ev := upserts[upserted];
        var key := Key(ev.libraryRef, ev.relPath);
        assert forall e <- upserts[..upserted] :: e.relPath != ev.relPath;
        assert Get(items, key) == Get(old(items), key);
        items := items[key := UpsertRow(Get(items, key), ev, now)];
        assert upserts[..upserted + 1] == upserts[..upserted] + [ev];
        upserted := upserted + 1;
      }
      assert upserts[..upserted] == upserts;
    }

    method ApplyDeletes(deletes: seq<string>, deleteRef: map<string, string>) returns (tombstoned: nat, noops: nat)
      requires NoDuplicates(deletes)
      modifies this`items
      ensures DeletesDone(old(items), items, deletes, deleteRef)
      ensures tombstoned + noops == |deletes|
      ensures noops == |NoopSet(deletes, deleteRef, old(items))|
    {
      tombstoned, noops := 0, 0;
      for i := 0 to |deletes|
        invariant DeletesDone(old(items), items, deletes[..i], deleteRef)
        invariant tombstoned + noops == i
        invariant noops == |NoopSet(deletes[..i], deleteRef, old(items))|
      {
        var p := deletes[i];
        assert deletes[..i + 1] == deletes[..i] + [p];
        assert p !in deletes[..i];
        NoopStep(deletes[..i], p, deleteRef, old(items));
        assert forall lib :: Get(items, Key(lib, p)) == Get(old(items), Key(lib, p));
        if p in deleteRef && Key(deleteRef[p], p) in items {
          var key := Key(deleteRef[p], p);
          items := items[key := items[key].(status := Missing)];
          tombstoned := tombstoned + 1;
        } else {
          noops := noops + 1;
        }
      }
      assert deletes[..|deletes|] == deletes;
    }

    method RecordLedger(es: seq<Event>)
      modifies this`ledger
      ensures ledger == LedgerWith(old(ledger), es)
    {
      for i := 0 to |es|
        invariant ledger == LedgerWith(old(ledger), es[..i])
      {
        assert es[..i + 1][..i] == es[..i];
        if es[i].seqNo !in ledger {
          ledger := ledger[es[i].seqNo := es[i].eventType];
        }
      }
      assert es[..|es|] == es;
    }
  }

  ghost function Paths(es: seq<Event>): set<string> {
    (set i | 0 <= i < |es| :: es[i].relPath)
    + (set i | 0 <= i < |es| && es[i].fromRelPath.Some? :: es[i].fromRelPath.value)
  }

  ghost function UpsertedPaths(es: seq<Event>): set<string> {
    set p <- Paths(es) | LastOp(es, p).Some? && LastOp(es, p).value.Upsert?
  }

  ghost function DeletedPaths(es: seq<Event>): set<string> {
    set p <- Paths(es) | LastOp(es, p).Some? && LastOp(es, p).value.Delete?
  }

  // The planned tombstones that meet no row.
  ghost function NoopSet(deletes: seq<string>, deleteRef: map<string, string>, t: Table): set<string> {
    set p <- deletes | Get(deleteRef, p).None? || Key(deleteRef[p], p) !in t
  }

  lemma NoopStep(deletes: seq<string>, p: string, deleteRef: map<string, string>, t: Table)
    requires p !in deletes
    ensures |NoopSet(deletes + [p], deleteRef, t)|
            == |NoopSet(deletes, deleteRef, t)| + if p in deleteRef && Key(deleteRef[p], p) in t then 0 else 1
  {
    var noop := Get(deleteRef, p).None? || Key(deleteRef[p], p) !in t;
    assert NoopSet(deletes + [p], deleteRef, t) == NoopSet(deletes, deleteRef, t) + if noop then {p} else {};
  }

  lemma TouchedInPaths(es: seq<Event>, p: string)
    requires LastOp(es, p).Some?
    ensures p in Paths(es)
  {
    LastOpFromBatch(es, p);
  }

  lemma PlanCounts(es: seq<Event>, upserts: seq<Event>, deletes: seq<string>)
    requires IsPlan(es, upserts, deletes)
    ensures |upserts| == |UpsertedPaths(es)| && |deletes| == |DeletedPaths(es)|
    ensures forall p :: p in deletes <==> p in DeletedPaths(es)
  {
    var paths := seq(|upserts|, i requires 0 <= i < |upserts| => upserts[i].relPath);
    PlanPathsDistinct(es, upserts, deletes);
    DistinctCount(paths);
    DistinctCount(deletes);
    forall p ensures p in paths <==> p in UpsertedPaths(es) {
      if p in UpsertedPaths(es) {
        TouchesOwnPath(es, p);
        var i :| 0 <= i < |upserts| && upserts[i] == LastOp(es, p).value.ev;
        assert paths[i] == p;
      }
      if p in paths {
        var i :| 0 <= i < |paths| && paths[i] == p;
        assert LastOp(es, upserts[i].relPath) == Some(Upsert(upserts[i]));
        TouchedInPaths(es, p);
      }
    }
    forall p ensures p in deletes <==> p in DeletedPaths(es) {
      if p in deletes {
        TouchedInPaths(es, p);
      }
    }
    assert Elements(paths) == UpsertedPaths(es);
    assert Elements(deletes) == DeletedPaths(es);
  }

  lemma PlanPathsDistinct(es: seq<Event>, upserts: seq<Event>, deletes: seq<string>)
    requires IsPlan(es, upserts, deletes)
    ensures forall i, j | 0 <= i < j < |upserts| :: upserts[i].relPath != upserts[j].relPath
  {
    forall i, j | 0 <= i < j < |upserts| ensures upserts[i].relPath != upserts[j].relPath {
      assert LastOp(es, upserts[i].relPath) == Some(Upsert(upserts[i]));
      assert LastOp(es, upserts[j].relPath) == Some(Upsert(upserts[j]));
    }
  }

  // A path the plan does not upsert is in no planned upsert.
  lemma PlanMisses(es: seq<Event>, upserts: seq<Event>, k: Key)
    requires forall e <- upserts :: LastOp(es, e.relPath) == Some(Upsert(e))
    requires LastOp(es, k.path).Some? ==> LastOp(es, k.path).value.Delete? || OpLib(LastOp(es, k.path).value) != k.lib
    ensures forall e <- upserts :: k != Key(e.libraryRef, e.relPath)
  {
    forall e <- upserts ensures k != Key(e.libraryRef, e.relPath) {
      if k.path == e.relPath {
        assert LastOp(es, k.path) == Some(Upsert(e));
      }
    }
  }

  ghost predicate UpsertsDone(before: Table, after: Table, upserts: seq<Event>, now: int) {
    && (forall e <- upserts ::
          Get(after, Key(e.libraryRef, e.relPath))
          == Some(UpsertRow(Get(before, Key(e.libraryRef, e.relPath)), e, now)))
    && (forall k :: (forall e <- upserts :: k != Key(e.libraryRef, e.relPath)) ==> Get(after, k) == Get(before, k))
  }

  ghost predicate DeletesDone(before: Table, after: Table, deletes: seq<string>, deleteRef: map<string, string>) {
    forall k ::
      Get(after, k)
      == if k.path in deletes && Get(deleteRef, k.path) == Some(k.lib) && k in before
         then Some(before[k].(status := Missing)) else Get(before, k)
  }

  // The library every deleted path is tombstoned in.
  method DeleteRefs(es: seq<Event>) returns (deleteRef: map<string, string>)
    ensures forall p :: LastOp(es, p).Some? && LastOp(es, p).value.Delete? ==>
            Get(deleteRef, p) == Some(LastOp(es, p).value.lib)
  {
    deleteRef := map[];
    for i := 0 to |es|
      invariant forall p :: LastOp(es[..i], p).Some? && LastOp(es[..i], p).value.Delete? ==>
                Get(deleteRef, p) == Some(LastOp(es[..i], p).value.lib)
    {
      var ev := es[i];
      ghost var before := deleteRef;
      if ev.eventType == Moved && ev.fromRelPath.Some? {
        deleteRef := deleteRef[ev.fromRelPath.value := ev.libraryRef];
      } else if ev.eventType == Deleted {
        deleteRef := deleteRef[ev.relPath := ev.libraryRef];
      }
      assert es[..i + 1][..i] == es[..i];
    }
    assert es[..|es|] == es;
  }

  lemma PlanAt(es: seq<Event>, upserts: seq<Event>, deletes: seq<string>, deleteRef: map<string, string>,
               before: Table, middle: Table, after: Table, k: Key, now: int)
    requires IsPlan(es, upserts, deletes)
    requires forall p :: LastOp(es, p).Some? && LastOp(es, p).value.Delete? ==>
             Get(deleteRef, p) == Some(LastOp(es, p).value.lib)
    requires UpsertsDone(before, middle, upserts, now) && DeletesDone(middle, after, deletes, deleteRef)
    ensures Get(after, k) == Collapse(es, Get(before, k), k, now)
  {
    var op := LastOp(es, k.path);
    TouchesOwnPath(es, k.path);
    if op.Some? && op.value.Upsert? && OpLib(op.value) == k.lib {
      assert op.value.ev in upserts;
    } else {
      PlanMisses(es, upserts, k);
    }
  }

  // The two passes over a plan leave the collapsed table.
  lemma PlanDone(es: seq<Event>, upserts: seq<Event>, deletes: seq<string>, deleteRef: map<string, string>,
                 before: Table, middle: Table, after: Table, now: int)
    requires IsPlan(es, upserts, deletes)
    requires forall p :: LastOp(es, p).Some? && LastOp(es, p).value.Delete? ==>
             Get(deleteRef, p) == Some(LastOp(es, p).value.lib)
    requires forall p :: p in deletes <==> p in DeletedPaths(es)
    requires UpsertsDone(before, middle, upserts, now) && DeletesDone(middle, after, deletes, deleteRef)
    ensures after == Collapsed(before, es, now)
    ensures NoopSet(deletes, deleteRef, middle)
            == set p <- DeletedPaths(es) | Key(LastOp(es, p).value.lib, p) !in before
  {
    forall k ensures Get(after, k) == Get(Collapsed(before, es, now), k) {
      CollapsedAt(before, es, now, k);
      PlanAt(es, upserts, deletes, deleteRef, before, middle, after, k, now);
    }
    MapsEqual(after, Collapsed(before, es, now));
    forall p <- DeletedPaths(es)
      ensures Key(LastOp(es, p).value.lib, p) in middle <==> Key(LastOp(es, p).value.lib, p) in before
    {
      var k := Key(LastOp(es, p).value.lib, p);
      PlanMisses(es, upserts, k);
      assert Get(middle, k) == Get(before, k);
    }
    assert forall p <- DeletedPaths(es) :: Get(deleteRef, p) == Some(LastOp(es, p).value.lib);
  }
}
