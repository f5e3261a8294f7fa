/** Agent commands: a lease, TTL and redelivery machine. An admin enqueues and cancels,
    an agent polls, acknowledges and completes, and a bounded sweep expires and
    redelivers. */
module Commands {
  import opened Common
  import opened Sorting

  datatype State = Pending | PickedUp | Done | Failed | Expired | Cancelled

  datatype Event = Deliver | Ack | Complete | Fail | Redeliver | Expire | Cancel

  predicate Terminal(s: State) { s == Done || s == Failed || s == Expired || s == Cancelled }

  // The transition table; None is the ValueError of an absent key.
  function Next(s: State, e: Event): Option<State> {
    match (s, e)
    case (Pending, Deliver) => Some(PickedUp)
    case (Pending, Expire) => Some(Expired)
    case (Pending, Cancel) => Some(Cancelled)
    case (PickedUp, Ack) => Some(PickedUp)
    case (PickedUp, Complete) => Some(Done)
    case (PickedUp, Fail) => Some(Failed)
    case (PickedUp, Redeliver) => Some(Pending)
    case (PickedUp, Expire) => Some(Expired)
    case (PickedUp, Cancel) => Some(Cancelled)
    case _ => None
  }

  // What the agent reported, or that the sweep gave up.
  datatype Report = Reported(text: string) | GaveUp(attempts: int)

  datatype Command = Command(status: State, attempts: int, createdAt: int, expiresAt: int,
                             pickedUpAt: Option<int>, completedAt: Option<int>, report: Option<Report>)

  type Id = nat

  type Queue = map<Id, Command>

  datatype Decision = DoNothing | DoExpire | DoExhaust | DoRedeliver

  datatype Policy = Policy(leaseSeconds: int, maxAttempts: int)

  function SweepDecision(c: Command, now: int, p: Policy): Decision {
    if c.status != Pending && c.status != PickedUp then DoNothing
    else if c.expiresAt <= now then DoExpire
    else if c.status == PickedUp && c.pickedUpAt.Some? then
      if c.pickedUpAt.value <= now - p.leaseSeconds
      then (if c.attempts >= p.maxAttempts then DoExhaust else DoRedeliver)
      else DoNothing
    else DoNothing
  }

  // The WHERE clause of the sweep; a NULL picked_up_at compares to nothing.
  predicate Selected(c: Command, now: int, p: Policy) {
    (c.status == Pending || c.status == PickedUp)
    && (c.expiresAt <= now
        || (c.status == PickedUp && c.pickedUpAt.Some? && c.pickedUpAt.value <= now - p.leaseSeconds))
  }

  // The SQL filter and the pure decision agree, row by row.
  lemma FilterIsDecision(c: Command, now: int, p: Policy)
    ensures Selected(c, now, p) <==> SweepDecision(c, now, p) != DoNothing
  {
  }

  function EventOf(d: Decision): Event
    requires d != DoNothing
  {
    match d
    case DoExpire => Expire
    case DoExhaust => Fail
    case DoRedeliver => Redeliver
  }

  // The sweep never attempts an absent transition.
  lemma SweepTransitionLegal(c: Command, now: int, p: Policy)
    requires Selected(c, now, p)
    ensures Next(c.status, EventOf(SweepDecision(c, now, p))).Some?
  {
  }

  ghost function Swept(c: Command, now: int, p: Policy): Command {
    match SweepDecision(c, now, p)
    case DoNothing => c
    case DoExpire => c.(status := Expired, completedAt := Some(now))
    case DoExhaust => c.(status := Failed, completedAt := Some(now), report := Some(GaveUp(c.attempts)))
    case DoRedeliver => c.(status := Pending, pickedUpAt := None)
  }

  // --- Steps -----------------------------------------------------------------

  // What ORDER BY .. LIMIT may return of candidate rows with their sort keys: ties
  // are open, but nothing left out comes before anything taken.
  ghost predicate FirstByKey(keys: map<Id, int>, limit: nat, chosen: set<Id>) {
    && chosen <= keys.Keys && |chosen| <= limit
    && (forall i, j | i in chosen && j in keys && j !in chosen :: keys[i] <= keys[j])
    && (|chosen| < limit ==> chosen == keys.Keys)
  }

  function SweepKeys(q: Queue, locked: set<Id>, now: int, p: Policy): map<Id, int> {
    map i <- q | i !in locked && Selected(q[i], now, p) :: q[i].expiresAt
  }

  function PollKeys(q: Queue, locked: set<Id>, now: int): map<Id, int> {
    map i <- q | i !in locked && q[i].status == Pending && q[i].expiresAt > now :: q[i].createdAt
  }

  function Delivered(c: Command, now: int): Command {
    c.(status := PickedUp, pickedUpAt := Some(now), attempts := c.attempts + 1)
  }

  ghost function AfterSweep(q: Queue, chosen: set<Id>, now: int, p: Policy): Queue {
    map i <- q :: if i in chosen then Swept(q[i], now, p) else q[i]
  }

  ghost function AfterPoll(q: Queue, chosen: set<Id>, now: int): Queue {
    map i <- q :: if i in chosen then Delivered(q[i], now) else q[i]
  }

  // locked are the rows another transaction holds; they are skipped.
  ghost predicate SweepStep(q: Queue, q': Queue, locked: set<Id>, now: int, p: Policy, limit: nat) {
    exists chosen: set<Id> ::
      FirstByKey(SweepKeys(q, locked, now, p), limit, chosen) && q' == AfterSweep(q, chosen, now, p)
  }

  ghost predicate PollStep(q: Queue, q': Queue, locked: set<Id>, now: int, want: nat) {
    exists chosen: set<Id> :: FirstByKey(PollKeys(q, locked, now), want, chosen) && q' == AfterPoll(q, chosen, now)
  }

  function SizeOf(text: Option<string>): nat { if text.Some? then |text.value| else 0 }

  function ReportOf(text: Option<string>): Option<Report> {
    if text.Some? then Some(Reported(text.value)) else None
  }

  // What an acknowledgement, a completion or a cancellation writes.
  ghost function Transitioned(c: Command, e: Event, text: Option<string>, now: int): Command
    requires Next(c.status, e).Some?
  {
    var s := Next(c.status, e).value;
    match e
    case Ack => c.(status := s, pickedUpAt := Some(now))
    case Complete | Fail => c.(status := s, completedAt := Some(now), report := ReportOf(text))
    case _ => c.(status := s, completedAt := Some(now))
  }

  // The events an agent or an admin causes.
  predicate Requested(e: Event) { e == Ack || e == Complete || e == Fail || e == Cancel }

  ghost predicate EventStep(q: Queue, q': Queue, i: Id, e: Event, text: Option<string>, now: int) {
    && Requested(e) && i in q && Next(q[i].status, e).Some?
    && q' == q[i := Transitioned(q[i], e, text, now)]
  }

  function Fresh(ttl: int, now: int): Command { Command(Pending, 0, now, now + ttl, None, None, None) }

  ghost predicate EnqueueStep(q: Queue, q': Queue, now: int) {
    exists i: Id, ttl: int :: i !in q && ttl > 0 && q' == q[i := Fresh(ttl, now)]
  }

  datatype Conflict = NoSuchCommand | NotInFlight(status: State) | AlreadyTerminal(status: State) | ReportTooLarge

  // The chosen rows that call for a decision.
  ghost function Deciding(q: Queue, chosen: set<Id>, now: int, p: Policy, d: Decision): set<Id> {
    set i <- chosen | i in q && SweepDecision(q[i], now, p) == d
  }

  // A sweep, with the number of rows it took each decision for.
  ghost predicate CountedSweep(q: Queue, q': Queue, locked: set<Id>, now: int, p: Policy, limit: nat,
                               expired: nat, redelivered: nat, exhausted: nat) {
    exists chosen: set<Id> ::
      && FirstByKey(SweepKeys(q, locked, now, p), limit, chosen) && q' == AfterSweep(q, chosen, now, p)
      && expired == |Deciding(q, chosen, now, p, DoExpire)| && redelivered == |Deciding(q, chosen, now, p, DoRedeliver)|
      && exhausted == |Deciding(q, chosen, now, p, DoExhaust)|
  }

  lemma DecidingMore(q: Queue, rows: seq<Id>, n: nat, now: int, p: Policy, d: Decision)
    requires n < |rows| && NoDuplicates(rows) && rows[n] in q
    ensures |Deciding(q, Elements(rows[..n + 1]), now, p, d)|
            == |Deciding(q, Elements(rows[..n]), now, p, d)| + if SweepDecision(q[rows[n]], now, p) == d then 1 else 0
  {
    assert rows[..n + 1] == rows[..n] + [rows[n]] && rows[n] !in rows[..n];
    assert Elements(rows[..n + 1]) == Elements(rows[..n]) + {rows[n]};
    DecidingAdd(q, Elements(rows[..n]), rows[n], now, p, d);
  }

  lemma DecidingAdd(q: Queue, done: set<Id>, i: Id, now: int, p: Policy, d: Decision)
    requires i in q && i !in done
    ensures |Deciding(q, done + {i}, now, p, d)|
            == |Deciding(q, done, now, p, d)| + if SweepDecision(q[i], now, p) == d then 1 else 0
  {
    if SweepDecision(q[i], now, p) == d {
      assert Deciding(q, done + {i}, now, p, d) == Deciding(q, done, now, p, d) + {i};
    } else {
      assert Deciding(q, done + {i}, now, p, d) == Deciding(q, done, now, p, d);
    }
  }

  class CommandQueue {
    var commands: Queue

    method Enqueue(id: Id, ttl: int, now: int)
      requires id !in commands && ttl > 0
      modifies this
      ensures commands == old(commands)[id := Command(Pending, 0, now, now + ttl, None, None, None)]
    {
      commands := commands[id := Fresh(ttl, now)];
    }

    // raised would be an uncaught ValueError from the transition table.
    method Sweep(now: int, p: Policy, limit: nat, locked: set<Id>)
      returns (expired: nat, redelivered: nat, exhausted: nat, raised: bool)
      modifies this
      ensures !raised
      ensures SweepStep(old(commands), commands, locked, now, p, limit)
      ensures CountedSweep(old(commands), commands, locked, now, p, limit, expired, redelivered, exhausted)
    {
      expired, redelivered, exhausted, raised := 0, 0, 0, false;
      var rows := SelectFirst(SweepKeys(commands, locked, now, p), limit);
      ghost var q := commands;
      ChosenRows(SweepKeys(q, locked, now, p), limit, rows);
      for n := 0 to |rows|
        invariant !raised && commands == AfterSweep(q, Elements(rows[..n]), now, p)
        invariant expired == |Deciding(q, Elements(rows[..n]), now, p, DoExpire)|
        invariant redelivered == |Deciding(q, Elements(rows[..n]), now, p, DoRedeliver)|
        invariant exhausted == |Deciding(q, Elements(rows[..n]), now, p, DoExhaust)|
      {
        var id := rows[n];
        SweepOneMore(q, rows, n, now, p);
        DecidingMore(q, rows, n, now, p, DoExpire);
        DecidingMore(q, rows, n, now, p, DoRedeliver);
        DecidingMore(q, rows, n, now, p, DoExhaust);
        assert id in SweepKeys(q, locked, now, p);
        var d, bad := SweepOne(id, now, p);
        raised := bad;
        match d {
          case DoNothing =>
          case DoExpire => expired := expired + 1;
          case DoExhaust => exhausted := exhausted + 1;
          case DoRedeliver => redelivered := redelivered + 1;
        }
      }
      assert rows[..|rows|] == rows;
      assert FirstByKey(SweepKeys(q, locked, now, p), limit, Elements(rows));
    }

    method SweepOne(id: Id, now: int, p: Policy) returns (d: Decision, raised: bool)
      requires id in commands
      modifies this
      ensures commands == old(commands)[id := Swept(old(commands)[id], now, p)]
      ensures d == SweepDecision(old(commands)[id], now, p) && !raised
    {
      var c := commands[id];
      d := SweepDecision(c, now, p);
      FilterIsDecision(c, now, p);
      if d == DoNothing {
        return d, false;
      }
      SweepTransitionLegal(c, now, p);
      var s := Next(c.status, EventOf(d));
      if s.None? {
        return d, true;
      }
      match d {
        case DoRedeliver => c := c.(status := s.value, pickedUpAt := None);
        case DoExhaust => c := c.(status := s.value, completedAt := Some(now), report := Some(GaveUp(c.attempts)));
        case DoExpire => c := c.(status := s.value, completedAt := Some(now));
      }
      commands := commands[id := c];
      return d, false;
    }

    method Poll(now: int, want: nat, locked: set<Id>) returns (rows: seq<Id>, raised: bool)
      modifies this
      ensures !raised && PollStep(old(commands), commands, locked, now, want)
      // rows are the commands delivered, each once, the oldest first.
      ensures FirstByKey(PollKeys(old(commands), locked, now), want, Elements(rows)) && NoDuplicates(rows)
      ensures commands == AfterPoll(old(commands), Elements(rows), now)
      ensures OldestFirst(old(commands), locked, now, want, rows)
      ensures commands == map i <- old(commands) ::
                            var c := old(commands)[i];
                            if i !in rows then c
                            else c.(status := PickedUp, pickedUpAt := Some(now), attempts := c.attempts + 1)
    {
      raised := false;
      rows := SelectFirst(PollKeys(commands, locked, now), want);
      ghost var q := commands;
      ChosenRows(PollKeys(q, locked, now), want, rows);
      for n := 0 to |rows|
        invariant !raised
        invariant commands == AfterPoll(q, Elements(rows[..n]), now)
      {
        var id := rows[n];
        PollOneMore(q, rows, n, now);
        assert id in PollKeys(q, locked, now);
        var s := Next(commands[id].status, Deliver);
        raised := s.None?;
        commands := commands[id := Delivered(commands[id], now)];
      }
      assert rows[..|rows|] == rows;
      assert FirstByKey(PollKeys(q, locked, now), want, Elements(rows));
      PollTakesOldest(q, locked, now, want, rows);
    }

    method AckCommand(id: Id, now: int) returns (r: Result<Command, Conflict>)
      modifies this
      ensures r.Ok? <==> id in old(commands) && old(commands)[id].status == PickedUp
      ensures r.Ok? ==> EventStep(old(commands), commands, id, Ack, None, now) && r.value == commands[id]
      ensures r.Ok? ==> commands == old(commands)[id := old(commands)[id].(pickedUpAt := Some(now))]
      ensures r.Err? ==> commands == old(commands)
    {
      if id !in commands {
        return Err(NoSuchCommand);
      }
      var c := commands[id];
      if c.status != PickedUp {
        return Err(NotInFlight(c.status));
      }
      c := c.(status := Next(c.status, Ack).value, pickedUpAt := Some(now));
      commands := commands[id := c];
      return Ok(c);
    }

    // Replaying a success is answered from the stored row, whatever it brings.
    method CompleteCommand(id: Id, ok: bool, text: Option<string>, maxSize: nat, now: int)
      returns (r: Result<Command, Conflict>)
      modifies this
      ensures r.Ok? <==> id in old(commands)
                         && (old(commands)[id].status == Done
                             || (old(commands)[id].status == PickedUp && SizeOf(text) <= maxSize))
      ensures r.Ok? ==> id in commands && r.value == commands[id]
      ensures r.Ok? && old(commands)[id].status == PickedUp ==>
                EventStep(old(commands), commands, id, if ok then Complete else Fail, text, now)
      ensures r.Ok? && old(commands)[id].status == PickedUp ==>
                && r.value.status == (if ok then Done else Failed) && r.value.completedAt == Some(now)
                && r.value.report == if text.Some? then Some(Reported(text.value)) else None
      ensures r == Err(ReportTooLarge) <==>
                id in old(commands) && old(commands)[id].status == PickedUp && SizeOf(text) > maxSize
      ensures r.Err? || old(commands)[id].status == Done ==> commands == old(commands)
    {
      if id !in commands {
        return Err(NoSuchCommand);
      }
      var c := commands[id];
      if c.status == Done {
        return Ok(c);
      }
      if c.status != PickedUp {
        return Err(NotInFlight(c.status));
      }
      if SizeOf(text) > maxSize {
        return Err(ReportTooLarge);
      }
      c := c.(status := Next(c.status, if ok then Complete else Fail).value, completedAt := Some(now),
              report := ReportOf(text));
      commands := commands[id := c];
      return Ok(c);
    }

    method CancelCommand(id: Id, now: int) returns (r: Result<Command, Conflict>)
      modifies this
      ensures r.Ok? <==> id in old(commands) && !Terminal(old(commands)[id].status)
      ensures r.Ok? ==> EventStep(old(commands), commands, id, Cancel, None, now) && r.value == commands[id]
      ensures r.Ok? ==>
                commands == old(commands)[id := old(commands)[id].(status := Cancelled, completedAt := Some(now))]
      ensures r.Err? ==> commands == old(commands)
    {
      if id !in commands {
        return Err(NoSuchCommand);
      }
      var c := commands[id];
      if Terminal(c.status) {
        return Err(AlreadyTerminal(c.status));
      }
      c := c.(status := Next(c.status, Cancel).value, completedAt := Some(now));
      commands := commands[id := c];
      return Ok(c);
    }
  }

  ghost predicate InKeyOrder(keys: map<Id, int>, rows: seq<Id>) {
    && (forall i <- rows :: i in keys)
    && (forall a, b | 0 <= a < b < |rows| :: keys[rows[a]] <= keys[rows[b]])
  }

  predicate KeyLeq(a: (int, Id), b: (int, Id)) { a.0 <= b.0 }

  // SELECT .. ORDER BY key LIMIT limit.
  method SelectFirst(keys: map<Id, int>, limit: nat) returns (rows: seq<Id>)
    ensures NoDuplicates(rows) && InKeyOrder(keys, rows)
    ensures FirstByKey(keys, limit, Elements(rows))
  {
    var all: seq<(int, Id)> := [];
    var todo := keys.Keys;
    while todo != {}
      invariant todo <= keys.Keys
      invariant NoDuplicates(all)
      invariant forall e :: e in all <==> e.1 in keys.Keys - todo && e.0 == keys[e.1]
    {
      var i :| i in todo;
      todo := todo - {i};
      assert (keys[i], i) !in all;
      all := all + [(keys[i], i)];
    }
    var sorted := Sort(all, KeyLeq);
    SortSorts(all, KeyLeq);
    SortPermutes(all, KeyLeq);
    PermutationDistinct(all, sorted);
    rows := seq(Min(limit, |sorted|), k requires 0 <= k < |sorted| => sorted[k].1);
    FirstRows(keys, limit, sorted, rows);
  }

  lemma FirstRows(keys: map<Id, int>, limit: nat, sorted: seq<(int, Id)>, rows: seq<Id>)
    requires NoDuplicates(sorted) && SortedBy(sorted, KeyLeq)
    requires forall e :: e in sorted <==> e.1 in keys && e.0 == keys[e.1]
    requires |rows| == Min(limit, |sorted|) && forall k | 0 <= k < |rows| :: rows[k] == sorted[k].1
    ensures NoDuplicates(rows) && InKeyOrder(keys, rows)
    ensures FirstByKey(keys, limit, Elements(rows))
  {
    forall k | 0 <= k < |sorted| ensures sorted[k].1 in keys && sorted[k] == (keys[sorted[k].1], sorted[k].1) {
      assert sorted[k] in sorted;
    }
    assert NoDuplicates(rows);
    DistinctCount(rows);
    forall a, b | 0 <= a < b < |rows| ensures keys[rows[a]] <= keys[rows[b]] {
      assert KeyLeq(sorted[a], sorted[b]);
    }
    forall j | j in keys ensures exists k :: 0 <= k < |sorted| && sorted[k] == (keys[j], j) {
      assert (keys[j], j) in sorted;
    }
    forall i, j | i in rows && j in keys && j !in rows ensures keys[i] <= keys[j] {
      var k :| 0 <= k < |rows| && rows[k] == i;
      var l :| 0 <= l < |sorted| && sorted[l] == (keys[j], j);
      assert l >= |rows|;
      assert KeyLeq(sorted[k], sorted[l]);
    }
    if |rows| < limit {
      forall j | j in keys ensures j in rows {
        var l :| 0 <= l < |sorted| && sorted[l] == (keys[j], j);
        assert rows[l] == j;
      }
    }
  }

  lemma ChosenRows(keys: map<Id, int>, limit: nat, rows: seq<Id>)
    requires FirstByKey(keys, limit, Elements(rows))
    ensures forall i <- rows :: i in keys
  {
    forall i <- rows ensures i in keys {
      assert i in Elements(rows);
    }
  }

  predicate Deliverable(c: Command, now: int) { c.status == Pending && c.expiresAt > now }

  // The oldest commands that can be delivered, each once, in order; nothing older is left
  // behind, and anything only when as many as wanted are taken.
  ghost predicate OldestFirst(q: Queue, locked: set<Id>, now: int, want: nat, rows: seq<Id>) {
    && (forall id <- rows :: id in q && id !in locked && Deliverable(q[id], now))
    && NoDuplicates(rows) && |rows| <= want
    && (forall a, b | 0 <= a < b < |rows| :: q[rows[a]].createdAt <= q[rows[b]].createdAt)
    && (forall i <- q | i !in rows && i !in locked && Deliverable(q[i], now) ::
          |rows| == want && forall id <- rows :: q[id].createdAt <= q[i].createdAt)
  }

  lemma PollTakesOldest(q: Queue, locked: set<Id>, now: int, want: nat, rows: seq<Id>)
    requires NoDuplicates(rows) && InKeyOrder(PollKeys(q, locked, now), rows)
    requires FirstByKey(PollKeys(q, locked, now), want, Elements(rows))
    ensures OldestFirst(q, locked, now, want, rows)
  {
    var keys := PollKeys(q, locked, now);
    DistinctCount(rows);
    forall i <- q | i !in rows && i !in locked && Deliverable(q[i], now)
      ensures |rows| == want && forall id <- rows :: q[id].createdAt <= q[i].createdAt
    {
      assert i in keys && i !in Elements(rows);
      forall id <- rows ensures q[id].createdAt <= q[i].createdAt {
        assert id in Elements(rows);
      }
    }
  }

  lemma SweepOneMore(q: Queue, rows: seq<Id>, n: nat, now: int, p: Policy)
    requires n < |rows| && NoDuplicates(rows) && forall i <- rows :: i in q
    ensures rows[n] in q && AfterSweep(q, Elements(rows[..n]), now, p)[rows[n]] == q[rows[n]]
    ensures AfterSweep(q, Elements(rows[..n + 1]), now, p)
            == AfterSweep(q, Elements(rows[..n]), now, p)[rows[n] := Swept(q[rows[n]], now, p)]
  {
    assert rows[..n + 1] == rows[..n] + [rows[n]];
    assert rows[n] !in rows[..n];
  }

  lemma PollOneMore(q: Queue, rows: seq<Id>, n: nat, now: int)
    requires n < |rows| && NoDuplicates(rows) && forall i <- rows :: i in q
    ensures rows[n] in q && AfterPoll(q, Elements(rows[..n]), now)[rows[n]] == q[rows[n]]
    ensures AfterPoll(q, Elements(rows[..n + 1]), now)
            == AfterPoll(q, Elements(rows[..n]), now)[rows[n] := Delivered(q[rows[n]], now)]
  {
    assert rows[..n + 1] == rows[..n] + [rows[n]];
    assert rows[n] !in rows[..n];
  }

  // --- What a sweep does, field by field -------------------------------------

  // A row the sweep took: past its deadline it expires; else its lease has lapsed, and it
  // fails when every delivery is spent and goes back to pending when one is left.
  lemma ChosenSwept(q: Queue, q': Queue, locked: set<Id>, now: int, p: Policy, limit: nat, chosen: set<Id>, i: Id)
    requires FirstByKey(SweepKeys(q, locked, now, p), limit, chosen) && q' == AfterSweep(q, chosen, now, p)
    requires i in chosen
    ensures i in q && i in q' && i !in locked && (q[i].status == Pending || q[i].status == PickedUp)
    ensures var c, c' := q[i], q'[i];
            if c.expiresAt <= now then c' == c.(status := Expired, completedAt := Some(now))
            else
              && c.status == PickedUp && c.pickedUpAt.Some? && c.pickedUpAt.value + p.leaseSeconds <= now
              && (c.attempts < p.maxAttempts ==> c' == c.(status := Pending, pickedUpAt := None))
              && (c.attempts >= p.maxAttempts ==>
                    c' == c.(status := Failed, completedAt := Some(now), report := Some(GaveUp(c.attempts))))
  {
    assert i in SweepKeys(q, locked, now, p);
  }

  // A lapsed delivery with attempts left and time to live is redelivered once chosen.
  lemma LapsedIsRedelivered(q: Queue, q': Queue, locked: set<Id>, now: int, p: Policy, limit: nat, chosen: set<Id>,
                            i: Id)
    requires FirstByKey(SweepKeys(q, locked, now, p), limit, chosen) && q' == AfterSweep(q, chosen, now, p)
    requires i in chosen && q[i].status == PickedUp && q[i].expiresAt > now && q[i].attempts < p.maxAttempts
    ensures i in q' && q'[i].status == Pending && q'[i].pickedUpAt == None && q'[i].attempts == q[i].attempts
  {
    ChosenSwept(q, q', locked, now, p, limit, chosen, i);
  }

  // And a sweep with room takes every unlocked row that is past its deadline or its lease.
  lemma LapsedIsChosen(q: Queue, locked: set<Id>, now: int, p: Policy, limit: nat, chosen: set<Id>, i: Id)
    requires FirstByKey(SweepKeys(q, locked, now, p), limit, chosen) && |chosen| < limit
    requires i in q && i !in locked
    ensures i in chosen <==>
              || (q[i].status == Pending && q[i].expiresAt <= now)
              || (q[i].status == PickedUp
                  && (q[i].expiresAt <= now
                      || (q[i].pickedUpAt.Some? && q[i].pickedUpAt.value + p.leaseSeconds <= now)))
  {
    assert i in SweepKeys(q, locked, now, p) <==> Selected(q[i], now, p);
  }

  // --- Runs ------------------------------------------------------------------

  datatype Moment = Moment(q: Queue, now: int)

  ghost predicate Step(m: Moment, m': Moment, p: Policy) {
    && m.now <= m'.now
    && (|| EnqueueStep(m.q, m'.q, m'.now)
        || (exists locked, want :: PollStep(m.q, m'.q, locked, m'.now, want))
        || (exists i, e, text :: EventStep(m.q, m'.q, i, e, text, m'.now))
        || (exists locked, limit :: SweepStep(m.q, m'.q, locked, m'.now, p, limit)))
  }

  ghost predicate StepAt(run: seq<Moment>, k: nat, p: Policy)
    requires 0 < k < |run|
  {
    Step(run[k - 1], run[k], p)
  }

  ghost predicate Run(run: seq<Moment>, p: Policy) {
    run != [] && forall k: nat | 0 < k < |run| :: StepAt(run, k, p)
  }

  lemma RunStep(run: seq<Moment>, p: Policy, n: nat)
    requires Run(run, p) && 0 < n < |run|
    ensures Step(run[n - 1], run[n], p)
  {
    assert StepAt(run, n, p);
  }

  ghost predicate WasDelivered(c: Command, c': Command) {
    c.status == Pending && c'.status == PickedUp
  }

  // What a step may do to one command that exists before it.
  ghost predicate RowStep(c: Command, c': Command, now: int, p: Policy) {
    && c'.expiresAt == c.expiresAt
    && (Terminal(c.status) ==> c' == c)
    && c'.attempts == c.attempts + (if WasDelivered(c, c') then 1 else 0)
    && (c'.status == Pending && c.status != Pending ==> c.attempts < p.maxAttempts)
  }

  ghost predicate Newcomer(c: Command, now: int) {
    c.status == Pending && c.attempts == 0 && c.expiresAt > now
  }

  ghost predicate RowsStep(q: Queue, q': Queue, now: int, p: Policy) {
    && q.Keys <= q'.Keys
    && (forall i <- q :: RowStep(q[i], q'[i], now, p))
    && (forall i <- q' :: i !in q ==> Newcomer(q'[i], now))
  }

  lemma PollRows(q: Queue, q': Queue, locked: set<Id>, now: int, want: nat, p: Policy)
    requires PollStep(q, q', locked, now, want)
    ensures RowsStep(q, q', now, p)
  {
    var chosen :| FirstByKey(PollKeys(q, locked, now), want, chosen) && q' == AfterPoll(q, chosen, now);
    forall i <- q ensures RowStep(q[i], q'[i], now, p) {
      assert i in chosen ==> i in PollKeys(q, locked, now);
    }
  }

  lemma SweepRows(q: Queue, q': Queue, locked: set<Id>, now: int, p: Policy, limit: nat)
    requires SweepStep(q, q', locked, now, p, limit)
    ensures RowsStep(q, q', now, p)
  {
    var chosen :| FirstByKey(SweepKeys(q, locked, now, p), limit, chosen) && q' == AfterSweep(q, chosen, now, p);
    forall i <- q ensures RowStep(q[i], q'[i], now, p) {
      assert i in chosen ==> i in SweepKeys(q, locked, now, p);
    }
  }

  lemma EventRows(q: Queue, q': Queue, i: Id, e: Event, text: Option<string>, now: int, p: Policy)
    requires EventStep(q, q', i, e, text, now)
    ensures RowsStep(q, q', now, p)
  {
  }

  // Every step enqueues a fresh command or changes existing rows by the table.
  lemma StepRows(m: Moment, m': Moment, p: Policy)
    requires Step(m, m', p)
    ensures RowsStep(m.q, m'.q, m'.now, p)
  {
    if locked, want :| PollStep(m.q, m'.q, locked, m'.now, want) {
      PollRows(m.q, m'.q, locked, m'.now, want, p);
    } else if i, e, text :| EventStep(m.q, m'.q, i, e, text, m'.now) {
      EventRows(m.q, m'.q, i, e, text, m'.now, p);
    } else if locked, limit :| SweepStep(m.q, m'.q, locked, m'.now, p, limit) {
      SweepRows(m.q, m'.q, locked, m'.now, p, limit);
    }
  }

  lemma RowAfter(run: seq<Moment>, p: Policy, n: nat, i: Id)
    requires Run(run, p) && 0 < n < |run| && i in run[n - 1].q
    ensures i in run[n].q && RowStep(run[n - 1].q[i], run[n].q[i], run[n].now, p)
  {
    RunStep(run, p, n);
    StepRows(run[n - 1], run[n], p);
  }

  // Terminal rows never change again.
  lemma {:induction false} TerminalForever(run: seq<Moment>, p: Policy, k: nat, n: nat, i: Id)
    requires Run(run, p) && k <= n < |run| && i in run[k].q && Terminal(run[k].q[i].status)
    ensures i in run[n].q && run[n].q[i] == run[k].q[i]
  {
    if k < n {
      TerminalForever(run, p, k, n - 1, i);
      RowAfter(run, p, n, i);
    }
  }

  // A pending command has a delivery left, or was never delivered.
  ghost predicate AttemptsBounded(c: Command, p: Policy) {
    && 0 <= c.attempts <= Max(1, p.maxAttempts)
    && (c.status == Pending ==> c.attempts == 0 || c.attempts < p.maxAttempts)
  }

  ghost predicate AllBounded(q: Queue, p: Policy) { forall i <- q :: AttemptsBounded(q[i], p) }

  lemma StepBounded(m: Moment, m': Moment, p: Policy)
    requires Step(m, m', p) && AllBounded(m.q, p)
    ensures AllBounded(m'.q, p)
  {
    StepRows(m, m', p);
    forall i <- m'.q ensures AttemptsBounded(m'.q[i], p) {
      if i in m.q {
        assert RowStep(m.q[i], m'.q[i], m'.now, p) && AttemptsBounded(m.q[i], p);
      }
    }
  }

  // How often the first n steps of a run hand the command to its agent.
  ghost function Deliveries(run: seq<Moment>, n: nat, i: Id): nat
    requires n < |run|
  {
    if n == 0 then 0
    else Deliveries(run, n - 1, i)
         + if i in run[n - 1].q && i in run[n].q && WasDelivered(run[n - 1].q[i], run[n].q[i]) then 1 else 0
  }

  // From a queue with nothing in it, no command is ever delivered more than
  // max_attempts times (once, if max_attempts is not positive), and attempts counts
  // the deliveries.
  lemma {:induction false} DeliveriesBounded(run: seq<Moment>, p: Policy, n: nat, i: Id)
    requires Run(run, p) && n < |run| && run[0].q == map[]
    ensures AllBounded(run[n].q, p)
    ensures Deliveries(run, n, i) == if i in run[n].q then run[n].q[i].attempts else 0
    ensures Deliveries(run, n, i) <= Max(1, p.maxAttempts)
  {
    if n > 0 {
      DeliveriesBounded(run, p, n - 1, i);
      RunStep(run, p, n);
      StepBounded(run[n - 1], run[n], p);
      StepRows(run[n - 1], run[n], p);
      if i in run[n].q {
        assert AttemptsBounded(run[n].q[i], p);
        assert i in run[n - 1].q ==> RowStep(run[n - 1].q[i], run[n].q[i], run[n].now, p);
      }
    }
  }

  // --- What a state tells ----------------------------------------------------

  // A live command holds a lease exactly while it is picked up, and no result; a terminal
  // one says when it ended. Expired means the deadline had passed, and giving up that
  // the last of the attempts had outlived its lease in time.
  ghost predicate Sound(c: Command, now: int, p: Policy) {
    && (c.status == Pending ==> c.pickedUpAt == None)
    && (c.status == PickedUp ==> c.pickedUpAt.Some? && c.pickedUpAt.value <= now && c.attempts >= 1)
    && (if c.status == Pending || c.status == PickedUp then c.completedAt == None && c.report == None
        else c.completedAt.Some? && c.completedAt.value <= now)
    && (c.status == Expired ==> c.expiresAt <= c.completedAt.value)
    && (c.status == Done ==> c.attempts >= 1)
    && (c.report.Some? && c.report.value.GaveUp? ==>
          && c.status == Failed && c.report.value.attempts == c.attempts && c.attempts >= p.maxAttempts
          && c.expiresAt > c.completedAt.value
          && c.pickedUpAt.Some? && c.pickedUpAt.value + p.leaseSeconds <= c.completedAt.value)
  }

  ghost predicate AllSound(q: Queue, now: int, p: Policy) { forall i <- q :: Sound(q[i], now, p) }

  lemma SoundLater(q: Queue, now: int, later: int, p: Policy)
    requires AllSound(q, now, p) && now <= later
    ensures AllSound(q, later, p)
  {
  }

  lemma PollSound(q: Queue, q': Queue, locked: set<Id>, now: int, want: nat, p: Policy)
    requires AllSound(q, now, p) && PollStep(q, q', locked, now, want) && forall i <- q :: q[i].attempts >= 0
    ensures AllSound(q', now, p)
  {
    var chosen :| FirstByKey(PollKeys(q, locked, now), want, chosen) && q' == AfterPoll(q, chosen, now);
    forall i <- q' ensures Sound(q'[i], now, p) {
      assert Sound(q[i], now, p);
      assert i in chosen ==> i in PollKeys(q, locked, now);
    }
  }

  lemma SweepSound(q: Queue, q': Queue, locked: set<Id>, now: int, limit: nat, p: Policy)
    requires AllSound(q, now, p) && SweepStep(q, q', locked, now, p, limit)
    ensures AllSound(q', now, p)
  {
    var chosen :| FirstByKey(SweepKeys(q, locked, now, p), limit, chosen) && q' == AfterSweep(q, chosen, now, p);
    forall i <- q' ensures Sound(q'[i], now, p) {
      assert Sound(q[i], now, p);
      if i in chosen {
        ChosenSwept(q, q', locked, now, p, limit, chosen, i);
      }
    }
  }

  lemma EventSound(q: Queue, q': Queue, i: Id, e: Event, text: Option<string>, now: int, p: Policy)
    requires AllSound(q, now, p) && EventStep(q, q', i, e, text, now)
    ensures AllSound(q', now, p)
  {
    forall j <- q' ensures Sound(q'[j], now, p) {
      assert Sound(q[j], now, p);
    }
  }

  lemma StepSound(m: Moment, m': Moment, p: Policy)
    requires Step(m, m', p) && AllSound(m.q, m.now, p) && AllBounded(m.q, p)
    ensures AllSound(m'.q, m'.now, p)
  {
    SoundLater(m.q, m.now, m'.now, p);
    if locked, want :| PollStep(m.q, m'.q, locked, m'.now, want) {
      forall i <- m.q ensures m.q[i].attempts >= 0 {
        assert AttemptsBounded(m.q[i], p);
      }
      PollSound(m.q, m'.q, locked, m'.now, want, p);
    } else if i, e, text :| EventStep(m.q, m'.q, i, e, text, m'.now) {
      EventSound(m.q, m'.q, i, e, text, m'.now, p);
    } else if locked, limit :| SweepStep(m.q, m'.q, locked, m'.now, p, limit) {
      SweepSound(m.q, m'.q, locked, m'.now, limit, p);
    }
  }

  lemma {:induction false} RunSound(run: seq<Moment>, p: Policy, n: nat)
    requires Run(run, p) && n < |run| && run[0].q == map[]
    ensures AllSound(run[n].q, run[n].now, p)
  {
    if n > 0 {
      RunSound(run, p, n - 1);
      DeliveriesBounded(run, p, n - 1, 0);
      RunStep(run, p, n);
      StepSound(run[n - 1], run[n], p);
    }
  }

  // Over every run from an empty queue the sweep gives up only on a command delivered
  // max_attempts times or more, and says how often it was.
  lemma GaveUpAfterAllAttempts(run: seq<Moment>, p: Policy, n: nat, i: Id, k: int)
    requires Run(run, p) && n < |run| && run[0].q == map[] && i in run[n].q && run[n].q[i].report == Some(GaveUp(k))
    ensures k == Deliveries(run, n, i) && k >= p.maxAttempts && run[n].q[i].status == Failed
  {
    RunSound(run, p, n);
    assert Sound(run[n].q[i], run[n].now, p);
    DeliveriesBounded(run, p, n, i);
  }

  // And a command expires only at or after its deadline.
  lemma ExpiredOnlyLate(run: seq<Moment>, p: Policy, n: nat, i: Id)
    requires Run(run, p) && n < |run| && run[0].q == map[] && i in run[n].q && run[n].q[i].status == Expired
    ensures run[n].q[i].expiresAt <= run[n].now
  {
    RunSound(run, p, n);
    assert Sound(run[n].q[i], run[n].now, p);
  }

  ghost predicate DeliveriesWithinAttempts(p: Policy) {
    forall run: seq<Moment>, n: nat, i: Id | Run(run, p) && n < |run| && run[0].q == map[] ::
      Deliveries(run, n, i) <= p.maxAttempts
  }

  // Enqueue, then poll: the first delivery is never refused.
  lemma FirstDelivery(p: Policy) returns (run: seq<Moment>)
    ensures Run(run, p) && |run| == 3 && run[0].q == map[] && Deliveries(run, 2, 0) == 1
  {
    var c := Fresh(1, 0);
    var q: Queue := map[0 := c];
    var q' := AfterPoll(q, {0}, 0);
    run := [Moment(map[], 0), Moment(q, 0), Moment(q', 0)];
    assert EnqueueStep(map[], q, 0) by {
      var none: Queue := map[];
      assert 0 !in none && q == none[0 := Fresh(1, 0)];
    }
    assert StepAt(run, 1, p);
    assert PollKeys(q, {}, 0) == map[0 := 0];
    assert FirstByKey(PollKeys(q, {}, 0), 1, {0});
    assert PollStep(q, q', {}, 0, 1);
    assert StepAt(run, 2, p);
    assert Deliveries(run, 0, 0) == 0 && Deliveries(run, 1, 0) == 0;
    assert WasDelivered(run[1].q[0], run[2].q[0]);
  }

  // max_attempts bounds the deliveries if and only if it is positive.
  lemma DeliveriesWithinAttemptsExactly(p: Policy)
    ensures DeliveriesWithinAttempts(p) <==> p.maxAttempts >= 1
  {
    if p.maxAttempts >= 1 {
      forall run: seq<Moment>, n: nat, i: Id | Run(run, p) && n < |run| && run[0].q == map[]
        ensures Deliveries(run, n, i) <= p.maxAttempts
      {
        DeliveriesBounded(run, p, n, i);
      }
    } else {
      var run := FirstDelivery(p);
      var n: nat := 2;
      assert Deliveries(run, n, 0) == 1;
    }
  }

  // --- Expiry is bounded -----------------------------------------------------

  // The live commands expiring no later than a deadline.
  ghost function Ahead(q: Queue, deadline: int): set<Id> {
    set i <- q | !Terminal(q[i].status) && q[i].expiresAt <= deadline
  }

  // Past the deadline nothing new gets ahead.
  lemma AheadShrinks(m: Moment, m': Moment, p: Policy, deadline: int)
    requires Step(m, m', p) && deadline <= m'.now
    ensures Ahead(m'.q, deadline) <= Ahead(m.q, deadline)
  {
    StepRows(m, m', p);
    forall i | i in Ahead(m'.q, deadline) ensures i in Ahead(m.q, deadline) {
      if i in m.q {
        assert RowStep(m.q[i], m'.q[i], m'.now, p);
      }
    }
  }

  ghost predicate UnblockedSweep(m: Moment, m': Moment, p: Policy, limit: nat, deadline: int) {
    exists locked :: locked !! Ahead(m.q, deadline) && SweepStep(m.q, m'.q, locked, m'.now, p, limit)
  }

  lemma SweptAhead(q: Queue, chosen: set<Id>, now: int, p: Policy, deadline: int)
    requires deadline <= now
    ensures Ahead(AfterSweep(q, chosen, now, p), deadline) <= Ahead(q, deadline) - chosen
  {
    forall i | i in Ahead(AfterSweep(q, chosen, now, p), deadline) ensures i in Ahead(q, deadline) - chosen {
      assert i in q;
    }
  }

  // A sweep that leaves an expired row behind spent its whole limit on rows ahead.
  lemma ChosenAhead(q: Queue, locked: set<Id>, now: int, p: Policy, limit: nat, chosen: set<Id>, deadline: int, j: Id)
    requires FirstByKey(SweepKeys(q, locked, now, p), limit, chosen)
    requires j in SweepKeys(q, locked, now, p) && j !in chosen && q[j].expiresAt <= deadline
    ensures chosen <= Ahead(q, deadline) && |chosen| == limit
  {
    forall i <- chosen ensures i in Ahead(q, deadline) {
      assert i in SweepKeys(q, locked, now, p);
    }
  }

  lemma SweepDrains(q: Queue, locked: set<Id>, now: int, p: Policy, limit: nat, chosen: set<Id>, deadline: int)
    requires FirstByKey(SweepKeys(q, locked, now, p), limit, chosen)
    requires locked !! Ahead(q, deadline) && deadline <= now
    ensures var after := Ahead(AfterSweep(q, chosen, now, p), deadline);
            after == {} || |after| + limit <= |Ahead(q, deadline)|
  {
    var before := Ahead(q, deadline);
    SweptAhead(q, chosen, now, p, deadline);
    if j :| j in before && j !in chosen {
      ChosenAhead(q, locked, now, p, limit, chosen, deadline, j);
      assert before == chosen + (before - chosen);
      SubsetCount(Ahead(AfterSweep(q, chosen, now, p), deadline), before - chosen);
    } else {
      assert before - chosen == {};
    }
  }

  lemma SweepProgress(m: Moment, m': Moment, p: Policy, limit: nat, deadline: int)
    requires UnblockedSweep(m, m', p, limit, deadline) && deadline <= m'.now
    ensures Ahead(m'.q, deadline) == {} || |Ahead(m'.q, deadline)| + limit <= |Ahead(m.q, deadline)|
  {
    var locked :| locked !! Ahead(m.q, deadline) && SweepStep(m.q, m'.q, locked, m'.now, p, limit);
    var chosen :| FirstByKey(SweepKeys(m.q, locked, m'.now, p), limit, chosen)
                  && m'.q == AfterSweep(m.q, chosen, m'.now, p);
    SweepDrains(m.q, locked, m'.now, p, limit, chosen, deadline);
  }

  ghost function Sweeps(run: seq<Moment>, n: nat, p: Policy, limit: nat, deadline: int): nat
    requires n < |run|
  {
    if n == 0 then 0
    else Sweeps(run, n - 1, p, limit, deadline)
         + if UnblockedSweep(run[n - 1], run[n], p, limit, deadline) then 1 else 0
  }

  ghost predicate Drained(q: Queue, deadline: int, limit: nat, sweeps: nat, start: nat) {
    Ahead(q, deadline) == {} || |Ahead(q, deadline)| + limit * sweeps <= start
  }

  lemma AheadStep(m: Moment, m': Moment, p: Policy, limit: nat, deadline: int, sweeps: nat, start: nat)
    requires Step(m, m', p) && deadline <= m'.now
    requires Drained(m.q, deadline, limit, sweeps, start)
    ensures Drained(m'.q, deadline, limit, sweeps, start)
    ensures UnblockedSweep(m, m', p, limit, deadline) ==> Drained(m'.q, deadline, limit, sweeps + 1, start)
  {
    AheadShrinks(m, m', p, deadline);
    SubsetCount(Ahead(m'.q, deadline), Ahead(m.q, deadline));
    if UnblockedSweep(m, m', p, limit, deadline) {
      SweepProgress(m, m', p, limit, deadline);
      assert limit * (sweeps + 1) == limit * sweeps + limit;
    }
  }

  lemma {:induction false} ClockAdvances(run: seq<Moment>, n: nat, p: Policy)
    requires Run(run, p) && n < |run|
    ensures run[0].now <= run[n].now
  {
    if n > 0 {
      ClockAdvances(run, n - 1, p);
      RunStep(run, p, n);
    }
  }

  lemma AheadStepInRun(run: seq<Moment>, n: nat, p: Policy, limit: nat, deadline: int, start: nat)
    requires Run(run, p) && 0 < n < |run| && deadline <= run[0].now
    requires Drained(run[n - 1].q, deadline, limit, Sweeps(run, n - 1, p, limit, deadline), start)
    ensures Drained(run[n].q, deadline, limit, Sweeps(run, n, p, limit, deadline), start)
  {
    RunStep(run, p, n);
    ClockAdvances(run, n, p);
    AheadStep(run[n - 1], run[n], p, limit, deadline, Sweeps(run, n - 1, p, limit, deadline), start);
  }

  lemma {:induction false} AheadDrains(run: seq<Moment>, n: nat, p: Policy, limit: nat, deadline: int)
    requires Run(run, p) && n < |run| && deadline <= run[0].now
    ensures Drained(run[n].q, deadline, limit, Sweeps(run, n, p, limit, deadline), |Ahead(run[0].q, deadline)|)
  {
    if n > 0 {
      AheadDrains(run, n - 1, p, limit, deadline);
      AheadStepInRun(run, n, p, limit, deadline, |Ahead(run[0].q, deadline)|);
    }
  }

  // An expired command is terminal after ceil(r / limit) unblocked sweeps, whatever
  // else happens between them, where r live commands expire no later than it.
  lemma ExpiredBecomesTerminal(run: seq<Moment>, n: nat, p: Policy, limit: nat, i: Id)
    requires Run(run, p) && n < |run| && i in run[0].q && run[0].q[i].expiresAt <= run[0].now
    requires limit * Sweeps(run, n, p, limit, run[0].q[i].expiresAt) >= |Ahead(run[0].q, run[0].q[i].expiresAt)|
    ensures i in run[n].q && Terminal(run[n].q[i].status)
  {
    var deadline := run[0].q[i].expiresAt;
    AheadDrains(run, n, p, limit, deadline);
    DeadlineKept(run, p, n, i);
    assert i !in Ahead(run[n].q, deadline);
  }

  lemma {:induction false} DeadlineKept(run: seq<Moment>, p: Policy, n: nat, i: Id)
    requires Run(run, p) && n < |run| && i in run[0].q
    ensures i in run[n].q && run[n].q[i].expiresAt == run[0].q[i].expiresAt
  {
    if n > 0 {
      DeadlineKept(run, p, n - 1, i);
      RowAfter(run, p, n, i);
    }
  }

  // --- Overlapping requests --------------------------------------------------

  // An acknowledgement, a completion and a cancellation load their row without locking
  // it, check it, and write at commit, by key, the columns they changed.
  datatype Transaction = Transaction(id: Id, seen: Command, event: Event, text: Option<string>, now: int)

  datatype Shared = Shared(q: Queue, open: map<nat, Transaction>)

  ghost function Meant(t: Transaction): Command
    requires Next(t.seen.status, t.event).Some?
  {
    Transitioned(t.seen, t.event, t.text, t.now)
  }

  function Column<T(==)>(seen: T, meant: T, stored: T): T { if meant == seen then stored else meant }

  ghost function Overwritten(c: Command, t: Transaction): Command
    requires Next(t.seen.status, t.event).Some?
  {
    var m := Meant(t);
    c.(status := Column(t.seen.status, m.status, c.status),
       pickedUpAt := Column(t.seen.pickedUpAt, m.pickedUpAt, c.pickedUpAt),
       completedAt := Column(t.seen.completedAt, m.completedAt, c.completedAt),
       report := Column(t.seen.report, m.report, c.report))
  }

  // Every open transaction passed its check.
  ghost predicate Checked(s: Shared) {
    forall k <- s.open :: Requested(s.open[k].event) && Next(s.open[k].seen.status, s.open[k].event).Some?
  }

  ghost predicate LoadOf(s: Shared, s': Shared, k: nat, t: Transaction) {
    && k !in s.open && t.id in s.q && t.seen == s.q[t.id] && Requested(t.event)
    && Next(t.seen.status, t.event).Some? && s' == s.(open := s.open[k := t])
  }

  ghost predicate LoadStep(s: Shared, s': Shared) { exists k: nat, t: Transaction :: LoadOf(s, s', k, t) }

  ghost predicate WriteOf(s: Shared, s': Shared, k: nat)
    requires Checked(s)
  {
    && k in s.open && s.open[k].id in s.q
    && s' == Shared(s.q[s.open[k].id := Overwritten(s.q[s.open[k].id], s.open[k])], s.open - {k})
  }

  // Polls and sweeps lock the rows they take.
  ghost predicate LockingAt(q: Queue, q': Queue, now: int, p: Policy) {
    || EnqueueStep(q, q', now)
    || (exists locked, want :: PollStep(q, q', locked, now, want))
    || (exists locked, limit :: SweepStep(q, q', locked, now, p, limit))
  }

  ghost predicate LockingStep(s: Shared, s': Shared, p: Policy) {
    s'.open == s.open && exists now: int :: LockingAt(s.q, s'.q, now, p)
  }

  ghost predicate SharedStep(s: Shared, s': Shared, p: Policy)
    requires Checked(s)
  {
    LockingStep(s, s', p) || LoadStep(s, s') || exists k: nat :: WriteOf(s, s', k)
  }

  // A transaction that overlaps nothing is the serial step.
  lemma WriteAloneIsSerial(s: Shared, s': Shared, k: nat)
    requires Checked(s) && WriteOf(s, s', k) && s.q[s.open[k].id] == s.open[k].seen
    ensures EventStep(s.q, s'.q, s.open[k].id, s.open[k].event, s.open[k].text, s.open[k].now)
  {
  }

  // An open transaction that would take a row to another status.
  ghost predicate Threatens(s: Shared, k: nat, i: Id)
    requires Checked(s) && i in s.q
  {
    k in s.open && s.open[k].id == i && s.open[k].event != Ack
    && Next(s.open[k].seen.status, s.open[k].event).value != s.q[i].status
  }

  ghost predicate Unthreatened(s: Shared, i: Id)
    requires Checked(s) && i in s.q
  {
    forall k: nat :: !Threatens(s, k, i)
  }

  lemma LockingRows(q: Queue, q': Queue, now: int, p: Policy)
    requires LockingAt(q, q', now, p)
    ensures RowsStep(q, q', now, p)
  {
    if locked, want :| PollStep(q, q', locked, now, want) {
      PollRows(q, q', locked, now, want, p);
    } else if locked, limit :| SweepStep(q, q', locked, now, p, limit) {
      SweepRows(q, q', locked, now, p, limit);
    }
  }

  lemma LockingKeepsTerminal(s: Shared, s': Shared, p: Policy, i: Id)
    requires LockingStep(s, s', p) && i in s.q && Terminal(s.q[i].status)
    ensures i in s'.q && s'.q[i] == s.q[i]
  {
    var now: int :| LockingAt(s.q, s'.q, now, p);
    LockingRows(s.q, s'.q, now, p);
    assert RowStep(s.q[i], s'.q[i], now, p);
  }

  lemma WriteStatus(s: Shared, s': Shared, k: nat, i: Id)
    requires Checked(s) && WriteOf(s, s', k) && i in s.q && Terminal(s.q[i].status)
    ensures i in s'.q && (s'.q[i].status != s.q[i].status <==> Threatens(s, k, i))
  {
    var t := s.open[k];
    if t.id == i {
      assert !Terminal(t.seen.status);
    }
  }

  lemma StepUnthreatened(s: Shared, s': Shared, p: Policy, i: Id)
    requires Checked(s) && SharedStep(s, s', p) && i in s.q && Terminal(s.q[i].status) && Unthreatened(s, i)
    ensures Checked(s') && i in s'.q && s'.q[i].status == s.q[i].status && Unthreatened(s', i)
  {
    if LockingStep(s, s', p) {
      LockingKeepsTerminal(s, s', p, i);
    } else if k: nat :| WriteOf(s, s', k) {
      WriteStatus(s, s', k, i);
      assert !Threatens(s, k, i);
    }
    forall k: nat ensures !Threatens(s', k, i) {
      assert !Threatens(s, k, i);
    }
  }

  // What can follow from a moment on.
  ghost predicate Follows(s: Shared, run: seq<Shared>, p: Policy) {
    run != [] && run[0] == s && forall n: nat | 0 < n < |run| :: SharedStepAt(run, n, p)
  }

  ghost predicate SharedStepAt(run: seq<Shared>, n: nat, p: Policy)
    requires 0 < n < |run|
  {
    Checked(run[n - 1]) && SharedStep(run[n - 1], run[n], p)
  }

  lemma {:induction false} UnthreatenedStays(s: Shared, run: seq<Shared>, p: Policy, i: Id, n: nat)
    requires Checked(s) && i in s.q && Terminal(s.q[i].status) && Unthreatened(s, i) && Follows(s, run, p) && n < |run|
    ensures Checked(run[n]) && i in run[n].q && run[n].q[i].status == s.q[i].status && Unthreatened(run[n], i)
  {
    if n > 0 {
      UnthreatenedStays(s, run, p, i, n - 1);
      assert SharedStepAt(run, n, p);
      StepUnthreatened(run[n - 1], run[n], p, i);
    }
  }

  ghost predicate StatusFinal(s: Shared, p: Policy, i: Id)
    requires i in s.q
  {
    forall run: seq<Shared>, n: nat | Follows(s, run, p) && n < |run| ::
      i in run[n].q && run[n].q[i].status == s.q[i].status
  }

  // With overlapping requests a terminal status is final if and only if no open
  // transaction, which must have loaded the row before it became terminal, would take it
  // to another status.
  lemma TerminalForeverExactly(s: Shared, p: Policy, i: Id)
    requires Checked(s) && i in s.q && Terminal(s.q[i].status)
    ensures StatusFinal(s, p, i) <==> Unthreatened(s, i)
  {
    if Unthreatened(s, i) {
      forall run: seq<Shared>, n: nat | Follows(s, run, p) && n < |run|
        ensures i in run[n].q && run[n].q[i].status == s.q[i].status
      {
        UnthreatenedStays(s, run, p, i, n);
      }
    } else {
      var k: nat :| Threatens(s, k, i);
      var s' := Shared(s.q[i := Overwritten(s.q[i], s.open[k])], s.open - {k});
      assert WriteOf(s, s', k);
      WriteStatus(s, s', k, i);
      var run := [s, s'];
      assert SharedStepAt(run, 1, p);
      var n: nat := 1;
      assert Follows(s, run, p) && run[n].q[i].status != s.q[i].status;
    }
  }

  // A cancellation and a completion that both loaded the command in flight: the agent's
  // answer overwrites the cancellation.
  lemma CancelledBecomesDone(c: Command, i: Id, now: int)
    requires c.status == PickedUp && c.completedAt == None
    ensures var cancel, complete := Transaction(i, c, Cancel, None, now), Transaction(i, c, Complete, None, now + 1);
            var idle, half := Shared(map[i := c], map[]), Shared(map[i := c], map[0 := cancel]);
            var s := Shared(map[i := c], map[0 := cancel, 1 := complete]);
            var s1 := Shared(map[i := Overwritten(c, cancel)], map[1 := complete]);
            var s2 := Shared(map[i := Overwritten(Overwritten(c, cancel), complete)], map[]);
            && LoadOf(idle, half, 0, cancel) && LoadOf(half, s, 1, complete)
            && Checked(s) && WriteOf(s, s1, 0) && s1.q[i].status == Cancelled
            && Checked(s1) && WriteOf(s1, s2, 1) && s2.q[i].status == Done
  {
    var cancel, complete := Transaction(i, c, Cancel, None, now), Transaction(i, c, Complete, None, now + 1);
    var s := Shared(map[i := c], map[0 := cancel, 1 := complete]);
    var s1 := Shared(map[i := Overwritten(c, cancel)], map[1 := complete]);
    assert s.open - {0} == s1.open && s1.open - {1} == map[];
  }
}
