/** The grant cache: a memo per request over a process cache that expires by time and is
    invalidated by a generation counter. */
module GrantCache {
  import opened Common

  const TTL := 30.0

  type Principal = string

  datatype Grants = Grants(role: string, paths: seq<string>)

  datatype Entry = Entry(generation: nat, expires: real, grants: Grants)

  predicate Fresh(e: Entry, generation: nat, now: real) { e.generation == generation && e.expires > now }

  // What the process cache answers.
  function Hit(cache: map<Principal, Entry>, generation: nat, p: Principal, now: real): Option<Grants> {
    if p in cache && Fresh(cache[p], generation, now) then Some(cache[p].grants) else None
  }

  class Request {
    var memo: map<Principal, Grants>

    constructor ()
      ensures memo == map[]
    {
      memo := map[];
    }
  }

  // load_grants waits for the database, so it is two methods: what it does before the
  // wait, and what it does with the answer.
  class GrantCache {
    var generation: nat
    var cache: map<Principal, Entry>

    constructor ()
      ensures generation == 0 && cache == map[]
    {
      generation := 0;
      cache := map[];
    }

    method BumpGeneration()
      modifies this`generation
      ensures generation == old(generation) + 1
      ensures forall p, now | forall q <- cache :: cache[q].generation <= old(generation) ::
              Hit(cache, generation, p, now) == None
    {
      generation := generation + 1;
    }

    // None when the database must be asked. Whatever is answered, the request will hear
    // again.
    method Begin(request: Request?, p: Principal, now: real) returns (r: Option<Grants>)
      modifies request
      ensures r == if request != null && p in old(request.memo) then Some(old(request.memo)[p])
                   else Hit(cache, generation, p, now)
      ensures request != null ==>
                request.memo == if r.Some? then old(request.memo)[p := r.value] else old(request.memo)
    {
      if request != null && p in request.memo {
        return Some(request.memo[p]);
      }
      r := Hit(cache, generation, p, now);
      if request != null && r.Some? {
        request.memo := request.memo[p := r.value];
      }
    }

    // started is when the load began; the generation is that of now.
    method Finish(request: Request?, p: Principal, started: real, grants: Grants) returns (r: Grants)
      modifies request, this`cache
      ensures r == grants
      ensures cache == old(cache)[p := Entry(generation, started + TTL, grants)]
      ensures request != null ==> request.memo == old(request.memo)[p := grants]
    {
      cache := cache[p := Entry(generation, started + TTL, grants)];
      if request != null {
        request.memo := request.memo[p := grants];
      }
      r := grants;
    }
  }

  // --- Runs: loads, changes and bumps interleaved ----------------------------

  datatype Load = Load(p: Principal, started: real, read: Option<Grants>)

  datatype State = State(clock: real, db: map<Principal, Grants>, generation: nat, cache: map<Principal, Entry>,
                         loads: map<nat, Load>)

  datatype Action =
    | Tick(dt: real)
    | Change(p: Principal, grants: Grants)
    | Bump
    | Start(id: nat, p: Principal)
    | Read(id: nat)
    | Store(id: nat)
    | Fail(id: nat)

  // A load starts only on a miss, and reads the database once, at some later point.
  function Next(s: State, a: Action): State {
    match a
    case Tick(dt) => if dt >= 0.0 then s.(clock := s.clock + dt) else s
    case Change(p, grants) => s.(db := s.db[p := grants])
    case Bump => s.(generation := s.generation + 1)
    case Start(id, p) =>
      if id !in s.loads && Hit(s.cache, s.generation, p, s.clock).None? then
        s.(loads := s.loads[id := Load(p, s.clock, None)])
      else s
    case Read(id) =>
      if id in s.loads && s.loads[id].read.None? && s.loads[id].p in s.db then
        s.(loads := s.loads[id := s.loads[id].(read := Some(s.db[s.loads[id].p]))])
      else s
    case Store(id) =>
      if id in s.loads && s.loads[id].read.Some? then
        var l := s.loads[id];
        s.(cache := s.cache[l.p := Entry(s.generation, l.started + TTL, l.read.value)],
           loads := s.loads - {id})
      else s
    case Fail(id) => s.(loads := s.loads - {id})
  }

  function At(s: State, run: seq<Action>, n: nat): State
    requires n <= |run|
  {
    if n == 0 then s else Next(At(s, run, n - 1), run[n - 1])
  }

  ghost predicate Initial(s: State) { s.cache == map[] && s.loads == map[] }

  // --- Where an entry comes from ---------------------------------------------

  // The step reads the database for a load, which becomes l.
  ghost predicate Reads(s: State, a: Action, id: nat, l: Load) {
    && a == Read(id) && id in s.loads && s.loads[id].read.None? && l.p in s.db
    && l == s.loads[id].(read := Some(s.db[l.p]))
  }

  // What load id holds at n was read by step r.
  ghost predicate ReadAt(s: State, run: seq<Action>, n: nat, id: nat, r: nat)
    requires n <= |run|
  {
    && r < n && id in At(s, run, n).loads && Reads(At(s, run, r), run[r], id, At(s, run, n).loads[id])
    && forall k: nat | r < k <= n :: Get(At(s, run, k).loads, id) == Some(At(s, run, n).loads[id])
  }

  // The step stores a load of p.
  ghost predicate StoresFor(s: State, a: Action, p: Principal) {
    a.Store? && a.id in s.loads && s.loads[a.id].read.Some? && s.loads[a.id].p == p
  }

  // The entry of p at n was read by step r and stored by step w.
  ghost predicate Origin(s: State, run: seq<Action>, n: nat, p: Principal, r: nat, w: nat)
    requires n <= |run|
  {
    && r < w < n && StoresFor(At(s, run, w), run[w], p) && ReadAt(s, run, w, run[w].id, r)
    && Get(At(s, run, n).cache, p) == Some(Stored(At(s, run, w), run[w].id))
    && forall k: nat | w < k < n :: !StoresFor(At(s, run, k), run[k], p)
  }

  function Stored(s: State, id: nat): Entry
    requires id in s.loads && s.loads[id].read.Some?
  {
    Entry(s.generation, s.loads[id].started + TTL, s.loads[id].read.value)
  }

  // What a load under way can have become of.
  lemma LoadAfter(s: State, a: Action, id: nat)
    requires id in Next(s, a).loads
    ensures var l := Next(s, a).loads[id];
            Get(s.loads, id) == Some(l) || l == Load(l.p, s.clock, None) || Reads(s, a, id, l)
    ensures Next(s, a).clock >= s.clock
  {
  }

  lemma {:induction false} StartedBefore(s: State, run: seq<Action>, n: nat, id: nat)
    requires Initial(s) && n <= |run| && id in At(s, run, n).loads
    ensures At(s, run, n).loads[id].started <= At(s, run, n).clock
  {
    if n > 0 {
      LoadAfter(At(s, run, n - 1), run[n - 1], id);
      if id in At(s, run, n - 1).loads {
        StartedBefore(s, run, n - 1, id);
      }
    }
  }

  // Over every interleaving what a load holds was read by one step of the run.
  lemma {:induction false} LoadsBacked(s: State, run: seq<Action>, n: nat, id: nat) returns (r: nat)
    requires Initial(s) && n <= |run| && id in At(s, run, n).loads && At(s, run, n).loads[id].read.Some?
    ensures ReadAt(s, run, n, id, r)
  {
    LoadAfter(At(s, run, n - 1), run[n - 1], id);
    if Get(At(s, run, n - 1).loads, id) == Some(At(s, run, n).loads[id]) {
      r := LoadsBacked(s, run, n - 1, id);
    } else {
      r := n - 1;
    }
  }

  // An entry is the one before, or what a load that read has stored.
  lemma EntryAfter(s: State, a: Action, p: Principal)
    requires p in Next(s, a).cache
    ensures if StoresFor(s, a, p) then Next(s, a).cache[p] == Stored(s, a.id)
            else Get(s.cache, p) == Some(Next(s, a).cache[p])
  {
  }

  // And every entry was read and stored by steps of the run.
  lemma {:induction false} EntriesBacked(s: State, run: seq<Action>, n: nat, p: Principal) returns (r: nat, w: nat)
    requires Initial(s) && n <= |run| && p in At(s, run, n).cache
    ensures Origin(s, run, n, p, r, w)
  {
    EntryAfter(At(s, run, n - 1), run[n - 1], p);
    if StoresFor(At(s, run, n - 1), run[n - 1], p) {
      w := n - 1;
      r := LoadsBacked(s, run, w, run[w].id);
    } else {
      r, w := EntriesBacked(s, run, n - 1, p);
    }
  }

  // An entry has one origin.
  lemma OneOrigin(s: State, run: seq<Action>, n: nat, p: Principal, r: nat, w: nat, r': nat, w': nat)
    requires n <= |run| && Origin(s, run, n, p, r, w) && Origin(s, run, n, p, r', w')
    ensures r == r' && w == w'
  {
  }

  // --- How current a hit is --------------------------------------------------

  ghost predicate NoBump(run: seq<Action>, m: nat, n: nat)
    requires n <= |run|
  {
    forall k: nat | m <= k < n :: run[k] != Bump
  }

  lemma {:induction false} GenerationFixed(s: State, run: seq<Action>, m: nat, n: nat)
    requires m <= n <= |run|
    ensures At(s, run, m).generation <= At(s, run, n).generation
    ensures At(s, run, m).generation == At(s, run, n).generation <==> NoBump(run, m, n)
  {
    if m < n {
      GenerationFixed(s, run, m, n - 1);
    }
  }

  ghost function HitAt(s: State, run: seq<Action>, p: Principal): Option<Grants> {
    var now := At(s, run, |run|);
    Hit(now.cache, now.generation, p, now.clock)
  }

  // A hit is what the database held when the load behind it read, less than TTL seconds
  // ago, under every interleaving; and that was in the current generation if and only if
  // no bump fell between that load's read and its store.
  lemma HitCurrentExactly(s: State, run: seq<Action>, p: Principal, r: nat, w: nat)
    requires Initial(s) && HitAt(s, run, p).Some? && Origin(s, run, |run|, p, r, w)
    ensures Get(At(s, run, r).db, p) == HitAt(s, run, p)
    ensures At(s, run, |run|).clock - At(s, run, r).clock < TTL
    ensures At(s, run, r).generation == At(s, run, |run|).generation <==> NoBump(run, r, w)
  {
    StartedBefore(s, run, r, run[w].id);
    GenerationFixed(s, run, r, w);
  }

  // An entry is served exactly until a bump, or 30 seconds after its load began.
  lemma HitExactly(s: State, run: seq<Action>, p: Principal, r: nat, w: nat)
    requires Origin(s, run, |run|, p, r, w)
    ensures HitAt(s, run, p).Some? <==>
              && NoBump(run, w, |run|)
              && At(s, run, |run|).clock < At(s, run, w).loads[run[w].id].started + 30.0
  {
    GenerationFixed(s, run, w, |run|);
  }

  // And nothing is served that no load of the run stored.
  lemma NothingWithoutOrigin(s: State, run: seq<Action>, p: Principal)
    requires Initial(s)
    ensures HitAt(s, run, p).Some? ==> exists r: nat, w: nat :: Origin(s, run, |run|, p, r, w)
  {
    if HitAt(s, run, p).Some? {
      var r, w := EntriesBacked(s, run, |run|, p);
    }
  }

  lemma HitIsRecent(s: State, run: seq<Action>, p: Principal) returns (m: nat)
    requires Initial(s) && HitAt(s, run, p).Some?
    ensures m <= |run| && Get(At(s, run, m).db, p) == HitAt(s, run, p)
    ensures At(s, run, |run|).clock - At(s, run, m).clock < TTL
  {
    var w;
    m, w := EntriesBacked(s, run, |run|, p);
    HitCurrentExactly(s, run, p, m, w);
  }

  // No bump fell between the read and the store of the load behind the entry of p.
  ghost predicate ReadAndStoredTogether(s: State, run: seq<Action>, p: Principal) {
    forall r: nat, w: nat | Origin(s, run, |run|, p, r, w) :: NoBump(run, r, w)
  }

  // Then a hit returns nothing read before the latest bump.
  lemma HitIsCurrent(s: State, run: seq<Action>, p: Principal) returns (m: nat)
    requires Initial(s) && HitAt(s, run, p).Some? && ReadAndStoredTogether(s, run, p)
    ensures m <= |run| && Get(At(s, run, m).db, p) == HitAt(s, run, p)
    ensures At(s, run, |run|).clock - At(s, run, m).clock < TTL
    ensures At(s, run, m).generation == At(s, run, |run|).generation
  {
    var w;
    m, w := EntriesBacked(s, run, |run|, p);
    HitCurrentExactly(s, run, p, m, w);
  }

  // So a revocation is immediate: if the database has held nothing else for p since the
  // latest bump, a hit is what it holds now.
  lemma RevocationImmediate(s: State, run: seq<Action>, p: Principal)
    requires Initial(s) && HitAt(s, run, p).Some? && ReadAndStoredTogether(s, run, p)
    requires forall m: nat | m <= |run| && At(s, run, m).generation == At(s, run, |run|).generation ::
               Get(At(s, run, m).db, p) == Get(At(s, run, |run|).db, p)
    ensures HitAt(s, run, p) == Get(At(s, run, |run|).db, p)
  {
    var m := HitIsCurrent(s, run, p);
  }

  // In particular when no load is under way at any bump.
  ghost predicate NoLoadSpansABump(s: State, run: seq<Action>) {
    forall n: nat | n < |run| && run[n] == Bump :: At(s, run, n).loads == map[]
  }

  lemma QuietBumps(s: State, run: seq<Action>, p: Principal)
    requires NoLoadSpansABump(s, run)
    ensures ReadAndStoredTogether(s, run, p)
  {
    forall r: nat, w: nat | Origin(s, run, |run|, p, r, w) ensures NoBump(run, r, w) {
      forall k: nat | r <= k < w ensures run[k] != Bump {
        if k > r {
          assert run[w].id in At(s, run, k).loads;
        }
      }
    }
  }

  // The condition cannot be dropped: a load that reads before a bump and stores after it
  // stamps the old grants with the new generation, and the revoked grants are served.
  lemma SpanningLoadServesRevoked(p: Principal, old': Grants, new': Grants)
    requires old' != new'
    ensures var s := State(0.0, map[p := old'], 0, map[], map[]);
            var run := [Start(0, p), Read(0), Change(p, new'), Bump, Store(0)];
            var now := At(s, run, 5);
            && Initial(s) && Origin(s, run, 5, p, 1, 4) && !NoBump(run, 1, 4)
            && Get(now.db, p) == Some(new') && Hit(now.cache, now.generation, p, now.clock) == Some(old')
  {
    var s := State(0.0, map[p := old'], 0, map[], map[]);
    var run := [Start(0, p), Read(0), Change(p, new'), Bump, Store(0)];
    var s2 := s.(loads := map[0 := Load(p, 0.0, Some(old'))]);
    assert At(s, run, 1) == s.(loads := map[0 := Load(p, 0.0, None)]);
    ReadFills(At(s, run, 1), 0, s2);
    assert At(s, run, 2) == s2;
    assert At(s, run, 3) == s2.(db := map[p := new']);
    assert run[3] == Bump && At(s, run, 4) == s2.(db := map[p := new'], generation := 1);
    assert At(s, run, 5).cache == map[p := Entry(1, TTL, old')];
  }

  lemma ReadFills(s: State, id: nat, s': State)
    requires id in s.loads && s.loads[id].read.None? && s.loads[id].p in s.db
    requires s' == s.(loads := s'.loads)
    requires s'.loads == s.loads[id := s.loads[id].(read := Some(s.db[s.loads[id].p]))]
    ensures Next(s, Read(id)) == s'
  {
  }
}
