/** Session token rotation. Every request reads the session row and then, in a
    transaction of its own, runs at most one guarded update of it. */
module Sessions {
  import opened Common

  // Tokens stand for the hashes of random values: a minted one is new.
  type Token = nat

  // Times and durations are integer microseconds.
  const MINUTE := 60000000

  datatype Config = Config(rotation: int, rotationGrace: int, prevMax: int, idle: int)

  function Grace(c: Config): nat { Max(0, c.rotationGrace) }

  // How long a rotated-away token lives while the new one is never presented.
  function Cap(c: Config): int { Max(Min(c.prevMax, c.idle), Grace(c) + MINUTE) }

  datatype Row = Row(current: Token, prev: Option<Token>, prevValidUntil: Option<int>, rotatedAt: int,
                     lastSeenAt: int, expiresAbsolute: int)

  predicate Matches(r: Row, t: Token, now: int) {
    r.current == t || (r.prev == Some(t) && r.prevValidUntil.Some? && r.prevValidUntil.value > now)
  }

  // Nobody has presented the current token since the last rotation.
  predicate Unconfirmed(r: Row, now: int, c: Config) {
    r.prev.Some? && r.prevValidUntil.Some? && r.prevValidUntil.value > now + Grace(c)
  }

  datatype Plan = Unknown | Stale | Serve | Rotate | Confirm | Reissue

  // What a request that presents t decides from the row it read.
  function Decide(r: Row, t: Token, now: int, c: Config): Plan {
    if !Matches(r, t, now) then Unknown
    else if now >= r.expiresAbsolute then Stale
    else if now - r.lastSeenAt > c.idle then Stale
    else if r.current == t then
      if now - r.rotatedAt >= c.rotation then Rotate
      else if Unconfirmed(r, now, c) then Confirm
      else Serve
    else if Unconfirmed(r, now, c) && now - r.rotatedAt >= Grace(c) then Reissue
    else Serve
  }

  predicate Refused(p: Plan) { p == Unknown || p == Stale }

  // --- The guarded updates ---------------------------------------------------

  // UPDATE .. WHERE .. RETURNING: None when no row matched.
  function Rotated(r: Row, t: Token, minted: Token, now: int, c: Config): Option<Row> {
    if r.current == t
    then Some(r.(prev := Some(r.current), current := minted, rotatedAt := now, prevValidUntil := Some(now + Cap(c))))
    else None
  }

  function Confirmed(r: Row, t: Token, now: int, c: Config): Option<Row> {
    if r.current == t && r.prevValidUntil.Some? && r.prevValidUntil.value > now + Grace(c)
    then Some(r.(prevValidUntil := Some(now + Grace(c))))
    else None
  }

  function Reissued(r: Row, t: Token, seen: Token, minted: Token, now: int, c: Config): Option<Row> {
    if r.prev == Some(t) && r.current == seen
    then Some(r.(current := minted, rotatedAt := now, prevValidUntil := Some(now + Cap(c))))
    else None
  }

  // A pending request: what it presented, saw, decided, and when.
  datatype Request = Request(token: Token, seen: Row, readAt: int, c: Config)

  function PlanOf(q: Request): Plan { Decide(q.seen, q.token, q.readAt, q.c) }

  function Written(q: Request, r: Row, minted: Token): Option<Row> {
    match PlanOf(q)
    case Rotate => Rotated(r, q.token, minted, q.readAt, q.c)
    case Confirm => Confirmed(r, q.token, q.readAt, q.c)
    case Reissue => Reissued(r, q.token, q.seen.current, minted, q.readAt, q.c)
    case _ => None
  }

  predicate Mints(p: Plan) { p == Rotate || p == Reissue }

  datatype Answer = Denied | Granted(rotated: Option<Token>)

  // The sessions table, for one row.
  class SessionStore {
    var row: Option<Row>

    constructor (minted: Token, now: int, ttl: int)
      ensures row == Some(Row(minted, None, None, now, now, now + ttl))
    {
      row := Some(Row(minted, None, None, now, now, now + ttl));
    }

    // First transaction: look the token up and decide. A stale row is deleted, unless
    // the request that found it never commits.
    method Read(t: Token, now: int, c: Config, commits: bool) returns (q: Option<Request>)
      modifies this
      ensures q == if old(row).None? || Refused(Decide(old(row).value, t, now, c)) then None
                   else Some(Request(t, old(row).value, now, c))
      ensures row == if commits && old(row).Some? && Decide(old(row).value, t, now, c) == Stale then None else old(row)
    {
      if row.None? || !Matches(row.value, t, now) {
        return None;
      }
      var r := row.value;
      if now >= r.expiresAbsolute || now - r.lastSeenAt > c.idle {
        if commits {
          row := None;
        }
        return None;
      }
      return Some(Request(t, r, now, c));
    }

    // Second transaction: the guarded update the request decided on, against
    // whatever the row is by now.
    method Write(q: Request, minted: Token) returns (rotated: Option<Token>)
      requires !Refused(PlanOf(q))
      modifies this
      ensures var w := if old(row).None? then None else Written(q, old(row).value, minted);
              && row == (if w.Some? then w else old(row))
              && rotated == if w.Some? && Mints(PlanOf(q)) then Some(minted) else None
    {
      rotated := None;
      if row.None? {
        return;
      }
      var r := row.value;
      var grace := Grace(q.c);
      var unconfirmed := q.seen.prev.Some? && q.seen.prevValidUntil.Some?
                         && q.seen.prevValidUntil.value > q.readAt + grace;
      if q.seen.current == q.token {
        if q.readAt - q.seen.rotatedAt >= q.c.rotation {
          if r.current == q.token {
            row := Some(r.(prev := Some(r.current), current := minted, rotatedAt := q.readAt,
                           prevValidUntil := Some(q.readAt + Cap(q.c))));
            rotated := Some(minted);
          }
        } else if unconfirmed {
          if r.current == q.token && r.prevValidUntil.Some? && r.prevValidUntil.value > q.readAt + grace {
            row := Some(r.(prevValidUntil := Some(q.readAt + grace)));
          }
        }
      } else if unconfirmed && q.readAt - q.seen.rotatedAt >= grace {
        if r.prev == Some(q.token) && r.current == q.seen.current {
          row := Some(r.(current := minted, rotatedAt := q.readAt, prevValidUntil := Some(q.readAt + Cap(q.c))));
          rotated := Some(minted);
        }
      }
    }

    // One request with nobody in between. skipped: the update failed and was dropped.
    method ValidateSession(t: Token, minted: Token, now: int, c: Config, skipped: bool, commits: bool)
      returns (answer: Answer)
      modifies this
      ensures (row, answer) == Serial(old(row), t, minted, now, c, skipped, commits)
    {
      var q := Read(t, now, c, commits);
      if q.None? {
        return Denied;
      }
      var rotated := None;
      if !skipped {
        rotated := Write(q.value, minted);
      }
      if commits {
        row := Some(row.value.(lastSeenAt := now));
      }
      return Granted(rotated);
    }

    method Revoke(t: Token, now: int) returns (removed: bool)
      modifies this
      ensures removed <==> old(row).Some? && Matches(old(row).value, t, now)
      ensures row == if removed then None else old(row)
    {
      removed := row.Some? && Matches(row.value, t, now);
      if removed {
        row := None;
      }
    }
  }

  ghost function Serial(row: Option<Row>, t: Token, minted: Token, now: int, c: Config, skipped: bool,
                        commits: bool): (Option<Row>, Answer) {
    if row.None? || Decide(row.value, t, now, c) == Unknown then (row, Denied)
    else if Decide(row.value, t, now, c) == Stale then (if commits then None else row, Denied)
    else
      var r := row.value;
      var w := if skipped then None else Written(Request(t, r, now, c), r, minted);
      var r' := if w.Some? then w.value else r;
      (Some(if commits then r'.(lastSeenAt := now) else r'),
       Granted(if w.Some? && Mints(Decide(r, t, now, c)) then Some(minted) else None))
  }

  // --- When a session answers ------------------------------------------------

  // A request is denied if and only if the session is gone, the token is neither the
  // current one nor an unexpired previous one, the session is past its absolute end, or
  // it has idled too long; in the last two cases a request that commits deletes it.
  lemma DeniedExactly(row: Option<Row>, t: Token, minted: Token, now: int, c: Config, skipped: bool, commits: bool)
    ensures var (after, answer) := Serial(row, t, minted, now, c, skipped, commits);
            && (answer == Denied <==>
                  || row.None?
                  || (row.value.current != t
                      && (row.value.prev != Some(t) || row.value.prevValidUntil.None?
                          || now >= row.value.prevValidUntil.value))
                  || now >= row.value.expiresAbsolute
                  || now - row.value.lastSeenAt > c.idle)
            && (answer == Denied && row.Some? && (row.value.current == t || (row.value.prev == Some(t)
                    && row.value.prevValidUntil.Some? && now < row.value.prevValidUntil.value)) ==>
                  after == if commits then None else row)
            && (answer.Granted? && commits ==> after.Some? && after.value.lastSeenAt == now)
  {
  }

  // A new token is handed out exactly to a current one past the rotation interval, or to
  // a previous one whose successor has not been presented for the in-flight grace.
  lemma RotatesExactly(row: Row, t: Token, minted: Token, now: int, c: Config, commits: bool)
    requires Serial(Some(row), t, minted, now, c, false, commits).1.Granted?
    ensures var grace := if c.rotationGrace > 0 then c.rotationGrace else 0;
            Serial(Some(row), t, minted, now, c, false, commits).1 == Granted(Some(minted)) <==>
              if row.current == t then now - row.rotatedAt >= c.rotation
              else row.prevValidUntil.value > now + grace && now - row.rotatedAt >= grace
  {
  }

  // Presenting the new token leaves the old one the in-flight grace and no more.
  lemma PresentingConfirms(row: Row, minted: Token, now: int, c: Config, commits: bool)
    requires Serial(Some(row), row.current, minted, now, c, false, commits).1 == Granted(None)
    requires row.prev.Some?
    ensures var after := Serial(Some(row), row.current, minted, now, c, false, commits).0;
            && after.Some? && after.value.current == row.current
            && forall later | later >= now + (if c.rotationGrace > 0 then c.rotationGrace else 0) ::
                 row.prev != Some(row.current) ==> !Matches(after.value, row.prev.value, later)
  {
  }

  // A rotated-away token lives as long as configured, but not beyond the idle window, and
  // at least a minute longer than the grace, by which "unconfirmed" is told.
  lemma CapMeans(c: Config)
    ensures Cap(c) >= 60000000 && Cap(c) >= c.rotationGrace + 60000000
    ensures Cap(c) > c.rotationGrace + 60000000 && Cap(c) > 60000000 ==>
              Cap(c) <= c.prevMax && Cap(c) <= c.idle && (Cap(c) == c.prevMax || Cap(c) == c.idle)
    ensures c.prevMax > c.rotationGrace + 60000000 && c.prevMax > 60000000 && c.idle >= c.prevMax ==>
              Cap(c) == c.prevMax
  {
  }

  // One request of a serial run, by anybody, with any token.
  datatype Ask = Ask(token: Token, minted: Token, at: int, skipped: bool, commits: bool)

  ghost function RowBefore(row: Option<Row>, asks: seq<Ask>, n: nat, c: Config): Option<Row>
    requires n <= |asks|
  {
    if n == 0 then row
    else
      var a := asks[n - 1];
      Serial(RowBefore(row, asks, n - 1, c), a.token, a.minted, a.at, c, a.skipped, a.commits).0
  }

  ghost function AnswerTo(row: Option<Row>, asks: seq<Ask>, n: nat, c: Config): Answer
    requires n < |asks|
  {
    var a := asks[n];
    Serial(RowBefore(row, asks, n, c), a.token, a.minted, a.at, c, a.skipped, a.commits).1
  }

  ghost predicate Chronological(row: Option<Row>, asks: seq<Ask>) {
    && (forall n, m | 0 <= n <= m < |asks| :: asks[n].at <= asks[m].at)
    && (row.Some? && asks != [] ==> row.value.lastSeenAt <= asks[0].at)
  }

  // The end of a session never moves, and it was last seen at a request.
  lemma {:induction false} SeenAtRequests(row: Option<Row>, asks: seq<Ask>, n: nat, c: Config)
    requires Chronological(row, asks) && 0 < n <= |asks|
    ensures var r := RowBefore(row, asks, n, c);
            r.Some? ==> row.Some? && r.value.lastSeenAt <= asks[n - 1].at
                        && r.value.expiresAbsolute == row.value.expiresAbsolute
  {
    if n > 1 {
      SeenAtRequests(row, asks, n - 1, c);
    }
  }

  // After a silence longer than the idle window no token is granted anything ever again,
  // whoever asks and whether or not the denials commit.
  lemma {:induction false} SilenceEndsSession(row: Option<Row>, asks: seq<Ask>, k: nat, n: nat, c: Config)
    requires Chronological(row, asks) && 0 < k <= n < |asks| && asks[k].at - asks[k - 1].at > c.idle
    ensures AnswerTo(row, asks, n, c) == Denied
    ensures RowBefore(row, asks, n, c) == None || RowBefore(row, asks, n, c) == RowBefore(row, asks, k, c)
  {
    SeenAtRequests(row, asks, k, c);
    if n > k {
      SilenceEndsSession(row, asks, k, n - 1, c);
    }
    var a := asks[n];
    DeniedExactly(RowBefore(row, asks, n, c), a.token, a.minted, a.at, c, a.skipped, a.commits);
  }

  // Nor at or after the absolute end, however busy the session was.
  lemma AbsoluteEnd(row: Row, asks: seq<Ask>, n: nat, c: Config)
    requires Chronological(Some(row), asks) && n < |asks| && asks[n].at >= row.expiresAbsolute
    ensures AnswerTo(Some(row), asks, n, c) == Denied
  {
    if n > 0 {
      SeenAtRequests(Some(row), asks, n, c);
    }
    var a := asks[n];
    DeniedExactly(RowBefore(Some(row), asks, n, c), a.token, a.minted, a.at, c, a.skipped, a.commits);
  }

  // --- Serial requests: a lost cookie logs nobody out ------------------------

  datatype Visit = Visit(at: int, minted: Token, lost: bool, skipped: bool, commits: bool)

  // A browser with its cookie, and the time of its last request.
  datatype Browser = Browser(row: Option<Row>, token: Token, last: int)

  ghost function Next(b: Browser, v: Visit, c: Config): (Browser, Answer) {
    var (row, answer) := Serial(b.row, b.token, v.minted, v.at, c, v.skipped, v.commits);
    var token := if answer.Granted? && answer.rotated.Some? && !v.lost then answer.rotated.value else b.token;
    (Browser(row, token, v.at), answer)
  }

  // Gaps up to gap, inside the idle and absolute windows, re-issues not skipped.
  ghost predicate WellSpaced(b: Browser, v: Visit, c: Config, gap: int) {
    && b.last <= v.at <= b.last + gap
    && (b.row.Some? ==>
          var r := b.row.value;
          && v.at < r.expiresAbsolute && v.at - r.lastSeenAt <= c.idle
          && v.minted != r.current && r.prev != Some(v.minted)
          && (Decide(r, b.token, v.at, c) == Reissue ==> !v.skipped))
  }

  ghost predicate WellSpacedAll(b: Browser, vs: seq<Visit>, c: Config, gap: int)
    decreases |vs|
  {
    vs == [] || (WellSpaced(b, vs[0], c, gap) && WellSpacedAll(Next(b, vs[0], c).0, vs[1..], c, gap))
  }

  ghost predicate NeverRefused(b: Browser, vs: seq<Visit>, c: Config)
    decreases |vs|
  {
    vs == [] || (Next(b, vs[0], c).1.Granted? && NeverRefused(Next(b, vs[0], c).0, vs[1..], c))
  }

  ghost predicate HoldsCurrent(b: Browser) { b.row.Some? && b.row.value.current == b.token }

  // Holds the current token, or the previous one on its full cap, recently rotated.
  ghost predicate Safe(b: Browser, c: Config) {
    && b.row.Some?
    && var r := b.row.value;
       && r.prev != Some(r.current) && r.lastSeenAt <= b.last
       && (r.current == b.token
           || (r.prev == Some(b.token) && r.prevValidUntil == Some(r.rotatedAt + Cap(c))
               && (b.last == r.rotatedAt || r.rotatedAt <= b.last < r.rotatedAt + Grace(c))))
  }

  // No request may come later after the one before, whatever the gap: the session idles.
  function Reach(c: Config, gap: int): int { Min(gap, c.idle) }

  ghost predicate ShortGap(c: Config, gap: int) {
    || gap <= 0
    || (if Grace(c) > 0 then gap <= Cap(c) - 2 * Grace(c) else gap < Cap(c))
  }

  lemma VisitSafe(b: Browser, v: Visit, c: Config, gap: int)
    requires Safe(b, c) && WellSpaced(b, v, c, gap) && ShortGap(c, Reach(c, gap))
    ensures Next(b, v, c).1.Granted? && Safe(Next(b, v, c).0, c)
  {
    var r := b.row.value;
    assert v.at <= b.last + Reach(c, gap);
    if r.current != b.token {
      assert v.at < r.rotatedAt + Cap(c);
      if v.at - r.rotatedAt >= Grace(c) {
        assert v.at + Grace(c) < r.rotatedAt + Cap(c);
      }
    }
  }

  lemma {:induction false} VisitsSafe(b: Browser, vs: seq<Visit>, c: Config, gap: int)
    requires Safe(b, c) && WellSpacedAll(b, vs, c, gap) && ShortGap(c, Reach(c, gap))
    ensures NeverRefused(b, vs, c)
    decreases |vs|
  {
    if vs != [] {
      VisitSafe(b, vs[0], c, gap);
      VisitsSafe(Next(b, vs[0], c).0, vs[1..], c, gap);
    }
  }

  // Where a browser stands at time t that lost the response to a rotation at time 0.
  ghost function Stranded(c: Config, t: int): Browser {
    Browser(Some(Row(1, Some(0), Some(Cap(c)), 0, t, Cap(c) + 1)), 0, t)
  }

  // From here on a re-issue comes too late.
  ghost function Deadline(c: Config): int { Max(Grace(c), Cap(c) - Grace(c)) }

  // Requests a unit apart, but for one leap over the times at which a re-issue is due.
  ghost function NextAt(c: Config, t: int): int {
    if t + 1 < Grace(c) then t + 1 else if t + 1 <= Deadline(c) then Deadline(c) else t + 1
  }

  lemma StrandedVisit(c: Config, gap: int, t: int)
    requires !ShortGap(c, Reach(c, gap)) && 0 <= t < Cap(c) && (t == 0 || t < Grace(c) || t >= Deadline(c))
    ensures var v := Visit(NextAt(c, t), 2, false, false, true);
            && t < v.at <= Cap(c) && (v.at < Grace(c) || v.at >= Deadline(c)) && WellSpaced(Stranded(c, t), v, c, gap)
            && (v.at < Cap(c) ==> Next(Stranded(c, t), v, c).0 == Stranded(c, v.at))
            && (v.at == Cap(c) ==> Next(Stranded(c, t), v, c).1 == Denied)
  {
  }

  lemma {:induction false} StrandedRefused(c: Config, gap: int, t: int) returns (vs: seq<Visit>)
    requires !ShortGap(c, Reach(c, gap)) && 0 <= t < Cap(c) && (t == 0 || t < Grace(c) || t >= Deadline(c))
    ensures WellSpacedAll(Stranded(c, t), vs, c, gap) && !NeverRefused(Stranded(c, t), vs, c)
    decreases Cap(c) - t
  {
    var v := Visit(NextAt(c, t), 2, false, false, true);
    StrandedVisit(c, gap, t);
    var rest := [];
    if v.at < Cap(c) {
      rest := StrandedRefused(c, gap, v.at);
    }
    vs := [v] + rest;
    assert vs[1..] == rest;
  }

  // When the gap is any longer there is a run that is refused: a lost rotation, requests
  // inside the grace, a leap over the times of re-issue, and requests until the old
  // token is dead.
  lemma LongGapRefuses(c: Config, gap: int) returns (b: Browser, vs: seq<Visit>)
    requires !ShortGap(c, Reach(c, gap))
    ensures HoldsCurrent(b) && Safe(b, c) && WellSpacedAll(b, vs, c, gap) && !NeverRefused(b, vs, c)
  {
    b := Browser(Some(Row(0, None, None, -Max(0, c.rotation), 0, Cap(c) + 1)), 0, 0);
    var v := Visit(0, 1, true, false, true);
    assert Next(b, v, c) == (Stranded(c, 0), Granted(Some(1)));
    var rest := StrandedRefused(c, gap, 0);
    vs := [v] + rest;
    assert vs[1..] == rest;
  }

  ghost predicate NoLogout(c: Config, gap: int) {
    forall b, vs :: HoldsCurrent(b) && Safe(b, c) && WellSpacedAll(b, vs, c, gap) ==> NeverRefused(b, vs, c)
  }

  // A browser that keeps its request gaps within cap - 2 * grace (with no grace, under
  // the cap) is never refused, whichever responses were lost; and no longer gap would
  // do. A gap counts only as far as the idle window lets it.
  lemma NoLogoutExactly(c: Config, gap: int)
    ensures NoLogout(c, gap) <==> ShortGap(c, Reach(c, gap))
  {
    if ShortGap(c, Reach(c, gap)) {
      forall b, vs | HoldsCurrent(b) && Safe(b, c) && WellSpacedAll(b, vs, c, gap) ensures NeverRefused(b, vs, c) {
        VisitsSafe(b, vs, c, gap);
      }
    } else {
      var b, vs := LongGapRefuses(c, gap);
    }
  }

  // --- Concurrent requests: one linear chain of tokens -----------------------

  // One successful replacement of the current token.
  datatype Change = Change(replaced: Token, installed: Token, at: int, plan: Plan, c: Config)

  // returned are the tokens handed out as rotated.
  datatype System = System(row: Option<Row>, pending: map<nat, Request>, used: set<Token>, log: seq<Change>,
                           returned: set<Token>)

  ghost predicate ReadStep(s: System, s': System) {
    exists id: nat, t: Token, now: int, c: Config ::
      && s.row.Some? && id !in s.pending && !Refused(Decide(s.row.value, t, now, c))
      && s' == s.(pending := s.pending[id := Request(t, s.row.value, now, c)])
  }

  ghost function AfterWrite(s: System, id: nat, minted: Token): System
    requires id in s.pending
  {
    var q := s.pending[id];
    var s1 := s.(pending := s.pending - {id}, used := s.used + {minted});
    if s.row.None? || Written(q, s.row.value, minted).None? then s1
    else
      var s2 := s1.(row := Written(q, s.row.value, minted));
      if Mints(PlanOf(q))
      then s2.(log := s.log + [Change(s.row.value.current, minted, q.readAt, PlanOf(q), q.c)],
               returned := s.returned + {minted})
      else s2
  }

  ghost predicate WriteStep(s: System, s': System) {
    exists id: nat, minted: Token :: WritesWith(s, s', id, minted)
  }

  ghost predicate WritesWith(s: System, s': System, id: nat, minted: Token) {
    id in s.pending && minted !in s.used && s' == AfterWrite(s, id, minted)
  }

  // A skipped update, a request's own commit of last_seen_at, and a deleted row.
  ghost predicate OtherStep(s: System, s': System) {
    || (exists id :: id in s.pending && s' == s.(pending := s.pending - {id}))
    || (exists now :: s.row.Some? && s' == s.(row := Some(s.row.value.(lastSeenAt := now))))
    || s' == s.(row := None)
  }

  ghost predicate Step(s: System, s': System) {
    ReadStep(s, s') || WriteStep(s, s') || OtherStep(s, s')
  }

  // The token and rotation time after the first n changes.
  ghost function TokenAt(origin: Row, log: seq<Change>, n: nat): Token
    requires n <= |log|
  {
    if n == 0 then origin.current else log[n - 1].installed
  }

  ghost function RotatedAtAfter(origin: Row, log: seq<Change>, n: nat): int
    requires n <= |log|
  {
    if n == 0 then origin.rotatedAt else log[n - 1].at
  }

  // The least time between a change and the one before it.
  ghost function Spacing(x: Change): int {
    if x.plan == Rotate then x.c.rotation else Grace(x.c)
  }

  ghost predicate Linked(origin: Row, log: seq<Change>) {
    && (forall k | 0 <= k < |log| :: log[k].replaced == TokenAt(origin, log, k))
    && (forall k | 0 <= k < |log| :: log[k].at >= RotatedAtAfter(origin, log, k) + Spacing(log[k]))
    && (forall j, k | 0 <= j < k <= |log| :: TokenAt(origin, log, j) != TokenAt(origin, log, k))
  }

  ghost predicate Inv(origin: Row, s: System) {
    && Linked(origin, s.log)
    && (forall k | 0 <= k <= |s.log| :: TokenAt(origin, s.log, k) in s.used)
    && s.returned == (set k | 0 <= k < |s.log| :: s.log[k].installed)
    && (s.row.Some? ==> s.row.value.current == TokenAt(origin, s.log, |s.log|)
                        && s.row.value.rotatedAt == RotatedAtAfter(origin, s.log, |s.log|))
    && (forall id <- s.pending ::
          exists k :: 0 <= k <= |s.log| && s.pending[id].seen.current == TokenAt(origin, s.log, k)
                      && s.pending[id].seen.rotatedAt == RotatedAtAfter(origin, s.log, k))
  }

  ghost predicate Init(s: System) {
    s.row.Some? && s.row.value.prev == None && s.pending == map[] && s.used == {s.row.value.current}
    && s.log == [] && s.returned == {}
  }

  ghost predicate StepAt(run: seq<System>, k: nat)
    requires 0 < k < |run|
  {
    Step(run[k - 1], run[k])
  }

  ghost predicate Run(run: seq<System>) {
    run != [] && Init(run[0]) && forall k: nat | 0 < k < |run| :: StepAt(run, k)
  }

  lemma SeenKept(origin: Row, log: seq<Change>, x: Change, k: nat)
    requires k <= |log|
    ensures TokenAt(origin, log + [x], k) == TokenAt(origin, log, k)
    ensures RotatedAtAfter(origin, log + [x], k) == RotatedAtAfter(origin, log, k)
  {
  }

  lemma LogExtends(origin: Row, log: seq<Change>, x: Change)
    requires Linked(origin, log)
    requires x.replaced == TokenAt(origin, log, |log|)
    requires x.at >= RotatedAtAfter(origin, log, |log|) + Spacing(x)
    requires forall k | 0 <= k <= |log| :: TokenAt(origin, log, k) != x.installed
    ensures Linked(origin, log + [x])
  {
    var log' := log + [x];
    forall k | 0 <= k < |log'|
      ensures log'[k].replaced == TokenAt(origin, log', k)
      ensures log'[k].at >= RotatedAtAfter(origin, log', k) + Spacing(log'[k])
    {
      SeenKept(origin, log, x, k);
      if k < |log| {
        assert log'[k] == log[k];
      }
    }
    forall j, k | 0 <= j < k <= |log'| ensures TokenAt(origin, log', j) != TokenAt(origin, log', k) {
      SeenKept(origin, log, x, j);
      if k <= |log| {
        SeenKept(origin, log, x, k);
      }
    }
  }

  // A winning update is a rotation or re-issue of the token it saw, so its guard
  // makes it wait out the interval.
  lemma WinnerWaited(q: Request, row: Row, minted: Token)
    requires Mints(PlanOf(q)) && Written(q, row, minted).Some?
    ensures q.seen.current == row.current
    ensures q.readAt >= q.seen.rotatedAt + if PlanOf(q) == Rotate then q.c.rotation else Grace(q.c)
  {
  }

  lemma WinnerSpaced(origin: Row, s: System, id: nat, minted: Token)
    requires Inv(origin, s) && id in s.pending && s.row.Some?
    requires Mints(PlanOf(s.pending[id])) && Written(s.pending[id], s.row.value, minted).Some?
    ensures var q := s.pending[id];
            q.readAt >= s.row.value.rotatedAt + if PlanOf(q) == Rotate then q.c.rotation else Grace(q.c)
  {
    var q := s.pending[id];
    WinnerWaited(q, s.row.value, minted);
    var k :| 0 <= k <= |s.log| && q.seen.current == TokenAt(origin, s.log, k)
             && q.seen.rotatedAt == RotatedAtAfter(origin, s.log, k);
    SameTokenSamePlace(origin, s.log, k, |s.log|);
  }

  lemma SameTokenSamePlace(origin: Row, log: seq<Change>, j: nat, k: nat)
    requires Linked(origin, log) && j <= |log| && k <= |log| && TokenAt(origin, log, j) == TokenAt(origin, log, k)
    ensures j == k
  {
  }

  lemma WriteKeeps(origin: Row, s: System, id: nat, minted: Token)
    requires Inv(origin, s) && id in s.pending && minted !in s.used
    ensures Inv(origin, AfterWrite(s, id, minted))
  {
    var q, s' := s.pending[id], AfterWrite(s, id, minted);
    if s.row.Some? && Written(q, s.row.value, minted).Some? && Mints(PlanOf(q)) {
      WinnerSpaced(origin, s, id, minted);
      var x := Change(s.row.value.current, minted, q.readAt, PlanOf(q), q.c);
      LogExtends(origin, s.log, x);
      forall k | 0 <= k <= |s.log| + 1 ensures TokenAt(origin, s'.log, k) in s'.used {
        if k <= |s.log| {
          SeenKept(origin, s.log, x, k);
        }
      }
      forall i <- s'.pending
        ensures exists k :: 0 <= k <= |s'.log| && s'.pending[i].seen.current == TokenAt(origin, s'.log, k)
                            && s'.pending[i].seen.rotatedAt == RotatedAtAfter(origin, s'.log, k)
      {
        var k :| 0 <= k <= |s.log| && s.pending[i].seen.current == TokenAt(origin, s.log, k)
                 && s.pending[i].seen.rotatedAt == RotatedAtAfter(origin, s.log, k);
        SeenKept(origin, s.log, x, k);
      }
      ReturnedGrows(s.log, x);
    }
  }

  lemma ReturnedGrows(log: seq<Change>, x: Change)
    ensures (set k | 0 <= k < |log + [x]| :: (log + [x])[k].installed)
            == (set k | 0 <= k < |log| :: log[k].installed) + {x.installed}
  {
    assert forall k | 0 <= k < |log| :: (log + [x])[k] == log[k];
    assert (log + [x])[|log|] == x;
    assert (set k | 0 <= k < |log| :: (log + [x])[k].installed) == (set k | 0 <= k < |log| :: log[k].installed);
  }

  lemma StepKeeps(origin: Row, s: System, s': System)
    requires Inv(origin, s) && Step(s, s')
    ensures Inv(origin, s')
  {
    if WriteStep(s, s') {
      var id, minted :| WritesWith(s, s', id, minted);
      WriteKeeps(origin, s, id, minted);
    }
  }

  // Every interleaving yields one linear chain: consecutive, evenly spaced, never
  // repeating a token, and returned as rotated exactly when installed.
  lemma {:induction false} ChainIsLinear(run: seq<System>, n: nat)
    requires Run(run) && n < |run|
    ensures Inv(run[0].row.value, run[n])
  {
    if n > 0 {
      ChainIsLinear(run, n - 1);
      assert StepAt(run, n);
      StepKeeps(run[0].row.value, run[n - 1], run[n]);
    }
  }

  // Each session hash is replaced by at most one winner.
  lemma OneWinner(run: seq<System>, n: nat, j: nat, k: nat)
    requires Run(run) && n < |run| && j < |run[n].log| && k < |run[n].log|
    requires run[n].log[j].replaced == run[n].log[k].replaced
    ensures j == k
  {
    ChainIsLinear(run, n);
  }

  // What one step does to a live row: the hash, the previous hash and rotated_at
  // change together, with the log; otherwise prev_valid_until only shrinks.
  lemma RowStep(s: System, s': System)
    requires Step(s, s') && s.row.Some? && s'.row.Some?
    ensures var r, r' := s.row.value, s'.row.value;
            if |s'.log| == |s.log| then
              && r'.current == r.current && r'.prev == r.prev && r'.rotatedAt == r.rotatedAt
              && r'.prevValidUntil.Some? == r.prevValidUntil.Some?
              && (r.prevValidUntil.Some? ==> r'.prevValidUntil.value <= r.prevValidUntil.value)
            else
              && |s'.log| == |s.log| + 1
              && r'.prev == (if s'.log[|s.log|].plan == Rotate then Some(r.current) else r.prev)
              && r'.prevValidUntil == Some(r'.rotatedAt + Cap(s'.log[|s.log|].c))
              && r'.current == s'.log[|s.log|].installed && r'.rotatedAt == s'.log[|s.log|].at
              && r'.current in s'.returned && r'.current !in s.used
  {
    if WriteStep(s, s') {
      var id, minted :| WritesWith(s, s', id, minted);
    }
  }

  ghost function Resolving(r: Row, now: int): set<Token> {
    {r.current} + if r.prev.Some? && Matches(r, r.prev.value, now) then {r.prev.value} else {}
  }

  // At most two tokens open a session at any moment.
  lemma TwoTokens(r: Row, now: int)
    ensures forall t :: t in Resolving(r, now) <==> Matches(r, t, now)
    ensures |Resolving(r, now)| <= 2
  {
    if r.prev.Some? && Matches(r, r.prev.value, now) && r.prev.value != r.current {
      assert Resolving(r, now) == {r.current, r.prev.value};
    } else {
      assert Resolving(r, now) == {r.current};
    }
  }

  // --- Re-issue and confirmation ---------------------------------------------

  // Serially a re-issue only ever replaces an unconfirmed token; the presented one gets a
  // full cap again, and the one it replaces opens nothing any more.
  lemma SerialReissueUnconfirmed(row: Row, t: Token, minted: Token, now: int, c: Config, commits: bool)
    requires row.current != t && Serial(Some(row), t, minted, now, c, false, commits).1 == Granted(Some(minted))
    requires minted != row.current
    ensures Unconfirmed(row, now, c)
    ensures var after := Serial(Some(row), t, minted, now, c, false, commits).0;
            && after.Some? && Matches(after.value, minted, now) && Matches(after.value, t, now + Cap(c) - 1)
            && forall later :: !Matches(after.value, row.current, later)
  {
  }

  // Step n of the run writes the update of request id.
  ghost predicate Writes(run: seq<System>, n: nat, id: nat)
    requires 0 < n < |run|
  {
    exists minted: Token {:trigger WritesWith(run[n - 1], run[n], id, minted)} ::
      WritesWith(run[n - 1], run[n], id, minted)
  }

  // The update of request id would apply to the row of s.
  ghost predicate Wins(s: System, id: nat) {
    id in s.pending && s.row.Some? && Written(s.pending[id], s.row.value, 0).Some?
  }

  // Step n confirms the current token: its predecessor is put on the short grace.
  ghost predicate ConfirmsAt(run: seq<System>, n: nat)
    requires 0 < n < |run|
  {
    exists id: nat :: Writes(run, n, id) && Wins(run[n - 1], id) && PlanOf(run[n - 1].pending[id]) == Confirm
  }

  // The current token of a rotated row was presented: the one before it is off its cap.
  ghost predicate OffCap(r: Row, c: Config) {
    r.prev.Some? && r.prevValidUntil != Some(r.rotatedAt + Cap(c))
  }

  // One configuration, and clocks that agree: requests read at the times of their steps.
  ghost predicate Steady(run: seq<System>, c: Config, times: seq<int>) {
    && |times| == |run|
    && (forall n: nat, m: nat | n <= m < |run| :: times[n] <= times[m])
    && (forall n: nat | n < |run| :: ReadsBy(run[n], c, times[n]))
    && (forall n: nat | 0 < n < |run| :: NewReadsAt(run[n - 1], run[n], times[n]))
  }

  ghost predicate ReadsBy(s: System, c: Config, now: int) {
    forall id <- s.pending :: s.pending[id].c == c && s.pending[id].readAt <= now
  }

  ghost predicate NewReadsAt(s: System, s': System, now: int) {
    forall id <- s'.pending :: id !in s.pending ==> s'.pending[id].readAt == now
  }

  // The previous token is on its full cap, or within a grace of the present.
  ghost predicate CapOrGrace(row: Option<Row>, c: Config, now: int) {
    row.Some? && row.value.prev.Some? ==>
      var r := row.value;
      && r.prevValidUntil.Some?
      && (r.prevValidUntil.value == r.rotatedAt + Cap(c) || r.prevValidUntil.value <= now + Grace(c))
  }

  lemma WriteCapOrGrace(s: System, id: nat, minted: Token, c: Config, now: int)
    requires CapOrGrace(s.row, c, now) && id in s.pending && ReadsBy(s, c, now)
    ensures CapOrGrace(AfterWrite(s, id, minted).row, c, now)
  {
  }

  lemma {:induction false} RunCapOrGrace(run: seq<System>, c: Config, times: seq<int>, n: nat)
    requires Run(run) && Steady(run, c, times) && n < |run|
    ensures CapOrGrace(run[n].row, c, times[n])
  {
    if n > 0 {
      RunCapOrGrace(run, c, times, n - 1);
      assert StepAt(run, n) && times[n - 1] <= times[n];
      assert ReadsBy(run[n - 1], c, times[n - 1]);
      if WriteStep(run[n - 1], run[n]) {
        var id, minted :| WritesWith(run[n - 1], run[n], id, minted);
        WriteCapOrGrace(run[n - 1], id, minted, c, times[n - 1]);
      }
    }
  }

  // The log only grows, and a deleted row stays deleted.
  lemma {:induction false} LogGrows(run: seq<System>, m: nat, n: nat)
    requires Run(run) && m <= n < |run|
    ensures run[m].log <= run[n].log
    ensures run[n].row.Some? ==> run[m].row.Some?
  {
    if m < n {
      LogGrows(run, m, n - 1);
      assert StepAt(run, n);
      StepGrows(run[n - 1], run[n]);
    }
  }

  lemma StepGrows(s: System, s': System)
    requires Step(s, s')
    ensures s.log <= s'.log && (s'.row.Some? ==> s.row.Some?)
  {
    if WriteStep(s, s') {
      var id, minted :| WritesWith(s, s', id, minted);
    }
  }

  // While the current token is the same, nothing has been installed.
  lemma SameTokenSameLog(run: seq<System>, m: nat, n: nat)
    requires Run(run) && m <= n < |run| && run[n].row.Some?
    requires run[m].row.Some? && run[m].row.value.current == run[n].row.value.current
    ensures run[m].log == run[n].log
  {
    LogGrows(run, m, n);
    ChainIsLinear(run, m);
    ChainIsLinear(run, n);
    var origin, k := run[0].row.value, |run[m].log|;
    assert TokenAt(origin, run[n].log, k) == TokenAt(origin, run[m].log, k);
    SameTokenSamePlace(origin, run[n].log, k, |run[n].log|);
  }

  lemma ConfirmShrinks(run: seq<System>, n: nat)
    requires Run(run) && 0 < n < |run| && run[n - 1].row.Some? && run[n].row.Some?
    requires run[n].log == run[n - 1].log && run[n - 1].row.value.prevValidUntil.Some?
    ensures run[n].row.value.prevValidUntil.Some?
    ensures if ConfirmsAt(run, n)
            then run[n].row.value.prevValidUntil.value < run[n - 1].row.value.prevValidUntil.value
            else run[n].row.value.prevValidUntil == run[n - 1].row.value.prevValidUntil
  {
    assert StepAt(run, n);
    var s, s' := run[n - 1], run[n];
    RowStep(s, s');
    if s'.row.value.prevValidUntil != s.row.value.prevValidUntil {
      var id: nat, minted: Token :| WritesWith(s, s', id, minted);
      assert Writes(run, n, id) && Wins(s, id);
    }
  }

  ghost predicate ConfirmedBetween(run: seq<System>, m: nat, n: nat)
    requires n < |run|
  {
    exists k: nat :: m < k <= n && ConfirmsAt(run, k)
  }

  // With no installation in between, the previous token's time is what it was exactly
  // when nothing was confirmed; otherwise it is earlier.
  lemma {:induction false} Confirmations(run: seq<System>, m: nat, n: nat)
    requires Run(run) && m <= n < |run| && run[n].row.Some? && run[m].row.Some?
    requires run[m].row.value.current == run[n].row.value.current && run[m].row.value.prevValidUntil.Some?
    ensures run[n].row.value.prev == run[m].row.value.prev && run[n].row.value.rotatedAt == run[m].row.value.rotatedAt
    ensures run[n].row.value.prevValidUntil.Some?
    ensures if ConfirmedBetween(run, m, n)
            then run[n].row.value.prevValidUntil.value < run[m].row.value.prevValidUntil.value
            else run[n].row.value.prevValidUntil == run[m].row.value.prevValidUntil
  {
    if m < n {
      SameTokenSameLog(run, m, n);
      LogGrows(run, m, n - 1);
      LogGrows(run, n - 1, n);
      assert StepAt(run, n);
      RowStep(run[n - 1], run[n]);
      Confirmations(run, m, n - 1);
      ConfirmShrinks(run, n);
      assert ConfirmsAt(run, n) ==> ConfirmedBetween(run, m, n);
      if ConfirmedBetween(run, m, n - 1) {
        var k: nat :| m < k <= n - 1 && ConfirmsAt(run, k);
        assert ConfirmedBetween(run, m, n);
      }
    }
  }

  // Request id read the row at step m and has been pending since.
  ghost predicate PendingSince(run: seq<System>, m: nat, n: nat, id: nat)
    requires n < |run|
  {
    && 0 < m <= n && id !in run[m - 1].pending && forall k: nat | m <= k <= n :: id in run[k].pending
  }

  lemma {:induction false} PendingSame(run: seq<System>, m: nat, n: nat, id: nat)
    requires Run(run) && n < |run| && PendingSince(run, m, n, id)
    ensures run[n].pending[id] == run[m].pending[id]
    ensures run[m].row == run[m - 1].row == Some(run[m].pending[id].seen)
  {
    assert StepAt(run, m);
    if m < n {
      PendingSame(run, m, n - 1, id);
      assert StepAt(run, n);
    }
  }

  // A winning re-issue replaces a token that has been presented if and only if a request
  // confirmed that token between the re-issuing request's read and its update.
  lemma ReissueReplacesConfirmedExactly(run: seq<System>, c: Config, times: seq<int>, m: nat, n: nat, id: nat)
    requires Run(run) && Steady(run, c, times) && n < |run| && PendingSince(run, m, n, id)
    requires PlanOf(run[n].pending[id]) == Reissue && Wins(run[n], id)
    ensures OffCap(run[n].row.value, c) <==> ConfirmedBetween(run, m, n)
  {
    PendingSame(run, m, n, id);
    var q := run[n].pending[id];
    RunCapOrGrace(run, c, times, m);
    assert ReadsBy(run[m], c, times[m]) && NewReadsAt(run[m - 1], run[m], times[m]);
    ReissueSaw(q, run[n].row.value);
    assert q.seen.prevValidUntil == Some(q.seen.rotatedAt + Cap(c));
    Confirmations(run, m, n);
  }

  // A request that re-issues saw an unconfirmed token, and finds it still current.
  lemma ReissueSaw(q: Request, r: Row)
    requires PlanOf(q) == Reissue && Written(q, r, 0).Some?
    ensures r.current == q.seen.current && q.seen.prev.Some? && q.seen.prevValidUntil.Some?
    ensures q.seen.prevValidUntil.value > q.readAt + Grace(q.c)
  {
  }

  // An interleaving in which it happens: both requests read, the confirmation is written
  // first, and the request that confirmed loses its token.
  lemma ReissueMayReplaceConfirmed()
    ensures var c := Config(10 * MINUTE, MINUTE, 720 * MINUTE, 10080 * MINUTE);
            var r := Row(1, Some(0), Some(720 * MINUTE), 0, 0, 43200 * MINUTE);
            var now := 2 * MINUTE;
            var slow, quick := Request(0, r, now, c), Request(1, r, now, c);
            && PlanOf(slow) == Reissue && PlanOf(quick) == Confirm
            && Written(quick, r, 2).Some?
            && var confirmed := Written(quick, r, 2).value;
               && !Unconfirmed(confirmed, now, c)
               && Written(slow, confirmed, 2).Some?
               && !Matches(Written(slow, confirmed, 2).value, 1, now)
  {
  }
}
