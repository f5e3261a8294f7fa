/** The identities a caller answers to: who they are, and every group they belong to
    through groups of groups. */
module Directory {
  import opened Common

  // A directory object: its own id, and the ids of the groups it is a member of.
  datatype Entry = Entry(sid: string, memberOf: seq<string>)

  // The groups that members of a set belong to, as the query answers.
  function GroupsOf(rows: seq<Entry>, ids: set<string>): set<string> {
    set e, g | e in rows && e.sid in ids && g in e.memberOf :: g
  }

  ghost predicate Edge(rows: seq<Entry>, x: string, g: string) {
    exists e :: e in rows && e.sid == x && g in e.memberOf
  }

  // A chain of memberships from one identity to another.
  ghost predicate IsPath(rows: seq<Entry>, path: seq<string>) {
    path != [] && forall k: nat | 0 < k < |path| :: EdgeAt(rows, path, k)
  }

  ghost predicate EdgeAt(rows: seq<Entry>, path: seq<string>, k: nat)
    requires 0 < k < |path|
  {
    Edge(rows, path[k - 1], path[k])
  }

  // g can be reached from start over at most depth memberships.
  ghost predicate Reaches(rows: seq<Entry>, start: set<string>, depth: nat, g: string) {
    exists path :: IsPath(rows, path) && path[0] in start && path[|path| - 1] == g && |path| <= depth + 1
  }

  // Reached in any number of steps.
  ghost predicate Member(rows: seq<Entry>, start: set<string>, g: string) {
    exists path :: IsPath(rows, path) && path[0] in start && path[|path| - 1] == g
  }

  function Within(rows: seq<Entry>, start: set<string>, depth: nat): set<string> {
    if depth == 0 then start
    else Within(rows, start, depth - 1) + GroupsOf(rows, Within(rows, start, depth - 1))
  }

  method ExpandPrincipals(rows: seq<Entry>, principals: set<string>, maxDepth: int)
    returns (closure: set<string>, ghost stopped: bool)
    ensures closure == Within(rows, principals, Max(0, maxDepth))
    // stopped: the loop ran out of new identities, not of depth.
    ensures stopped ==> forall g :: Member(rows, principals, g) <==> g in closure
  {
    closure := principals;
    var frontier := principals;
    var depth := 0;
    while depth < maxDepth && frontier != {}
      invariant 0 <= depth <= Max(0, maxDepth)
      invariant closure == Within(rows, principals, depth)
      invariant frontier <= closure
      invariant GroupsOf(rows, closure - frontier) <= closure
    {
      var found := {};
      var k := 0;
      while k < |rows|
        invariant k <= |rows|
        invariant found == GroupsOf(rows[..k], frontier) - closure
      {
        GroupsNext(rows, k, frontier);
        if rows[k].sid in frontier {
          found := found + ((set g | g in rows[k].memberOf) - closure);
        }
        k := k + 1;
      }
      assert rows[..|rows|] == rows;
      NextLevel(rows, closure, frontier);
      closure, frontier := closure + found, found;
      depth := depth + 1;
    }
    stopped := frontier == {};
    if stopped {
      assert closure - frontier == closure;
      ClosedStays(rows, principals, depth, Max(0, maxDepth));
      ClosedIsAll(rows, principals, depth);
    }
  }

  lemma GroupsNext(rows: seq<Entry>, k: nat, ids: set<string>)
    requires k < |rows|
    ensures GroupsOf(rows[..k + 1], ids)
            == GroupsOf(rows[..k], ids) + if rows[k].sid in ids then (set g | g in rows[k].memberOf) else {}
  {
    assert rows[..k + 1] == rows[..k] + [rows[k]];
  }

  // Only the groups of the frontier can be new.
  lemma NextLevel(rows: seq<Entry>, closure: set<string>, frontier: set<string>)
    requires frontier <= closure && GroupsOf(rows, closure - frontier) <= closure
    ensures closure + (GroupsOf(rows, frontier) - closure) == closure + GroupsOf(rows, closure)
    ensures var found := GroupsOf(rows, frontier) - closure; GroupsOf(rows, closure + found - found) <= closure + found
  {
    forall g | g in GroupsOf(rows, closure) ensures g in closure || g in GroupsOf(rows, frontier) {
      var e :| e in rows && e.sid in closure && g in e.memberOf;
      if e.sid !in frontier {
        assert e.sid in closure - frontier;
        assert g in GroupsOf(rows, closure - frontier);
      }
    }
    var found := GroupsOf(rows, frontier) - closure;
    assert closure + found - found == closure;
  }

  // No member's groups are missing.
  ghost predicate Closed(rows: seq<Entry>, ids: set<string>) { GroupsOf(rows, ids) <= ids }

  lemma NothingNew(rows: seq<Entry>, start: set<string>, depth: nat)
    requires Closed(rows, Within(rows, start, depth))
    ensures Within(rows, start, depth + 1) == Within(rows, start, depth)
  {
  }

  lemma {:induction false} ClosedStays(rows: seq<Entry>, start: set<string>, depth: nat, more: nat)
    requires depth <= more && Closed(rows, Within(rows, start, depth))
    ensures Within(rows, start, more) == Within(rows, start, depth)
    decreases more - depth
  {
    if depth < more {
      NothingNew(rows, start, depth);
      ClosedStays(rows, start, depth + 1, more);
    }
  }

  // --- What the closure is ---------------------------------------------------

  lemma {:induction false} WithinReaches(rows: seq<Entry>, start: set<string>, depth: nat, g: string)
    requires g in Within(rows, start, depth)
    ensures Reaches(rows, start, depth, g)
  {
    if g in start {
      var path := [g];
      assert IsPath(rows, path) && path[0] in start && path[|path| - 1] == g && |path| <= depth + 1;
    } else if g in Within(rows, start, depth - 1) {
      WithinReaches(rows, start, depth - 1, g);
      var path :| IsPath(rows, path) && path[0] in start && path[|path| - 1] == g && |path| <= depth;
      assert |path| <= depth + 1;
    } else {
      var e :| e in rows && e.sid in Within(rows, start, depth - 1) && g in e.memberOf;
      WithinReaches(rows, start, depth - 1, e.sid);
      var path :| IsPath(rows, path) && path[0] in start && path[|path| - 1] == e.sid && |path| <= depth;
      var path' := path + [g];
      assert Edge(rows, e.sid, g);
      forall k: nat | 0 < k < |path'| ensures EdgeAt(rows, path', k) {
        assert k < |path| ==> EdgeAt(rows, path, k);
      }
      assert IsPath(rows, path') && path'[0] in start && path'[|path'| - 1] == g && |path'| <= depth + 1;
    }
  }

  lemma {:induction false} PathWithin(rows: seq<Entry>, start: set<string>, depth: nat, path: seq<string>)
    requires IsPath(rows, path) && path[0] in start && |path| <= depth + 1
    ensures path[|path| - 1] in Within(rows, start, depth)
  {
    if |path| == 1 {
      StartStays(rows, start, depth);
    } else {
      var front := path[..|path| - 1];
      forall k: nat | 0 < k < |front| ensures EdgeAt(rows, front, k) {
        assert EdgeAt(rows, path, k);
      }
      PathWithin(rows, start, depth - 1, front);
      assert EdgeAt(rows, path, |path| - 1);
    }
  }

  lemma {:induction false} StartStays(rows: seq<Entry>, start: set<string>, depth: nat)
    ensures start <= Within(rows, start, depth)
  {
    if depth > 0 {
      StartStays(rows, start, depth - 1);
    }
  }

  // Exactly what at most depth memberships reach, cycles or not.
  lemma WithinExactly(rows: seq<Entry>, start: set<string>, depth: nat, g: string)
    ensures g in Within(rows, start, depth) <==> Reaches(rows, start, depth, g)
  {
    if g in Within(rows, start, depth) {
      WithinReaches(rows, start, depth, g);
    }
    if path :| IsPath(rows, path) && path[0] in start && path[|path| - 1] == g && |path| <= depth + 1 {
      PathWithin(rows, start, depth, path);
    }
  }

  // The closure is complete, whatever the depth, exactly when it holds its own members'
  // groups: no identity is missing once a level adds nothing.
  lemma CompleteExactly(rows: seq<Entry>, start: set<string>, depth: nat)
    ensures Closed(rows, Within(rows, start, depth))
            <==> forall g :: Member(rows, start, g) ==> g in Within(rows, start, depth)
  {
    var closure := Within(rows, start, depth);
    if Closed(rows, closure) {
      forall g | Member(rows, start, g) ensures g in closure {
        MembersInClosed(rows, start, depth, g);
      }
    }
    if forall g :: Member(rows, start, g) ==> g in closure {
      forall g | g in GroupsOf(rows, closure) ensures g in closure {
        assert g in Within(rows, start, depth + 1);
        WithinIsMember(rows, start, depth + 1, g);
      }
    }
  }

  lemma MembersInClosed(rows: seq<Entry>, start: set<string>, depth: nat, g: string)
    requires Closed(rows, Within(rows, start, depth)) && Member(rows, start, g)
    ensures g in Within(rows, start, depth)
  {
    var path :| IsPath(rows, path) && path[0] in start && path[|path| - 1] == g;
    StartStays(rows, start, depth);
    PathInClosed(rows, Within(rows, start, depth), path);
  }

  // No path leaves a closed set.
  lemma {:induction false} PathInClosed(rows: seq<Entry>, ids: set<string>, path: seq<string>)
    requires Closed(rows, ids) && IsPath(rows, path) && path[0] in ids
    ensures path[|path| - 1] in ids
  {
    if |path| > 1 {
      var front := path[..|path| - 1];
      forall k: nat | 0 < k < |front| ensures EdgeAt(rows, front, k) {
        assert EdgeAt(rows, path, k);
      }
      PathInClosed(rows, ids, front);
      assert EdgeAt(rows, path, |path| - 1);
      assert path[|path| - 1] in GroupsOf(rows, ids);
    }
  }

  lemma WithinIsMember(rows: seq<Entry>, start: set<string>, depth: nat, g: string)
    requires g in Within(rows, start, depth)
    ensures Member(rows, start, g)
  {
    WithinReaches(rows, start, depth, g);
    var path :| IsPath(rows, path) && path[0] in start && path[|path| - 1] == g && |path| <= depth + 1;
  }

  lemma ClosedIsAll(rows: seq<Entry>, start: set<string>, depth: nat)
    requires Closed(rows, Within(rows, start, depth))
    ensures forall g :: Member(rows, start, g) <==> g in Within(rows, start, depth)
  {
    CompleteExactly(rows, start, depth);
    forall g | g in Within(rows, start, depth) ensures Member(rows, start, g) {
      WithinIsMember(rows, start, depth, g);
    }
  }

  function Sids(rows: seq<Entry>): set<string> { set e | e in rows :: e.sid }

  // Enough depth always suffices: a level that is not the last meets a directory object
  // it had not met, so there are at most as many levels as objects.
  lemma {:induction false} LevelsMeetObjects(rows: seq<Entry>, start: set<string>, depth: nat)
    ensures Closed(rows, Within(rows, start, depth))
            || |Sids(rows) * Within(rows, start, depth)| > depth
  {
    var now := Within(rows, start, depth);
    if depth == 0 {
      if !Closed(rows, now) {
        var sid := MeetsAnother(rows, {}, now);
        assert sid in Sids(rows) * now;
      }
    } else {
      var before := Within(rows, start, depth - 1);
      LevelsMeetObjects(rows, start, depth - 1);
      if Closed(rows, before) {
        assert now == before;
      } else if !Closed(rows, now) {
        var sid := MeetsAnother(rows, before, now);
        assert sid in Sids(rows) * now && sid !in Sids(rows) * before;
        SubsetCount(Sids(rows) * before, Sids(rows) * now);
      }
    }
  }

  // Whoever brings in a group not in now is an object that before lacked.
  lemma MeetsAnother(rows: seq<Entry>, before: set<string>, now: set<string>) returns (sid: string)
    requires GroupsOf(rows, before) <= now && !Closed(rows, now)
    ensures sid in Sids(rows) && sid in now && sid !in before
  {
    var g :| g in GroupsOf(rows, now) && g !in now;
    var e :| e in rows && e.sid in now && g in e.memberOf;
    sid := e.sid;
  }

  lemma EnoughDepth(rows: seq<Entry>, start: set<string>, depth: nat)
    requires depth >= |Sids(rows)|
    ensures forall g :: g in Within(rows, start, depth) <==> Member(rows, start, g)
  {
    LevelsMeetObjects(rows, start, depth);
    SubsetCount(Sids(rows) * Within(rows, start, depth), Sids(rows));
    ClosedIsAll(rows, start, depth);
  }
}
