/** Disk rows: many watch roles may sit on one filesystem. Two passes collapse them to
    one row per physical device. */
module DiskGuard {
  import opened Common
  import opened Sorting

  datatype Severity = OK | Warn | Critical

  function Rank(s: Severity): nat { if s == OK then 0 else if s == Warn then 1 else 2 }

  function MoreSevere(a: Severity, b: Severity): Severity { if Rank(a) >= Rank(b) then a else b }

  // role is the label, if there is one; dev and fsid are 0 when unknown.
  datatype Disk = Disk(role: Option<string>, path: string, dev: int, fsid: int, total: int, free: int, used: int,
                       pctFree: real, status: Severity, reason: string, isPg: bool)

  function LabelOf(d: Disk): string { if d.role.Some? then d.role.value else d.path }

  datatype Key = Dev(dev: int) | Path(path: string)

  datatype Signature = Fsid(fsid: int) | Geometry(total: int, free: int, used: int)

  const ALIAS_MIN_TOTAL := 10 * 1024 * 1024 * 1024

  function KeyOf(d: Disk): Key { if d.dev != 0 then Dev(d.dev) else Path(d.path) }

  // Of the first member of a group: what proves two groups are one filesystem.
  function AliasOf(first: Disk): Option<Signature> {
    if first.fsid != 0 then Some(Fsid(first.fsid))
    else if first.dev != 0 && first.total >= ALIAS_MIN_TOTAL then Some(Geometry(first.total, first.free, first.used))
    else None
  }

  // --- The grouping, said without the algorithm ------------------------------

  // The first status with the key of status i.
  ghost predicate IsFirst(ds: seq<Disk>, i: nat, f: nat) {
    f <= i < |ds| && KeyOf(ds[f]) == KeyOf(ds[i]) && forall j | 0 <= j < f :: KeyOf(ds[j]) != KeyOf(ds[i])
  }

  ghost function FirstOf(ds: seq<Disk>, i: nat): (f: nat)
    requires i < |ds|
    ensures IsFirst(ds, i, f)
  {
    LeastFirst(ds, i, i)
  }

  ghost function LeastFirst(ds: seq<Disk>, i: nat, n: nat): (f: nat)
    requires n <= i < |ds| && KeyOf(ds[n]) == KeyOf(ds[i])
    ensures IsFirst(ds, i, f)
  {
    if j :| 0 <= j < n && KeyOf(ds[j]) == KeyOf(ds[i]) then LeastFirst(ds, i, j) else n
  }

  ghost predicate SameDevice(ds: seq<Disk>, i: nat, j: nat)
    requires i < |ds| && j < |ds|
  {
    var a, b := AliasOf(ds[FirstOf(ds, i)]), AliasOf(ds[FirstOf(ds, j)]);
    KeyOf(ds[i]) == KeyOf(ds[j]) || (a.Some? && a == b)
  }

  // On one device: the same device number, or with neither known the same path.
  ghost predicate SameKey(a: Disk, b: Disk) { a.dev == b.dev && (a.dev == 0 ==> a.path == b.path) }

  // One filesystem under two device numbers: the same known fsid; or, with no fsid, known
  // devices of at least 10 GiB and byte-identical geometry.
  ghost predicate SameFilesystem(a: Disk, b: Disk) {
    || (a.fsid != 0 && a.fsid == b.fsid)
    || (a.fsid == 0 && b.fsid == 0 && a.dev != 0 && b.dev != 0 && a.total >= 10737418240
        && a.total == b.total && a.free == b.free && a.used == b.used)
  }

  // Two statuses share a row exactly when they are on one device, or the first statuses of
  // their devices are of one filesystem.
  lemma SameDeviceMeans(ds: seq<Disk>, i: nat, j: nat)
    requires i < |ds| && j < |ds|
    ensures SameDevice(ds, i, j)
            <==> SameKey(ds[i], ds[j]) || SameFilesystem(ds[FirstOf(ds, i)], ds[FirstOf(ds, j)])
    ensures SameKey(ds[FirstOf(ds, i)], ds[i]) && forall k | 0 <= k < FirstOf(ds, i) :: !SameKey(ds[k], ds[i])
  {
  }

  ghost predicate InSomeRow(rows: seq<seq<nat>>, i: nat) {
    exists r :: 0 <= r < |rows| && i in rows[r]
  }

  // Rows of indices that partition the statuses, one row per device.
  ghost predicate OneRowPerDevice(ds: seq<Disk>, rows: seq<seq<nat>>) {
    && (forall r | 0 <= r < |rows| :: Indices(ds, rows[r]))
    && (forall i: nat | i < |ds| :: InSomeRow(rows, i))
    && (forall r, i: nat, j: nat | 0 <= r < |rows| && i < |ds| && j < |ds| && i in rows[r] ::
          j in rows[r] <==> SameDevice(ds, i, j))
    && (forall r, s, i: nat | 0 <= r < |rows| && 0 <= s < |rows| && i in rows[r] && i in rows[s] :: r == s)
  }

  // No status is repeated in a row; rows come in first-seen order, each led by its
  // first-seen member.
  ghost predicate FirstSeenOrder(rows: seq<seq<nat>>) {
    && (forall r | 0 <= r < |rows| :: rows[r] != [])
    && (forall r | 0 <= r < |rows| :: NoDuplicates(rows[r]))
    && (forall r, i: nat | 0 <= r < |rows| && i in rows[r] :: rows[r][0] <= i)
    && (forall r, s | 0 <= r < s < |rows| :: rows[r][0] < rows[s][0])
  }

  // --- Pass 1: groups by device or path --------------------------------------

  // The statuses among the first n that have a key, in order.
  ghost function Members(ds: seq<Disk>, n: nat, k: Key): seq<nat>
    requires n <= |ds|
  {
    if n == 0 then [] else Members(ds, n - 1, k) + if KeyOf(ds[n - 1]) == k then [n - 1] else []
  }

  // The distinct keys of the first n statuses, first seen first.
  ghost function FirstKeys(ds: seq<Disk>, n: nat): seq<Key>
    requires n <= |ds|
  {
    if n == 0 then []
    else
      var f := FirstKeys(ds, n - 1);
      if KeyOf(ds[n - 1]) in f then f else f + [KeyOf(ds[n - 1])]
  }

  method GroupByKey(ds: seq<Disk>) returns (order: seq<Key>, groups: map<Key, seq<nat>>)
    ensures Ordered(ds, order)
    ensures forall k :: k in groups <==> k in order
    ensures forall k <- groups :: groups[k] == Group(ds, k)
  {
    order, groups := [], map[];
    for i := 0 to |ds|
      invariant Grouped(ds, i, order, groups)
    {
      GroupStep(ds, i, order, groups);
      var key := KeyOf(ds[i]);
      if key !in groups {
        groups := groups[key := []];
        order := order + [key];
      }
      groups := groups[key := groups[key] + [i]];
    }
    OrderIsOrdered(ds);
  }

  // The groups of the first n statuses.
  ghost predicate Grouped(ds: seq<Disk>, n: nat, order: seq<Key>, groups: map<Key, seq<nat>>)
    requires n <= |ds|
  {
    && order == FirstKeys(ds, n) && (forall k :: k in groups <==> k in order)
    && (forall k <- groups :: groups[k] == Members(ds, n, k))
  }

  lemma GroupStep(ds: seq<Disk>, n: nat, order: seq<Key>, groups: map<Key, seq<nat>>)
    requires n < |ds| && Grouped(ds, n, order, groups)
    ensures var key := KeyOf(ds[n]);
            if key in groups then Grouped(ds, n + 1, order, groups[key := groups[key] + [n]])
            else Grouped(ds, n + 1, order + [key], groups[key := []][key := [] + [n]])
  {
    KeysSeen(ds, n);
  }

  lemma {:induction false} MembersAre(ds: seq<Disk>, n: nat, k: Key)
    requires n <= |ds|
    ensures forall i: nat :: i in Members(ds, n, k) <==> i < n && KeyOf(ds[i]) == k
    ensures forall a, b | 0 <= a < b < |Members(ds, n, k)| :: Members(ds, n, k)[a] < Members(ds, n, k)[b]
  {
    if n > 0 {
      MembersAre(ds, n - 1, k);
      var m := Members(ds, n - 1, k);
      forall a | 0 <= a < |m| ensures m[a] < n - 1 {
        assert m[a] in m;
      }
    }
  }

  lemma {:induction false} KeysSeen(ds: seq<Disk>, n: nat)
    requires n <= |ds|
    ensures forall k :: k in FirstKeys(ds, n) <==> Members(ds, n, k) != []
  {
    if n > 0 {
      KeysSeen(ds, n - 1);
    }
  }

  // The group of a key, and its first-seen member.
  ghost function Group(ds: seq<Disk>, k: Key): seq<nat> { Members(ds, |ds|, k) }

  ghost predicate Present(ds: seq<Disk>, k: Key) { exists i :: 0 <= i < |ds| && KeyOf(ds[i]) == k }

  lemma GroupOf(ds: seq<Disk>, k: Key)
    ensures Present(ds, k) <==> Group(ds, k) != []
    ensures forall i: nat :: i in Group(ds, k) <==> i < |ds| && KeyOf(ds[i]) == k
    ensures Group(ds, k) != [] ==> Group(ds, k)[0] < |ds| && KeyOf(ds[Group(ds, k)[0]]) == k
    ensures forall i <- Group(ds, k) :: Group(ds, k)[0] <= i
    ensures forall a, b | 0 <= a < b < |Group(ds, k)| :: Group(ds, k)[a] != Group(ds, k)[b]
  {
    MembersAre(ds, |ds|, k);
    if i :| 0 <= i < |ds| && KeyOf(ds[i]) == k {
      var n: nat := i;
      assert n in Group(ds, k);
    }
    if Group(ds, k) != [] {
      assert Group(ds, k)[0] in Group(ds, k);
    }
    forall i <- Group(ds, k) ensures Group(ds, k)[0] <= i {
      var a :| 0 <= a < |Group(ds, k)| && Group(ds, k)[a] == i;
    }
  }

  // Distinct keys of present groups, in first-seen order of their leaders.
  ghost predicate Ordered(ds: seq<Disk>, order: seq<Key>) {
    && (forall k :: k in order <==> Present(ds, k))
    && (forall a | 0 <= a < |order| :: Group(ds, order[a]) != [] && Group(ds, order[a])[0] < |ds|)
    && (forall a, b | 0 <= a < b < |order| :: order[a] != order[b] && Group(ds, order[a])[0] < Group(ds, order[b])[0])
  }

  lemma LeaderKept(ds: seq<Disk>, n: nat, k: Key)
    requires 0 < n <= |ds| && Members(ds, n - 1, k) != []
    ensures Members(ds, n, k) != [] && Members(ds, n, k)[0] == Members(ds, n - 1, k)[0] < n - 1
  {
    MembersAre(ds, n - 1, k);
    assert Members(ds, n - 1, k)[0] in Members(ds, n - 1, k);
  }

  ghost predicate LeadersAscend(ds: seq<Disk>, n: nat, f: seq<Key>)
    requires n <= |ds|
  {
    && (forall a | 0 <= a < |f| :: Members(ds, n, f[a]) != [])
    && (forall a, b | 0 <= a < b < |f| :: f[a] != f[b] && Members(ds, n, f[a])[0] < Members(ds, n, f[b])[0])
  }

  lemma {:induction false} KeysOrdered(ds: seq<Disk>, n: nat)
    requires n <= |ds|
    ensures LeadersAscend(ds, n, FirstKeys(ds, n))
  {
    if n > 0 {
      KeysOrdered(ds, n - 1);
      LeadersKept(ds, n, FirstKeys(ds, n - 1));
      if KeyOf(ds[n - 1]) !in FirstKeys(ds, n - 1) {
        NewLeader(ds, n, FirstKeys(ds, n - 1));
      }
    }
  }

  lemma LeadersKept(ds: seq<Disk>, n: nat, f: seq<Key>)
    requires 0 < n <= |ds| && LeadersAscend(ds, n - 1, f)
    ensures LeadersAscend(ds, n, f) && forall a | 0 <= a < |f| :: Members(ds, n, f[a])[0] < n - 1
  {
    forall a | 0 <= a < |f|
      ensures Members(ds, n, f[a]) != [] && Members(ds, n, f[a])[0] == Members(ds, n - 1, f[a])[0] < n - 1
    {
      LeaderKept(ds, n, f[a]);
    }
  }

  lemma NewLeader(ds: seq<Disk>, n: nat, f: seq<Key>)
    requires 0 < n <= |ds| && LeadersAscend(ds, n, f) && f == FirstKeys(ds, n - 1) && KeyOf(ds[n - 1]) !in f
    requires forall a | 0 <= a < |f| :: Members(ds, n, f[a])[0] < n - 1
    ensures LeadersAscend(ds, n, f + [KeyOf(ds[n - 1])])
  {
    KeysSeen(ds, n - 1);
    assert Members(ds, n, KeyOf(ds[n - 1])) == [n - 1];
  }

  lemma OrderIsOrdered(ds: seq<Disk>)
    ensures Ordered(ds, FirstKeys(ds, |ds|))
  {
    KeysSeen(ds, |ds|);
    KeysOrdered(ds, |ds|);
    forall k ensures k in FirstKeys(ds, |ds|) <==> Present(ds, k) {
      GroupOf(ds, k);
    }
    forall a | 0 <= a < |FirstKeys(ds, |ds|)| ensures Group(ds, FirstKeys(ds, |ds|)[a])[0] < |ds| {
      GroupOf(ds, FirstKeys(ds, |ds|)[a]);
    }
  }

  // --- Pass 2: aliases of one filesystem -------------------------------------

  ghost function AliasAt(ds: seq<Disk>, order: seq<Key>, a: nat): Option<Signature>
    requires Ordered(ds, order) && a < |order|
  {
    AliasOf(ds[Group(ds, order[a])[0]])
  }

  // The first group with a signature; |order| if there is none.
  ghost function FirstAlias(ds: seq<Disk>, order: seq<Key>, s: Signature, a: nat): (f: nat)
    requires Ordered(ds, order) && a <= |order|
    ensures a <= f <= |order|
    ensures f < |order| ==> AliasAt(ds, order, f) == Some(s)
    ensures forall b | a <= b < f :: AliasAt(ds, order, b) != Some(s)
    decreases |order| - a
  {
    if a == |order| || AliasAt(ds, order, a) == Some(s) then a else FirstAlias(ds, order, s, a + 1)
  }

  // The group whose row a group joins.
  ghost function Owner(ds: seq<Disk>, order: seq<Key>, a: nat): (o: nat)
    requires Ordered(ds, order) && a < |order|
    ensures o <= a
    ensures o == a || (AliasAt(ds, order, o).Some? && AliasAt(ds, order, o) == AliasAt(ds, order, a))
  {
    match AliasAt(ds, order, a)
    case None => a
    case Some(s) => FirstAlias(ds, order, s, 0)
  }

  // The groups among the first n that own a row, and the row of one of them.
  ghost function Owners(ds: seq<Disk>, order: seq<Key>, n: nat): seq<nat>
    requires Ordered(ds, order) && n <= |order|
  {
    if n == 0 then [] else Owners(ds, order, n - 1) + if Owner(ds, order, n - 1) == n - 1 then [n - 1] else []
  }

  ghost function RowOf(ds: seq<Disk>, order: seq<Key>, n: nat, t: nat): seq<nat>
    requires Ordered(ds, order) && n <= |order|
  {
    if n == 0 then []
    else RowOf(ds, order, n - 1, t) + if Owner(ds, order, n - 1) == t then Group(ds, order[n - 1]) else []
  }

  ghost function OwnerKeys(ds: seq<Disk>, order: seq<Key>, n: nat): seq<Key>
    requires Ordered(ds, order) && n <= |order|
  {
    if n == 0 then [] else OwnerKeys(ds, order, n - 1) + if Owner(ds, order, n - 1) == n - 1 then [order[n - 1]] else []
  }

  // Owns is Owner's fixed points, kept apart so that proofs need not unfold it.
  ghost predicate Owns(ds: seq<Disk>, order: seq<Key>, t: nat)
    requires Ordered(ds, order) && t < |order|
  {
    Owner(ds, order, t) == t
  }

  // merged holds the rows of the first n groups.
  ghost predicate Merged(ds: seq<Disk>, order: seq<Key>, n: nat, merged: map<Key, seq<nat>>)
    requires Ordered(ds, order) && n <= |order|
  {
    forall t: nat | t < n && Owns(ds, order, t) :: order[t] in merged && merged[order[t]] == RowOf(ds, order, n, t)
  }

  // The signatures owned by one of the first n groups.
  ghost predicate SigsOwned(ds: seq<Disk>, order: seq<Key>, n: nat, sigOwner: map<Signature, Key>)
    requires Ordered(ds, order) && n <= |order|
  {
    && (forall s :: s in sigOwner <==> FirstAlias(ds, order, s, 0) < n)
    && (forall s <- sigOwner :: sigOwner[s] == order[FirstAlias(ds, order, s, 0)])
  }

  method MergeAliases(ds: seq<Disk>, order: seq<Key>, groups: map<Key, seq<nat>>)
    returns (rowKeys: seq<Key>, merged: map<Key, seq<nat>>)
    requires Ordered(ds, order)
    requires forall k <- order :: k in groups && groups[k] == Group(ds, k)
    ensures rowKeys == OwnerKeys(ds, order, |order|) && Merged(ds, order, |order|, merged)
  {
    rowKeys, merged := [], map[];
    var sigOwner: map<Signature, Key> := map[];
    for n := 0 to |order|
      invariant MergedTo(ds, order, n, rowKeys, merged, sigOwner)
    {
      MergeStep(ds, order, n, rowKeys, merged, sigOwner);
      var key := order[n];
      var sig := AliasOf(ds[groups[key][0]]);
      if sig.Some? && sig.value in sigOwner {
        var target := sigOwner[sig.value];
        merged := merged[target := merged[target] + groups[key]];
      } else {
        if sig.Some? {
          sigOwner := sigOwner[sig.value := key];
        }
        merged := merged[key := groups[key]];
        rowKeys := rowKeys + [key];
      }
    }
  }

  ghost predicate MergedTo(ds: seq<Disk>, order: seq<Key>, n: nat, rowKeys: seq<Key>, merged: map<Key, seq<nat>>,
                           sigOwner: map<Signature, Key>)
    requires Ordered(ds, order) && n <= |order|
  {
    rowKeys == OwnerKeys(ds, order, n) && Merged(ds, order, n, merged) && SigsOwned(ds, order, n, sigOwner)
  }

  lemma MergeStep(ds: seq<Disk>, order: seq<Key>, n: nat, rowKeys: seq<Key>, merged: map<Key, seq<nat>>,
                  sigOwner: map<Signature, Key>)
    requires Ordered(ds, order) && n < |order| && MergedTo(ds, order, n, rowKeys, merged, sigOwner)
    ensures var group, sig := Group(ds, order[n]), AliasAt(ds, order, n);
            if sig.Some? && sig.value in sigOwner then
              var target := sigOwner[sig.value];
              target in merged &&
              MergedTo(ds, order, n + 1, rowKeys, merged[target := merged[target] + group], sigOwner)
            else
              MergedTo(ds, order, n + 1, rowKeys + [order[n]], merged[order[n] := group],
                       if sig.Some? then sigOwner[sig.value := order[n]] else sigOwner)
  {
    OwnerBySig(ds, order, n, sigOwner);
    if Owner(ds, order, n) < n {
      JoinStep(ds, order, n, merged);
    } else {
      NewRowStep(ds, order, n, merged);
    }
  }

  // The signature table finds the owner of the next group, and stays exact.
  lemma OwnerBySig(ds: seq<Disk>, order: seq<Key>, n: nat, sigOwner: map<Signature, Key>)
    requires Ordered(ds, order) && n < |order| && SigsOwned(ds, order, n, sigOwner)
    ensures var sig := AliasAt(ds, order, n);
            if sig.Some? && sig.value in sigOwner
            then Owner(ds, order, n) < n && sigOwner[sig.value] == order[Owner(ds, order, n)]
                 && SigsOwned(ds, order, n + 1, sigOwner)
            else Owner(ds, order, n) == n
                 && SigsOwned(ds, order, n + 1, if sig.Some? then sigOwner[sig.value := order[n]] else sigOwner)
  {
    forall s | FirstAlias(ds, order, s, 0) == n ensures AliasAt(ds, order, n) == Some(s) {
    }
  }

  lemma JoinStep(ds: seq<Disk>, order: seq<Key>, n: nat, merged: map<Key, seq<nat>>)
    requires Ordered(ds, order) && n < |order| && Merged(ds, order, n, merged) && Owner(ds, order, n) < n
    ensures var target := order[Owner(ds, order, n)];
            target in merged && Merged(ds, order, n + 1, merged[target := merged[target] + Group(ds, order[n])])
  {
    var o := Owner(ds, order, n);
    OwnerOwnsItself(ds, order, n);
    assert Owns(ds, order, o);
    var merged' := merged[order[o] := merged[order[o]] + Group(ds, order[n])];
    forall t: nat | t < n + 1 && Owns(ds, order, t)
      ensures order[t] in merged' && merged'[order[t]] == RowOf(ds, order, n + 1, t)
    {
      if t != o {
        OtherRow(ds, order, n, t);
        assert order[t] != order[o];
      }
    }
  }

  lemma OtherRow(ds: seq<Disk>, order: seq<Key>, n: nat, t: nat)
    requires Ordered(ds, order) && n < |order| && Owner(ds, order, n) != t
    ensures RowOf(ds, order, n + 1, t) == RowOf(ds, order, n, t)
  {
  }

  lemma NewRowStep(ds: seq<Disk>, order: seq<Key>, n: nat, merged: map<Key, seq<nat>>)
    requires Ordered(ds, order) && n < |order| && Merged(ds, order, n, merged) && Owner(ds, order, n) == n
    ensures Merged(ds, order, n + 1, merged[order[n] := Group(ds, order[n])])
  {
    var merged' := merged[order[n] := Group(ds, order[n])];
    forall t: nat | t < n + 1 && Owns(ds, order, t)
      ensures order[t] in merged' && merged'[order[t]] == RowOf(ds, order, n + 1, t)
    {
      if t == n {
        EmptyRowBefore(ds, order, n, n);
      } else {
        OtherRow(ds, order, n, t);
        assert order[t] != order[n];
      }
    }
  }

  lemma OwnerOwnsItself(ds: seq<Disk>, order: seq<Key>, a: nat)
    requires Ordered(ds, order) && a < |order|
    ensures Owner(ds, order, Owner(ds, order, a)) == Owner(ds, order, a)
  {
  }

  lemma {:induction false} EmptyRowBefore(ds: seq<Disk>, order: seq<Key>, n: nat, t: nat)
    requires Ordered(ds, order) && n <= t && n <= |order|
    ensures RowOf(ds, order, n, t) == []
  {
    if n > 0 {
      EmptyRowBefore(ds, order, n - 1, t);
    }
  }

  // --- The rows --------------------------------------------------------------

  datatype Row = Row(members: seq<nat>, roles: string, path: string, total: int, free: int, used: int,
                     pctFree: real, status: Severity, reason: string, isPg: bool, dev: int)

  // ", ".join of the labels of the members.
  function Joined(ds: seq<Disk>, members: seq<nat>): string
    requires Indices(ds, members)
  {
    if members == [] then ""
    else
      var n := |members| - 1;
      Joined(ds, members[..n]) + (if n == 0 then "" else ", ") + LabelOf(ds[members[n]])
  }

  ghost predicate Indices(ds: seq<Disk>, members: seq<nat>) {
    forall a | 0 <= a < |members| :: members[a] < |ds|
  }

  lemma JoinedNext(ds: seq<Disk>, members: seq<nat>, n: nat)
    requires Indices(ds, members) && n < |members|
    ensures Joined(ds, members[..n + 1])
            == Joined(ds, members[..n]) + (if n == 0 then "" else ", ") + LabelOf(ds[members[n]])
  {
    assert members[..n + 1][..n] == members[..n];
  }

  // The worst status of a row, and the reason of the first member that has it.
  ghost predicate WorstOf(ds: seq<Disk>, members: seq<nat>, status: Severity, reason: string)
    requires Indices(ds, members)
  {
    && (forall a | 0 <= a < |members| :: Rank(ds[members[a]].status) <= Rank(status))
    && exists a :: 0 <= a < |members| && ds[members[a]].status == status && ds[members[a]].reason == reason
                   && forall b | 0 <= b < a :: ds[members[b]].status != status
  }

  method Worst(ds: seq<Disk>, members: seq<nat>) returns (status: Severity, reason: string)
    requires members != [] && Indices(ds, members)
    ensures WorstOf(ds, members, status, reason)
  {
    status := OK;
    var worst := 0;
    for n := 0 to |members|
      invariant worst <= n && worst < |members|
      invariant forall b | 0 <= b < n :: Rank(ds[members[b]].status) <= Rank(status)
      invariant forall b | 0 <= b < worst :: ds[members[b]].status != status
      invariant if worst < n then ds[members[worst]].status == status else status == OK && n == 0
    {
      var s := ds[members[n]].status;
      if MoreSevere(s, status) == s && s != status {
        worst := n;
      }
      status := MoreSevere(status, s);
    }
    reason := ds[members[worst]].reason;
  }

  ghost predicate IsRow(ds: seq<Disk>, members: seq<nat>, row: Row)
    requires members != [] && Indices(ds, members)
  {
    var first := ds[members[0]];
    && row.members == members && row.roles == Joined(ds, members) && row.pctFree == first.pctFree
    && row.path == first.path && row.total == first.total && row.free == first.free && row.used == first.used
    && row.dev == first.dev && WorstOf(ds, members, row.status, row.reason)
    && (row.isPg <==> exists a :: 0 <= a < |members| && ds[members[a]].isPg)
  }

  method Summarise(ds: seq<Disk>, members: seq<nat>) returns (row: Row)
    requires members != [] && Indices(ds, members)
    ensures IsRow(ds, members, row)
  {
    var status, reason := Worst(ds, members);
    var isPg, roles := false, "";
    for a := 0 to |members|
      invariant isPg <==> exists b :: 0 <= b < a && ds[members[b]].isPg
      invariant roles == Joined(ds, members[..a])
    {
      JoinedNext(ds, members, a);
      roles := roles + (if a == 0 then "" else ", ") + LabelOf(ds[members[a]]);
      isPg := isPg || ds[members[a]].isPg;
    }
    var first := ds[members[0]];
    assert members[..|members|] == members;
    row := Row(members, roles, first.path, first.total, first.free, first.used, first.pctFree, status, reason, isPg,
               first.dev);
  }

  // Every status lands in exactly one row; two share a row exactly when their keys, or
  // their groups' alias signatures, agree.
  method DedupeByDevice(ds: seq<Disk>) returns (out: seq<Row>)
    ensures Summarised(ds, MembersOf(out), out)
    ensures OneRowPerDevice(ds, MembersOf(out)) && FirstSeenOrder(MembersOf(out))
  {
    var order, groups := GroupByKey(ds);
    var rowKeys, merged := MergeAliases(ds, order, groups);
    MergedHoldsRows(ds, order, rowKeys, merged);
    out := SummariseAll(ds, rowKeys, merged, Rows(ds, order));
    RowsPartition(ds, order);
    SummarisedMembers(ds, Rows(ds, order), out);
  }

  ghost predicate Holds(ds: seq<Disk>, rowKeys: seq<Key>, merged: map<Key, seq<nat>>, rows: seq<seq<nat>>) {
    && |rowKeys| == |rows|
    && forall r | 0 <= r < |rows| :: rowKeys[r] in merged && merged[rowKeys[r]] == rows[r] != [] && Indices(ds, rows[r])
  }

  method SummariseAll(ds: seq<Disk>, rowKeys: seq<Key>, merged: map<Key, seq<nat>>, ghost rows: seq<seq<nat>>)
    returns (out: seq<Row>)
    requires Holds(ds, rowKeys, merged, rows)
    ensures Summarised(ds, rows, out)
  {
    out := [];
    for n := 0 to |rowKeys|
      invariant Summarised(ds, rows[..n], out)
    {
      var members := merged[rowKeys[n]];
      var row := Summarise(ds, members);
      assert rows[..n + 1] == rows[..n] + [members];
      SummarisedNext(ds, rows[..n], out, members, row);
      out := out + [row];
    }
    assert rows[..|rowKeys|] == rows;
  }

  ghost predicate Summarised(ds: seq<Disk>, rows: seq<seq<nat>>, out: seq<Row>) {
    && |out| == |rows|
    && forall r | 0 <= r < |out| :: rows[r] != [] && Indices(ds, rows[r]) && IsRow(ds, rows[r], out[r])
  }

  lemma SummarisedNext(ds: seq<Disk>, rows: seq<seq<nat>>, out: seq<Row>, members: seq<nat>, row: Row)
    requires Summarised(ds, rows, out)
    requires members != [] && Indices(ds, members) && IsRow(ds, members, row)
    ensures Summarised(ds, rows + [members], out + [row])
  {
  }

  lemma SummarisedMembers(ds: seq<Disk>, rows: seq<seq<nat>>, out: seq<Row>)
    requires Summarised(ds, rows, out)
    ensures MembersOf(out) == rows
  {
    forall r | 0 <= r < |out| ensures out[r].members == rows[r] {
      assert IsRow(ds, rows[r], out[r]);
    }
  }

  lemma {:induction false} OwnerKeysAre(ds: seq<Disk>, order: seq<Key>, n: nat)
    requires Ordered(ds, order) && n <= |order|
    ensures |OwnerKeys(ds, order, n)| == |Owners(ds, order, n)|
    ensures forall r | 0 <= r < |Owners(ds, order, n)| ::
              Owners(ds, order, n)[r] < |order| && OwnerKeys(ds, order, n)[r] == order[Owners(ds, order, n)[r]]
  {
    if n > 0 {
      OwnerKeysAre(ds, order, n - 1);
    }
  }

  lemma MergedHoldsRows(ds: seq<Disk>, order: seq<Key>, rowKeys: seq<Key>, merged: map<Key, seq<nat>>)
    requires Ordered(ds, order) && rowKeys == OwnerKeys(ds, order, |order|) && Merged(ds, order, |order|, merged)
    ensures Holds(ds, rowKeys, merged, Rows(ds, order))
  {
    var owners := Owners(ds, order, |order|);
    OwnersAre(ds, order, |order|);
    OwnerKeysAre(ds, order, |order|);
    RowsPartition(ds, order);
    forall r | 0 <= r < |rowKeys| ensures rowKeys[r] in merged && merged[rowKeys[r]] == Rows(ds, order)[r] {
      assert Owns(ds, order, owners[r]);
    }
  }

  ghost function MembersOf(out: seq<Row>): seq<seq<nat>> { seq(|out|, r requires 0 <= r < |out| => out[r].members) }

  ghost function Rows(ds: seq<Disk>, order: seq<Key>): seq<seq<nat>>
    requires Ordered(ds, order)
  {
    var owners := Owners(ds, order, |order|);
    seq(|owners|, r requires 0 <= r < |owners| => RowOf(ds, order, |order|, owners[r]))
  }

  lemma OwnersAre(ds: seq<Disk>, order: seq<Key>, n: nat)
    requires Ordered(ds, order) && n <= |order|
    ensures forall t: nat :: t in Owners(ds, order, n) <==> t < n && Owner(ds, order, t) == t
    ensures Ascending(Owners(ds, order, n), n)
  {
    OwnersAscend(ds, order, n);
    forall t: nat ensures t in Owners(ds, order, n) <==> t < n && Owner(ds, order, t) == t {
      OwnersHold(ds, order, n, t);
    }
  }

  lemma {:induction false} OwnersAscend(ds: seq<Disk>, order: seq<Key>, n: nat)
    requires Ordered(ds, order) && n <= |order|
    ensures Ascending(Owners(ds, order, n), n)
  {
    if n > 0 {
      OwnersAscend(ds, order, n - 1);
      AscendingNext(Owners(ds, order, n - 1), n - 1);
    }
  }

  lemma {:induction false} OwnersHold(ds: seq<Disk>, order: seq<Key>, n: nat, t: nat)
    requires Ordered(ds, order) && n <= |order|
    ensures t in Owners(ds, order, n) <==> t < n && Owner(ds, order, t) == t
  {
    if n > 0 {
      OwnersHold(ds, order, n - 1, t);
    }
  }

  ghost predicate Ascending(s: seq<nat>, n: nat) {
    && (forall r | 0 <= r < |s| :: s[r] < n)
    && (forall r, q | 0 <= r < q < |s| :: s[r] < s[q])
  }

  lemma AscendingNext(s: seq<nat>, n: nat)
    requires Ascending(s, n)
    ensures Ascending(s, n + 1) && Ascending(s + [n], n + 1)
  {
  }

  // Where the group of a status stands.
  lemma PositionOf(ds: seq<Disk>, order: seq<Key>, i: nat) returns (a: nat)
    requires Ordered(ds, order) && i < |ds|
    ensures a < |order| && order[a] == KeyOf(ds[i]) && Group(ds, order[a])[0] == FirstOf(ds, i)
  {
    assert Present(ds, KeyOf(ds[i]));
    a :| 0 <= a < |order| && order[a] == KeyOf(ds[i]);
    GroupOf(ds, order[a]);
    assert FirstOf(ds, i) in Group(ds, order[a]);
  }

  lemma {:induction false} RowMembers(ds: seq<Disk>, order: seq<Key>, n: nat, t: nat)
    requires Ordered(ds, order) && n <= |order|
    ensures forall i: nat ::
              i in RowOf(ds, order, n, t)
              <==> exists a :: 0 <= a < n && Owner(ds, order, a) == t && i in Group(ds, order[a])
  {
    if n > 0 {
      RowMembers(ds, order, n - 1, t);
    }
  }

  lemma RowDisjoint(ds: seq<Disk>, order: seq<Key>, n: nat, t: nat)
    requires Ordered(ds, order) && n < |order|
    ensures forall i: nat :: !(i in RowOf(ds, order, n, t) && i in Group(ds, order[n]))
  {
    RowMembers(ds, order, n, t);
    forall i: nat | i in RowOf(ds, order, n, t) && i in Group(ds, order[n]) ensures false {
      var a :| 0 <= a < n && Owner(ds, order, a) == t && i in Group(ds, order[a]);
      GroupOf(ds, order[a]);
      GroupOf(ds, order[n]);
    }
  }

  lemma ConcatDistinct(s: seq<nat>, t: seq<nat>)
    requires NoDuplicates(s) && NoDuplicates(t) && forall i: nat :: !(i in s && i in t)
    ensures NoDuplicates(s + t)
  {
    forall a, b | 0 <= a < |s| && 0 <= b < |t| ensures s[a] != t[b] {
      assert s[a] in s && t[b] in t;
    }
  }

  lemma {:induction false} RowDistinct(ds: seq<Disk>, order: seq<Key>, n: nat, t: nat)
    requires Ordered(ds, order) && n <= |order|
    ensures NoDuplicates(RowOf(ds, order, n, t))
  {
    if n > 0 {
      GroupOf(ds, order[n - 1]);
      RowDistinct(ds, order, n - 1, t);
      RowDisjoint(ds, order, n - 1, t);
      ConcatDistinct(RowOf(ds, order, n - 1, t), Group(ds, order[n - 1]));
    }
  }

  // Rows start with their owner's leader, the first of their members.
  lemma {:induction false} RowHead(ds: seq<Disk>, order: seq<Key>, n: nat, t: nat)
    requires Ordered(ds, order) && t < n <= |order| && Owner(ds, order, t) == t
    ensures RowOf(ds, order, n, t) != [] && RowOf(ds, order, n, t)[0] == Group(ds, order[t])[0]
  {
    if n - 1 == t {
      EmptyRowBefore(ds, order, n - 1, t);
      assert RowOf(ds, order, n, t) == Group(ds, order[t]);
    } else {
      RowHead(ds, order, n - 1, t);
    }
  }

  lemma RowBounds(ds: seq<Disk>, order: seq<Key>, n: nat, t: nat)
    requires Ordered(ds, order) && t < n <= |order|
    ensures forall i <- RowOf(ds, order, n, t) :: Group(ds, order[t])[0] <= i < |ds|
  {
    RowMembers(ds, order, n, t);
    forall i <- RowOf(ds, order, n, t) ensures Group(ds, order[t])[0] <= i < |ds| {
      var a: nat :| a < n && Owner(ds, order, a) == t && i in Group(ds, order[a]);
      GroupOf(ds, order[a]);
      assert t <= a;
    }
  }

  lemma RowMember(ds: seq<Disk>, order: seq<Key>, t: nat, i: nat, a: nat)
    requires Ordered(ds, order) && i < |ds| && a < |order| && order[a] == KeyOf(ds[i])
    ensures i in RowOf(ds, order, |order|, t) <==> Owner(ds, order, a) == t
  {
    RowMembers(ds, order, |order|, t);
    GroupOf(ds, order[a]);
    if i in RowOf(ds, order, |order|, t) {
      var b :| 0 <= b < |order| && Owner(ds, order, b) == t && i in Group(ds, order[b]);
      GroupOf(ds, order[b]);
    }
  }

  lemma SameOwner(ds: seq<Disk>, order: seq<Key>, i: nat, j: nat, a: nat, b: nat)
    requires Ordered(ds, order) && i < |ds| && j < |ds| && a < |order| && b < |order|
    requires order[a] == KeyOf(ds[i]) && Group(ds, order[a])[0] == FirstOf(ds, i)
    requires order[b] == KeyOf(ds[j]) && Group(ds, order[b])[0] == FirstOf(ds, j)
    ensures Owner(ds, order, a) == Owner(ds, order, b) <==> SameDevice(ds, i, j)
  {
  }

  lemma OwnersRow(ds: seq<Disk>, order: seq<Key>, r: nat)
    requires Ordered(ds, order) && r < |Rows(ds, order)|
    ensures Owners(ds, order, |order|)[r] < |order|
    ensures var row, t := Rows(ds, order)[r], Owners(ds, order, |order|)[r];
            && Owner(ds, order, t) == t
            && row != [] && row[0] == Group(ds, order[t])[0] && Indices(ds, row) && NoDuplicates(row)
            && (forall i <- row :: row[0] <= i)
  {
    var row, t := Rows(ds, order)[r], Owners(ds, order, |order|)[r];
    OwnersAre(ds, order, |order|);
    assert t in Owners(ds, order, |order|);
    RowHead(ds, order, |order|, t);
    RowBounds(ds, order, |order|, t);
    RowDistinct(ds, order, |order|, t);
    forall a | 0 <= a < |row| ensures row[a] < |ds| {
      assert row[a] in row;
    }
  }

  lemma RowsCover(ds: seq<Disk>, order: seq<Key>, i: nat)
    requires Ordered(ds, order) && i < |ds|
    ensures InSomeRow(Rows(ds, order), i)
  {
    var owners := Owners(ds, order, |order|);
    OwnersAre(ds, order, |order|);
    var a := PositionOf(ds, order, i);
    OwnerOwnsItself(ds, order, a);
    var r :| 0 <= r < |owners| && owners[r] == Owner(ds, order, a);
    RowMember(ds, order, owners[r], i, a);
    assert i in Rows(ds, order)[r];
  }

  lemma RowsAreDevices(ds: seq<Disk>, order: seq<Key>, r: nat, i: nat, j: nat)
    requires Ordered(ds, order) && r < |Rows(ds, order)| && i < |ds| && j < |ds| && i in Rows(ds, order)[r]
    ensures j in Rows(ds, order)[r] <==> SameDevice(ds, i, j)
  {
    var t := Owners(ds, order, |order|)[r];
    var a := PositionOf(ds, order, i);
    var b := PositionOf(ds, order, j);
    RowMember(ds, order, t, i, a);
    RowMember(ds, order, t, j, b);
    SameOwner(ds, order, i, j, a, b);
  }

  lemma RowsDisjoint(ds: seq<Disk>, order: seq<Key>, r: nat, s: nat, i: nat)
    requires Ordered(ds, order) && r < |Rows(ds, order)| && s < |Rows(ds, order)|
    requires i in Rows(ds, order)[r] && i in Rows(ds, order)[s]
    ensures r == s
  {
    var owners := Owners(ds, order, |order|);
    OwnersAre(ds, order, |order|);
    OwnersRow(ds, order, r);
    var m :| 0 <= m < |Rows(ds, order)[r]| && Rows(ds, order)[r][m] == i;
    var a := PositionOf(ds, order, i);
    RowMember(ds, order, owners[r], i, a);
    RowMember(ds, order, owners[s], i, a);
  }

  lemma RowsPartition(ds: seq<Disk>, order: seq<Key>)
    requires Ordered(ds, order)
    ensures OneRowPerDevice(ds, Rows(ds, order)) && FirstSeenOrder(Rows(ds, order))
  {
    var rows := Rows(ds, order);
    OwnersAre(ds, order, |order|);
    forall r | 0 <= r < |rows|
      ensures rows[r] != [] && Indices(ds, rows[r]) && NoDuplicates(rows[r]) && (forall i <- rows[r] :: rows[r][0] <= i)
    {
      OwnersRow(ds, order, r);
    }
    forall i: nat | i < |ds| ensures InSomeRow(rows, i) {
      RowsCover(ds, order, i);
    }
    forall r, i: nat, j: nat | 0 <= r < |rows| && i < |ds| && j < |ds| && i in rows[r]
      ensures j in rows[r] <==> SameDevice(ds, i, j)
    {
      RowsAreDevices(ds, order, r, i, j);
    }
    forall r, s, i: nat | 0 <= r < |rows| && 0 <= s < |rows| && i in rows[r] && i in rows[s] ensures r == s {
      RowsDisjoint(ds, order, r, s, i);
    }
    forall r, s | 0 <= r < s < |rows| ensures rows[r][0] < rows[s][0] {
      OwnersRow(ds, order, r);
      OwnersRow(ds, order, s);
    }
  }

  // --- The overall status ----------------------------------------------------

  ghost function WorstRank(ss: seq<Severity>): nat {
    if ss == [] then 0 else Max(WorstRank(ss[..|ss| - 1]), Rank(ss[|ss| - 1]))
  }

  method OverallStatus(ss: seq<Severity>) returns (worst: Severity)
    ensures Rank(worst) == WorstRank(ss)
  {
    worst := OK;
    for n := 0 to |ss|
      invariant Rank(worst) == WorstRank(ss[..n])
    {
      assert ss[..n + 1][..n] == ss[..n];
      worst := MoreSevere(worst, ss[n]);
    }
    assert ss[..|ss|] == ss;
  }

  lemma {:induction false} WorstRankBounds(ss: seq<Severity>)
    ensures forall s <- ss :: Rank(s) <= WorstRank(ss)
    ensures ss != [] ==> exists a :: 0 <= a < |ss| && Rank(ss[a]) == WorstRank(ss)
  {
    if ss != [] {
      var n := |ss| - 1;
      assert ss == ss[..n] + [ss[n]];
      WorstRankBounds(ss[..n]);
      if Rank(ss[n]) < WorstRank(ss) {
        var a :| 0 <= a < n && Rank(ss[..n][a]) == WorstRank(ss[..n]);
        assert Rank(ss[a]) == WorstRank(ss);
      } else {
        assert Rank(ss[n]) == WorstRank(ss);
      }
    }
  }

  // Critical if any is, else a warning if any is, else all is well.
  lemma OverallExactly(ss: seq<Severity>, worst: Severity)
    requires Rank(worst) == WorstRank(ss)
    ensures worst == Critical <==> Critical in ss
    ensures worst == Warn <==> Warn in ss && Critical !in ss
    ensures worst == OK <==> forall s <- ss :: s == OK
  {
    WorstRankBounds(ss);
    if ss != [] {
      var a :| 0 <= a < |ss| && Rank(ss[a]) == WorstRank(ss);
      assert ss[a] in ss;
    }
    assert Critical in ss ==> Rank(Critical) <= WorstRank(ss);
    assert Warn in ss ==> Rank(Warn) <= WorstRank(ss);
  }

  // The same of one row: its status, and the reason of the first member that has it.
  lemma RowStatusMeans(ds: seq<Disk>, members: seq<nat>, status: Severity, reason: string)
    requires Indices(ds, members) && WorstOf(ds, members, status, reason)
    ensures status == Critical <==> exists a :: 0 <= a < |members| && ds[members[a]].status == Critical
    ensures status == OK <==> forall a | 0 <= a < |members| :: ds[members[a]].status == OK
  {
    var a :| 0 <= a < |members| && ds[members[a]].status == status;
  }

  ghost function Statuses(ds: seq<Disk>): seq<Severity> { seq(|ds|, i requires 0 <= i < |ds| => ds[i].status) }

  ghost function RowStatuses(out: seq<Row>): seq<Severity> { seq(|out|, r requires 0 <= r < |out| => out[r].status) }

  // Collapsing rows never changes the banner.
  lemma OverallUnchanged(ds: seq<Disk>, rows: seq<seq<nat>>, out: seq<Row>)
    requires OneRowPerDevice(ds, rows) && Summarised(ds, rows, out)
    ensures WorstRank(RowStatuses(out)) == WorstRank(Statuses(ds))
  {
    WorstRankBounds(RowStatuses(out));
    WorstRankBounds(Statuses(ds));
    if |ds| > 0 {
      var i: nat :| i < |ds| && Rank(Statuses(ds)[i]) == WorstRank(Statuses(ds));
      StatusBelowItsRow(ds, rows, out, i);
    }
    if |out| > 0 {
      var r :| 0 <= r < |out| && Rank(RowStatuses(out)[r]) == WorstRank(RowStatuses(out));
      assert IsRow(ds, rows[r], out[r]);
      var m :| 0 <= m < |rows[r]| && ds[rows[r][m]].status == out[r].status;
      assert Statuses(ds)[rows[r][m]] in Statuses(ds);
    }
  }

  lemma StatusBelowItsRow(ds: seq<Disk>, rows: seq<seq<nat>>, out: seq<Row>, i: nat)
    requires Summarised(ds, rows, out) && OneRowPerDevice(ds, rows) && i < |ds|
    ensures exists s :: s in RowStatuses(out) && Rank(ds[i].status) <= Rank(s)
  {
    assert InSomeRow(rows, i);
    var r :| 0 <= r < |rows| && i in rows[r];
    assert IsRow(ds, rows[r], out[r]);
    assert RowStatuses(out)[r] in RowStatuses(out);
  }
}
