/** Layered agent configuration: rollout tiers, the version an agent gets, and the
    ordered per-key merge of its groups with provenance. */
module AgentConfig {
  import opened Common
  import opened Sorting

  // --- Rollout tiers ---------------------------------------------------------

  const MAX_ROLLOUT_TIERS := 5

  // A JSON value of a tier field; a boolean is not an integer here.
  datatype Json = Int(value: int) | Bool(flag: bool) | Other | Absent

  datatype RawTier = NotAnObject | Entry(percent: Json, delayMinutes: Json)

  datatype RawTiers = NotAList | List(entries: seq<RawTier>)

  datatype Tier = Tier(percent: int, delayMinutes: int)

  datatype TierError = NotANonEmptyList | TooMany | BadEntry(index: nat) | BadPercent(index: nat)
                     | OutOfRange(index: nat) | NotAscending(index: nat) | BadDelay(index: nat) | LastNot100

  // A missing delay is zero.
  function DelayOf(e: RawTier): Json
    requires e.Entry?
  {
    if e.delayMinutes.Absent? then Int(0) else e.delayMinutes
  }

  ghost predicate TierOf(e: RawTier, t: Tier) {
    e.Entry? && e.percent == Int(t.percent) && DelayOf(e) == Int(t.delayMinutes)
  }

  // Strictly ascending percents in 1..100, delays not negative.
  ghost predicate Ascending(tiers: seq<Tier>) {
    && (forall i | 0 <= i < |tiers| :: 1 <= tiers[i].percent <= 100 && tiers[i].delayMinutes >= 0)
    && (forall i, j | 0 <= i < j < |tiers| :: tiers[i].percent < tiers[j].percent)
  }

  ghost predicate ValidTiers(tiers: seq<Tier>) {
    1 <= |tiers| <= MAX_ROLLOUT_TIERS && Ascending(tiers) && tiers[|tiers| - 1].percent == 100
  }

  ghost predicate Normalises(entries: seq<RawTier>, tiers: seq<Tier>) {
    |entries| == |tiers| && forall i | 0 <= i < |tiers| :: TierOf(entries[i], tiers[i])
  }

  // The fault an error names is really there.
  ghost predicate Explains(e: TierError, entries: seq<RawTier>) {
    match e
    case NotANonEmptyList => entries == []
    case TooMany => |entries| > MAX_ROLLOUT_TIERS
    case BadEntry(i) => i < |entries| && entries[i].NotAnObject?
    case BadPercent(i) => i < |entries| && entries[i].Entry? && !entries[i].percent.Int?
    case OutOfRange(i) =>
      i < |entries| && entries[i].Entry? && entries[i].percent.Int? && !(1 <= entries[i].percent.value <= 100)
    case NotAscending(i) =>
      && 0 < i < |entries| && entries[i].Entry? && entries[i].percent.Int?
      && entries[i - 1].Entry? && entries[i - 1].percent.Int?
      && entries[i].percent.value <= entries[i - 1].percent.value
    case BadDelay(i) =>
      i < |entries| && entries[i].Entry? && !(DelayOf(entries[i]).Int? && DelayOf(entries[i]).value >= 0)
    case LastNot100 =>
      entries != [] && entries[|entries| - 1].Entry? && entries[|entries| - 1].percent != Int(100)
  }

  lemma ExplainedInvalid(e: TierError, entries: seq<RawTier>, tiers: seq<Tier>)
    requires Explains(e, entries) && Normalises(entries, tiers)
    ensures !ValidTiers(tiers)
  {
    match e {
      case NotANonEmptyList | TooMany =>
      case BadEntry(i) => assert TierOf(entries[i], tiers[i]);
      case BadPercent(i) => assert TierOf(entries[i], tiers[i]);
      case OutOfRange(i) => assert TierOf(entries[i], tiers[i]);
      case NotAscending(i) => assert TierOf(entries[i], tiers[i]) && TierOf(entries[i - 1], tiers[i - 1]);
      case BadDelay(i) => assert TierOf(entries[i], tiers[i]);
      case LastNot100 => assert TierOf(entries[|tiers| - 1], tiers[|tiers| - 1]);
    }
  }

  // Accepts exactly the lists that normalise to a valid schedule.
  method ValidateTiers(raw: RawTiers) returns (r: Result<seq<Tier>, TierError>)
    ensures r.Ok? ==> raw.List? && Normalises(raw.entries, r.value) && ValidTiers(r.value)
    ensures r.Err? ==> if raw.NotAList? then r.error == NotANonEmptyList
                       else Explains(r.error, raw.entries)
                            && forall tiers :: Normalises(raw.entries, tiers) ==> !ValidTiers(tiers)
  {
    if raw.NotAList? {
      return Err(NotANonEmptyList);
    }
    r := ValidateEntries(raw.entries);
    if r.Err? {
      forall tiers | Normalises(raw.entries, tiers) ensures !ValidTiers(tiers) {
        ExplainedInvalid(r.error, raw.entries, tiers);
      }
    }
  }

  method ValidateEntries(entries: seq<RawTier>) returns (r: Result<seq<Tier>, TierError>)
    ensures r.Ok? ==> Normalises(entries, r.value) && ValidTiers(r.value)
    ensures r.Err? ==> Explains(r.error, entries)
  {
    if entries == [] {
      return Err(NotANonEmptyList);
    }
    if |entries| > MAX_ROLLOUT_TIERS {
      return Err(TooMany);
    }
    var out: seq<Tier> := [];
    var previous := 0;
    for i := 0 to |entries|
      invariant Normalises(entries[..i], out) && Ascending(out)
      invariant previous == if i == 0 then 0 else out[i - 1].percent
      invariant i > 0 ==> TierOf(entries[i - 1], out[i - 1])
    {
      var e := entries[i];
      if e.NotAnObject? {
        return Err(BadEntry(i));
      }
      var delay := DelayOf(e);
      if !e.percent.Int? {
        return Err(BadPercent(i));
      }
      var percent := e.percent.value;
      if !(1 <= percent <= 100) {
        return Err(OutOfRange(i));
      }
      if percent <= previous {
        return Err(NotAscending(i));
      }
      if !delay.Int? || delay.value < 0 {
        return Err(BadDelay(i));
      }
      previous := percent;
      out := out + [Tier(percent, delay.value)];
    }
    assert entries[..|entries|] == entries;
    if out[|out| - 1].percent != 100 {
      return Err(LastNot100);
    }
    return Ok(out);
  }

  // --- The version an agent gets ---------------------------------------------

  datatype RolloutStatus = Scheduled | Running | Finished

  datatype Rollout = Rollout(status: RolloutStatus, currentTier: int, targetVersion: int, tiers: seq<Tier>)

  // The first four digest bytes of the agent's id, modulo 100.
  function AgentBucket(digest: nat): (bucket: nat)
    ensures bucket < 100 && (digest - bucket) % 100 == 0
  {
    digest % 100
  }

  function ActivePercent(r: Option<Rollout>): Option<int> {
    if r.None? || r.value.status != Running || r.value.currentTier < 0 then None
    else if r.value.currentTier >= |r.value.tiers| then None
    else Some(r.value.tiers[r.value.currentTier].percent)
  }

  predicate Covers(r: Option<Rollout>, bucket: nat) {
    ActivePercent(r).Some? && bucket < ActivePercent(r).value
  }

  // Only ever forward.
  function VersionFor(current: int, r: Option<Rollout>, bucket: nat): int {
    if Covers(r, bucket) && r.value.targetVersion > current then r.value.targetVersion else current
  }

  function AtTier(r: Rollout, tier: int): Option<Rollout> { Some(r.(currentTier := tier)) }

  // For an accepted schedule an agent's version never falls below the published one,
  // never falls as the tier advances, and at the last tier has any newer target.
  lemma RolloutOnlyAdvances(r: Rollout, current: int, digest: nat, tier: int, later: int)
    requires ValidTiers(r.tiers) && tier <= later < |r.tiers|
    ensures var bucket := AgentBucket(digest);
            && current <= VersionFor(current, AtTier(r, tier), bucket) <= VersionFor(current, AtTier(r, later), bucket)
            && (Covers(AtTier(r, tier), bucket) ==> Covers(AtTier(r, later), bucket))
            && (r.status == Running ==>
                VersionFor(current, AtTier(r, |r.tiers| - 1), bucket) == Max(current, r.targetVersion))
  {
    if 0 <= tier < later {
      assert r.tiers[tier].percent < r.tiers[later].percent;
    }
  }

  // --- The layered merge -----------------------------------------------------

  // Null is a stored null: it overrides like any other value.
  datatype Value = Null | Text(text: string)

  type Section = map<string, Value>

  datatype Group = Group(id: string, name: string, priority: int, currentVersion: int, settings: Section,
                         policy: Section)

  datatype Snapshot = Snapshot(seqNo: nat, settings: Section, policy: Section)

  datatype Origin = Origin(groupId: string, groupName: string, version: int)

  datatype Layer = Layer(group: Group, version: int, viaRollout: bool, seqNo: nat, settings: Section, policy: Section)

  function OriginOf(l: Layer): Origin { Origin(l.group.id, l.group.name, l.version) }

  // Merge order: priority, then name, then id.
  predicate Before(a: Group, b: Group) {
    a.priority < b.priority
    || (a.priority == b.priority
        && (if a.name == b.name then StringLeq(a.id, b.id) else StringLeq(a.name, b.name)))
  }

  lemma BeforeOrders()
    ensures Ordering(Before)
  {
    forall a, b ensures Before(a, b) || Before(b, a) {
      StringLeqTotal(a.id, b.id);
      StringLeqTotal(a.name, b.name);
    }
    forall a, b, c | Before(a, b) && Before(b, c) ensures Before(a, c) {
      BeforeTransitive(a, b, c);
    }
  }

  lemma BeforeTransitive(a: Group, b: Group, c: Group)
    requires Before(a, b) && Before(b, c)
    ensures Before(a, c)
  {
    if a.priority == b.priority == c.priority {
      if a.name == b.name == c.name {
        StringLeqTransitive(a.id, b.id, c.id);
      } else if a.name != b.name && b.name != c.name {
        StringLeqTransitive(a.name, b.name, c.name);
        StringLeqTotal(a.name, b.name);
      }
    }
  }

  // --- The wire document -----------------------------------------------------

  const LIFTED_LOCAL_KEYS := ["web_ui_enabled", "local_access_enabled", "auth_required"]

  datatype DocValue = Leaf(value: Value) | Nested(section: Section)

  // What the document shows under a key.
  ghost function Composed(settings: Section, policy: Section, k: string, lifted: seq<string>): Option<DocValue> {
    if k in lifted && k in settings && settings[k] != Null then Some(Leaf(settings[k]))
    else if k == "group" then Some(Nested(settings))
    else if k in policy then Some(Leaf(policy[k]))
    else None
  }

  // The settings go under "group", whatever the policy says there; other policy keys pass
  // through, unless one of the three lifted settings takes their place.
  lemma DocumentMeans(settings: Section, policy: Section, k: string)
    ensures Composed(settings, policy, "group", LIFTED_LOCAL_KEYS) == Some(Nested(settings))
    ensures k != "group" && k != "web_ui_enabled" && k != "local_access_enabled" && k != "auth_required" ==>
              Composed(settings, policy, k, LIFTED_LOCAL_KEYS)
              == if k in policy then Some(Leaf(policy[k])) else None
    ensures (k == "web_ui_enabled" || k == "local_access_enabled" || k == "auth_required")
            && k in settings && settings[k] != Null ==>
              Composed(settings, policy, k, LIFTED_LOCAL_KEYS) == Some(Leaf(settings[k]))
  {
    assert "web_ui_enabled" == LIFTED_LOCAL_KEYS[0] && "local_access_enabled" == LIFTED_LOCAL_KEYS[1]
           && "auth_required" == LIFTED_LOCAL_KEYS[2];
    assert |"group"| == 5;
  }

  // Settings win the lift; a stored null never lifts, so the policy key shows through.
  method ComposeDocument(settings: Section, policy: Section) returns (doc: map<string, DocValue>)
    ensures forall k :: Get(doc, k) == Composed(settings, policy, k, LIFTED_LOCAL_KEYS)
  {
    doc := (map k <- policy :: Leaf(policy[k]))["group" := Nested(settings)];
    for i := 0 to |LIFTED_LOCAL_KEYS|
      invariant forall k :: Get(doc, k) == Composed(settings, policy, k, LIFTED_LOCAL_KEYS[..i])
    {
      var key := LIFTED_LOCAL_KEYS[i];
      assert LIFTED_LOCAL_KEYS[..i + 1] == LIFTED_LOCAL_KEYS[..i] + [key];
      ghost var before := doc;
      if key in settings && settings[key] != Null {
        doc := doc[key := Leaf(settings[key])];
      }
      forall k ensures Get(doc, k) == Composed(settings, policy, k, LIFTED_LOCAL_KEYS[..i + 1]) {
        assert Get(before, k) == Composed(settings, policy, k, LIFTED_LOCAL_KEYS[..i]);
        assert k in LIFTED_LOCAL_KEYS[..i + 1] <==> k in LIFTED_LOCAL_KEYS[..i] || k == key;
      }
    }
    assert LIFTED_LOCAL_KEYS[..|LIFTED_LOCAL_KEYS|] == LIFTED_LOCAL_KEYS;
  }

  // --- Resolution ------------------------------------------------------------

  datatype Effective = Effective(settings: Section, policy: Section, generation: nat,
                                 settingsOrigin: map<string, Origin>, policyOrigin: map<string, Origin>,
                                 contributors: seq<Layer>,
                                 document: map<string, DocValue>, hash: string)

  // What one group contributes: the covered rollout's snapshot, the published one, or,
  // with no history row, its live columns.
  function LayerOf(g: Group, rollouts: map<string, Rollout>, snapshots: map<(string, int), Snapshot>,
                   bucket: nat): Layer {
    var version := VersionFor(g.currentVersion, Get(rollouts, g.id), bucket);
    match Get(snapshots, (g.id, version))
    case None => Layer(g, version, version != g.currentVersion, 0, g.settings, g.policy)
    case Some(s) => Layer(g, version, version != g.currentVersion, s.seqNo, s.settings, s.policy)
  }

  function SettingsOf(l: Layer): Section { l.settings }

  function PolicyOf(l: Layer): Section { l.policy }

  // Layer over layer, the later one overriding the keys it holds.
  ghost function Merged(layers: seq<Layer>, section: Layer -> Section): Section {
    if layers == [] then map[] else Merged(layers[..|layers| - 1], section) + section(layers[|layers| - 1])
  }

  ghost function Origins(layers: seq<Layer>, section: Layer -> Section): map<string, Origin> {
    if layers == [] then map[]
    else
      var top := layers[|layers| - 1];
      Origins(layers[..|layers| - 1], section) + map k <- section(top) :: OriginOf(top)
  }

  ghost function Generation(layers: seq<Layer>): nat {
    if layers == [] then 0
    else Max(Generation(layers[..|layers| - 1]), layers[|layers| - 1].seqNo)
  }

  function LayersOf(groups: seq<Group>, rollouts: map<string, Rollout>, snapshots: map<(string, int), Snapshot>,
                    bucket: nat): seq<Layer> {
    if groups == [] then []
    else LayersOf(groups[..|groups| - 1], rollouts, snapshots, bucket)
         + [LayerOf(groups[|groups| - 1], rollouts, snapshots, bucket)]
  }

  method ResolveEffectiveConfig(rows: seq<Group>, rollouts: map<string, Rollout>,
                                snapshots: map<(string, int), Snapshot>, bucket: nat,
                                fingerprint: map<string, DocValue> -> string)
    returns (e: Effective)
    ensures e.contributors == LayersOf(Sort(rows, Before), rollouts, snapshots, bucket)
    ensures e.settings == Merged(e.contributors, SettingsOf) && e.settingsOrigin == Origins(e.contributors, SettingsOf)
    ensures e.policy == Merged(e.contributors, PolicyOf) && e.policyOrigin == Origins(e.contributors, PolicyOf)
    ensures e.generation == Generation(e.contributors)
    ensures forall k :: Get(e.document, k) == Composed(e.settings, e.policy, k, LIFTED_LOCAL_KEYS)
    ensures e.hash == fingerprint(e.document)
    ensures forall key ::
              Sourced(rows, rollouts, snapshots, bucket, Settings, key,
                      Get(e.settings, key), Get(e.settingsOrigin, key))
    ensures forall key ::
              Sourced(rows, rollouts, snapshots, bucket, Policy, key,
                      Get(e.policy, key), Get(e.policyOrigin, key))
  {
    var groups := Sort(rows, Before);
    var settings, settingsOrigin, policy, policyOrigin, contributors, generation :=
      MergeGroups(groups, rollouts, snapshots, bucket);
    forall key
      ensures Sourced(rows, rollouts, snapshots, bucket, Settings, key, Get(settings, key), Get(settingsOrigin, key))
      ensures Sourced(rows, rollouts, snapshots, bucket, Policy, key, Get(policy, key), Get(policyOrigin, key))
    {
      MergeSourced(rows, rollouts, snapshots, bucket, Settings, key);
      MergeSourced(rows, rollouts, snapshots, bucket, Policy, key);
    }
    var document := ComposeDocument(settings, policy);
    return Effective(settings, policy, generation, settingsOrigin, policyOrigin, contributors, document,
                     fingerprint(document));
  }

  // The loop over the groups, in merge order.
  method MergeGroups(groups: seq<Group>, rollouts: map<string, Rollout>, snapshots: map<(string, int), Snapshot>,
                     bucket: nat)
    returns (settings: Section, settingsOrigin: map<string, Origin>, policy: Section,
             policyOrigin: map<string, Origin>, contributors: seq<Layer>, generation: nat)
    ensures contributors == LayersOf(groups, rollouts, snapshots, bucket)
    ensures Resolved(contributors, settings, settingsOrigin, policy, policyOrigin, generation)
  {
    settings, settingsOrigin, policy, policyOrigin := map[], map[], map[], map[];
    contributors, generation := [], 0;
    for i := 0 to |groups|
      invariant contributors == LayersOf(groups[..i], rollouts, snapshots, bucket)
      invariant Resolved(contributors, settings, settingsOrigin, policy, policyOrigin, generation)
    {
      var layer := LayerOf(groups[i], rollouts, snapshots, bucket);
      assert groups[..i + 1][..i] == groups[..i];
      ResolvedNext(contributors, settings, settingsOrigin, policy, policyOrigin, generation, layer);
      generation := Max(generation, layer.seqNo);
      settings, settingsOrigin := Overlay(settings, settingsOrigin, layer.settings, OriginOf(layer));
      policy, policyOrigin := Overlay(policy, policyOrigin, layer.policy, OriginOf(layer));
      contributors := contributors + [layer];
    }
    assert groups[..|groups|] == groups;
  }

  ghost predicate Resolved(layers: seq<Layer>, settings: Section, settingsOrigin: map<string, Origin>,
                           policy: Section, policyOrigin: map<string, Origin>, generation: nat) {
    && settings == Merged(layers, SettingsOf) && settingsOrigin == Origins(layers, SettingsOf)
    && policy == Merged(layers, PolicyOf) && policyOrigin == Origins(layers, PolicyOf)
    && generation == Generation(layers)
  }

  lemma ResolvedNext(layers: seq<Layer>, settings: Section, settingsOrigin: map<string, Origin>,
                     policy: Section, policyOrigin: map<string, Origin>, generation: nat, layer: Layer)
    requires Resolved(layers, settings, settingsOrigin, policy, policyOrigin, generation)
    ensures Resolved(layers + [layer],
                     settings + layer.settings, settingsOrigin + map k <- layer.settings :: OriginOf(layer),
                     policy + layer.policy, policyOrigin + map k <- layer.policy :: OriginOf(layer),
                     Max(generation, layer.seqNo))
  {
    assert (layers + [layer])[..|layers|] == layers;
  }

  // The inner loop over the items of one section.
  method Overlay(target: Section, provenance: map<string, Origin>, source: Section, origin: Origin)
    returns (target': Section, provenance': map<string, Origin>)
    ensures target' == target + source
    ensures provenance' == provenance + map k <- source :: origin
  {
    target', provenance' := target, provenance;
    ghost var origins := map k <- source :: origin;
    var keys := source.Keys;
    while keys != {}
      invariant keys <= source.Keys
      invariant target' == target + Without(source, keys)
      invariant provenance' == provenance + Without(origins, keys)
    {
      var key :| key in keys;
      OverlayStep(target, source, keys, key);
      OverlayStep(provenance, origins, keys, key);
      keys := keys - {key};
      target' := target'[key := source[key]];
      provenance' := provenance'[key := origin];
    }
    assert Without(source, {}) == source && Without(origins, {}) == origins;
  }

  ghost function Without<V>(m: map<string, V>, keys: set<string>): map<string, V> {
    map k <- m | k !in keys :: m[k]
  }

  lemma OverlayStep<V>(target: map<string, V>, source: map<string, V>, keys: set<string>, key: string)
    requires key in keys && key in source
    ensures target + Without(source, keys - {key}) == (target + Without(source, keys))[key := source[key]]
  {
    var a, b := target + Without(source, keys - {key}), (target + Without(source, keys))[key := source[key]];
    forall k ensures Get(a, k) == Get(b, k) {
    }
    MapsEqual(a, b);
  }

  // The winning layer of a key: it holds the key, and every layer that holds it comes
  // no later in merge order.
  ghost predicate Wins(layers: seq<Layer>, w: Layer, key: string, section: Layer -> Section) {
    w in layers && key in section(w) && forall l <- layers :: key in section(l) ==> Before(l.group, w.group)
  }

  ghost predicate InOrder(layers: seq<Layer>) {
    forall i, j | 0 <= i < j < |layers| :: Before(layers[i].group, layers[j].group)
  }

  // Every merged key has the value of the last group holding it in (priority, name,
  // id) order, and its provenance names that group and version; nothing else appears.
  lemma {:induction false} MergeWinner(layers: seq<Layer>, key: string, section: Layer -> Section)
    returns (w: Option<Layer>)
    requires InOrder(layers)
    ensures w.None? ==> key !in Merged(layers, section) && key !in Origins(layers, section)
                        && forall l <- layers :: key !in section(l)
    ensures w.Some? ==>
              && Wins(layers, w.value, key, section)
              && Get(Merged(layers, section), key) == Some(section(w.value)[key])
              && Get(Origins(layers, section), key) == Some(OriginOf(w.value))
  {
    if layers == [] {
      w := None;
    } else {
      var front, top := layers[..|layers| - 1], layers[|layers| - 1];
      assert layers == front + [top];
      if key in section(top) {
        w := Some(top);
        BeforeOrders();
        assert Before(top.group, top.group);
      } else {
        w := MergeWinner(front, key, section);
      }
    }
  }

  lemma {:induction false} LayersFollowGroups(groups: seq<Group>, rollouts: map<string, Rollout>,
                                              snapshots: map<(string, int), Snapshot>, bucket: nat)
    ensures |LayersOf(groups, rollouts, snapshots, bucket)| == |groups|
    ensures forall i | 0 <= i < |groups| ::
              LayersOf(groups, rollouts, snapshots, bucket)[i] == LayerOf(groups[i], rollouts, snapshots, bucket)
  {
    if groups != [] {
      LayersFollowGroups(groups[..|groups| - 1], rollouts, snapshots, bucket);
    }
  }

  // The contributors of any rows are in merge order.
  lemma ContributorsInOrder(rows: seq<Group>, rollouts: map<string, Rollout>, snapshots: map<(string, int), Snapshot>,
                            bucket: nat)
    ensures InOrder(LayersOf(Sort(rows, Before), rollouts, snapshots, bucket))
  {
    BeforeOrders();
    SortSorts(rows, Before);
    LayersFollowGroups(Sort(rows, Before), rollouts, snapshots, bucket);
  }

  // The answer does not depend on the order the group rows were loaded in.
  lemma RowOrderIrrelevant(rows: seq<Group>, other: seq<Group>)
    requires multiset(rows) == multiset(other)
    requires forall a, b | a in rows && b in rows && a.id == b.id :: a == b
    ensures Sort(rows, Before) == Sort(other, Before)
  {
    BeforeOrders();
    forall a, b | a in rows && b in rows && Before(a, b) && Before(b, a) ensures a == b {
      StringLeqTotal(a.name, b.name);
      StringLeqTotal(a.id, b.id);
    }
    SortForgetsOrder(rows, other, Before);
  }

  // A key has one winning group, so one value and one provenance.
  lemma WinnerUnique(layers: seq<Layer>, v: Layer, w: Layer, key: string, section: Layer -> Section)
    requires Wins(layers, v, key, section) && Wins(layers, w, key, section)
    ensures v.group.id == w.group.id
  {
    StringLeqTotal(v.group.name, w.group.name);
    StringLeqTotal(v.group.id, w.group.id);
  }

  // --- Stored nulls ----------------------------------------------------------

  ghost predicate SetsValue(l: Layer, key: string, section: Layer -> Section) {
    key in section(l) && section(l)[key] != Null
  }

  // What a merge in which null inherits would give a key.
  ghost function LastNonNull(layers: seq<Layer>, key: string, section: Layer -> Section): Option<Value> {
    if layers == [] then None
    else
      var top := layers[|layers| - 1];
      if SetsValue(top, key, section) then Some(section(top)[key])
      else LastNonNull(layers[..|layers| - 1], key, section)
  }

  ghost function NotNull(o: Option<Value>): Option<Value> { if o == Some(Null) then None else o }

  // The last group holding the key holds a null, and a group before it does not.
  ghost predicate NullOverrides(layers: seq<Layer>, key: string, section: Layer -> Section) {
    exists i, j :: 0 <= i < j < |layers| && SetsValue(layers[i], key, section) && LastHolds(layers, j, key, section)
                   && section(layers[j])[key] == Null
  }

  ghost predicate LastHolds(layers: seq<Layer>, j: nat, key: string, section: Layer -> Section)
    requires j < |layers|
  {
    key in section(layers[j]) && forall k | j < k < |layers| :: key !in section(layers[k])
  }

  lemma {:induction false} LastNonNullFound(layers: seq<Layer>, key: string, section: Layer -> Section)
    ensures LastNonNull(layers, key, section).Some? <==> exists l :: l in layers && SetsValue(l, key, section)
    ensures LastNonNull(layers, key, section) != Some(Null)
  {
    if layers != [] {
      var front, top := layers[..|layers| - 1], layers[|layers| - 1];
      LastNonNullFound(front, key, section);
      assert layers == front + [top];
    }
  }

  lemma HolderKept(front: seq<Layer>, top: Layer, key: string, section: Layer -> Section)
    requires key !in section(top)
    ensures NullOverrides(front + [top], key, section) <==> NullOverrides(front, key, section)
  {
    var layers := front + [top];
    forall j: nat | j < |front| ensures LastHolds(layers, j, key, section) <==> LastHolds(front, j, key, section) {
      assert layers[|front|] == top;
      assert forall k | j < k < |front| :: layers[k] == front[k];
    }
    if NullOverrides(front, key, section) {
      var i, j :| 0 <= i < j < |front| && SetsValue(front[i], key, section) && LastHolds(front, j, key, section)
                  && section(front[j])[key] == Null;
      assert SetsValue(layers[i], key, section) && LastHolds(layers, j, key, section);
    }
    if NullOverrides(layers, key, section) {
      var i, j :| 0 <= i < j < |layers| && SetsValue(layers[i], key, section) && LastHolds(layers, j, key, section)
                  && section(layers[j])[key] == Null;
      assert SetsValue(front[i], key, section) && LastHolds(front, j, key, section);
    }
  }

  lemma TopOverrides(front: seq<Layer>, top: Layer, key: string, section: Layer -> Section)
    requires key in section(top)
    ensures NullOverrides(front + [top], key, section)
            <==> section(top)[key] == Null && exists l :: l in front && SetsValue(l, key, section)
  {
    var layers := front + [top];
    assert LastHolds(layers, |front|, key, section) && layers[|front|] == top;
    if l :| l in front && SetsValue(l, key, section) {
      var i :| 0 <= i < |front| && front[i] == l;
      assert SetsValue(layers[i], key, section);
    }
    if NullOverrides(layers, key, section) {
      var i, j :| 0 <= i < j < |layers| && SetsValue(layers[i], key, section) && LastHolds(layers, j, key, section)
                  && section(layers[j])[key] == Null;
      assert j == |front| && layers[i] == front[i];
    }
  }

  // A null inherits if and only if it is overridden itself or hides no value: the merge
  // gives a key its last value that is not null exactly unless the last group holding
  // the key holds a null and a group before it a value.
  lemma {:induction false} NullInheritsExactly(layers: seq<Layer>, key: string, section: Layer -> Section)
    ensures NotNull(Get(Merged(layers, section), key)) == LastNonNull(layers, key, section)
            <==> !NullOverrides(layers, key, section)
  {
    if layers != [] {
      var front, top := layers[..|layers| - 1], layers[|layers| - 1];
      assert layers == front + [top];
      if key in section(top) {
        TopOverrides(front, top, key, section);
        LastNonNullFound(front, key, section);
      } else {
        NullInheritsExactly(front, key, section);
        HolderKept(front, top, key, section);
      }
    }
  }

  // Two groups, the later one with a null: the value is gone.
  lemma NullHidesValue(a: Group, b: Group, key: string, text: string)
    ensures var layers := [Layer(a, 1, false, 1, map[key := Text(text)], map[]),
                           Layer(b, 1, false, 2, map[key := Null], map[])];
            && Get(Merged(layers, SettingsOf), key) == Some(Null)
            && LastNonNull(layers, key, SettingsOf) == Some(Text(text))
  {
    var x := Layer(a, 1, false, 1, map[key := Text(text)], map[]);
    var y := Layer(b, 1, false, 2, map[key := Null], map[]);
    assert [x, y][..1] == [x] && [x][..0] == [];
    assert Merged([x], SettingsOf) == map[key := Text(text)];
    assert LastNonNull([x], key, SettingsOf) == Some(Text(text));
  }

  // A lifted key shows its last value that is not null, unless a null hides it: then the
  // policy key of that name shows through, or nothing.
  lemma LiftShowsExactly(layers: seq<Layer>, policy: Section, key: string)
    requires key in LIFTED_LOCAL_KEYS
    ensures var inherited := LastNonNull(layers, key, SettingsOf);
            Composed(Merged(layers, SettingsOf), policy, key, LIFTED_LOCAL_KEYS)
            == if inherited.Some? && !NullOverrides(layers, key, SettingsOf) then Some(Leaf(inherited.value))
               else if key in policy then Some(Leaf(policy[key])) else None
  {
    NullInheritsExactly(layers, key, SettingsOf);
    LastNonNullFound(layers, key, SettingsOf);
    if NullOverrides(layers, key, SettingsOf) {
      NullOverridesNull(layers, key, SettingsOf);
    }
  }

  lemma {:induction false} NullOverridesNull(layers: seq<Layer>, key: string, section: Layer -> Section)
    requires NullOverrides(layers, key, section)
    ensures Get(Merged(layers, section), key) == Some(Null)
  {
    var front, top := layers[..|layers| - 1], layers[|layers| - 1];
    assert layers == front + [top];
    if key in section(top) {
      TopOverrides(front, top, key, section);
    } else {
      HolderKept(front, top, key, section);
      NullOverridesNull(front, key, section);
    }
  }

  // --- Where an effective value comes from -----------------------------------

  // The version an agent should have of a group: the target of a rollout that is running,
  // stands at an existing tier wide enough for the agent's bucket, and is newer than the
  // published version; the published one otherwise.
  ghost predicate RolledOut(g: Group, rollouts: map<string, Rollout>, bucket: nat) {
    && g.id in rollouts
    && var r := rollouts[g.id];
       && r.status == Running && 0 <= r.currentTier < |r.tiers| && bucket < r.tiers[r.currentTier].percent
       && r.targetVersion > g.currentVersion
  }

  ghost predicate Receives(g: Group, version: int, rollouts: map<string, Rollout>, bucket: nat) {
    if RolledOut(g, rollouts, bucket) then version == rollouts[g.id].targetVersion else version == g.currentVersion
  }

  datatype Half = Settings | Policy

  // What a group says at a version: its snapshot, or with no snapshot its live columns.
  ghost function Said(g: Group, version: int, snapshots: map<(string, int), Snapshot>, half: Half): Section {
    if (g.id, version) in snapshots then
      (if half == Settings then snapshots[(g.id, version)].settings else snapshots[(g.id, version)].policy)
    else (if half == Settings then g.settings else g.policy)
  }

  ghost predicate Says(g: Group, version: int, key: string, rollouts: map<string, Rollout>,
                       snapshots: map<(string, int), Snapshot>, bucket: nat, half: Half) {
    Receives(g, version, rollouts, bucket) && key in Said(g, version, snapshots, half)
  }

  // Lower priority first; then by name, then by id.
  ghost predicate NotAfter(a: Group, b: Group) {
    || a.priority < b.priority
    || (a.priority == b.priority && a.name == b.name && StringLeq(a.id, b.id))
    || (a.priority == b.priority && a.name != b.name && StringLeq(a.name, b.name))
  }

  // A key no group says is absent; any other has the value and the provenance of the last
  // group, by priority, name and id, that says it at the version the agent receives.
  ghost predicate Sourced(rows: seq<Group>, rollouts: map<string, Rollout>, snapshots: map<(string, int), Snapshot>,
                          bucket: nat, half: Half, key: string, value: Option<Value>, origin: Option<Origin>) {
    if origin.None? then
      value.None? && forall g, v | g in rows :: !Says(g, v, key, rollouts, snapshots, bucket, half)
    else
      exists g :: g in rows && SourcedBy(rows, rollouts, snapshots, bucket, half, key, value, origin.value, g)
  }

  ghost predicate SourcedBy(rows: seq<Group>, rollouts: map<string, Rollout>, snapshots: map<(string, int), Snapshot>,
                            bucket: nat, half: Half, key: string, value: Option<Value>, o: Origin, g: Group) {
    && o.groupId == g.id && o.groupName == g.name && Says(g, o.version, key, rollouts, snapshots, bucket, half)
    && value == Some(Said(g, o.version, snapshots, half)[key])
    && forall h, v | h in rows && Says(h, v, key, rollouts, snapshots, bucket, half) :: NotAfter(h, g)
  }

  ghost function SectionOf(half: Half): Layer -> Section { if half == Settings then SettingsOf else PolicyOf }

  lemma LayerSays(g: Group, rollouts: map<string, Rollout>, snapshots: map<(string, int), Snapshot>, bucket: nat,
                  half: Half)
    ensures var l := LayerOf(g, rollouts, snapshots, bucket);
            && l.group == g && Receives(g, l.version, rollouts, bucket)
            && SectionOf(half)(l) == Said(g, l.version, snapshots, half)
            && OriginOf(l) == Origin(g.id, g.name, l.version)
  {
  }

  lemma LayerIn(groups: seq<Group>, rollouts: map<string, Rollout>, snapshots: map<(string, int), Snapshot>,
                bucket: nat, g: Group)
    requires g in groups
    ensures LayerOf(g, rollouts, snapshots, bucket) in LayersOf(groups, rollouts, snapshots, bucket)
  {
    LayersFollowGroups(groups, rollouts, snapshots, bucket);
    var k :| 0 <= k < |groups| && groups[k] == g;
    assert LayersOf(groups, rollouts, snapshots, bucket)[k] == LayerOf(g, rollouts, snapshots, bucket);
  }

  lemma MergeSourced(rows: seq<Group>, rollouts: map<string, Rollout>, snapshots: map<(string, int), Snapshot>,
                     bucket: nat, half: Half, key: string)
    ensures var layers := LayersOf(Sort(rows, Before), rollouts, snapshots, bucket);
            Sourced(rows, rollouts, snapshots, bucket, half, key,
                    Get(Merged(layers, SectionOf(half)), key), Get(Origins(layers, SectionOf(half)), key))
  {
    var groups := Sort(rows, Before);
    var layers := LayersOf(groups, rollouts, snapshots, bucket);
    ContributorsInOrder(rows, rollouts, snapshots, bucket);
    LayersFollowGroups(groups, rollouts, snapshots, bucket);
    SortPermutes(rows, Before);
    var w := MergeWinner(layers, key, SectionOf(half));
    forall g, v | g in rows && Says(g, v, key, rollouts, snapshots, bucket, half)
      ensures LayerOf(g, rollouts, snapshots, bucket) in layers
      ensures key in SectionOf(half)(LayerOf(g, rollouts, snapshots, bucket))
    {
      assert g in groups;
      LayerIn(groups, rollouts, snapshots, bucket, g);
      LayerSays(g, rollouts, snapshots, bucket, half);
    }
    if w.Some? {
      var k :| 0 <= k < |layers| && layers[k] == w.value;
      var g := groups[k];
      assert g in groups;
      LayerSays(g, rollouts, snapshots, bucket, half);
      forall h, v | h in rows && Says(h, v, key, rollouts, snapshots, bucket, half) ensures NotAfter(h, g) {
        LayerSays(h, rollouts, snapshots, bucket, half);
        assert Before(h, g);
      }
      assert SourcedBy(rows, rollouts, snapshots, bucket, half, key, Get(Merged(layers, SectionOf(half)), key),
                       OriginOf(w.value), g);
    }
  }

  // The generation is the greatest of the contributing snapshots'.
  lemma {:induction false} GenerationIsGreatest(layers: seq<Layer>)
    ensures forall l <- layers :: l.seqNo <= Generation(layers)
    ensures Generation(layers) == 0 || exists l :: l in layers && l.seqNo == Generation(layers)
  {
    if layers != [] {
      var front, top := layers[..|layers| - 1], layers[|layers| - 1];
      assert layers == front + [top];
      GenerationIsGreatest(front);
      assert top in layers;
    }
  }
}
