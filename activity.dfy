/**
 * The audit-log activity service: which actions are recorded, and whether
 * the `createdAt_1` TTL index of the activities collection must be dropped
 * or created.
 *
 * The action catalogue (`AllSupportedAction`, the three group lists and
 * `AllSupportedActionToNotified`) lives in an interface file that is not
 * part of this model, so it is a parameter. Configuration values and the
 * existing index list are inputs; the database calls are not modelled.
 */
module Activity {
  import opened Wrappers
  import Text

  type Action = string

  /** The constant action lists the service reads. */
  datatype Catalog = Catalog(
    supported: seq<Action>,
    smallGroup: seq<Action>,
    mediumGroup: seq<Action>,
    largeGroup: seq<Action>,
    notified: seq<Action>)

  /** `app:auditLogActionGroupSize`: unset (or empty), one of the three sizes, or any other string. */
  datatype GroupSizeSetting = Unset | Small | Medium | Large | Unrecognized

  datatype AuditLogConfig = AuditLogConfig(
    groupSize: GroupSizeSetting,
    additionalActions: Option<string>,
    excludeActions: Option<string>)

  /** The items of `xs` that are supported actions, in order. */
  function KeepSupported(xs: seq<string>, supported: seq<Action>): (r: seq<Action>)
    ensures forall a :: a in r <==> a in xs && a in supported
    decreases |xs|
  {
    if xs == [] then []
    else
      var rest := KeepSupported(xs[1..], supported);
      assert forall a :: a in xs <==> a == xs[0] || a in xs[1..];
      if xs[0] in supported then [xs[0]] + rest else rest
  }

  function TrimAll(xs: seq<string>): (r: seq<string>)
    ensures |r| == |xs|
    ensures forall i :: 0 <= i < |xs| ==> r[i] == Text.Trim(xs[i])
  {
    seq(|xs|, i requires 0 <= i < |xs| => Text.Trim(xs[i]))
  }

  /** `parseActionString`: the comma-separated, trimmed items that are supported actions, in order. */
  function ParseActionString(actionsString: Option<string>, supported: seq<Action>): (r: seq<Action>)
    ensures actionsString.None? ==> r == []
    ensures forall a :: a in r ==> a in supported && ',' !in a
  {
    match actionsString
    case None => []
    case Some(s) =>
      var pieces := Text.Split(s, ',');
      forall i | 0 <= i < |pieces| ensures ',' !in Text.Trim(pieces[i]) {
        Text.TrimKeepsAbsent(pieces[i], ',');
      }
      KeepSupported(TrimAll(pieces), supported)
  }

  /** A trimmed list holds exactly the trimmed forms of its items. */
  lemma TrimAllMembership(xs: seq<string>, a: string)
    ensures a in TrimAll(xs) <==> exists i :: 0 <= i < |xs| && Text.Trim(xs[i]) == a
  {
    var t := TrimAll(xs);
    if a in t {
      var i :| 0 <= i < |t| && t[i] == a;
    }
    if exists i :: 0 <= i < |xs| && Text.Trim(xs[i]) == a {
      var i :| 0 <= i < |xs| && Text.Trim(xs[i]) == a;
      assert t[i] == a;
    }
  }

  /**
   * An action is parsed from a string exactly when it is supported and is
   * the trimmed form of one comma-separated piece (see `TrimAllMembership`).
   */
  lemma ParseActionStringMembership(s: string, supported: seq<Action>, a: Action)
    ensures a in ParseActionString(Some(s), supported) <==>
      a in supported && a in TrimAll(Text.Split(s, ','))
  {
  }

  lemma {:induction false} TrimAllOfTrimmed(xs: seq<string>)
    requires forall i :: 0 <= i < |xs| ==> Text.Trim(xs[i]) == xs[i]
    ensures TrimAll(xs) == xs
  {
  }

  lemma {:induction false} KeepSupportedOfSupported(xs: seq<string>, supported: seq<Action>)
    requires forall i :: 0 <= i < |xs| ==> xs[i] in supported
    ensures KeepSupported(xs, supported) == xs
    decreases |xs|
  {
    if xs != [] {
      KeepSupportedOfSupported(xs[1..], supported);
      assert [xs[0]] + xs[1..] == xs;
    }
  }

  /** Filtering keeps the order of the input: a concatenation filters piecewise. */
  lemma {:induction false} KeepSupportedAppend(xs: seq<string>, ys: seq<string>, supported: seq<Action>)
    ensures KeepSupported(xs + ys, supported) == KeepSupported(xs, supported) + KeepSupported(ys, supported)
    decreases |xs|
  {
    if xs != [] {
      assert (xs + ys)[1..] == xs[1..] + ys;
      KeepSupportedAppend(xs[1..], ys, supported);
    } else {
      assert xs + ys == ys;
    }
  }

  /** A single item is kept exactly when it is supported, once. */
  lemma KeepSupportedSingle(x: string, supported: seq<Action>)
    ensures KeepSupported([x], supported) == (if x in supported then [x] else [])
  {
    assert [x][1..] == [];
  }

  /** Trimming works item by item, so it also distributes over concatenation. */
  lemma TrimAllAppend(xs: seq<string>, ys: seq<string>)
    ensures TrimAll(xs + ys) == TrimAll(xs) + TrimAll(ys)
  {
  }

  /**
   * The actions of two comma-joined lists are those of the first followed
   * by those of the second: order and repetitions are kept.
   */
  lemma ParseActionStringOfJoined(a: string, b: string, supported: seq<Action>)
    ensures ParseActionString(Some(a + "," + b), supported)
         == ParseActionString(Some(a), supported) + ParseActionString(Some(b), supported)
  {
    Text.SplitAppendSep(a, b, ',');
    TrimAllAppend(Text.Split(a, ','), Text.Split(b, ','));
    KeepSupportedAppend(TrimAll(Text.Split(a, ',')), TrimAll(Text.Split(b, ',')), supported);
  }

  /** A string without a comma is one item: its trimmed form if that is supported, nothing otherwise. */
  lemma ParseActionStringOfItem(item: string, supported: seq<Action>)
    requires ',' !in item
    ensures ParseActionString(Some(item), supported)
         == (if Text.Trim(item) in supported then [Text.Trim(item)] else [])
  {
    Text.SplitNoSep(item, ',');
    assert TrimAll([item]) == [Text.Trim(item)];
    KeepSupportedSingle(Text.Trim(item), supported);
  }

  /**
   * Writing a parsed list back as a comma-separated string and parsing it
   * again gives the same list.
   */
  lemma ParseActionStringIsStable(s: string, supported: seq<Action>)
    requires ParseActionString(Some(s), supported) != []
    ensures var parsed := ParseActionString(Some(s), supported);
      ParseActionString(Some(Text.Join(parsed, ',')), supported) == parsed
  {
    var pieces := Text.Split(s, ',');
    var trimmed := TrimAll(pieces);
    var parsed := ParseActionString(Some(s), supported);
    assert parsed == KeepSupported(trimmed, supported);
    forall i | 0 <= i < |parsed| ensures Text.Trim(parsed[i]) == parsed[i] {
      assert parsed[i] in trimmed;
      var j :| 0 <= j < |trimmed| && trimmed[j] == parsed[i];
      Text.TrimIdempotent(pieces[j]);
    }
    Text.SplitJoin(parsed, ',');
    TrimAllOfTrimmed(parsed);
    KeepSupportedOfSupported(parsed, supported);
  }

  // ---------------------------------------------------------------------
  // Available actions
  // ---------------------------------------------------------------------

  /** Whether `xs` holds no value twice. */
  predicate NoDuplicates<T(==)>(xs: seq<T>)
  {
    forall i, j :: 0 <= i < j < |xs| ==> xs[i] != xs[j]
  }

  /** `Array.from(new Set(xs))`: each value once, at the place it first occurs. */
  function Dedup(xs: seq<Action>): (r: seq<Action>)
    ensures NoDuplicates(r)
    ensures forall a :: a in r <==> a in xs
    decreases |xs|
  {
    if xs == [] then []
    else
      var init := xs[..|xs| - 1];
      var last := xs[|xs| - 1];
      var rest := Dedup(init);
      assert forall a :: a in xs <==> a in init || a == last by {
        assert xs == init + [last];
      }
      if last in rest then rest else rest + [last]
  }

  /** The index of the first occurrence of `a` in `xs`. */
  function FirstIndex(xs: seq<Action>, a: Action): (i: nat)
    requires a in xs
    ensures i < |xs| && xs[i] == a
    ensures forall j :: 0 <= j < i ==> xs[j] != a
  {
    if xs[0] == a then 0 else 1 + FirstIndex(xs[1..], a)
  }

  lemma FirstIndexOfPrefix(xs: seq<Action>, n: nat, a: Action)
    requires n <= |xs| && a in xs[..n]
    ensures a in xs && FirstIndex(xs, a) == FirstIndex(xs[..n], a)
  {
    var i := FirstIndex(xs[..n], a);
    var k := FirstIndex(xs, a);
    assert xs[..n][i] == xs[i];
  }

  /** A value that is absent from all but the last position first occurs there. */
  lemma FirstIndexOfLast(xs: seq<Action>)
    requires |xs| > 0 && xs[|xs| - 1] !in xs[..|xs| - 1]
    ensures FirstIndex(xs, xs[|xs| - 1]) == |xs| - 1
  {
  }

  /** The deduplicated list keeps the values in the order of their first occurrences. */
  lemma {:induction false} DedupKeepsFirstOccurrenceOrder(xs: seq<Action>)
    ensures forall i, j :: 0 <= i < j < |Dedup(xs)| ==> FirstIndex(xs, Dedup(xs)[i]) < FirstIndex(xs, Dedup(xs)[j])
    decreases |xs|
  {
    if xs != [] {
      var init := xs[..|xs| - 1];
      var last := xs[|xs| - 1];
      var rest := Dedup(init);
      DedupKeepsFirstOccurrenceOrder(init);
      var r := Dedup(xs);
      assert |r| == |rest| || (|r| == |rest| + 1 && r[|rest|] == last && last !in init);
      forall i | 0 <= i < |rest|
        ensures r[i] == rest[i] && FirstIndex(xs, r[i]) == FirstIndex(init, rest[i])
      {
        assert r[i] == rest[i] && rest[i] in init;
        FirstIndexOfPrefix(xs, |xs| - 1, rest[i]);
      }
      if |r| > |rest| {
        FirstIndexOfLast(xs);
      }
    }
  }

  /** A list without duplicates is its own deduplication. */
  lemma {:induction false} DedupOfDistinct(xs: seq<Action>)
    requires NoDuplicates(xs)
    ensures Dedup(xs) == xs
    decreases |xs|
  {
    if xs != [] {
      var init := xs[..|xs| - 1];
      DedupOfDistinct(init);
      assert xs[|xs| - 1] !in init;
      assert init + [xs[|xs| - 1]] == xs;
    }
  }

  /** The base action group for a group-size setting; an unset setting means the small group. */
  function BaseGroup(size: GroupSizeSetting, catalog: Catalog): seq<Action>
  {
    match size
    case Unset => catalog.smallGroup
    case Small => catalog.smallGroup
    case Medium => catalog.mediumGroup
    case Large => catalog.largeGroup
    case Unrecognized => []
  }

  /** The items of `xs` that are not in `excluded`, in order. */
  function Exclude(xs: seq<Action>, excluded: seq<Action>): (r: seq<Action>)
    ensures forall a :: a in r <==> a in xs && a !in excluded
    decreases |xs|
  {
    if xs == [] then []
    else
      var init := Exclude(xs[..|xs| - 1], excluded);
      var last := xs[|xs| - 1];
      assert forall a :: a in xs <==> a in xs[..|xs| - 1] || a == last by {
        assert xs == xs[..|xs| - 1] + [last];
      }
      if last in excluded then init else init + [last]
  }

  /** Exclusion keeps the order of the input: a concatenation is filtered piecewise. */
  lemma {:induction false} ExcludeAppend(xs: seq<Action>, ys: seq<Action>, excluded: seq<Action>)
    ensures Exclude(xs + ys, excluded) == Exclude(xs, excluded) + Exclude(ys, excluded)
    decreases |ys|
  {
    if ys == [] {
      assert xs + ys == xs;
    } else {
      var zs := xs + ys;
      var init := ys[..|ys| - 1];
      var last := ys[|ys| - 1];
      assert zs[..|zs| - 1] == xs + init;
      assert zs[|zs| - 1] == last;
      ExcludeAppend(xs, init, excluded);
      var ex, ei := Exclude(xs, excluded), Exclude(init, excluded);
      if last in excluded {
        assert Exclude(ys, excluded) == ei;
        assert Exclude(zs, excluded) == Exclude(xs + init, excluded);
      } else {
        assert Exclude(ys, excluded) == ei + [last];
        assert Exclude(zs, excluded) == (ex + ei) + [last];
        assert (ex + ei) + [last] == ex + (ei + [last]);
      }
    }
  }

  /** A single action survives exactly when it is not excluded, once. */
  lemma ExcludeSingle(x: Action, excluded: seq<Action>)
    ensures Exclude([x], excluded) == (if x in excluded then [] else [x])
  {
    assert [x][..0] == [];
  }

  /** Whether an action is recorded: in the base group or the additional actions and not excluded, or always notified. */
  ghost predicate IsAvailable(a: Action, config: AuditLogConfig, catalog: Catalog)
  {
    || ((a in BaseGroup(config.groupSize, catalog) || a in ParseActionString(config.additionalActions, catalog.supported))
        && a !in ParseActionString(config.excludeActions, catalog.supported))
    || a in catalog.notified
  }

  /**
   * `getAvailableActions`: the base group, then the additional actions,
   * without the excluded ones, then every always-notified action, each once.
   */
  method GetAvailableActions(config: AuditLogConfig, catalog: Catalog) returns (availableActions: seq<Action>)
    ensures NoDuplicates(availableActions)
    ensures forall a :: a in availableActions <==> IsAvailable(a, config, catalog)
    ensures forall a :: a in catalog.notified ==> a in availableActions
    ensures availableActions == Dedup(Exclude(
              BaseGroup(config.groupSize, catalog) + ParseActionString(config.additionalActions, catalog.supported),
              ParseActionString(config.excludeActions, catalog.supported)) + catalog.notified)
  {
    var actions: seq<Action> := BaseGroup(config.groupSize, catalog);
    var additionalActions := ParseActionString(config.additionalActions, catalog.supported);
    actions := actions + additionalActions;
    var excludeActions := ParseActionString(config.excludeActions, catalog.supported);
    var filteredAvailableActions := Exclude(actions, excludeActions);
    filteredAvailableActions := filteredAvailableActions + catalog.notified;
    availableActions := Dedup(filteredAvailableActions);
  }

  /** `shoudUpdateActivity`: whether an action is among the available actions. */
  method ShouldUpdateActivity(action: Action, config: AuditLogConfig, catalog: Catalog) returns (shouldUpdate: bool)
    ensures shouldUpdate <==> IsAvailable(action, config, catalog)
  {
    var availableActions := GetAvailableActions(config, catalog);
    shouldUpdate := action in availableActions;
  }

  /**
   * The `update` event listener: the activity is updated only for an
   * available action, and `updated` is emitted only after an update that
   * did not fail. `updateSucceeds` stands for the outcome of the database call.
   */
  method OnActivityUpdate(action: Action, config: AuditLogConfig, catalog: Catalog, updateSucceeds: bool)
    returns (updateCalled: bool, updatedEmitted: bool)
    ensures updateCalled <==> IsAvailable(action, config, catalog)
    ensures updatedEmitted <==> IsAvailable(action, config, catalog) && updateSucceeds
  {
    updateCalled := false;
    updatedEmitted := false;
    var shouldUpdate := ShouldUpdateActivity(action, config, catalog);
    if shouldUpdate {
      updateCalled := true;
      if !updateSucceeds {
        return;
      }
      updatedEmitted := true;
    }
  }

  /** An always-notified action is recorded even when the configuration excludes it. */
  lemma NotifiedActionsSurviveExclusion(a: Action, config: AuditLogConfig, catalog: Catalog)
    requires a in catalog.notified
    ensures IsAvailable(a, config, catalog)
  {
  }

  /** An excluded action that is not always notified is not recorded. */
  lemma ExcludedActionsAreDropped(a: Action, config: AuditLogConfig, catalog: Catalog)
    requires a in ParseActionString(config.excludeActions, catalog.supported)
    requires a !in catalog.notified
    ensures !IsAvailable(a, config, catalog)
  {
  }

  // ---------------------------------------------------------------------
  // TTL index
  // ---------------------------------------------------------------------

  const TARGET_INDEX_NAME: string := "createdAt_1"
  const DEFAULT_ACTIVITY_EXPIRATION_SECONDS: int := 2592000

  /** Where the expiry comes from: no config manager, or the value it holds for `app:activityExpirationSeconds`. */
  datatype ExpirationSource = NoConfigManager | ConfigManager(activityExpirationSeconds: Option<int>)

  /** An existing index: its name and its `expireAfterSeconds`, if any. */
  datatype IndexInfo = IndexInfo(name: string, expireAfterSeconds: Option<int>)

  /** What `createTtlIndex` does to the collection. */
  datatype TtlPlan = TtlPlan(dropIndex: bool, createIndex: bool, expireAfterSeconds: Option<int>)

  function ActivityExpirationSeconds(source: ExpirationSource): (s: Option<int>)
    ensures source.NoConfigManager? ==> s == Some(DEFAULT_ACTIVITY_EXPIRATION_SECONDS)
    ensures source.ConfigManager? ==> s == source.activityExpirationSeconds
  {
    match source
    case NoConfigManager => Some(DEFAULT_ACTIVITY_EXPIRATION_SECONDS)
    case ConfigManager(seconds) => seconds
  }

  /** `indexes.find(i => i.name === name)`. */
  function FindIndex(indexes: seq<IndexInfo>, name: string): (found: Option<IndexInfo>)
    ensures found.None? <==> forall i :: 0 <= i < |indexes| ==> indexes[i].name != name
    ensures found.Some? ==> found.value in indexes && found.value.name == name
    decreases |indexes|
  {
    if indexes == [] then None
    else if indexes[0].name == name then Some(indexes[0])
    else FindIndex(indexes[1..], name)
  }

  /** The decision of `createTtlIndex`. */
  function PlanTtlIndex(source: ExpirationSource, indexes: seq<IndexInfo>): TtlPlan
  {
    var seconds := ActivityExpirationSeconds(source);
    var found := FindIndex(indexes, TARGET_INDEX_NAME);
    var isNotSpec := found.None? || found.value.expireAfterSeconds.None? || found.value.expireAfterSeconds != seconds;
    var shouldDrop := found.Some? && isNotSpec;
    var shouldCreate := found.None? || shouldDrop;
    TtlPlan(shouldDrop, shouldCreate, seconds)
  }

  /** The plan drops only an index it then recreates, and changes nothing exactly when a matching TTL index exists. */
  lemma PlanTtlIndexDecision(source: ExpirationSource, indexes: seq<IndexInfo>)
    ensures var plan := PlanTtlIndex(source, indexes);
      var found := FindIndex(indexes, TARGET_INDEX_NAME);
      && plan.expireAfterSeconds == ActivityExpirationSeconds(source)
      && (plan.dropIndex ==> plan.createIndex)
      && (plan.dropIndex <==> found.Some? && (found.value.expireAfterSeconds.None? || found.value.expireAfterSeconds != plan.expireAfterSeconds))
      && (plan.createIndex <==> found.None? || plan.dropIndex)
      && (!plan.createIndex <==> found.Some? && found.value.expireAfterSeconds.Some? && found.value.expireAfterSeconds == plan.expireAfterSeconds)
  {
  }

  /** `find` returns the first index with the name, whatever follows it. */
  lemma {:induction false} FindIndexIsFirst(indexes: seq<IndexInfo>, name: string, i: nat)
    requires i < |indexes| && indexes[i].name == name
    requires forall j :: 0 <= j < i ==> indexes[j].name != name
    ensures FindIndex(indexes, name) == Some(indexes[i])
    decreases i
  {
    if i > 0 {
      FindIndexIsFirst(indexes[1..], name, i - 1);
    }
  }

  /** The items of `indexes` not named `name`, in order. */
  function WithoutIndex(indexes: seq<IndexInfo>, name: string): (r: seq<IndexInfo>)
    ensures forall i :: 0 <= i < |r| ==> r[i].name != name
    decreases |indexes|
  {
    if indexes == [] then []
    else if indexes[0].name == name then WithoutIndex(indexes[1..], name)
    else [indexes[0]] + WithoutIndex(indexes[1..], name)
  }

  /** Dropping by name keeps the order of the other indexes: a concatenation is filtered piecewise. */
  lemma {:induction false} WithoutIndexAppend(a: seq<IndexInfo>, b: seq<IndexInfo>, name: string)
    ensures WithoutIndex(a + b, name) == WithoutIndex(a, name) + WithoutIndex(b, name)
    decreases |a|
  {
    if a != [] {
      assert (a + b)[1..] == a[1..] + b;
      WithoutIndexAppend(a[1..], b, name);
    } else {
      assert a + b == b;
    }
  }

  /** An index survives the drop exactly when it was there and has a different name. */
  lemma {:induction false} WithoutIndexMembers(indexes: seq<IndexInfo>, name: string, x: IndexInfo)
    ensures x in WithoutIndex(indexes, name) <==> x in indexes && x.name != name
    decreases |indexes|
  {
    if indexes != [] {
      WithoutIndexMembers(indexes[1..], name, x);
      assert indexes == [indexes[0]] + indexes[1..];
    }
  }

  /** The collection's indexes after the plan's `dropIndex` and `createIndex` calls. */
  function ApplyTtlPlan(indexes: seq<IndexInfo>, plan: TtlPlan): seq<IndexInfo>
  {
    var kept := if plan.dropIndex then WithoutIndex(indexes, TARGET_INDEX_NAME) else indexes;
    if plan.createIndex then kept + [IndexInfo(TARGET_INDEX_NAME, plan.expireAfterSeconds)] else kept
  }

  lemma {:induction false} FindAfterAppend(indexes: seq<IndexInfo>, extra: IndexInfo)
    requires forall i :: 0 <= i < |indexes| ==> indexes[i].name != extra.name
    ensures FindIndex(indexes + [extra], extra.name) == Some(extra)
    decreases |indexes|
  {
    if indexes == [] {
      assert indexes + [extra] == [extra];
    } else {
      assert (indexes + [extra])[1..] == indexes[1..] + [extra];
      FindAfterAppend(indexes[1..], extra);
    }
  }

  /** With a configured expiry, running the plan once leaves nothing for a second run to do. */
  lemma TtlPlanConverges(source: ExpirationSource, indexes: seq<IndexInfo>)
    requires ActivityExpirationSeconds(source).Some?
    ensures var after := ApplyTtlPlan(indexes, PlanTtlIndex(source, indexes));
      var again := PlanTtlIndex(source, after);
      !again.dropIndex && !again.createIndex
  {
    var plan := PlanTtlIndex(source, indexes);
    var created := IndexInfo(TARGET_INDEX_NAME, plan.expireAfterSeconds);
    if plan.createIndex {
      if plan.dropIndex {
        FindAfterAppend(WithoutIndex(indexes, TARGET_INDEX_NAME), created);
      } else {
        FindAfterAppend(indexes, created);
      }
    }
  }

  /**
   * With a config manager that holds no expiry, every run finds the index
   * it created without `expireAfterSeconds` and drops it again.
   */
  lemma TtlPlanWithoutExpiryNeverSettles(indexes: seq<IndexInfo>)
    ensures var source := ConfigManager(None);
      var after := ApplyTtlPlan(indexes, PlanTtlIndex(source, indexes));
      PlanTtlIndex(source, after).dropIndex
  {
    var source := ConfigManager(None);
    var plan := PlanTtlIndex(source, indexes);
    var created := IndexInfo(TARGET_INDEX_NAME, None);
    assert plan.createIndex;
    if plan.dropIndex {
      FindAfterAppend(WithoutIndex(indexes, TARGET_INDEX_NAME), created);
    } else {
      FindAfterAppend(indexes, created);
    }
  }
}
