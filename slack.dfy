/**
 * The Slack-proxy relation service: it keeps the cached command permissions
 * of each GROWI relation fresh and decides which relations may serve a
 * command or an interaction.
 *
 * The HTTP request for the supported commands and the repository save are
 * not modelled: the answer of the request is an input (`FetchResult`), the
 * clock is an input (`now`, in milliseconds), and the saved relation is the
 * same object that was updated. The distance to expiry comes from an entity
 * method that is not part of this model, so it is an input as well.
 */
module Slack {
  import opened Wrappers

  /** A permission value of the supported-commands answer: a boolean, or the channels it is allowed in. */
  datatype Perm = Flag(allowed: bool) | Channels(names: seq<string>)

  /**
   * A permission object: `keys` is the order `Object.keys` lists the
   * command names in, `values` the value stored under each.
   */
  datatype PermissionMap = PermissionMap(keys: seq<string>, values: map<string, Perm>)

  /** `map[command]`, with `None` for a command the map does not hold. */
  function Lookup(m: PermissionMap, command: string): (p: Option<Perm>)
    ensures p.Some? <==> command in m.values
    ensures p.Some? ==> p.value == m.values[command]
  {
    if command in m.values then Some(m.values[command]) else None
  }

  const HOUR_MS: int := 60 * 60 * 1000
  /** A blocking refresh happens below 0, a background refresh below one day. */
  const REFRESH_AHEAD_MS: int := 24 * HOUR_MS
  /** Freshly synchronised permissions stay valid for 48 hours. */
  const VALIDITY_MS: int := 48 * HOUR_MS

  class Relation {
    const growiUri: string
    var permissionsForSingleUseCommands: PermissionMap
    var permissionsForBroadcastUseCommands: PermissionMap
    var expiredAtCommands: int

    constructor (growiUri: string, singleUse: PermissionMap, broadcastUse: PermissionMap, expiredAt: int)
      ensures this.growiUri == growiUri
      ensures permissionsForSingleUseCommands == singleUse
      ensures permissionsForBroadcastUseCommands == broadcastUse
      ensures expiredAtCommands == expiredAt
    {
      this.growiUri := growiUri;
      permissionsForSingleUseCommands := singleUse;
      permissionsForBroadcastUseCommands := broadcastUse;
      expiredAtCommands := expiredAt;
    }
  }

  /** What the supported-commands request answered. */
  datatype FetchResult =
    | Fetched(broadcastUse: PermissionMap, singleUse: PermissionMap)
    | FetchFailed

  /** Why `syncSupportedGrowiCommands` threw. */
  datatype SyncError =
    /** The request URL is built from `relation.growiUri` before the null check, so a null relation fails there. */
    | NullRelationDereferenced
    /** The request itself failed. */
    | RequestFailed
    /** The repository's `save` failed after the new maps and expiry were written onto the relation. */
    | SaveFailed

  /**
   * Fetch the permission maps and store them on the relation, with a new
   * expiry 48 hours after `now`, then save it (`saved` is whether the
   * repository's `save` succeeds). A failed request leaves the relation as
   * it was; a failed save leaves it updated in memory.
   */
  method SyncSupportedGrowiCommands(relation: Relation?, fetch: FetchResult, saved: bool, now: int)
    returns (r: Result<Relation, SyncError>)
    modifies relation
    ensures relation == null ==> r == Failure(NullRelationDereferenced)
    ensures relation != null && fetch.FetchFailed? ==> r == Failure(RequestFailed) && unchanged(relation)
    ensures relation != null && fetch.Fetched? ==>
      && r == (if saved then Success(relation) else Failure(SaveFailed))
      && relation.permissionsForBroadcastUseCommands == fetch.broadcastUse
      && relation.permissionsForSingleUseCommands == fetch.singleUse
      && relation.expiredAtCommands == now + VALIDITY_MS
  {
    if relation == null {
      return Failure(NullRelationDereferenced);
    }
    if fetch.FetchFailed? {
      return Failure(RequestFailed);
    }
    relation.permissionsForBroadcastUseCommands := fetch.broadcastUse;
    relation.permissionsForSingleUseCommands := fetch.singleUse;
    relation.expiredAtCommands := now + VALIDITY_MS;
    if !saved {
      return Failure(SaveFailed);
    }
    return Success(relation);
  }

  /**
   * Bring a relation's cached permissions up to date.
   *
   * `distance` is the signed time from the base date to the relation's
   * expiry. Expired: refresh and wait, `null` if the request or the save throws.
   * Expiring within a day: start a refresh in the background
   * (`backgroundRefresh`) and return the relation as it is now. Otherwise
   * return it untouched.
   */
  method SyncRelation(relation: Relation?, distance: int, fetch: FetchResult, saved: bool, now: int)
    returns (synced: Relation?, backgroundRefresh: bool)
    modifies relation
    ensures relation == null ==> synced == null && !backgroundRefresh
    ensures relation != null && distance < 0 ==>
      && !backgroundRefresh
      && (fetch.FetchFailed? ==> synced == null && unchanged(relation))
      && (fetch.Fetched? ==>
            && synced == (if saved then relation else null)
            && relation.permissionsForBroadcastUseCommands == fetch.broadcastUse
            && relation.permissionsForSingleUseCommands == fetch.singleUse
            && relation.expiredAtCommands == now + VALIDITY_MS)
    ensures relation != null && 0 <= distance ==>
      && synced == relation
      && unchanged(relation)
      && backgroundRefresh == (distance < REFRESH_AHEAD_MS)
  {
    if relation == null {
      return null, false;
    }
    if distance < 0 {
      var r := SyncSupportedGrowiCommands(relation, fetch, saved, now);
      if r.Success? {
        return r.value, false;
      }
      return null, false;
    }
    backgroundRefresh := distance < REFRESH_AHEAD_MS;
    synced := relation;
  }

  /**
   * The answer of a permission check for a looked-up value: no value denies,
   * a channel list allows the channels it lists, a boolean answers itself.
   */
  function IsPermitted(p: Option<Perm>, channelName: string): (allowed: bool)
    ensures allowed <==> p == Some(Flag(true)) || (p.Some? && p.value.Channels? && channelName in p.value.names)
  {
    match p
    case None => false
    case Some(Channels(names)) => channelName in names
    case Some(Flag(b)) => b
  }

  /** Whether the relation allows the single-use command in the channel, after synchronising it. */
  method IsPermissionsForSingleUseCommands(
    relation: Relation?, growiCommandType: string, channelName: string,
    distance: int, fetch: FetchResult, saved: bool, now: int)
    returns (allowed: bool)
    modifies relation
    ensures relation == null ==> !allowed
    ensures relation != null && distance < 0 && fetch.FetchFailed? ==> !allowed && unchanged(relation)
    ensures relation != null && distance < 0 && fetch.Fetched? ==>
      && allowed == (saved && IsPermitted(Lookup(fetch.singleUse, growiCommandType), channelName))
      && relation.permissionsForBroadcastUseCommands == fetch.broadcastUse
      && relation.permissionsForSingleUseCommands == fetch.singleUse
      && relation.expiredAtCommands == now + VALIDITY_MS
    ensures relation != null && 0 <= distance ==>
      allowed == IsPermitted(Lookup(relation.permissionsForSingleUseCommands, growiCommandType), channelName)
      && unchanged(relation)
  {
    var synced, _ := SyncRelation(relation, distance, fetch, saved, now);
    if synced == null {
      return false;
    }
    var permission := Lookup(relation.permissionsForSingleUseCommands, growiCommandType);
    allowed := IsPermitted(permission, channelName);
  }

  /** Whether the relation allows the broadcast-use command in the channel, after synchronising it. */
  method IsPermissionsUseBroadcastCommands(
    relation: Relation?, growiCommandType: string, channelName: string,
    distance: int, fetch: FetchResult, saved: bool, now: int)
    returns (allowed: bool)
    modifies relation
    ensures relation == null ==> !allowed
    ensures relation != null && distance < 0 && fetch.FetchFailed? ==> !allowed && unchanged(relation)
    ensures relation != null && distance < 0 && fetch.Fetched? ==>
      && allowed == (saved && IsPermitted(Lookup(fetch.broadcastUse, growiCommandType), channelName))
      && relation.permissionsForBroadcastUseCommands == fetch.broadcastUse
      && relation.permissionsForSingleUseCommands == fetch.singleUse
      && relation.expiredAtCommands == now + VALIDITY_MS
    ensures relation != null && 0 <= distance ==>
      allowed == IsPermitted(Lookup(relation.permissionsForBroadcastUseCommands, growiCommandType), channelName)
      && unchanged(relation)
  {
    var synced, _ := SyncRelation(relation, distance, fetch, saved, now);
    if synced == null {
      return false;
    }
    var permission := Lookup(relation.permissionsForBroadcastUseCommands, growiCommandType);
    allowed := IsPermitted(permission, channelName);
  }

  // ---------------------------------------------------------------------
  // Interactions
  // ---------------------------------------------------------------------

  /** `\w` of a regular expression: an ASCII letter, digit or underscore. */
  predicate IsWordChar(c: char)
  {
    ('a' <= c <= 'z') || ('A' <= c <= 'Z') || ('0' <= c <= '9') || c == '_'
  }

  /**
   * Whether `(^command$)|(^command:\w+)` finds a match in `id`, for a
   * command name without regular-expression metacharacters.
   */
  predicate IdMatches(command: string, id: string)
  {
    || id == command
    || (|id| >= |command| + 2 && id[..|command|] == command
        && id[|command|] == ':' && IsWordChar(id[|command| + 1]))
  }

  /** A command counts for an interaction when its pattern matches the action id or the callback id. */
  predicate Matches(command: string, actionId: string, callbackId: string)
  {
    IdMatches(command, actionId) || IdMatches(command, callbackId)
  }

  /** Command names in the order they are visited: single-use keys, then broadcast-use keys. */
  function VisitOrder(r: Relation): seq<string>
    reads r
  {
    r.permissionsForSingleUseCommands.keys + r.permissionsForBroadcastUseCommands.keys
  }

  /** The value an interaction checks: the single-use value, or the broadcast-use value when there is none. */
  function Resolve(r: Relation, command: string): (p: Option<Perm>)
    reads r
    ensures command in r.permissionsForSingleUseCommands.values ==>
      p == Some(r.permissionsForSingleUseCommands.values[command])
    ensures command !in r.permissionsForSingleUseCommands.values ==>
      p == Lookup(r.permissionsForBroadcastUseCommands, command)
  {
    var single := Lookup(r.permissionsForSingleUseCommands, command);
    if single.None? then Lookup(r.permissionsForBroadcastUseCommands, command) else single
  }

  /** Whether a matched command lets the relation through: `true`, or a channel list holding the channel. */
  predicate Grants(p: Option<Perm>, channelName: string)
  {
    p == Some(Flag(true)) || (p.Some? && p.value.Channels? && channelName in p.value.names)
  }

  /** The three collections `checkPermissionForInteractions` fills. */
  datatype Outcome = Outcome(allowedRelations: seq<Relation>, disallowedGrowiUrls: set<string>, commandName: string)

  const Start := Outcome([], {}, "")

  /** The effect of visiting one command name of one relation. */
  function KeyStep(acc: Outcome, r: Relation, command: string, actionId: string, callbackId: string, channelName: string): Outcome
    reads r
  {
    if !Matches(command, actionId, callbackId) then acc
    else if Grants(Resolve(r, command), channelName) then
      acc.(allowedRelations := acc.allowedRelations + [r], commandName := command)
    else
      acc.(disallowedGrowiUrls := acc.disallowedGrowiUrls + {r.growiUri}, commandName := command)
  }

  /** Visiting the command names `keys` of relation `r`, in order. */
  function KeysFold(acc: Outcome, r: Relation, keys: seq<string>, actionId: string, callbackId: string, channelName: string): Outcome
    reads r
    decreases |keys|
  {
    if keys == [] then acc
    else KeyStep(KeysFold(acc, r, keys[..|keys| - 1], actionId, callbackId, channelName),
                 r, keys[|keys| - 1], actionId, callbackId, channelName)
  }

  /** Visiting every command name of every relation, relations in input order. */
  function RelationsFold(acc: Outcome, rels: seq<Relation>, actionId: string, callbackId: string, channelName: string): Outcome
    reads rels
    decreases |rels|
  {
    if rels == [] then acc
    else
      var last := rels[|rels| - 1];
      KeysFold(RelationsFold(acc, rels[..|rels| - 1], actionId, callbackId, channelName),
               last, VisitOrder(last), actionId, callbackId, channelName)
  }

  /** The result of `checkPermissionForInteractions` as a function of the relations' current state. */
  function Interactions(rels: seq<Relation>, actionId: string, callbackId: string, channelName: string): Outcome
    reads rels
  {
    RelationsFold(Start, rels, actionId, callbackId, channelName)
  }

  /**
   * Sort the relations into those allowed to serve the interaction and the
   * URIs of those that are not, and report the last matched command name.
   * The callbacks of the source never wait, so relations and their command
   * names are visited one after another in input order.
   */
  method CheckPermissionForInteractions(relations: seq<Relation>, actionId: string, callbackId: string, channelName: string)
    returns (allowedRelations: seq<Relation>, disallowedGrowiUrls: set<string>, commandName: string)
    ensures Outcome(allowedRelations, disallowedGrowiUrls, commandName) == Interactions(relations, actionId, callbackId, channelName)
  {
    allowedRelations, disallowedGrowiUrls, commandName := [], {}, "";
    var i := 0;
    while i < |relations|
      invariant 0 <= i <= |relations|
      invariant Outcome(allowedRelations, disallowedGrowiUrls, commandName)
             == RelationsFold(Start, relations[..i], actionId, callbackId, channelName)
    {
      var relation := relations[i];
      var singleUse := relation.permissionsForSingleUseCommands.keys;
      var broadCastUse := relation.permissionsForBroadcastUseCommands.keys;
      var keys := singleUse + broadCastUse;
      ghost var before := Outcome(allowedRelations, disallowedGrowiUrls, commandName);
      var j := 0;
      while j < |keys|
        invariant 0 <= j <= |keys|
        invariant Outcome(allowedRelations, disallowedGrowiUrls, commandName)
               == KeysFold(before, relation, keys[..j], actionId, callbackId, channelName)
      {
        var tempCommandName := keys[j];
        assert keys[..j + 1][..j] == keys[..j];
        if Matches(tempCommandName, actionId, callbackId) {
          commandName := tempCommandName;
          var permissionForInteractions := Lookup(relation.permissionsForSingleUseCommands, tempCommandName);
          if permissionForInteractions.None? {
            permissionForInteractions := Lookup(relation.permissionsForBroadcastUseCommands, tempCommandName);
          }
          if permissionForInteractions == Some(Flag(true)) {
            allowedRelations := allowedRelations + [relation];
          } else if permissionForInteractions.Some? && permissionForInteractions.value.Channels?
                    && channelName in permissionForInteractions.value.names {
            allowedRelations := allowedRelations + [relation];
          } else {
            disallowedGrowiUrls := disallowedGrowiUrls + {relation.growiUri};
          }
        }
        j := j + 1;
      }
      assert keys[..j] == keys;
      assert relations[..i + 1][..i] == relations[..i];
      i := i + 1;
    }
    assert relations[..i] == relations;
  }

  // ---------------------------------------------------------------------
  // Properties of the interaction check
  // ---------------------------------------------------------------------

  /** Command name `command` of relation `r` matches the interaction and lets `r` through. */
  ghost predicate GrantingVisit(r: Relation, command: string, actionId: string, callbackId: string, channelName: string)
    reads r
  {
    command in VisitOrder(r) && Matches(command, actionId, callbackId) && Grants(Resolve(r, command), channelName)
  }

  /** Command name `command` of relation `r` matches the interaction and does not let `r` through. */
  ghost predicate DenyingVisit(r: Relation, command: string, actionId: string, callbackId: string, channelName: string)
    reads r
  {
    command in VisitOrder(r) && Matches(command, actionId, callbackId) && !Grants(Resolve(r, command), channelName)
  }

  lemma {:induction false} KeysFoldMembership(acc: Outcome, r: Relation, keys: seq<string>, actionId: string, callbackId: string, channelName: string)
    ensures var out := KeysFold(acc, r, keys, actionId, callbackId, channelName);
      && (forall x :: x in out.allowedRelations <==>
            x in acc.allowedRelations
            || (x == r && exists k :: k in keys && Matches(k, actionId, callbackId) && Grants(Resolve(r, k), channelName)))
      && (forall u :: u in out.disallowedGrowiUrls <==>
            u in acc.disallowedGrowiUrls
            || (u == r.growiUri && exists k :: k in keys && Matches(k, actionId, callbackId) && !Grants(Resolve(r, k), channelName)))
    decreases |keys|
  {
    if keys != [] {
      var init := keys[..|keys| - 1];
      var k := keys[|keys| - 1];
      KeysFoldMembership(acc, r, init, actionId, callbackId, channelName);
      assert keys == init + [k];
      forall k' ensures k' in keys <==> k' in init || k' == k {
        assert k' in keys <==> k' in init + [k];
      }
    }
  }

  /**
   * A relation is among the allowed relations exactly when it is one of the
   * inputs and one of its command names matches the interaction and grants it.
   */
  lemma {:induction false} AllowedRelationsAreGranted(rels: seq<Relation>, actionId: string, callbackId: string, channelName: string)
    ensures forall x :: x in Interactions(rels, actionId, callbackId, channelName).allowedRelations <==>
      x in rels && exists k :: GrantingVisit(x, k, actionId, callbackId, channelName)
    decreases |rels|
  {
    if rels != [] {
      var init := rels[..|rels| - 1];
      var last := rels[|rels| - 1];
      var before := RelationsFold(Start, init, actionId, callbackId, channelName);
      var out := Interactions(rels, actionId, callbackId, channelName);
      assert before == Interactions(init, actionId, callbackId, channelName);
      assert out == KeysFold(before, last, VisitOrder(last), actionId, callbackId, channelName);
      AllowedRelationsAreGranted(init, actionId, callbackId, channelName);
      KeysFoldMembership(before, last, VisitOrder(last), actionId, callbackId, channelName);
      assert rels == init + [last];
      forall x
        ensures x in out.allowedRelations <==> x in rels && exists k :: GrantingVisit(x, k, actionId, callbackId, channelName)
      {
        assert x in rels <==> x in init + [last];
        if x == last {
          if exists k :: k in VisitOrder(last) && Matches(k, actionId, callbackId) && Grants(Resolve(last, k), channelName) {
            var k :| k in VisitOrder(last) && Matches(k, actionId, callbackId) && Grants(Resolve(last, k), channelName);
            assert GrantingVisit(x, k, actionId, callbackId, channelName);
          }
          if exists k :: GrantingVisit(x, k, actionId, callbackId, channelName) {
            var k :| GrantingVisit(x, k, actionId, callbackId, channelName);
            assert k in VisitOrder(last) && Matches(k, actionId, callbackId) && Grants(Resolve(last, k), channelName);
          }
        }
      }
    }
  }

  /**
   * A URI is among the disallowed URIs exactly when some input relation with
   * that URI has a command name that matches the interaction but does not grant it.
   */
  lemma {:induction false} DisallowedUrlsAreDenied(rels: seq<Relation>, actionId: string, callbackId: string, channelName: string)
    ensures forall u :: u in Interactions(rels, actionId, callbackId, channelName).disallowedGrowiUrls <==>
      exists x, k :: x in rels && x.growiUri == u && DenyingVisit(x, k, actionId, callbackId, channelName)
    decreases |rels|
  {
    if rels != [] {
      var init := rels[..|rels| - 1];
      var last := rels[|rels| - 1];
      var before := RelationsFold(Start, init, actionId, callbackId, channelName);
      var out := Interactions(rels, actionId, callbackId, channelName);
      assert before == Interactions(init, actionId, callbackId, channelName);
      assert out == KeysFold(before, last, VisitOrder(last), actionId, callbackId, channelName);
      DisallowedUrlsAreDenied(init, actionId, callbackId, channelName);
      KeysFoldMembership(before, last, VisitOrder(last), actionId, callbackId, channelName);
      assert rels == init + [last];
      forall u
        ensures u in out.disallowedGrowiUrls <==>
          exists x, k :: x in rels && x.growiUri == u && DenyingVisit(x, k, actionId, callbackId, channelName)
      {
        if u in before.disallowedGrowiUrls {
          var x, k :| x in init && x.growiUri == u && DenyingVisit(x, k, actionId, callbackId, channelName);
          assert x in rels;
        }
        if u == last.growiUri && exists k :: k in VisitOrder(last) && Matches(k, actionId, callbackId) && !Grants(Resolve(last, k), channelName) {
          var k :| k in VisitOrder(last) && Matches(k, actionId, callbackId) && !Grants(Resolve(last, k), channelName);
          assert DenyingVisit(last, k, actionId, callbackId, channelName);
        }
        if exists x, k :: x in rels && x.growiUri == u && DenyingVisit(x, k, actionId, callbackId, channelName) {
          var x, k :| x in rels && x.growiUri == u && DenyingVisit(x, k, actionId, callbackId, channelName);
          assert x in init + [last];
          if x != last {
            assert x in init;
          }
        }
      }
    }
  }

  /** The command names of `keys` that match the interaction, in order. */
  function MatchedIn(keys: seq<string>, actionId: string, callbackId: string): (m: seq<string>)
    ensures forall k :: k in m ==> k in keys && Matches(k, actionId, callbackId)
    decreases |keys|
  {
    if keys == [] then []
    else
      var init := MatchedIn(keys[..|keys| - 1], actionId, callbackId);
      var k := keys[|keys| - 1];
      if Matches(k, actionId, callbackId) then init + [k] else init
  }

  /** Every matched command name over all relations, in visiting order. */
  function MatchedKeys(rels: seq<Relation>, actionId: string, callbackId: string): seq<string>
    reads rels
    decreases |rels|
  {
    if rels == [] then []
    else
      var last := rels[|rels| - 1];
      MatchedKeys(rels[..|rels| - 1], actionId, callbackId) + MatchedIn(VisitOrder(last), actionId, callbackId)
  }

  /** The last element of `s`, or `none` for an empty `s`. */
  function LastOr(s: seq<string>, none: string): string
  {
    if s == [] then none else s[|s| - 1]
  }

  lemma {:induction false} KeysFoldCommandName(acc: Outcome, r: Relation, keys: seq<string>, actionId: string, callbackId: string, channelName: string)
    ensures KeysFold(acc, r, keys, actionId, callbackId, channelName).commandName
         == LastOr(MatchedIn(keys, actionId, callbackId), acc.commandName)
    decreases |keys|
  {
    if keys != [] {
      KeysFoldCommandName(acc, r, keys[..|keys| - 1], actionId, callbackId, channelName);
    }
  }

  /** `commandName` is the last command name that matched, over all relations in order, or `''` if none did. */
  lemma {:induction false} CommandNameIsLastMatch(rels: seq<Relation>, actionId: string, callbackId: string, channelName: string)
    ensures Interactions(rels, actionId, callbackId, channelName).commandName
         == LastOr(MatchedKeys(rels, actionId, callbackId), "")
    decreases |rels|
  {
    if rels != [] {
      var init := rels[..|rels| - 1];
      var last := rels[|rels| - 1];
      CommandNameIsLastMatch(init, actionId, callbackId, channelName);
      KeysFoldCommandName(RelationsFold(Start, init, actionId, callbackId, channelName), last, VisitOrder(last), actionId, callbackId, channelName);
    }
  }

  /** A relation none of whose command names match the interaction contributes nothing. */
  lemma {:induction false} UnmatchedRelationContributesNothing(acc: Outcome, r: Relation, keys: seq<string>, actionId: string, callbackId: string, channelName: string)
    requires forall k :: k in keys ==> !Matches(k, actionId, callbackId)
    ensures KeysFold(acc, r, keys, actionId, callbackId, channelName) == acc
    decreases |keys|
  {
    if keys != [] {
      var init := keys[..|keys| - 1];
      assert forall k :: k in init ==> k in keys;
      UnmatchedRelationContributesNothing(acc, r, init, actionId, callbackId, channelName);
    }
  }

  /**
   * A command name present in both maps is visited twice, so a relation
   * that grants it is appended to the allowed relations twice.
   */
  lemma CommandInBothMapsIsPushedTwice(r: Relation)
    requires r.permissionsForSingleUseCommands == PermissionMap(["search"], map["search" := Flag(true)])
    requires r.permissionsForBroadcastUseCommands == PermissionMap(["search"], map["search" := Flag(false)])
    ensures Interactions([r], "search", "search", "general") == Outcome([r, r], {}, "search")
  {
    var keys := VisitOrder(r);
    assert [r][..0] == [] && [r][0] == r;
    assert Interactions([r], "search", "search", "general") == KeysFold(Start, r, keys, "search", "search", "general") by {
      assert RelationsFold(Start, [r][..0], "search", "search", "general") == Start;
    }
    assert keys == ["search", "search"];
    assert keys[..1] == ["search"] && keys[..1][..0] == [];
    assert Resolve(r, "search") == Some(Flag(true));
    var once := Outcome([r], {}, "search");
    assert KeysFold(Start, r, keys[..1], "search", "search", "general") == once;
    assert KeysFold(Start, r, keys, "search", "search", "general") == KeyStep(once, r, "search", "search", "search", "general");
  }

  /** A single-use `true` lets the relation through in any channel. */
  lemma SingleUseTrueAllowsAnyChannel(r: Relation, channelName: string)
    requires r.permissionsForSingleUseCommands == PermissionMap(["search"], map["search" := Flag(true)])
    requires r.permissionsForBroadcastUseCommands == PermissionMap([], map[])
    ensures Interactions([r], "search", "search:handlerX", channelName) == Outcome([r], {}, "search")
  {
    var keys := VisitOrder(r);
    assert [r][..0] == [] && [r][0] == r;
    assert Interactions([r], "search", "search:handlerX", channelName) == KeysFold(Start, r, keys, "search", "search:handlerX", channelName) by {
      assert RelationsFold(Start, [r][..0], "search", "search:handlerX", channelName) == Start;
    }
    assert keys == ["search"] && keys[..0] == [];
    assert IdMatches("search", "search:handlerX") by {
      assert "search:handlerX"[..6] == "search";
    }
    assert Resolve(r, "search") == Some(Flag(true));
    assert KeysFold(Start, r, keys, "search", "search:handlerX", channelName) == KeyStep(Start, r, "search", "search", "search:handlerX", channelName);
  }

  /** A broadcast-use channel list that lacks the channel sends the relation's URI to the disallowed set. */
  lemma ChannelListWithoutChannelDisallows(r: Relation)
    requires r.permissionsForSingleUseCommands == PermissionMap([], map[])
    requires r.permissionsForBroadcastUseCommands == PermissionMap(["notify"], map["notify" := Channels(["alerts"])])
    ensures Interactions([r], "notify", "notify", "general") == Outcome([], {r.growiUri}, "notify")
  {
    var keys := VisitOrder(r);
    assert [r][..0] == [] && [r][0] == r;
    assert Interactions([r], "notify", "notify", "general") == KeysFold(Start, r, keys, "notify", "notify", "general") by {
      assert RelationsFold(Start, [r][..0], "notify", "notify", "general") == Start;
    }
    assert keys == ["notify"] && keys[..0] == [];
    assert Resolve(r, "notify") == Some(Channels(["alerts"]));
    assert "general" !in ["alerts"];
    assert !Grants(Resolve(r, "notify"), "general");
    assert KeysFold(Start, r, keys, "notify", "notify", "general") == KeyStep(Start, r, "notify", "notify", "notify", "general");
  }

  /** The interaction check and the single-command checks agree on what a permission value allows. */
  lemma GrantsAgreesWithIsPermitted(p: Option<Perm>, channelName: string)
    ensures Grants(p, channelName) == IsPermitted(p, channelName)
  {
  }
}
