/**
 * The PostgreSQL-backed store as an object whose four tables its methods
 * update. Each method stages its changes (the session) and publishes them
 * with one commit at the end; when the store raises on the way
 * (`storeFault`), the error is logged and swallowed and the commit is never
 * reached, so nothing changes.
 */
module Persistence {
  import opened Records
  import opened Queries
  import opened Operations
  import opened Properties

  class Store {
    var users: seq<User>
    var connections: seq<Connection>
    var redirections: seq<Redirection>
    var pending: seq<PendingRedirection>

    /** The four tables as one value. */
    function Contents(): Db
      reads this
    {
      Db(users, connections, redirections, pending)
    }

    constructor ()
      ensures Contents() == Db([], [], [], [])
      ensures Wellformed(Contents())
    {
      users, connections, redirections, pending := [], [], [], [];
    }

    /** `store_license`: update the user's row with the license and activate it, or create it so. */
    method StoreLicense(userId: UserId, licenseCode: string, now: Instant, storeFault: bool)
      modifies this
      ensures Contents() == if storeFault then old(Contents()) else LicenseStored(old(Contents()), userId, licenseCode, now)
      ensures Wellformed(old(Contents())) ==> Wellformed(Contents())
      ensures !storeFault && UniqueUsers(old(users)) ==>
        Filter(users, UserIs(userId)) == [User(userId, Some(licenseCode), Some(now), true)]
    {
      ghost var before := Contents();
      var staged := users;
      var found := FirstIndex(staged, UserIs(userId));
      if found.Some? {
        var i := found.value;
        staged := staged[i := staged[i].(licenseCode := Some(licenseCode), validatedAt := Some(now), active := true)];
      } else {
        staged := staged + [User(userId, Some(licenseCode), Some(now), true)];
      }
      if !storeFault {
        users := staged;
        if UniqueUsers(before.users) { LicenseStoredSpec(before, userId, licenseCode, now); }
        if Wellformed(before) { LicenseStoredKeepsWellformed(before, userId, licenseCode, now); }
      }
    }

    /** `store_connection`: make sure the user has a row, then replace the (user, phone) connection. */
    method StoreConnection(userId: UserId, phone: string, now: Instant, stamp: string, storeFault: bool)
      modifies this
      ensures Contents() == if storeFault then old(Contents()) else ConnectionStored(old(Contents()), userId, phone, now, stamp)
      ensures Wellformed(old(Contents())) ==> Wellformed(Contents())
      ensures !storeFault && UniqueConnections(old(connections)) ==>
        Filter(connections, ConnectionKey(userId, phone)) == [Connection(userId, phone, now, true, stamp)]
    {
      ghost var before := Contents();
      var stagedUsers := StageUser(userId);
      var staged := connections;
      var existing := FirstIndex(staged, ConnectionKey(userId, phone));
      if existing.Some? {
        staged := RemoveAt(staged, existing.value);
      }
      staged := staged + [Connection(userId, phone, now, true, stamp)];
      assert staged == ConnectionReplaced(before.connections, userId, phone, now, stamp);
      if !storeFault {
        users, connections := stagedUsers, staged;
        if UniqueConnections(before.connections) { ConnectionStoredSpec(before, userId, phone, now, stamp); }
        if Wellformed(before) { ConnectionStoredKeepsWellformed(before, userId, phone, now, stamp); }
      }
    }

    /**
     * `store_redirection`: make sure the user has a row, then apply `action`:
     * "add" replaces the active rule on (user, phone), "remove" deletes and
     * "change" rewrites the first rule with that name; any other action only
     * keeps the user row.
     */
    method StoreRedirection(
      userId: UserId, name: string, phone: string, action: string,
      channelName: Option<string>, sourceId: Option<ChatId>, destinationId: Option<ChatId>,
      now: Instant, stamp: string, storeFault: bool)
      modifies this
      ensures Contents() == if storeFault then old(Contents())
        else RedirectionStored(old(Contents()), userId, name, phone, action, channelName, sourceId, destinationId, now, stamp)
      ensures Wellformed(old(Contents())) && (action == "change" ==> ChangeTargetFree(old(redirections), userId, name, phone))
        ==> Wellformed(Contents())
      ensures AllRulesActive(old(redirections)) ==> AllRulesActive(redirections)
      ensures !storeFault && action == "add" && UniqueActiveRules(old(redirections)) ==>
        UserRedirections(redirections, userId, phone, false) ==
          [RedirectionInfo(name, ChannelNameOr(channelName, name), ACTIVE_STATUS)]
    {
      ghost var before := Contents();
      ghost var after := RedirectionStored(before, userId, name, phone, action, channelName, sourceId, destinationId, now, stamp);
      if AllRulesActive(before.redirections) {
        RulesAfterKeepActive(before.redirections, userId, name, phone, action, channelName, sourceId, destinationId, now, stamp);
      }
      if action == "add" && UniqueActiveRules(before.redirections) {
        RuleAddedListed(before.redirections, userId, name, phone, channelName, sourceId, destinationId, now, stamp);
      }
      if Wellformed(before) && (action == "change" ==> ChangeTargetFree(before.redirections, userId, name, phone)) {
        RedirectionStoredKeepsWellformed(before, userId, name, phone, action, channelName, sourceId, destinationId, now, stamp);
      }

      var stagedUsers := StageUser(userId);
      var staged := StageRules(userId, name, phone, action, channelName, sourceId, destinationId, now, stamp);
      assert stagedUsers == after.users && staged == after.redirections;
      if !storeFault {
        users, redirections := stagedUsers, staged;
      }
    }

    /** The get-or-create step: the users table with a placeholder row added if the user has none. */
    method StageUser(userId: UserId) returns (staged: seq<User>)
      ensures staged == EnsureUser(users, userId)
    {
      staged := users;
      if FirstIndex(staged, UserIs(userId)).None? {
        staged := staged + [Placeholder(userId)];
      }
    }

    /** The redirections table as `store_redirection` leaves it, before the commit. */
    method StageRules(
      userId: UserId, name: string, phone: string, action: string,
      channelName: Option<string>, sourceId: Option<ChatId>, destinationId: Option<ChatId>,
      now: Instant, stamp: string)
      returns (staged: seq<Redirection>)
      ensures staged == RulesAfter(redirections, userId, name, phone, action, channelName, sourceId, destinationId, now, stamp)
    {
      staged := redirections;
      if action == "add" {
        var existing := FirstIndex(staged, ActiveRule(userId, phone));
        var replacedInfo := "";
        if existing.Some? {
          replacedInfo := ReplacementNote(staged[existing.value].name);
          staged := RemoveAt(staged, existing.value);
        }
        staged := staged + [Redirection(userId, name, phone, ChannelNameOr(channelName, name), sourceId, destinationId,
                                        now, None, stamp, true, replacedInfo)];
      } else if action == "remove" {
        var found := FirstIndex(staged, NamedRule(userId, name));
        if found.Some? {
          staged := RemoveAt(staged, found.value);
        }
      } else if action == "change" {
        var found := FirstIndex(staged, NamedRule(userId, name));
        if found.Some? {
          var i := found.value;
          staged := staged[i := staged[i].(phoneNumber := phone, channelName := ChannelNameOr(channelName, name),
                                           sourceId := sourceId, destinationId := destinationId, updatedAt := Some(now))];
        }
      }
    }

    /** `store_pending_redirection`: the user's pending entry is replaced by the new one. */
    method StorePendingRedirection(userId: UserId, name: string, phone: string, now: Instant, storeFault: bool)
      modifies this
      ensures Contents() == if storeFault then old(Contents()) else PendingStored(old(Contents()), userId, name, phone, now)
      ensures Wellformed(old(Contents())) ==> Wellformed(Contents())
      ensures !storeFault && UniquePending(old(pending)) ==>
        PendingLookup(pending, userId, false) == Some(PendingInfo(name, phone, now))
    {
      ghost var before := Contents();
      var staged := pending;
      var existing := FirstIndex(staged, PendingFor(userId));
      if existing.Some? {
        staged := RemoveAt(staged, existing.value);
      }
      staged := staged + [PendingRedirection(userId, name, phone, now)];
      if !storeFault {
        pending := staged;
        if UniquePending(before.pending) { PendingStoredSpec(before.pending, userId, name, phone, now); }
      }
    }

    /** `clear_pending_redirection`: delete the user's pending entry; commit only when there was one. */
    method ClearPendingRedirection(userId: UserId, storeFault: bool)
      modifies this
      ensures Contents() == if storeFault then old(Contents()) else PendingClearedFrom(old(Contents()), userId)
      ensures Wellformed(old(Contents())) ==> Wellformed(Contents())
      ensures !storeFault && UniquePending(old(pending)) ==> PendingLookup(pending, userId, false) == None
    {
      ghost var before := Contents();
      var found := FirstIndex(pending, PendingFor(userId));
      if found.Some? {
        var staged := RemoveAt(pending, found.value);
        if !storeFault {
          pending := staged;
        }
      }
      if !storeFault && UniquePending(before.pending) {
        PendingClearedSpec(before.pending, userId);
      }
    }
  }
}
