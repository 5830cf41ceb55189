/**
 * The persistence operations of the bot as pure functions: what each call
 * commits to the four tables, and what each read hands back. A table is a
 * sequence of rows in table order; `.first()` is the first matching row in
 * that order and a newly added row goes to the end.
 */
module Operations {
  import opened Records
  import opened Queries

  /** The four tables. */
  datatype Db = Db(
    users: seq<User>,
    connections: seq<Connection>,
    redirections: seq<Redirection>,
    pending: seq<PendingRedirection>)

  // The row filters the operations query with.

  function UserIs(userId: UserId): User -> bool {
    (x: User) => x.userId == userId
  }

  function ConnectionOf(userId: UserId): Connection -> bool {
    (c: Connection) => c.userId == userId
  }

  function ConnectionKey(userId: UserId, phone: string): Connection -> bool {
    (c: Connection) => c.userId == userId && c.phoneNumber == phone
  }

  function ActiveRule(userId: UserId, phone: string): Redirection -> bool {
    (x: Redirection) => x.userId == userId && x.phoneNumber == phone && x.active
  }

  function NamedRule(userId: UserId, name: string): Redirection -> bool {
    (x: Redirection) => x.userId == userId && x.name == name
  }

  function PendingFor(userId: UserId): PendingRedirection -> bool {
    (x: PendingRedirection) => x.userId == userId
  }

  // The uniqueness rules the store is meant to keep.

  /** At most one User row per user. */
  ghost predicate UniqueUsers(us: seq<User>) {
    forall u :: AtMostOne(us, UserIs(u))
  }

  /** At most one Connection row per (user, phone). */
  ghost predicate UniqueConnections(cs: seq<Connection>) {
    forall u, phone :: AtMostOne(cs, ConnectionKey(u, phone))
  }

  /** At most one active Redirection row per (user, phone). */
  ghost predicate UniqueActiveRules(rs: seq<Redirection>) {
    forall u, phone :: AtMostOne(rs, ActiveRule(u, phone))
  }

  /** At most one PendingRedirection row per user. */
  ghost predicate UniquePending(ps: seq<PendingRedirection>) {
    forall u :: AtMostOne(ps, PendingFor(u))
  }

  /** Every redirection row is active: rows are only ever inserted active, and never deactivated. */
  ghost predicate AllRulesActive(rs: seq<Redirection>) {
    forall j :: 0 <= j < |rs| ==> rs[j].active
  }

  /**
   * A `change` of the rule named `name` to `phone` does not clash: no active
   * rule other than the one being changed is already on (user, phone).
   */
  ghost predicate ChangeTargetFree(rs: seq<Redirection>, userId: UserId, name: string, phone: string) {
    match FirstIndex(rs, NamedRule(userId, name))
    case Some(i) => forall j :: 0 <= j < |rs| && j != i ==> !ActiveRule(userId, phone)(rs[j])
    case None => true
  }

  ghost predicate Wellformed(db: Db) {
    && UniqueUsers(db.users)
    && UniqueConnections(db.connections)
    && UniqueActiveRules(db.redirections)
    && UniquePending(db.pending)
  }

  // Users.

  /** The row created for a user first seen by a connection or redirection write. */
  function Placeholder(userId: UserId): User {
    User(userId, None, None, false)
  }

  /** The get-or-create step: a placeholder is added only when the user has no row. */
  function EnsureUser(users: seq<User>, userId: UserId): (r: seq<User>)
    ensures (exists i :: 0 <= i < |users| && users[i].userId == userId) ==> r == users
    ensures (forall i :: 0 <= i < |users| ==> users[i].userId != userId) ==> r == users + [Placeholder(userId)]
  {
    if FirstIndex(users, UserIs(userId)).Some? then users else users + [Placeholder(userId)]
  }

  /** The users table after a license is stored: the first row of the user is updated, or one is created. */
  function Licensed(users: seq<User>, userId: UserId, code: string, now: Instant): seq<User> {
    match FirstIndex(users, UserIs(userId))
    case Some(i) => users[i := users[i].(licenseCode := Some(code), validatedAt := Some(now), active := true)]
    case None => users + [User(userId, Some(code), Some(now), true)]
  }

  // Connections.

  /** Delete the first row for (user, phone), if any, then add a fresh active one. */
  function ConnectionReplaced(cs: seq<Connection>, userId: UserId, phone: string, now: Instant, stamp: string)
    : seq<Connection>
  {
    ReplaceFirst(cs, ConnectionKey(userId, phone), Connection(userId, phone, now, true, stamp))
  }

  /** The connection list of a user; a store fault yields the empty list. */
  function UserConnections(cs: seq<Connection>, userId: UserId, storeFault: bool): (r: seq<ConnectionInfo>)
    ensures storeFault ==> r == []
    ensures !storeFault ==> |r| == |Filter(cs, ConnectionOf(userId))|
    ensures !storeFault ==> forall k :: 0 <= k < |r| ==> r[k] == Info(Filter(cs, ConnectionOf(userId))[k])
    ensures !storeFault ==> forall j :: 0 <= j < |cs| && cs[j].userId == userId ==> Info(cs[j]) in r
    ensures (forall j :: 0 <= j < |cs| ==> cs[j].userId != userId) ==> r == []
  {
    if storeFault then []
    else
      var mine := Filter(cs, ConnectionOf(userId));
      assert forall k :: 0 <= k < |mine| ==> mine[k] in cs && mine[k].userId == userId;
      assert forall j :: 0 <= j < |cs| && cs[j].userId == userId ==> cs[j] in mine;
      var r := seq(|mine|, k requires 0 <= k < |mine| => Info(mine[k]));
      MapCovers(mine, Info, r);
      r
  }

  function Info(c: Connection): ConnectionInfo {
    ConnectionInfo(c.phoneNumber, c.connectedAt, c.active, c.replacedAt)
  }

  // Redirections.

  /** The row an `add` inserts. */
  function NewRule(
    userId: UserId, name: string, phone: string, channelName: Option<string>,
    sourceId: Option<ChatId>, destinationId: Option<ChatId>, now: Instant, stamp: string, info: string)
    : Redirection
  {
    Redirection(userId, name, phone, ChannelNameOr(channelName, name), sourceId, destinationId,
                now, None, stamp, true, info)
  }

  /** The note an `add` records: empty unless an active rule for (user, phone) is being replaced. */
  function ReplacementInfo(rs: seq<Redirection>, userId: UserId, phone: string): (r: string)
    ensures r == "" <==> forall j :: 0 <= j < |rs| ==> !ActiveRule(userId, phone)(rs[j])
    ensures r != "" ==> exists j :: 0 <= j < |rs| && ActiveRule(userId, phone)(rs[j]) && r == ReplacementNote(rs[j].name)
  {
    match FirstIndex(rs, ActiveRule(userId, phone))
    case Some(i) => ReplacementNote(rs[i].name)
    case None => ""
  }

  /** Delete the first active rule for (user, phone), if any, then add the new rule. */
  function RuleAdded(
    rs: seq<Redirection>, userId: UserId, name: string, phone: string, channelName: Option<string>,
    sourceId: Option<ChatId>, destinationId: Option<ChatId>, now: Instant, stamp: string)
    : (r: seq<Redirection>)
    ensures |r| > 0
    ensures var added := r[|r| - 1];
      && added.userId == userId && added.name == name && added.phoneNumber == phone
      && added.channelName == ChannelNameOr(channelName, name)
      && added.sourceId == sourceId && added.destinationId == destinationId
      && added.createdAt == now && added.updatedAt == None && added.replacedAt == stamp
      && added.active && added.replacementInfo == ReplacementInfo(rs, userId, phone)
  {
    var info := ReplacementInfo(rs, userId, phone);
    ReplaceFirst(rs, ActiveRule(userId, phone), NewRule(userId, name, phone, channelName, sourceId, destinationId, now, stamp, info))
  }

  /** Delete the first rule of the user with that name, whatever its phone and flag. */
  function RuleRemoved(rs: seq<Redirection>, userId: UserId, name: string): seq<Redirection> {
    DeleteFirst(rs, NamedRule(userId, name))
  }

  /** Rewrite the first rule of the user with that name in place. */
  function RuleChanged(
    rs: seq<Redirection>, userId: UserId, name: string, phone: string, channelName: Option<string>,
    sourceId: Option<ChatId>, destinationId: Option<ChatId>, now: Instant)
    : seq<Redirection>
  {
    match FirstIndex(rs, NamedRule(userId, name))
    case Some(i) =>
      rs[i := rs[i].(phoneNumber := phone, channelName := ChannelNameOr(channelName, name),
                     sourceId := sourceId, destinationId := destinationId, updatedAt := Some(now))]
    case None => rs
  }

  /** The redirections table after `store_redirection` with the given action. */
  function RulesAfter(
    rs: seq<Redirection>, userId: UserId, name: string, phone: string, action: string,
    channelName: Option<string>, sourceId: Option<ChatId>, destinationId: Option<ChatId>,
    now: Instant, stamp: string)
    : (r: seq<Redirection>)
    ensures action != "add" ==> |r| <= |rs|
    ensures action != "add" && action != "remove" && action != "change" ==> r == rs
  {
    if action == "add" then RuleAdded(rs, userId, name, phone, channelName, sourceId, destinationId, now, stamp)
    else if action == "remove" then RuleRemoved(rs, userId, name)
    else if action == "change" then RuleChanged(rs, userId, name, phone, channelName, sourceId, destinationId, now)
    else rs
  }

  /** The active rules of a user on one phone, in table order; a store fault yields the empty list. */
  function UserRedirections(rs: seq<Redirection>, userId: UserId, phone: string, storeFault: bool)
    : (r: seq<RedirectionInfo>)
    ensures storeFault ==> r == []
    ensures !storeFault ==> |r| == |Filter(rs, ActiveRule(userId, phone))|
    ensures !storeFault ==> forall k :: 0 <= k < |r| ==> r[k] == RuleInfo(Filter(rs, ActiveRule(userId, phone))[k])
    ensures forall k :: 0 <= k < |r| ==> r[k].status == ACTIVE_STATUS
    ensures !storeFault ==> forall j :: 0 <= j < |rs| && ActiveRule(userId, phone)(rs[j]) ==> RuleInfo(rs[j]) in r
    ensures (forall j :: 0 <= j < |rs| ==> !ActiveRule(userId, phone)(rs[j])) ==> r == []
  {
    if storeFault then []
    else
      var active := Filter(rs, ActiveRule(userId, phone));
      assert forall k :: 0 <= k < |active| ==> active[k] in rs && ActiveRule(userId, phone)(active[k]);
      assert forall j :: 0 <= j < |rs| && ActiveRule(userId, phone)(rs[j]) ==> rs[j] in active;
      var r := seq(|active|, k requires 0 <= k < |active| => RuleInfo(active[k]));
      MapCovers(active, RuleInfo, r);
      r
  }

  function RuleInfo(x: Redirection): RedirectionInfo {
    RedirectionInfo(x.name, x.channelName, ACTIVE_STATUS)
  }

  // Pending redirections.

  /** Delete the user's first pending row, if any, then add the new one. */
  function PendingReplaced(ps: seq<PendingRedirection>, userId: UserId, name: string, phone: string, now: Instant)
    : seq<PendingRedirection>
  {
    ReplaceFirst(ps, PendingFor(userId), PendingRedirection(userId, name, phone, now))
  }

  /** Delete the user's first pending row; without one nothing changes. */
  function PendingCleared(ps: seq<PendingRedirection>, userId: UserId): seq<PendingRedirection> {
    DeleteFirst(ps, PendingFor(userId))
  }

  /** The user's first pending row, if any; a store fault yields None. */
  function PendingLookup(ps: seq<PendingRedirection>, userId: UserId, storeFault: bool): (r: Option<PendingInfo>)
    ensures storeFault ==> r == None
    ensures !storeFault ==> (r == None <==> forall j :: 0 <= j < |ps| ==> ps[j].userId != userId)
    ensures r.Some? ==>
      exists j :: 0 <= j < |ps| && ps[j].userId == userId &&
        r.value == PendingInfo(ps[j].name, ps[j].phoneNumber, ps[j].createdAt)
  {
    if storeFault then None
    else match FirstIndex(ps, PendingFor(userId))
      case Some(i) => Some(PendingInfo(ps[i].name, ps[i].phoneNumber, ps[i].createdAt))
      case None => None
  }

  // What one call commits to the whole store.

  function LicenseStored(db: Db, userId: UserId, code: string, now: Instant): Db {
    db.(users := Licensed(db.users, userId, code, now))
  }

  function ConnectionStored(db: Db, userId: UserId, phone: string, now: Instant, stamp: string): Db {
    db.(users := EnsureUser(db.users, userId),
        connections := ConnectionReplaced(db.connections, userId, phone, now, stamp))
  }

  function RedirectionStored(
    db: Db, userId: UserId, name: string, phone: string, action: string,
    channelName: Option<string>, sourceId: Option<ChatId>, destinationId: Option<ChatId>,
    now: Instant, stamp: string)
    : Db
  {
    db.(users := EnsureUser(db.users, userId),
        redirections := RulesAfter(db.redirections, userId, name, phone, action,
                                   channelName, sourceId, destinationId, now, stamp))
  }

  function PendingStored(db: Db, userId: UserId, name: string, phone: string, now: Instant): Db {
    db.(pending := PendingReplaced(db.pending, userId, name, phone, now))
  }

  function PendingClearedFrom(db: Db, userId: UserId): Db {
    db.(pending := PendingCleared(db.pending, userId))
  }
}
