/**
 * What the persistence operations guarantee: the uniqueness rules each one
 * keeps, the row it leaves behind, what the reads see afterwards, and that
 * rows outside the key an operation works on are left as they were.
 */
module Properties {
  import opened Records
  import opened Queries
  import opened Operations

  // Users.

  /** The get-or-create step keeps one row per user and leaves the user with a row. */
  lemma EnsureUserKeepsUnique(users: seq<User>, u: UserId)
    requires UniqueUsers(users)
    ensures UniqueUsers(EnsureUser(users, u))
    ensures Filter(EnsureUser(users, u), UserIs(u)) != []
  {
    var r := EnsureUser(users, u);
    if FirstIndex(users, UserIs(u)).None? {
      forall v
        ensures AtMostOne(r, UserIs(v))
      {
        AppendKeepsAtMostOne(users, Placeholder(u), UserIs(v));
      }
    }
    match FirstIndex(users, UserIs(u))
    case Some(i) =>
      assert UserIs(u)(r[i]);
    case None =>
      assert UserIs(u)(r[|r| - 1]);
    FirstIndexHeadsFilter(r, UserIs(u));
  }

  /** Storing a license leaves the user with exactly one row, licensed and active; nobody else changes. */
  lemma LicenseStoredSpec(db: Db, u: UserId, code: string, now: Instant)
    requires UniqueUsers(db.users)
    ensures var r := LicenseStored(db, u, code, now);
      && Filter(r.users, UserIs(u)) == [User(u, Some(code), Some(now), true)]
      && UniqueUsers(r.users)
      && (forall v :: v != u ==> Filter(r.users, UserIs(v)) == Filter(db.users, UserIs(v)))
      && r.connections == db.connections && r.redirections == db.redirections && r.pending == db.pending
  {
    var us := db.users;
    var licensed := User(u, Some(code), Some(now), true);
    var r := Licensed(us, u, code, now);
    match FirstIndex(us, UserIs(u))
    case Some(i) =>
      assert r == us[i := licensed];
      UpdateSelects(us, i, licensed, UserIs(u));
      FirstIsOnly(us, UserIs(u));
      forall v
        ensures AtMostOne(r, UserIs(v))
      {
        UpdateKeepsAtMostOne(us, i, licensed, UserIs(v));
      }
      forall v | v != u
        ensures Filter(r, UserIs(v)) == Filter(us, UserIs(v))
      {
        FilterUpdate(us, i, licensed, UserIs(v));
      }
    case None =>
      assert r == us + [licensed];
      FilterAppend(us, [licensed], UserIs(u));
      forall v
        ensures AtMostOne(r, UserIs(v))
      {
        AppendKeepsAtMostOne(us, licensed, UserIs(v));
      }
      forall v | v != u
        ensures Filter(r, UserIs(v)) == Filter(us, UserIs(v))
      {
        FilterAppend(us, [licensed], UserIs(v));
      }
  }

  // Connections.

  /**
   * Storing a connection leaves exactly one row for (user, phone), the
   * fresh active one, and every other (user, phone) pair sees the same rows as before.
   */
  lemma ConnectionStoredSpec(db: Db, u: UserId, phone: string, now: Instant, stamp: string)
    requires UniqueConnections(db.connections)
    ensures var r := ConnectionStored(db, u, phone, now, stamp);
      && Filter(r.connections, ConnectionKey(u, phone)) == [Connection(u, phone, now, true, stamp)]
      && UniqueConnections(r.connections)
      && (forall u2, p2 :: (u2 != u || p2 != phone) ==>
            Filter(r.connections, ConnectionKey(u2, p2)) == Filter(db.connections, ConnectionKey(u2, p2)))
      && r.users == EnsureUser(db.users, u) && r.redirections == db.redirections && r.pending == db.pending
  {
    var cs := db.connections;
    var key := ConnectionKey(u, phone);
    var row := Connection(u, phone, now, true, stamp);
    ReplaceFirstSelects(cs, key, row);
    forall u2, p2
      ensures AtMostOne(ReplaceFirst(cs, key, row), ConnectionKey(u2, p2))
    {
      ReplaceFirstKeepsAtMostOne(cs, key, row, ConnectionKey(u2, p2));
    }
    forall u2, p2 | u2 != u || p2 != phone
      ensures Filter(ReplaceFirst(cs, key, row), ConnectionKey(u2, p2)) == Filter(cs, ConnectionKey(u2, p2))
    {
      ReplaceFirstKeepsOthers(cs, key, row, ConnectionKey(u2, p2));
    }
  }

  /** Every entry of the connection list shows a connection row of the user. */
  lemma UserConnectionsFromRows(cs: seq<Connection>, u: UserId, k: nat)
    requires k < |UserConnections(cs, u, false)|
    ensures exists j :: 0 <= j < |cs| && cs[j].userId == u && UserConnections(cs, u, false)[k] == Info(cs[j])
  {
    var mine := Filter(cs, ConnectionOf(u));
    assert mine[k] in cs;
    var j :| 0 <= j < |cs| && cs[j] == mine[k];
  }

  /** The connection list follows table order: a concatenation lists each part in turn. */
  lemma UserConnectionsAppend(a: seq<Connection>, b: seq<Connection>, u: UserId)
    ensures UserConnections(a + b, u, false) == UserConnections(a, u, false) + UserConnections(b, u, false)
  {
    var p := ConnectionOf(u);
    FilterAppend(a, b, p);
    var fa, fb := Filter(a, p), Filter(b, p);
    var l, la, lb := UserConnections(a + b, u, false), UserConnections(a, u, false), UserConnections(b, u, false);
    assert |l| == |la + lb|;
    forall k | 0 <= k < |l|
      ensures l[k] == (la + lb)[k]
    {
      if k < |fa| {
        assert l[k] == Info((fa + fb)[k]) == Info(fa[k]) == la[k];
      } else {
        assert l[k] == Info((fa + fb)[k]) == Info(fb[k - |fa|]) == lb[k - |fa|];
      }
    }
  }

  /** A single row is listed exactly when it belongs to the user. */
  lemma UserConnectionsOne(c: Connection, u: UserId)
    ensures UserConnections([c], u, false) == if c.userId == u then [Info(c)] else []
  {
    assert Filter([c], ConnectionOf(u)) == if c.userId == u then [c] else [];
  }

  /** After storing, the user's list holds the fresh connection, and other users' lists are unchanged. */
  lemma ConnectionStoredListed(cs: seq<Connection>, u: UserId, phone: string, now: Instant, stamp: string)
    ensures var r := ConnectionReplaced(cs, u, phone, now, stamp);
      && Info(Connection(u, phone, now, true, stamp)) in UserConnections(r, u, false)
      && (forall v :: v != u ==> UserConnections(r, v, false) == UserConnections(cs, v, false))
  {
    var key := ConnectionKey(u, phone);
    var row := Connection(u, phone, now, true, stamp);
    var r := ReplaceFirst(cs, key, row);
    var mine := Filter(r, ConnectionOf(u));
    assert row in mine by {
      assert r[|r| - 1] == row;
    }
    var k :| 0 <= k < |mine| && mine[k] == row;
    assert UserConnections(r, u, false)[k] == Info(row);
    forall v | v != u
      ensures UserConnections(r, v, false) == UserConnections(cs, v, false)
    {
      ReplaceFirstKeepsOthers(cs, key, row, ConnectionOf(v));
    }
  }

  // Redirections: add.

  /**
   * An `add` leaves exactly one active rule for (user, phone), the new one,
   * and every other (user, phone) pair sees the same active rules as before.
   */
  lemma RuleAddedSpec(
    rs: seq<Redirection>, u: UserId, name: string, phone: string, channelName: Option<string>,
    sourceId: Option<ChatId>, destinationId: Option<ChatId>, now: Instant, stamp: string)
    requires UniqueActiveRules(rs)
    ensures var r := RuleAdded(rs, u, name, phone, channelName, sourceId, destinationId, now, stamp);
      && Filter(r, ActiveRule(u, phone)) == [r[|r| - 1]]
      && UniqueActiveRules(r)
      && (forall u2, p2 :: (u2 != u || p2 != phone) ==>
            Filter(r, ActiveRule(u2, p2)) == Filter(rs, ActiveRule(u2, p2)))
  {
    var key := ActiveRule(u, phone);
    var added := NewRule(u, name, phone, channelName, sourceId, destinationId, now, stamp, ReplacementInfo(rs, u, phone));
    ReplaceFirstSelects(rs, key, added);
    forall u2, p2
      ensures AtMostOne(ReplaceFirst(rs, key, added), ActiveRule(u2, p2))
    {
      ReplaceFirstKeepsAtMostOne(rs, key, added, ActiveRule(u2, p2));
    }
    forall u2, p2 | u2 != u || p2 != phone
      ensures Filter(ReplaceFirst(rs, key, added), ActiveRule(u2, p2)) == Filter(rs, ActiveRule(u2, p2))
    {
      ReplaceFirstKeepsOthers(rs, key, added, ActiveRule(u2, p2));
    }
  }

  /** With no active rule on (user, phone), an `add` records an empty note and only appends. */
  lemma RuleAddedFresh(
    rs: seq<Redirection>, u: UserId, name: string, phone: string, channelName: Option<string>,
    sourceId: Option<ChatId>, destinationId: Option<ChatId>, now: Instant, stamp: string)
    requires forall j :: 0 <= j < |rs| ==> !(rs[j].userId == u && rs[j].phoneNumber == phone && rs[j].active)
    ensures var r := RuleAdded(rs, u, name, phone, channelName, sourceId, destinationId, now, stamp);
      r[|r| - 1].replacementInfo == "" && r == rs + [r[|r| - 1]]
  {
  }

  /**
   * When rule `i` is the first active rule on (user, phone), an `add` records
   * a note naming it and swaps exactly that row for the new one.
   */
  lemma RuleAddedReplaces(
    rs: seq<Redirection>, u: UserId, name: string, phone: string, channelName: Option<string>,
    sourceId: Option<ChatId>, destinationId: Option<ChatId>, now: Instant, stamp: string, i: nat)
    requires i < |rs| && rs[i].userId == u && rs[i].phoneNumber == phone && rs[i].active
    requires forall j :: 0 <= j < i ==> !(rs[j].userId == u && rs[j].phoneNumber == phone && rs[j].active)
    ensures var r := RuleAdded(rs, u, name, phone, channelName, sourceId, destinationId, now, stamp);
      && r[|r| - 1].replacementInfo == ReplacementNote(rs[i].name)
      && multiset(r) == multiset(rs) - multiset{rs[i]} + multiset{r[|r| - 1]}
  {
    FirstIsAt(rs, ActiveRule(u, phone), i);
  }

  /** Immediately after an `add`, listing that phone's rules shows the new rule alone. */
  lemma RuleAddedListed(
    rs: seq<Redirection>, u: UserId, name: string, phone: string, channelName: Option<string>,
    sourceId: Option<ChatId>, destinationId: Option<ChatId>, now: Instant, stamp: string)
    requires UniqueActiveRules(rs)
    ensures UserRedirections(RuleAdded(rs, u, name, phone, channelName, sourceId, destinationId, now, stamp), u, phone, false)
      == [RedirectionInfo(name, ChannelNameOr(channelName, name), ACTIVE_STATUS)]
  {
    RuleAddedSpec(rs, u, name, phone, channelName, sourceId, destinationId, now, stamp);
  }

  /** Every entry of the rule list shows an active rule of the user on that phone. */
  lemma UserRedirectionsFromRows(rs: seq<Redirection>, u: UserId, phone: string, k: nat)
    requires k < |UserRedirections(rs, u, phone, false)|
    ensures exists j ::
      0 <= j < |rs| && ActiveRule(u, phone)(rs[j]) && UserRedirections(rs, u, phone, false)[k] == RuleInfo(rs[j])
  {
    var active := Filter(rs, ActiveRule(u, phone));
    assert active[k] in rs;
    var j :| 0 <= j < |rs| && rs[j] == active[k];
  }

  /** The rule list follows table order: a concatenation lists each part in turn. */
  lemma UserRedirectionsAppend(a: seq<Redirection>, b: seq<Redirection>, u: UserId, phone: string)
    ensures UserRedirections(a + b, u, phone, false) == UserRedirections(a, u, phone, false) + UserRedirections(b, u, phone, false)
  {
    var p := ActiveRule(u, phone);
    FilterAppend(a, b, p);
    var fa, fb := Filter(a, p), Filter(b, p);
    var l, la, lb := UserRedirections(a + b, u, phone, false), UserRedirections(a, u, phone, false), UserRedirections(b, u, phone, false);
    assert |l| == |la + lb|;
    forall k | 0 <= k < |l|
      ensures l[k] == (la + lb)[k]
    {
      if k < |fa| {
        assert l[k] == RuleInfo((fa + fb)[k]) == RuleInfo(fa[k]) == la[k];
      } else {
        assert l[k] == RuleInfo((fa + fb)[k]) == RuleInfo(fb[k - |fa|]) == lb[k - |fa|];
      }
    }
  }

  /** A single rule is listed exactly when it is an active rule of the user on that phone. */
  lemma UserRedirectionsOne(x: Redirection, u: UserId, phone: string)
    ensures UserRedirections([x], u, phone, false) ==
      if x.userId == u && x.phoneNumber == phone && x.active
      then [RedirectionInfo(x.name, x.channelName, ACTIVE_STATUS)] else []
  {
    assert Filter([x], ActiveRule(u, phone)) == if ActiveRule(u, phone)(x) then [x] else [];
  }

  // Redirections: remove.

  /**
   * A `remove` leaves the rules of every other (user, name) as they were;
   * without a rule of that name it changes nothing.
   */
  lemma RuleRemovedSpec(rs: seq<Redirection>, u: UserId, name: string)
    ensures var r := RuleRemoved(rs, u, name);
      && ((forall j :: 0 <= j < |rs| ==> !(rs[j].userId == u && rs[j].name == name)) ==> r == rs)
      && (forall u2, n2 :: (u2 != u || n2 != name) ==>
            Filter(r, NamedRule(u2, n2)) == Filter(rs, NamedRule(u2, n2)))
  {
    var r := RuleRemoved(rs, u, name);
    forall u2, n2 | u2 != u || n2 != name
      ensures Filter(r, NamedRule(u2, n2)) == Filter(rs, NamedRule(u2, n2))
    {
      DeleteFirstKeepsOthers(rs, NamedRule(u, name), NamedRule(u2, n2));
    }
  }

  /**
   * When rule `i` is the first of the user with that name, whatever its phone
   * or flag, a `remove` deletes exactly that row and keeps the others in order.
   */
  lemma RuleRemovedFirst(rs: seq<Redirection>, u: UserId, name: string, i: nat)
    requires i < |rs| && rs[i].userId == u && rs[i].name == name
    requires forall j :: 0 <= j < i ==> !(rs[j].userId == u && rs[j].name == name)
    ensures RuleRemoved(rs, u, name) == rs[..i] + rs[i + 1..]
  {
    FirstIsAt(rs, NamedRule(u, name), i);
  }

  // Redirections: change.

  /** A `change` never adds or deletes rows; without a rule of that name it changes nothing. */
  lemma RuleChangedSpec(
    rs: seq<Redirection>, u: UserId, name: string, phone: string, channelName: Option<string>,
    sourceId: Option<ChatId>, destinationId: Option<ChatId>, now: Instant)
    ensures var r := RuleChanged(rs, u, name, phone, channelName, sourceId, destinationId, now);
      && |r| == |rs|
      && ((forall j :: 0 <= j < |rs| ==> !(rs[j].userId == u && rs[j].name == name)) ==> r == rs)
  {
  }

  /**
   * When rule `i` is the first of the user with that name, a `change`
   * rewrites its phone, channel name, source, destination and update time,
   * and nothing else: its name, creation and replacement data and flag stay,
   * and so do all other rows.
   */
  lemma RuleChangedFirst(
    rs: seq<Redirection>, u: UserId, name: string, phone: string, channelName: Option<string>,
    sourceId: Option<ChatId>, destinationId: Option<ChatId>, now: Instant, i: nat)
    requires i < |rs| && rs[i].userId == u && rs[i].name == name
    requires forall j :: 0 <= j < i ==> !(rs[j].userId == u && rs[j].name == name)
    ensures var r := RuleChanged(rs, u, name, phone, channelName, sourceId, destinationId, now);
      && (forall j :: 0 <= j < |rs| && j != i ==> r[j] == rs[j])
      && r[i].userId == rs[i].userId && r[i].name == rs[i].name
      && r[i].createdAt == rs[i].createdAt && r[i].replacedAt == rs[i].replacedAt
      && r[i].active == rs[i].active && r[i].replacementInfo == rs[i].replacementInfo
      && r[i].phoneNumber == phone && r[i].channelName == ChannelNameOr(channelName, name)
      && r[i].sourceId == sourceId && r[i].destinationId == destinationId
      && r[i].updatedAt == Some(now)
  {
    FirstIsAt(rs, NamedRule(u, name), i);
  }

  /** A `change` keeps one active rule per (user, phone) when its new phone is free. */
  lemma RuleChangedKeepsUnique(
    rs: seq<Redirection>, u: UserId, name: string, phone: string, channelName: Option<string>,
    sourceId: Option<ChatId>, destinationId: Option<ChatId>, now: Instant)
    requires UniqueActiveRules(rs) && ChangeTargetFree(rs, u, name, phone)
    ensures UniqueActiveRules(RuleChanged(rs, u, name, phone, channelName, sourceId, destinationId, now))
  {
    match FirstIndex(rs, NamedRule(u, name))
    case None =>
    case Some(i) =>
      var y := rs[i].(phoneNumber := phone, channelName := ChannelNameOr(channelName, name),
                      sourceId := sourceId, destinationId := destinationId, updatedAt := Some(now));
      forall u2, p2
        ensures AtMostOne(rs[i := y], ActiveRule(u2, p2))
      {
        UpdateKeepsAtMostOne(rs, i, y, ActiveRule(u2, p2));
      }
  }

  /**
   * Without that condition a `change` can leave two active rules on one
   * phone: rule B is moved onto the phone rule A already holds.
   */
  lemma ChangeCanDuplicateActive()
    ensures var a := Redirection("7", "A", "+1", "A", None, None, 0, None, "", true, "");
      var b := Redirection("7", "B", "+2", "B", None, None, 0, None, "", true, "");
      && UniqueActiveRules([a, b])
      && !UniqueActiveRules(RuleChanged([a, b], "7", "B", "+1", None, None, None, 1))
  {
    var a := Redirection("7", "A", "+1", "A", None, None, 0, None, "", true, "");
    var b := Redirection("7", "B", "+2", "B", None, None, 0, None, "", true, "");
    var rs := [a, b];
    forall u2, p2
      ensures AtMostOne(rs, ActiveRule(u2, p2))
    {
      assert a.phoneNumber != b.phoneNumber;
    }
    assert FirstIndex(rs, NamedRule("7", "B")) == Some(1) by {
      assert !NamedRule("7", "B")(rs[0]);
      assert rs[1..] == [b];
    }
    var r := RuleChanged(rs, "7", "B", "+1", None, None, None, 1);
    assert ActiveRule("7", "+1")(r[0]) && ActiveRule("7", "+1")(r[1]);
    assert !AtMostOne(r, ActiveRule("7", "+1"));
  }

  /**
   * An `add` does not repair such a duplicate: it deletes only the first
   * active rule on the phone, so the changed rule B stays active beside the
   * new rule C.
   */
  lemma AddAfterChangeLeavesTwo()
    ensures var a := Redirection("7", "A", "+1", "A", None, None, 0, None, "", true, "");
      var b := Redirection("7", "B", "+2", "B", None, None, 0, None, "", true, "");
      var changed := RuleChanged([a, b], "7", "B", "+1", None, None, None, 1);
      !UniqueActiveRules(RuleAdded(changed, "7", "C", "+1", None, None, None, 2, ""))
  {
    var a := Redirection("7", "A", "+1", "A", None, None, 0, None, "", true, "");
    var b := Redirection("7", "B", "+2", "B", None, None, 0, None, "", true, "");
    assert FirstIndex([a, b], NamedRule("7", "B")) == Some(1) by {
      assert !NamedRule("7", "B")([a, b][0]);
      assert [a, b][1..] == [b];
    }
    var b' := b.(phoneNumber := "+1", updatedAt := Some(1));
    var rs := RuleChanged([a, b], "7", "B", "+1", None, None, None, 1);
    assert rs == [a, b'];
    assert FirstIndex(rs, ActiveRule("7", "+1")) == Some(0);
    var r := RuleAdded(rs, "7", "C", "+1", None, None, None, 2, "");
    assert DeleteFirst(rs, ActiveRule("7", "+1")) == [b'];
    assert r[0] == b' && |r| == 2;
    assert ActiveRule("7", "+1")(r[0]) && ActiveRule("7", "+1")(r[1]);
    assert !AtMostOne(r, ActiveRule("7", "+1"));
  }

  // Redirections: the whole call.

  /** Every action keeps all redirection rows active. */
  lemma RulesAfterKeepActive(
    rs: seq<Redirection>, u: UserId, name: string, phone: string, action: string,
    channelName: Option<string>, sourceId: Option<ChatId>, destinationId: Option<ChatId>,
    now: Instant, stamp: string)
    requires AllRulesActive(rs)
    ensures AllRulesActive(RulesAfter(rs, u, name, phone, action, channelName, sourceId, destinationId, now, stamp))
  {
    if action == "add" {
      DeleteFirstKeepsActive(rs, ActiveRule(u, phone));
      var kept := DeleteFirst(rs, ActiveRule(u, phone));
      var r := RuleAdded(rs, u, name, phone, channelName, sourceId, destinationId, now, stamp);
      assert r[..|r| - 1] == kept;
    } else if action == "remove" {
      DeleteFirstKeepsActive(rs, NamedRule(u, name));
    } else if action == "change" {
      var r := RuleChanged(rs, u, name, phone, channelName, sourceId, destinationId, now);
      assert forall j :: 0 <= j < |r| ==> r[j].active == rs[j].active;
    }
  }

  /** Rows that survive a deletion were rows of the table, so they are active when all of those were. */
  lemma DeleteFirstKeepsActive(rs: seq<Redirection>, p: Redirection -> bool)
    requires AllRulesActive(rs)
    ensures AllRulesActive(DeleteFirst(rs, p))
  {
    var kept := DeleteFirst(rs, p);
    forall j | 0 <= j < |kept|
      ensures kept[j].active
    {
      assert kept[j] in multiset(rs);
    }
  }

  /**
   * A `store_redirection` call keeps every uniqueness rule, provided a
   * `change` does not move a rule onto a phone another active rule holds.
   */
  lemma RedirectionStoredKeepsWellformed(
    db: Db, u: UserId, name: string, phone: string, action: string,
    channelName: Option<string>, sourceId: Option<ChatId>, destinationId: Option<ChatId>,
    now: Instant, stamp: string)
    requires Wellformed(db)
    requires action == "change" ==> ChangeTargetFree(db.redirections, u, name, phone)
    ensures Wellformed(RedirectionStored(db, u, name, phone, action, channelName, sourceId, destinationId, now, stamp))
  {
    var rs := db.redirections;
    EnsureUserKeepsUnique(db.users, u);
    if action == "add" {
      RuleAddedSpec(rs, u, name, phone, channelName, sourceId, destinationId, now, stamp);
    } else if action == "remove" {
      forall u2, p2
        ensures AtMostOne(RuleRemoved(rs, u, name), ActiveRule(u2, p2))
      {
        DeleteFirstKeepsAtMostOne(rs, NamedRule(u, name), ActiveRule(u2, p2));
      }
    } else if action == "change" {
      RuleChangedKeepsUnique(rs, u, name, phone, channelName, sourceId, destinationId, now);
    }
  }

  lemma ConnectionStoredKeepsWellformed(db: Db, u: UserId, phone: string, now: Instant, stamp: string)
    requires Wellformed(db)
    ensures Wellformed(ConnectionStored(db, u, phone, now, stamp))
  {
    EnsureUserKeepsUnique(db.users, u);
    ConnectionStoredSpec(db, u, phone, now, stamp);
  }

  lemma LicenseStoredKeepsWellformed(db: Db, u: UserId, code: string, now: Instant)
    requires Wellformed(db)
    ensures Wellformed(LicenseStored(db, u, code, now))
  {
    LicenseStoredSpec(db, u, code, now);
  }

  // Pending redirections.

  /**
   * Storing a pending redirection leaves the user exactly one entry, the new
   * one, which the lookup returns; other users' entries and lookups are unchanged.
   */
  lemma PendingStoredSpec(ps: seq<PendingRedirection>, u: UserId, name: string, phone: string, now: Instant)
    requires UniquePending(ps)
    ensures var r := PendingReplaced(ps, u, name, phone, now);
      && Filter(r, PendingFor(u)) == [PendingRedirection(u, name, phone, now)]
      && PendingLookup(r, u, false) == Some(PendingInfo(name, phone, now))
      && UniquePending(r)
      && (forall v :: v != u ==> Filter(r, PendingFor(v)) == Filter(ps, PendingFor(v)))
      && (forall v :: v != u ==> PendingLookup(r, v, false) == PendingLookup(ps, v, false))
  {
    var entry := PendingRedirection(u, name, phone, now);
    var r := ReplaceFirst(ps, PendingFor(u), entry);
    ReplaceFirstSelects(ps, PendingFor(u), entry);
    FirstIndexHeadsFilter(r, PendingFor(u));
    forall v
      ensures AtMostOne(r, PendingFor(v))
    {
      ReplaceFirstKeepsAtMostOne(ps, PendingFor(u), entry, PendingFor(v));
    }
    forall v | v != u
      ensures Filter(r, PendingFor(v)) == Filter(ps, PendingFor(v))
      ensures PendingLookup(r, v, false) == PendingLookup(ps, v, false)
    {
      ReplaceFirstKeepsOthers(ps, PendingFor(u), entry, PendingFor(v));
      LookupFollowsFilter(ps, r, v);
    }
  }

  /**
   * Clearing leaves the user with no pending entry; other users' entries and
   * lookups are unchanged. With no entry there is nothing to clear.
   */
  lemma PendingClearedSpec(ps: seq<PendingRedirection>, u: UserId)
    requires UniquePending(ps)
    ensures var r := PendingCleared(ps, u);
      && PendingLookup(r, u, false) == None
      && UniquePending(r)
      && (PendingLookup(ps, u, false) == None ==> r == ps)
      && (forall v :: v != u ==> Filter(r, PendingFor(v)) == Filter(ps, PendingFor(v)))
      && (forall v :: v != u ==> PendingLookup(r, v, false) == PendingLookup(ps, v, false))
  {
    var r := DeleteFirst(ps, PendingFor(u));
    DeleteFirstEmpties(ps, PendingFor(u));
    forall v
      ensures AtMostOne(r, PendingFor(v))
    {
      DeleteFirstKeepsAtMostOne(ps, PendingFor(u), PendingFor(v));
    }
    forall v | v != u
      ensures Filter(r, PendingFor(v)) == Filter(ps, PendingFor(v))
      ensures PendingLookup(r, v, false) == PendingLookup(ps, v, false)
    {
      DeleteFirstKeepsOthers(ps, PendingFor(u), PendingFor(v));
      LookupFollowsFilter(ps, r, v);
    }
  }

  /** The lookup of a user depends only on that user's entries. */
  lemma LookupFollowsFilter(ps: seq<PendingRedirection>, qs: seq<PendingRedirection>, v: UserId)
    requires Filter(ps, PendingFor(v)) == Filter(qs, PendingFor(v))
    ensures PendingLookup(ps, v, false) == PendingLookup(qs, v, false)
  {
    FirstIndexHeadsFilter(ps, PendingFor(v));
    FirstIndexHeadsFilter(qs, PendingFor(v));
  }

  /**
   * The handshake: of two successive pending requests only the second
   * remains and is returned, and clearing it leaves nothing to return.
   */
  lemma PendingLastWriterWins(
    ps: seq<PendingRedirection>, u: UserId,
    name1: string, phone1: string, at1: Instant,
    name2: string, phone2: string, at2: Instant)
    requires UniquePending(ps)
    ensures var twice := PendingReplaced(PendingReplaced(ps, u, name1, phone1, at1), u, name2, phone2, at2);
      && Filter(twice, PendingFor(u)) == [PendingRedirection(u, name2, phone2, at2)]
      && PendingLookup(twice, u, false) == Some(PendingInfo(name2, phone2, at2))
      && PendingLookup(PendingCleared(twice, u), u, false) == None
  {
    var once := PendingReplaced(ps, u, name1, phone1, at1);
    PendingStoredSpec(ps, u, name1, phone1, at1);
    PendingStoredSpec(once, u, name2, phone2, at2);
    PendingClearedSpec(PendingReplaced(once, u, name2, phone2, at2), u);
  }
}
