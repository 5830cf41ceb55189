# TeleFeed bot persistence layer, modelled in Dafny

This project models the PostgreSQL persistence operations of the TeleFeed
message-forwarding bot (`database_postgres.py`). The store keeps four tables:

- User rows, holding the license;
- Connection rows: the phone numbers a user has linked;
- Redirection rules: named forwarding rules from a source channel to a
  destination channel, scoped to a user and a phone;
- PendingRedirection rows: at most one provisional rule request per user,
  held while the bot resolves the channel identifiers.

The model proves that the operations keep these rules, except that `change`
can break the second (see below):

- one Connection per (user, phone);
- one active Redirection per (user, phone);
- one pending entry per user;
- one User row per user.

It also proves what row each write leaves behind, what the reads return
afterwards, and that rows outside the key an operation works on stay as they
were.

Layout, one module per file:

- `records.dfy` (`Records`): the row and view datatypes. It also holds the
  Python `channel_name or name` fallback and the replacement note.
- `queries.dfy` (`Queries`): the table primitives on sequences of rows in
  table order:
  - `FirstIndex` is `.first()`;
  - `Filter` is `.filter_by(...).all()`;
  - `RemoveAt`, `DeleteFirst` and `ReplaceFirst` model delete, and
    delete-then-insert;
  - generic lemmas about them.
- `operations.dfy` (`Operations`): each operation as a pure function on the
  tables:
  - what one call commits;
  - the three reads;
  - the uniqueness predicates (`Wellformed`).
- `properties.dfy` (`Properties`): the lemmas.
- `persistence.dfy` (`Persistence`): class `Store`. Its four `seq` fields are
  the tables. Its methods follow the source step by step: they stage changes
  in locals (the session), then commit by assigning the fields. Each method's
  `ensures` ties the new state to the matching function in `Operations`.

Modelling choices:

- `.first()` returns the first matching row in table order.
- `db.session.add` appends the row at the end of its table. SQL gives no
  order without `ORDER BY`, so this order is an assumption.
- `datetime.now()` is replaced by parameters the caller supplies:
  - `now: Instant` for the datetime columns;
  - `stamp: string` for the `replaced_at` text.
- A persistence failure is the parameter `storeFault`. The exception is
  caught and logged, the commit is never reached, and the tables are
  unchanged. Reads return `[]` or `None` on a failure.
- `channel_name or name` follows Python truthiness: an empty channel name
  also falls back to `name`.
- `action` is a string. Any value other than `"add"`, `"remove"` or
  `"change"` only runs the user get-or-create step and commits.

Two behaviours of the code are worth knowing:

- `change` rewrites a rule's phone without checking that phone, so two
  active rules can end up on one (user, phone).
  `Properties.ChangeCanDuplicateActive` gives a concrete case, and
  `Properties.RuleChangedKeepsUnique` proves a `change` keeps one active
  rule per phone when the new phone is free. `add` and `remove` never create
  a second active rule on a phone, but they do not repair one either. Once
  `change` has put two there, a later `add` deletes only the first, so two
  stay (`Properties.AddAfterChangeLeavesTwo`).
- Every "replace" and "delete" acts on the first matching row only (a
  `.first()` lookup), not on every matching row. So "exactly one row
  afterwards" holds only when the store held at most one beforehand, and
  every such lemma requires that.

## Model

| member | source | states |
|---|---|---|
| Records.ChannelNameOr | database_postgres.py:133 | a present, non-empty channel name is kept; a missing or empty one falls back to the rule's name |
| Records.ReplacementNote | database_postgres.py:126 | the note is non-empty and the replaced rule's name can be read back from it, after the fixed prefix |
| Queries.FirstIndex | database_postgres.py:59-62 | `.first()`: the result is a matching row with no match before it; None exactly when no row matches |
| Queries.Filter | database_postgres.py:176-180 | `.all()`: every result row matches and comes from the table; every matching row is in the result; no match gives [] |
| Queries.FilterCounts | database_postgres.py:176-180 | `.all()` keeps every occurrence of a matching row and no occurrence of any other, so equal rows are not merged |
| Queries.FilterAppend | database_postgres.py:176-180 | `.all()` keeps table order: filtering a concatenation filters each part in turn |
| Queries.RemoveAt | database_postgres.py:64 | deleting a row: one row fewer, the others keep their order, the multiset loses exactly that row |
| Queries.DeleteFirst | database_postgres.py:144-149 | find-first-then-delete: no match leaves the table unchanged; otherwise exactly the first matching row is removed and the rest keep their order |
| Queries.ReplaceFirst | database_postgres.py:58-74 | delete-then-insert: the new row is last; with no match it is simply appended; otherwise the multiset swaps the first match for the new row |
| Operations.EnsureUser | database_postgres.py:52-56 | get-or-create: an existing user row leaves the table untouched; otherwise exactly one inactive placeholder row is appended |
| Operations.Licensed | database_postgres.py:20-32 | the users table after a license is stored; specified by `Properties.LicenseStoredSpec` (exactly one licensed, active row) |
| Operations.ConnectionReplaced | database_postgres.py:58-74 | the connections table after a store; specified by `Properties.ConnectionStoredSpec` (exactly the fresh row remains for the pair) |
| Operations.UserConnections | database_postgres.py:82-100 | entry k shows the k-th Connection row of the user in table order, so every such row is listed once per occurrence; [] for a user with no rows and on a store fault |
| Operations.NewRule | database_postgres.py:129-140 | the row `add` inserts; its fields are stated by `Operations.RuleAdded` |
| Operations.ReplacementInfo | database_postgres.py:124-127 | empty exactly when no active rule exists for (user, phone); otherwise it names such a rule |
| Operations.RuleAdded | database_postgres.py:129-141 | the row `add` inserts is last and active, and carries the given user, name, phone, source, destination, times and `channel_name or name` |
| Operations.RuleRemoved | database_postgres.py:144-149 | the redirections after `remove`; specified by `Properties.RuleRemovedSpec` and `Properties.RuleRemovedFirst` |
| Operations.RuleChanged | database_postgres.py:152-161 | the redirections after `change`; specified by `Properties.RuleChangedSpec`, `Properties.RuleChangedFirst` and `Properties.RuleChangedKeepsUnique` |
| Operations.RulesAfter | database_postgres.py:116-163 | `remove` and `change` never add rows; an unrecognised action leaves the redirections unchanged |
| Operations.UserRedirections | database_postgres.py:170-192 | entry k shows the name and channel of the k-th active rule of (user, phone) in table order with status "Actif", and every such rule is listed; [] when there is none and on a store fault |
| Operations.PendingReplaced | database_postgres.py:201-212 | the pending table after a request; specified by `Properties.PendingStoredSpec` |
| Operations.PendingCleared | database_postgres.py:245-247 | the pending table after clearing; specified by `Properties.PendingClearedSpec` |
| Operations.PendingLookup | database_postgres.py:220-236 | None exactly when the user has no pending row (or on a store fault); otherwise the name, phone and time of one of the user's rows |
| Operations.LicenseStored | database_postgres.py:14-37 | what `store_license` commits: only the users table changes; specified by `Properties.LicenseStoredSpec` and `Properties.LicenseStoredKeepsWellformed` |
| Operations.ConnectionStored | database_postgres.py:45-79 | what `store_connection` commits: users got-or-created, connection replaced; specified by `Properties.ConnectionStoredSpec` and `Properties.ConnectionStoredKeepsWellformed` |
| Operations.RedirectionStored | database_postgres.py:103-167 | what `store_redirection` commits: users got-or-created, redirections after the action; specified by `Properties.RedirectionStoredKeepsWellformed` and the per-action lemmas |
| Operations.PendingStored | database_postgres.py:195-217 | what `store_pending_redirection` commits: only the pending table changes; specified by `Properties.PendingStoredSpec` |
| Operations.PendingClearedFrom | database_postgres.py:239-252 | what `clear_pending_redirection` commits: only the pending table changes; specified by `Properties.PendingClearedSpec` |
| Operations.UniqueUsers | database_postgres.py:20-32 | at most one row per user, the row `.first()` finds; kept by every write (`Properties.*KeepsWellformed`) |
| Operations.UniqueConnections | database_postgres.py:58-74 | at most one Connection per (user, phone); kept by `store_connection` (`Properties.ConnectionStoredSpec`) |
| Operations.UniqueActiveRules | database_postgres.py:116-141 | at most one active rule per (user, phone); kept by `add` and `remove`, and by `change` only onto a free phone |
| Operations.UniquePending | database_postgres.py:201-212 | at most one pending entry per user; kept by both pending writes |
| Operations.Wellformed | database_postgres.py:14-252 | all four uniqueness rules together; the invariant the `Store` methods preserve |
| Properties.EnsureUserKeepsUnique | database_postgres.py:109-114 | get-or-create keeps one row per user and leaves the user with a row |
| Properties.LicenseStoredSpec | database_postgres.py:20-32 | afterwards the user has exactly one row, carrying the code, the time and active = true; other users' rows and the other tables are unchanged |
| Properties.LicenseStoredKeepsWellformed | database_postgres.py:14-37 | storing a license keeps every uniqueness rule |
| Properties.ConnectionStoredSpec | database_postgres.py:58-75 | afterwards exactly one Connection for (user, phone) exists, the fresh active one; every other pair's rows are unchanged; users are got-or-created; the other tables are unchanged |
| Properties.UserConnectionsFromRows | database_postgres.py:88-97 | every listed entry shows a Connection row of the user |
| Properties.UserConnectionsAppend | database_postgres.py:88-97 | the listing keeps table order: listing a concatenation lists each part in turn |
| Properties.UserConnectionsOne | database_postgres.py:88-97 | a single row is listed exactly when it belongs to the user |
| Properties.ConnectionStoredListed | database_postgres.py:58-97 | the user's connection list then shows the fresh connection; every other user's list is unchanged |
| Properties.ConnectionStoredKeepsWellformed | database_postgres.py:45-79 | storing a connection keeps every uniqueness rule |
| Properties.RuleAddedSpec | database_postgres.py:116-141 | after `add`, the new rule is the only active rule on (user, phone), so uniqueness is kept; the active rules of every other pair are unchanged |
| Properties.RuleAddedFresh | database_postgres.py:124-141 | with no active rule on (user, phone), the note is "" and the rule is simply appended |
| Properties.RuleAddedReplaces | database_postgres.py:124-127 | when rule i is the first active rule on (user, phone), the note names it and the table's multiset swaps that rule for the new one |
| Properties.RuleAddedListed | database_postgres.py:176-189 | right after `add`, listing that phone's rules gives exactly the new rule's name and channel with status "Actif" |
| Properties.UserRedirectionsFromRows | database_postgres.py:176-189 | every listed entry shows an active rule of the user on that phone |
| Properties.UserRedirectionsAppend | database_postgres.py:176-189 | the listing keeps table order: listing a concatenation lists each part in turn |
| Properties.UserRedirectionsOne | database_postgres.py:176-189 | a single rule is listed, with status "Actif", exactly when it is an active rule of the user on that phone |
| Properties.RuleRemovedSpec | database_postgres.py:143-149 | `remove` leaves the rules of every other (user, name) unchanged; with no rule of that name the table is unchanged |
| Properties.RuleRemovedFirst | database_postgres.py:144-149 | when rule i is the first of the user with that name, whatever its phone or flag, exactly that row is deleted and the rest keep their order |
| Properties.RuleChangedSpec | database_postgres.py:151-161 | `change` keeps the row count; with no rule of that name the table is unchanged |
| Properties.RuleChangedFirst | database_postgres.py:156-161 | only the first (user, name) rule changes; its phone, channel name (with fallback), source, destination and update time take the new values; its name, creation time, replacement data and flag stay; all other rows are unchanged |
| Properties.RuleChangedKeepsUnique | database_postgres.py:151-161 | `change` keeps one active rule per (user, phone) when no other active rule is on the new phone |
| Properties.ChangeCanDuplicateActive | database_postgres.py:157 | a concrete store where `change` breaks the one-active-rule-per-phone rule: rule B is moved onto rule A's phone |
| Properties.AddAfterChangeLeavesTwo | database_postgres.py:118-141 | continuing that store, an `add` on the shared phone deletes only the first active rule, so the changed rule and the new one are both active there |
| Properties.RulesAfterKeepActive | database_postgres.py:129-161 | every action keeps all redirection rows active: `add` inserts active rows and `change` never touches the flag |
| Properties.RedirectionStoredKeepsWellformed | database_postgres.py:103-163 | every action keeps every uniqueness rule, provided a `change` moves no rule onto an occupied phone |
| Properties.PendingStoredSpec | database_postgres.py:202-212 | afterwards the user has exactly one pending entry, the new one, and the lookup returns its name, phone and time; other users' entries and lookups are unchanged |
| Properties.PendingClearedSpec | database_postgres.py:245-248 | afterwards the lookup returns None; with no entry nothing changes; other users' entries and lookups are unchanged |
| Properties.LookupFollowsFilter | database_postgres.py:226-233 | the pending lookup of a user depends only on that user's rows |
| Properties.PendingLastWriterWins | database_postgres.py:195-248 | after two successive requests only the second remains and is returned; clearing it leaves None |
| Persistence.Store.StoreLicense | database_postgres.py:14-37 | the new tables are the license transition of the old ones, or unchanged on a store fault; uniqueness is kept; the user's row is licensed and active |
| Persistence.Store.StoreConnection | database_postgres.py:45-79 | the new tables are the connection transition of the old ones, or unchanged on a store fault; uniqueness is kept; exactly one fresh row for (user, phone) |
| Persistence.Store.StoreRedirection | database_postgres.py:103-167 | the new tables are the redirection transition for the action, or unchanged on a store fault; uniqueness is kept (for `change`, when the phone is free); rows stay active; after `add` the phone lists only the new rule |
| Persistence.Store.StageUser | database_postgres.py:110-114 | the staged users table is the get-or-create result |
| Persistence.Store.StageRules | database_postgres.py:116-161 | the staged redirections table is the transition for the action |
| Persistence.Store.StorePendingRedirection | database_postgres.py:195-217 | the new tables are the pending transition, or unchanged on a store fault; uniqueness is kept; the lookup then returns the new entry |
| Persistence.Store.ClearPendingRedirection | database_postgres.py:239-252 | the user's first pending row is deleted and committed only if one exists, and nothing changes on a store fault; uniqueness is kept; the lookup then returns None |

## Left out

- `is_user_licensed`, `load_data` and `get_user_chats_data` only hand the call to `database_manager` or `bot.database`. These modules are not part of this model.
- `save_data` only writes a log line.
- `main.py` only does process bootstrap, environment loading, and the start of the HTTP server thread.
- Logging, the Flask `app_context`, `async`, and the SQLAlchemy session (`flush`, identity map) are left out. They have no effect on the committed tables.
- Real transactions, isolation and concurrent callers are left out. One call is one all-or-nothing step, and a failure is the `storeFault` parameter.
- The wall clock is left out. Each call takes `now` and `stamp` from the caller. So two `datetime.now()` calls in one operation cannot differ by more than the caller chooses.
- The `isoformat()` and `strftime("%d/%m/%Y %H:%M:%S")` renderings are left out. Instants are opaque numbers, and the `replaced_at` text is the caller's `stamp`.
- `str(user_id)` is left out: user ids arrive as text.
- `models.py` is not part of this model. So column types are assumed: channel ids are integers, and `updated_at` is unset (None) on insert. No database-level unique constraint is assumed, which is why each "exactly one" lemma requires uniqueness beforehand.
- Persistence.Store.StoreRedirection: its uniqueness guarantee for `change` holds only when no other active rule is on the new phone, because the code does not check this (see `Properties.ChangeCanDuplicateActive`).
