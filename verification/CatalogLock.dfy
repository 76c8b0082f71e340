/** The lock that keeps catalog ids stable from one release to the next. */
module CatalogLock {
  import opened Options

  /** The rows of one group: the id of each row and its name. */
  type Rows = map<string, string>

  datatype Lock = Lock(entries: map<string, Rows>, tombstones: map<string, Rows>)

  datatype Action = Tombstone | Reuse | Other(text: string)

  /** One migration entry; `to` and `action` may be absent. */
  datatype Migration = Migration(catalog: string, key: string, from: string, to: Option<string>, action: Option<Action>)

  datatype Complaint =
    | Deleted(group: string, key: string)
    | Renamed(group: string, key: string)
    | Reused(group: string, key: string)

  function RowsOf(groups: map<string, Rows>, group: string): Rows {
    if group in groups then groups[group] else map[]
  }

  predicate Matches(m: Migration, group: string, key: string, from: string, to: Option<string>, action: Option<Action>) {
    m.catalog == group && m.key == key && m.from == from && m.to == to && (action.None? || m.action == action)
  }

  predicate Migrated(migrations: seq<Migration>, group: string, key: string, from: string, to: Option<string>,
                     action: Option<Action>)
  {
    exists i :: 0 <= i < |migrations| && Matches(migrations[i], group, key, from, to, action)
  }

  predicate DeletionExplained(migrations: seq<Migration>, group: string, key: string, entries: Rows, live: Rows) {
    key in entries && key !in live ==> Migrated(migrations, group, key, entries[key], None, Some(Tombstone))
  }

  predicate RenamingExplained(migrations: seq<Migration>, group: string, key: string, entries: Rows, live: Rows) {
    key in entries && key in live && live[key] != entries[key] ==>
      Migrated(migrations, group, key, entries[key], Some(live[key]), None)
  }

  predicate ReuseExplained(migrations: seq<Migration>, group: string, key: string, buried: Rows, live: Rows) {
    key in buried && key in live ==> Migrated(migrations, group, key, buried[key], Some(live[key]), Some(Reuse))
  }

  ghost predicate ChangesExplained(migrations: seq<Migration>, group: string, entries: Rows, live: Rows) {
    forall key :: DeletionExplained(migrations, group, key, entries, live) && RenamingExplained(migrations, group, key, entries, live)
  }

  ghost predicate ChangesExplainedBut(migrations: seq<Migration>, group: string, entries: Rows, live: Rows, todo: set<string>) {
    forall key :: key !in todo ==>
      DeletionExplained(migrations, group, key, entries, live) && RenamingExplained(migrations, group, key, entries, live)
  }

  ghost predicate GroupsExplainedBut(migrations: seq<Migration>, lock: Lock, current: map<string, Rows>, todo: set<string>) {
    forall group :: group !in todo ==>
      ChangesExplained(migrations, group, RowsOf(lock.entries, group), RowsOf(current, group))
  }

  lemma OneMoreExplained(migrations: seq<Migration>, group: string, entries: Rows, live: Rows, todo: set<string>, key: string)
    requires ChangesExplainedBut(migrations, group, entries, live, todo)
    requires DeletionExplained(migrations, group, key, entries, live) && RenamingExplained(migrations, group, key, entries, live)
    ensures ChangesExplainedBut(migrations, group, entries, live, todo - {key})
  {
  }

  lemma NothingToExplain(migrations: seq<Migration>, lock: Lock, current: map<string, Rows>)
    ensures GroupsExplainedBut(migrations, lock, current, lock.entries.Keys)
    ensures ReusedGroupsExplainedBut(migrations, lock, current, lock.tombstones.Keys)
  {
  }

  lemma EveryKeyLeft(migrations: seq<Migration>, group: string, entries: Rows, live: Rows)
    ensures ChangesExplainedBut(migrations, group, entries, live, entries.Keys)
    ensures ChangesExplainedBut(migrations, group, entries, live, {}) ==> ChangesExplained(migrations, group, entries, live)
  {
  }

  ghost predicate ReusesExplained(migrations: seq<Migration>, group: string, buried: Rows, live: Rows) {
    forall key :: ReuseExplained(migrations, group, key, buried, live)
  }

  ghost predicate ReusedGroupsExplainedBut(migrations: seq<Migration>, lock: Lock, current: map<string, Rows>, todo: set<string>) {
    forall group :: group !in todo ==>
      ReusesExplained(migrations, group, RowsOf(lock.tombstones, group), RowsOf(current, group))
  }

  ghost predicate ReusesExplainedBut(migrations: seq<Migration>, group: string, buried: Rows, live: Rows, todo: set<string>) {
    forall key :: key !in todo ==> ReuseExplained(migrations, group, key, buried, live)
  }

  /** Every deletion, renaming and reuse since the lock was written has its migration entry. */
  ghost predicate Explained(lock: Lock, current: map<string, Rows>, migrations: seq<Migration>) {
    forall group ::
      && ChangesExplained(migrations, group, RowsOf(lock.entries, group), RowsOf(current, group))
      && ReusesExplained(migrations, group, RowsOf(lock.tombstones, group), RowsOf(current, group))
  }

  /** The complaint names an id that lacks its migration. */
  predicate Genuine(e: Complaint, lock: Lock, current: map<string, Rows>, migrations: seq<Migration>) {
    var entries, live := RowsOf(lock.entries, e.group), RowsOf(current, e.group);
    match e
    case Deleted(group, key) => !DeletionExplained(migrations, group, key, entries, live)
    case Renamed(group, key) => !RenamingExplained(migrations, group, key, entries, live)
    case Reused(group, key) => !ReuseExplained(migrations, group, key, RowsOf(lock.tombstones, group), live)
  }

  // ----- what the check leaves behind -----

  /** The rows that are not live. */
  function Lost(rows: Rows, live: Rows): Rows {
    rows - live.Keys
  }

  function Buried(lock: Lock, current: map<string, Rows>, group: string): Rows {
    RowsOf(lock.tombstones, group) + Lost(RowsOf(lock.entries, group), RowsOf(current, group))
  }

  /** The tombstones once the deleted rows of all groups but `todo` are added. */
  function WithDeleted(lock: Lock, current: map<string, Rows>, todo: set<string>): map<string, Rows> {
    map group | group in lock.tombstones.Keys + (lock.entries.Keys - todo)
                && (group in lock.tombstones || Lost(RowsOf(lock.entries, group), RowsOf(current, group)) != map[]) ::
      if group in todo then RowsOf(lock.tombstones, group) else Buried(lock, current, group)
  }

  /** The tombstones once the rows of all groups but `todo` that are live again are removed. */
  function WithoutLive(tombstones: map<string, Rows>, current: map<string, Rows>, todo: set<string>): map<string, Rows> {
    map group | group in tombstones ::
      if group in todo then tombstones[group] else Lost(tombstones[group], RowsOf(current, group))
  }

  /** A missing lock starts without tombstones. */
  function Released(lock: Option<Lock>, current: map<string, Rows>): Lock {
    Lock(current, if lock.None? then map[] else WithoutLive(WithDeleted(lock.value, current, {}), current, {}))
  }

  // ----- the check -----

  method CompatibilityCheck(lock: Option<Lock>, current: map<string, Rows>, migrations: seq<Migration>)
      returns (r: Result<Lock, Complaint>)
    ensures r.Ok? <==> lock.None? || Explained(lock.value, current, migrations)
    ensures r.Ok? ==> r.value == Released(lock, current)
    ensures r.Err? ==> lock.Some? && Genuine(r.error, lock.value, current, migrations)
  {
    if lock.None? {
      return Ok(Lock(current, map[]));
    }
    var buried := BuryDeleted(lock.value, current, migrations);
    if buried.Err? {
      return Err(buried.error);
    }
    var tombstones := UnburyLive(lock.value, buried.value, current, migrations);
    if tombstones.Err? {
      return Err(tombstones.error);
    }
    return Ok(Lock(current, tombstones.value));
  }

  /** The first loop: each group's deleted rows join its tombstones. */
  method BuryDeleted(lock: Lock, current: map<string, Rows>, migrations: seq<Migration>)
      returns (r: Result<map<string, Rows>, Complaint>)
    ensures r.Ok? ==> r.value == WithDeleted(lock, current, {})
    ensures r.Ok? ==>
      forall group :: ChangesExplained(migrations, group, RowsOf(lock.entries, group), RowsOf(current, group))
    ensures r.Err? ==> !r.error.Reused? && Genuine(r.error, lock, current, migrations)
  {
    hide WithDeleted, Buried, Lost, DeletionExplained, RenamingExplained, Migrated;
    var tombstones, todo := lock.tombstones, lock.entries.Keys;
    NothingDone(lock, current);
    NothingToExplain(migrations, lock, current);
    while todo != {}
      invariant todo <= lock.entries.Keys
      invariant tombstones == WithDeleted(lock, current, todo)
      invariant GroupsExplainedBut(migrations, lock, current, todo)
      decreases |todo|
    {
      var group :| group in todo;
      NotBuriedYet(lock, current, todo, group);
      var rows := BuryRows(group, RowsOf(lock.entries, group), RowsOf(current, group), migrations, RowsOf(tombstones, group));
      if rows.Err? {
        return Err(rows.error);
      }
      if group in tombstones || rows.value != map[] {
        BuryGroup(lock, current, todo, group);
        tombstones := tombstones[group := rows.value];
      } else {
        SkipGroup(lock, current, todo, group);
      }
      todo := todo - {group};
    }
    return Ok(tombstones);
  }

  lemma NothingDone(lock: Lock, current: map<string, Rows>)
    ensures WithDeleted(lock, current, lock.entries.Keys) == lock.tombstones
  {
    hide Buried;
    var none := WithDeleted(lock, current, lock.entries.Keys);
    forall group | group in lock.tombstones ensures none[group] == lock.tombstones[group] {
      if group !in lock.entries {
        NothingLost(lock, current, group);
      }
    }
  }

  lemma NothingLost(lock: Lock, current: map<string, Rows>, group: string)
    requires group !in lock.entries
    ensures Buried(lock, current, group) == RowsOf(lock.tombstones, group)
  {
    assert Lost(RowsOf(lock.entries, group), RowsOf(current, group)) == map[];
  }

  lemma NothingUnburied(lock: Lock, current: map<string, Rows>, buried: map<string, Rows>)
    requires buried == WithDeleted(lock, current, {})
    ensures lock.tombstones.Keys <= buried.Keys && WithoutLive(buried, current, buried.Keys) == buried
  {
    hide Lost, Buried;
  }

  lemma NotBuriedYet(lock: Lock, current: map<string, Rows>, todo: set<string>, group: string)
    requires group in todo && todo <= lock.entries.Keys
    ensures var before := WithDeleted(lock, current, todo);
            && RowsOf(before, group) == RowsOf(lock.tombstones, group) && (group in before <==> group in lock.tombstones)
            && Buried(lock, current, group) ==
               RowsOf(before, group) + Lost(RowsOf(lock.entries, group), RowsOf(current, group))
  {
  }

  lemma BuryGroup(lock: Lock, current: map<string, Rows>, todo: set<string>, group: string)
    requires group in todo && todo <= lock.entries.Keys
    requires group in lock.tombstones || Buried(lock, current, group) != map[]
    ensures WithDeleted(lock, current, todo - {group})
            == WithDeleted(lock, current, todo)[group := Buried(lock, current, group)]
  {
    if group !in lock.tombstones {
      assert Buried(lock, current, group) == Lost(RowsOf(lock.entries, group), RowsOf(current, group));
    }
  }

  lemma SkipGroup(lock: Lock, current: map<string, Rows>, todo: set<string>, group: string)
    requires group in todo && todo <= lock.entries.Keys
    requires group !in lock.tombstones && Buried(lock, current, group) == map[]
    ensures WithDeleted(lock, current, todo - {group}) == WithDeleted(lock, current, todo)
  {
    assert Buried(lock, current, group) == Lost(RowsOf(lock.entries, group), RowsOf(current, group));
    hide Lost, RowsOf, Buried;
  }

  method BuryRows(group: string, entries: Rows, live: Rows, migrations: seq<Migration>, buried: Rows)
      returns (r: Result<Rows, Complaint>)
    ensures r.Ok? ==> r.value == buried + Lost(entries, live)
    ensures r.Ok? ==> ChangesExplained(migrations, group, entries, live)
    ensures r.Err? ==> r.error.group == group && !r.error.Reused?
    ensures r.Err? && r.error.Deleted? ==> !DeletionExplained(migrations, group, r.error.key, entries, live)
    ensures r.Err? && r.error.Renamed? ==> !RenamingExplained(migrations, group, r.error.key, entries, live)
  {
    hide Lost, Migrated, ChangesExplainedBut, ChangesExplained;
    var rows, todo := buried, entries.Keys;
    NoneBuried(buried, entries, live);
    EveryKeyLeft(migrations, group, entries, live);
    while todo != {}
      invariant todo <= entries.Keys
      invariant rows == buried + Lost(entries - todo, live)
      invariant ChangesExplainedBut(migrations, group, entries, live, todo)
      decreases |todo|
    {
      var key :| key in todo;
      var name := entries[key];
      if key !in live {
        if !Migrated(migrations, group, key, name, None, Some(Tombstone)) {
          return Err(Deleted(group, key));
        }
        BuryOne(buried, entries, live, todo, key);
        rows := rows[key := name];
      } else if live[key] != name && !Migrated(migrations, group, key, name, Some(live[key]), None) {
        return Err(Renamed(group, key));
      } else {
        KeepOne(entries, live, todo, key);
      }
      OneMoreExplained(migrations, group, entries, live, todo, key);
      todo := todo - {key};
    }
    return Ok(rows);
  }

  lemma NoneBuried(buried: Rows, entries: Rows, live: Rows)
    ensures buried + Lost(entries - entries.Keys, live) == buried && entries - {} == entries
  {
    assert entries - entries.Keys == map[];
  }

  lemma BuryOne(buried: Rows, entries: Rows, live: Rows, todo: set<string>, key: string)
    requires key in todo && todo <= entries.Keys && key !in live
    ensures (buried + Lost(entries - todo, live))[key := entries[key]] == buried + Lost(entries - (todo - {key}), live)
  {
  }

  lemma KeepOne(entries: Rows, live: Rows, todo: set<string>, key: string)
    requires key in todo && todo <= entries.Keys && key in live
    ensures Lost(entries - todo, live) == Lost(entries - (todo - {key}), live)
  {
  }

  /** The second loop: rows that are live again leave the tombstones. */
  method UnburyLive(lock: Lock, buried: map<string, Rows>, current: map<string, Rows>, migrations: seq<Migration>)
      returns (r: Result<map<string, Rows>, Complaint>)
    requires buried == WithDeleted(lock, current, {})
    ensures r.Ok? ==> r.value == WithoutLive(buried, current, {})
    ensures r.Ok? ==>
      forall group :: ReusesExplained(migrations, group, RowsOf(lock.tombstones, group), RowsOf(current, group))
    ensures r.Err? ==> r.error.Reused? && Genuine(r.error, lock, current, migrations)
  {
    hide WithDeleted, Lost, ReuseExplained, Migrated;
    var tombstones, todo := buried, buried.Keys;
    NothingUnburied(lock, current, buried);
    NothingToExplain(migrations, lock, current);
    while todo != {}
      invariant todo <= buried.Keys
      invariant tombstones == WithoutLive(buried, current, todo)
      invariant ReusedGroupsExplainedBut(migrations, lock, current, todo)
      decreases |todo|
    {
      var group :| group in todo;
      UnburyGroup(buried, current, todo, group);
      SameReuses(lock, current, group, migrations);
      var rows := UnburyRows(group, tombstones[group], RowsOf(current, group), migrations);
      if rows.Err? {
        return Err(rows.error);
      }
      tombstones := tombstones[group := rows.value];
      todo := todo - {group};
    }
    return Ok(tombstones);
  }

  /** The rows just buried are not live, so they take no part in the second loop. */
  lemma SameReuses(lock: Lock, current: map<string, Rows>, group: string, migrations: seq<Migration>)
    ensures forall key ::
      ReuseExplained(migrations, group, key, RowsOf(WithDeleted(lock, current, {}), group), RowsOf(current, group))
      <==> ReuseExplained(migrations, group, key, RowsOf(lock.tombstones, group), RowsOf(current, group))
  {
    assert RowsOf(WithDeleted(lock, current, {}), group) == Buried(lock, current, group);
  }

  lemma UnburyGroup(buried: map<string, Rows>, current: map<string, Rows>, todo: set<string>, group: string)
    requires group in todo && todo <= buried.Keys
    ensures var before, after := WithoutLive(buried, current, todo), WithoutLive(buried, current, todo - {group});
            before[group] == buried[group] && after == before[group := Lost(buried[group], RowsOf(current, group))]
  {
  }

  method UnburyRows(group: string, buried: Rows, live: Rows, migrations: seq<Migration>)
      returns (r: Result<Rows, Complaint>)
    ensures r.Ok? ==> r.value == Lost(buried, live)
    ensures r.Ok? ==> ReusesExplained(migrations, group, buried, live)
    ensures r.Err? ==> r.error.Reused? && r.error.group == group
    ensures r.Err? ==> !ReuseExplained(migrations, group, r.error.key, buried, live)
  {
    hide Lost, Matches;
    var rows, todo := buried, buried.Keys;
    NoneUnburied(buried, live);
    while todo != {}
      invariant todo <= buried.Keys
      invariant rows == Lost(buried, live - todo)
      invariant ReusesExplainedBut(migrations, group, buried, live, todo)
      decreases |todo|
    {
      var key :| key in todo;
      if key in live {
        if !Migrated(migrations, group, key, buried[key], Some(live[key]), Some(Reuse)) {
          return Err(Reused(group, key));
        }
        rows := rows - {key};
      }
      UnburyOne(buried, live, todo, key);
      todo := todo - {key};
    }
    return Ok(rows);
  }

  lemma NoneUnburied(buried: Rows, live: Rows)
    ensures Lost(buried, live - buried.Keys) == buried && live - {} == live
  {
  }

  lemma UnburyOne(buried: Rows, live: Rows, todo: set<string>, key: string)
    requires key in todo && todo <= buried.Keys
    ensures Lost(buried, live - (todo - {key})) ==
            if key in live then Lost(buried, live - todo) - {key} else Lost(buried, live - todo)
  {
  }

  // ----- one id over the releases -----

  /** What the lock knows of one id. */
  datatype Standing = Unknown | Live(name: string) | Dead(name: string)

  function StandingOf(lock: Option<Lock>, group: string, key: string): Standing {
    if lock.None? then Unknown
    else if key in RowsOf(lock.value.entries, group) then Live(RowsOf(lock.value.entries, group)[key])
    else if key in RowsOf(lock.value.tombstones, group) then Dead(RowsOf(lock.value.tombstones, group)[key])
    else Unknown
  }

  /** No id is live and tombstoned at once. */
  ghost predicate Disjoint(lock: Option<Lock>) {
    lock.Some? ==>
      forall group :: RowsOf(lock.value.entries, group).Keys !! RowsOf(lock.value.tombstones, group).Keys
  }

  /** How one release may move one id: new ids are free, every other change has its migration entry. */
  ghost predicate Moves(before: Standing, after: Standing, migrations: seq<Migration>, group: string, key: string) {
    match before
    case Unknown => !after.Dead?
    case Live(name) =>
      if after.Live? then after.name == name || Migrated(migrations, group, key, name, Some(after.name), None)
      else after == Dead(name) && Migrated(migrations, group, key, name, None, Some(Tombstone))
    case Dead(name) =>
      after == before || (after.Live? && Migrated(migrations, group, key, name, Some(after.name), Some(Reuse)))
  }

  /** The entry that a move needs, field by field. */
  predicate Explains(m: Migration, before: Standing, after: Standing, group: string, key: string)
    requires !before.Unknown?
  {
    && m.catalog == group && m.key == key && m.from == before.name
    && match after
       case Live(name) => m.to == Some(name) && (before.Dead? ==> m.action == Some(Reuse))
       case Dead(_) => m.to == None && m.action == Some(Tombstone)
       case Unknown => false
  }

  ghost predicate IsExplained(before: Standing, after: Standing, migrations: seq<Migration>, group: string, key: string)
    requires !before.Unknown?
  {
    exists i :: 0 <= i < |migrations| && Explains(migrations[i], before, after, group, key)
  }

  /** An id moves lawfully if and only if it is new, or stays, or some entry explains where it goes. */
  lemma MovesIff(before: Standing, after: Standing, migrations: seq<Migration>, group: string, key: string)
    ensures Moves(before, after, migrations, group, key) <==>
            match (before, after)
            case (Unknown, _) => !after.Dead?
            case (Live(a), Live(b)) => a == b || IsExplained(before, after, migrations, group, key)
            case (Live(a), Dead(b)) => a == b && IsExplained(before, after, migrations, group, key)
            case (Dead(a), Live(b)) => IsExplained(before, after, migrations, group, key)
            case (Dead(a), Dead(b)) => a == b
            case (_, Unknown) => false
  {
    hide Migrated;
    if !before.Unknown? {
      MigratedIff(before, after, migrations, group, key);
    }
  }

  lemma MigratedIff(before: Standing, after: Standing, migrations: seq<Migration>, group: string, key: string)
    requires !before.Unknown?
    ensures before.Live? && after.Live? ==>
      (Migrated(migrations, group, key, before.name, Some(after.name), None) <==> IsExplained(before, after, migrations, group, key))
    ensures after.Dead? ==>
      (Migrated(migrations, group, key, before.name, None, Some(Tombstone)) <==> IsExplained(before, after, migrations, group, key))
    ensures before.Dead? && after.Live? ==>
      (Migrated(migrations, group, key, before.name, Some(after.name), Some(Reuse)) <==> IsExplained(before, after, migrations, group, key))
  {
    var to := if after.Live? then Some(after.name) else None;
    var action := if after.Dead? then Some(Tombstone) else if before.Dead? then Some(Reuse) else None;
    forall i | 0 <= i < |migrations| && !after.Unknown?
      ensures Matches(migrations[i], group, key, before.name, to, action) <==> Explains(migrations[i], before, after, group, key)
    {
    }
  }

  datatype Release = Release(current: map<string, Rows>, migrations: seq<Migration>)

  /** A release that passes the check writes its lock; one that fails leaves the lock as it is. */
  ghost function Publish(lock: Option<Lock>, release: Release): Option<Lock> {
    if lock.None? || Explained(lock.value, release.current, release.migrations) then Some(Released(lock, release.current))
    else lock
  }

  ghost function After(start: Option<Lock>, releases: seq<Release>): Option<Lock> {
    if releases == [] then start
    else Publish(After(start, releases[..|releases| - 1]), releases[|releases| - 1])
  }

  lemma ReleasedRows(lock: Lock, current: map<string, Rows>, group: string)
    ensures RowsOf(Released(Some(lock), current).tombstones, group) == Lost(Buried(lock, current, group), RowsOf(current, group))
  {
    hide Lost, Buried;
    if group !in WithDeleted(lock, current, {}) {
      NothingLeft(lock, current, group);
    }
  }

  lemma NothingLeft(lock: Lock, current: map<string, Rows>, group: string)
    requires group !in WithDeleted(lock, current, {})
    ensures Lost(Buried(lock, current, group), RowsOf(current, group)) == map[]
  {
  }

  /** One release keeps live and tombstoned ids apart and moves every id as it may. */
  lemma PublishMoves(lock: Option<Lock>, release: Release, group: string, key: string)
    requires Disjoint(lock)
    ensures Disjoint(Publish(lock, release))
    ensures Moves(StandingOf(lock, group, key), StandingOf(Publish(lock, release), group, key), release.migrations, group, key)
  {
    if lock.Some? && Explained(lock.value, release.current, release.migrations) {
      forall g ensures RowsOf(release.current, g).Keys !! RowsOf(Released(lock, release.current).tombstones, g).Keys {
        ReleasedRows(lock.value, release.current, g);
      }
      ReleasedRows(lock.value, release.current, group);
      var entries, buried, live :=
        RowsOf(lock.value.entries, group), RowsOf(lock.value.tombstones, group), RowsOf(release.current, group);
      assert DeletionExplained(release.migrations, group, key, entries, live);
      assert RenamingExplained(release.migrations, group, key, entries, live);
      assert ReuseExplained(release.migrations, group, key, buried, live);
    }
  }

  lemma {:induction false} AlwaysDisjoint(start: Option<Lock>, releases: seq<Release>)
    requires Disjoint(start)
    ensures Disjoint(After(start, releases))
  {
    if releases != [] {
      AlwaysDisjoint(start, releases[..|releases| - 1]);
      PublishMoves(After(start, releases[..|releases| - 1]), releases[|releases| - 1], "", "");
    }
  }

  /** Where an id stands after the first i releases. */
  ghost function StandingAt(start: Option<Lock>, releases: seq<Release>, i: nat, group: string, key: string): Standing
    requires i <= |releases|
  {
    StandingOf(After(start, releases[..i]), group, key)
  }

  lemma OneLater(start: Option<Lock>, releases: seq<Release>, i: nat, group: string, key: string)
    requires Disjoint(start) && i < |releases|
    ensures Moves(StandingAt(start, releases, i, group, key), StandingAt(start, releases, i + 1, group, key),
                  releases[i].migrations, group, key)
  {
    AlwaysDisjoint(start, releases[..i]);
    assert releases[..i + 1][..i] == releases[..i];
    PublishMoves(After(start, releases[..i]), releases[i], group, key);
  }

  /** Where an id stands at the start and after each release. */
  ghost function Standings(start: Option<Lock>, releases: seq<Release>, group: string, key: string): (r: seq<Standing>)
    ensures |r| == |releases| + 1
  {
    seq(|releases| + 1, i requires 0 <= i <= |releases| => StandingAt(start, releases, i, group, key))
  }

  /** Each release moved the id as it may. */
  ghost predicate Lawful(standings: seq<Standing>, releases: seq<Release>, group: string, key: string) {
    && |standings| == |releases| + 1
    && forall t :: 0 <= t < |releases| ==> Moves(standings[t], standings[t + 1], releases[t].migrations, group, key)
  }

  /** Over every run of releases, failed ones included, every rename, deletion and reuse has its migration entry. */
  lemma HistoryIsLawful(start: Option<Lock>, releases: seq<Release>, group: string, key: string)
    requires Disjoint(start)
    ensures Lawful(Standings(start, releases, group, key), releases, group, key)
  {
    forall t | 0 <= t < |releases|
      ensures Moves(StandingAt(start, releases, t, group, key), StandingAt(start, releases, t + 1, group, key),
                    releases[t].migrations, group, key)
    {
      OneLater(start, releases, t, group, key);
    }
  }

  lemma {:induction false} LawfulNeverForgets(standings: seq<Standing>, releases: seq<Release>, i: nat, j: nat,
                                              group: string, key: string)
    requires Lawful(standings, releases, group, key) && i <= j <= |releases|
    requires !standings[i].Unknown?
    ensures !standings[j].Unknown?
    decreases j
  {
    if i < j {
      LawfulNeverForgets(standings, releases, i, j - 1, group, key);
      assert Moves(standings[j - 1], standings[j - 1 + 1], releases[j - 1].migrations, group, key);
    }
  }

  /** No id that was ever known is forgotten: the union of live and tombstoned ids never shrinks. */
  lemma NeverForgotten(start: Option<Lock>, releases: seq<Release>, i: nat, j: nat, group: string, key: string)
    requires Disjoint(start) && i <= j <= |releases|
    requires !StandingAt(start, releases, i, group, key).Unknown?
    ensures !StandingAt(start, releases, j, group, key).Unknown?
  {
    hide StandingAt, Lawful, Disjoint;
    HistoryIsLawful(start, releases, group, key);
    LawfulNeverForgets(Standings(start, releases, group, key), releases, i, j, group, key);
  }

  ghost predicate MigratesFrom(migrations: seq<Migration>, group: string, key: string, name: string) {
    exists i :: 0 <= i < |migrations|
                && migrations[i].catalog == group && migrations[i].key == key && migrations[i].from == name
  }

  lemma MoveIsOnRecord(before: Standing, after: Standing, migrations: seq<Migration>, group: string, key: string)
    requires Moves(before, after, migrations, group, key) && !before.Unknown? && after != before
    ensures MigratesFrom(migrations, group, key, before.name)
  {
  }

  lemma {:induction false} LawfulChangeIsOnRecord(standings: seq<Standing>, releases: seq<Release>, i: nat, j: nat,
                                                  group: string, key: string) returns (t: nat)
    requires Lawful(standings, releases, group, key) && i <= j <= |releases|
    requires !standings[i].Unknown? && standings[j] != standings[i]
    ensures i <= t < j
    ensures MigratesFrom(releases[t].migrations, group, key, standings[i].name)
    decreases j
  {
    t := j - 1;
    if standings[t] == standings[i] {
      assert Moves(standings[t], standings[t + 1], releases[t].migrations, group, key);
      MoveIsOnRecord(standings[t], standings[j], releases[t].migrations, group, key);
    } else {
      t := LawfulChangeIsOnRecord(standings, releases, i, t, group, key);
    }
  }

  /**
   If an id no longer stands as it did, some release in between carries a migration entry for this id, from the
   name it had.
  */
  lemma ChangeIsOnRecord(start: Option<Lock>, releases: seq<Release>, i: nat, j: nat, group: string, key: string)
      returns (t: nat)
    requires Disjoint(start) && i <= j <= |releases|
    requires !StandingAt(start, releases, i, group, key).Unknown?
    requires StandingAt(start, releases, j, group, key) != StandingAt(start, releases, i, group, key)
    ensures i <= t < j
    ensures MigratesFrom(releases[t].migrations, group, key, StandingAt(start, releases, i, group, key).name)
  {
    hide StandingAt, Lawful, Disjoint;
    HistoryIsLawful(start, releases, group, key);
    t := LawfulChangeIsOnRecord(Standings(start, releases, group, key), releases, i, j, group, key);
  }
}
