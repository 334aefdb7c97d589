/** The live user store (internal/auth/store.go) and the controller that keeps it in step
    with the on-disk users (internal/auth/controller.go). */
module UserStores {
  import opened Options
  import opened UserConfigs

  datatype Record = Record(username: string, password: string, roles: seq<string>)

  type Records = map<string, Record>

  function RoleToOnvif(role: string): string {
    match role
    case "Administrator" => "onvif:Administrator"
    case "Operator" => "onvif:Operator"
    case "User" => "onvif:User"
    case _ => role
  }

  function ToRecord(u: User): Record { Record(u.username, u.password, [RoleToOnvif(u.role)]) }

  function ToRecords(users: seq<User>): seq<Record> {
    seq(|users|, i requires 0 <= i < |users| => ToRecord(users[i]))
  }

  /** The records by username; a later one of the same name wins. */
  function ByName(records: seq<Record>): Records {
    if records == [] then map[]
    else
      var last := records[|records| - 1];
      ByName(records[..|records| - 1])[last.username := last]
  }

  class MutableUserStore {
    var records: Records

    constructor (initial: seq<Record>)
      ensures records == ByName(initial)
    {
      records := map[];
      new;
      Replace(initial);
    }

    function Lookup(username: string): Option<Record>
      reads this
    {
      if username in records then Some(records[username]) else None
    }

    method Set(r: Record)
      modifies this
      ensures records == old(records)[r.username := r]
    {
      records := records[r.username := r];
    }

    method Remove(username: string)
      modifies this
      ensures records == old(records) - {username}
    {
      records := records - {username};
    }

    method Replace(rs: seq<Record>)
      modifies this
      ensures records == ByName(rs)
    {
      var next: Records := map[];
      for i := 0 to |rs|
        invariant next == ByName(rs[..i])
      {
        assert rs[..i + 1][..i] == rs[..i];
        next := next[rs[i].username := rs[i]];
      }
      assert rs[..|rs|] == rs;
      records := next;
    }
  }

  class Controller {
    const store: MutableUserStore
    const file: ConfigFile

    constructor (store: MutableUserStore, file: ConfigFile)
      ensures this.store == store && this.file == file
    {
      this.store, this.file := store, file;
    }

    function Abs(): State
      reads store, file
    {
      State(file.disk, store.records)
    }

    method SyncFromConfig(cfg: Option<Config>)
      modifies store
      ensures Abs() == Step(old(Abs()), Sync(cfg)).0
    {
      match cfg {
        case None => store.Replace([]);
        case Some(c) => store.Replace(ToRecords(c.users));
      }
    }

    method UpsertUser(u: User, io: IO) returns (err: Option<Error>)
      modifies store, file
      ensures (Abs(), err) == Step(old(Abs()), Upsert(u, io))
    {
      err := file.UpsertUser(u, io);
      if err.Some? {
        return;
      }
      store.Set(ToRecord(u));
    }

    method RemoveUser(name: string, io: IO) returns (err: Option<Error>)
      modifies store, file
      ensures (Abs(), err) == Step(old(Abs()), Op.Remove(name, io))
    {
      err := file.RemoveUser(name, io);
      if err.Some? {
        return;
      }
      store.Remove(name);
    }
  }

  // ---------- store and disk agree ----------------------------------------------------------

  datatype State = State(disk: Config, records: Records)

  datatype Op = Sync(cfg: Option<Config>) | Upsert(u: User, io: IO) | Remove(name: string, io: IO)

  function Step(s: State, op: Op): (State, Option<Error>) {
    match op
    case Sync(cfg) => (s.(records := if cfg.None? then map[] else ByName(ToRecords(cfg.value.users))), None)
    case Upsert(u, io) =>
      var (disk, err) := UpsertOnDisk(s.disk, u, io);
      (State(disk, if err.None? then s.records[u.username := ToRecord(u)] else s.records), err)
    case Remove(name, io) =>
      var (disk, err) := RemoveOnDisk(s.disk, name, io);
      (State(disk, if err.None? then s.records - {name} else s.records), err)
  }

  /** The store is the index by username of the users on disk: it has one record for each
      of them and no other. */
  ghost predicate Synced(s: State) {
    && (forall u <- s.disk.users :: u.username in s.records && s.records[u.username] == ToRecord(u))
    && (forall name <- s.records :: Named(s.disk.users, name))
  }

  /** What the live store knows of a user on disk while it is in step: name, password, and one
      role, which is the ONVIF name of the three built-in ones and otherwise as configured. */
  lemma RecordOf(s: State, u: User)
    requires Synced(s) && u in s.disk.users
    ensures u.username in s.records
    ensures var r := s.records[u.username];
            && r.username == u.username && r.password == u.password && |r.roles| == 1
            && r.roles[0] == (if u.role == "Administrator" then "onvif:Administrator"
                              else if u.role == "Operator" then "onvif:Operator"
                              else if u.role == "User" then "onvif:User"
                              else u.role)
  {
  }

  lemma {:induction false} ByNameIsIndex(users: seq<User>)
    requires Distinct(users)
    ensures Synced(State(Config(false, false, users, true, true), ByName(ToRecords(users))))
  {
    if users != [] {
      var n := |users| - 1;
      var init := users[..n];
      ByNameIsIndex(init);
      assert ToRecords(users)[..n] == ToRecords(init);
      assert users == init + [users[n]];
      var m := ByName(ToRecords(users));
      forall u <- users ensures u.username in m && m[u.username] == ToRecord(u) {
        var i :| 0 <= i <= n && users[i] == u;
        assert i < n ==> u in init && users[i].username != users[n].username;
      }
      forall name <- m ensures Named(users, name) {
        assert name in ByName(ToRecords(init)) || name == users[n].username;
        if name in ByName(ToRecords(init)) {
          var u :| u in init && u.username == name;
          assert u in users;
        }
      }
    }
  }

  lemma {:induction false} UpsertedMembers(users: seq<User>, u: User)
    requires Distinct(users)
    ensures forall x :: x in Upserted(users, u) <==> x == u || (x in users && x.username != u.username)
    decreases |users|
  {
    if users != [] {
      assert users == [users[0]] + users[1..];
      forall x <- users[1..] ensures x.username != users[0].username {
        var i :| 0 <= i < |users| - 1 && users[1..][i] == x;
        assert users[i + 1] == x;
      }
      if users[0].username != u.username {
        assert Distinct(users[1..]) by {
          assert forall i | 0 <= i < |users| - 1 :: users[1..][i] == users[i + 1];
        }
        UpsertedMembers(users[1..], u);
      }
    }
  }

  lemma {:induction false} RemovedMembers(users: seq<User>, name: string)
    ensures forall x :: x in Removed(users, name) <==> x in users && x.username != name
  {
    if users != [] {
      RemovedMembers(users[..|users| - 1], name);
      assert users == users[..|users| - 1] + [users[|users| - 1]];
    }
  }

  lemma ValidConfigDistinct(c: Config)
    requires ConfigError(c).None?
    ensures Distinct(c.users)
  {
    UsersValidExactly(c.users);
  }

  lemma UpsertKeepsSync(s: State, u: User, io: IO)
    requires Synced(s)
    ensures Synced(Step(s, Upsert(u, io)).0)
  {
    var (s', err) := Step(s, Upsert(u, io));
    if err.None? {
      ValidConfigDistinct(s.disk);
      UpsertedMembers(s.disk.users, u);
      forall name <- s'.records ensures Named(s'.disk.users, name) {
        if name != u.username {
          var x :| x in s.disk.users && x.username == name;
          assert x in s'.disk.users;
        } else {
          assert u in s'.disk.users;
        }
      }
    }
  }

  lemma RemoveKeepsSync(s: State, name: string, io: IO)
    requires Synced(s)
    ensures Synced(Step(s, Remove(name, io)).0)
  {
    var (s', err) := Step(s, Remove(name, io));
    if err.None? {
      RemovedMembers(s.disk.users, name);
      forall n <- s'.records ensures Named(s'.disk.users, n) {
        var x :| x in s.disk.users && x.username == n;
        assert x in s'.disk.users;
      }
    }
  }

  /** Synchronising from no configuration clears the store. */
  lemma SyncFromNothing(s: State)
    ensures Step(s, Sync(None)) == (State(s.disk, map[]), None)
  {
  }

  /** Synchronising from the configuration on disk. */
  lemma SyncEstablishes(s: State)
    requires Distinct(s.disk.users)
    ensures Synced(Step(s, Sync(Some(s.disk))).0)
  {
    ByNameIsIndex(s.disk.users);
  }

  function After(s: State, ops: seq<Op>): State {
    if ops == [] then s else Step(After(s, ops[..|ops| - 1]), ops[|ops| - 1]).0
  }

  /** Every SyncFromConfig of the run is given the configuration then on disk, which Load
      has validated. */
  ghost predicate SyncsFromDisk(s: State, ops: seq<Op>) {
    forall i | 0 <= i < |ops| && ops[i].Sync? ::
      ops[i].cfg == Some(After(s, ops[..i]).disk) && ConfigError(After(s, ops[..i]).disk).None?
  }

  /** Starting synced, the store agrees with the disk after any sequence of successful and
      failed operations. */
  lemma {:induction false} StoreAgreesWithDisk(s: State, ops: seq<Op>)
    requires Synced(s) && SyncsFromDisk(s, ops)
    ensures Synced(After(s, ops))
  {
    hide Synced, Step, ConfigError;
    if ops != [] {
      var n := |ops| - 1;
      var init, op := ops[..n], ops[n];
      assert forall i | 0 <= i < n :: init[..i] == ops[..i] && init[i] == ops[i];
      StoreAgreesWithDisk(s, init);
      var before := After(s, init);
      match op
      case Sync(cfg) =>
        ValidConfigDistinct(before.disk);
        SyncEstablishes(before);
      case Upsert(u, io) => UpsertKeepsSync(before, u, io);
      case Remove(name, io) => RemoveKeepsSync(before, name, io);
    }
  }

  lemma FailureChangesNothing(s: State, op: Op)
    ensures Step(s, op).1.Some? ==> Step(s, op).0 == s
  {
  }

  lemma AfterOne(s: State, ops: seq<Op>, op: Op)
    ensures After(s, ops + [op]) == Step(After(s, ops), op).0
  {
  }

  /** The operations of a run that succeeded. */
  function Successful(s: State, ops: seq<Op>): seq<Op> {
    if ops == [] then []
    else
      var init, op := ops[..|ops| - 1], ops[|ops| - 1];
      if Step(After(s, init), op).1.None? then Successful(s, init) + [op] else Successful(s, init)
  }

  /** Failed operations leave no trace, in the file or in the store: a run ends where its
      successful operations alone would have ended. */
  lemma {:induction false} FailuresLeaveNoTrace(s: State, ops: seq<Op>)
    ensures After(s, ops) == After(s, Successful(s, ops))
  {
    if ops != [] {
      var init, op := ops[..|ops| - 1], ops[|ops| - 1];
      FailuresLeaveNoTrace(s, init);
      FailureChangesNothing(After(s, init), op);
      AfterOne(s, Successful(s, init), op);
    }
  }
}
