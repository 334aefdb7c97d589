/** The users of the on-disk configuration: their validation (internal/config/config.go)
    and the two updates the controller uses (internal/config/update.go). Whether the other
    parts of a configuration are valid comes with it; reading and writing the file either
    succeeds or fails as a whole. */
module UserConfigs {
  import opened Options
  import opened GoStrings

  datatype User = User(username: string, password: string, role: string)

  /** The part of a configuration that matters here. */
  datatype Config = Config(
    authEnabled: bool, jwtEnabled: bool, users: seq<User>, digestAndJwtValid: bool, otherPartsValid: bool)

  datatype Error =
    | UserIncomplete | RoleReserved | RoleWhitespace | DuplicateUsername
    | UsersRequired | OtherInvalid | UserNotFound | FileError

  predicate IsRegexpSpace(c: char) { c == ' ' || c == '\t' || c == '\n' || c == '\r' || c == '\U{0C}' }

  /** The error of `validateUser`, given the usernames before it. */
  function UserError(u: User, seen: set<string>): Option<Error> {
    if TrimSpace(u.username) == "" || TrimSpace(u.password) == "" || TrimSpace(u.role) == "" then Some(UserIncomplete)
    else if "onvif:" <= ToLower(TrimSpace(u.role)) then Some(RoleReserved)
    else if exists c <- u.role :: IsRegexpSpace(c) then Some(RoleWhitespace)
    else if u.username in seen then Some(DuplicateUsername)
    else None
  }

  function Usernames(users: seq<User>): set<string> { set u <- users :: u.username }

  /** The first error among the users, in order. */
  function UsersError(users: seq<User>): Option<Error> {
    if users == [] then None
    else
      var init := users[..|users| - 1];
      if UsersError(init).Some? then UsersError(init) else UserError(users[|users| - 1], Usernames(init))
  }

  function AuthError(c: Config): Option<Error> {
    if !c.authEnabled && c.users == [] && !c.jwtEnabled then None
    else if c.authEnabled && c.users == [] && !c.jwtEnabled then Some(UsersRequired)
    else if UsersError(c.users).Some? then UsersError(c.users)
    else if !c.digestAndJwtValid then Some(OtherInvalid)
    else None
  }

  function ConfigError(c: Config): Option<Error> {
    if !c.otherPartsValid then Some(OtherInvalid) else AuthError(c)
  }

  predicate Distinct(users: seq<User>) {
    forall i, j | 0 <= i < j < |users| :: users[i].username != users[j].username
  }

  method HasSpace(role: string) returns (found: bool)
    ensures found <==> exists c <- role :: IsRegexpSpace(c)
  {
    for i := 0 to |role|
      invariant forall j | 0 <= j < i :: !IsRegexpSpace(role[j])
    {
      if IsRegexpSpace(role[i]) {
        return true;
      }
    }
    found := false;
  }

  method ValidateUser(u: User, seen: set<string>) returns (err: Option<Error>, seen': set<string>)
    ensures err == UserError(u, seen)
    ensures seen' == if err.None? then seen + {u.username} else seen
  {
    seen' := seen;
    if TrimSpace(u.username) == "" || TrimSpace(u.password) == "" || TrimSpace(u.role) == "" {
      return Some(UserIncomplete), seen;
    }
    if "onvif:" <= ToLower(TrimSpace(u.role)) {
      return Some(RoleReserved), seen;
    }
    var spaced := HasSpace(u.role);
    if spaced {
      return Some(RoleWhitespace), seen;
    }
    if u.username in seen {
      return Some(DuplicateUsername), seen;
    }
    return None, seen + {u.username};
  }

  lemma {:induction false} FirstErrorSticks(users: seq<User>, i: nat)
    requires i <= |users| && UsersError(users[..i]).Some?
    ensures UsersError(users) == UsersError(users[..i])
    decreases |users| - i
  {
    hide UserError, Usernames;
    if i == |users| {
      assert users[..i] == users;
    } else {
      assert users[..i + 1][..i] == users[..i];
      FirstErrorSticks(users, i + 1);
    }
  }

  lemma OneMoreUser(users: seq<User>, u: User)
    ensures Usernames(users + [u]) == Usernames(users) + {u.username}
    ensures UsersError(users).None? ==> UsersError(users + [u]) == UserError(u, Usernames(users))
  {
    hide UserError;
    assert (users + [u])[..|users|] == users;
  }

  method ValidateAuth(c: Config) returns (err: Option<Error>)
    ensures err == AuthError(c)
  {
    if !c.authEnabled && |c.users| == 0 && !c.jwtEnabled {
      return None;
    }
    if c.authEnabled && |c.users| == 0 && !c.jwtEnabled {
      return Some(UsersRequired);
    }
    err := ValidateUsers(c.users);
    if err.Some? {
      return;
    }
    err := if c.digestAndJwtValid then None else Some(OtherInvalid);
  }

  /** What one more turn of the loop decides. */
  lemma NextUser(users: seq<User>, i: nat)
    requires i < |users| && UsersError(users[..i]).None?
    ensures Usernames(users[..i + 1]) == Usernames(users[..i]) + {users[i].username}
    ensures UsersError(users[..i + 1]) == UserError(users[i], Usernames(users[..i]))
    ensures UsersError(users[..i + 1]).Some? ==> UsersError(users) == UsersError(users[..i + 1])
  {
    hide UserError, Usernames;
    assert users[..i + 1] == users[..i] + [users[i]];
    OneMoreUser(users[..i], users[i]);
    if UsersError(users[..i + 1]).Some? {
      FirstErrorSticks(users, i + 1);
    }
  }

  lemma NoUsers()
    ensures Usernames([]) == {}
  {
  }

  /** The loop of `validateAuth` over the users. */
  method ValidateUsers(users: seq<User>) returns (err: Option<Error>)
    ensures err == UsersError(users)
  {
    hide UserError, Usernames;
    NoUsers();
    var seen: set<string> := {};
    err := None;
    for i := 0 to |users|
      invariant err.None? && UsersError(users[..i]) == err
      invariant seen == Usernames(users[..i])
    {
      NextUser(users, i);
      err, seen := ValidateUser(users[i], seen);
      if err.Some? {
        return;
      }
    }
    assert users[..|users|] == users;
  }

  lemma DistinctSnoc(init: seq<User>, last: User)
    ensures Distinct(init + [last]) <==> Distinct(init) && last.username !in Usernames(init)
  {
    var users, n := init + [last], |init|;
    if last.username in Usernames(init) {
      var i :| 0 <= i < n && init[i].username == last.username;
      assert users[i].username == users[n].username;
    }
    if Distinct(users) {
      assert forall i | 0 <= i < n :: users[i] == init[i];
    }
    if Distinct(init) && last.username !in Usernames(init) {
      forall i, j | 0 <= i < j < |users| ensures users[i].username != users[j].username {
        assert users[i] in init;
      }
    }
  }

  lemma ErrorsSplit(u: User, seen: set<string>)
    ensures UserError(u, seen).None? <==> UserError(u, {}).None? && u.username !in seen
  {
  }

  /** Validation accepts a list of users exactly when each is acceptable on its own and no
      username occurs twice. */
  lemma {:induction false} UsersValidExactly(users: seq<User>)
    ensures UsersError(users).None? <==> (forall u <- users :: UserError(u, {}).None?) && Distinct(users)
  {
    hide UserError, Usernames, Distinct;
    if users == [] {
      NobodyTwice();
    } else {
      var init, last := users[..|users| - 1], users[|users| - 1];
      UsersValidExactly(init);
      DistinctSnoc(init, last);
      ErrorsSplit(last, Usernames(init));
      assert users == init + [last];
    }
  }

  lemma NobodyTwice()
    ensures Distinct([])
  {
  }

  /** What makes a user acceptable, and which refusal comes first. */
  lemma UserRefusedExactly(u: User, seen: set<string>)
    ensures var blank := TrimSpace(u.username) == "" || TrimSpace(u.password) == "" || TrimSpace(u.role) == "";
            var reserved := "onvif:" <= ToLower(TrimSpace(u.role));
            var spaced := ' ' in u.role || '\t' in u.role || '\n' in u.role || '\r' in u.role || '\U{0C}' in u.role;
            && (UserError(u, seen) == Some(UserIncomplete) <==> blank)
            && (UserError(u, seen) == Some(RoleReserved) <==> !blank && reserved)
            && (UserError(u, seen) == Some(RoleWhitespace) <==> !blank && !reserved && spaced)
            && (UserError(u, seen) == Some(DuplicateUsername) <==>
                  !blank && !reserved && !spaced && u.username in seen)
            && (UserError(u, seen) == None <==> !blank && !reserved && !spaced && u.username !in seen)
  {
    hide TrimSpace, ToLower;
    assert (exists c <- u.role :: IsRegexpSpace(c)) <==>
           ' ' in u.role || '\t' in u.role || '\n' in u.role || '\r' in u.role || '\U{0C}' in u.role;
  }

  // ---------- updates --------------------------------------------------------------------

  predicate Named(users: seq<User>, name: string) { exists u <- users :: u.username == name }

  /** The list with the first user of that name replaced, or `u` appended. */
  function Upserted(users: seq<User>, u: User): seq<User> {
    if users == [] then [u]
    else if users[0].username == u.username then [u] + users[1..]
    else [users[0]] + Upserted(users[1..], u)
  }

  /** The list without the users of that name. */
  function Removed(users: seq<User>, name: string): seq<User> {
    if users == [] then []
    else
      var init, last := users[..|users| - 1], users[|users| - 1];
      if last.username == name then Removed(init, name) else Removed(init, name) + [last]
  }

  lemma {:induction false} UpsertedAt(users: seq<User>, u: User, i: nat)
    requires i <= |users| && forall j | 0 <= j < i :: users[j].username != u.username
    requires i < |users| ==> users[i].username == u.username
    ensures Upserted(users, u) == if i < |users| then users[i := u] else users + [u]
  {
    if i > 0 {
      assert users[0].username != u.username;
      UpsertedAt(users[1..], u, i - 1);
    }
    UpdateBehind(users, u, i);
  }

  lemma UpdateBehind(users: seq<User>, u: User, i: nat)
    requires i <= |users|
    ensures i == 0 < |users| ==> users[i := u] == [u] + users[1..]
    ensures 0 < i < |users| ==> users[i := u] == [users[0]] + users[1..][i - 1 := u]
    ensures 0 < i == |users| ==> users + [u] == [users[0]] + (users[1..] + [u])
  {
  }

  /** Overwrites the first user of that name in place, or asks for it to be appended. */
  method ReplaceInPlace(a: array<User>, u: User) returns (found: bool)
    modifies a
    ensures Upserted(old(a[..]), u) == if found then a[..] else a[..] + [u]
  {
    hide Upserted;
    ghost var before := a[..];
    for i := 0 to a.Length
      invariant a[..] == before
      invariant forall j | 0 <= j < i :: before[j].username != u.username
    {
      if a[i].username == u.username {
        UpsertedAt(before, u, i);
        a[i] := u;
        assert a[..] == before[i := u];
        return true;
      }
    }
    UpsertedAt(before, u, a.Length);
    found := false;
  }

  lemma RemovedSnoc(init: seq<User>, u: User, name: string)
    ensures Removed(init + [u], name) == if u.username == name then Removed(init, name) else Removed(init, name) + [u]
    ensures Named(init + [u], name) <==> Named(init, name) || u.username == name
  {
    assert (init + [u])[..|init|] == init;
    assert u in init + [u] && forall x <- init :: x in init + [u];
  }

  lemma NobodyRemoved(name: string)
    ensures Removed([], name) == [] && !Named([], name)
  {
  }

  /** Removing goes user by user: the others stay, in their order. */
  lemma {:induction false} RemovedInOrder(a: seq<User>, b: seq<User>, name: string)
    ensures Removed(a + b, name) == Removed(a, name) + Removed(b, name)
    decreases |b|
  {
    hide Removed;
    if b == [] {
      assert a + b == a;
      NobodyRemoved(name);
    } else {
      var init, last := b[..|b| - 1], b[|b| - 1];
      RemovedInOrder(a, init, name);
      assert a + b == a + init + [last] && b == init + [last];
      RemovedSnoc(a + init, last, name);
      RemovedSnoc(init, last, name);
    }
  }

  lemma RemovedOne(u: User, name: string)
    ensures Removed([u], name) == if u.username == name then [] else [u]
  {
    NobodyRemoved(name);
    RemovedSnoc([], u, name);
    assert [] + [u] == [u];
  }

  /** Compacts the array in place over its own backing store, as `filtered := users[:0]`
      followed by appends does, and returns how many users are left. */
  method FilterInPlace(a: array<User>, name: string) returns (n: nat, removed: bool)
    modifies a
    ensures n <= a.Length && a[..n] == Removed(old(a[..]), name)
    ensures removed <==> Named(old(a[..]), name)
  {
    hide Removed, Named;
    n, removed := 0, false;
    ghost var before := a[..];
    NobodyRemoved(name);
    for i := 0 to a.Length
      invariant n <= i && a[..n] == Removed(before[..i], name)
      invariant a[i..] == before[i..]
      invariant removed <==> Named(before[..i], name)
    {
      assert before[..i + 1] == before[..i] + [before[i]];
      RemovedSnoc(before[..i], before[i], name);
      assert a[i] == a[i..][0] == before[i];
      if a[i].username == name {
        removed := true;
      } else {
        a[n] := a[i];
        assert a[..n + 1] == a[..n] + [before[i]];
        n := n + 1;
      }
    }
    assert before[..a.Length] == before;
  }

  /** The configuration file. */
  class ConfigFile {
    var disk: Config

    constructor (disk: Config)
      ensures this.disk == disk
    {
      this.disk := disk;
    }

    method Validate(c: Config) returns (err: Option<Error>)
      ensures err == ConfigError(c)
    {
      if !c.otherPartsValid {
        return Some(OtherInvalid);
      }
      err := ValidateAuth(c);
    }

    method Load(readable: bool) returns (err: Option<Error>, c: Config)
      ensures err == (if readable then ConfigError(disk) else Some(FileError))
      ensures c == disk
    {
      c := disk;
      if !readable {
        return Some(FileError), c;
      }
      err := Validate(c);
    }

    /** Validates and replaces the file as a whole, or leaves it alone. */
    method Save(c: Config, writable: bool) returns (err: Option<Error>)
      modifies this
      ensures err == if ConfigError(c).Some? then ConfigError(c) else if writable then None else Some(FileError)
      ensures disk == if err.None? then c else old(disk)
    {
      err := Validate(c);
      if err.Some? {
        return;
      }
      if !writable {
        return Some(FileError);
      }
      disk := c;
    }

    /** `Update` with the closure of `UpsertUser`. */
    method UpsertUser(u: User, io: IO) returns (err: Option<Error>)
      modifies this
      ensures (disk, err) == UpsertOnDisk(old(disk), u, io)
    {
      var c;
      err, c := Load(io.readable);
      if err.Some? {
        return;
      }
      var a := new User[|c.users|](i requires 0 <= i < |c.users| => c.users[i]);
      assert a[..] == c.users;
      var found := ReplaceInPlace(a, u);
      c := c.(users := if found then a[..] else a[..] + [u]);
      err := Save(c, io.writable);
    }

    /** `Update` with the closure of `RemoveUser`. */
    method RemoveUser(name: string, io: IO) returns (err: Option<Error>)
      modifies this
      ensures (disk, err) == RemoveOnDisk(old(disk), name, io)
    {
      var c;
      err, c := Load(io.readable);
      if err.Some? {
        return;
      }
      var a := new User[|c.users|](i requires 0 <= i < |c.users| => c.users[i]);
      assert a[..] == c.users;
      var n, removed := FilterInPlace(a, name);
      if !removed {
        return Some(UserNotFound);
      }
      c := c.(users := a[..n]);
      err := Save(c, io.writable);
    }
  }

  /** Whether the file can be read and written during one update. */
  datatype IO = IO(readable: bool, writable: bool)

  /** `Update` = load, mutate, validate, save: the new file and the error. */
  function Updated(disk: Config, mutated: Config, io: IO): (Config, Option<Error>) {
    if !io.readable then (disk, Some(FileError))
    else if ConfigError(disk).Some? then (disk, ConfigError(disk))
    else if ConfigError(mutated).Some? then (disk, ConfigError(mutated))
    else if !io.writable then (disk, Some(FileError))
    else (mutated, None)
  }

  /** A configuration reaches the file only if it and the one it replaces are valid; otherwise
      the error says why not and the file is as before. */
  lemma UpdatedExactly(disk: Config, mutated: Config, io: IO)
    ensures var (after, err) := Updated(disk, mutated, io);
            && (err.None? <==> io.readable && io.writable && ConfigError(disk).None? && ConfigError(mutated).None?)
            && after == (if err.None? then mutated else disk)
            && (err == Some(FileError) ==> !io.readable || !io.writable)
  {
    ValidationNotFile(disk);
    ValidationNotFile(mutated);
  }

  lemma ValidationNotFile(c: Config)
    ensures ConfigError(c) != Some(FileError) && ConfigError(c) != Some(UserNotFound)
  {
    UsersNotFile(c.users);
  }

  lemma {:induction false} UsersNotFile(users: seq<User>)
    ensures UsersError(users) != Some(FileError) && UsersError(users) != Some(UserNotFound)
  {
    if users != [] { UsersNotFile(users[..|users| - 1]); }
  }

  /** The checks of a configuration: other parts, then authentication. Without users and with
      everything switched off there is nothing to check; switched on without users or JWT is an
      error; otherwise all users must be valid together, and then the digest and JWT settings. */
  lemma ConfigValidExactly(c: Config)
    ensures ConfigError(c).None? <==>
              && c.otherPartsValid
              && (|| (!c.authEnabled && c.users == [] && !c.jwtEnabled)
                  || (&& (c.users != [] || c.jwtEnabled)
                      && (forall u <- c.users :: UserError(u, {}).None?) && Distinct(c.users)
                      && c.digestAndJwtValid))
    ensures c.otherPartsValid && c.authEnabled && c.users == [] && !c.jwtEnabled ==>
              ConfigError(c) == Some(UsersRequired)
  {
    hide UserError, Distinct;
    UsersValidExactly(c.users);
  }

  function UpsertOnDisk(disk: Config, u: User, io: IO): (Config, Option<Error>) {
    Updated(disk, disk.(users := Upserted(disk.users, u)), io)
  }

  function RemoveOnDisk(disk: Config, name: string, io: IO): (Config, Option<Error>) {
    if io.readable && ConfigError(disk).None? && !Named(disk.users, name) then (disk, Some(UserNotFound))
    else Updated(disk, disk.(users := Removed(disk.users, name)), io)
  }
}
