// Dashboard users and their browser sessions (internal/store/users.go, sessions.go). Store
// calls are atomic here; AdminRaces takes the statements of SetRole and DeleteUser apart. Times
// are nanoseconds; the database keeps whole seconds.
module Accounts {
  import opened Options
  import opened Text

  const SECOND := 1_000_000_000
  const DEFAULT_SESSION_TTL := 43_200_000_000_000

  datatype Role = Admin | Viewer

  datatype User = User(name: string, hash: int, role: Role)

  datatype Session = Session(user: nat, expires: int)  // expires in seconds

  // nextId is SQLite's AUTOINCREMENT counter; drawn holds every session id ever issued.
  datatype Db = Db(users: map<nat, User>, sessions: map<string, Session>, nextId: nat, drawn: set<string>)

  datatype Outcome = Success | Invalid | NotFound | Exists | LastAdmin

  // COLLATE NOCASE
  function Fold(s: string): string {
    seq(|s|, i requires 0 <= i < |s| => if 'A' <= s[i] <= 'Z' then (s[i] as int + 32) as char else s[i])
  }

  predicate Named(u: User, username: string) {
    Fold(u.name) == Fold(TrimSpace(username))
  }

  ghost predicate Consistent(db: Db) {
    && (forall i :: i in db.users ==> i < db.nextId)
    && (forall i, k :: i in db.users && k in db.users && i != k ==> Fold(db.users[i].name) != Fold(db.users[k].name))
    && (forall s :: s in db.sessions ==> db.sessions[s].user in db.users && s in db.drawn)
  }

  // ----- The store calls as functions ---------------------------------------------------------

  ghost function FindUser(db: Db, username: string): (r: Option<nat>)
    ensures r.Some? ==> r.value in db.users && Named(db.users[r.value], username)
    ensures r.None? ==> forall i :: i in db.users ==> !Named(db.users[i], username)
  {
    if i :| i in db.users && Named(db.users[i], username) then Some(i) else None
  }

  ghost predicate OtherAdmin(db: Db, id: nat) {
    exists i :: i in db.users && i != id && db.users[i].role == Admin
  }

  function WithoutSessionsOf(db: Db, id: nat): Db {
    db.(sessions := map s | s in db.sessions && db.sessions[s].user != id :: db.sessions[s])
  }

  function Swept(db: Db, now: int): Db {
    db.(sessions := map s | s in db.sessions && db.sessions[s].expires > now / SECOND :: db.sessions[s])
  }

  datatype Op =
    | CreateUser(username: string, role: Option<Role>, valid: bool, hash: int)
    | SetRole(username: string, role: Option<Role>)
    | SetPassword(username: string, valid: bool, hash: int)
    | DeleteUser(username: string)
    | CreateSession(user: nat, id: string, ttl: int, now: int, sweep: int)
    | LookupSession(id: string, now: int)
    | DeleteSession(id: string)
    | SweepSessions(now: int)

  // The result of a store call: the new database, the outcome, and the user of a session found.
  datatype Reply = Reply(db: Db, outcome: Outcome, user: Option<nat>)

  function Same(db: Db, outcome: Outcome): Reply {
    Reply(db, outcome, None)
  }

  // role and valid are the verdicts of NormalizeRole, ValidateUsername and ValidatePassword.
  ghost function Call(db: Db, op: Op): Reply {
    match op
    case CreateUser(username, role, valid, hash) =>
      if !valid || role.None? then Same(db, Invalid)
      else if FindUser(db, username).Some? then Same(db, Exists)
      else
        var u := User(TrimSpace(username), hash, role.value);
        Same(db.(users := db.users[db.nextId := u], nextId := db.nextId + 1), Success)
    case SetRole(username, role) =>
      var u := FindUser(db, username);
      if role.None? then Same(db, Invalid)
      else if u.None? then Same(db, NotFound)
      else if db.users[u.value].role == Admin && role.value != Admin && !OtherAdmin(db, u.value)
      then Same(db, LastAdmin)
      else Same(db.(users := db.users[u.value := db.users[u.value].(role := role.value)]), Success)
    case SetPassword(username, valid, hash) =>
      var u := FindUser(db, username);
      if !valid then Same(db, Invalid)
      else if u.None? then Same(db, NotFound)
      else
        var users := db.users[u.value := db.users[u.value].(hash := hash)];
        Same(WithoutSessionsOf(db.(users := users), u.value), Success)
    case DeleteUser(username) =>
      var u := FindUser(db, username);
      if u.None? then Same(db, NotFound)
      else if db.users[u.value].role == Admin && !OtherAdmin(db, u.value) then Same(db, LastAdmin)
      else Same(WithoutSessionsOf(db.(users := db.users - {u.value}), u.value), Success)
    case CreateSession(user, id, ttl, now, sweep) =>
      if user !in db.users then Same(db, NotFound)
      else
        var expires := (now + if ttl <= 0 then DEFAULT_SESSION_TTL else ttl) / SECOND;
        var sessions := db.sessions[id := Session(user, expires)];
        Same(Swept(db.(sessions := sessions, drawn := db.drawn + {id}), sweep), Success)
    case LookupSession(id, now) =>
      if id == "" || id !in db.sessions || db.sessions[id].user !in db.users then Same(db, NotFound)
      else if now > db.sessions[id].expires * SECOND then Same(db.(sessions := db.sessions - {id}), NotFound)
      else Reply(db, Success, Some(db.sessions[id].user))
    case DeleteSession(id) => Same(db.(sessions := db.sessions - {id}), Success)
    case SweepSessions(now) => Same(Swept(db, now), Success)
  }

  // The session exists, so does its user, and it has not expired.
  predicate Resolves(db: Db, id: string, now: int) {
    && id != "" && id in db.sessions && db.sessions[id].user in db.users
    && now <= db.sessions[id].expires * SECOND
  }

  // ----- The store as the code writes it ---------------------------------------------------------

  class Store {
    var db: Db

    constructor ()
      ensures db == Db(map[], map[], 1, {}) && Consistent(db)
    {
      db := Db(map[], map[], 1, {});
    }

    method GetUser(username: string) returns (r: Option<nat>)
      requires Consistent(db)
      ensures r == FindUser(db, username)
    {
      if i :| i in db.users && Named(db.users[i], username) {
        r := Some(i);
      } else {
        r := None;
      }
    }

    method CountAdminsExcept(id: nat) returns (n: nat)
      ensures n > 0 <==> OtherAdmin(db, id)
    {
      var others := set i | i in db.users && i != id && db.users[i].role == Admin;
      n := |others|;
      if n > 0 {
        assert exists i :: i in others;
      }
      if OtherAdmin(db, id) {
        var i :| i in db.users && i != id && db.users[i].role == Admin;
        assert i in others;
      }
    }

    // The unique index refuses a name that is taken in any case.
    method CreateUser(username: string, role: Option<Role>, valid: bool, hash: int) returns (outcome: Outcome)
      requires Consistent(db)
      modifies this
      ensures Same(db, outcome) == Call(old(db), Op.CreateUser(username, role, valid, hash))
      ensures Consistent(db)
    {
      CallConsistent(db, Op.CreateUser(username, role, valid, hash));
      if !valid || role.None? {
        return Invalid;
      }
      var taken := GetUser(username);
      if taken.Some? {
        return Exists;
      }
      var u := User(TrimSpace(username), hash, role.value);
      db := db.(users := db.users[db.nextId := u], nextId := db.nextId + 1);
      outcome := Success;
    }

    method SetRole(username: string, role: Option<Role>) returns (outcome: Outcome)
      requires Consistent(db)
      modifies this
      ensures Same(db, outcome) == Call(old(db), Op.SetRole(username, role))
      ensures Consistent(db)
    {
      CallConsistent(db, Op.SetRole(username, role));
      if role.None? {
        return Invalid;
      }
      var u := GetUser(username);
      if u.None? {
        return NotFound;
      }
      if db.users[u.value].role == Admin && role.value != Admin {
        var others := CountAdminsExcept(u.value);
        if others == 0 {
          return LastAdmin;
        }
      }
      db := db.(users := db.users[u.value := db.users[u.value].(role := role.value)]);
      outcome := Success;
    }

    method DeleteUser(username: string) returns (outcome: Outcome)
      requires Consistent(db)
      modifies this
      ensures Same(db, outcome) == Call(old(db), Op.DeleteUser(username))
      ensures Consistent(db)
    {
      CallConsistent(db, Op.DeleteUser(username));
      var u := GetUser(username);
      if u.None? {
        return NotFound;
      }
      if db.users[u.value].role == Admin {
        var others := CountAdminsExcept(u.value);
        if others == 0 {
          return LastAdmin;
        }
      }
      db := WithoutSessionsOf(db.(users := db.users - {u.value}), u.value);
      outcome := Success;
    }

    method SetPassword(username: string, valid: bool, hash: int) returns (outcome: Outcome)
      requires Consistent(db)
      modifies this
      ensures Same(db, outcome) == Call(old(db), Op.SetPassword(username, valid, hash))
      ensures Consistent(db)
    {
      CallConsistent(db, Op.SetPassword(username, valid, hash));
      if !valid {
        return Invalid;
      }
      var u := GetUser(username);
      if u.None? {
        return NotFound;
      }
      db := db.(users := db.users[u.value := db.users[u.value].(hash := hash)]);
      DeleteUserSessions(u.value);
      outcome := Success;
    }

    method DeleteUserSessions(id: nat)
      modifies this
      ensures db == WithoutSessionsOf(old(db), id)
    {
      db := db.(sessions := map s | s in db.sessions && db.sessions[s].user != id :: db.sessions[s]);
    }

    // id is the freshly drawn session id, now and sweep the two clock readings.
    method CreateSession(user: nat, id: string, ttl: int, now: int, sweep: int) returns (outcome: Outcome)
      requires Consistent(db) && Fresh(db, Op.CreateSession(user, id, ttl, now, sweep))
      modifies this
      ensures Same(db, outcome) == Call(old(db), Op.CreateSession(user, id, ttl, now, sweep))
      ensures Consistent(db)
    {
      CallConsistent(db, Op.CreateSession(user, id, ttl, now, sweep));
      var life := if ttl <= 0 then DEFAULT_SESSION_TTL else ttl;
      if user !in db.users {
        return NotFound;
      }
      var row := Session(user, (now + life) / SECOND);
      db := db.(sessions := db.sessions[id := row], drawn := db.drawn + {id});
      SweepSessions(sweep);
      outcome := Success;
    }

    method SweepSessions(now: int)
      modifies this
      ensures db == Swept(old(db), now)
    {
      db := db.(sessions := map s | s in db.sessions && db.sessions[s].expires > now / SECOND :: db.sessions[s]);
    }

    method LookupSession(id: string, now: int) returns (user: Option<nat>)
      modifies this
      ensures var r := Call(old(db), Op.LookupSession(id, now)); db == r.db && user == r.user
      ensures user.Some? <==> Resolves(old(db), id, now)
      ensures user.Some? ==> user.value == old(db).sessions[id].user
      ensures db.users == old(db).users && forall s :: s != id && s in old(db).sessions ==> s in db.sessions
      ensures id in db.sessions ==> id in old(db).sessions && db.sessions[id] == old(db).sessions[id]
    {
      if id == "" || id !in db.sessions || db.sessions[id].user !in db.users {
        return None;
      }
      var s := db.sessions[id];
      if now > s.expires * SECOND {
        DeleteSession(id);
        return None;
      }
      user := Some(s.user);
    }

    method DeleteSession(id: string)
      modifies this
      ensures db == Call(old(db), Op.DeleteSession(id)).db
    {
      db := db.(sessions := db.sessions - {id});
    }
  }

  // ----- Runs --------------------------------------------------------------------------------------

  // Session ids are random: never empty and never drawn twice.
  predicate Fresh(db: Db, op: Op) {
    op.CreateSession? ==> op.id != "" && op.id !in db.drawn
  }

  ghost predicate Run(dbs: seq<Db>, ops: seq<Op>) {
    && |dbs| == |ops| + 1 && Consistent(dbs[0])
    && forall i {:trigger ops[i]} :: 0 <= i < |ops| ==> Fresh(dbs[i], ops[i]) && dbs[i + 1] == Call(dbs[i], ops[i]).db
  }

  lemma CallConsistent(db: Db, op: Op)
    requires Consistent(db) && Fresh(db, op)
    ensures Consistent(Call(db, op).db)
  {
  }

  ghost predicate HasAdmin(db: Db) {
    exists i :: i in db.users && db.users[i].role == Admin
  }

  // Role changes and deletions that go through leave an admin behind.
  lemma RoleCallKeepsAdmin(db: Db, op: Op, a: nat)
    requires op.SetRole? || op.DeleteUser?
    requires a in db.users && db.users[a].role == Admin
    ensures HasAdmin(Call(db, op).db)
  {
    var db' := Call(db, op).db;
    if OtherAdmin(db, a) {
      var b :| b in db.users && b != a && db.users[b].role == Admin;
      assert (a in db'.users && db'.users[a].role == Admin) || (b in db'.users && db'.users[b].role == Admin);
    } else {
      assert a in db'.users && db'.users[a].role == Admin;
    }
  }

  lemma CallKeepsAdmin(db: Db, op: Op)
    requires HasAdmin(db) && Consistent(db)
    ensures HasAdmin(Call(db, op).db)
  {
    var a :| a in db.users && db.users[a].role == Admin;
    if op.SetRole? || op.DeleteUser? {
      RoleCallKeepsAdmin(db, op, a);
    } else {
      assert a in Call(db, op).db.users && Call(db, op).db.users[a].role == Admin;
    }
  }

  // With store calls taken as atomic, the dashboard never loses its last admin.
  lemma {:induction false} AdminsNeverVanish(dbs: seq<Db>, ops: seq<Op>, a: nat, b: nat)
    requires Run(dbs, ops) && a <= b < |dbs| && HasAdmin(dbs[a])
    ensures HasAdmin(dbs[b]) && Consistent(dbs[b])
    decreases b
  {
    if b == 0 {
    } else if a < b {
      AdminsNeverVanish(dbs, ops, a, b - 1);
      CallKeepsAdmin(dbs[b - 1], ops[b - 1]);
      CallConsistent(dbs[b - 1], ops[b - 1]);
    } else {
      AllConsistent(dbs, ops, b);
    }
  }

  lemma {:induction false} AllConsistent(dbs: seq<Db>, ops: seq<Op>, n: nat)
    requires Run(dbs, ops) && n < |dbs|
    ensures Consistent(dbs[n])
  {
    if n > 0 {
      AllConsistent(dbs, ops, n - 1);
      CallConsistent(dbs[n - 1], ops[n - 1]);
    }
  }

  // A role change or deletion is refused for the admins' sake exactly when it would leave none.
  lemma LastAdminRefusedExactly(db: Db, op: Op)
    requires Consistent(db) && (op.SetRole? || op.DeleteUser?)
    requires FindUser(db, op.username).Some? && (op.SetRole? ==> op.role.Some?)
    ensures var u := FindUser(db, op.username).value;
            Call(db, op).outcome == LastAdmin <==>
              && db.users[u].role == Admin && (op.SetRole? ==> op.role.value != Admin)
              && forall i :: i in db.users && db.users[i].role == Admin ==> i == u
  {
  }

  // ----- What the calls store ---------------------------------------------------------------------

  predicate SameLetter(c: char, d: char) {
    || c == d
    || ('A' <= c <= 'Z' && d as int == c as int + 32)
    || ('A' <= d <= 'Z' && c as int == d as int + 32)
  }

  // Names are the same exactly when they differ in the case of ASCII letters at most.
  lemma SameNameExactly(s: string, t: string)
    ensures Fold(s) == Fold(t) <==> |s| == |t| && forall i :: 0 <= i < |s| ==> SameLetter(s[i], t[i])
  {
    if |s| == |t| && forall i :: 0 <= i < |s| ==> SameLetter(s[i], t[i]) {
      assert forall i :: 0 <= i < |s| ==> Fold(s)[i] == Fold(t)[i];
    }
    if Fold(s) == Fold(t) {
      assert |s| == |Fold(s)| == |Fold(t)| == |t|;
      forall i | 0 <= i < |s|
        ensures SameLetter(s[i], t[i])
      {
        assert Fold(s)[i] == Fold(t)[i];
      }
    }
  }

  // The two databases agree on every user but u.
  predicate OthersSame(db: Db, db': Db, u: nat) {
    && (forall i :: i in db.users && i != u ==> i in db'.users && db'.users[i] == db.users[i])
    && (forall i :: i in db'.users && i != u ==> i in db.users)
  }

  // A user created is found again by its name in any case, with the data given, beside the
  // others as they were; and a name that is taken in any case cannot be created.
  lemma CreatedIsFound(db: Db, username: string, role: Role, hash: int, spelled: string)
    requires Consistent(db)
    requires |TrimSpace(username)| == |TrimSpace(spelled)|
    requires forall i :: 0 <= i < |TrimSpace(username)| ==> SameLetter(TrimSpace(username)[i], TrimSpace(spelled)[i])
    ensures var r := Call(db, CreateUser(username, Some(role), true, hash));
            if FindUser(db, spelled).Some? then r == Same(db, Exists)
            else
              && r.outcome == Success && FindUser(r.db, spelled) == Some(db.nextId)
              && r.db.users[db.nextId] == User(TrimSpace(username), hash, role)
              && OthersSame(db, r.db, db.nextId) && db.nextId !in db.users && r.db.sessions == db.sessions
  {
    SameNameExactly(TrimSpace(username), TrimSpace(spelled));
    assert forall u: User :: Named(u, username) <==> Named(u, spelled);
    var r := Call(db, CreateUser(username, Some(role), true, hash));
    if FindUser(db, spelled).None? {
      assert FindUser(db, username).None?;
      assert r.db.users[db.nextId] == User(TrimSpace(username), hash, role);
      CallConsistent(db, CreateUser(username, Some(role), true, hash));
      TrimTwice(username);
      assert Named(r.db.users[db.nextId], spelled);
      var found := FindUser(r.db, spelled);
      assert found.Some?;
    }
  }

  // A successful SetRole changes the role of the user named and nothing else.
  lemma RoleIsStored(db: Db, username: string, role: Option<Role>)
    requires Consistent(db) && Call(db, SetRole(username, role)).outcome == Success
    ensures var db', u := Call(db, SetRole(username, role)).db, FindUser(db, username);
            && role.Some? && u.Some? && FindUser(db', username) == u
            && db'.users[u.value].role == role.value && OthersSame(db, db', u.value)
            && db'.users[u.value].name == db.users[u.value].name
            && db'.users[u.value].hash == db.users[u.value].hash && db'.sessions == db.sessions
  {
    var db', u := Call(db, SetRole(username, role)).db, FindUser(db, username);
    assert Named(db'.users[u.value], username);
    CallConsistent(db, SetRole(username, role));
  }

  // A successful SetPassword changes the hash of the user named, and removes its sessions and
  // no others.
  lemma PasswordIsStored(db: Db, username: string, valid: bool, hash: int)
    requires Consistent(db) && Call(db, SetPassword(username, valid, hash)).outcome == Success
    ensures var db', u := Call(db, SetPassword(username, valid, hash)).db, FindUser(db, username);
            && valid && u.Some? && FindUser(db', username) == u
            && db'.users[u.value].hash == hash && OthersSame(db, db', u.value)
            && db'.users[u.value].name == db.users[u.value].name
            && db'.users[u.value].role == db.users[u.value].role
            && forall s :: s in db'.sessions <==> s in db.sessions && db.sessions[s].user != u.value
  {
    var db', u := Call(db, SetPassword(username, valid, hash)).db, FindUser(db, username);
    assert Named(db'.users[u.value], username);
    CallConsistent(db, SetPassword(username, valid, hash));
  }

  // A successful DeleteUser removes the user named and its sessions, and nothing else.
  lemma UserIsDeleted(db: Db, username: string)
    requires Consistent(db) && Call(db, DeleteUser(username)).outcome == Success
    ensures var db', u := Call(db, DeleteUser(username)).db, FindUser(db, username);
            && u.Some? && u.value !in db'.users && FindUser(db', username) == None
            && OthersSame(db, db', u.value)
            && forall s :: s in db'.sessions <==> s in db.sessions && db.sessions[s].user != u.value
  {
  }

  predicate OnUsers(op: Op) {
    op.CreateUser? || op.SetRole? || op.SetPassword? || op.DeleteUser?
  }

  // Which calls are refused, and that a refused one changes nothing.
  lemma RefusedExactly(db: Db, op: Op)
    requires Consistent(db) && OnUsers(op)
    ensures var r := Call(db, op);
            && (r.outcome != Success ==> r.db == db)
            && (r.outcome == Invalid <==>
                  || ((op.CreateUser? || op.SetPassword?) && !op.valid)
                  || ((op.CreateUser? || op.SetRole?) && op.role == None))
            && (r.outcome == NotFound <==>
                  && r.outcome != Invalid && !op.CreateUser?
                  && forall i :: i in db.users ==> !Named(db.users[i], op.username))
            && (r.outcome == Exists <==>
                  && r.outcome != Invalid && op.CreateUser?
                  && exists i :: i in db.users && Named(db.users[i], op.username))
  {
  }

  // ----- How long a session lasts -----------------------------------------------------------------

  // A session id that was issued and is not in the table never comes back.
  lemma {:induction false} GoneForGood(dbs: seq<Db>, ops: seq<Op>, a: nat, b: nat, id: string)
    requires Run(dbs, ops) && a <= b < |dbs|
    requires id in dbs[a].drawn && id !in dbs[a].sessions
    ensures id in dbs[b].drawn && id !in dbs[b].sessions
    decreases b
  {
    if a < b {
      GoneForGood(dbs, ops, a, b - 1, id);
      assert Fresh(dbs[b - 1], ops[b - 1]) && dbs[b - 1 + 1] == Call(dbs[b - 1], ops[b - 1]).db;
    }
  }

  // The call removes the session id of user u that expires at the second given.
  ghost predicate EndsSession(db: Db, op: Op, id: string, u: nat, expires: int) {
    || (op.DeleteSession? && op.id == id)
    || ((op.SetPassword? || op.DeleteUser?) && Call(db, op).outcome == Success && FindUser(db, op.username) == Some(u))
    || (op.SweepSessions? && op.now >= expires * SECOND)
    || (op.CreateSession? && op.user in db.users && op.sweep >= expires * SECOND)
    || (op.LookupSession? && op.id == id && op.now > expires * SECOND)
  }

  lemma WholeSeconds(now: int, expires: int)
    ensures expires > now / SECOND <==> expires * SECOND > now
  {
  }

  lemma SweptExactly(db: Db, now: int, id: string)
    requires id in db.sessions
    ensures id in Swept(db, now).sessions <==> now < db.sessions[id].expires * SECOND
    ensures id in Swept(db, now).sessions ==> Swept(db, now).sessions[id] == db.sessions[id]
  {
    WholeSeconds(now, db.sessions[id].expires);
  }

  lemma CreateSpares(db: Db, op: Op, id: string)
    requires op.CreateSession? && Fresh(db, op) && id in db.drawn && id in db.sessions
    ensures var db', row := Call(db, op).db, db.sessions[id];
            && (id in db'.sessions <==> !EndsSession(db, op, id, row.user, row.expires))
            && (id in db'.sessions ==> db'.sessions[id] == row)
  {
    if op.user in db.users {
      var row := Session(op.user, (op.now + if op.ttl <= 0 then DEFAULT_SESSION_TTL else op.ttl) / SECOND);
      SweptExactly(db.(sessions := db.sessions[op.id := row], drawn := db.drawn + {op.id}), op.sweep, id);
    }
  }

  lemma SessionStep(db: Db, op: Op, id: string)
    requires Consistent(db) && Fresh(db, op) && id != "" && id in db.sessions
    ensures var db', row := Call(db, op).db, db.sessions[id];
            && (id in db'.sessions <==> !EndsSession(db, op, id, row.user, row.expires))
            && (id in db'.sessions ==> db'.sessions[id] == row)
  {
    match op {
      case SweepSessions(now) => SweptExactly(db, now, id);
      case CreateSession(_, _, _, _, _) => CreateSpares(db, op, id);
      case _ =>
    }
  }

  // No call from a on and before b removes the session.
  ghost predicate Spared(dbs: seq<Db>, ops: seq<Op>, a: nat, b: nat, id: string, row: Session)
    requires b <= |ops| < |dbs|
  {
    forall i :: a <= i < b ==> !EndsSession(dbs[i], ops[i], id, row.user, row.expires)
  }

  lemma SparedOneMore(dbs: seq<Db>, ops: seq<Op>, a: nat, b: nat, id: string, row: Session)
    requires a <= b < |ops| < |dbs|
    ensures Spared(dbs, ops, a, b + 1, id, row)
            <==> Spared(dbs, ops, a, b, id, row) && !EndsSession(dbs[b], ops[b], id, row.user, row.expires)
  {
  }

  lemma GoneStep(db: Db, op: Op, id: string)
    requires Fresh(db, op) && id in db.drawn && id !in db.sessions
    ensures id !in Call(db, op).db.sessions
  {
  }

  lemma IssuedStays(db: Db, op: Op, id: string)
    requires id in db.drawn
    ensures id in Call(db, op).db.drawn
  {
  }

  lemma SessionNext(db: Db, op: Op, id: string, row: Session)
    requires Consistent(db) && Fresh(db, op) && id != "" && id in db.drawn
    requires id in db.sessions ==> db.sessions[id] == row
    ensures var db' := Call(db, op).db;
            && id in db'.drawn && (id in db'.sessions ==> db'.sessions[id] == row)
            && (id in db'.sessions <==> id in db.sessions && !EndsSession(db, op, id, row.user, row.expires))
  {
    IssuedStays(db, op, id);
    if id in db.sessions {
      SessionStep(db, op, id);
    } else {
      GoneStep(db, op, id);
    }
  }

  lemma {:induction false} SessionLasts(dbs: seq<Db>, ops: seq<Op>, a: nat, b: nat, id: string, row: Session)
    requires Run(dbs, ops) && a <= b < |dbs|
    requires id != "" && id in dbs[a].sessions && id in dbs[a].drawn && dbs[a].sessions[id] == row
    ensures id in dbs[b].drawn && (id in dbs[b].sessions <==> Spared(dbs, ops, a, b, id, row))
    ensures id in dbs[b].sessions ==> dbs[b].sessions[id] == row
    decreases b
  {
    if a < b {
      var n := b - 1;
      SessionLasts(dbs, ops, a, n, id, row);
      SparedOneMore(dbs, ops, a, n, id, row);
      AllConsistent(dbs, ops, n);
      assert Fresh(dbs[n], ops[n]) && dbs[n + 1] == Call(dbs[n], ops[n]).db;
      SessionNext(dbs[n], ops[n], id, row);
    }
  }

  // The second at which a session expires that is created with this time to live.
  function Expiry(now: int, ttl: int): int {
    (now + if ttl <= 0 then 43_200_000_000_000 else ttl) / SECOND
  }

  // A session made for u resolves to u, and to nobody else, exactly as long as it has not
  // expired and no call has removed it.
  lemma SignedInExactly(dbs: seq<Db>, ops: seq<Op>, a: nat, b: nat, at: int)
    requires Run(dbs, ops) && a < b < |dbs| && ops[a].CreateSession? && ops[a].user in dbs[a].users
    ensures var op, expires := ops[a], Expiry(ops[a].now, ops[a].ttl);
            Call(dbs[b], LookupSession(op.id, at)).user
            == if && at <= expires * SECOND && op.sweep < expires * SECOND
                  && Spared(dbs, ops, a + 1, b, op.id, Session(op.user, expires))
               then Some(op.user) else None
  {
    var op, expires := ops[a], Expiry(ops[a].now, ops[a].ttl);
    assert Fresh(dbs[a], op) && dbs[a + 1] == Call(dbs[a], op).db;
    AllConsistent(dbs, ops, b);
    WholeSeconds(op.sweep, expires);
    if op.id in dbs[a + 1].sessions {
      SessionLasts(dbs, ops, a + 1, b, op.id, Session(op.user, expires));
    } else {
      GoneForGood(dbs, ops, a + 1, b, op.id);
    }
  }

  // ----- Evicted sessions -----------------------------------------------------------------------

  // After a successful SetPassword or DeleteUser no earlier session of that user ever
  // resolves again, at any clock reading.
  lemma EvictedForever(dbs: seq<Db>, ops: seq<Op>, a: nat, b: nat, id: string, now: int)
    requires Run(dbs, ops) && a < b < |dbs|
    requires (ops[a].SetPassword? || ops[a].DeleteUser?) && Call(dbs[a], ops[a]).outcome == Success
    requires id in dbs[a].sessions && Some(dbs[a].sessions[id].user) == FindUser(dbs[a], ops[a].username)
    ensures Call(dbs[b], LookupSession(id, now)).user == None
  {
    AllConsistent(dbs, ops, a);
    assert dbs[a + 1] == Call(dbs[a], ops[a]).db;
    GoneForGood(dbs, ops, a + 1, b, id);
  }

  // Sessions of other users survive both calls.
  lemma OthersStaySignedIn(db: Db, op: Op, id: string)
    requires Consistent(db) && (op.SetPassword? || op.DeleteUser?)
    requires id in db.sessions && Some(db.sessions[id].user) != FindUser(db, op.username)
    ensures id in Call(db, op).db.sessions && Call(db, op).db.sessions[id] == db.sessions[id]
  {
  }

  // ----- Sweeping --------------------------------------------------------------------------------

  // A sweep changes the answer of a lookup at or after it only at the very nanosecond at which
  // the session expires: the sweep takes "expires at t" as expired at t, the lookup does not.
  lemma SweepSeenExactly(db: Db, id: string, sweep: int, now: int)
    requires Consistent(db) && sweep <= now
    ensures Call(Swept(db, sweep), LookupSession(id, now)).user != Call(db, LookupSession(id, now)).user <==>
            id != "" && id in db.sessions && sweep == now == db.sessions[id].expires * SECOND
  {
  }

  // Two databases that differ in sessions expired before t, as after a sweep.
  ghost predicate SameButExpired(db: Db, db': Db, t: int) {
    && db'.users == db.users && db'.nextId == db.nextId && db'.drawn == db.drawn
    && (forall s :: s in db'.sessions ==> s in db.sessions && db'.sessions[s] == db.sessions[s])
    && (forall s :: s in db.sessions && s !in db'.sessions ==> db.sessions[s].expires * SECOND <= t)
  }

  predicate Later(op: Op, t: int) {
    && (op.LookupSession? ==> op.now > t)
    && (op.CreateSession? ==> op.now > t && op.sweep > t)
    && (op.SweepSessions? ==> op.now > t)
  }

  lemma FindSame(db: Db, db': Db, username: string)
    requires db'.users == db.users && Consistent(db)
    ensures FindUser(db, username) == FindUser(db', username)
  {
  }

  lemma UserCallIgnoresExpired(db: Db, db': Db, op: Op, t: int)
    requires SameButExpired(db, db', t) && Consistent(db) && OnUsers(op)
    ensures SameButExpired(Call(db, op).db, Call(db', op).db, t)
    ensures Call(db, op).outcome == Call(db', op).outcome && Call(db, op).user == Call(db', op).user
  {
    FindSame(db, db', op.username);
    if op.SetPassword? || op.DeleteUser? {
      EvictionIgnoresExpired(db, db', op, t);
    }
  }

  lemma EvictionIgnoresExpired(db: Db, db': Db, op: Op, t: int)
    requires SameButExpired(db, db', t) && (op.SetPassword? || op.DeleteUser?)
    requires FindUser(db, op.username) == FindUser(db', op.username)
    ensures SameButExpired(Call(db, op).db, Call(db', op).db, t)
    ensures Call(db, op).outcome == Call(db', op).outcome && Call(db, op).user == Call(db', op).user
  {
  }

  lemma CreateIgnoresExpired(db: Db, db': Db, op: Op, t: int)
    requires SameButExpired(db, db', t) && op.CreateSession? && Later(op, t)
    ensures SameButExpired(Call(db, op).db, Call(db', op).db, t)
    ensures Call(db, op).outcome == Call(db', op).outcome && Call(db, op).user == Call(db', op).user
  {
  }

  lemma CallIgnoresExpired(db: Db, db': Db, op: Op, t: int)
    requires SameButExpired(db, db', t) && Later(op, t) && Consistent(db)
    ensures SameButExpired(Call(db, op).db, Call(db', op).db, t)
    ensures Call(db, op).outcome == Call(db', op).outcome && Call(db, op).user == Call(db', op).user
  {
    match op {
      case CreateSession(_, _, _, _, _) => CreateIgnoresExpired(db, db', op, t);
      case LookupSession(_, _) =>
      case DeleteSession(_) =>
      case SweepSessions(_) =>
      case _ => UserCallIgnoresExpired(db, db', op, t);
    }
  }

  // The same calls, all later than t, on the database as it was and as a sweep at t left it.
  ghost predicate SweptBeside(dbs: seq<Db>, dbs': seq<Db>, ops: seq<Op>, t: int) {
    && Run(dbs, ops) && |dbs'| == |dbs| && dbs'[0] == Swept(dbs[0], t)
    && forall i {:trigger ops[i]} :: 0 <= i < |ops| ==> Later(ops[i], t) && dbs'[i + 1] == Call(dbs'[i], ops[i]).db
  }

  lemma {:induction false} StaysBeside(dbs: seq<Db>, dbs': seq<Db>, ops: seq<Op>, t: int, n: nat)
    requires SweptBeside(dbs, dbs', ops, t) && n < |dbs|
    ensures SameButExpired(dbs[n], dbs'[n], t)
  {
    if n > 0 {
      StaysBeside(dbs, dbs', ops, t, n - 1);
      AllConsistent(dbs, ops, n - 1);
      assert Later(ops[n - 1], t);
      CallIgnoresExpired(dbs[n - 1], dbs'[n - 1], ops[n - 1], t);
    }
  }

  // A sweep at t is never noticed: with it and without it, every later call answers the same.
  lemma SweepNeverNoticed(dbs: seq<Db>, dbs': seq<Db>, ops: seq<Op>, t: int, n: nat)
    requires SweptBeside(dbs, dbs', ops, t) && n < |ops|
    ensures Call(dbs[n], ops[n]).outcome == Call(dbs'[n], ops[n]).outcome
    ensures Call(dbs[n], ops[n]).user == Call(dbs'[n], ops[n]).user
  {
    StaysBeside(dbs, dbs', ops, t, n);
    AllConsistent(dbs, ops, n);
    assert Later(ops[n], t);
    CallIgnoresExpired(dbs[n], dbs'[n], ops[n], t);
  }
}
