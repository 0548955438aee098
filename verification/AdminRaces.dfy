// The last-admin rule statement by statement (internal/store/users.go). SetRole and DeleteUser
// read the user, may count the other admins, and then write, each in a statement of its own;
// here the statements of any number of calls interleave.
module AdminRaces {
  import opened Options
  import opened Accounts

  // to: the role to be written; None deletes the user.
  datatype Pc =
    | Counting(user: nat, to: Option<Role>)
    | Writing(user: nat, to: Option<Role>)
    | Over

  datatype World = World(roles: map<nat, Role>, next: nat, calls: map<nat, Pc>)

  datatype Step =
    | Reads(t: nat, user: nat, to: Option<Role>)
    | Counts(t: nat)
    | Writes(t: nat)
    | Inserts(role: Role)   // CreateUser

  predicate Enabled(w: World, s: Step) {
    match s
    case Reads(t, _, _) => t !in w.calls
    case Counts(t) => t in w.calls && w.calls[t].Counting?
    case Writes(t) => t in w.calls && w.calls[t].Writing?
    case Inserts(_) => true
  }

  predicate IsAdmin(w: World, user: nat) {
    user in w.roles && w.roles[user] == Admin
  }

  predicate AnyAdmin(w: World) {
    exists i | i in w.roles :: w.roles[i] == Admin
  }

  predicate AnotherAdmin(w: World, user: nat) {
    exists i | i in w.roles :: i != user && w.roles[i] == Admin
  }

  // Where a call goes after its first statement.
  function AfterRead(w: World, user: nat, to: Option<Role>): Pc {
    if user !in w.roles then Over
    else if w.roles[user] == Admin && to != Some(Admin) then Counting(user, to)
    else Writing(user, to)
  }

  // An update of a row that is gone changes nothing.
  function Written(roles: map<nat, Role>, user: nat, to: Option<Role>): map<nat, Role> {
    if to.None? then roles - {user}
    else if user in roles then roles[user := to.value]
    else roles
  }

  function Take(w: World, s: Step): World
    requires Enabled(w, s)
  {
    match s
    case Reads(t, user, to) => w.(calls := w.calls[t := AfterRead(w, user, to)])
    case Counts(t) =>
      var c := w.calls[t];
      w.(calls := w.calls[t := if AnotherAdmin(w, c.user) then Writing(c.user, c.to) else Over])
    case Writes(t) =>
      var c := w.calls[t];
      w.(roles := Written(w.roles, c.user, c.to), calls := w.calls[t := Over])
    case Inserts(role) => w.(roles := w.roles[w.next := role], next := w.next + 1)
  }

  ghost predicate Run(ws: seq<World>, ss: seq<Step>) {
    && |ws| == |ss| + 1 && ws[0].calls == map[] && (forall i :: i in ws[0].roles ==> i < ws[0].next)
    && forall i {:trigger ss[i]} :: 0 <= i < |ss| ==> Enabled(ws[i], ss[i]) && ws[i + 1] == Take(ws[i], ss[i])
  }

  // ----- One call by itself -----------------------------------------------------------------------

  function RolesOf(db: Db): map<nat, Role> {
    map i | i in db.users :: db.users[i].role
  }

  // All statements of call t, one after the other.
  function Alone(w: World, t: nat, user: nat, to: Option<Role>): World
    requires t !in w.calls
  {
    var read := Take(w, Reads(t, user, to));
    var counted := if read.calls[t].Counting? then Take(read, Counts(t)) else read;
    if counted.calls[t].Writing? then Take(counted, Writes(t)) else counted
  }

  lemma OtherAdminSame(db: Db, w: World, user: nat)
    requires w.roles == RolesOf(db)
    ensures AnotherAdmin(w, user) <==> OtherAdmin(db, user)
  {
    if OtherAdmin(db, user) {
      var i :| i in db.users && i != user && db.users[i].role == Admin;
      assert i in w.roles;
    }
  }

  // The statements of SetRole run together do what the atomic call does.
  lemma SetRoleAlone(db: Db, w: World, t: nat, username: string, role: Role)
    requires w.roles == RolesOf(db) && t !in w.calls && FindUser(db, username).Some?
    ensures Alone(w, t, FindUser(db, username).value, Some(role)).roles
            == RolesOf(Call(db, SetRole(username, Some(role))).db)
  {
    OtherAdminSame(db, w, FindUser(db, username).value);
  }

  // So do those of DeleteUser.
  lemma DeleteUserAlone(db: Db, w: World, t: nat, username: string)
    requires w.roles == RolesOf(db) && t !in w.calls && FindUser(db, username).Some?
    ensures Alone(w, t, FindUser(db, username).value, None).roles == RolesOf(Call(db, DeleteUser(username)).db)
  {
    OtherAdminSame(db, w, FindUser(db, username).value);
  }

  // ----- What a call may rely on --------------------------------------------------------------

  // What the call's statements so far have established, as long as nobody else writes.
  predicate Promised(w: World, c: Pc) {
    match c
    case Counting(user, to) => IsAdmin(w, user) && to != Some(Admin)
    case Writing(user, to) => to == Some(Admin) || !IsAdmin(w, user) || AnotherAdmin(w, user)
    case Over => true
  }

  predicate IdsInRange(w: World) {
    forall i :: i in w.roles ==> i < w.next
  }

  lemma IdsStep(w: World, s: Step)
    requires IdsInRange(w) && Enabled(w, s)
    ensures IdsInRange(Take(w, s))
  {
  }

  // A call is past its first statement for good, and an ended call stays so.
  lemma CallStays(w: World, s: Step, t: nat)
    requires Enabled(w, s) && t in w.calls
    ensures t in Take(w, s).calls && (w.calls[t].Over? ==> Take(w, s).calls[t].Over?)
  {
  }

  lemma PromiseStep(w: World, s: Step, t: nat)
    requires IdsInRange(w) && Enabled(w, s) && !s.Writes?
    requires t in w.calls && Promised(w, w.calls[t]) && (w.calls[t].Writing? ==> w.calls[t].user < w.next)
    ensures t in Take(w, s).calls && Promised(Take(w, s), Take(w, s).calls[t])
    ensures Take(w, s).calls[t].Writing? ==> Take(w, s).calls[t].user < Take(w, s).next
  {
    var w' := Take(w, s);
    assert forall i :: i in w.roles ==> i in w'.roles && w'.roles[i] == w.roles[i];
  }

  lemma {:induction false} IdsHold(ws: seq<World>, ss: seq<Step>, n: nat)
    requires Run(ws, ss) && n < |ws|
    ensures IdsInRange(ws[n])
  {
    if n > 0 {
      IdsHold(ws, ss, n - 1);
      IdsStep(ws[n - 1], ss[n - 1]);
    }
  }

  lemma {:induction false} PromiseHolds(ws: seq<World>, ss: seq<Step>, a: nat, n: nat)
    requires Run(ws, ss) && a < n < |ws| && ss[a].Reads?
    requires forall i :: a < i < n ==> !ss[i].Writes?
    ensures var w, t := ws[n], ss[a].t;
            t in w.calls && Promised(w, w.calls[t]) && (w.calls[t].Writing? ==> w.calls[t].user < w.next)
    decreases n
  {
    IdsHold(ws, ss, n - 1);
    if a < n - 1 {
      PromiseHolds(ws, ss, a, n - 1);
      PromiseStep(ws[n - 1], ss[n - 1], ss[a].t);
    } else {
      assert ws[n] == Take(ws[a], ss[a]);
    }
  }

  lemma {:induction false} BegunByRead(ws: seq<World>, ss: seq<Step>, n: nat, t: nat) returns (a: nat)
    requires Run(ws, ss) && n < |ws| && t in ws[n].calls
    ensures a < n && ss[a].Reads? && ss[a].t == t
  {
    assert n > 0;
    assert Enabled(ws[n - 1], ss[n - 1]) && ws[n] == Take(ws[n - 1], ss[n - 1]);
    if t in ws[n - 1].calls {
      a := BegunByRead(ws, ss, n - 1, t);
    } else {
      a := n - 1;
    }
  }

  lemma {:induction false} EndedForGood(ws: seq<World>, ss: seq<Step>, a: nat, b: nat, t: nat)
    requires Run(ws, ss) && a <= b < |ws| && t in ws[a].calls && ws[a].calls[t].Over?
    ensures t in ws[b].calls && ws[b].calls[t].Over?
    decreases b
  {
    if a < b {
      EndedForGood(ws, ss, a, b - 1, t);
      CallStays(ws[b - 1], ss[b - 1], t);
    }
  }

  // ----- When the last admin is lost --------------------------------------------------------------

  lemma WriteLoses(w: World, t: nat)
    requires Enabled(w, Writes(t)) && AnyAdmin(w)
    ensures !AnyAdmin(Take(w, Writes(t))) <==> !Promised(w, w.calls[t])
  {
    var c, w' := w.calls[t], Take(w, Writes(t));
    if AnotherAdmin(w, c.user) {
      var i :| i in w.roles && i != c.user && w.roles[i] == Admin;
      assert i in w'.roles && w'.roles[i] == Admin;
    } else {
      assert forall i :: i in w.roles && w.roles[i] == Admin ==> i == c.user;
      assert c.to == Some(Admin) ==> c.user in w'.roles && w'.roles[c.user] == Admin;
    }
  }

  lemma OthersKeep(w: World, s: Step)
    requires IdsInRange(w) && Enabled(w, s) && AnyAdmin(w) && !s.Writes?
    ensures AnyAdmin(Take(w, s))
  {
    var i :| i in w.roles && w.roles[i] == Admin;
    assert i in Take(w, s).roles && Take(w, s).roles[i] == Admin;
  }

  // The step that loses the last admin is the write of a call that another call's write has
  // overtaken: it comes after this call has read its user.
  lemma LostOnlyByOverlap(ws: seq<World>, ss: seq<Step>, b: nat) returns (a: nat, i: nat)
    requires Run(ws, ss) && b < |ss| && AnyAdmin(ws[b]) && !AnyAdmin(ws[b + 1])
    ensures a < i < b && ss[b].Writes? && ss[i].Writes? && ss[i].t != ss[b].t
    ensures ss[a].Reads? && ss[a].t == ss[b].t
  {
    assert ws[b + 1] == Take(ws[b], ss[b]);
    IdsHold(ws, ss, b);
    if !ss[b].Writes? {
      OthersKeep(ws[b], ss[b]);
      assert false;
    }
    var t := ss[b].t;
    WriteLoses(ws[b], t);
    a := BegunByRead(ws, ss, b, t);
    if forall k :: a < k < b ==> !ss[k].Writes? {
      PromiseHolds(ws, ss, a, b);
      assert false;
    }
    i :| a < i < b && ss[i].Writes?;
    if ss[i].t == t {
      assert ws[i + 1] == Take(ws[i], ss[i]);
      EndedForGood(ws, ss, i + 1, b, t);
      assert false;
    }
  }

  // Two deletions that both count the other's user: the dashboard is left without an admin.
  lemma DeletionsRace() returns (ws: seq<World>, ss: seq<Step>)
    ensures Run(ws, ss) && AnyAdmin(ws[0]) && !AnyAdmin(ws[|ss|])
    ensures forall i :: 0 <= i < |ss| ==> !ss[i].Inserts? && (ss[i].Reads? ==> ss[i].to == None)
  {
    var both := map[1 := Admin, 2 := Admin];
    var w0 := World(both, 3, map[]);
    var w1 := World(both, 3, map[1 := Counting(1, None)]);
    var w2 := World(both, 3, map[1 := Counting(1, None), 2 := Counting(2, None)]);
    var w3 := World(both, 3, map[1 := Writing(1, None), 2 := Counting(2, None)]);
    var w4 := World(both, 3, map[1 := Writing(1, None), 2 := Writing(2, None)]);
    var w5 := World(map[2 := Admin], 3, map[1 := Over, 2 := Writing(2, None)]);
    var w6 := World(map[], 3, map[1 := Over, 2 := Over]);
    assert both[1] == Admin && both[2] == Admin;
    ws := [w0, w1, w2, w3, w4, w5, w6];
    ss := [Reads(1, 1, None), Reads(2, 2, None), Counts(1), Counts(2), Writes(1), Writes(2)];
    assert w3 == Take(w2, Counts(1)) && w4 == Take(w3, Counts(2));
    assert w5 == Take(w4, Writes(1)) && w6 == Take(w5, Writes(2));
  }
}
