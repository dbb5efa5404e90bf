/**
  Users and sessions (internal/store/store.go) and the requests that change them
  (internal/web/admin_handlers.go, auth_handlers.go, oidc_handlers.go).  Password
  hashing is left out: a hash is a string handed in.  Whether deleting a user also
  deletes its sessions (ON DELETE CASCADE) is a parameter of the database.
  */
module Accounts {
  import opened Wrappers
  import opened Models

  const ADMIN := "admin"
  const WRITER := "writer"
  const READER := "reader"

  type Token = string

  /** A row of the users table; the OIDC subject is a nullable, unique column. */
  datatype User = User(id: Id, username: string, passwordHash: string, role: string, subject: Option<string>)

  type Users = map<Id, User>
  type Sessions = map<Token, Id>

  ghost predicate UniqueSubjects(users: Users) {
    forall i, j :: i in users && j in users && i != j && users[i].subject.Some? ==> users[i].subject != users[j].subject
  }

  ghost predicate UniqueUsernames(users: Users) {
    forall i, j :: i in users && j in users && i != j ==> users[i].username != users[j].username
  }

  ghost predicate NoEmptySubject(users: Users) {
    forall i :: i in users ==> users[i].subject != Some("")
  }

  function Admins(users: Users): set<Id> {
    set i | i in users && users[i].role == ADMIN
  }

  function Subjects(users: Users): set<string> {
    set i | i in users && users[i].subject.Some? :: users[i].subject.value
  }

  predicate SubjectTaken(users: Users, id: Id, subject: Option<string>) {
    subject.Some? && exists i :: i in users && i != id && users[i].subject == subject
  }

  predicate UsernameTaken(users: Users, id: Id, username: string) {
    exists i :: i in users && i != id && users[i].username == username
  }

  datatype LinkError =
    | TargetNotFound | TargetAlreadyLinked | SourceNotFound | SourceNotLinked | LastAdmin | DatabaseError

  /** What the database does to the statements of a link transaction. */
  datatype LinkOutcome = LinkOutcome(clearOk: bool, setOk: bool, deleteOk: bool, sessionsOk: bool, commitOk: bool) {
    predicate Succeeds() { clearOk && setOk && deleteOk && sessionsOk && commitOk }
  }

  /** What decides the link before any row is written. */
  function LinkRefusal(users: Users, target: Id, source: Id): Option<LinkError> {
    if target !in users then Some(TargetNotFound)
    else if users[target].subject.Some? && users[target].subject.value != "" then Some(TargetAlreadyLinked)
    else if source !in users then Some(SourceNotFound)
    else if users[source].subject.None? || users[source].subject.value == "" then Some(SourceNotLinked)
    else if users[source].role == ADMIN && |Admins(users)| <= 1 then Some(LastAdmin)
    else None
  }

  /** The users after a link: the source is gone and the target carries its subject. */
  function Linked(users: Users, target: Id, source: Id): Users
    requires target in users && source in users
  {
    users[target := users[target].(subject := users[source].subject)] - {source}
  }

  /** The sessions of everyone else. */
  function Without(sessions: Sessions, id: Id): Sessions {
    map t | t in sessions && sessions[t] != id :: sessions[t]
  }

  /** When `ends`, the user's sessions are gone; all others are as they were. */
  ghost predicate SomeEnded(was: Sessions, now: Sessions, ends: bool, user: Id) {
    && (forall t :: t in now <==> t in was && !(ends && was[t] == user))
    && (forall t :: t in now ==> now[t] == was[t])
  }

  lemma WithoutEnds(sessions: Sessions, user: Id)
    ensures SomeEnded(sessions, Without(sessions, user), true, user)
    ensures SomeEnded(sessions, sessions, false, user)
  {
  }

  /** The sessions a link leaves: none of the target, and none of the source where deletions cascade. */
  function LinkedSessions(sessions: Sessions, target: Id, source: Id, cascades: bool): Sessions {
    Without(if cascades then Without(sessions, source) else sessions, target)
  }

  /** GetSessionWithUser: the user a session token resolves to, if any. */
  function Resolve(users: Users, sessions: Sessions, token: Token): Option<User> {
    if token in sessions && sessions[token] in users then Some(users[sessions[token]]) else None
  }

  class Database {
    const cascades: bool   // whether foreign keys are enforced
    var users: Users
    var sessions: Sessions
    var nextId: Id

    constructor (cascades: bool)
      ensures this.cascades == cascades && users == map[] && sessions == map[] && Valid()
    {
      this.cascades := cascades;
      users, sessions, nextId := map[], map[], 0;
    }

    /** The constraints; session owners and users have ids already handed out. */
    ghost predicate Valid()
      reads this
    {
      && (forall i :: i in users ==> users[i].id == i && i < nextId)
      && (forall t :: t in sessions ==> sessions[t] < nextId)
      && UniqueSubjects(users) && UniqueUsernames(users) && NoEmptySubject(users)
    }

    ghost function Now(): Moment
      reads this
    {
      Moment(users, sessions, nextId)
    }

    // ---------- Single statements ----------

    method CreateUser(username: string, passwordHash: string, role: string, subject: string, dbOk: bool)
      returns (created: Option<User>)
      requires Valid()
      modifies this`users, this`nextId
      ensures Valid() && nextId == old(nextId) + if created.Some? then 1 else 0
      ensures created.Some? <==>
        (dbOk && !UsernameTaken(old(users), old(nextId), username)
         && !SubjectTaken(old(users), old(nextId), if subject == "" then None else Some(subject)))
      ensures created.None? ==> users == old(users)
      ensures created.Some? ==> created.value.id !in old(users)
      ensures created.Some? ==>
        created.value == User(old(nextId), username, passwordHash, role, if subject == "" then None else Some(subject))
      ensures created.Some? ==> users == old(users)[created.value.id := created.value]
    {
      var row := User(nextId, username, passwordHash, role, if subject == "" then None else Some(subject));
      if !dbOk || UsernameTaken(users, row.id, username) || SubjectTaken(users, row.id, row.subject) { return None; }
      users := users[row.id := row];
      nextId := nextId + 1;
      created := Some(row);
    }

    /** UPDATE of one user's columns; the unique indexes may refuse it. */
    method UpdateUser(row: User, dbOk: bool) returns (ok: bool)
      requires row.subject != Some("")
      requires (forall i :: i in users ==> users[i].id == i && i < nextId)
      requires UniqueSubjects(users) && UniqueUsernames(users) && NoEmptySubject(users)
      modifies this`users
      ensures (forall i :: i in users ==> users[i].id == i && i < nextId)
      ensures UniqueSubjects(users) && UniqueUsernames(users) && NoEmptySubject(users)
      ensures ok <==>
        && dbOk
        && (row.id in old(users) ==>
              !UsernameTaken(old(users), row.id, row.username) && !SubjectTaken(old(users), row.id, row.subject))
      ensures users == if ok && row.id in old(users) then old(users)[row.id := row] else old(users)
    {
      if row.id !in users { return dbOk; }
      if !dbOk || UsernameTaken(users, row.id, row.username) || SubjectTaken(users, row.id, row.subject) { return false; }
      users := users[row.id := row];
      ok := true;
    }

    method DeleteUser(id: Id, dbOk: bool) returns (ok: bool)
      requires Valid()
      modifies this`users, this`sessions
      ensures Valid() && ok == dbOk
      ensures users == if ok then old(users) - {id} else old(users)
      ensures sessions ==
        if ok && cascades && id in old(users) then Without(old(sessions), id) else old(sessions)
    {
      if !dbOk { return false; }
      if cascades && id in users { sessions := Without(sessions, id); }
      users := users - {id};
      ok := true;
    }

    method DeleteSessionsByUserID(id: Id, dbOk: bool) returns (ok: bool)
      requires Valid()
      modifies this`sessions
      ensures Valid() && ok == dbOk
      ensures sessions == if ok then Without(old(sessions), id) else old(sessions)
    {
      if dbOk { sessions := Without(sessions, id); }
      ok := dbOk;
    }

    method CreateSession(token: Token, user: Id, dbOk: bool) returns (ok: bool)
      requires Valid() && user in users
      modifies this`sessions
      ensures Valid() && ok == (dbOk && token !in old(sessions))
      ensures sessions == if ok then old(sessions)[token := user] else old(sessions)
    {
      ok := dbOk && token !in sessions;
      if ok { sessions := sessions[token := user]; }
    }

    method DeleteSession(token: Token, dbOk: bool)
      requires Valid()
      modifies this`sessions
      ensures Valid() && sessions == if dbOk then old(sessions) - {token} else old(sessions)
    {
      if dbOk { sessions := sessions - {token}; }
    }

    // ---------- The link transaction ----------

    /**
      LinkOIDCAccount: four statements in one transaction, each of which the
      database may refuse.  The subject leaves the source before it reaches the
      target, so the unique index is satisfied after every statement; any failure
      rolls everything back.
      */
    method LinkOIDCAccount(target: Id, source: Id, tx: LinkOutcome) returns (error: Option<LinkError>)
      requires Valid()
      modifies this`users, this`sessions
      ensures Valid()
      ensures error == if LinkRefusal(old(users), target, source).Some? then LinkRefusal(old(users), target, source)
                       else if tx.Succeeds() then None else Some(DatabaseError)
      ensures error.Some? ==> users == old(users) && sessions == old(sessions)
      ensures error.None? <==>
        && target in old(users) && source in old(users) && tx.Succeeds()
        && old(users)[target].subject.None? && old(users)[source].subject.Some?
        && (old(users)[source].role == "admin" ==> |Admins(old(users))| > 1)
      ensures error.None? ==> target in old(users) && source in old(users) && target != source
      ensures error.None? ==> users == Linked(old(users), target, source)
      ensures error.None? ==> sessions == LinkedSessions(old(sessions), target, source, cascades)
    {
      if target !in users { return Some(TargetNotFound); }
      var targetSubject := users[target].subject;
      if targetSubject.Some? && targetSubject.value != "" { return Some(TargetAlreadyLinked); }
      if source !in users { return Some(SourceNotFound); }
      var sourceSubject := users[source].subject;
      if sourceSubject.None? || sourceSubject.value == "" { return Some(SourceNotLinked); }
      if users[source].role == ADMIN {
        if |Admins(users)| <= 1 { return Some(LastAdmin); }
      }
      var savedUsers, savedSessions := users, sessions;
      var ok := MoveSubject(target, source, tx);
      if !ok || !tx.commitOk {
        users, sessions := savedUsers, savedSessions;
        return Some(DatabaseError);
      }
      error := None;
    }

    /** The statements of the transaction, up to the first that fails; the constraints hold after each. */
    method MoveSubject(target: Id, source: Id, tx: LinkOutcome) returns (ok: bool)
      requires Valid() && LinkRefusal(users, target, source).None?
      modifies this`users, this`sessions
      ensures Valid()
      ensures ok == (tx.clearOk && tx.setOk && tx.deleteOk && tx.sessionsOk)
      ensures ok ==> users == Linked(old(users), target, source)
      ensures ok ==> sessions == LinkedSessions(old(sessions), target, source, cascades)
    {
      var subject := users[source].subject;
      SourceMustBeClearedFirst(users, target, source);
      ok := UpdateUser(users[source].(subject := None), tx.clearOk);
      if !ok { return; }
      ok := UpdateUser(users[target].(subject := subject), tx.setOk);
      if !ok { return; }
      assert users - {source} == Linked(old(users), target, source);
      ok := DeleteUser(source, tx.deleteOk);
      if !ok { return; }
      ok := DeleteSessionsByUserID(target, tx.sessionsOk);
    }
  }

  // ---------- What a link means ----------

  /** The subject must leave the source first: written to the target before that, the unique index would refuse it. */
  lemma SourceMustBeClearedFirst(users: Users, target: Id, source: Id)
    requires UniqueSubjects(users) && LinkRefusal(users, target, source).None?
    ensures SubjectTaken(users, target, users[source].subject)
    ensures !SubjectTaken(users[source := users[source].(subject := None)], target, users[source].subject)
  {
  }

  lemma RefusalMeans(users: Users, target: Id, source: Id)
    ensures LinkRefusal(users, target, source).None? ==>
      target in users && source in users && target != source && Spared(users, source, "", true)
  {
  }

  /** A link of an account to itself is always refused. */
  lemma SelfLinkRefused(users: Users, id: Id)
    ensures LinkRefusal(users, id, id).Some?
  {
  }

  /**
    A link conserves the OIDC identities: exactly the same subjects are bound
    before and after, each still to one user, and the source's is now the target's.
    */
  lemma LinkConservesSubjects(users: Users, target: Id, source: Id)
    requires UniqueSubjects(users) && NoEmptySubject(users) && LinkRefusal(users, target, source).None?
    ensures Subjects(Linked(users, target, source)) == Subjects(users)
    ensures UniqueSubjects(Linked(users, target, source))
    ensures source !in Linked(users, target, source)
    ensures Linked(users, target, source)[target] == users[target].(subject := users[source].subject)
    ensures forall i :: i in users && i != target && i != source ==>
      i in Linked(users, target, source) && Linked(users, target, source)[i] == users[i]
  {
    var after := Linked(users, target, source);
    forall s | s in Subjects(users) ensures s in Subjects(after) {
      var i :| i in users && users[i].subject == Some(s);
      if i == source { assert after[target].subject == Some(s); } else { assert after[i].subject == Some(s); }
    }
    forall s | s in Subjects(after) ensures s in Subjects(users) {
      var i :| i in after && after[i].subject == Some(s);
      if i == target { assert users[source].subject == Some(s); } else { assert users[i].subject == Some(s); }
    }
  }

  /** After a link no session of either account resolves to a user, with or without cascading deletes. */
  lemma LinkEndsBothSessions(users: Users, sessions: Sessions, target: Id, source: Id, cascades: bool, t: Token)
    requires target in users && source in users && target != source
    ensures var after := LinkedSessions(sessions, target, source, cascades);
      Resolve(Linked(users, target, source), after, t) ==
        if t in sessions && (sessions[t] == target || sessions[t] == source) then None else Resolve(users, sessions, t)
  {
  }

  /** No session that either account had resolves to a user any more. */
  ghost predicate SignedOut(was: Sessions, target: Id, source: Id, users: Users, sessions: Sessions) {
    forall t :: t in was && (was[t] == target || was[t] == source) ==> Resolve(users, sessions, t).None?
  }

  lemma LinkSignsOut(users: Users, sessions: Sessions, target: Id, source: Id, cascades: bool)
    requires target in users && source in users && target != source
    ensures SignedOut(sessions, target, source, Linked(users, target, source), LinkedSessions(sessions, target, source, cascades))
  {
    forall t | t in sessions && (sessions[t] == target || sessions[t] == source)
      ensures Resolve(Linked(users, target, source), LinkedSessions(sessions, target, source, cascades), t).None?
    {
      LinkEndsBothSessions(users, sessions, target, source, cascades, t);
    }
  }

  /** A link never removes the last admin. */
  lemma LinkKeepsAnAdmin(users: Users, target: Id, source: Id)
    requires LinkRefusal(users, target, source).None? && Admins(users) != {}
    ensures Admins(Linked(users, target, source)) != {}
  {
    var rest := Admins(users) - {source};
    if rest == {} {
      assert Admins(users) <= {source};
      AtMostOne(Admins(users), source);
    } else {
      var a :| a in rest;
      assert a in Admins(Linked(users, target, source));
    }
  }

  lemma AtMostOne(s: set<Id>, x: Id)
    requires s <= {x}
    ensures |s| <= 1
  {
    if s != {} { assert s == {x}; }
  }

  // ---------- Requests ----------

  datatype Status = OK | Redirected | Unauthorized | NotFound | BadRequest | Unprocessable | InternalError

  /** Users, sessions and the next id at one moment. */
  datatype Moment = Moment(users: Users, sessions: Sessions, nextId: Id)

  function WithUser(m: Moment, username: string, hash: string, role: string, subject: Option<string>): Moment {
    m.(users := m.users[m.nextId := User(m.nextId, username, hash, role, subject)], nextId := m.nextId + 1)
  }

  /** A session is created unless the token is in use or the database refuses. */
  function WithSession(m: Moment, token: Token, user: Id, dbOk: bool): Moment {
    if dbOk && token !in m.sessions then m.(sessions := m.sessions[token := user]) else m
  }

  predicate Bound(users: Users, subject: string) {
    exists i :: i in users && users[i].subject == Some(subject)
  }

  predicate Known(users: Users, username: string) {
    exists i :: i in users && users[i].username == username
  }

  ghost function SubjectOwner(users: Users, subject: string): (i: Id)
    requires Bound(users, subject)
    ensures i in users && users[i].subject == Some(subject)
  {
    var i :| i in users && users[i].subject == Some(subject);
    i
  }

  ghost function UserNamed(users: Users, username: string): (i: Id)
    requires Known(users, username)
    ensures i in users && users[i].username == username
  {
    var i :| i in users && users[i].username == username;
    i
  }

  function OIDCName(subject: string, preferred: string, email: string): string {
    if preferred != "" then preferred else if email != "" then email else subject
  }

  /** The setup form is accepted. */
  predicate SetsUp(users: Users, id: Id, username: string, hash: string, confirmed: bool, countOk: bool, dbOk: bool) {
    && !(countOk && users != map[])
    && username != "" && hash != "" && confirmed && dbOk && !UsernameTaken(users, id, username)
  }

  predicate KnownRole(role: string) { role == READER || role == WRITER || role == ADMIN }

  class AdminServer {
    const db: Database

    constructor (db: Database)
      ensures this.db == db
    {
      this.db := db;
    }

    /** CountAdmins as a handler reads it: an error is ignored and counts none. */
    method CountAdmins(countOk: bool) returns (n: nat)
      requires db.Valid()
      ensures n == if countOk then |Admins(db.users)| else 0
    {
      n := if countOk then |Admins(db.users)| else 0;
    }

    method AdminCreateUser(username: string, passwordHash: string, role: string, dbOk: bool) returns (status: Status)
      requires db.Valid()
      modifies db
      ensures db.Valid() && db.Now() == Next(old(db.Now()), CreateUser(username, passwordHash, role, dbOk), db.cascades)
      ensures status == if db.users != old(db.users) then OK else Unprocessable
      ensures status == OK <==>
        username != "" && passwordHash != "" && dbOk && forall i :: i in old(db.users) ==> old(db.users)[i].username != username
      ensures db.sessions == old(db.sessions)
      ensures db.users ==
        if status == OK then
          var effective := if role == "reader" || role == "writer" || role == "admin" then role else "reader";
          old(db.users)[old(db.nextId) := User(old(db.nextId), username, passwordHash, effective, None)]
        else old(db.users)
      ensures Admins(old(db.users)) <= Admins(db.users)
    {
      if username == "" || passwordHash == "" { return Unprocessable; }
      var effective := if KnownRole(role) then role else READER;
      var created := db.CreateUser(username, passwordHash, effective, "", dbOk);
      if created.None? { return Unprocessable; }
      status := OK;
    }

    /** An empty `newHash` keeps the password. */
    method AdminUpdateUser(id: Id, newRole: string, newHash: string, countOk: bool, dbOk: bool, sessionsOk: bool)
      returns (status: Status)
      requires db.Valid()
      modifies db
      ensures db.Valid()
      ensures db.Now() == Next(old(db.Now()), UpdateUser(id, newRole, newHash, countOk, dbOk, sessionsOk), db.cascades)
      ensures status ==
        if !KnownRole(newRole) then BadRequest
        else if id !in old(db.users) then NotFound
        else if !Spared(old(db.users), id, newRole, countOk) then Unprocessable
        else if dbOk then OK else InternalError
      ensures status == OK <==>
        && (newRole == "reader" || newRole == "writer" || newRole == "admin") && id in old(db.users) && dbOk
        && (old(db.users)[id].role == "admin" && newRole != "admin" ==> countOk && |Admins(old(db.users))| > 1)
      ensures status == OK ==>
        var hash := if newHash == "" then old(db.users)[id].passwordHash else newHash;
        db.users == old(db.users)[id := old(db.users)[id].(role := newRole, passwordHash := hash)]
      // A new password ends the user's sessions, and no others.
      ensures status == OK ==> SomeEnded(old(db.sessions), db.sessions, newHash != "" && sessionsOk, id)
      ensures status != OK ==> db.users == old(db.users) && db.sessions == old(db.sessions)
      ensures Admins(old(db.users)) != {} ==> Admins(db.users) != {}
    {
      hide Admins, Without, SomeEnded, UniqueSubjects, UniqueUsernames, NoEmptySubject, SubjectTaken, UsernameTaken;
      if !KnownRole(newRole) { return BadRequest; }
      if id !in db.users { return NotFound; }
      var user := db.users[id];
      if user.role == ADMIN && newRole != ADMIN {
        var n := CountAdmins(countOk);
        if n <= 1 { return Unprocessable; }
      }
      var row := user.(role := newRole, passwordHash := if newHash == "" then user.passwordHash else newHash);
      OwnNamesFit(db.users, row);
      AdminRemains(db.users, row);
      var ok := db.UpdateUser(row, dbOk);
      if !ok { return InternalError; }
      WithoutEnds(db.sessions, id);
      if newHash != "" { var _ := db.DeleteSessionsByUserID(id, sessionsOk); }
      status := OK;
    }

    method AdminDeleteUser(currentUser: Option<Id>, id: Id, countOk: bool, dbOk: bool) returns (status: Status)
      requires db.Valid()
      modifies db
      ensures db.Valid() && db.Now() == Next(old(db.Now()), DeleteUser(currentUser, id, countOk, dbOk), db.cascades)
      ensures status ==
        if currentUser == Some(id) then Unprocessable
        else if id !in old(db.users) then NotFound
        else if !Spared(old(db.users), id, "", countOk) then Unprocessable
        else if dbOk then OK else InternalError
      ensures status == OK <==>
        && currentUser != Some(id) && id in old(db.users) && dbOk
        && (old(db.users)[id].role == "admin" ==> countOk && |Admins(old(db.users))| > 1)
      ensures db.users == if status == OK then old(db.users) - {id} else old(db.users)
      ensures SomeEnded(old(db.sessions), db.sessions, status == OK && db.cascades, id)
      ensures Admins(old(db.users)) != {} ==> Admins(db.users) != {}
    {
      hide Without, SomeEnded, UniqueSubjects, UniqueUsernames, NoEmptySubject;
      WithoutEnds(db.sessions, id);
      if currentUser == Some(id) { return Unprocessable; }
      if id !in db.users { return NotFound; }
      if db.users[id].role == ADMIN {
        var n := CountAdmins(countOk);
        if n <= 1 { return Unprocessable; }
        AnotherAdmin(db.users, id);
      }
      ghost var before := db.users;
      var ok := db.DeleteUser(id, dbOk);
      if !ok { return InternalError; }
      assert forall a :: a in Admins(before) && a != id ==> a in Admins(db.users);
      status := OK;
    }

    method AdminLinkOIDC(currentUser: Option<Id>, target: Id, source: Id, countOk: bool, tx: LinkOutcome) returns (status: Status)
      requires db.Valid()
      modifies db
      ensures db.Valid() && db.Now() == Next(old(db.Now()), LinkOIDC(currentUser, target, source, countOk, tx), db.cascades)
      ensures status == OK <==> LinkGoesAhead(old(db.users), currentUser, target, source, countOk, tx)
      ensures status == OK <==>
        && currentUser != Some(source) && source in old(db.users) && target in old(db.users) && tx.Succeeds()
        && old(db.users)[target].subject.None? && old(db.users)[source].subject.Some?
        && (old(db.users)[source].role == "admin" ==> countOk && |Admins(old(db.users))| > 1)
      ensures status == OK ==>
        db.users == old(db.users)[target := old(db.users)[target].(subject := old(db.users)[source].subject)] - {source}
      ensures status == NotFound <==> currentUser != Some(source) && source != target && source !in old(db.users)
      ensures status == OK ==> SignedOut(old(db.sessions), target, source, db.users, db.sessions)
      ensures Admins(old(db.users)) != {} ==> Admins(db.users) != {}
    {
      hide Admins, LinkedSessions, SignedOut, LinkRefusal, UniqueSubjects, UniqueUsernames, NoEmptySubject;
      RefusalMeans(db.users, target, source);
      if currentUser == Some(source) { return Unprocessable; }
      if source == target { return Unprocessable; }
      if source !in db.users { return NotFound; }
      if db.users[source].role == ADMIN {
        var n := CountAdmins(countOk);
        if n <= 1 { return Unprocessable; }
      }
      ghost var users, sessions := db.users, db.sessions;
      var error := db.LinkOIDCAccount(target, source, tx);
      if error.Some? { return Unprocessable; }
      LinkSignsOut(users, sessions, target, source, db.cascades);
      if Admins(users) != {} { LinkKeepsAnAdmin(users, target, source); }
      status := OK;
    }

    /** First-run setup: creates the first account, an admin, only while there are no users. */
    method Setup(username: string, passwordHash: string, confirmed: bool, countOk: bool, dbOk: bool) returns (status: Status)
      requires db.Valid()
      modifies db
      ensures db.Valid()
      ensures db.Now() == Next(old(db.Now()), SetupRequest(username, passwordHash, confirmed, countOk, dbOk), db.cascades)
      ensures status == Redirected <==>
        || (countOk && old(db.users) != map[])
        || SetsUp(old(db.users), old(db.nextId), username, passwordHash, confirmed, countOk, dbOk)
      ensures db.users != old(db.users) <==>
        && (!countOk || old(db.users) == map[]) && username != "" && passwordHash != "" && confirmed && dbOk
        && forall i :: i in old(db.users) ==> old(db.users)[i].username != username
      ensures db.users != old(db.users) ==>
        db.users == old(db.users)[old(db.nextId) := User(old(db.nextId), username, passwordHash, "admin", None)]
      ensures Admins(old(db.users)) <= Admins(db.users)
      ensures db.users != old(db.users) ==> Admins(db.users) != {}
    {
      var n := if countOk then |db.users| else 0;
      if n > 0 { return Redirected; }
      if username == "" || passwordHash == "" { return Unprocessable; }
      if !confirmed { return Unprocessable; }
      var created := db.CreateUser(username, passwordHash, ADMIN, "", dbOk);
      if created.None? { return Unprocessable; }
      assert created.value.id in Admins(db.users);
      status := Redirected;
    }

    /** An OIDC login: the account bound to the subject, or a new reader account; never an existing local one. */
    method ResolveOIDCUser(subject: string, preferred: string, email: string, readOk: bool, dbOk: bool)
      returns (user: Option<User>)
      requires db.Valid()
      modifies db
      ensures db.Valid() && db.sessions == old(db.sessions)
      ensures readOk && Bound(old(db.users), subject) ==>
        && user.Some? && user.value.subject == Some(subject)
        && user.value.id in db.users && db.users[user.value.id] == user.value && db.users == old(db.users)
      ensures !(readOk && Bound(old(db.users), subject)) ==>
        (user.Some? <==> readOk && dbOk && !UsernameTaken(old(db.users), old(db.nextId), OIDCName(subject, preferred, email)))
      ensures !(readOk && Bound(old(db.users), subject)) && user.Some? ==>
        && user.value == User(old(db.nextId), OIDCName(subject, preferred, email), "", READER,
                              if subject == "" then None else Some(subject))
        && db.users == old(db.users)[old(db.nextId) := user.value] && db.nextId == old(db.nextId) + 1
      ensures !(readOk && Bound(old(db.users), subject)) && user.Some? ==>
        user.value.username == if preferred != "" then preferred else if email != "" then email else subject
      ensures user.None? || user.value.id in old(db.users) ==> db.users == old(db.users) && db.nextId == old(db.nextId)
      ensures old(db.nextId) !in old(db.users)
      ensures Admins(old(db.users)) <= Admins(db.users)
    {
      if !readOk { return None; }
      if Bound(db.users, subject) {
        var i :| i in db.users && db.users[i].subject == Some(subject);
        return Some(db.users[i]);
      }
      var username := preferred;
      if username == "" { username := email; }
      if username == "" { username := subject; }
      user := db.CreateUser(username, "", READER, subject, dbOk);
    }

    /** handleOIDCCallback, once the provider has answered: resolve the user and give it a session. */
    method OIDCSignIn(subject: string, preferred: string, email: string, token: Token, readOk: bool, dbOk: bool, sessionOk: bool)
      returns (status: Status)
      requires db.Valid()
      modifies db
      ensures db.Valid()
      ensures db.Now() ==
        Next(old(db.Now()), OIDCLogin(subject, preferred, email, token, readOk, dbOk, sessionOk), db.cascades)
      ensures Admins(old(db.users)) <= Admins(db.users)
    {
      OneOwner(db.users);
      var user := ResolveOIDCUser(subject, preferred, email, readOk, dbOk);
      if user.None? { return Redirected; }
      var ok := db.CreateSession(token, user.value.id, sessionOk);
      status := if ok then Redirected else InternalError;
    }

    /** `verified` says whether the password given matches a hash. */
    method SignIn(username: string, verified: string -> bool, token: Token, readOk: bool, dbOk: bool) returns (status: Status)
      requires db.Valid()
      modifies db
      ensures db.Valid() && db.users == old(db.users)
      ensures db.Now() == Next(old(db.Now()), Login(username, verified, token, readOk, dbOk), db.cascades)
      ensures status == Redirected <==>
        && readOk && dbOk && token !in old(db.sessions)
        && exists i :: i in db.users && db.users[i].username == username && verified(db.users[i].passwordHash)
      ensures status == Redirected ==>
        exists i :: (i in db.users && db.users[i].username == username && verified(db.users[i].passwordHash)
                     && db.sessions == old(db.sessions)[token := i]
                     && Resolve(db.users, db.sessions, token) == Some(db.users[i]))
      ensures status != Redirected ==> db.sessions == old(db.sessions)
    {
      OneOwner(db.users);
      if !readOk || !Known(db.users, username) { return Unauthorized; }
      var i :| i in db.users && db.users[i].username == username;
      if !verified(db.users[i].passwordHash) { return Unauthorized; }
      var ok := db.CreateSession(token, i, dbOk);
      status := if ok then Redirected else InternalError;
    }

    method SignOut(token: Token, dbOk: bool) returns (status: Status)
      requires db.Valid()
      modifies db
      ensures db.Valid() && db.users == old(db.users)
      ensures db.Now() == Next(old(db.Now()), Logout(token, dbOk), db.cascades)
      ensures db.sessions == if dbOk then map t | t in old(db.sessions) && t != token :: old(db.sessions)[t] else old(db.sessions)
    {
      db.DeleteSession(token, dbOk);
      status := Redirected;
    }
  }

  /** A row that keeps its username and subject is not refused by the unique indexes. */
  lemma OwnNamesFit(users: Users, row: User)
    requires UniqueSubjects(users) && UniqueUsernames(users) && NoEmptySubject(users)
    requires row.id in users && row.username == users[row.id].username && row.subject == users[row.id].subject
    ensures !UsernameTaken(users, row.id, row.username) && !SubjectTaken(users, row.id, row.subject) && row.subject != Some("")
  {
  }

  /** Usernames and subjects name at most one user. */
  lemma OneOwner(users: Users)
    requires UniqueSubjects(users) && UniqueUsernames(users)
    ensures forall i, name :: i in users && users[i].username == name ==> Known(users, name) && UserNamed(users, name) == i
    ensures forall i, subject :: i in users && users[i].subject == Some(subject) ==>
      Bound(users, subject) && SubjectOwner(users, subject) == i
  {
  }

  /** An admin count above one leaves another admin. */
  lemma AnotherAdmin(users: Users, id: Id)
    requires |Admins(users)| > 1
    ensures Admins(users) - {id} != {}
  {
    if Admins(users) - {id} == {} {
      assert Admins(users) <= {id};
      AtMostOne(Admins(users), id);
    }
  }

  /** A rewritten row leaves an admin, unless it was the only one and is none any more. */
  lemma AdminRemains(users: Users, row: User)
    requires row.id in users
    requires users[row.id].role == ADMIN && row.role != ADMIN ==> |Admins(users)| > 1
    ensures Admins(users) != {} ==> Admins(users[row.id := row]) != {}
  {
    var now := users[row.id := row];
    if row.role == ADMIN {
      assert row.id in Admins(now);
    } else if Admins(users) != {} {
      if users[row.id].role == ADMIN { AnotherAdmin(users, row.id); }
      var a :| a in Admins(users) && a != row.id;
      assert a in Admins(now);
    }
  }

  datatype Request =
    | CreateUser(username: string, hash: string, role: string, dbOk: bool)
    | UpdateUser(id: Id, newRole: string, newHash: string, countOk: bool, dbOk: bool, sessionsOk: bool)
    | DeleteUser(currentUser: Option<Id>, id: Id, countOk: bool, dbOk: bool)
    | LinkOIDC(currentUser: Option<Id>, target: Id, source: Id, countOk: bool, tx: LinkOutcome)
    | SetupRequest(username: string, hash: string, confirmed: bool, countOk: bool, dbOk: bool)
    | OIDCLogin(subject: string, preferred: string, email: string, token: Token, readOk: bool, dbOk: bool, sessionOk: bool)
    | Login(username: string, verified: string -> bool, token: Token, readOk: bool, dbOk: bool)
    | Logout(token: Token, dbOk: bool)

  /** The one state that follows a request. */
  ghost function Next(m: Moment, r: Request, cascades: bool): Moment {
    match r
    case CreateUser(username, hash, role, dbOk) =>
      if username != "" && hash != "" && dbOk && !UsernameTaken(m.users, m.nextId, username)
      then WithUser(m, username, hash, if KnownRole(role) then role else READER, None)
      else m
    case UpdateUser(id, newRole, newHash, countOk, dbOk, sessionsOk) =>
      if id in m.users && dbOk && KnownRole(newRole) && Spared(m.users, id, newRole, countOk)
      then
        var hash := if newHash == "" then m.users[id].passwordHash else newHash;
        m.(users := m.users[id := m.users[id].(role := newRole, passwordHash := hash)],
           sessions := if newHash != "" && sessionsOk then Without(m.sessions, id) else m.sessions)
      else m
    case DeleteUser(currentUser, id, countOk, dbOk) =>
      if id in m.users && dbOk && currentUser != Some(id) && Spared(m.users, id, "", countOk)
      then m.(users := m.users - {id}, sessions := if cascades then Without(m.sessions, id) else m.sessions)
      else m
    case LinkOIDC(currentUser, target, source, countOk, tx) =>
      if LinkGoesAhead(m.users, currentUser, target, source, countOk, tx)
      then m.(users := Linked(m.users, target, source), sessions := LinkedSessions(m.sessions, target, source, cascades))
      else m
    case SetupRequest(username, hash, confirmed, countOk, dbOk) =>
      if SetsUp(m.users, m.nextId, username, hash, confirmed, countOk, dbOk) then WithUser(m, username, hash, ADMIN, None) else m
    case OIDCLogin(subject, preferred, email, token, readOk, dbOk, sessionOk) =>
      var name := OIDCName(subject, preferred, email);
      if !readOk then m
      else if Bound(m.users, subject) then WithSession(m, token, SubjectOwner(m.users, subject), sessionOk)
      else if !dbOk || UsernameTaken(m.users, m.nextId, name) then m
      else WithSession(WithUser(m, name, "", READER, if subject == "" then None else Some(subject)), token, m.nextId, sessionOk)
    case Login(username, verified, token, readOk, dbOk) =>
      if readOk && Known(m.users, username) && verified(m.users[UserNamed(m.users, username)].passwordHash)
      then WithSession(m, token, UserNamed(m.users, username), dbOk)
      else m
    case Logout(token, dbOk) => if dbOk then m.(sessions := m.sessions - {token}) else m
  }

  /** The handlers' and the transaction's guards together. */
  predicate LinkGoesAhead(users: Users, currentUser: Option<Id>, target: Id, source: Id, countOk: bool, tx: LinkOutcome)
    ensures LinkGoesAhead(users, currentUser, target, source, countOk, tx) ==>
      target in users && source in users && target != source
  {
    && currentUser != Some(source) && LinkRefusal(users, target, source).None? && tx.Succeeds()
    && Spared(users, source, "", countOk)
  }

  /** The guard of the handlers: an admin may stop being one only when the count, read successfully, says there are others. */
  predicate Spared(users: Users, id: Id, newRole: string, countOk: bool)
    requires id in users
  {
    users[id].role == ADMIN && newRole != ADMIN ==> countOk && |Admins(users)| > 1
  }

  // ---------- Where sessions come from ----------

  /**
    The request signed this user in under this token: the password given was verified
    against the hash of the user of that name, or the provider vouched for the user's
    subject (for a new account without one when it vouched for an empty one).
    */
  ghost predicate SignedIn(r: Request, was: Moment, now: Moment, token: Token, user: Id) {
    && user in now.users
    && match r
       case Login(username, verified, t, _, _) =>
         t == token && now.users == was.users && now.users[user].username == username && verified(now.users[user].passwordHash)
       case OIDCLogin(subject, _, _, t, _, _, _) =>
         t == token
         && (now.users[user].subject == Some(subject) || (subject == "" && user !in was.users && now.users[user].subject.None?))
       case _ => false
  }

  /** Every session there is now was there before, for the same user, or is the one the request signed a user in with. */
  ghost predicate Admitted(r: Request, was: Moment, now: Moment) {
    forall t :: t in now.sessions ==>
      || (t in was.sessions && was.sessions[t] == now.sessions[t])
      || (t !in was.sessions && SignedIn(r, was, now, t, now.sessions[t]))
  }

  lemma OnlyLoginsAdmit(m: Moment, r: Request, cascades: bool)
    requires m.nextId !in m.users
    ensures Admitted(r, m, Next(m, r, cascades))
  {
    hide Admins, Linked, LinkRefusal, Spared, SetsUp, UsernameTaken, LinkGoesAhead;
  }

  /** Whoever has a session at the end of a run had it at the start, or was signed in under that token on the way. */
  lemma {:induction false} SessionsAreEarned(requests: seq<Request>, history: seq<Moment>, n: nat, t: Token)
    requires |history| == |requests| + 1 && n <= |requests| && t in history[n].sessions
    requires forall k :: 0 <= k < |requests| ==> Admitted(requests[k], history[k], history[k + 1])
    ensures (t in history[0].sessions && history[0].sessions[t] == history[n].sessions[t])
      || exists k :: 0 <= k < n && SignedIn(requests[k], history[k], history[k + 1], t, history[n].sessions[t])
  {
    hide SignedIn;
    if n > 0 {
      assert Admitted(requests[n - 1], history[n - 1], history[n]);
      if t in history[n - 1].sessions { SessionsAreEarned(requests, history, n - 1, t); }
    }
  }

  method Handle(server: AdminServer, r: Request)
    requires server.db.Valid()
    modifies server.db
    ensures server.db.Valid()
    ensures Admins(old(server.db.users)) != {} ==> Admins(server.db.users) != {}
    ensures server.db.Now() == Next(old(server.db.Now()), r, server.db.cascades)
    ensures Admitted(r, old(server.db.Now()), server.db.Now())
  {
    hide Database.Valid, Admins, Next, Admitted;
    FreshId(server.db);
    OnlyLoginsAdmit(server.db.Now(), r, server.db.cascades);
    match r
    case CreateUser(username, hash, role, dbOk) => var _ := server.AdminCreateUser(username, hash, role, dbOk);
    case UpdateUser(id, newRole, newHash, countOk, dbOk, sessionsOk) =>
      var _ := server.AdminUpdateUser(id, newRole, newHash, countOk, dbOk, sessionsOk);
    case DeleteUser(currentUser, id, countOk, dbOk) => var _ := server.AdminDeleteUser(currentUser, id, countOk, dbOk);
    case LinkOIDC(currentUser, target, source, countOk, tx) =>
      var _ := server.AdminLinkOIDC(currentUser, target, source, countOk, tx);
    case SetupRequest(username, hash, confirmed, countOk, dbOk) =>
      var _ := server.Setup(username, hash, confirmed, countOk, dbOk);
    case OIDCLogin(subject, preferred, email, token, readOk, dbOk, sessionOk) =>
      var _ := server.OIDCSignIn(subject, preferred, email, token, readOk, dbOk, sessionOk);
    case Login(username, verified, token, readOk, dbOk) => var _ := server.SignIn(username, verified, token, readOk, dbOk);
    case Logout(token, dbOk) => var _ := server.SignOut(token, dbOk);
  }

  lemma FreshId(db: Database)
    requires db.Valid()
    ensures db.nextId !in db.users
  {
  }

  /**
    Last-admin preservation: once there is an admin, every sequence of requests,
    handled one at a time and with any statement failing, leaves one at every moment.
    No request but a login gives anyone a session, and a login only the user it names.
    */
  method Serve(server: AdminServer, requests: seq<Request>) returns (ghost history: seq<Moment>)
    requires server.db.Valid()
    modifies server.db
    ensures server.db.Valid()
    ensures |history| == |requests| + 1 && history[0] == old(server.db.Now()) && history[|requests|] == server.db.Now()
    ensures forall k :: 0 <= k < |requests| ==> history[k + 1] == Next(history[k], requests[k], server.db.cascades)
    ensures Admins(old(server.db.users)) != {} ==> forall k :: 0 <= k <= |requests| ==> Admins(history[k].users) != {}
    ensures forall k :: 0 <= k < |requests| ==> Admitted(requests[k], history[k], history[k + 1])
  {
    hide Database.Valid, Admins, Next, Admitted;
    history := [server.db.Now()];
    for k := 0 to |requests|
      invariant server.db.Valid()
      invariant |history| == k + 1 && history[0] == old(server.db.Now()) && history[k] == server.db.Now()
      invariant forall j :: 0 <= j < k ==> history[j + 1] == Next(history[j], requests[j], server.db.cascades)
      invariant Admins(old(server.db.users)) != {} ==> forall j :: 0 <= j <= k ==> Admins(history[j].users) != {}
      invariant forall j :: 0 <= j < k ==> Admitted(requests[j], history[j], history[j + 1])
    {
      Handle(server, requests[k]);
      history := history + [server.db.Now()];
    }
  }
}
