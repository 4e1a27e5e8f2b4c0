/**
  User administration over two stores, the user table and the identity provider:
  each use case as the steps between its awaits, where any call may fail before or
  after taking effect.
*/
module Users {
  import opened Options

  datatype Role = SUPERADMIN | ADMIN | USER

  datatype UserRow = UserRow(
    tenantId: string, providerId: string, name: string, email: string, phone: Option<string>,
    role: Role, isActive: bool, deleted: bool)

  type Rows = map<string, UserRow>

  datatype Session = Session(providerId: string, handle: nat)

  /** The table, and the provider's identities and sessions. */
  datatype World = World(rows: Rows, identities: set<string>, sessions: set<Session>)

  datatype Error =
    | UserNotFound | LastAdmin | CannotDeleteSelf | CannotDeactivateSelf | CannotChangeOwnRole
    | EmailAlreadyExists | CallFailed

  // ---- the table ----

  function FindById(rows: Rows, id: string, tenantId: string): Option<UserRow> {
    if id in rows && rows[id].tenantId == tenantId && !rows[id].deleted then Some(rows[id]) else None
  }

  predicate IsActiveAdmin(r: UserRow, tenantId: string) {
    r.tenantId == tenantId && !r.deleted && r.isActive && r.role == ADMIN
  }

  function ActiveAdmins(rows: Rows, tenantId: string): set<string> {
    set id | id in rows && IsActiveAdmin(rows[id], tenantId)
  }

  /** `update`: every field of the entity but the provider id, whether or not the row is soft-deleted. */
  function Updated(rows: Rows, id: string, u: UserRow): Rows {
    if id in rows && rows[id].tenantId == u.tenantId then
      rows[id := rows[id].(name := u.name, email := u.email, phone := u.phone, role := u.role, isActive := u.isActive)]
    else rows
  }

  function SoftDeleted(rows: Rows, id: string, tenantId: string): Rows {
    if id in rows && rows[id].tenantId == tenantId then rows[id := rows[id].(deleted := true)] else rows
  }

  function Revoked(sessions: set<Session>, providerId: string): set<Session> {
    set x | x in sessions && x.providerId != providerId
  }

  // ---- the use cases as steps ----

  /** The optional fields of the update request; a phone may be set to null. */
  datatype Patch = Patch(name: Option<string>, phone: Option<Option<string>>, role: Option<Role>)

  datatype Request =
    | Delete(userId: string, tenantId: string, caller: string)
    | SetActive(userId: string, tenantId: string, caller: string, isActive: bool)
    | Update(userId: string, tenantId: string, caller: string, patch: Patch)

  /** Where an execution stands: the await it is about to make, with the entity it holds. */
  datatype Pc =
    | Find
    | Count(user: UserRow)
    | Revoke(user: UserRow)
    | DeleteIdentity(user: UserRow)
    | SoftDelete(user: UserRow)
    | Save(user: UserRow)
    | Reload
    | Done
    | Failed(error: Error)

  /** `revoked` records that this execution's own session revocation has completed. */
  datatype Exec = Exec(req: Request, pc: Pc, revoked: bool)

  /** How a call ends: it works, or it reports a failure without or in spite of having taken effect. */
  datatype Call = Works | FailsBefore | FailsAfter

  /** Checks made before any call. */
  function Start(req: Request): Exec {
    var self := req.userId == req.caller;
    Exec(req,
         match req
         case Delete(_, _, _) => if self then Failed(CannotDeleteSelf) else Find
         case SetActive(_, _, _, isActive) => if !isActive && self then Failed(CannotDeactivateSelf) else Find
         case Update(_, _, _, patch) => if patch.role.Some? && self then Failed(CannotChangeOwnRole) else Find,
         false)
  }

  /** Does the request take an active admin away? */
  predicate NeedsCount(req: Request, u: UserRow) {
    u.isActive && u.role == ADMIN &&
    match req
    case Delete(_, _, _) => true
    case SetActive(_, _, _, isActive) => !isActive
    case Update(_, _, _, patch) => patch.role.Some? && patch.role.value != ADMIN
  }

  /** The entity the request wants to write. */
  function Target(req: Request, u: UserRow): UserRow {
    match req
    case Delete(_, _, _) => u
    case SetActive(_, _, _, isActive) => u.(isActive := isActive)
    case Update(_, _, _, patch) =>
      u.(name := if patch.name.Some? then patch.name.value else u.name,
         phone := if patch.phone.Some? then patch.phone.value else u.phone,
         role := if patch.role.Some? then patch.role.value else u.role)
  }

  function Admitted(req: Request, u: UserRow): Pc {
    if req.Delete? || (req.SetActive? && !req.isActive) then Revoke(u) else Save(Target(req, u))
  }

  function AfterRevoke(req: Request, u: UserRow): Pc {
    if req.Delete? then DeleteIdentity(u) else Save(Target(req, u))
  }

  function Then(call: Call, next: Pc): Pc {
    if call == Works then next else Failed(CallFailed)
  }

  /** One call of an execution: what it does to the world, and where the execution goes. */
  function Step(w: World, e: Exec, call: Call): (World, Exec) {
    var req := e.req;
    var takesEffect := call != FailsBefore;
    match e.pc
    case Find =>
      var user := FindById(w.rows, req.userId, req.tenantId);
      var next := if user == None then Failed(UserNotFound)
                  else if NeedsCount(req, user.value) then Count(user.value) else Admitted(req, user.value);
      (w, e.(pc := Then(call, next)))
    case Count(u) =>
      (w, e.(pc := Then(call, if |ActiveAdmins(w.rows, req.tenantId)| <= 1 then Failed(LastAdmin) else Admitted(req, u))))
    case Revoke(u) =>
      (if takesEffect then w.(sessions := Revoked(w.sessions, u.providerId)) else w,
       e.(pc := Then(call, AfterRevoke(req, u)), revoked := call == Works))
    case DeleteIdentity(u) =>
      (if takesEffect then w.(identities := w.identities - {u.providerId}) else w, e.(pc := Then(call, SoftDelete(u))))
    case SoftDelete(u) =>
      (if takesEffect then w.(rows := SoftDeleted(w.rows, req.userId, req.tenantId)) else w, e.(pc := Then(call, Done)))
    case Save(u) =>
      (if takesEffect then w.(rows := Updated(w.rows, req.userId, u)) else w, e.(pc := Then(call, Reload)))
    case Reload =>
      (w, e.(pc := Then(call, if FindById(w.rows, req.userId, req.tenantId) == None then Failed(CallFailed) else Done)))
    case _ => (w, e)
  }

  function Rank(pc: Pc): nat {
    match pc
    case Find => 6
    case Count(_) => 5
    case Revoke(_) => 4
    case DeleteIdentity(_) => 3
    case SoftDelete(_) => 2
    case Save(_) => 2
    case Reload => 1
    case _ => 0
  }

  /** How each call of one execution will end. */
  datatype Script = Script(find: Call, count: Call, revoke: Call, deleteIdentity: Call, write: Call, reload: Call)

  const ALL_WORKS := Script(Works, Works, Works, Works, Works, Works)

  function CallAt(s: Script, pc: Pc): Call {
    match pc
    case Find => s.find
    case Count(_) => s.count
    case Revoke(_) => s.revoke
    case DeleteIdentity(_) => s.deleteIdentity
    case SoftDelete(_) => s.write
    case Save(_) => s.write
    case _ => s.reload
  }

  /** An execution with nothing else in between. */
  function Finish(w: World, e: Exec, s: Script): (World, Exec)
    decreases Rank(e.pc)
  {
    if Rank(e.pc) == 0 then (w, e) else
      var (w', e') := Step(w, e, CallAt(s, e.pc));
      Finish(w', e', s)
  }

  function Execute(w: World, req: Request, s: Script): World {
    Finish(w, Start(req), s).0
  }

  // ---- an execution alone: what holds at each step ----

  /** The world an undisturbed run ends in. */
  function Final(w: World, req: Request): World {
    var user := FindById(w.rows, req.userId, req.tenantId);
    if Start(req).pc.Failed? || user == None then w
    else if NeedsCount(req, user.value) && |ActiveAdmins(w.rows, req.tenantId)| <= 1 then w
    else match req
      case Delete(_, _, _) =>
        World(SoftDeleted(w.rows, req.userId, req.tenantId), w.identities - {user.value.providerId}, Revoked(w.sessions, user.value.providerId))
      case SetActive(_, _, _, isActive) =>
        World(Updated(w.rows, req.userId, Target(req, user.value)), w.identities,
              if isActive then w.sessions else Revoked(w.sessions, user.value.providerId))
      case Update(_, _, _, _) => w.(rows := Updated(w.rows, req.userId, Target(req, user.value)))
  }

  /** The entity held is the row as it stands, and the last-admin check has been passed where it applies. */
  ghost predicate HoldsRow(w: World, req: Request, u: UserRow) {
    FindById(w.rows, req.userId, req.tenantId) == Some(u) && !Start(req).pc.Failed?
  }

  ghost predicate AdminsLeft(w: World, req: Request, u: UserRow) {
    NeedsCount(req, u) ==> |ActiveAdmins(w.rows, req.tenantId)| >= 2
  }

  ghost predicate AloneOk(w: World, e: Exec) {
    match e.pc
    case Find => !Start(e.req).pc.Failed?
    case Count(u) => HoldsRow(w, e.req, u) && NeedsCount(e.req, u)
    case Revoke(u) => HoldsRow(w, e.req, u) && AdminsLeft(w, e.req, u) && Admitted(e.req, u) == e.pc
    case DeleteIdentity(u) => HoldsRow(w, e.req, u) && AdminsLeft(w, e.req, u) && e.req.Delete? && Revoked(w.sessions, u.providerId) == w.sessions
    case SoftDelete(u) =>
      && HoldsRow(w, e.req, u) && AdminsLeft(w, e.req, u) && e.req.Delete?
      && Revoked(w.sessions, u.providerId) == w.sessions && u.providerId !in w.identities
    case Save(t) =>
      var user := FindById(w.rows, e.req.userId, e.req.tenantId);
      && user.Some? && HoldsRow(w, e.req, user.value) && AdminsLeft(w, e.req, user.value) && t == Target(e.req, user.value)
      && !e.req.Delete?
      && (e.req.SetActive? && !e.req.isActive ==> Revoked(w.sessions, user.value.providerId) == w.sessions)
    case Reload => Final(w, e.req) == w && FindById(w.rows, e.req.userId, e.req.tenantId).Some?
    case Done => Final(w, e.req) == w
    case Failed(_) => true
  }

  lemma RevokedTwice(sessions: set<Session>, providerId: string)
    ensures Revoked(Revoked(sessions, providerId), providerId) == Revoked(sessions, providerId)
  {
  }

  /** A call neither changes where an undisturbed run would end nor, when it works, loses the facts above. */
  ghost predicate Preserves(w: World, e: Exec, call: Call) {
    var (w', e') := Step(w, e, call);
    && Final(w', e.req) == Final(w, e.req)
    && AloneOk(w', e')
    && (e'.pc.Failed? && call == Works ==> Final(w', e.req) == w')
  }

  lemma ReadAlone(w: World, e: Exec, call: Call)
    requires AloneOk(w, e) && (e.pc.Find? || e.pc.Count? || e.pc.Reload?)
    ensures Preserves(w, e, call)
  {
  }

  lemma RevokeAlone(w: World, e: Exec, call: Call)
    requires AloneOk(w, e) && e.pc.Revoke?
    ensures Preserves(w, e, call)
  {
    RevokedTwice(w.sessions, e.pc.user.providerId);
  }

  lemma DeleteAlone(w: World, e: Exec, call: Call)
    requires AloneOk(w, e) && (e.pc.DeleteIdentity? || e.pc.SoftDelete?)
    ensures Preserves(w, e, call)
  {
  }

  lemma SaveAlone(w: World, e: Exec, call: Call)
    requires AloneOk(w, e) && e.pc.Save?
    ensures Preserves(w, e, call)
  {
    var t := e.pc.user;
    var rows := Updated(w.rows, e.req.userId, t);
    assert rows[e.req.userId] == t;
    assert Target(e.req, t) == t && !NeedsCount(e.req, t);
    assert Updated(rows, e.req.userId, t) == rows;
  }

  lemma StepAlone(w: World, e: Exec, call: Call)
    requires AloneOk(w, e) && Rank(e.pc) > 0
    ensures Preserves(w, e, call)
  {
    match e.pc
    case Revoke(_) => RevokeAlone(w, e, call);
    case DeleteIdentity(_) => DeleteAlone(w, e, call);
    case SoftDelete(_) => DeleteAlone(w, e, call);
    case Save(_) => SaveAlone(w, e, call);
    case _ => ReadAlone(w, e, call);
  }

  lemma {:induction false} FinishAlone(w: World, e: Exec, s: Script)
    requires AloneOk(w, e)
    ensures Final(Finish(w, e, s).0, e.req) == Final(w, e.req)
    ensures s == ALL_WORKS && Rank(e.pc) > 0 ==> Finish(w, e, s).0 == Final(w, e.req)
    ensures Finish(w, e, s).1.pc == Done ==> Finish(w, e, s).0 == Final(w, e.req)
    decreases Rank(e.pc)
  {
    if Rank(e.pc) > 0 {
      StepAlone(w, e, CallAt(s, e.pc));
      var (w', e') := Step(w, e, CallAt(s, e.pc));
      FinishAlone(w', e', s);
    }
  }

  /**
    An undisturbed run ends in `Final`; any run, wherever it fails, leaves a world from
    which that end is still the same; one that reports success has reached it.
  */
  lemma ExecuteEndsInFinal(w: World, req: Request, s: Script)
    ensures Execute(w, req, ALL_WORKS) == Final(w, req)
    ensures Final(Execute(w, req, s), req) == Final(w, req)
    ensures Finish(w, Start(req), s).1.pc == Done ==> Execute(w, req, s) == Final(w, req)
  {
    FinishAlone(w, Start(req), s);
    FinishAlone(w, Start(req), ALL_WORKS);
  }

  function Attempts(w: World, req: Request, tries: seq<Script>): World {
    if tries == [] then w else Execute(Attempts(w, req, tries[..|tries| - 1]), req, tries[|tries| - 1])
  }

  /**
    Repeatability: however many earlier attempts failed, each at any call, before or
    after its effect, repeating the request with nothing else in between reaches the
    world of the undisturbed run.
  */
  lemma {:induction false} RetryReachesUndisturbedEnd(w: World, req: Request, tries: seq<Script>)
    ensures Execute(Attempts(w, req, tries), req, ALL_WORKS) == Execute(w, req, ALL_WORKS)
  {
    if tries != [] {
      var front, last := tries[..|tries| - 1], tries[|tries| - 1];
      RetryReachesUndisturbedEnd(w, req, front);
      var w1 := Attempts(w, req, front);
      ExecuteEndsInFinal(w1, req, last);
      ExecuteEndsInFinal(Execute(w1, req, last), req, last);
    }
  }

  /** What the undisturbed deletion and deactivation achieve when they are admitted. */
  lemma UndisturbedEnd(w: World, req: Request, u: UserRow)
    requires req.Delete? || (req.SetActive? && !req.isActive)
    requires req.userId != req.caller && FindById(w.rows, req.userId, req.tenantId) == Some(u)
    requires IsActiveAdmin(u, req.tenantId) ==> |ActiveAdmins(w.rows, req.tenantId)| > 1
    ensures var end := Execute(w, req, ALL_WORKS);
            && (forall x :: x in end.sessions <==> x in w.sessions && x.providerId != u.providerId)
            && end.identities == (if req.Delete? then w.identities - {u.providerId} else w.identities)
            && end.rows == w.rows[req.userId := if req.Delete? then u.(deleted := true) else u.(isActive := false)]
  {
    ExecuteEndsInFinal(w, req, ALL_WORKS);
  }

  /** What an undisturbed profile update achieves: each field given is written, and nothing else changes anywhere. */
  lemma UndisturbedUpdate(w: World, req: Request, u: UserRow)
    requires req.Update? && (req.patch.role.Some? ==> req.userId != req.caller)
    requires FindById(w.rows, req.userId, req.tenantId) == Some(u)
    requires IsActiveAdmin(u, req.tenantId) && req.patch.role.Some? && req.patch.role.value != ADMIN ==> |ActiveAdmins(w.rows, req.tenantId)| > 1
    ensures var end := Execute(w, req, ALL_WORKS);
            && end.identities == w.identities && end.sessions == w.sessions
            && end.rows.Keys == w.rows.Keys && (forall id :: id in w.rows && id != req.userId ==> end.rows[id] == w.rows[id])
            && var r := end.rows[req.userId];
               && r.name == (if req.patch.name.Some? then req.patch.name.value else u.name)
               && r.phone == (if req.patch.phone.Some? then req.patch.phone.value else u.phone)
               && r.role == (if req.patch.role.Some? then req.patch.role.value else u.role)
               && r.email == u.email && r.isActive == u.isActive
               && r.tenantId == u.tenantId && r.providerId == u.providerId && r.deleted == u.deleted
  {
    ExecuteEndsInFinal(w, req, ALL_WORKS);
  }

  /** What an undisturbed activation achieves: the user is active, and nothing else changes anywhere. */
  lemma UndisturbedActivation(w: World, req: Request, u: UserRow)
    requires req.SetActive? && req.isActive && FindById(w.rows, req.userId, req.tenantId) == Some(u)
    ensures Execute(w, req, ALL_WORKS) == World(w.rows[req.userId := u.(isActive := true)], w.identities, w.sessions)
  {
    ExecuteEndsInFinal(w, req, ALL_WORKS);
  }

  // ---- what the caller is told ----

  lemma AtMostOne(s: set<string>)
    ensures |s| <= 1 <==> forall a, b :: a in s && b in s ==> a == b
  {
    if s != {} {
      var x :| x in s;
      assert s == {x} + (s - {x});
      if |s| > 1 {
        var y :| y in s - {x};
        assert y in s && y != x;
      }
    }
  }

  /** Some other live active admin of the tenant. */
  predicate AnotherAdmin(rows: Rows, id: string, tenantId: string) {
    exists a :: a in rows && a != id
                && rows[a].tenantId == tenantId && !rows[a].deleted && rows[a].isActive && rows[a].role == ADMIN
  }

  lemma CountedAdmins(rows: Rows, id: string, tenantId: string)
    requires id in rows && IsActiveAdmin(rows[id], tenantId)
    ensures |ActiveAdmins(rows, tenantId)| <= 1 <==> !AnotherAdmin(rows, id, tenantId)
  {
    AtMostOne(ActiveAdmins(rows, tenantId));
    assert id in ActiveAdmins(rows, tenantId);
    if AnotherAdmin(rows, id, tenantId) {
      var a :| a in rows && a != id && rows[a].tenantId == tenantId && !rows[a].deleted && rows[a].isActive && rows[a].role == ADMIN;
      assert a in ActiveAdmins(rows, tenantId);
    }
  }

  /** The requests a user may not make about themselves, with the refusal. */
  function OnSelf(req: Request): Option<Error> {
    if req.userId != req.caller then None
    else match req
      case Delete(_, _, _) => Some(CannotDeleteSelf)
      case SetActive(_, _, _, isActive) => if isActive then None else Some(CannotDeactivateSelf)
      case Update(_, _, _, patch) => if patch.role.Some? then Some(CannotChangeOwnRole) else None
  }

  /** Requests that leave the target no active admin. */
  predicate TakesAdmin(req: Request) {
    match req
    case Delete(_, _, _) => true
    case SetActive(_, _, _, isActive) => !isActive
    case Update(_, _, _, patch) => patch.role.Some? && patch.role.value != ADMIN
  }

  lemma FinishFind(w: World, req: Request)
    requires Start(req).pc == Find
    ensures var user := FindById(w.rows, req.userId, req.tenantId);
            var out := Finish(w, Start(req), ALL_WORKS).1.pc;
            if user == None then out == Failed(UserNotFound)
            else if NeedsCount(req, user.value) && |ActiveAdmins(w.rows, req.tenantId)| <= 1 then out == Failed(LastAdmin)
            else out == Done
  {
    var e := Step(w, Start(req), Works).1;
    if e.pc.Count? {
      var e2 := Step(w, e, Works).1;
      FinishAdmitted(w, e2);
    } else {
      FinishAdmitted(w, e);
    }
  }

  lemma {:induction false} FinishAdmitted(w: World, e: Exec)
    requires AloneOk(w, e) && !e.pc.Find? && !e.pc.Count?
    ensures Finish(w, e, ALL_WORKS).1.pc == if e.pc.Failed? then e.pc else Done
    decreases Rank(e.pc)
  {
    if Rank(e.pc) > 0 {
      StepAlone(w, e, Works);
      var (w', e') := Step(w, e, Works);
      FinishAdmitted(w', e');
    }
  }

  /**
    What an undisturbed use case answers, and that a refused one changes nothing: first
    the rules on oneself, then whether the tenant has the user, then whether an active
    admin is left.
  */
  lemma UndisturbedAnswer(w: World, req: Request)
    ensures var (end, e) := Finish(w, Start(req), ALL_WORKS);
            var live := req.userId in w.rows && w.rows[req.userId].tenantId == req.tenantId && !w.rows[req.userId].deleted;
            var last := live && TakesAdmin(req) && w.rows[req.userId].isActive && w.rows[req.userId].role == ADMIN
                        && !AnotherAdmin(w.rows, req.userId, req.tenantId);
            && (OnSelf(req).Some? ==> e.pc == Failed(OnSelf(req).value))
            && (OnSelf(req) == None && !live ==> e.pc == Failed(UserNotFound))
            && (OnSelf(req) == None && last ==> e.pc == Failed(LastAdmin))
            && (OnSelf(req) == None && live && !last ==> e.pc == Done)
            && (e.pc != Done ==> end == w)
  {
    ExecuteEndsInFinal(w, req, ALL_WORKS);
    if OnSelf(req) == None {
      FinishFind(w, req);
      var user := FindById(w.rows, req.userId, req.tenantId);
      if user.Some? && IsActiveAdmin(user.value, req.tenantId) {
        CountedAdmins(w.rows, req.userId, req.tenantId);
      }
    }
  }

  // ---- the last-admin rule, for atomic use cases ----

  lemma SmallerByOne(s: set<string>, x: string)
    ensures |s - {x}| >= |s| - 1
  {
    if x in s {
      assert s == (s - {x}) + {x};
    } else {
      assert s - {x} == s;
    }
  }

  /** Only a write can remove an active admin, it removes no other than its target, and only if a count was needed. */
  lemma WriteKeepsAdmins(w: World, req: Request, u: UserRow, rows: Rows, tenantId: string)
    requires FindById(w.rows, req.userId, req.tenantId) == Some(u)
    requires rows == if req.Delete? then SoftDeleted(w.rows, req.userId, req.tenantId) else Updated(w.rows, req.userId, Target(req, u))
    ensures ActiveAdmins(w.rows, tenantId) - {req.userId} <= ActiveAdmins(rows, tenantId)
    ensures !(NeedsCount(req, u) && tenantId == req.tenantId) ==> ActiveAdmins(w.rows, tenantId) <= ActiveAdmins(rows, tenantId)
  {
  }

  lemma StepKeepsAdmins(w: World, e: Exec, call: Call, tenantId: string)
    requires AloneOk(w, e) && Rank(e.pc) > 0 && ActiveAdmins(w.rows, tenantId) != {}
    ensures ActiveAdmins(Step(w, e, call).0.rows, tenantId) != {}
  {
    if e.pc.SoftDelete? || e.pc.Save? {
      var u := FindById(w.rows, e.req.userId, e.req.tenantId).value;
      var rows := Step(w, e, call).0.rows;
      if rows != w.rows {
        WriteKeepsAdmins(w, e.req, u, rows, tenantId);
        SmallerByOne(ActiveAdmins(w.rows, tenantId), e.req.userId);
      }
    }
  }

  lemma {:induction false} FinishKeepsAdmins(w: World, e: Exec, s: Script, tenantId: string)
    requires AloneOk(w, e) && ActiveAdmins(w.rows, tenantId) != {}
    ensures ActiveAdmins(Finish(w, e, s).0.rows, tenantId) != {}
    decreases Rank(e.pc)
  {
    if Rank(e.pc) > 0 {
      StepAlone(w, e, CallAt(s, e.pc));
      StepKeepsAdmins(w, e, CallAt(s, e.pc), tenantId);
      var (w', e') := Step(w, e, CallAt(s, e.pc));
      FinishKeepsAdmins(w', e', s, tenantId);
    }
  }

  datatype NewUser = NewUser(id: string, providerId: string, name: string, email: string, phone: Option<string>, role: Role)

  predicate EmailTaken(rows: Rows, email: string, tenantId: string) {
    exists id :: id in rows && rows[id].tenantId == tenantId && !rows[id].deleted && rows[id].email == email
  }

  predicate ProviderTaken(rows: Rows, providerId: string) {
    exists id :: id in rows && !rows[id].deleted && rows[id].providerId == providerId
  }

  /** Creating a user: refused for a taken e-mail; the unique indexes refuse a taken provider id. The id is a fresh UUID. */
  function Create(w: World, tenantId: string, u: NewUser, find: Call, write: Call): World {
    if find != Works || EmailTaken(w.rows, u.email, tenantId) || ProviderTaken(w.rows, u.providerId) || u.id in w.rows || write == FailsBefore
    then w
    else w.(rows := w.rows[u.id := UserRow(tenantId, u.providerId, u.name, u.email, u.phone, u.role, true, false)])
  }

  /**
    A creation whose calls work adds exactly the active user asked for, unless the tenant has
    a live user with the e-mail, a live user has the provider id, or the id is taken; then it
    adds nothing.
  */
  lemma CreateAdds(w: World, tenantId: string, u: NewUser)
    ensures var refused :=
              || (exists id :: id in w.rows && w.rows[id].tenantId == tenantId && !w.rows[id].deleted && w.rows[id].email == u.email)
              || (exists id :: id in w.rows && !w.rows[id].deleted && w.rows[id].providerId == u.providerId)
              || u.id in w.rows;
            var end := Create(w, tenantId, u, Works, Works);
            && (refused ==> end == w)
            && (!refused ==> end == w.(rows := w.rows[u.id := UserRow(tenantId, u.providerId, u.name, u.email, u.phone, u.role, true, false)]))
  {
  }

  /** One atomic use case, whichever of its calls fail. */
  datatype Op =
    | CreateUser(tenantId: string, user: NewUser, find: Call, write: Call)
    | UseCase(req: Request, script: Script)

  function Perform(w: World, op: Op): World {
    match op
    case CreateUser(tenantId, u, find, write) => Create(w, tenantId, u, find, write)
    case UseCase(req, script) => Execute(w, req, script)
  }

  function PerformAll(w: World, ops: seq<Op>): World {
    if ops == [] then w else Perform(PerformAll(w, ops[..|ops| - 1]), ops[|ops| - 1])
  }

  /** A tenant with an active admin never loses its last one, over any sequence of atomic use cases. */
  lemma {:induction false} LastAdminStays(w: World, ops: seq<Op>, tenantId: string)
    requires ActiveAdmins(w.rows, tenantId) != {}
    ensures ActiveAdmins(PerformAll(w, ops).rows, tenantId) != {}
  {
    if ops != [] {
      var front, op := ops[..|ops| - 1], ops[|ops| - 1];
      LastAdminStays(w, front, tenantId);
      var w1 := PerformAll(w, front);
      match op
      case CreateUser(t, u, find, write) =>
        assert ActiveAdmins(w1.rows, tenantId) <= ActiveAdmins(Perform(w1, op).rows, tenantId);
      case UseCase(req, script) =>
        FinishKeepsAdmins(w1, Start(req), script, tenantId);
    }
  }

  lemma {:induction false} NotLastAdmin(w: World, e: Exec, s: Script)
    requires AloneOk(w, e) && e.req.userId != e.req.caller && e.req.caller in ActiveAdmins(w.rows, e.req.tenantId)
    requires e.pc != Failed(LastAdmin)
    ensures Finish(w, e, s).1.pc != Failed(LastAdmin)
    decreases Rank(e.pc)
  {
    if Rank(e.pc) > 0 {
      var (w', e') := Step(w, e, CallAt(s, e.pc));
      StepAlone(w, e, CallAt(s, e.pc));
      if e.pc.Count? {
        var admins := ActiveAdmins(w.rows, e.req.tenantId);
        assert {e.req.caller, e.req.userId} <= admins;
        assert |{e.req.caller, e.req.userId}| == 2;
        CardinalityMonotone({e.req.caller, e.req.userId}, admins);
      }
      if e.pc.SoftDelete? || e.pc.Save? {
        assert e.req.caller in w'.rows && w'.rows[e.req.caller] == w.rows[e.req.caller];
      }
      NotLastAdmin(w', e', s);
    }
  }

  lemma {:induction false} CardinalityMonotone(a: set<string>, b: set<string>)
    requires a <= b
    ensures |a| <= |b|
  {
    if a != {} {
      var x :| x in a;
      CardinalityMonotone(a - {x}, b - {x});
    }
  }

  /**
    When the caller is a live active admin of the tenant, the last-admin refusal is
    unreachable: a target other than the caller leaves the caller, and self-targeting
    requests that would take the caller away have been refused before.
  */
  lemma LastAdminRefusalUnreachable(w: World, req: Request, s: Script)
    requires req.caller in ActiveAdmins(w.rows, req.tenantId)
    ensures Finish(w, Start(req), s).1.pc != Failed(LastAdmin)
  {
    if req.userId != req.caller {
      NotLastAdmin(w, Start(req), s);
    } else {
      SelfNeedsNoCount(w, Start(req), s);
    }
  }

  lemma {:induction false} SelfNeedsNoCount(w: World, e: Exec, s: Script)
    requires e.req.userId == e.req.caller && !e.pc.Count? && e.pc != Failed(LastAdmin)
    requires e.pc.Find? ==> !Start(e.req).pc.Failed?
    ensures Finish(w, e, s).1.pc != Failed(LastAdmin)
    decreases Rank(e.pc)
  {
    if Rank(e.pc) > 0 {
      var (w', e') := Step(w, e, CallAt(s, e.pc));
      SelfNeedsNoCount(w', e', s);
    }
  }
}
