/** The three user use cases over a repository and a provider that are updated in place. */
module UserUseCases {
  import opened Options
  import opened Users

  class UserRepository {
    var rows: Rows

    constructor (rows: Rows)
      ensures this.rows == rows
    {
      this.rows := rows;
    }

    /** A user is found exactly if the row is there, of that tenant and not deleted; it is then that row. */
    method FindById(id: string, tenantId: string, call: Call) returns (r: Result<Option<UserRow>, Error>)
      ensures r.Ok? <==> call == Works
      ensures r.Err? ==> r.error == CallFailed
      ensures r.Ok? ==> (r.value.Some? <==> id in rows && rows[id].tenantId == tenantId && !rows[id].deleted)
      ensures r.Ok? && r.value.Some? ==> r.value.value == rows[id]
    {
      r := if call == Works then Ok(Users.FindById(rows, id, tenantId)) else Err(CallFailed);
    }

    /** The number of active admins: none, or at most one, exactly when no two different users are. */
    method CountActiveAdminsByTenantId(tenantId: string, call: Call) returns (r: Result<nat, Error>)
      ensures r.Ok? <==> call == Works
      ensures r.Err? ==> r.error == CallFailed
      ensures r.Ok? ==> r.value == |ActiveAdmins(rows, tenantId)|
      ensures r.Ok? ==> (r.value == 0 <==> forall a :: a in rows ==> !IsActiveAdmin(rows[a], tenantId))
      ensures r.Ok? ==>
                (r.value <= 1 <==>
                 forall a, b :: a in rows && b in rows && IsActiveAdmin(rows[a], tenantId) && IsActiveAdmin(rows[b], tenantId) ==> a == b)
    {
      AtMostOne(ActiveAdmins(rows, tenantId));
      assert forall a :: a in ActiveAdmins(rows, tenantId) <==> a in rows && IsActiveAdmin(rows[a], tenantId);
      r := if call == Works then Ok(|ActiveAdmins(rows, tenantId)|) else Err(CallFailed);
    }

    /**
      The UPDATE, then the read-back that fails when the row is not live. Tenant, provider
      id and deletion are never written, nor is any other row or a row of another tenant.
    */
    method Update(id: string, user: UserRow, write: Call, reload: Call) returns (r: Result<UserRow, Error>)
      modifies this
      ensures write == FailsBefore ==> rows == old(rows)
      ensures rows.Keys == old(rows).Keys && forall x :: x in rows && x != id ==> rows[x] == old(rows)[x]
      ensures id in rows ==> rows[id].tenantId == old(rows)[id].tenantId && rows[id].providerId == old(rows)[id].providerId
                             && rows[id].deleted == old(rows)[id].deleted
      ensures id in rows && rows[id].tenantId != user.tenantId ==> rows[id] == old(rows)[id]
      ensures write != FailsBefore && id in rows && rows[id].tenantId == user.tenantId ==>
                && rows[id].name == user.name && rows[id].email == user.email && rows[id].phone == user.phone
                && rows[id].role == user.role && rows[id].isActive == user.isActive
      ensures rows == if write == FailsBefore then old(rows) else Updated(old(rows), id, user)
      ensures r == if write == Works && reload == Works && Users.FindById(rows, id, user.tenantId).Some?
                   then Ok(rows[id]) else Err(CallFailed)
    {
      if write != FailsBefore {
        rows := Updated(rows, id, user);
      }
      if write != Works || reload != Works {
        return Err(CallFailed);
      }
      var updated := Users.FindById(rows, id, user.tenantId);
      r := if updated.Some? then Ok(updated.value) else Err(CallFailed);
    }

    /** Afterwards the tenant has no live row with that id; every other row is as it was. */
    method SoftDelete(id: string, tenantId: string, call: Call) returns (ok: bool)
      modifies this
      ensures ok <==> call == Works
      ensures call == FailsBefore ==> rows == old(rows)
      ensures rows.Keys == old(rows).Keys
      ensures forall x :: x in rows && !(x == id && rows[x].tenantId == tenantId) ==> rows[x] == old(rows)[x]
      ensures call != FailsBefore && id in rows && rows[id].tenantId == tenantId ==> rows[id] == old(rows)[id].(deleted := true)
      ensures call != FailsBefore ==> Users.FindById(rows, id, tenantId) == None
    {
      if call != FailsBefore {
        rows := SoftDeleted(rows, id, tenantId);
      }
      ok := call == Works;
    }
  }

  class AuthProvider {
    var identities: set<string>
    var sessions: set<Session>

    constructor (identities: set<string>, sessions: set<Session>)
      ensures this.identities == identities && this.sessions == sessions
    {
      this.identities, this.sessions := identities, sessions;
    }

    method RevokeAllSessions(providerId: string, call: Call) returns (ok: bool)
      modifies this`sessions
      ensures sessions == if call == FailsBefore then old(sessions) else Revoked(old(sessions), providerId)
      ensures call != FailsBefore ==> forall x :: x in sessions <==> x in old(sessions) && x.providerId != providerId
      ensures ok == (call == Works)
    {
      if call != FailsBefore {
        sessions := Revoked(sessions, providerId);
      }
      ok := call == Works;
    }

    method DeleteUser(providerId: string, call: Call) returns (ok: bool)
      modifies this`identities
      ensures identities == if call == FailsBefore then old(identities) else old(identities) - {providerId}
      ensures ok == (call == Works)
    {
      if call != FailsBefore {
        identities := identities - {providerId};
      }
      ok := call == Works;
    }
  }

  ghost function WorldOf(repo: UserRepository, auth: AuthProvider): World
    reads repo, auth
  {
    World(repo.rows, auth.identities, auth.sessions)
  }

  /** What the caller sees of a finished execution. */
  function Ended(pc: Pc): Result<(), Error> {
    if pc.Failed? then Err(pc.error) else Ok(())
  }

  /** The table after a soft delete, told from its rows. */
  lemma SoftDeletedIs(before: Rows, after: Rows, id: string, tenantId: string)
    requires after.Keys == before.Keys
    requires forall x :: x in after && !(x == id && after[x].tenantId == tenantId) ==> after[x] == before[x]
    requires id in after && after[id].tenantId == tenantId ==> after[id] == before[id].(deleted := true)
    ensures after == SoftDeleted(before, id, tenantId)
  {
  }

  // ---- an execution alone, one stage at a time ----

  lemma OneCall(w: World, e: Exec, s: Script, call: Call)
    requires Rank(e.pc) > 0 && call == CallAt(s, e.pc)
    ensures Finish(w, e, s) == Finish(Step(w, e, call).0, Step(w, e, call).1, s)
  {
  }

  /** What the reads before any effect come to: the user, or why the request is refused. */
  function Admission(w: World, req: Request, s: Script): Result<UserRow, Error> {
    var user := Users.FindById(w.rows, req.userId, req.tenantId);
    if s.find != Works then Err(CallFailed)
    else if user == None then Err(UserNotFound)
    else if NeedsCount(req, user.value) && s.count != Works then Err(CallFailed)
    else if NeedsCount(req, user.value) && |ActiveAdmins(w.rows, req.tenantId)| <= 1 then Err(LastAdmin)
    else Ok(user.value)
  }

  lemma FinishAdmission(w: World, req: Request, s: Script)
    requires Start(req).pc == Find
    ensures var a := Admission(w, req, s);
            && (a.Err? ==> Finish(w, Start(req), s) == (w, Exec(req, Failed(a.error), false)))
            && (a.Ok? ==> Finish(w, Start(req), s) == Finish(w, Exec(req, Admitted(req, a.value), false), s))
  {
    var e := Step(w, Start(req), s.find).1;
    OneCall(w, Start(req), s, s.find);
    if e.pc.Count? {
      OneCall(w, e, s, s.count);
    }
  }

  lemma FinishRevoke(w: World, req: Request, u: UserRow, s: Script)
    ensures var w1 := if s.revoke == FailsBefore then w else w.(sessions := Revoked(w.sessions, u.providerId));
            Finish(w, Exec(req, Revoke(u), false), s) ==
            if s.revoke == Works then Finish(w1, Exec(req, AfterRevoke(req, u), true), s) else (w1, Exec(req, Failed(CallFailed), false))
  {
    OneCall(w, Exec(req, Revoke(u), false), s, s.revoke);
  }

  lemma FinishDeleteIdentity(w: World, req: Request, u: UserRow, s: Script)
    ensures var w1 := if s.deleteIdentity == FailsBefore then w else w.(identities := w.identities - {u.providerId});
            Finish(w, Exec(req, DeleteIdentity(u), true), s) ==
            if s.deleteIdentity == Works then Finish(w1, Exec(req, SoftDelete(u), true), s) else (w1, Exec(req, Failed(CallFailed), true))
  {
    OneCall(w, Exec(req, DeleteIdentity(u), true), s, s.deleteIdentity);
  }

  lemma FinishSoftDelete(w: World, req: Request, u: UserRow, s: Script)
    ensures Finish(w, Exec(req, SoftDelete(u), true), s) ==
            (if s.write == FailsBefore then w else w.(rows := SoftDeleted(w.rows, req.userId, req.tenantId)),
             Exec(req, if s.write == Works then Done else Failed(CallFailed), true))
  {
    OneCall(w, Exec(req, SoftDelete(u), true), s, s.write);
  }

  /** The write and the read-back. */
  lemma FinishSave(w: World, req: Request, u: UserRow, revoked: bool, s: Script)
    ensures var w1 := if s.write == FailsBefore then w else w.(rows := Updated(w.rows, req.userId, u));
            var saved := s.write == Works && s.reload == Works && Users.FindById(w1.rows, req.userId, req.tenantId).Some?;
            Finish(w, Exec(req, Save(u), revoked), s) == (w1, Exec(req, if saved then Done else Failed(CallFailed), revoked))
  {
    var e := Exec(req, Save(u), revoked);
    var (w1, e1) := Step(w, e, s.write);
    OneCall(w, e, s, s.write);
    if e1.pc.Reload? {
      OneCall(w1, e1, s, s.reload);
    }
  }

  class DeleteUserUseCase {
    const userRepo: UserRepository
    const authProvider: AuthProvider

    constructor (userRepo: UserRepository, authProvider: AuthProvider)
      ensures this.userRepo == userRepo && this.authProvider == authProvider
    {
      this.userRepo, this.authProvider := userRepo, authProvider;
    }

    method Execute(userId: string, tenantId: string, currentUserId: string, s: Script) returns (r: Result<(), Error>)
      modifies userRepo, authProvider
      ensures r.Ok? ==>
                && userId in old(userRepo.rows) && old(userRepo.rows)[userId].tenantId == tenantId && !old(userRepo.rows)[userId].deleted
                && var u := old(userRepo.rows)[userId];
                   && userRepo.rows == old(userRepo.rows)[userId := u.(deleted := true)]
                   && authProvider.identities == old(authProvider.identities) - {u.providerId}
                   && forall x :: x in authProvider.sessions <==> x in old(authProvider.sessions) && x.providerId != u.providerId
      ensures var end := Finish(old(WorldOf(userRepo, authProvider)), Start(Delete(userId, tenantId, currentUserId)), s);
              WorldOf(userRepo, authProvider) == end.0 && r == Ended(end.1.pc)
    {
      ghost var req := Delete(userId, tenantId, currentUserId);
      if userId == currentUserId {
        return Err(CannotDeleteSelf);
      }
      FinishAdmission(WorldOf(userRepo, authProvider), req, s);
      var found := userRepo.FindById(userId, tenantId, s.find);
      if found.Err? {
        return Err(CallFailed);
      }
      if found.value == None {
        return Err(UserNotFound);
      }
      var user := found.value.value;
      if user.isActive && user.role == ADMIN {
        var activeAdmins := userRepo.CountActiveAdminsByTenantId(tenantId, s.count);
        if activeAdmins.Err? {
          return Err(CallFailed);
        }
        if activeAdmins.value <= 1 {
          return Err(LastAdmin);
        }
      }
      assert Admission(WorldOf(userRepo, authProvider), req, s) == Ok(user);
      FinishRevoke(WorldOf(userRepo, authProvider), req, user, s);
      var ok := authProvider.RevokeAllSessions(user.providerId, s.revoke);
      if !ok {
        return Err(CallFailed);
      }
      FinishDeleteIdentity(WorldOf(userRepo, authProvider), req, user, s);
      ok := authProvider.DeleteUser(user.providerId, s.deleteIdentity);
      if !ok {
        return Err(CallFailed);
      }
      FinishSoftDelete(WorldOf(userRepo, authProvider), req, user, s);
      ghost var before := userRepo.rows;
      ok := userRepo.SoftDelete(userId, tenantId, s.write);
      if s.write != FailsBefore {
        SoftDeletedIs(before, userRepo.rows, userId, tenantId);
      }
      if !ok {
        return Err(CallFailed);
      }
      return Ok(());
    }
  }

  class SetUserActiveUseCase {
    const userRepo: UserRepository
    const authProvider: AuthProvider

    constructor (userRepo: UserRepository, authProvider: AuthProvider)
      ensures this.userRepo == userRepo && this.authProvider == authProvider
    {
      this.userRepo, this.authProvider := userRepo, authProvider;
    }

    method Execute(userId: string, tenantId: string, currentUserId: string, isActive: bool, s: Script)
        returns (r: Result<(), Error>)
      modifies userRepo, authProvider
      ensures r.Ok? ==>
                && userId in old(userRepo.rows) && old(userRepo.rows)[userId].tenantId == tenantId && !old(userRepo.rows)[userId].deleted
                && var u := old(userRepo.rows)[userId];
                   && userRepo.rows == old(userRepo.rows)[userId := u.(isActive := isActive)]
                   && authProvider.identities == old(authProvider.identities)
                   && (isActive ==> authProvider.sessions == old(authProvider.sessions))
                   && (!isActive ==> forall x :: x in authProvider.sessions <==> x in old(authProvider.sessions) && x.providerId != u.providerId)
      ensures var end := Finish(old(WorldOf(userRepo, authProvider)), Start(SetActive(userId, tenantId, currentUserId, isActive)), s);
              WorldOf(userRepo, authProvider) == end.0 && r == Ended(end.1.pc)
    {
      ghost var req := SetActive(userId, tenantId, currentUserId, isActive);
      if !isActive && userId == currentUserId {
        return Err(CannotDeactivateSelf);
      }
      FinishAdmission(WorldOf(userRepo, authProvider), req, s);
      var found := userRepo.FindById(userId, tenantId, s.find);
      if found.Err? {
        return Err(CallFailed);
      }
      if found.value == None {
        return Err(UserNotFound);
      }
      var user := found.value.value;
      if !isActive && user.isActive && user.role == ADMIN {
        var activeAdmins := userRepo.CountActiveAdminsByTenantId(tenantId, s.count);
        if activeAdmins.Err? {
          return Err(CallFailed);
        }
        if activeAdmins.value <= 1 {
          return Err(LastAdmin);
        }
      }
      assert Admission(WorldOf(userRepo, authProvider), req, s) == Ok(user);
      if !isActive {
        FinishRevoke(WorldOf(userRepo, authProvider), req, user, s);
        var ok := authProvider.RevokeAllSessions(user.providerId, s.revoke);
        if !ok {
          return Err(CallFailed);
        }
      }
      user := user.(isActive := isActive);
      FinishSave(WorldOf(userRepo, authProvider), req, user, !isActive, s);
      var updated := userRepo.Update(userId, user, s.write, s.reload);
      r := if updated.Ok? then Ok(()) else Err(updated.error);
    }
  }

  class UpdateUserUseCase {
    const userRepo: UserRepository

    constructor (userRepo: UserRepository)
      ensures this.userRepo == userRepo
    {
      this.userRepo := userRepo;
    }

    /** Only for a demotion of an active admin: another active admin has to be left. */
    method AssertNotLastAdmin(user: UserRow, tenantId: string, newRole: Option<Role>, call: Call) returns (r: Result<(), Error>)
      ensures r == if newRole.Some? && user.isActive && user.role == ADMIN && newRole.value != ADMIN
                   then (if call != Works then Err(CallFailed)
                         else if |ActiveAdmins(userRepo.rows, tenantId)| <= 1 then Err(LastAdmin) else Ok(()))
                   else Ok(())
    {
      if newRole == None || !user.isActive || user.role != ADMIN || newRole.value == ADMIN {
        return Ok(());
      }
      var activeAdmins := userRepo.CountActiveAdminsByTenantId(tenantId, call);
      if activeAdmins.Err? {
        return Err(CallFailed);
      }
      return if activeAdmins.value <= 1 then Err(LastAdmin) else Ok(());
    }

    /** The provider takes no part; `auth` only completes the world. */
    method Execute(userId: string, tenantId: string, currentUserId: string, dto: Patch, s: Script, ghost auth: AuthProvider)
        returns (r: Result<(), Error>)
      modifies userRepo
      ensures r.Ok? ==>
                && userId in old(userRepo.rows) && old(userRepo.rows)[userId].tenantId == tenantId && !old(userRepo.rows)[userId].deleted
                && var u := old(userRepo.rows)[userId];
                   userRepo.rows == old(userRepo.rows)[userId := u.(name := if dto.name.Some? then dto.name.value else u.name,
                                                                    phone := if dto.phone.Some? then dto.phone.value else u.phone,
                                                                    role := if dto.role.Some? then dto.role.value else u.role)]
      ensures var end := Finish(old(WorldOf(userRepo, auth)), Start(Update(userId, tenantId, currentUserId, dto)), s);
              WorldOf(userRepo, auth) == end.0 && r == Ended(end.1.pc)
    {
      ghost var req := Update(userId, tenantId, currentUserId, dto);
      if dto.role.Some? && userId == currentUserId {
        return Err(CannotChangeOwnRole);
      }
      FinishAdmission(WorldOf(userRepo, auth), req, s);
      var found := userRepo.FindById(userId, tenantId, s.find);
      if found.Err? {
        return Err(CallFailed);
      }
      if found.value == None {
        return Err(UserNotFound);
      }
      var user := found.value.value;
      var checked := AssertNotLastAdmin(user, tenantId, dto.role, s.count);
      if checked.Err? {
        return Err(checked.error);
      }
      assert Admission(WorldOf(userRepo, auth), req, s) == Ok(user);
      if dto.name.Some? {
        user := user.(name := dto.name.value);
      }
      if dto.phone.Some? {
        user := user.(phone := dto.phone.value);
      }
      if dto.role.Some? {
        user := user.(role := dto.role.value);
      }
      FinishSave(WorldOf(userRepo, auth), req, user, false, s);
      var updated := userRepo.Update(userId, user, s.write, s.reload);
      r := if updated.Ok? then Ok(()) else Err(updated.error);
    }
  }
}
