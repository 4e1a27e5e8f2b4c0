/**
  Many user-administration requests at once: the steps of all executions interleave
  with sign-ups, logins and new users, and any call may fail.
*/
module UserProtocol {
  import opened Options
  import opened Users

  /** `everIssued` are the identity ids the provider has ever handed out; it never hands one out twice. */
  datatype Sys = Sys(world: World, execs: map<nat, Exec>, everIssued: set<string>)

  const START := Sys(World(map[], {}, {}), map[], {})

  datatype Event =
    | SignUp(providerId: string)
    | Login(session: Session)
    | Register(tenantId: string, user: NewUser, find: Call, write: Call)
    | Begin(id: nat, req: Request)
    | Advance(id: nat, call: Call)

  predicate Enabled(s: Sys, e: Event) {
    match e
    case SignUp(p) => p !in s.everIssued
    case Login(x) => x.providerId in s.world.identities
    case Register(_, u, _, _) => u.providerId in s.world.identities
    case Begin(id, _) => id !in s.execs
    case Advance(id, _) => id in s.execs && Rank(s.execs[id].pc) > 0
  }

  function Apply(s: Sys, e: Event): Sys {
    match e
    case SignUp(p) => s.(world := s.world.(identities := s.world.identities + {p}), everIssued := s.everIssued + {p})
    case Login(x) => s.(world := s.world.(sessions := s.world.sessions + {x}))
    case Register(t, u, find, write) => s.(world := Create(s.world, t, u, find, write))
    case Begin(id, req) => s.(execs := s.execs[id := Start(req)])
    case Advance(id, call) =>
      if id in s.execs then
        var (w, x) := Step(s.world, s.execs[id], call);
        s.(world := w, execs := s.execs[id := x])
      else s
  }

  function Run(events: seq<Event>): Sys {
    if events == [] then START else Apply(Run(events[..|events| - 1]), events[|events| - 1])
  }

  predicate Possible(events: seq<Event>) {
    events == [] || (Possible(events[..|events| - 1]) && Enabled(Run(events[..|events| - 1]), events[|events| - 1]))
  }

  // ---- the invariant ----

  ghost predicate RowsOk(s: Sys) {
    && s.world.identities <= s.everIssued
    && (forall id :: id in s.world.rows ==>
          && s.world.rows[id].providerId in s.everIssued
          && (s.world.rows[id].deleted ==> s.world.rows[id].providerId !in s.world.identities))
    && forall a, b :: a in s.world.rows && b in s.world.rows && a != b && !s.world.rows[a].deleted && !s.world.rows[b].deleted ==>
         s.world.rows[a].providerId != s.world.rows[b].providerId
  }

  /** The entity an execution holds may be out of date, but not in its row, tenant and provider id. */
  predicate Holds(w: World, req: Request, u: UserRow) {
    req.userId in w.rows && w.rows[req.userId].tenantId == req.tenantId == u.tenantId && w.rows[req.userId].providerId == u.providerId
  }

  predicate ExecOk(w: World, e: Exec) {
    match e.pc
    case Count(u) => Holds(w, e.req, u)
    case Revoke(u) => Holds(w, e.req, u) && (e.req.Delete? || (e.req.SetActive? && !e.req.isActive))
    case DeleteIdentity(u) => Holds(w, e.req, u) && e.req.Delete? && e.revoked
    case SoftDelete(u) => Holds(w, e.req, u) && e.req.Delete? && e.revoked && u.providerId !in w.identities
    case Save(u) =>
      && Holds(w, e.req, u) && !e.req.Delete?
      && (e.req.SetActive? ==> u.isActive == e.req.isActive && (!e.req.isActive ==> e.revoked))
    case _ => true
  }

  ghost predicate Inv(s: Sys) {
    RowsOk(s) && forall id :: id in s.execs ==> ExecOk(s.world, s.execs[id])
  }

  /** Rows keep their tenant and provider id; lost identities do not come back. */
  ghost predicate Evolves(w: World, w': World, issued: set<string>) {
    && (forall id :: id in w.rows ==>
          id in w'.rows && w'.rows[id].tenantId == w.rows[id].tenantId && w'.rows[id].providerId == w.rows[id].providerId)
    && w'.identities * issued <= w.identities
  }

  lemma ExecSurvives(w: World, w': World, issued: set<string>, e: Exec)
    requires ExecOk(w, e) && Evolves(w, w', issued)
    requires e.pc.SoftDelete? ==> e.pc.user.providerId in issued
    ensures ExecOk(w', e)
  {
  }

  lemma StepEvolves(w: World, e: Exec, call: Call, issued: set<string>)
    ensures Evolves(w, Step(w, e, call).0, issued)
  {
  }

  lemma StepExecOk(w: World, e: Exec, call: Call)
    requires ExecOk(w, e) && Rank(e.pc) > 0
    ensures ExecOk(Step(w, e, call).0, Step(w, e, call).1)
  {
  }

  lemma StepRowsOk(s: Sys, id: nat, call: Call)
    requires Inv(s) && id in s.execs && Rank(s.execs[id].pc) > 0
    ensures RowsOk(Apply(s, Advance(id, call)))
  {
    assert ExecOk(s.world, s.execs[id]);
  }

  lemma EventKeepsInv(s: Sys, e: Event)
    requires Inv(s) && Enabled(s, e)
    ensures Inv(Apply(s, e))
  {
    var t := Apply(s, e);
    if e.Advance? {
      StepRowsOk(s, e.id, e.call);
      StepEvolves(s.world, s.execs[e.id], e.call, s.everIssued);
    }
    forall id | id in t.execs ensures ExecOk(t.world, t.execs[id]) {
      if e.Advance? && e.id == id {
        StepExecOk(s.world, s.execs[id], e.call);
      } else if e.Begin? && e.id == id {
      } else {
        assert ExecOk(s.world, s.execs[id]);
        ExecSurvives(s.world, t.world, s.everIssued, s.execs[id]);
      }
    }
  }

  lemma {:induction false} RunKeepsInv(events: seq<Event>)
    requires Possible(events)
    ensures Inv(Run(events))
  {
    if events != [] {
      RunKeepsInv(events[..|events| - 1]);
      EventKeepsInv(Run(events[..|events| - 1]), events[|events| - 1]);
    }
  }

  // ---- main results ----

  /** In every interleaving, a soft-deleted user's identity is already gone from the provider. */
  lemma DeletedUserHasNoIdentity(events: seq<Event>, id: string)
    requires Possible(events) && id in Run(events).world.rows && Run(events).world.rows[id].deleted
    ensures Run(events).world.rows[id].providerId !in Run(events).world.identities
  {
    RunKeepsInv(events);
  }

  /**
    An identity disappears only in a deletion of its own user, after that execution
    has revoked the sessions, and no other live user has that identity.
  */
  lemma IdentityRemovedByOwnDeletion(events: seq<Event>, e: Event, p: string)
    requires Possible(events) && Enabled(Run(events), e)
    requires p in Run(events).world.identities && p !in Apply(Run(events), e).world.identities
    ensures var s := Run(events);
            && e.Advance? && e.id in s.execs && s.execs[e.id].req.Delete? && s.execs[e.id].revoked
            && var target := s.execs[e.id].req.userId;
               && target in s.world.rows && s.world.rows[target].providerId == p && !s.world.rows[target].deleted
               && forall id :: id in s.world.rows && !s.world.rows[id].deleted && s.world.rows[id].providerId == p ==> id == target
  {
    RunKeepsInv(events);
    var s := Run(events);
    assert e.Advance?;
    assert ExecOk(s.world, s.execs[e.id]);
  }

  /** The write of an execution that takes effect. */
  predicate Writes(s: Sys, e: Event) {
    && e.Advance? && e.id in s.execs && e.call != FailsBefore
    && (s.execs[e.id].pc.Save? || s.execs[e.id].pc.SoftDelete?)
  }

  /** The write back of an entity that was last set, or read, inactive. */
  predicate WritesInactive(s: Sys, e: Event, id: string) {
    Writes(s, e) && s.execs[e.id].pc.Save? && s.execs[e.id].req.userId == id && !s.execs[e.id].pc.user.isActive
  }

  /**
    An active user turns inactive exactly by such a write, and then it is that of a
    deactivation whose own revocation has completed, or of a profile update that writes
    back an entity it read as inactive.
  */
  lemma DeactivationComesAfterRevocation(events: seq<Event>, s: Sys, e: Event, id: string)
    requires Possible(events) && s == Run(events) && Enabled(s, e)
    requires id in s.world.rows && s.world.rows[id].isActive
    ensures id in Apply(s, e).world.rows
    ensures !Apply(s, e).world.rows[id].isActive <==> WritesInactive(s, e, id)
    ensures WritesInactive(s, e, id) ==>
              var x := s.execs[e.id]; x.req.Update? || (x.req.SetActive? && !x.req.isActive && x.revoked)
  {
    RunKeepsInv(events);
    if e.Advance? {
      assert ExecOk(s.world, s.execs[e.id]);
    }
  }

  /**
    The second case does happen: an update that read the user before a reactivation
    undoes it, and a session opened in between stays.
  */
  lemma StaleUpdateDeactivates(s: Sys, userId: string, tenantId: string, caller: string, a: nat, b: nat, handle: nat)
    requires Inv(s) && a != b && a !in s.execs && b !in s.execs
    requires var u := FindById(s.world.rows, userId, tenantId);
             u.Some? && !u.value.isActive && u.value.providerId in s.world.identities
    ensures var p := s.world.rows[userId].providerId;
            var e1 := Begin(a, Update(userId, tenantId, caller, Patch(Some("New"), None, None)));
            var e2 := Begin(b, SetActive(userId, tenantId, caller, true));
            var s1 := Apply(Apply(Apply(s, e1), Advance(a, Works)), e2);
            var s2 := Apply(Apply(Apply(s1, Advance(b, Works)), Advance(b, Works)), Advance(b, Works));
            var s3 := Apply(Apply(s2, Login(Session(p, handle))), Advance(a, Works));
            && Enabled(s, e1) && Enabled(Apply(s, e1), Advance(a, Works)) && Enabled(Apply(Apply(s, e1), Advance(a, Works)), e2)
            && Enabled(s1, Advance(b, Works)) && Enabled(Apply(s1, Advance(b, Works)), Advance(b, Works))
            && Enabled(Apply(Apply(s1, Advance(b, Works)), Advance(b, Works)), Advance(b, Works))
            && Enabled(s2, Login(Session(p, handle))) && Enabled(Apply(s2, Login(Session(p, handle))), Advance(a, Works))
            && s2.world.rows[userId].isActive && s2.execs[b].pc == Done
            && !s3.world.rows[userId].isActive && Session(p, handle) in s3.world.sessions
  {
  }

  /** One execution up to its write, with nothing in between: begun, found, counted. */
  function Admit(s: Sys, id: nat, req: Request): Sys {
    Apply(Apply(Apply(s, Begin(id, req)), Advance(id, Works)), Advance(id, Works))
  }

  function Demotion(userId: string, tenantId: string, caller: string): Request {
    Update(userId, tenantId, caller, Patch(None, None, Some(USER)))
  }

  lemma TwoAdmins(x: string, y: string)
    requires x != y
    ensures |{x, y}| == 2
  {
  }

  /** With two active admins the demotion of one is admitted: each step is enabled, and the write is next. */
  lemma DemotionIsAdmitted(s: Sys, id: nat, x: string, y: string, tenantId: string)
    requires x != y && id !in s.execs && ActiveAdmins(s.world.rows, tenantId) == {x, y}
    ensures var begun := Apply(s, Begin(id, Demotion(x, tenantId, y)));
            && Enabled(s, Begin(id, Demotion(x, tenantId, y)))
            && Enabled(begun, Advance(id, Works)) && Enabled(Apply(begun, Advance(id, Works)), Advance(id, Works))
    ensures Admit(s, id, Demotion(x, tenantId, y)) ==
            s.(execs := s.execs[id := Exec(Demotion(x, tenantId, y), Save(s.world.rows[x].(role := USER)), false)])
  {
    TwoAdmins(x, y);
    assert x in ActiveAdmins(s.world.rows, tenantId);
    var s1 := Apply(s, Begin(id, Demotion(x, tenantId, y)));
    assert s1.execs[id].pc == Find;
    var s2 := Apply(s1, Advance(id, Works));
    assert s2.execs[id].pc == Count(s.world.rows[x]);
  }

  /** The write of an admitted demotion. */
  lemma DemotionIsWritten(s: Sys, id: nat, x: string, y: string, tenantId: string, u: UserRow)
    requires id in s.execs && s.execs[id] == Exec(Demotion(x, tenantId, y), Save(u.(role := USER)), false)
    requires x in s.world.rows && s.world.rows[x] == u && u.tenantId == tenantId
    ensures Enabled(s, Advance(id, Works))
    ensures var t := Apply(s, Advance(id, Works));
            && t.world.rows == s.world.rows[x := u.(role := USER)]
            && forall other :: other != id && other in s.execs ==> other in t.execs && t.execs[other] == s.execs[other]
  {
  }

  /**
    The last-admin rule needs the use cases to be atomic: the only two active admins
    of a tenant demote each other, both counts see two, and none is left.
  */
  lemma ConcurrentDemotionsLeaveNoAdmin(s: Sys, x: string, y: string, tenantId: string, a: nat, b: nat)
    requires x != y && a != b && a !in s.execs && b !in s.execs && ActiveAdmins(s.world.rows, tenantId) == {x, y}
    ensures var both := Admit(Admit(s, a, Demotion(x, tenantId, y)), b, Demotion(y, tenantId, x));
            && Enabled(both, Advance(a, Works)) && Enabled(Apply(both, Advance(a, Works)), Advance(b, Works))
            && ActiveAdmins(Apply(Apply(both, Advance(a, Works)), Advance(b, Works)).world.rows, tenantId) == {}
  {
    var rows := s.world.rows;
    assert x in ActiveAdmins(rows, tenantId) && y in ActiveAdmins(rows, tenantId);
    DemotionIsAdmitted(s, a, x, y, tenantId);
    var one := Admit(s, a, Demotion(x, tenantId, y));
    DemotionIsAdmitted(one, b, y, x, tenantId);
    var both := Admit(one, b, Demotion(y, tenantId, x));
    DemotionIsWritten(both, a, x, y, tenantId, rows[x]);
    DemotionIsWritten(Apply(both, Advance(a, Works)), b, y, x, tenantId, rows[y]);
    BothDemoted(rows, x, y, tenantId);
  }

  lemma BothDemoted(rows: Rows, x: string, y: string, tenantId: string)
    requires x != y && ActiveAdmins(rows, tenantId) == {x, y} && x in rows && y in rows
    ensures ActiveAdmins(rows[x := rows[x].(role := USER)][y := rows[y].(role := USER)], tenantId) == {}
  {
    var end := rows[x := rows[x].(role := USER)][y := rows[y].(role := USER)];
    forall id | id in end ensures !IsActiveAdmin(end[id], tenantId) {
      assert id != x && id != y ==> end[id] == rows[id] && id !in ActiveAdmins(rows, tenantId);
    }
  }

  // ---- exactly when a tenant loses its last active admin ----

  /**
    The guard that would have to hold at the instant of the write: the target is the
    tenant's only active admin, and what is written does not leave it one. It also fits
    a profile update that never counted, because it read its target when it was no admin.
  */
  predicate TakesLastAdmin(s: Sys, e: Event, tenantId: string) {
    && Writes(s, e)
    && ActiveAdmins(s.world.rows, tenantId) == {s.execs[e.id].req.userId}
    && !(s.execs[e.id].pc.Save? && s.execs[e.id].pc.user.isActive && s.execs[e.id].pc.user.role == ADMIN)
  }

  /** A write changes its target only, which is an active admin afterwards exactly if the entity written back is one. */
  lemma WriteOnAdmins(w: World, x: Exec, call: Call, tenantId: string)
    requires ExecOk(w, x) && (x.pc.Save? || x.pc.SoftDelete?) && call != FailsBefore
    ensures var before, after := ActiveAdmins(w.rows, tenantId), ActiveAdmins(Step(w, x, call).0.rows, tenantId);
            && before - {x.req.userId} == after - {x.req.userId}
            && (x.req.userId in before ==>
                  (x.req.userId in after <==> x.pc.Save? && x.pc.user.isActive && x.pc.user.role == ADMIN))
  {
  }

  lemma OnlyOneGoes(before: set<string>, after: set<string>, x: string)
    requires before != {} && before - {x} == after - {x}
    ensures after == {} <==> before == {x} && x !in after
  {
    if after == {} {
      assert before - {x} == {};
      var y :| y in before;
      assert y == x by {
        assert y !in before - {x};
      }
      assert forall z :: z in before ==> z == x by {
        assert forall z :: z in before && z != x ==> z in before - {x};
      }
    }
    if before == {x} && x !in after {
      assert after == after - {x} == {};
    }
  }

  lemma OthersKeepAdmins(s: Sys, e: Event, tenantId: string)
    requires Enabled(s, e) && !Writes(s, e)
    ensures ActiveAdmins(s.world.rows, tenantId) <= ActiveAdmins(Apply(s, e).world.rows, tenantId)
  {
  }

  /** In any interleaving, one event takes a tenant's last active admin away exactly when its write meets that guard. */
  lemma LastAdminLostIff(s: Sys, e: Event, tenantId: string)
    requires Inv(s) && Enabled(s, e) && ActiveAdmins(s.world.rows, tenantId) != {}
    ensures ActiveAdmins(Apply(s, e).world.rows, tenantId) == {} <==> TakesLastAdmin(s, e, tenantId)
  {
    if Writes(s, e) {
      var x := s.execs[e.id];
      assert ExecOk(s.world, x);
      WriteOnAdmins(s.world, x, e.call, tenantId);
      OnlyOneGoes(ActiveAdmins(s.world.rows, tenantId), ActiveAdmins(Apply(s, e).world.rows, tenantId), x.req.userId);
    } else {
      OthersKeepAdmins(s, e, tenantId);
    }
  }

  lemma {:induction false} PrefixesPossible(events: seq<Event>, m: nat)
    requires Possible(events) && m <= |events|
    ensures Possible(events[..m])
    ensures m < |events| ==> Enabled(Run(events[..m]), events[m]) && Run(events[..m + 1]) == Apply(Run(events[..m]), events[m])
  {
    if m == |events| {
      assert events[..m] == events;
    } else {
      var front := events[..|events| - 1];
      assert front[..m] == events[..m] && events[..m + 1][..m] == events[..m];
      if m < |front| {
        PrefixesPossible(front, m);
      } else {
        assert front == events[..m] && events[..m + 1] == events;
      }
    }
  }

  ghost predicate HasAdmin(events: seq<Event>, m: nat, tenantId: string)
    requires m <= |events|
  {
    ActiveAdmins(Run(events[..m]).world.rows, tenantId) != {}
  }

  ghost predicate LosesAdmin(events: seq<Event>, m: nat, tenantId: string)
    requires m < |events|
  {
    TakesLastAdmin(Run(events[..m]), events[m], tenantId)
  }

  lemma AdminsStayThrough(events: seq<Event>, k: nat, tenantId: string)
    requires Possible(events) && k < |events| && HasAdmin(events, k, tenantId)
    ensures HasAdmin(events, k + 1, tenantId) <==> !LosesAdmin(events, k, tenantId)
  {
    var s := Run(events[..k]);
    PrefixesPossible(events, k);
    RunKeepsInv(events[..k]);
    LastAdminLostIff(s, events[k], tenantId);
  }

  lemma {:induction false} AdminsStayUntil(events: seq<Event>, from: nat, m: nat, tenantId: string)
    requires Possible(events) && from <= m <= |events| && HasAdmin(events, from, tenantId)
    requires forall k :: from <= k < m ==> !LosesAdmin(events, k, tenantId)
    ensures HasAdmin(events, m, tenantId)
  {
    if from < m {
      var k := m - 1;
      AdminsStayUntil(events, from, k, tenantId);
      assert !LosesAdmin(events, k, tenantId);
      AdminsStayThrough(events, k, tenantId);
      assert k + 1 == m;
    }
  }

  /**
    Over a whole interleaved run: a tenant that has an active admin at one point has one
    at every later point exactly when no write in between meets the guard.
  */
  lemma LastAdminStaysIff(events: seq<Event>, from: nat, tenantId: string)
    requires Possible(events) && from <= |events| && HasAdmin(events, from, tenantId)
    ensures (forall m :: from <= m <= |events| ==> HasAdmin(events, m, tenantId)) <==>
            (forall m :: from <= m < |events| ==> !LosesAdmin(events, m, tenantId))
  {
    if forall m :: from <= m < |events| ==> !LosesAdmin(events, m, tenantId) {
      forall m | from <= m <= |events| ensures HasAdmin(events, m, tenantId) {
        AdminsStayUntil(events, from, m, tenantId);
      }
    } else {
      var m :| from <= m < |events| && LosesAdmin(events, m, tenantId);
      if HasAdmin(events, m, tenantId) {
        AdminsStayThrough(events, m, tenantId);
        assert !HasAdmin(events, m + 1, tenantId);
      }
    }
  }
}
