/**
  What revoking sessions achieves when logins interleave with deactivations and
  deletions, and runs from the empty system that reach the failing cases.
*/
module UserSessions {
  import opened Options
  import opened Users
  import opened UserProtocol

  /** Some session of this identity is open. */
  predicate Open(s: Sys, p: string) {
    exists x :: x in s.world.sessions && x.providerId == p
  }

  predicate LogsIn(e: Event, p: string) {
    e.Login? && e.session.providerId == p
  }

  /** A revocation of this identity's sessions that takes effect. */
  predicate Revokes(s: Sys, e: Event, p: string) {
    && e.Advance? && e.id in s.execs && e.call != FailsBefore
    && s.execs[e.id].pc.Revoke? && s.execs[e.id].pc.user.providerId == p
  }

  lemma OpenStep(s: Sys, e: Event, p: string)
    ensures Open(Apply(s, e), p) <==> LogsIn(e, p) || (Open(s, p) && !Revokes(s, e, p))
  {
    var t := Apply(s, e);
    if LogsIn(e, p) {
      assert e.session in t.world.sessions;
    } else if Open(s, p) && !Revokes(s, e, p) {
      var x :| x in s.world.sessions && x.providerId == p;
      assert x in t.world.sessions;
    }
  }

  ghost predicate OpenAt(events: seq<Event>, m: int, p: string)
    requires 0 <= m <= |events|
  {
    Open(Run(events[..m]), p)
  }

  ghost predicate RevokesAt(events: seq<Event>, j: int, p: string)
    requires 0 <= j < |events|
  {
    Revokes(Run(events[..j]), events[j], p)
  }

  /** The login at `k` has met no effective revocation before `m`. */
  ghost predicate LoginStands(events: seq<Event>, k: int, m: int, p: string) {
    && 0 <= k < m <= |events| && LogsIn(events[k], p)
    && forall j :: k < j < m ==> !RevokesAt(events, j, p)
  }

  ghost predicate Unrevoked(events: seq<Event>, from: int, m: int, p: string)
    requires 0 <= from <= m <= |events|
  {
    forall j :: from <= j < m ==> !RevokesAt(events, j, p)
  }

  lemma OpenNext(events: seq<Event>, m: nat, p: string)
    requires Possible(events) && m < |events|
    ensures OpenAt(events, m + 1, p) <==> LogsIn(events[m], p) || (OpenAt(events, m, p) && !RevokesAt(events, m, p))
  {
    PrefixesPossible(events, m);
    OpenStep(Run(events[..m]), events[m], p);
  }

  ghost predicate SomeLoginStands(events: seq<Event>, from: int, m: int, p: string) {
    exists k :: from <= k && LoginStands(events, k, m, p)
  }

  lemma StandsNext(events: seq<Event>, from: nat, m: nat, p: string)
    requires from <= m < |events|
    ensures SomeLoginStands(events, from, m + 1, p) <==>
            LogsIn(events[m], p) || (SomeLoginStands(events, from, m, p) && !RevokesAt(events, m, p))
  {
    if LogsIn(events[m], p) {
      assert LoginStands(events, m, m + 1, p);
    }
    if SomeLoginStands(events, from, m, p) && !RevokesAt(events, m, p) {
      var k :| from <= k && LoginStands(events, k, m, p);
      assert LoginStands(events, k, m + 1, p);
    }
    if SomeLoginStands(events, from, m + 1, p) {
      var k :| from <= k && LoginStands(events, k, m + 1, p);
      if k < m {
        assert LoginStands(events, k, m, p);
      }
    }
  }

  lemma UnrevokedNext(events: seq<Event>, from: nat, m: nat, p: string)
    requires from <= m < |events|
    ensures Unrevoked(events, from, m + 1, p) <==> Unrevoked(events, from, m, p) && !RevokesAt(events, m, p)
  {
  }

  /**
    Exactly when an identity has an open session, in any interleaving: some login since
    has met no effective revocation, or there was a session before and none was effective.
  */
  lemma {:induction false} OpenIff(events: seq<Event>, from: nat, m: nat, p: string)
    requires Possible(events) && from <= m <= |events|
    ensures OpenAt(events, m, p) <==> SomeLoginStands(events, from, m, p) || (OpenAt(events, from, p) && Unrevoked(events, from, m, p))
  {
    if from < m {
      var k := m - 1;
      OpenIff(events, from, k, p);
      OpenNext(events, k, p);
      StandsNext(events, from, k, p);
      UnrevokedNext(events, from, k, p);
      assert k + 1 == m;
    }
  }

  // ---- since an execution's own revocation ----

  /** Event `k` is the completed revocation of execution `id`, for identity `p`. */
  ghost predicate RevokedBy(events: seq<Event>, k: int, id: nat, p: string) {
    && 0 <= k < |events| && events[k] == Advance(id, Works) && RevokesAt(events, k, p)
  }

  lemma EventKeepsProviders(s: Sys, e: Event, user: string)
    requires Inv(s) && Enabled(s, e) && user in s.world.rows
    ensures user in Apply(s, e).world.rows && Apply(s, e).world.rows[user].providerId == s.world.rows[user].providerId
  {
  }

  lemma RevokedPrefix(events: seq<Event>, e: Event, k: int, id: nat, p: string)
    requires RevokedBy(events, k, id, p)
    ensures RevokedBy(events + [e], k, id, p)
  {
    assert (events + [e])[..k] == events[..k];
  }

  /** An execution marked as revoked has its revocation in the run, for the identity its target's row names. */
  lemma {:induction false} OwnRevocation(events: seq<Event>, id: nat) returns (k: nat)
    requires Possible(events) && id in Run(events).execs && Run(events).execs[id].revoked
    ensures var s := Run(events);
            && s.execs[id].req.userId in s.world.rows
            && RevokedBy(events, k, id, s.world.rows[s.execs[id].req.userId].providerId)
  {
    var front, e := events[..|events| - 1], events[|events| - 1];
    var s := Run(front);
    assert events == front + [e];
    RunKeepsInv(front);
    if e.Advance? && e.id == id && s.execs[id].pc.Revoke? {
      assert ExecOk(s.world, s.execs[id]);
      k := |front|;
    } else {
      k := OwnRevocation(front, id);
      var user := s.execs[id].req.userId;
      EventKeepsProviders(s, e, user);
      RevokedPrefix(front, e, k, id, s.world.rows[user].providerId);
    }
  }

  /**
    The write of a deactivation or the soft delete of a deletion: its revocation has
    completed earlier in the run, and when it writes a session of its target is open if
    and only if some login after that revocation has met no other one.
  */
  lemma SessionsAtTheWrite(events: seq<Event>, s: Sys, e: Event) returns (k: nat)
    requires Possible(events) && s == Run(events) && Enabled(s, e) && Writes(s, e) && s.execs[e.id].revoked
    ensures s.execs[e.id].req.userId in s.world.rows
    ensures var p := s.world.rows[s.execs[e.id].req.userId].providerId;
            && RevokedBy(events, k, e.id, p)
            && (Open(Apply(s, e), p) <==> SomeLoginStands(events, k + 1, |events|, p))
  {
    k := OwnRevocation(events, e.id);
    var p := s.world.rows[s.execs[e.id].req.userId].providerId;
    OpenNext(events, k, p);
    OpenIff(events, k + 1, |events|, p);
    assert events[..|events|] == events;
    OpenStep(s, e, p);
  }

  /** It is so for every deletion, and for every deactivation by its own use case. */
  lemma TheseWritesHaveRevoked(events: seq<Event>, s: Sys, e: Event)
    requires Possible(events) && s == Run(events) && Enabled(s, e) && Writes(s, e)
    requires var x := s.execs[e.id]; x.req.Delete? || (x.req.SetActive? && !x.req.isActive)
    ensures s.execs[e.id].revoked
  {
    RunKeepsInv(events);
    assert ExecOk(s.world, s.execs[e.id]);
  }

  // ---- runs from the empty system ----

  lemma Next(events: seq<Event>, s: Sys, e: Event) returns (more: seq<Event>, t: Sys)
    requires Possible(events) && s == Run(events) && Enabled(s, e)
    ensures more == events + [e] && Possible(more) && t == Run(more) && t == Apply(s, e)
  {
    more, t := events + [e], Apply(s, e);
    assert more[..|more| - 1] == events;
  }

  function Row(p: string, role: Role, active: bool): UserRow {
    UserRow("t", p, "N", p, None, role, active, false)
  }

  function Account(id: string, p: string, role: Role): NewUser {
    NewUser(id, p, "N", p, None, role)
  }

  /** Someone signs up and is registered. */
  lemma Joined(before: seq<Event>, s: Sys, id: string, p: string, role: Role) returns (events: seq<Event>, t: Sys)
    requires Possible(before) && s == Run(before) && p !in s.everIssued && id !in s.world.rows
    requires !EmailTaken(s.world.rows, p, "t") && !ProviderTaken(s.world.rows, p)
    ensures events == before + [SignUp(p)] + [Register("t", Account(id, p, role), Works, Works)]
    ensures Possible(events) && t == Run(events) && t.execs == s.execs && t.everIssued == s.everIssued + {p}
    ensures t.world == World(s.world.rows[id := Row(p, role, true)], s.world.identities + {p}, s.world.sessions)
  {
    events, t := Next(before, s, SignUp(p));
    events, t := Next(events, t, Register("t", Account(id, p, role), Works, Works));
  }

  /** A deletion or deactivation of the one user, up to its completed revocation, and a login just after. */
  lemma LoginAfterRevocation(req: Request, handle: nat) returns (events: seq<Event>, s: Sys)
    requires req.userId == "u" && req.tenantId == "t" && req.caller != "u"
    requires req.Delete? || (req.SetActive? && !req.isActive)
    ensures events == [] + [SignUp("p")] + [Register("t", Account("u", "p", USER), Works, Works)]
                      + [Begin(0, req)] + [Advance(0, Works)] + [Advance(0, Works)] + [Login(Session("p", handle))]
    ensures Possible(events) && s == Run(events)
    ensures s.world == World(map["u" := Row("p", USER, true)], {"p"}, {Session("p", handle)})
    ensures 0 in s.execs && s.execs[0] == Exec(req, AfterRevoke(req, Row("p", USER, true)), true)
  {
    events, s := Joined([], START, "u", "p", USER);
    events, s := Next(events, s, Begin(0, req));
    assert s.execs[0] == Exec(req, Find, false);
    events, s := Next(events, s, Advance(0, Works));
    assert s.execs[0] == Exec(req, Revoke(Row("p", USER, true)), false);
    events, s := Next(events, s, Advance(0, Works));
    events, s := Next(events, s, Login(Session("p", handle)));
  }

  /** A deactivation that does everything right leaves a session open. */
  lemma DeactivatedWithSession(handle: nat) returns (events: seq<Event>, s: Sys)
    ensures events == [] + [SignUp("p")] + [Register("t", Account("u", "p", USER), Works, Works)]
                      + [Begin(0, SetActive("u", "t", "admin", false))] + [Advance(0, Works)] + [Advance(0, Works)]
                      + [Login(Session("p", handle))] + [Advance(0, Works)] + [Advance(0, Works)]
    ensures Possible(events) && s == Run(events) && 0 in s.execs && s.execs[0].pc == Done
    ensures "u" in s.world.rows && !s.world.rows["u"].isActive && Session("p", handle) in s.world.sessions && "p" in s.world.identities
  {
    events, s := LoginAfterRevocation(SetActive("u", "t", "admin", false), handle);
    events, s := Next(events, s, Advance(0, Works));
    assert s.execs[0].pc == Reload && s.world.rows == map["u" := Row("p", USER, false)];
    events, s := Next(events, s, Advance(0, Works));
  }

  /** So does a deletion, as far as the provider does not end sessions with the identity. */
  lemma DeletedWithSession(handle: nat) returns (events: seq<Event>, s: Sys)
    ensures events == [] + [SignUp("p")] + [Register("t", Account("u", "p", USER), Works, Works)]
                      + [Begin(0, Delete("u", "t", "admin"))] + [Advance(0, Works)] + [Advance(0, Works)]
                      + [Login(Session("p", handle))] + [Advance(0, Works)] + [Advance(0, Works)]
    ensures Possible(events) && s == Run(events) && 0 in s.execs && s.execs[0].pc == Done
    ensures "u" in s.world.rows && s.world.rows["u"].deleted && "p" !in s.world.identities && Session("p", handle) in s.world.sessions
  {
    events, s := LoginAfterRevocation(Delete("u", "t", "admin"), handle);
    events, s := Next(events, s, Advance(0, Works));
    assert s.execs[0].pc == SoftDelete(Row("p", USER, true));
    events, s := Next(events, s, Advance(0, Works));
  }

  function Deactivation(): Request {
    SetActive("u", "t", "admin", false)
  }

  lemma DeactivationBegun() returns (events: seq<Event>, s: Sys)
    ensures Possible(events) && s == Run(events) && s.world == World(map["u" := Row("p", USER, true)], {"p"}, {})
    ensures s.execs == map[0 := Exec(Deactivation(), Revoke(Row("p", USER, true)), false)]
  {
    events, s := Joined([], START, "u", "p", USER);
    events, s := Next(events, s, Begin(0, Deactivation()));
    assert s.execs == map[0 := Exec(Deactivation(), Find, false)];
    events, s := Next(events, s, Advance(0, Works));
  }

  /** An inactive user, deactivated without any login in between, is reached. */
  lemma InactiveUserReached() returns (events: seq<Event>, s: Sys)
    ensures Possible(events) && s == Run(events) && 1 !in s.execs && 2 !in s.execs
    ensures s.world == World(map["u" := Row("p", USER, false)], {"p"}, {})
  {
    events, s := DeactivationBegun();
    events, s := Next(events, s, Advance(0, Works));
    assert s.execs == map[0 := Exec(Deactivation(), Save(Row("p", USER, false)), true)] && s.world.sessions == {};
    events, s := Next(events, s, Advance(0, Works));
  }

  function Renamed(): Request {
    Update("u", "t", "admin", Patch(Some("New"), None, None))
  }

  /** A profile update reads the inactive user and is about to write. */
  lemma StaleRead() returns (events: seq<Event>, s: Sys)
    ensures Possible(events) && s == Run(events) && 2 !in s.execs
    ensures s.world == World(map["u" := Row("p", USER, false)], {"p"}, {})
    ensures 1 in s.execs && s.execs[1] == Exec(Renamed(), Save(Row("p", USER, false).(name := "New")), false)
  {
    events, s := InactiveUserReached();
    events, s := Next(events, s, Begin(1, Renamed()));
    assert s.execs[1] == Exec(Renamed(), Find, false);
    events, s := Next(events, s, Advance(1, Works));
  }

  /** Meanwhile the user is activated again. */
  lemma Reactivated() returns (events: seq<Event>, s: Sys)
    ensures Possible(events) && s == Run(events)
    ensures s.world == World(map["u" := Row("p", USER, true)], {"p"}, {})
    ensures 1 in s.execs && s.execs[1] == Exec(Renamed(), Save(Row("p", USER, false).(name := "New")), false)
  {
    events, s := StaleRead();
    events, s := Next(events, s, Begin(2, SetActive("u", "t", "admin", true)));
    assert s.execs[2] == Exec(SetActive("u", "t", "admin", true), Find, false);
    events, s := Next(events, s, Advance(2, Works));
    assert s.execs[2] == Exec(SetActive("u", "t", "admin", true), Save(Row("p", USER, true)), false);
    assert s.world == World(map["u" := Row("p", USER, false)], {"p"}, {});
    events, s := Next(events, s, Advance(2, Works));
  }

  /** The update undoes it after a login: an inactive user with a session and no deactivation since. */
  lemma StaleUpdateReached(handle: nat) returns (events: seq<Event>, s: Sys)
    ensures Possible(events) && s == Run(events)
    ensures "u" in s.world.rows && !s.world.rows["u"].isActive && Session("p", handle) in s.world.sessions
  {
    events, s := Reactivated();
    events, s := Next(events, s, Login(Session("p", handle)));
    events, s := Next(events, s, Advance(1, Works));
  }

  lemma TwoAdminsReached() returns (events: seq<Event>, s: Sys)
    ensures Possible(events) && s == Run(events) && s.execs == map[]
    ensures ActiveAdmins(s.world.rows, "t") == {"x", "y"}
  {
    events, s := Joined([], START, "x", "p", ADMIN);
    events, s := Joined(events, s, "y", "q", ADMIN);
  }

  /** A demotion begins and is admitted, as events of a run. */
  lemma AdmittedNext(before: seq<Event>, s: Sys, id: nat, x: string, y: string) returns (events: seq<Event>, t: Sys)
    requires Possible(before) && s == Run(before)
    requires x != y && id !in s.execs && ActiveAdmins(s.world.rows, "t") == {x, y}
    ensures before <= events && Possible(events) && t == Run(events) && t == Admit(s, id, Demotion(x, "t", y))
  {
    DemotionIsAdmitted(s, id, x, y, "t");
    events, t := Next(before, s, Begin(id, Demotion(x, "t", y)));
    events, t := Next(events, t, Advance(id, Works));
    events, t := Next(events, t, Advance(id, Works));
  }

  lemma BothAdmitted() returns (events: seq<Event>, from: nat, s: Sys, both: Sys)
    ensures from <= |events| && Possible(events[..from]) && s == Run(events[..from])
    ensures s.execs == map[] && ActiveAdmins(s.world.rows, "t") == {"x", "y"}
    ensures Possible(events) && both == Run(events)
    ensures both == Admit(Admit(s, 0, Demotion("x", "t", "y")), 1, Demotion("y", "t", "x"))
  {
    var first, one;
    first, s := TwoAdminsReached();
    from := |first|;
    DemotionIsAdmitted(s, 0, "x", "y", "t");
    events, one := AdmittedNext(first, s, 0, "x", "y");
    events, both := AdmittedNext(events, one, 1, "y", "x");
    assert events[..from] == first;
  }

  /** A tenant of two admins is reached, and after the two demotions it has none. */
  lemma NoAdminReached() returns (events: seq<Event>, from: nat, s: Sys)
    ensures Possible(events) && from <= |events| && s == Run(events)
    ensures HasAdmin(events, from, "t") && !HasAdmin(events, |events|, "t")
  {
    var two, both;
    events, from, two, both := BothAdmitted();
    var before := events;
    ConcurrentDemotionsLeaveNoAdmin(two, "x", "y", "t", 0, 1);
    events, s := Next(events, both, Advance(0, Works));
    events, s := Next(events, s, Advance(1, Works));
    assert events[..from] == before[..from] && events[..|events|] == events;
  }
}
