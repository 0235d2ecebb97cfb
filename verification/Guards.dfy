/** The guard chain in front of the class routes: src/common/guards/roles.guard.ts, then
    src/common/guards/class-tenant.guard.ts. */
module Guards {
  import opened Basics
  import opened Tables
  import opened Entities
  import opened Machine
  import opened Access
  import opened Serving

  datatype UserRole = SuperAdmin | Leader | Servant | MemberRole

  datatype RolesVerdict = Allowed | NoUser | WrongRole(role: UserRole)

  /** Lower-casing as far as it can matter: no character outside A-Z lowers to a letter of a role name alone. */
  function Lower(s: string): (r: string)
    ensures |r| == |s|
  {
    seq(|s|, i requires 0 <= i < |s| => if 'A' <= s[i] <= 'Z' then s[i] - 'A' + 'a' else s[i])
  }

  function NormaliseRole(raw: Option<string>): UserRole {
    var r := Lower(Or(raw, ""));
    if r == "super_admin" then SuperAdmin
    else if r == "leader" then Leader
    else if r == "servant" then Servant
    else MemberRole
  }

  /** Lower-casing, letter by letter. */
  lemma LowerLetters(s: string, i: nat)
    requires i < |s|
    ensures var capitals, small := "ABCDEFGHIJKLMNOPQRSTUVWXYZ", "abcdefghijklmnopqrstuvwxyz";
            && (forall k | 0 <= k < 26 :: s[i] == capitals[k] ==> Lower(s)[i] == small[k])
            && (s[i] !in capitals ==> Lower(s)[i] == s[i])
  {
    var capitals, small := "ABCDEFGHIJKLMNOPQRSTUVWXYZ", "abcdefghijklmnopqrstuvwxyz";
    forall k | 0 <= k < 26 ensures capitals[k] == 'A' + k as char && small[k] == 'a' + k as char {
      Letter(k);
    }
    if 'A' <= s[i] <= 'Z' {
      var k := s[i] as int - 'A' as int;
      assert s[i] == 'A' + k as char;
      assert s[i] == capitals[k];
    }
  }

  lemma Letter(k: nat)
    requires k < 26
    ensures "ABCDEFGHIJKLMNOPQRSTUVWXYZ"[k] == 'A' + k as char
    ensures "abcdefghijklmnopqrstuvwxyz"[k] == 'a' + k as char
  {
  }

  /** The four roles by their spellings; everything else, and no role at all, is the lowest. */
  lemma RoleSpellings(raw: Option<string>)
    ensures NormaliseRole(raw) == SuperAdmin <==> raw.Some? && Lower(raw.value) == "super_admin"
    ensures NormaliseRole(raw) == Leader <==> raw.Some? && Lower(raw.value) == "leader"
    ensures NormaliseRole(raw) == Servant <==> raw.Some? && Lower(raw.value) == "servant"
    ensures NormaliseRole(raw) == MemberRole <==>
              raw.None? || (Lower(raw.value) != "super_admin" && Lower(raw.value) != "leader" && Lower(raw.value) != "servant")
  {
    assert "super_admin"[0] != "leader"[0] && |"super_admin"| != |"servant"| && "leader"[0] != "servant"[0];
  }

  lemma StoredRoles()
    ensures NormaliseRole(Some("SUPER_ADMIN")) == NormaliseRole(Some("super_admin")) == SuperAdmin
    ensures NormaliseRole(Some("LEADER")) == NormaliseRole(Some("leader")) == Leader
    ensures NormaliseRole(Some("SERVANT")) == NormaliseRole(Some("servant")) == Servant
    ensures NormaliseRole(Some("MEMBER")) == NormaliseRole(Some("member")) == NormaliseRole(None) == MemberRole
  {
    assert Lower("SUPER_ADMIN") == Lower("super_admin") == "super_admin";
    assert Lower("LEADER") == Lower("leader") == "leader";
    assert Lower("SERVANT") == Lower("servant") == "servant";
    assert Lower("MEMBER") == Lower("member") == "member";
    assert "member"[0] != "super_admin"[0] && "member"[0] != "leader"[0] && "member"[0] != "servant"[0];
    RoleSpellings(Some("LEADER"));
    RoleSpellings(Some("SERVANT"));
    RoleSpellings(Some("MEMBER"));
    RoleSpellings(Some("SUPER_ADMIN"));
    RoleSpellings(None);
  }

  /** A user object counts only with a non-empty id. */
  predicate IsSomebody(user: Option<AuthUser>) {
    user.Some? && user.value.id != ""
  }

  /** RolesGuard: `attached` is `req.user`, `session` what the fallback lookup would return. */
  function RolesDecision(required: seq<UserRole>, attached: Option<AuthUser>, session: Option<AuthUser>): RolesVerdict {
    if required == [] then Allowed
    else
      var user := if IsSomebody(attached) then attached else session;
      if !IsSomebody(user) then NoUser
      else if NormaliseRole(user.value.role) in required then Allowed
      else WrongRole(NormaliseRole(user.value.role))
  }

  /** Lower-casing changes A to Z one by one and nothing else, so it is idempotent and unknown roles rank lowest. */
  lemma LowerIdempotent(s: string)
    ensures Lower(Lower(s)) == Lower(s)
  {
  }

  lemma RoleCaseIgnored(raw: string)
    ensures NormaliseRole(Some(Lower(raw))) == NormaliseRole(Some(raw))
    ensures NormaliseRole(Some(raw)) == SuperAdmin <==> Lower(raw) == "super_admin"
  {
    LowerIdempotent(raw);
  }

  function WithRole(user: Option<AuthUser>, role: string): Option<AuthUser> {
    match user case Some(u) => Some(u.(role := Some(role))) case None => None
  }

  /** RolesGuard lets through exactly who may pass: the attached user if identified, otherwise the user of the
      session; an identified user makes the session irrelevant, requiring more roles shuts nobody out, and the
      spelling of a role in upper or lower case does not matter. */
  ghost predicate RolesPromise(
    required: seq<UserRole>, attached: Option<AuthUser>, session: Option<AuthUser>, r: RolesVerdict)
  {
    var here := attached.Some? && attached.value.id != "";
    var inSession := session.Some? && session.value.id != "";
    && (required == [] ==> r == Allowed)
    && (required != [] && here ==>
          var role := NormaliseRole(attached.value.role);
          r == if role in required then Allowed else WrongRole(role))
    && (required != [] && !here && inSession ==>
          var role := NormaliseRole(session.value.role);
          r == if role in required then Allowed else WrongRole(role))
    && (required != [] && !here && !inSession ==> r == NoUser)
    && (required != [] && r == Allowed ==>
          forall more :: RolesDecision(required + more, attached, session) == Allowed)
    && (attached.Some? && attached.value.role.Some? ==>
          RolesDecision(required, WithRole(attached, Lower(attached.value.role.value)), session) == r)
  }

  lemma RolesKeepPromise(required: seq<UserRole>, attached: Option<AuthUser>, session: Option<AuthUser>)
    ensures RolesPromise(required, attached, session, RolesDecision(required, attached, session))
  {
    if attached.Some? && attached.value.role.Some? {
      RoleCaseIgnored(attached.value.role.value);
    }
  }

  /** The tenant guard's answers on a store at rest, each with its exact condition. The role `SUPER_ADMIN`, spelled just
      so, enters every class the header names; everybody else needs the class to exist and access to it. */
  ghost predicate TenantPromise(db: Db, user: Option<AuthUser>, header: Option<string>, r: Outcome) {
    && (user.None? ==> r == Threw(Unauthorized))
    && (user.Some? && HeaderClass(header).None? ==> r == Threw(Forbidden(MissingHeader)))
    && (user.Some? && HeaderClass(header).Some? ==>
          var c := HeaderClass(header).value;
          var leads := c in db.classes && db.classes[c].leaderId == user.value.id;
          var mapped := Mapping(user.value.id, c) in db.servants;
          && (user.value.role == Some("SUPER_ADMIN") ==> r == Admitted(c))
          && (user.value.role != Some("SUPER_ADMIN") ==>
                && (c !in db.classes ==> r == Threw(Forbidden(NoSuchClass)))
                && (c in db.classes && (leads || mapped) ==> r == Admitted(c))
                && (c in db.classes && !leads && !mapped ==> r == Threw(Forbidden(NoAccess)))))
  }

  lemma TenantKeepsPromise(db: Db, user: Option<AuthUser>, header: Option<string>)
    ensures TenantPromise(db, user, header, TenantDecision(db, user, header))
  {
  }

  /** The same bypass among running calls: a request with the role `SUPER_ADMIN` is admitted at its first step,
      whatever the tables hold. */
  lemma LiteralRoleEnters(db: Db, c: Call, e: Event, id: Id, header: Option<string>, classId: Id)
    requires e.Turn? && c == NewCall(Enter(Some(AuthUser(id, Some("SUPER_ADMIN"))), header))
    requires HeaderClass(header) == Some(classId)
    ensures TurnOf(db, c, e) == (db, c.(phase := Finished(Admitted(classId))))
  {
  }

  /** A request with any other role is answered by the tables at its reads (GuardDecidesByItsReads), and if the rows it
      reads stay as they are, is admitted exactly with access. */
  lemma OtherRolesNeedAccess(
    s: State, es: seq<Event>, k: nat, id: Id, role: Option<string>, header: Option<string>, classId: Id)
    requires k < |s.calls| && s.calls[k] == NewCall(Enter(Some(AuthUser(id, role)), header))
    requires role != Some("SUPER_ADMIN") && HeaderClass(header) == Some(classId)
    requires forall t | 0 <= t <= |es| :: FootingIn(Run(s, es[..t]).db, id, classId) == FootingIn(s.db, id, classId)
    requires Run(s, es).calls[k].phase.Finished?
    ensures Run(s, es).calls[k].phase.outcome == Admitted(classId) <==> HasAccess(s.db, id, classId)
  {
    FrozenGuardIsExact(s, es, k, id, classId);
  }

  /** Both guards in order, with the store at rest: the class the request may act in. `session` is what the
      fallback of RolesGuard finds; it is never attached to the request. */
  ghost predicate ChainAdmits(
    db: Db, required: seq<UserRole>, attached: Option<AuthUser>, session: Option<AuthUser>, header: Option<string>, classId: Id)
  {
    && RolesDecision(required, attached, session) == Allowed
    && TenantDecision(db, attached, header) == Admitted(classId)
  }

  /** With a user attached, the chain admits exactly when the normalised role is in the required set, the header
      names the class, and either the raw role is literally `SUPER_ADMIN` or the user leads or is mapped to the
      existing class. */
  lemma ChainExactly(
    db: Db, required: seq<UserRole>, user: AuthUser, session: Option<AuthUser>, header: Option<string>, classId: Id)
    requires user.id != ""
    ensures ChainAdmits(db, required, Some(user), session, header, classId) <==>
              && (required == [] || NormaliseRole(user.role) in required)
              && HeaderClass(header) == Some(classId)
              && (user.role == Some("SUPER_ADMIN") || HasAccess(db, user.id, classId))
  {
  }

  /** The session fallback lets a request through RolesGuard but never through the chain: the tenant guard finds
      no attached user and refuses. */
  lemma FallbackStopsAtTenantGuard(
    db: Db, required: seq<UserRole>, session: AuthUser, header: Option<string>, classId: Id)
    requires session.id != "" && NormaliseRole(session.role) in required
    ensures RolesDecision(required, None, Some(session)) == Allowed
    ensures TenantDecision(db, None, header) == Threw(Unauthorized)
    ensures !ChainAdmits(db, required, None, Some(session), header, classId)
  {
  }

  /** The two guards read roles differently. A user whose stored role is a super-admin spelling other than
      `SUPER_ADMIN`, like the `super_admin` the script writes, passes RolesGuard as super admin and still gets
      into a class only as its leader or a mapped servant. */
  lemma OtherSpellingsDoNotBypass(db: Db, user: AuthUser, header: Option<string>, classId: Id)
    requires user.id != "" && NormaliseRole(user.role) == SuperAdmin && HeaderClass(header) == Some(classId)
    ensures RolesDecision([SuperAdmin], Some(user), None) == Allowed
    ensures (forall anyDb :: TenantDecision(anyDb, Some(user), header) == Admitted(classId)) <==> user.role == Some("SUPER_ADMIN")
    ensures user.role != Some("SUPER_ADMIN") ==>
              (ChainAdmits(db, [SuperAdmin], Some(user), None, header, classId) <==> HasAccess(db, user.id, classId))
  {
    if user.role != Some(SUPER_ADMIN) {
      var bare := Db(true, {}, map[], map[], {}, {});
      assert TenantDecision(bare, Some(user), header) != Admitted(classId);
    }
  }

  lemma ScriptRoleIsSuperAdmin()
    ensures NormaliseRole(Some("super_admin")) == SuperAdmin && "super_admin" != "SUPER_ADMIN"
  {
    assert Lower("super_admin") == "super_admin";
    assert "super_admin"[0] != "SUPER_ADMIN"[0];
  }

  /** A super admin made by the script passes RolesGuard everywhere a super admin may, and still gets into a class only
      as its leader or a mapped servant. */
  lemma ScriptAdminNeedsAccess(db: Db, id: Id, header: Option<string>, classId: Id)
    requires id != "" && HeaderClass(header) == Some(classId)
    ensures var user := AuthUser(id, Some("super_admin"));
            && RolesDecision([SuperAdmin], Some(user), None) == Allowed
            && (ChainAdmits(db, [SuperAdmin], Some(user), None, header, classId) <==> HasAccess(db, id, classId))
  {
    ScriptRoleIsSuperAdmin();
    OtherSpellingsDoNotBypass(db, AuthUser(id, Some("super_admin")), header, classId);
  }

  lemma AssignTouches(db: Db, classId: Id, userIds: seq<Id>, userId: Id, other: Id)
    requires other != classId
    ensures HasAccess(ServeAssign(db, classId, userIds).0, userId, other) == HasAccess(db, userId, other)
  {
    AskedMembers(classId, userIds);
  }

  /** A service call changes tenant access for no class but the one it names. */
  lemma CallChangesOneClass(db: Db, req: Request, ids: seq<Id>, now: nat, userId: Id, classId: Id)
    requires |ids| == IdsFor(req) && !Names(req, Turn(0, 0, ids, now), classId)
    ensures HasAccess(Serve(db, req, ids, now).0, userId, classId) == HasAccess(db, userId, classId)
  {
    match req
    case Assign(c, userIds) => AssignTouches(db, c, userIds, userId, classId);
    case Unassign(c, u) => WriteTouches(db, DeleteServant(Mapping(u, c)), userId, classId);
    case CreateClass(name, level, leaderId) =>
      WriteTouches(db, InsertClass(ids[0], ClassRow(name, level, leaderId, now)), userId, classId);
    case ChangeClass(c, patch) => WriteTouches(db, UpdateClass(c, patch), userId, classId);
    case RemoveClass(c) => WriteTouches(db, DeleteClass(c), userId, classId);
    case _ => MemberCallTouchesNothing(db, req, ids, now);
  }

  lemma MemberCallTouchesNothing(db: Db, req: Request, ids: seq<Id>, now: nat)
    requires |ids| == IdsFor(req)
    requires req.AddOne? || req.AddBulk? || req.ChangeMember? || req.SetActive? || req.Enter?
    ensures Serve(db, req, ids, now).0.classes == db.classes && Serve(db, req, ids, now).0.servants == db.servants
  {
  }
}
