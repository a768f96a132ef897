/** The two gates in front of the protected routes. `authMiddleware` reads
    the bearer token, has the token library verify it and looks the admin
    up; `superAdminMiddleware` lets only super-admins through. The token
    library is a parameter `verify`, a partial function from token to the
    admin id it was signed for (`None` where `jwt.verify` throws). */
module AuthMiddleware {
  import opened Wrappers
  import opened Text
  import opened ObjectIds

  /** A stored admin account. */
  datatype Admin = Admin(id: AdminId, username: string, email: string, password: string, role: string)

  /** An admin as `select('-password')` returns it: every field but the
      password. */
  datatype AdminView = AdminView(id: AdminId, username: string, email: string, role: string)

  function WithoutPassword(a: Admin): (v: AdminView)
    ensures v.id == a.id && v.username == a.username && v.email == a.email && v.role == a.role
  {
    AdminView(a.id, a.username, a.email, a.role)
  }

  const BearerPrefix: string := "Bearer "
  const SuperAdminRole: string := "super-admin"

  /** What a gate decides: hand the request on, or answer with `status`. */
  datatype Gate = Next(admin: AdminView) | Reject(status: int)

  /** The token: the `Authorization` header with the first "Bearer "
      removed, or `None` when the header is missing. */
  function TokenOf(header: Option<string>): Option<string> {
    match header
    case None => None
    case Some(h) => Some(ReplaceFirst(h, BearerPrefix, ""))
  }

  /** `authMiddleware`'s decision. */
  function AuthDecision(header: Option<string>, verify: string -> Option<AdminId>, admins: map<AdminId, Admin>): (g: Gate)
    ensures g.Reject? ==> g.status == 401
  {
    var token := TokenOf(header);
    if token.None? || token.value == "" then Reject(401)
    else match verify(token.value)
      case None => Reject(401)
      case Some(id) => if id in admins then Next(WithoutPassword(admins[id])) else Reject(401)
  }

  /** The request passes exactly when its token verifies to the id of a
      stored admin, and then carries that admin without the password. */
  lemma AuthDecisionIff(header: Option<string>, verify: string -> Option<AdminId>, admins: map<AdminId, Admin>)
    ensures AuthDecision(header, verify, admins).Next? <==>
              exists t :: TokenOf(header) == Some(t) && t != "" && verify(t).Some? && verify(t).value in admins
    ensures AuthDecision(header, verify, admins).Next? ==>
              var t := TokenOf(header).value;
              AuthDecision(header, verify, admins).admin == WithoutPassword(admins[verify(t).value])
  {
  }

  /** `Bearer <t>` yields the token `t`; a header without "Bearer " anywhere
      is taken whole. */
  lemma TokenOfBearer(t: string, h: string)
    ensures TokenOf(Some(BearerPrefix + t)) == Some(t)
    ensures (forall k :: 0 <= k <= |h| ==> !OccursAt(h, BearerPrefix, k)) ==> TokenOf(Some(h)) == Some(h)
  {
    assert StartsWith(BearerPrefix + t, BearerPrefix) by {
      assert (BearerPrefix + t)[..|BearerPrefix|] == BearerPrefix;
    }
    ReplaceFirstCases(BearerPrefix + t, BearerPrefix, "");
    assert (BearerPrefix + t)[|BearerPrefix|..] == t;
    assert "" + t == t;
    ReplaceFirstCases(h, BearerPrefix, "");
  }

  /** A missing header, or one that is just "Bearer ", is refused with 401
      before any verification. */
  lemma NoTokenRejected(verify: string -> Option<AdminId>, admins: map<AdminId, Admin>)
    ensures AuthDecision(None, verify, admins) == Reject(401)
    ensures AuthDecision(Some(BearerPrefix), verify, admins) == Reject(401)
  {
    TokenOfBearer("", "");
    assert BearerPrefix + "" == BearerPrefix;
  }

  /** `superAdminMiddleware`'s decision on `req.admin`. */
  function SuperAdminGate(admin: Option<AdminView>): (g: Gate)
    ensures g.Reject? ==> g.status == 403
    ensures g.Next? ==> admin == Some(g.admin)
    ensures g.Next? <==> admin.Some? && admin.value.role == SuperAdminRole
  {
    if admin.Some? && admin.value.role == SuperAdminRole then Next(admin.value) else Reject(403)
  }

  /** The register route runs `authMiddleware` and then
      `superAdminMiddleware`: the handler is reached exactly when the token
      names a stored admin whose role is "super-admin"; a valid token of
      any other admin gets 403, anything else 401. */
  lemma RegisterRouteIff(header: Option<string>, verify: string -> Option<AdminId>, admins: map<AdminId, Admin>)
    ensures var a := AuthDecision(header, verify, admins);
            && (a.Next? && SuperAdminGate(Some(a.admin)).Next? <==>
                  a.Next? && exists id :: id in admins && admins[id].role == SuperAdminRole &&
                                         verify(TokenOf(header).value) == Some(id))
            && (a.Next? && a.admin.role != SuperAdminRole ==> SuperAdminGate(Some(a.admin)) == Reject(403))
  {
    var a := AuthDecision(header, verify, admins);
    if a.Next? {
      var id := verify(TokenOf(header).value).value;
      assert id in admins && a.admin == WithoutPassword(admins[id]);
    }
  }

  /** The request as the middleware sees it: the `Authorization` header, the
      admin attached to it, how many times `next` ran and the status
      answered, if any. */
  class Request {
    const authorization: Option<string>
    var admin: Option<AdminView>
    var nextCalls: nat
    var status: Option<int>

    constructor (authorization: Option<string>)
      ensures this.authorization == authorization
      ensures admin == None && nextCalls == 0 && status == None
    {
      this.authorization := authorization;
      admin := None;
      nextCalls := 0;
      status := None;
    }

    /** `authMiddleware`: on success `req.admin` is set and `next` runs once;
        otherwise the request is answered 401 and `next` does not run. */
    method Authenticate(verify: string -> Option<AdminId>, admins: map<AdminId, Admin>)
      modifies this
      ensures var g := AuthDecision(authorization, verify, admins);
              if g.Next? then admin == Some(g.admin) && nextCalls == old(nextCalls) + 1 && status == old(status)
              else status == Some(401) && admin == old(admin) && nextCalls == old(nextCalls)
    {
      var token := TokenOf(authorization);
      if token.None? || token.value == "" {
        status := Some(401);
        return;
      }
      var decoded := verify(token.value);
      if decoded.None? {
        status := Some(401);
        return;
      }
      if decoded.value !in admins {
        status := Some(401);
        return;
      }
      admin := Some(WithoutPassword(admins[decoded.value]));
      nextCalls := nextCalls + 1;
    }

    /** `superAdminMiddleware`: `next` runs once for a super-admin; any
        other request is answered 403. */
    method RequireSuperAdmin()
      modifies this
      ensures var g := SuperAdminGate(old(admin));
              if g.Next? then nextCalls == old(nextCalls) + 1 && status == old(status)
              else status == Some(403) && nextCalls == old(nextCalls)
      ensures admin == old(admin)
    {
      if admin.Some? && admin.value.role == SuperAdminRole {
        nextCalls := nextCalls + 1;
      } else {
        status := Some(403);
      }
    }
  }
}
