/** The account handlers: `register` adds an admin to the Admin collection,
    `login` hands out a fixed placeholder identity, and `getProfile` reads
    the signed-in admin back. The token library's signing is a parameter
    `sign` from admin id to token. */
module AuthController {
  import opened Wrappers
  import opened Text
  import opened ObjectIds
  import opened AuthMiddleware

  /** The body of `POST /register`. */
  datatype RegisterBody = RegisterBody(username: string, email: string, password: string, role: Option<string>)

  /** The JSON reply of an account handler. */
  datatype AuthReply =
    | Registered(token: string, admin: AdminView)
    | LoggedIn(token: string, admin: AdminView)
    | Profile(profile: Option<AdminView>)
    | AlreadyExists
    | ServerError

  function AuthStatus(r: AuthReply): (code: int)
    ensures code in {200, 201, 400, 500}
  {
    match r
    case Registered(_, _) => 201
    case AlreadyExists => 400
    case ServerError => 500
    case _ => 200
  }

  const DefaultRole: string := "admin"

  /** The id of the placeholder identity `login` signs. */
  const DummyId: AdminId := "dummy-admin-id"

  const DummyView: AdminView := AdminView(DummyId, "any", "any@example.com", DefaultRole)

  /** `role || 'admin'`. */
  function RoleOf(role: Option<string>): (r: string)
    ensures r != ""
    ensures role.Some? && role.value != "" ==> r == role.value
    ensures !(role.Some? && role.value != "") ==> r == DefaultRole
  {
    if role.Some? && role.value != "" then role.value else DefaultRole
  }

  /** Some stored admin has this email or this username: the `$or` query. */
  predicate Taken(admins: map<AdminId, Admin>, email: string, username: string) {
    exists id :: id in admins && (admins[id].email == email || admins[id].username == username)
  }

  /** `login`: whatever the request body holds, a token for the placeholder
      id and the placeholder admin. */
  function Login<Body>(sign: AdminId -> string, body: Body): (r: AuthReply)
    ensures r.LoggedIn? && r.token == sign(DummyId) && r.admin == DummyView
  {
    LoggedIn(sign(DummyId), DummyView)
  }

  /** The Admin collection. */
  class AdminRegistry {
    var admins: map<AdminId, Admin>

    /** Ids are ObjectIds that key their own record, and no two admins share
        an email or a username. */
    ghost predicate Valid()
      reads this
    {
      && (forall id :: id in admins ==> admins[id].id == id && IsObjectId(id))
      && (forall a, b :: a in admins && b in admins && a != b ==>
            admins[a].email != admins[b].email && admins[a].username != admins[b].username)
    }

    constructor ()
      ensures admins == map[] && Valid()
    {
      admins := map[];
    }

    /** `register`: refuses an email or username already in use with 400;
        otherwise stores the admin under the fresh id, with the role
        defaulting to "admin", and answers 201 with a token and the admin
        without its password. A failing lookup or save answers 500. */
    method Register(body: RegisterBody, newId: AdminId, sign: AdminId -> string, lookupFault: bool, saveFault: bool)
      returns (reply: AuthReply)
      requires Valid()
      requires IsObjectId(newId) && newId !in admins
      modifies this
      ensures Valid()
      ensures var stored := Admin(newId, body.username, body.email, body.password, RoleOf(body.role));
              if lookupFault then reply == ServerError && admins == old(admins)
              else if Taken(old(admins), body.email, body.username) then reply == AlreadyExists && admins == old(admins)
              else if saveFault then reply == ServerError && admins == old(admins)
              else reply == Registered(sign(newId), WithoutPassword(stored)) && admins == old(admins)[newId := stored]
    {
      if lookupFault {
        return ServerError;
      }
      if Taken(admins, body.email, body.username) {
        return AlreadyExists;
      }
      if saveFault {
        return ServerError;
      }
      var stored := Admin(newId, body.username, body.email, body.password, RoleOf(body.role));
      admins := admins[newId := stored];
      reply := Registered(sign(newId), WithoutPassword(stored));
    }

    /** `getProfile`: the admin with this id without its password, or `null`
        when there is none. */
    method GetProfile(id: AdminId, fault: bool) returns (reply: AuthReply)
      ensures fault ==> reply == ServerError
      ensures !fault ==> reply.Profile? && (reply.profile.Some? <==> id in admins)
      ensures !fault && id in admins ==> reply.profile == Some(WithoutPassword(admins[id]))
    {
      if fault {
        reply := ServerError;
      } else if id in admins {
        reply := Profile(Some(WithoutPassword(admins[id])));
      } else {
        reply := Profile(None);
      }
    }
  }

  /** Two registrations sharing an email or a username cannot both
      succeed: after the first, the second finds it taken. */
  lemma SecondRegistrationRefused(admins: map<AdminId, Admin>, newId: AdminId, b1: RegisterBody, b2: RegisterBody)
    requires b1.email == b2.email || b1.username == b2.username
    ensures Taken(admins[newId := Admin(newId, b1.username, b1.email, b1.password, RoleOf(b1.role))], b2.email, b2.username)
  {
    var after := admins[newId := Admin(newId, b1.username, b1.email, b1.password, RoleOf(b1.role))];
    assert newId in after && (after[newId].email == b2.email || after[newId].username == b2.username);
  }

  /** The placeholder id is no ObjectId, so it names no stored admin. */
  lemma DummyIdNotObjectId()
    ensures !IsObjectId(DummyId)
  {
  }

  /** The token `login` returns never gets past `authMiddleware`: even when
      it verifies, the id it carries names no admin, so every protected
      route answers it with 401. */
  lemma LoginTokenRejected<Body>(sign: AdminId -> string, verify: string -> Option<AdminId>,
                                 admins: map<AdminId, Admin>, body: Body)
    requires forall id :: id in admins ==> IsObjectId(id)
    requires verify(sign(DummyId)) == Some(DummyId)
    ensures AuthDecision(Some(BearerPrefix + Login(sign, body).token), verify, admins) == Reject(401)
  {
    TokenOfBearer(Login(sign, body).token, "");
    DummyIdNotObjectId();
  }

  /** A freshly registered admin can use its token at once, and reaches the
      register route again exactly when it was given the role
      "super-admin". */
  lemma RegisteredTokenAccepted(sign: AdminId -> string, verify: string -> Option<AdminId>,
                                admins: map<AdminId, Admin>, newId: AdminId, b: RegisterBody)
    requires verify(sign(newId)) == Some(newId)
    requires sign(newId) != ""
    ensures var stored := Admin(newId, b.username, b.email, b.password, RoleOf(b.role));
            var g := AuthDecision(Some(BearerPrefix + sign(newId)), verify, admins[newId := stored]);
            && g == Next(WithoutPassword(stored))
            && (SuperAdminGate(Some(g.admin)).Next? <==> RoleOf(b.role) == SuperAdminRole)
  {
    TokenOfBearer(sign(newId), "");
  }
}
