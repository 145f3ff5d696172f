/** The user HTTP handler: its routes (the user list only outside
    production), and the status and body it writes for every outcome of
    registration, the phone check and the "who am I" lookup. A request body
    that did not decode is `None`. */
module UserHandler {
  import opened Wrappers
  import opened Json
  import opened AppErr
  import opened GuestTypes
  import opened UserRepository
  import opened UserService
  import opened ServeMux
  import GuestService
  import GuestRepository
  import Text
  import GuestHandler

  const MsgInvalidBody: string := "Dados inválidos na requisição"
  const MsgListFailed: string := "Não foi possível carregar a lista de usuários"
  const MsgAuthRequired: string := "Autenticação necessária"
  const MsgMeFailed: string := "Não foi possível carregar os dados do usuário"

  const Production: string := "production"
  const ListRoute: string := "GET /api/users"

  /** The patterns `RegisterRoutes` adds, in order; the user list is only
      served outside production. */
  function UserRoutes(appEnv: string): (routes: seq<string>)
    ensures Distinct(routes)
    ensures ListRoute in routes <==> appEnv != Production
    ensures "POST /api/users" in routes && "GET /api/users/check" in routes && "GET /api/users/me" in routes
  {
    ["POST /api/users", "GET /api/users/check", "GET /api/users/me"]
      + (if appEnv != Production then [ListRoute] else [])
  }

  /** The guest and user routes never collide, so registering both on one
      router (as the server does) cannot panic. */
  lemma RoutesDisjoint(appEnv: string)
    ensures forall p | p in UserRoutes(appEnv) :: p !in GuestHandler.GuestRoutes()
    ensures Distinct(GuestHandler.GuestRoutes() + UserRoutes(appEnv))
  {
  }

  // ---------------------------------------------------------------------
  // Response bodies

  /** The JSON object written for a user: `guest_id` is left out when the
      user is linked to no guest. */
  function UserJson(u: User): (j: Json)
    ensures j.JObj? && Field(j, "id") == Some(JNum(u.id as real))
    ensures Field(j, "guest_id") == (if u.guestId.Some? then Some(JNum(u.guestId.value as real)) else None)
    ensures Field(j, "role") == Some(JStr(u.role)) && Field(j, "uracf") == Some(JStr(u.uracf))
  {
    var base := map["id" := JNum(u.id as real), "role" := JStr(u.role), "uracf" := JStr(u.uracf)];
    JObj(if u.guestId.Some? then base["guest_id" := JNum(u.guestId.value as real)] else base)
  }

  /** The JSON object written for a check: `role` is left out when empty. */
  function CheckJson(c: CheckResponse): (j: Json)
    ensures j.JObj? && Field(j, "exists") == Some(JBool(c.userExists))
    ensures Field(j, "role") == (if c.role != "" then Some(JStr(c.role)) else None)
  {
    var base := map["exists" := JBool(c.userExists)];
    JObj(if c.role != "" then base["role" := JStr(c.role)] else base)
  }

  // ---------------------------------------------------------------------
  // Error-to-status choices

  /** `handleRegister` after a decoded body: the three sentinels, tested in
      the order already-registered, guest-not-found, identifier-taken, get
      their own status and fixed text; any other error is a 400 with the
      error's text. */
  function RegisterResponse(r: Result<User, Error>): (resp: GuestHandler.Response)
    ensures resp.status == StatusCreated <==> r.Success?
    ensures r.Success? ==> resp.body == Some(UserJson(r.value))
    ensures r.Failure? && Is(r.error, ErrAlreadyRegistered) ==>
      resp == GuestHandler.ErrorResponse(StatusConflict, MsgAlreadyRegistered)
    ensures r.Failure? && !Is(r.error, ErrAlreadyRegistered) && Is(r.error, ErrGuestNotFound) ==>
      resp == GuestHandler.ErrorResponse(StatusNotFound, MsgNoGuestWithPhone)
    ensures r.Failure? && !Is(r.error, ErrAlreadyRegistered) && !Is(r.error, ErrGuestNotFound) && Is(r.error, ErrURACFTaken) ==>
      resp == GuestHandler.ErrorResponse(StatusConflict, MsgUracfTaken)
    ensures r.Failure? && !Is(r.error, ErrAlreadyRegistered) && !Is(r.error, ErrGuestNotFound) && !Is(r.error, ErrURACFTaken) ==>
      resp == GuestHandler.ErrorResponse(StatusBadRequest, ErrorString(r.error))
  {
    match r
    case Success(u) => GuestHandler.Response(StatusCreated, Some(UserJson(u)))
    case Failure(e) =>
      if Is(e, ErrAlreadyRegistered) then GuestHandler.ErrorResponse(StatusConflict, MsgAlreadyRegistered)
      else if Is(e, ErrGuestNotFound) then GuestHandler.ErrorResponse(StatusNotFound, MsgNoGuestWithPhone)
      else if Is(e, ErrURACFTaken) then GuestHandler.ErrorResponse(StatusConflict, MsgUracfTaken)
      else GuestHandler.ErrorResponse(StatusBadRequest, ErrorString(e))
  }

  /** Over the whole registration, the status says which rule decided it:
      201 for a new user, 400 (with the first failing format check's text) for
      a malformed phone or identifier, 404 when no guest has the phone, 409
      when the guest already has a user or the identifier is taken. */
  lemma RegisterStatusIff(guests: seq<Guest>, st: UserState, input: RegisterInput)
    ensures var resp := RegisterResponse(RegisterOutcome(guests, st, input).0);
      && (resp.status == StatusCreated <==> RegisterOutcome(guests, st, input).0.Success?)
      && (resp.status == StatusBadRequest <==> !ValidRegisterInput(input))
      && (!ValidRegisterInput(input) ==> resp == GuestHandler.ErrorResponse(StatusBadRequest, ErrorString(ValidateRegister(input).value)))
      && (resp.status == StatusNotFound <==>
            ValidRegisterInput(input) && GuestRepository.GetByPhone(guests, input.phone).None?)
      && (resp.status == StatusConflict <==>
            && ValidRegisterInput(input) && GuestRepository.GetByPhone(guests, input.phone).Some?
            && (|| GetByGuestID(st.rows, GuestRepository.GetByPhone(guests, input.phone).value.id).Some?
                || GetByURACF(st.rows, input.uracf).Some?))
  {
    var r := RegisterOutcome(guests, st, input).0;
    if !ValidRegisterInput(input) {
      var e := ValidateRegister(input).value;
      assert r == Failure(e);
      assert forall s :: !Is(e, s);
    }
  }

  /** `handleCheck`: any service error is a 400 with the error's text. */
  function CheckResponseOf(r: Result<CheckResponse, Error>): (resp: GuestHandler.Response)
    ensures resp.status == StatusOK <==> r.Success?
    ensures r.Success? ==> resp.body == Some(CheckJson(r.value))
    ensures r.Failure? ==> resp == GuestHandler.ErrorResponse(StatusBadRequest, ErrorString(r.error))
  {
    match r
    case Success(c) => GuestHandler.Response(StatusOK, Some(CheckJson(c)))
    case Failure(e) => GuestHandler.ErrorResponse(StatusBadRequest, ErrorString(e))
  }

  /** The phone check answers 200 exactly for a well-formed mobile phone,
      and otherwise names the rule the phone broke. */
  lemma CheckStatusIff(guests: seq<Guest>, users: seq<User>, phone: string)
    ensures var resp := CheckResponseOf(CheckOutcome(guests, users, phone));
      && (resp.status == StatusOK <==> GuestService.IsMobilePhone(phone))
      && (phone == "" ==> resp == GuestHandler.ErrorResponse(StatusBadRequest, MsgPhoneRequired))
      && (phone != "" && !GuestService.IsMobilePhone(phone) ==>
            resp == GuestHandler.ErrorResponse(StatusBadRequest, GuestService.MsgInvalidPhone))
  {
  }

  /** `handleMe`: an empty header is refused before any lookup; any lookup
      error, the unknown identifier included, is a 500; the body holds only
      the role. */
  function MeOutcome(users: seq<User>, header: string): (resp: GuestHandler.Response)
    ensures header == "" ==> resp == GuestHandler.ErrorResponse(StatusUnauthorized, MsgAuthRequired)
    ensures header != "" && GetMeOutcome(users, header).Failure? ==>
      resp == GuestHandler.ErrorResponse(StatusInternalServerError, MsgMeFailed)
    ensures resp.status == StatusOK ==>
      resp.body.Some? && resp.body.value.JObj? && resp.body.value.fields.Keys == {"role"}
  {
    if header == "" then GuestHandler.ErrorResponse(StatusUnauthorized, MsgAuthRequired)
    else
      match GetMeOutcome(users, header)
      case Failure(_) => GuestHandler.ErrorResponse(StatusInternalServerError, MsgMeFailed)
      case Success(u) => GuestHandler.Response(StatusOK, Some(JObj(map["role" := JStr(u.role)])))
  }

  /** The lookup answers 200 exactly for a stored identifier, and never 404:
      the service reports an unknown identifier as an error, so the handler's
      not-found branch is never taken. */
  lemma MeStatusIff(users: seq<User>, header: string)
    ensures var resp := MeOutcome(users, header);
      && (resp.status == StatusOK <==> header != "" && exists u | u in users :: u.uracf == header)
      && (resp.status == StatusOK ==> exists u | u in users :: u.uracf == header && resp.body == Some(JObj(map["role" := JStr(u.role)])))
      && resp.status != StatusNotFound
  {
  }

  /** A guest who has just registered sees the role "guest". */
  lemma MeAfterRegister(guests: seq<Guest>, st: UserState, input: RegisterInput)
    requires UsersUnique(st.rows) && RegisterOutcome(guests, st, input).0.Success?
    ensures MeOutcome(RegisterOutcome(guests, st, input).1.rows, input.uracf)
              == GuestHandler.Response(StatusOK, Some(JObj(map["role" := JStr(RoleGuest)])))
  {
    var st1 := RegisterOutcome(guests, st, input).1;
    var u := RegisterOutcome(guests, st, input).0.value;
    assert st1.rows[|st.rows|] == u;
    assert GetByURACF(st1.rows, input.uracf) == Some(u) by {
      assert forall v | v in st.rows :: v.uracf != input.uracf;
    }
  }

  /** The guest routes accept the identifier in either case and with
      surrounding space, and only ever pass on a well-formed one; the
      lookup takes the header exactly as sent. */
  lemma IdentifierNormalisation()
    ensures forall h :: GuestHandler.GetUserRACF(h).Success? ==> IsUracf(GuestHandler.GetUserRACF(h).value)
    ensures GuestHandler.GetUserRACF("abc12") == Success("ABC12")
    ensures MeOutcome([User(1, None, RoleGroom, "ABC12")], "abc12").status == StatusInternalServerError
  {
    Text.TrimNoOp("abc12", Text.IsGoSpace);
    assert Text.ToUpper("abc12") == "ABC12";
    assert GetByURACF([User(1, None, RoleGroom, "ABC12")], "abc12").None?;
  }

  /** One entry of the development user list. */
  datatype UserListItem = UserListItem(uracf: string, role: string, firstName: string, lastName: string)

  /** The JSON object written for a list entry: exactly its four keys. */
  function UserListItemJson(item: UserListItem): (j: Json)
    ensures j.JObj? && j.fields.Keys == {"uracf", "role", "first_name", "last_name"}
    ensures Field(j, "uracf") == Some(JStr(item.uracf)) && Field(j, "role") == Some(JStr(item.role))
    ensures Field(j, "first_name") == Some(JStr(item.firstName)) && Field(j, "last_name") == Some(JStr(item.lastName))
  {
    JObj(map["uracf" := JStr(item.uracf), "role" := JStr(item.role),
             "first_name" := JStr(item.firstName), "last_name" := JStr(item.lastName)])
  }

  /** `handleList`: a failed listing is a 500; otherwise the items, in the
      order the service listed them. */
  function ListResponse(r: Result<seq<UserListItem>, Error>): (resp: GuestHandler.Response)
    ensures resp.status == StatusOK <==> r.Success?
    ensures r.Failure? ==> resp == GuestHandler.ErrorResponse(StatusInternalServerError, MsgListFailed)
    ensures r.Success? ==> resp.body.Some? && resp.body.value.JArr? && |resp.body.value.items| == |r.value|
    ensures r.Success? ==> forall i :: 0 <= i < |r.value| ==> resp.body.value.items[i] == UserListItemJson(r.value[i])
  {
    match r
    case Failure(_) => GuestHandler.ErrorResponse(StatusInternalServerError, MsgListFailed)
    case Success(items) =>
      GuestHandler.Response(StatusOK, Some(JArr(seq(|items|, i requires 0 <= i < |items| => UserListItemJson(items[i])))))
  }

  // ---------------------------------------------------------------------
  // The handler

  class UserHandler {
    const svc: UserService
    const appEnv: string

    ghost predicate Valid()
      reads svc.users, svc.guests
    {
      svc.Valid()
    }

    constructor (svc: UserService, appEnv: string)
      requires svc.Valid()
      ensures Valid() && this.svc == svc && this.appEnv == appEnv
    {
      this.svc := svc;
      this.appEnv := appEnv;
    }

    method RegisterRoutes(mux: Mux)
      requires forall p | p in UserRoutes(appEnv) :: p !in mux.patterns
      modifies mux
      ensures mux.patterns == old(mux.patterns) + UserRoutes(appEnv)
    {
      mux.HandleFunc("POST /api/users");
      mux.HandleFunc("GET /api/users/check");
      mux.HandleFunc("GET /api/users/me");
      if appEnv != Production {
        mux.HandleFunc(ListRoute);
      }
    }

    /** `POST /api/users`. */
    method HandleRegister(body: Option<RegisterInput>) returns (resp: GuestHandler.Response)
      requires Valid()
      modifies svc.users
      ensures Valid()
      ensures body.None? ==>
        resp == GuestHandler.ErrorResponse(StatusBadRequest, MsgInvalidBody) && svc.users.State() == old(svc.users.State())
      ensures body.Some? ==>
        var outcome := RegisterOutcome(svc.guests.rows, old(svc.users.State()), body.value);
        resp == RegisterResponse(outcome.0) && svc.users.State() == outcome.1
    {
      if body.None? {
        return GuestHandler.ErrorResponse(StatusBadRequest, MsgInvalidBody);
      }
      var r := svc.Register(body.value);
      resp := RegisterResponse(r);
    }

    /** `GET /api/users/check?phone=...`. */
    method HandleCheck(phone: string) returns (resp: GuestHandler.Response)
      requires Valid()
      ensures resp == CheckResponseOf(CheckOutcome(svc.guests.rows, svc.users.rows, phone))
    {
      var r := svc.CheckByPhone(phone);
      resp := CheckResponseOf(r);
    }

    /** `GET /api/users/me` with the `user-racf` header. */
    method HandleMe(header: string) returns (resp: GuestHandler.Response)
      requires Valid()
      ensures resp == MeOutcome(svc.users.rows, header)
    {
      if header == "" {
        return GuestHandler.ErrorResponse(StatusUnauthorized, MsgAuthRequired);
      }
      var r := svc.GetMe(header);
      if r.Failure? {
        return GuestHandler.ErrorResponse(StatusInternalServerError, MsgMeFailed);
      }
      resp := GuestHandler.Response(StatusOK, Some(JObj(map["role" := JStr(r.value.role)])));
    }
  }
}
