/** The user service: a guest registers an access identifier (URACF) against
    the phone on their guest row, anyone may ask whether a phone already has
    a registered user, a signed-in user reads their own record, and at start-up
    the couple's accounts are seeded. Every operation is a function over the
    guest rows and the user state; the `UserService` class runs them against
    the two tables. */
module UserService {
  import opened Wrappers
  import opened Text
  import opened AppErr
  import opened GuestTypes
  import opened GuestRepository
  import opened UserRepository
  import GuestService

  const MsgPhoneRequired: string := "o telefone é obrigatório"
  const MsgUracfRequired: string := "o identificador de acesso é obrigatório"
  const MsgInvalidUracf: string := "identificador de acesso inválido"
  const MsgNoGuestWithPhone: string := "Nenhum convidado encontrado com este telefone"
  const MsgAlreadyRegistered: string := "Este convidado já possui cadastro"
  const MsgUracfTaken: string := "Este identificador de acesso já está em uso"
  const MsgUserNotFound: string := "Usuário não encontrado"

  const RoleGuest: string := "guest"
  const RoleGroom: string := "groom"
  const RoleBride: string := "bride"

  /** `^[A-Z0-9]{5}$`: exactly five upper-case letters or digits. */
  predicate IsUracf(s: string) {
    |s| == 5 && forall i :: 0 <= i < |s| ==> IsUpperAlnum(s[i])
  }

  datatype RegisterInput = RegisterInput(phone: string, uracf: string)

  /** The answer to "does this phone have a user?"; `role` is "" (and left
      out of the JSON) when there is none. */
  datatype CheckResponse = CheckResponse(userExists: bool, role: string)

  /** No two users share an identifier, and no guest is linked to two users. */
  ghost predicate UsersUnique(rows: seq<User>) {
    forall i, j :: 0 <= i < j < |rows| ==>
      rows[i].uracf != rows[j].uracf
      && (rows[i].guestId.Some? ==> rows[i].guestId != rows[j].guestId)
  }

  // ---------------------------------------------------------------------
  // Register
  // ---------------------------------------------------------------------

  predicate ValidRegisterInput(input: RegisterInput) {
    GuestService.IsMobilePhone(input.phone) && IsUracf(input.uracf)
  }

  /** The first failing format check of `Register`, in the source's order:
      phone present, phone well formed, identifier present, identifier well
      formed. */
  function ValidateRegister(input: RegisterInput): (r: Option<Error>)
    ensures r.None? <==> ValidRegisterInput(input)
    ensures r.Some? ==> r.value.AppError? && r.value.code == StatusBadRequest
    ensures r.Some? ==> forall s :: !Is(r.value, s)
    ensures input.phone == "" ==> r == Some(Validation(MsgPhoneRequired))
    ensures (input.phone != "" && !GuestService.IsMobilePhone(input.phone))
              ==> r == Some(Validation(GuestService.MsgInvalidPhone))
    ensures (GuestService.IsMobilePhone(input.phone) && input.uracf == "")
              ==> r == Some(Validation(MsgUracfRequired))
    ensures (GuestService.IsMobilePhone(input.phone) && input.uracf != "" && !IsUracf(input.uracf))
              ==> r == Some(Validation(MsgInvalidUracf))
  {
    if input.phone == "" then Some(Validation(MsgPhoneRequired))
    else if !GuestService.IsMobilePhone(input.phone) then Some(Validation(GuestService.MsgInvalidPhone))
    else if input.uracf == "" then Some(Validation(MsgUracfRequired))
    else if !IsUracf(input.uracf) then Some(Validation(MsgInvalidUracf))
    else None
  }

  /** `Register`: after the format checks, the guest with the phone must
      exist, must not already have a user, and the identifier must be free;
      then a user with role "guest" linked to that guest is inserted. */
  function RegisterOutcome(guests: seq<Guest>, st: UserState, input: RegisterInput): (r: (Result<User, Error>, UserState))
    ensures r.0.Failure? ==> r.1 == st
    ensures r.0.Success? <==>
      && ValidRegisterInput(input)
      && GetByPhone(guests, input.phone).Some?
      && GetByGuestID(st.rows, GetByPhone(guests, input.phone).value.id).None?
      && GetByURACF(st.rows, input.uracf).None?
    ensures r.0.Success? ==>
      var u := r.0.value;
      && r.1 == UserState(st.rows + [u], st.nextId + 1)
      && u.id == st.nextId && u.role == RoleGuest && u.uracf == input.uracf
      && u.guestId == Some(GetByPhone(guests, input.phone).value.id)
    ensures r.0.Failure? && ValidRegisterInput(input) ==> r.0.error.AppError? && r.0.error.code in {StatusNotFound, StatusConflict}
    ensures r.0.Failure? ==>
      (Is(r.0.error, ErrGuestNotFound) <==> ValidRegisterInput(input) && GetByPhone(guests, input.phone).None?)
    ensures r.0.Failure? ==>
      (Is(r.0.error, ErrAlreadyRegistered) <==>
        && ValidRegisterInput(input) && GetByPhone(guests, input.phone).Some?
        && GetByGuestID(st.rows, GetByPhone(guests, input.phone).value.id).Some?)
    ensures r.0.Failure? ==>
      (Is(r.0.error, ErrURACFTaken) <==>
        && ValidRegisterInput(input) && GetByPhone(guests, input.phone).Some?
        && GetByGuestID(st.rows, GetByPhone(guests, input.phone).value.id).None?
        && GetByURACF(st.rows, input.uracf).Some?)
  {
    match ValidateRegister(input)
    case Some(e) => (Failure(e), st)
    case None =>
      match GetByPhone(guests, input.phone)
      case None => (Failure(NotFound(MsgNoGuestWithPhone, Some(SentinelError(ErrGuestNotFound)))), st)
      case Some(g) =>
        if GetByGuestID(st.rows, g.id).Some? then
          (Failure(Conflict(MsgAlreadyRegistered, Some(SentinelError(ErrAlreadyRegistered)))), st)
        else if GetByURACF(st.rows, input.uracf).Some? then
          (Failure(Conflict(MsgUracfTaken, Some(SentinelError(ErrURACFTaken)))), st)
        else
          var (u, st') := CreateUser(st, Some(g.id), RoleGuest, input.uracf);
          (Success(u), st')
  }

  /** Registration keeps the users table well formed and its identifiers and
      guest links unique. */
  lemma RegisterPreservesUnique(guests: seq<Guest>, st: UserState, input: RegisterInput)
    requires ValidUsers(st) && UsersUnique(st.rows)
    ensures ValidUsers(RegisterOutcome(guests, st, input).1)
    ensures UsersUnique(RegisterOutcome(guests, st, input).1.rows)
  {
    var r := RegisterOutcome(guests, st, input);
    if r.0.Success? {
      AppendUserKeepsUnique(st, r.0.value);
    }
  }

  /** Appending a user with the next id, an identifier no user has and a
      guest link no user has keeps the table well formed and unique. */
  lemma AppendUserKeepsUnique(st: UserState, u: User)
    requires ValidUsers(st) && UsersUnique(st.rows) && u.id == st.nextId
    requires forall v | v in st.rows :: v.uracf != u.uracf
    requires u.guestId.Some? ==> forall v | v in st.rows :: v.guestId != u.guestId
    ensures ValidUsers(UserState(st.rows + [u], st.nextId + 1))
    ensures UsersUnique(st.rows + [u])
  {
    var rows := st.rows + [u];
    forall a, b | 0 <= a < b < |rows|
      ensures rows[a].uracf != rows[b].uracf
      ensures rows[a].guestId.Some? ==> rows[a].guestId != rows[b].guestId
    {
      assert rows[a] == st.rows[a] && st.rows[a] in st.rows;
      if b < |st.rows| {
        assert rows[b] == st.rows[b];
      } else {
        assert rows[b] == u;
      }
    }
  }

  /** With distinct guest phones, registration succeeds exactly when some
      guest has the phone, no user is linked to that guest and no user has the
      identifier. */
  lemma {:induction false} RegisterSucceedsIff(guests: seq<Guest>, st: UserState, input: RegisterInput)
    requires GuestService.PhonesUnique(guests)
    ensures RegisterOutcome(guests, st, input).0.Success? <==>
      && ValidRegisterInput(input)
      && (exists g | g in guests :: g.phone == Some(input.phone) && forall u | u in st.rows :: u.guestId != Some(g.id))
      && (forall u | u in st.rows :: u.uracf != input.uracf)
  {
    var found := GetByPhone(guests, input.phone);
    if ValidRegisterInput(input) && found.Some? {
      forall g | g in guests && g.phone == Some(input.phone)
        ensures g == found.value
      {
        SamePhoneSameGuest(guests, g, found.value);
      }
    }
  }

  /** Two rows of a table with distinct phones that share a non-empty phone are the same row. */
  lemma SamePhoneSameGuest(guests: seq<Guest>, g: Guest, h: Guest)
    requires GuestService.PhonesUnique(guests)
    requires g in guests && h in guests && g.phone == h.phone && g.phone.Some? && g.phone.value != ""
    ensures g == h
  {
    var i :| 0 <= i < |guests| && guests[i] == g;
    var j :| 0 <= j < |guests| && guests[j] == h;
    assert i == j;
  }

  /** Registering the same input a second time is refused as "already registered". */
  lemma RegisterTwiceConflicts(guests: seq<Guest>, st: UserState, input: RegisterInput)
    requires RegisterOutcome(guests, st, input).0.Success?
    ensures var again := RegisterOutcome(guests, RegisterOutcome(guests, st, input).1, input);
      again.0.Failure? && Is(again.0.error, ErrAlreadyRegistered) && again.1 == RegisterOutcome(guests, st, input).1
  {
    var st1 := RegisterOutcome(guests, st, input).1;
    var u := RegisterOutcome(guests, st, input).0.value;
    assert u in st1.rows;
  }

  // ---------------------------------------------------------------------
  // CheckByPhone, GetMe
  // ---------------------------------------------------------------------

  /** `CheckByPhone`: a malformed phone is a validation error; otherwise the
      answer says whether the phone's guest has a user, and that user's role. */
  function CheckOutcome(guests: seq<Guest>, users: seq<User>, phone: string): (r: Result<CheckResponse, Error>)
    ensures r.Failure? <==> !GuestService.IsMobilePhone(phone)
    ensures r.Failure? ==> r.error == Validation(if phone == "" then MsgPhoneRequired else GuestService.MsgInvalidPhone)
    ensures r.Success? ==>
      (r.value.userExists <==>
        GetByPhone(guests, phone).Some? && GetByGuestID(users, GetByPhone(guests, phone).value.id).Some?)
    ensures r.Success? && r.value.userExists ==>
      r.value.role == GetByGuestID(users, GetByPhone(guests, phone).value.id).value.role
    ensures r.Success? && !r.value.userExists ==> r.value.role == ""
  {
    if phone == "" then Failure(Validation(MsgPhoneRequired))
    else if !GuestService.IsMobilePhone(phone) then Failure(Validation(GuestService.MsgInvalidPhone))
    else
      match GetByPhone(guests, phone)
      case None => Success(CheckResponse(false, ""))
      case Some(g) =>
        match GetByGuestID(users, g.id)
        case None => Success(CheckResponse(false, ""))
        case Some(u) => Success(CheckResponse(true, u.role))
  }

  /** For a well-formed phone and identifier, the check reports a user
      exactly when registering would be refused as "already registered". */
  lemma CheckAgreesWithRegister(guests: seq<Guest>, st: UserState, input: RegisterInput)
    requires ValidRegisterInput(input)
    ensures var check := CheckOutcome(guests, st.rows, input.phone);
            var reg := RegisterOutcome(guests, st, input).0;
      check.Success? && (check.value.userExists <==> reg.Failure? && Is(reg.error, ErrAlreadyRegistered))
  {
  }

  /** After a successful registration the check reports a user with role "guest". */
  lemma CheckAfterRegister(guests: seq<Guest>, st: UserState, input: RegisterInput)
    requires RegisterOutcome(guests, st, input).0.Success?
    ensures CheckOutcome(guests, RegisterOutcome(guests, st, input).1.rows, input.phone)
              == Success(CheckResponse(true, RoleGuest))
  {
    var st1 := RegisterOutcome(guests, st, input).1;
    var g := GetByPhone(guests, input.phone).value;
    var u := RegisterOutcome(guests, st, input).0.value;
    assert st1.rows[|st.rows|] == u;
    var found := GetByGuestID(st1.rows, g.id);
    assert found.Some?;
    assert found.value == u by {
      assert forall v | v in st.rows :: v.guestId != Some(g.id);
      assert found.value in st1.rows;
    }
  }

  /** `GetMe`: the user with the identifier, or a not-found error that
      carries no sentinel. */
  function GetMeOutcome(users: seq<User>, uracf: string): (r: Result<User, Error>)
    ensures r.Success? <==> exists u | u in users :: u.uracf == uracf
    ensures r.Success? ==> r.value in users && r.value.uracf == uracf
    ensures r.Failure? ==> r.error == NotFound(MsgUserNotFound, None)
    ensures r.Failure? ==> forall s :: !Is(r.error, s)
  {
    match GetByURACF(users, uracf)
    case Some(u) => Success(u)
    case None => Failure(NotFound(MsgUserNotFound, None))
  }

  // ---------------------------------------------------------------------
  // SeedCouple
  // ---------------------------------------------------------------------

  /** `seedPerson`: an empty identifier, or one already taken, leaves the
      table alone; otherwise a user with the role and no guest is inserted. */
  function SeedPersonOutcome(st: UserState, uracf: string, role: string): (r: UserState)
    ensures uracf == "" || (exists u | u in st.rows :: u.uracf == uracf) ==> r == st
    ensures uracf != "" && (forall u | u in st.rows :: u.uracf != uracf) ==>
      r == UserState(st.rows + [User(st.nextId, None, role, uracf)], st.nextId + 1)
  {
    if uracf == "" || GetByURACF(st.rows, uracf).Some? then st
    else CreateUser(st, None, role, uracf).1
  }

  /** `SeedCouple`: the groom, then the bride. */
  function SeedCoupleOutcome(st: UserState, groom: string, bride: string): UserState {
    SeedPersonOutcome(SeedPersonOutcome(st, groom, RoleGroom), bride, RoleBride)
  }

  /** Seeding keeps the table well formed and its identifiers unique. */
  lemma SeedPersonPreservesUnique(st: UserState, uracf: string, role: string)
    requires ValidUsers(st) && UsersUnique(st.rows)
    ensures ValidUsers(SeedPersonOutcome(st, uracf, role)) && UsersUnique(SeedPersonOutcome(st, uracf, role).rows)
  {
    if uracf != "" && (forall u | u in st.rows :: u.uracf != uracf) {
      AppendUserKeepsUnique(st, User(st.nextId, None, role, uracf));
    }
  }

  /** Seeding the same couple again changes nothing. */
  lemma SeedCoupleIdempotent(st: UserState, groom: string, bride: string)
    ensures SeedCoupleOutcome(SeedCoupleOutcome(st, groom, bride), groom, bride) == SeedCoupleOutcome(st, groom, bride)
  {
    var s1 := SeedPersonOutcome(st, groom, RoleGroom);
    var s2 := SeedPersonOutcome(s1, bride, RoleBride);
    assert forall u | u in s1.rows :: u in s2.rows;
    if groom != "" {
      assert exists u | u in s1.rows :: u.uracf == groom;
      assert exists u | u in s2.rows :: u.uracf == groom;
    }
    if bride != "" {
      assert exists u | u in s2.rows :: u.uracf == bride;
    }
  }

  /** Two new, distinct, non-empty identifiers give two new users, the groom
      first; an identifier shared by both is given to the groom only. */
  lemma SeedCoupleOrder(st: UserState, groom: string, bride: string)
    requires groom != "" && bride != ""
    requires forall u | u in st.rows :: u.uracf != groom && u.uracf != bride
    ensures groom != bride ==>
      SeedCoupleOutcome(st, groom, bride).rows
        == st.rows + [User(st.nextId, None, RoleGroom, groom), User(st.nextId + 1, None, RoleBride, bride)]
    ensures groom == bride ==>
      SeedCoupleOutcome(st, groom, bride).rows == st.rows + [User(st.nextId, None, RoleGroom, groom)]
  {
    var s1 := SeedPersonOutcome(st, groom, RoleGroom);
    assert s1.rows[|st.rows|].uracf == groom;
    if groom != bride {
      assert forall u | u in s1.rows :: u.uracf != bride;
    }
  }

  // ---------------------------------------------------------------------
  // The service
  // ---------------------------------------------------------------------

  class UserService {
    const users: UserTable
    const guests: GuestTable

    ghost predicate Valid()
      reads users, guests
    {
      users.Valid() && UsersUnique(users.rows) && guests.Valid()
    }

    constructor (users: UserTable, guests: GuestTable)
      requires users.Valid() && UsersUnique(users.rows) && guests.Valid()
      ensures this.users == users && this.guests == guests && Valid()
    {
      this.users := users;
      this.guests := guests;
    }

    method Register(input: RegisterInput) returns (r: Result<User, Error>)
      requires Valid()
      modifies users
      ensures Valid()
      ensures (r, users.State()) == RegisterOutcome(guests.rows, old(users.State()), input)
    {
      RegisterPreservesUnique(guests.rows, users.State(), input);
      var err := ValidateRegister(input);
      if err.Some? {
        return Failure(err.value);
      }
      var g := GetByPhone(guests.rows, input.phone);
      if g.None? {
        return Failure(NotFound(MsgNoGuestWithPhone, Some(SentinelError(ErrGuestNotFound))));
      }
      if GetByGuestID(users.rows, g.value.id).Some? {
        return Failure(Conflict(MsgAlreadyRegistered, Some(SentinelError(ErrAlreadyRegistered))));
      }
      if GetByURACF(users.rows, input.uracf).Some? {
        return Failure(Conflict(MsgUracfTaken, Some(SentinelError(ErrURACFTaken))));
      }
      var u := users.Create(Some(g.value.id), RoleGuest, input.uracf);
      r := Success(u);
    }

    method CheckByPhone(phone: string) returns (r: Result<CheckResponse, Error>)
      requires Valid()
      ensures r == CheckOutcome(guests.rows, users.rows, phone)
    {
      r := CheckOutcome(guests.rows, users.rows, phone);
    }

    method GetMe(uracf: string) returns (r: Result<User, Error>)
      requires Valid()
      ensures r == GetMeOutcome(users.rows, uracf)
    {
      r := GetMeOutcome(users.rows, uracf);
    }

    method SeedCouple(groom: string, bride: string)
      requires Valid()
      modifies users
      ensures Valid()
      ensures users.State() == SeedCoupleOutcome(old(users.State()), groom, bride)
    {
      SeedPerson(groom, RoleGroom);
      SeedPerson(bride, RoleBride);
    }

    method SeedPerson(uracf: string, role: string)
      requires Valid()
      modifies users
      ensures Valid()
      ensures users.State() == SeedPersonOutcome(old(users.State()), uracf, role)
    {
      SeedPersonPreservesUnique(users.State(), uracf, role);
      if uracf == "" {
        return;
      }
      if GetByURACF(users.rows, uracf).Some? {
        return;
      }
      var _ := users.Create(None, role, uracf);
    }
  }
}
