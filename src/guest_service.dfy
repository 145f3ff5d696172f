/** The guest service: input validation, the authorisation check against the
    users table, the duplicate-name and duplicate-phone rules, family-group
    resolution and the mapping of repository errors to application errors.
    Each operation is a function from the table (and whether the caller's
    identifier belongs to a user) to its result and the new table;
    `GuestService` runs those steps against the shared tables. */
module GuestService {
  import opened Wrappers
  import opened Text
  import opened AppErr
  import opened GuestTypes
  import opened GuestRepository
  import opened UserRepository

  const MsgFirstNameRequired: string := "o nome é obrigatório"
  const MsgLastNameRequired: string := "o sobrenome é obrigatório"
  const MsgInvalidPhone: string := "telefone inválido. Use o formato: DDD + 9 + 8 dígitos (ex: 11912345678)"
  const MsgInvalidRelationship: string := "tipo de relacionamento inválido"
  const MsgInvalidFamilyGroup: string := "grupo familiar deve ser maior que zero"
  const MsgUnauthorized: string := "usuário não autorizado para realizar esta operação"
  const MsgFamilyGroupNotFound: string := "grupo familiar não encontrado"
  const MsgGuestNotFound: string := "Convidado não encontrado"

  function NameTakenMessage(firstName: string, lastName: string): string {
    "já existe um convidado com o nome '" + firstName + " " + lastName + "'"
  }

  function PhoneTakenMessage(phone: string): string {
    "o telefone '" + phone + "' já está cadastrado para outro convidado"
  }

  /** The phone pattern `^\d{2}9\d{8}$`: two area-code digits, a 9, eight digits. */
  predicate IsMobilePhone(s: string) {
    |s| == 11 && AllDigits(s) && s[2] == '9'
  }

  predicate IsRelationship(s: string) {
    s == "P" || s == "R"
  }

  /** The not-found error of a guest id, wrapping the repository sentinel. */
  function GuestNotFoundError(): (e: Error)
    ensures e.AppError? && e.code == StatusNotFound && Is(e, GuestErrNotFound)
  {
    NotFound(MsgGuestNotFound, Some(SentinelError(GuestErrNotFound)))
  }

  // ---------------------------------------------------------------------
  // Validation

  /** What a create input must satisfy, all rules at once. */
  predicate ValidCreateInput(input: CreateGuestInput) {
    && input.firstName != ""
    && input.lastName != ""
    && (input.phone == "" || IsMobilePhone(input.phone))
    && IsRelationship(input.relationship)
    && (input.familyGroup.None? || input.familyGroup.value > 0)
  }

  /** `validateCreate`: the first broken rule, as a 400 error, in the order
      first name, last name, phone, relationship, family group. */
  function ValidateCreate(input: CreateGuestInput): (r: Option<Error>)
    ensures r.None? <==> ValidCreateInput(input)
    ensures r.Some? ==> r.value.AppError? && r.value.code == StatusBadRequest && Unwrap(r.value) == None
    ensures input.firstName == "" ==> r == Some(Validation(MsgFirstNameRequired))
    ensures input.firstName != "" && input.lastName == "" ==> r == Some(Validation(MsgLastNameRequired))
    ensures (input.firstName != "" && input.lastName != "" && input.phone != "" && !IsMobilePhone(input.phone))
              ==> r == Some(Validation(MsgInvalidPhone))
    ensures (input.firstName != "" && input.lastName != "" && (input.phone == "" || IsMobilePhone(input.phone))
             && !IsRelationship(input.relationship))
              ==> r == Some(Validation(MsgInvalidRelationship))
    ensures (input.firstName != "" && input.lastName != "" && (input.phone == "" || IsMobilePhone(input.phone))
             && IsRelationship(input.relationship) && input.familyGroup.Some? && input.familyGroup.value <= 0)
              ==> r == Some(Validation(MsgInvalidFamilyGroup))
  {
    if input.firstName == "" then Some(Validation(MsgFirstNameRequired))
    else if input.lastName == "" then Some(Validation(MsgLastNameRequired))
    else if input.phone != "" && !IsMobilePhone(input.phone) then Some(Validation(MsgInvalidPhone))
    else if !IsRelationship(input.relationship) then Some(Validation(MsgInvalidRelationship))
    else if input.familyGroup.Some? && input.familyGroup.value <= 0 then Some(Validation(MsgInvalidFamilyGroup))
    else None
  }

  /** What an update input must satisfy: only a supplied non-empty phone and a
      supplied relationship are checked; names and the family group are not. */
  predicate ValidUpdateInput(input: UpdateGuestInput) {
    && (input.phone.None? || input.phone.value == "" || IsMobilePhone(input.phone.value))
    && (input.relationship.None? || IsRelationship(input.relationship.value))
  }

  /** `validateUpdate`: phone first, then relationship. */
  function ValidateUpdate(input: UpdateGuestInput): (r: Option<Error>)
    ensures r.None? <==> ValidUpdateInput(input)
    ensures r.Some? ==> r.value.AppError? && r.value.code == StatusBadRequest && Unwrap(r.value) == None
    ensures (input.phone.Some? && input.phone.value != "" && !IsMobilePhone(input.phone.value))
              ==> r == Some(Validation(MsgInvalidPhone))
    ensures ((input.phone.None? || input.phone.value == "" || IsMobilePhone(input.phone.value))
             && input.relationship.Some? && !IsRelationship(input.relationship.value))
              ==> r == Some(Validation(MsgInvalidRelationship))
  {
    if input.phone.Some? && input.phone.value != "" && !IsMobilePhone(input.phone.value) then Some(Validation(MsgInvalidPhone))
    else if input.relationship.Some? && !IsRelationship(input.relationship.value) then Some(Validation(MsgInvalidRelationship))
    else None
  }

  // ---------------------------------------------------------------------
  // Uniqueness of names and phones

  /** No two guests share both first and last name. */
  ghost predicate NamesUnique(rows: seq<Guest>) {
    forall i, j :: 0 <= i < j < |rows| ==>
      !(rows[i].firstName == rows[j].firstName && rows[i].lastName == rows[j].lastName)
  }

  /** No two guests share a non-empty phone. */
  ghost predicate PhonesUnique(rows: seq<Guest>) {
    forall i, j :: 0 <= i < j < |rows| && rows[i].phone.Some? && rows[i].phone.value != "" ==>
      rows[i].phone != rows[j].phone
  }

  ghost predicate Unique(rows: seq<Guest>) {
    NamesUnique(rows) && PhonesUnique(rows)
  }

  // ---------------------------------------------------------------------
  // Create

  /** The conditions under which a create succeeds, stated over the whole table. */
  predicate CreateAllowed(rows: seq<Guest>, userKnown: bool, input: CreateGuestInput) {
    && ValidCreateInput(input)
    && userKnown
    && (forall g | g in rows :: !(g.firstName == input.firstName && g.lastName == input.lastName))
    && (input.phone == "" || forall g | g in rows :: g.phone != Some(input.phone))
    && (input.familyGroup.None? || FamilyGroupExists(rows, input.familyGroup.value))
  }

  /** The checks `Service.Create` makes before inserting, in its order:
      validation, the caller, a taken name, a taken non-empty phone, a
      supplied family group that does not exist. */
  function CreateRejection(rows: seq<Guest>, userKnown: bool, input: CreateGuestInput): (e: Option<Error>)
    ensures e.None? <==> CreateAllowed(rows, userKnown, input)
    ensures e.Some? ==> e.value.AppError? && e.value.code in {StatusBadRequest, StatusForbidden, StatusNotFound, StatusConflict}
    ensures ValidateCreate(input).Some? ==> e == ValidateCreate(input)
    ensures ValidCreateInput(input) && !userKnown ==> e == Some(Forbidden(MsgUnauthorized))
    ensures (ValidCreateInput(input) && userKnown
             && exists g | g in rows :: g.firstName == input.firstName && g.lastName == input.lastName)
              ==> e == Some(Conflict(NameTakenMessage(input.firstName, input.lastName), None))
    ensures (ValidCreateInput(input) && userKnown
             && (forall g | g in rows :: !(g.firstName == input.firstName && g.lastName == input.lastName))
             && input.phone != "" && exists g | g in rows :: g.phone == Some(input.phone))
              ==> e == Some(Conflict(PhoneTakenMessage(input.phone), None))
    ensures (ValidCreateInput(input) && userKnown
             && (forall g | g in rows :: !(g.firstName == input.firstName && g.lastName == input.lastName))
             && (input.phone == "" || forall g | g in rows :: g.phone != Some(input.phone))
             && input.familyGroup.Some? && !FamilyGroupExists(rows, input.familyGroup.value))
              ==> e == Some(NotFound(MsgFamilyGroupNotFound, None))
  {
    match ValidateCreate(input)
    case Some(e) => Some(e)
    case None =>
      if !userKnown then Some(Forbidden(MsgUnauthorized))
      else if GetByName(rows, input.firstName, input.lastName).Some? then
        Some(Conflict(NameTakenMessage(input.firstName, input.lastName), None))
      else if input.phone != "" && GetByPhone(rows, input.phone).Some? then
        Some(Conflict(PhoneTakenMessage(input.phone), None))
      else if input.familyGroup.Some? && !FamilyGroupExists(rows, input.familyGroup.value) then
        Some(NotFound(MsgFamilyGroupNotFound, None))
      else None
  }

  /** `Service.Create`: the first failed check is the error and leaves the
      table as it was; otherwise a supplied family group is kept, a missing
      one becomes the next free one, and the guest is inserted. */
  function CreateOutcome(st: TableState, userKnown: bool, input: CreateGuestInput, racf: string): (r: (Result<Guest, Error>, TableState))
    ensures r.0.Success? <==> CreateAllowed(st.rows, userKnown, input)
    ensures r.0.Failure? ==> r.1 == st && r.0.error.AppError?
    ensures r.0.Failure? ==> r.0.error.code in {StatusBadRequest, StatusForbidden, StatusNotFound, StatusConflict}
    ensures r.0.Failure? ==> Some(r.0.error) == CreateRejection(st.rows, userKnown, input)
    ensures ValidCreateInput(input) && !userKnown ==> r.0 == Failure(Forbidden(MsgUnauthorized))
    ensures r.0.Success? ==>
      var g := r.0.value;
      && r.1 == TableState(st.rows + [g], st.nextId + 1, st.clock + 1)
      && g.id == st.nextId && g.firstName == input.firstName && g.lastName == input.lastName
      && g.relationship == input.relationship && !g.confirmed
      && (g.phone.None? <==> input.phone == "") && (g.phone.Some? ==> g.phone.value == input.phone)
      && g.createdBy == racf && g.updatedBy == racf
      && (input.familyGroup.Some? ==> g.familyGroup == input.familyGroup.value)
      && (input.familyGroup.None? ==> g.familyGroup == NextFamilyGroup(st.rows) && !FamilyGroupExists(st.rows, g.familyGroup))
  {
    match CreateRejection(st.rows, userKnown, input)
    case Some(e) => (Failure(e), st)
    case None =>
      var fg := if input.familyGroup.Some? then input.familyGroup.value else NextFamilyGroup(st.rows);
      var (g, st') := CreateRow(st, input.(familyGroup := Some(fg)), racf);
      (Success(g), st')
  }

  /** A successful create keeps names and non-empty phones unique and the
      table valid. */
  lemma {:induction false} CreatePreservesUnique(st: TableState, userKnown: bool, input: CreateGuestInput, racf: string)
    requires ValidTable(st) && Unique(st.rows)
    ensures ValidTable(CreateOutcome(st, userKnown, input, racf).1)
    ensures Unique(CreateOutcome(st, userKnown, input, racf).1.rows)
  {
    var (r, st') := CreateOutcome(st, userKnown, input, racf);
    if r.Success? {
      var fg := if input.familyGroup.Some? then input.familyGroup.value else NextFamilyGroup(st.rows);
      CreateRowSpec(st, input.(familyGroup := Some(fg)), racf);
      var g := r.value;
      assert CreateAllowed(st.rows, userKnown, input);
      assert g.phone.Some? ==> g.phone == Some(input.phone) && input.phone != "";
      AppendKeepsUnique(st.rows, g);
    }
  }

  /** Appending a guest whose name and non-empty phone no row holds keeps
      names and non-empty phones unique. */
  lemma AppendKeepsUnique(rows: seq<Guest>, g: Guest)
    requires Unique(rows)
    requires forall h | h in rows :: !(h.firstName == g.firstName && h.lastName == g.lastName)
    requires g.phone.Some? ==> forall h | h in rows :: h.phone != g.phone
    ensures Unique(rows + [g])
  {
    var rows' := rows + [g];
    forall a, b | 0 <= a < b < |rows'|
      ensures !(rows'[a].firstName == rows'[b].firstName && rows'[a].lastName == rows'[b].lastName)
      ensures rows'[a].phone.Some? && rows'[a].phone.value != "" ==> rows'[a].phone != rows'[b].phone
    {
      assert rows'[a] == rows[a] && rows[a] in rows;
      if b < |rows| {
        assert rows'[b] == rows[b];
      } else {
        assert rows'[b] == g;
      }
    }
  }

  /** An empty table accepts a valid create from a known user with no family
      group, and the guest opens family group 1. */
  lemma CreateOnEmptyTable(userKnown: bool, input: CreateGuestInput, racf: string)
    requires ValidCreateInput(input) && userKnown && input.familyGroup.None?
    ensures var (r, st') := CreateOutcome(TableState([], 1, 0), userKnown, input, racf);
      r.Success? && r.value.id == 1 && r.value.familyGroup == 1 && st'.rows == [r.value]
  {
  }

  // ---------------------------------------------------------------------
  // Update

  /** A supplied non-empty phone whose first holder is another guest. */
  predicate PhoneClash(rows: seq<Guest>, id: int, phone: Option<string>) {
    && phone.Some? && phone.value != ""
    && var holder := GetByPhone(rows, phone.value);
       holder.Some? && holder.value.id != id
  }

  /** The name the guest would carry after the update. */
  function MergedName(current: Guest, input: UpdateGuestInput): (string, string) {
    (input.firstName.GetOr(current.firstName), input.lastName.GetOr(current.lastName))
  }

  /** A supplied first or last name whose resulting full name's first holder is another guest. */
  predicate NameClash(rows: seq<Guest>, id: int, current: Guest, input: UpdateGuestInput) {
    var (f, l) := MergedName(current, input);
    var holder := GetByName(rows, f, l);
    holder.Some? && holder.value.id != id
  }

  /** The conditions under which an update succeeds, stated over the whole
      table: the guest exists, no other guest holds the supplied phone, and no
      other guest carries the resulting name when a name is supplied. */
  ghost predicate UpdateAllowed(rows: seq<Guest>, userKnown: bool, id: int, input: UpdateGuestInput) {
    && ValidUpdateInput(input)
    && userKnown
    && (exists g | g in rows :: g.id == id)
    && (input.phone.None? || input.phone.value == "" ||
          forall g | g in rows :: g.phone == input.phone ==> g.id == id)
    && ((input.firstName.None? && input.lastName.None?) ||
          forall g, h | g in rows && h in rows && g.id == id ::
            (h.firstName, h.lastName) == MergedName(g, input) ==> h.id == id)
  }

  /** `Service.Update`: validate, check the caller, reject a phone held by
      another guest, and, when a name is supplied, load the guest (not found
      otherwise) and reject a resulting name held by another guest; then
      merge. A missing guest is a not-found error wrapping the repository
      sentinel; a failure leaves the table as it was. */
  function UpdateOutcome(st: TableState, userKnown: bool, id: int, input: UpdateGuestInput, racf: string): (r: (Result<Guest, Error>, TableState))
    ensures r.0.Failure? ==> r.1 == st && r.0.error.AppError?
    ensures r.0.Failure? ==> r.0.error.code in {StatusBadRequest, StatusForbidden, StatusNotFound, StatusConflict}
    ensures r.0.Success? ==> r.1 == UpdateRow(st, id, input, racf).1 && r.0 == UpdateRow(st, id, input, racf).0
    ensures (ValidUpdateInput(input) && userKnown && !PhoneClash(st.rows, id, input.phone)
              && (forall g | g in st.rows :: g.id != id)) ==> r.0 == Failure(GuestNotFoundError())
  {
    match ValidateUpdate(input)
    case Some(e) => (Failure(e), st)
    case None =>
      if !userKnown then (Failure(Forbidden(MsgUnauthorized)), st)
      else if PhoneClash(st.rows, id, input.phone) then
        (Failure(Conflict(PhoneTakenMessage(input.phone.value), None)), st)
      else if input.firstName.Some? || input.lastName.Some? then
        match GetByID(st.rows, id)
        case Failure(_) => (Failure(GuestNotFoundError()), st)
        case Success(current) =>
          if NameClash(st.rows, id, current, input) then
            var (f, l) := MergedName(current, input);
            (Failure(Conflict(NameTakenMessage(f, l), None)), st)
          else Merged(st, id, input, racf)
      else Merged(st, id, input, racf)
  }

  /** The repository update with its not-found error mapped. */
  function Merged(st: TableState, id: int, input: UpdateGuestInput, racf: string): (r: (Result<Guest, Error>, TableState))
    ensures r.0.Failure? ==> r.1 == st && r.0.error == GuestNotFoundError()
    ensures r.0.Success? ==> r == UpdateRow(st, id, input, racf)
    ensures r.0.Failure? <==> UpdateRow(st, id, input, racf).0.Failure?
  {
    match UpdateRow(st, id, input, racf)
    case (Failure(_), _) => (Failure(GuestNotFoundError()), st)
    case (Success(g), st') => (Success(g), st')
  }

  /** A proof aid: `UpdateOutcome` unfolded branch by branch, in the order
      the service takes the steps, so that `GuestService.Update` and the
      handler can follow it without unfolding the whole function. The
      properties of the update are stated by `UpdateOutcomeSpec`. */
  lemma UpdateOutcomeSteps(st: TableState, known: bool, id: int, input: UpdateGuestInput, racf: string)
    ensures var out := UpdateOutcome(st, known, id, input, racf);
      && (ValidateUpdate(input).Some? ==> out == (Failure(ValidateUpdate(input).value), st))
      && (ValidateUpdate(input).None? && !known ==> out == (Failure(Forbidden(MsgUnauthorized)), st))
      && (ValidateUpdate(input).None? && known && PhoneClash(st.rows, id, input.phone) ==>
            out == (Failure(Conflict(PhoneTakenMessage(input.phone.value), None)), st))
      && ((ValidateUpdate(input).None? && known && !PhoneClash(st.rows, id, input.phone) &&
           (input.firstName.Some? || input.lastName.Some?)) ==>
            match GetByID(st.rows, id)
            case Failure(_) => out == (Failure(GuestNotFoundError()), st)
            case Success(current) =>
              if NameClash(st.rows, id, current, input) then
                var (f, l) := MergedName(current, input);
                out == (Failure(Conflict(NameTakenMessage(f, l), None)), st)
              else out == Merged(st, id, input, racf))
      && ((ValidateUpdate(input).None? && known && !PhoneClash(st.rows, id, input.phone) &&
           input.firstName.None? && input.lastName.None?) ==> out == Merged(st, id, input, racf))
  {
  }

  /** On a table whose names and phones are unique, the first-match lookups
      the service performs decide exactly `UpdateAllowed`. */
  lemma {:induction false} UpdateOutcomeSpec(st: TableState, userKnown: bool, id: int, input: UpdateGuestInput, racf: string)
    requires ValidTable(st) && Unique(st.rows)
    ensures UpdateOutcome(st, userKnown, id, input, racf).0.Success? <==> UpdateAllowed(st.rows, userKnown, id, input)
  {
    var out := UpdateOutcome(st, userKnown, id, input, racf).0;
    if !ValidUpdateInput(input) || !userKnown {
      return;
    }
    UpdateOutcomeSteps(st, userKnown, id, input, racf);
    PhoneClashIff(st, id, input.phone);
    if PhoneClash(st.rows, id, input.phone) {
      return;
    }
    match IndexOfId(st.rows, id)
    case None =>
      assert out.Failure?;
    case Some(k) =>
      var current := st.rows[k];
      assert current in st.rows;
      assert Merged(st, id, input, racf).0.Success?;
      if input.firstName.Some? || input.lastName.Some? {
        NameClashIff(st, k, input);
        assert GetByID(st.rows, id) == Success(current);
      } else {
        assert out.Success?;
      }
  }

  /** With unique phones, the first holder of a phone is another guest
      exactly when some holder is. */
  lemma PhoneClashIff(st: TableState, id: int, phone: Option<string>)
    requires ValidTable(st) && PhonesUnique(st.rows)
    ensures !PhoneClash(st.rows, id, phone) <==>
      (phone.None? || phone.value == "" || forall g | g in st.rows :: g.phone == phone ==> g.id == id)
  {
    if phone.Some? && phone.value != "" {
      var holder := GetByPhone(st.rows, phone.value);
      if holder.Some? && holder.value.id == id {
        forall g | g in st.rows && g.phone == phone ensures g.id == id {
          UniquePhoneHolder(st, holder.value, g);
        }
      }
    }
  }

  /** With unique names, the first holder of the merged name is another
      guest exactly when some holder is; the guest with the id is the one at `k`. */
  lemma NameClashIff(st: TableState, k: nat, input: UpdateGuestInput)
    requires ValidTable(st) && NamesUnique(st.rows) && k < |st.rows|
    ensures var id := st.rows[k].id;
      !NameClash(st.rows, id, st.rows[k], input) <==>
        forall g, h | g in st.rows && h in st.rows && g.id == id ::
          (h.firstName, h.lastName) == MergedName(g, input) ==> h.id == id
  {
    var id := st.rows[k].id;
    var current := st.rows[k];
    forall g | g in st.rows && g.id == id ensures g == current {
      var j :| 0 <= j < |st.rows| && st.rows[j] == g;
      if j != k { IdsDistinct(st, j, k); }
    }
    var (f, l) := MergedName(current, input);
    var holder := GetByName(st.rows, f, l);
    if holder.Some? && holder.value.id == id {
      forall h | h in st.rows && (h.firstName, h.lastName) == (f, l) ensures h.id == id {
        UniqueNameHolder(st, holder.value, h);
      }
    }
  }

  /** Two guests with the same non-empty phone are the same guest. */
  lemma UniquePhoneHolder(st: TableState, g: Guest, h: Guest)
    requires ValidTable(st) && PhonesUnique(st.rows)
    requires g in st.rows && h in st.rows && g.phone == h.phone && g.phone.Some? && g.phone.value != ""
    ensures g.id == h.id
  {
    var i :| 0 <= i < |st.rows| && st.rows[i] == g;
    var j :| 0 <= j < |st.rows| && st.rows[j] == h;
  }

  /** Two guests with the same full name are the same guest. */
  lemma UniqueNameHolder(st: TableState, g: Guest, h: Guest)
    requires ValidTable(st) && NamesUnique(st.rows)
    requires g in st.rows && h in st.rows && g.firstName == h.firstName && g.lastName == h.lastName
    ensures g.id == h.id
  {
    var i :| 0 <= i < |st.rows| && st.rows[i] == g;
    var j :| 0 <= j < |st.rows| && st.rows[j] == h;
  }

  /** Replacing one row by a guest that shares its full name and its
      non-empty phone with no other row keeps the table unique. */
  lemma ReplaceKeepsUnique(rows: seq<Guest>, k: nat, g: Guest)
    requires Unique(rows) && k < |rows|
    requires forall i :: 0 <= i < |rows| && i != k ==>
      !(rows[i].firstName == g.firstName && rows[i].lastName == g.lastName)
    requires forall i :: 0 <= i < |rows| && i != k && rows[i].phone == g.phone ==>
      g.phone.None? || g.phone.value == ""
    ensures Unique(rows[k := g])
  {
  }

  /** The merged row of a permitted update clashes with no other row. */
  lemma MergedIsFree(st: TableState, userKnown: bool, id: int, input: UpdateGuestInput, racf: string, k: nat, i: nat)
    requires ValidTable(st) && Unique(st.rows) && UpdateAllowed(st.rows, userKnown, id, input)
    requires k < |st.rows| && st.rows[k].id == id && i < |st.rows| && i != k
    ensures var g := Merge(st.rows[k], input, racf, st.clock);
      && !(st.rows[i].firstName == g.firstName && st.rows[i].lastName == g.lastName)
      && (st.rows[i].phone == g.phone ==> g.phone.None? || g.phone.value == "")
  {
    var g := Merge(st.rows[k], input, racf, st.clock);
    var cur, other := st.rows[k], st.rows[i];
    assert cur in st.rows && other in st.rows;
    IdsDistinct(st, i, k);
    if other.firstName == g.firstName && other.lastName == g.lastName {
      if input.firstName.None? && input.lastName.None? {
        UniqueNameHolder(st, cur, other);
      }
    }
    if other.phone == g.phone && g.phone.Some? && g.phone.value != "" {
      if input.phone.None? {
        UniquePhoneHolder(st, cur, other);
      }
    }
  }

  /** A successful update keeps names and non-empty phones unique and the
      table valid. */
  lemma {:induction false} UpdatePreservesUnique(st: TableState, userKnown: bool, id: int, input: UpdateGuestInput, racf: string)
    requires ValidTable(st) && Unique(st.rows)
    ensures ValidTable(UpdateOutcome(st, userKnown, id, input, racf).1)
    ensures Unique(UpdateOutcome(st, userKnown, id, input, racf).1.rows)
  {
    var (r, st') := UpdateOutcome(st, userKnown, id, input, racf);
    UpdateRowSpec(st, id, input, racf);
    if r.Failure? {
      return;
    }
    UpdateOutcomeSpec(st, userKnown, id, input, racf);
    var k := IndexOfId(st.rows, id).value;
    var g := Merge(st.rows[k], input, racf, st.clock);
    assert st'.rows == st.rows[k := g];
    forall i | 0 <= i < |st.rows| && i != k
      ensures !(st.rows[i].firstName == g.firstName && st.rows[i].lastName == g.lastName)
      ensures st.rows[i].phone == g.phone ==> g.phone.None? || g.phone.value == ""
    {
      MergedIsFree(st, userKnown, id, input, racf, k, i);
    }
    ReplaceKeepsUnique(st.rows, k, g);
  }

  /** Update validation checks neither names nor the family group: an
      update may blank a guest's first name and move it to group -3. */
  lemma UpdateAcceptsEmptyNameAndNegativeGroup()
    ensures var g := Guest(1, "Ana", "Silva", None, "P", false, 1, "AB123", "AB123", 0, 0);
      var input := NoChanges.(firstName := Some(""), familyGroup := Some(-3));
      UpdateOutcome(TableState([g], 2, 1), true, 1, input, "AB123").0
        == Success(g.(firstName := "", familyGroup := -3, updatedAt := 1))
  {
    var g := Guest(1, "Ana", "Silva", None, "P", false, 1, "AB123", "AB123", 0, 0);
    var input := NoChanges.(firstName := Some(""), familyGroup := Some(-3));
    assert GetByID([g], 1) == Success(g);
    assert GetByName([g], "", "Silva").None?;
  }

  /** A delete keeps names and non-empty phones unique. */
  lemma {:induction false} DeletePreservesUnique(st: TableState, id: int)
    requires ValidTable(st) && Unique(st.rows)
    ensures Unique(DeleteRow(st, id).1.rows)
  {
    match IndexOfId(st.rows, id)
    case None =>
    case Some(i) =>
      RemoveKeepsUnique(st.rows, i);
      assert DeleteRow(st, id).1.rows == st.rows[..i] + st.rows[i + 1..];
  }

  /** Removing one row keeps names and non-empty phones unique. */
  lemma RemoveKeepsUnique(rows: seq<Guest>, i: nat)
    requires i < |rows| && Unique(rows)
    ensures Unique(rows[..i] + rows[i + 1..])
  {
    var rest := rows[..i] + rows[i + 1..];
    forall a, b | 0 <= a < b < |rest|
      ensures !(rest[a].firstName == rest[b].firstName && rest[a].lastName == rest[b].lastName)
      ensures rest[a].phone.Some? && rest[a].phone.value != "" ==> rest[a].phone != rest[b].phone
    {
      var a', b' := if a < i then a else a + 1, if b < i then b else b + 1;
      assert rest[a] == rows[a'] && rest[b] == rows[b'];
    }
  }

  // ---------------------------------------------------------------------
  // The service over the shared tables

  class GuestService {
    const repo: GuestTable
    const users: UserTable

    ghost predicate Valid()
      reads repo, users
    {
      repo.Valid() && users.Valid() && Unique(repo.rows)
    }

    constructor (repo: GuestTable, users: UserTable)
      requires repo.Valid() && users.Valid() && Unique(repo.rows)
      ensures Valid() && this.repo == repo && this.users == users
    {
      this.repo := repo;
      this.users := users;
    }

    /** `Service.List`: the repository's newest-first list. */
    method List() returns (gs: seq<Guest>)
      requires Valid()
      ensures forall g :: g in gs <==> g in repo.rows
      ensures NewestFirst(gs) && |gs| == |repo.rows|
      ensures forall i :: 0 <= i < |gs| ==> gs[i] == repo.rows[|repo.rows| - 1 - i]
    {
      gs := repo.List();
    }

    /** `Service.GetByID`: the guest, or a not-found error wrapping the sentinel. */
    method GetByID(id: int) returns (r: Result<Guest, Error>)
      requires Valid()
      ensures r.Success? ==> r.value in repo.rows && r.value.id == id
      ensures r.Failure? <==> forall g | g in repo.rows :: g.id != id
      ensures r.Failure? ==> r.error == GuestNotFoundError()
    {
      match GuestRepository.GetByID(repo.rows, id)
      case Success(g) => r := Success(g);
      case Failure(_) => r := Failure(GuestNotFoundError());
    }

    method Create(input: CreateGuestInput, racf: string) returns (r: Result<Guest, Error>)
      requires Valid()
      modifies repo
      ensures Valid()
      ensures (r, repo.State()) == CreateOutcome(old(repo.State()), UserExistsByURACF(users.rows, racf), input, racf)
    {
      CreatePreservesUnique(repo.State(), UserExistsByURACF(users.rows, racf), input, racf);
      var invalid := ValidateCreate(input);
      if invalid.Some? {
        return Failure(invalid.value);
      }
      var known := UserExistsByURACF(users.rows, racf);
      if !known {
        return Failure(Forbidden(MsgUnauthorized));
      }
      var existing := GetByName(repo.rows, input.firstName, input.lastName);
      if existing.Some? {
        return Failure(Conflict(NameTakenMessage(input.firstName, input.lastName), None));
      }
      if input.phone != "" {
        var existingByPhone := GetByPhone(repo.rows, input.phone);
        if existingByPhone.Some? {
          return Failure(Conflict(PhoneTakenMessage(input.phone), None));
        }
      }
      var familyGroup: int;
      if input.familyGroup.Some? {
        if !FamilyGroupExists(repo.rows, input.familyGroup.value) {
          return Failure(NotFound(MsgFamilyGroupNotFound, None));
        }
        familyGroup := input.familyGroup.value;
      } else {
        familyGroup := NextFamilyGroup(repo.rows);
      }
      var g := repo.Create(input.(familyGroup := Some(familyGroup)), racf);
      r := Success(g);
    }

    method Update(id: int, input: UpdateGuestInput, racf: string) returns (r: Result<Guest, Error>)
      requires Valid()
      modifies repo
      ensures Valid()
      ensures (r, repo.State()) == UpdateOutcome(old(repo.State()), UserExistsByURACF(users.rows, racf), id, input, racf)
    {
      ghost var st := repo.State();
      var known := UserExistsByURACF(users.rows, racf);
      UpdateOutcomeSteps(st, known, id, input, racf);
      var invalid := ValidateUpdate(input);
      if invalid.Some? {
        return Failure(invalid.value);
      }
      if !known {
        return Failure(Forbidden(MsgUnauthorized));
      }
      if PhoneClash(repo.rows, id, input.phone) {
        return Failure(Conflict(PhoneTakenMessage(input.phone.value), None));
      }
      if input.firstName.Some? || input.lastName.Some? {
        var current := GuestRepository.GetByID(repo.rows, id);
        if current.Failure? {
          return Failure(GuestNotFoundError());
        }
        if NameClash(repo.rows, id, current.value, input) {
          var (f, l) := MergedName(current.value, input);
          return Failure(Conflict(NameTakenMessage(f, l), None));
        }
      }
      ghost var out := Merged(st, id, input, racf);
      assert UpdateOutcome(st, known, id, input, racf) == out;
      UpdatePreservesUnique(st, known, id, input, racf);
      var updated := repo.Update(id, input, racf);
      assert (updated, repo.State()) == UpdateRow(st, id, input, racf);
      if updated.Failure? {
        return Failure(GuestNotFoundError());
      }
      r := updated;
      assert (r, repo.State()) == out;
    }

    method Delete(id: int) returns (r: Result<(), Error>)
      requires Valid()
      modifies repo
      ensures Valid()
      ensures r.Failure? ==> r.error == GuestNotFoundError() && repo.State() == old(repo.State())
      ensures r.Success? <==> exists g | g in old(repo.rows) :: g.id == id
      ensures repo.State() == DeleteRow(old(repo.State()), id).1
    {
      DeleteRowSpec(repo.State(), id);
      DeletePreservesUnique(repo.State(), id);
      var deleted := repo.Delete(id);
      if deleted.Failure? {
        return Failure(GuestNotFoundError());
      }
      r := Success(());
    }
  }
}
