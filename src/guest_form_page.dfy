/** The guest form page: the form's own schema, the phone field's input
    filter, the values loaded from a stored guest, and what a submit sends.
    The form library, navigation and rendering are left out; a submit is
    the request it would send, or the message it shows instead. */
module GuestFormPage {
  import opened Wrappers
  import opened Text
  import opened Json
  import opened GuestTypes
  import GuestService
  import GuestRepository
  import ApiClient
  import AppErr

  const MsgFirstNameRequired: string := "Nome é obrigatório."
  const MsgLastNameRequired: string := "Sobrenome é obrigatório."
  const MsgPhoneDigits: string := "Telefone deve ter 11 dígitos."
  const MsgFamilyGroup: string := "Grupo familiar deve ser um número válido."
  const MsgConfigureIdentity: string :=
    "Configure sua identificação (RACF) na página de Lista de Presença antes de salvar."

  /** What the fields hold before the schema runs. The family group comes
      from a number input read as a number: `None` stands for the `NaN` an
      empty or unreadable field gives. */
  datatype FormInput = FormInput(
    firstName: string,
    lastName: string,
    phone: string,
    relationship: string,
    familyGroup: Option<real>,
    confirmed: bool)

  /** What `guestFormSchema` hands to the submit handler. */
  datatype FormValues = FormValues(
    firstName: string,
    lastName: string,
    phone: string,
    relationship: string,
    familyGroup: int,
    confirmed: bool)

  /** The form's starting values. */
  const Defaults: FormInput := FormInput("", "", "", "P", Some(1.0), false)

  /** The fields loaded from a stored guest; a missing phone becomes "". */
  function FromGuest(g: Guest): (f: FormInput)
    ensures f.phone == (if g.phone.Some? then g.phone.value else "")
    ensures f.familyGroup == Some(g.familyGroup as real)
    ensures (f.firstName, f.lastName, f.relationship, f.confirmed) == (g.firstName, g.lastName, g.relationship, g.confirmed)
  {
    FormInput(g.firstName, g.lastName, g.phone.GetOr(""), g.relationship, Some(g.familyGroup as real), g.confirmed)
  }

  // ---------------------------------------------------------------------
  // guestFormSchema

  /** The digits of a phone field, which must number 0 or 11. */
  predicate PhoneDigitsOk(phone: string) {
    var d := DigitsOnly(phone);
    |d| == 0 || |d| == 11
  }

  predicate FamilyGroupOk(n: Option<real>) {
    n.Some? && IsInteger(n.value) && n.value >= 1.0
  }

  /** The message of each failing field. Where the schema gives none, the
      form library's default applies, written `None`. */
  function FieldErrors(f: FormInput): (errs: map<string, Option<string>>)
    ensures "firstName" in errs <==> JsTrim(f.firstName) == ""
    ensures "lastName" in errs <==> JsTrim(f.lastName) == ""
    ensures "phone" in errs <==> !PhoneDigitsOk(f.phone)
    ensures "relationship" in errs <==> !GuestService.IsRelationship(f.relationship)
    ensures "familyGroup" in errs <==> !FamilyGroupOk(f.familyGroup)
    ensures errs.Keys <= {"firstName", "lastName", "phone", "relationship", "familyGroup"}
    ensures "firstName" in errs ==> errs["firstName"] == Some(MsgFirstNameRequired)
    ensures "lastName" in errs ==> errs["lastName"] == Some(MsgLastNameRequired)
    ensures "phone" in errs ==> errs["phone"] == Some(MsgPhoneDigits)
    ensures f.familyGroup.Some? && IsInteger(f.familyGroup.value) && f.familyGroup.value < 1.0 ==>
      errs["familyGroup"] == Some(MsgFamilyGroup)
  {
    var e0: map<string, Option<string>> := map[];
    var e1 := if JsTrim(f.firstName) == "" then e0["firstName" := Some(MsgFirstNameRequired)] else e0;
    var e2 := if JsTrim(f.lastName) == "" then e1["lastName" := Some(MsgLastNameRequired)] else e1;
    var e3 := if !PhoneDigitsOk(f.phone) then e2["phone" := Some(MsgPhoneDigits)] else e2;
    var e4 := if !GuestService.IsRelationship(f.relationship) then e3["relationship" := None] else e3;
    if FamilyGroupOk(f.familyGroup) then e4
    else e4["familyGroup" := if f.familyGroup.Some? && IsInteger(f.familyGroup.value) then Some(MsgFamilyGroup) else None]
  }

  /** `guestFormSchema`: names trimmed and not empty, the phone reduced to
      its digits, of which there are none or eleven, "P" or "R", and a whole
      family group of at least 1. Every failing field is reported. */
  function ParseForm(f: FormInput): (r: Result<FormValues, map<string, Option<string>>>)
    ensures r.Failure? <==> FieldErrors(f) != map[]
    ensures r.Failure? ==> r.error == FieldErrors(f)
    ensures r.Success? ==>
      && r.value.firstName == JsTrim(f.firstName) != ""
      && r.value.lastName == JsTrim(f.lastName) != ""
      && r.value.phone == DigitsOnly(f.phone) && (|r.value.phone| == 0 || |r.value.phone| == 11)
      && GuestService.IsRelationship(r.value.relationship) && r.value.relationship == f.relationship
      && r.value.familyGroup >= 1 && f.familyGroup == Some(r.value.familyGroup as real)
      && r.value.confirmed == f.confirmed
  {
    var errs := FieldErrors(f);
    if errs != map[] then Failure(errs)
    else
      assert "familyGroup" !in errs;
      Success(FormValues(JsTrim(f.firstName), JsTrim(f.lastName), DigitsOnly(f.phone), f.relationship,
                         f.familyGroup.value.Floor, f.confirmed))
  }

  /** The starting values are refused for the two names only. */
  lemma DefaultsNeedNames()
    ensures ParseForm(Defaults).Failure?
    ensures ParseForm(Defaults).error.Keys == {"firstName", "lastName"}
  {
    var errs := FieldErrors(Defaults);
    assert FamilyGroupOk(Some(1.0));
    assert "firstName" in errs;
    assert errs.Keys == {"firstName", "lastName"};
  }

  // ---------------------------------------------------------------------
  // The phone field

  /** The phone field's `onChange`: keep the digits and at most eleven of them. */
  function PhoneFieldInput(typed: string): (r: string)
    ensures AllDigits(r) && |r| <= 11
    ensures r <= DigitsOnly(typed)
    ensures |DigitsOnly(typed)| <= 11 ==> r == DigitsOnly(typed)
  {
    var d := DigitsOnly(typed);
    if |d| <= 11 then d else d[..11]
  }

  /** Filtering the field again changes nothing. */
  lemma PhoneFieldStable(typed: string)
    ensures PhoneFieldInput(PhoneFieldInput(typed)) == PhoneFieldInput(typed)
  {
  }

  // ---------------------------------------------------------------------
  // onSubmit

  datatype SubmitAction =
    | NoIdentity(message: string)
    | SendCreate(create: CreateGuestInput)
    | SendUpdate(id: int, update: UpdateGuestInput)

  /** `onSubmit` on values the schema accepted: without a stored identity
      nothing is sent and the page asks for one; editing sends every field,
      an empty phone as absent; creating sends the fields but `confirmed`. */
  function Submit(v: FormValues, guestId: Option<int>, stored: Option<string>): (a: SubmitAction)
    ensures a.NoIdentity? <==> stored.None? || stored.value == ""
    ensures a.NoIdentity? ==> a.message == MsgConfigureIdentity
    ensures a.SendUpdate? <==> !a.NoIdentity? && guestId.Some?
    ensures a.SendUpdate? ==>
      && a.id == guestId.value
      && a.update.firstName == Some(JsTrim(v.firstName)) && a.update.lastName == Some(JsTrim(v.lastName))
      && (a.update.phone.None? <==> JsTrim(v.phone) == "")
      && (a.update.phone.Some? ==> a.update.phone.value == JsTrim(v.phone))
      && a.update.relationship == Some(v.relationship)
      && a.update.confirmed == Some(v.confirmed)
      && a.update.familyGroup == Some(v.familyGroup)
    ensures a.SendCreate? ==>
      a.create == CreateGuestInput(JsTrim(v.firstName), JsTrim(v.lastName), JsTrim(v.phone), v.relationship, Some(v.familyGroup))
  {
    if stored.None? || stored.value == "" then NoIdentity(MsgConfigureIdentity)
    else if guestId.Some? then
      var phone := JsTrim(v.phone);
      SendUpdate(guestId.value, UpdateGuestInput(Some(JsTrim(v.firstName)), Some(JsTrim(v.lastName)),
                                                 if phone == "" then None else Some(phone),
                                                 Some(v.relationship), Some(v.confirmed), Some(v.familyGroup)))
    else
      SendCreate(CreateGuestInput(JsTrim(v.firstName), JsTrim(v.lastName), JsTrim(v.phone), v.relationship, Some(v.familyGroup)))
  }

  /** The page's identity check is the API client's: whenever the page lets
      a save through, the client builds its request, and otherwise the client
      would have refused it for the same reason. */
  lemma SubmitAgreesWithClient(v: FormValues, guestId: Option<int>, stored: Option<string>)
    ensures var op := if guestId.Some? then ApiClient.UpdateGuest(guestId.value) else ApiClient.CreateGuest;
      Submit(v, guestId, stored).NoIdentity? <==> ApiClient.BuildRequest(op, stored).Failure?
  {
  }

  /** Trimming digits changes nothing. */
  lemma TrimDigits(s: string)
    requires AllDigits(s)
    ensures JsTrim(s) == s
  {
    if s != [] {
      assert IsDigit(s[0]) && IsDigit(s[|s| - 1]);
    }
    TrimNoOp(s, IsJsSpace);
  }

  /** What the form accepts and creates, the server accepts too, provided
      the phone is empty or has '9' as its third digit: the form checks the
      length of the phone, the server also checks that it is a mobile one. */
  lemma FormCreateAcceptedByServer(f: FormInput, stored: Option<string>)
    requires ParseForm(f).Success?
    requires stored.Some? && stored.value != ""
    requires var p := ParseForm(f).value.phone; p == "" || p[2] == '9'
    ensures Submit(ParseForm(f).value, None, stored).SendCreate?
    ensures GuestService.ValidCreateInput(Submit(ParseForm(f).value, None, stored).create)
  {
    var v := ParseForm(f).value;
    TrimIdempotent(f.firstName, IsJsSpace);
    TrimIdempotent(f.lastName, IsJsSpace);
    TrimDigits(v.phone);
  }

  /** A phone the form accepts and the server refuses: eleven digits whose
      third is not '9'. Such a save fails with the server's phone message. */
  lemma FormPhoneCheckWeaker(f: FormInput, stored: Option<string>)
    requires ParseForm(f).Success?
    requires stored.Some? && stored.value != ""
    requires var p := ParseForm(f).value.phone; p != "" && p[2] != '9'
    ensures var a := Submit(ParseForm(f).value, None, stored);
      a.SendCreate? && GuestService.ValidateCreate(a.create) == Some(AppErr.Validation(GuestService.MsgInvalidPhone))
  {
    var v := ParseForm(f).value;
    TrimIdempotent(f.firstName, IsJsSpace);
    TrimIdempotent(f.lastName, IsJsSpace);
    TrimDigits(v.phone);
  }

  /** "11812345678" is such a phone. */
  lemma LandlineLikePhoneAccepted()
    ensures ParseForm(FormInput("Ana", "Souza", "11812345678", "P", Some(1.0), false)).Success?
    ensures ParseForm(FormInput("Ana", "Souza", "11812345678", "P", Some(1.0), false)).value.phone == "11812345678"
  {
    var f := FormInput("Ana", "Souza", "11812345678", "P", Some(1.0), false);
    assert AllDigits(f.phone);
    assert JsTrim("Ana") == "Ana" by { TrimNoOp("Ana", IsJsSpace); }
    assert JsTrim("Souza") == "Souza" by { TrimNoOp("Souza", IsJsSpace); }
    assert FamilyGroupOk(Some(1.0));
  }

  /** Opening a stored guest and saving it unchanged writes back the same
      guest, with only the updater and the update time changed. The guest
      must be one the form can show as it is and the server would accept:
      names already trimmed, a mobile phone or none, a known relationship and
      a family group of at least 1. */
  lemma UnchangedEditKeepsGuest(g: Guest, stored: Option<string>, now: int)
    requires stored.Some? && stored.value != ""
    requires g.firstName != "" && JsTrim(g.firstName) == g.firstName
    requires g.lastName != "" && JsTrim(g.lastName) == g.lastName
    requires g.phone.None? || GuestService.IsMobilePhone(g.phone.value)
    requires GuestService.IsRelationship(g.relationship) && g.familyGroup >= 1
    ensures ParseForm(FromGuest(g)).Success?
    ensures var a := Submit(ParseForm(FromGuest(g)).value, Some(g.id), stored);
      && a.SendUpdate?
      && GuestService.ValidUpdateInput(a.update)
      && GuestRepository.Merge(g, a.update, stored.value, now) == g.(updatedBy := stored.value, updatedAt := now)
  {
    var f := FromGuest(g);
    assert FamilyGroupOk(f.familyGroup) by {
      assert (g.familyGroup as real).Floor == g.familyGroup;
    }
    assert PhoneDigitsOk(f.phone);
    var v := ParseForm(f).value;
    assert v.familyGroup == g.familyGroup by {
      assert (g.familyGroup as real).Floor == g.familyGroup;
    }
    TrimDigits(v.phone);
    TrimIdempotent(g.firstName, IsJsSpace);
    TrimIdempotent(g.lastName, IsJsSpace);
  }

  /** Emptying the phone of a stored guest does not remove it: the update
      leaves the phone out, and the server keeps what it had. */
  lemma ClearedPhoneIsKept(g: Guest, v: FormValues, stored: Option<string>, now: int)
    requires stored.Some? && stored.value != "" && v.phone == ""
    ensures var a := Submit(v, Some(g.id), stored);
      a.SendUpdate? && GuestRepository.Merge(g, a.update, stored.value, now).phone == g.phone
  {
    TrimNoOp("", IsJsSpace);
  }
}
