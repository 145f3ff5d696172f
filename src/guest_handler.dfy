/** The guest HTTP handler: the caller's identifier header, the path id, the
    upload's file type, the choice of status and body for every outcome of
    the service, and the import loop that creates one guest per parsed row
    and aggregates the result. Request decoding and response writing are
    I/O: a body that did not decode is `None`, an upload arrives as its file
    name and its already-split rows. */
module GuestHandler {
  import opened Wrappers
  import opened Text
  import opened Json
  import opened AppErr
  import opened GuestTypes
  import opened GuestRepository
  import opened UserRepository
  import opened GuestService
  import opened GuestImporter
  import opened FilePath
  import opened ServeMux

  const MsgRacfRequired: string := "header user-racf is required"
  const MsgRacfFormat: string := "user-racf must be exactly 5 alphanumeric characters"
  const MsgInvalidId: string := "invalid guest ID"
  const MsgNotFound: string := "guest not found"
  const MsgInvalidJson: string := "invalid JSON"
  const MsgGetFailed: string := "failed to get guest"
  const MsgDeleteFailed: string := "failed to delete guest"
  const MsgFileRequired: string := "file is required"
  const MsgUnsupportedFormat: string := "unsupported file format: use .csv or .xlsx"
  const ParseFailedPrefix: string := "failed to parse file: "

  /** The patterns `RegisterRoutes` adds, in order: the list, the create, the
      three by-id routes and the import. */
  function GuestRoutes(): (routes: seq<string>)
    ensures Distinct(routes) && |routes| == 6
  {
    ["GET /api/guests", "POST /api/guests", "GET /api/guests/{id}",
     "PUT /api/guests/{id}", "DELETE /api/guests/{id}", "POST /api/guests/import"]
  }

  /** What a handler writes: a status and, unless it is 204, a JSON body. */
  datatype Response = Response(status: int, body: Option<Json>)

  /** `writeError`: the body `{"error": msg}`. */
  function ErrorResponse(status: int, msg: string): (resp: Response)
    ensures resp.status == status && resp.body.Some? && Field(resp.body.value, "error") == Some(JStr(msg))
    ensures resp.body.value.JObj? && resp.body.value.fields.Keys == {"error"}
  {
    Response(status, Some(JObj(map["error" := JStr(msg)])))
  }

  // ---------------------------------------------------------------------
  // Request parts

  /** `getUserRACF`: the trimmed header must be exactly five ASCII letters or
      digits, of either case; the identifier is its upper-case form. */
  function GetUserRACF(header: string): (r: Result<string, string>)
    ensures r.Success? <==> |TrimSpace(header)| == 5 && forall i :: 0 <= i < 5 ==> IsAsciiAlnum(TrimSpace(header)[i])
    ensures r.Success? ==> |r.value| == 5 && forall i :: 0 <= i < 5 ==> IsUpperAlnum(r.value[i])
    ensures r.Success? ==> forall i :: 0 <= i < 5 ==> r.value[i] == UpperChar(TrimSpace(header)[i])
    ensures r.Failure? && TrimSpace(header) == "" ==> r.error == MsgRacfRequired
    ensures r.Failure? && TrimSpace(header) != "" ==> r.error == MsgRacfFormat
  {
    var racf := TrimSpace(header);
    if racf == "" then Failure(MsgRacfRequired)
    else if !(|racf| == 5 && forall i :: 0 <= i < 5 ==> IsAsciiAlnum(racf[i])) then Failure(MsgRacfFormat)
    else Success(ToUpper(racf))
  }

  /** An accepted identifier is accepted again, unchanged. */
  lemma GetUserRACFIdempotent(header: string)
    requires GetUserRACF(header).Success?
    ensures GetUserRACF(GetUserRACF(header).value) == GetUserRACF(header)
  {
    var v := GetUserRACF(header).value;
    assert IsUpperAlnum(v[0]);
    assert IsUpperAlnum(v[4]);
    TrimNoOp(v, IsGoSpace);
    assert ToUpper(v) == v;
  }

  /** The header is case-insensitive: lower-case and upper-case spellings of
      the same letters name the same caller. */
  lemma GetUserRACFIgnoresCase(s: string)
    requires |s| == 5 && forall i :: 0 <= i < 5 ==> IsAsciiAlnum(s[i])
    ensures GetUserRACF(ToLower(s)) == GetUserRACF(ToUpper(s)) == Success(ToUpper(s))
  {
    var lo, up := ToLower(s), ToUpper(s);
    assert IsAsciiAlnum(lo[0]) && IsAsciiAlnum(lo[4]);
    assert IsAsciiAlnum(up[0]) && IsAsciiAlnum(up[4]);
    TrimNoOp(lo, IsGoSpace);
    TrimNoOp(up, IsGoSpace);
    assert ToUpper(lo) == up;
    assert ToUpper(up) == up;
  }

  /** `parseID`: the path value as a base-10 64-bit integer. */
  function ParseID(pathValue: string): (r: Option<int>)
    ensures r.Some? ==> MinInt64 <= r.value <= MaxInt64 && IntString(r.value) != ""
    ensures pathValue == "" ==> r.None?
  {
    ParseInt64(pathValue)
  }

  /** Every 64-bit id, written in decimal in the path, is read back. */
  lemma ParseIDRoundTrip(id: int)
    requires MinInt64 <= id <= MaxInt64
    ensures ParseID(IntString(id)) == Some(id)
  {
    ParseInt64RoundTrip(id);
  }

  // ---------------------------------------------------------------------
  // Response bodies

  /** A timestamp as the client receives it: a string. */
  function Timestamp(t: int): string { IntString(t) }

  /** The JSON object `encoding/json` writes for a guest. */
  function GuestJson(g: Guest): (j: Json)
    ensures j.JObj? && Field(j, "id") == Some(JNum(g.id as real))
    ensures Field(j, "phone") == (if g.phone.Some? then Some(JStr(g.phone.value)) else Some(JNull))
    ensures Field(j, "family_group") == Some(JNum(g.familyGroup as real))
  {
    JObj(map[
      "id" := JNum(g.id as real),
      "first_name" := JStr(g.firstName),
      "last_name" := JStr(g.lastName),
      "phone" := if g.phone.Some? then JStr(g.phone.value) else JNull,
      "relationship" := JStr(g.relationship),
      "confirmed" := JBool(g.confirmed),
      "family_group" := JNum(g.familyGroup as real),
      "created_by" := JStr(g.createdBy),
      "updated_by" := JStr(g.updatedBy),
      "created_at" := JStr(Timestamp(g.createdAt)),
      "updated_at" := JStr(Timestamp(g.updatedAt))])
  }

  function StringsJson(ss: seq<string>): (j: Json)
    ensures j.JArr? && |j.items| == |ss| && forall i :: 0 <= i < |ss| ==> j.items[i] == JStr(ss[i])
  {
    JArr(seq(|ss|, i requires 0 <= i < |ss| => JStr(ss[i])))
  }

  /** The import summary with `errors` always an array, as the client reads it. */
  function ImportBody(imported: nat, errors: seq<string>, total: nat): (j: Json)
    ensures Field(j, "errors") == Some(StringsJson(errors))
    ensures Field(j, "imported") == Some(JNum(imported as real)) && Field(j, "total") == Some(JNum(total as real))
  {
    JObj(map["imported" := JNum(imported as real), "errors" := StringsJson(errors), "total" := JNum(total as real)])
  }

  /** The import summary as the handler writes it: `errs` starts as a nil
      slice, which `encoding/json` writes as `null` when no row failed. */
  function ImportBodyAsWritten(imported: nat, errors: seq<string>, total: nat): (j: Json)
    ensures errors == [] ==> Field(j, "errors") == Some(JNull)
    ensures errors != [] ==> j == ImportBody(imported, errors, total)
  {
    JObj(map[
      "imported" := JNum(imported as real),
      "errors" := if errors == [] then JNull else StringsJson(errors),
      "total" := JNum(total as real)])
  }

  // ---------------------------------------------------------------------
  // Error-to-status choices

  /** `handleGet`: a service error that is the repository's not-found is
      404, any other is 500. */
  function GetResponse(r: Result<Guest, Error>): (resp: Response)
    ensures resp.status == StatusOK <==> r.Success?
    ensures r.Success? ==> resp.body == Some(GuestJson(r.value))
    ensures r.Failure? ==> resp == ErrorResponse(if Is(r.error, GuestErrNotFound) then StatusNotFound else StatusInternalServerError,
                                                 if Is(r.error, GuestErrNotFound) then MsgNotFound else MsgGetFailed)
  {
    match r
    case Success(g) => Response(StatusOK, Some(GuestJson(g)))
    case Failure(e) =>
      if Is(e, GuestErrNotFound) then ErrorResponse(StatusNotFound, MsgNotFound)
      else ErrorResponse(StatusInternalServerError, MsgGetFailed)
  }

  /** `handleCreate`: every service error, whatever its kind, is a 400 with
      the error's text. */
  function CreateResponse(r: Result<Guest, Error>): (resp: Response)
    ensures resp.status in {StatusCreated, StatusBadRequest}
    ensures resp.status == StatusCreated <==> r.Success?
    ensures r.Success? ==> resp.body == Some(GuestJson(r.value))
    ensures r.Failure? ==> resp == ErrorResponse(StatusBadRequest, ErrorString(r.error))
  {
    match r
    case Success(g) => Response(StatusCreated, Some(GuestJson(g)))
    case Failure(e) => ErrorResponse(StatusBadRequest, ErrorString(e))
  }

  /** `handleUpdate`: the repository's not-found is 404 with a fixed text;
      any other service error is a 400 with the error's text. */
  function UpdateResponse(r: Result<Guest, Error>): (resp: Response)
    ensures resp.status in {StatusOK, StatusBadRequest, StatusNotFound}
    ensures resp.status == StatusOK <==> r.Success?
    ensures resp.status == StatusNotFound <==> r.Failure? && Is(r.error, GuestErrNotFound)
    ensures r.Success? ==> resp.body == Some(GuestJson(r.value))
    ensures r.Failure? && !Is(r.error, GuestErrNotFound) ==> resp == ErrorResponse(StatusBadRequest, ErrorString(r.error))
  {
    match r
    case Success(g) => Response(StatusOK, Some(GuestJson(g)))
    case Failure(e) =>
      if Is(e, GuestErrNotFound) then ErrorResponse(StatusNotFound, MsgNotFound)
      else ErrorResponse(StatusBadRequest, ErrorString(e))
  }

  /** `handleDelete`: 204 with no body; the repository's not-found is 404,
      any other error 500. */
  function DeleteResponse(r: Result<(), Error>): (resp: Response)
    ensures resp.status == StatusNoContent <==> r.Success?
    ensures r.Success? ==> resp.body.None?
    ensures r.Failure? ==> resp.body.Some?
    ensures resp.status == StatusNotFound <==> r.Failure? && Is(r.error, GuestErrNotFound)
  {
    match r
    case Success(_) => Response(StatusNoContent, None)
    case Failure(e) =>
      if Is(e, GuestErrNotFound) then ErrorResponse(StatusNotFound, MsgNotFound)
      else ErrorResponse(StatusInternalServerError, MsgDeleteFailed)
  }

  /** A valid create from an unknown caller is refused by the service as
      forbidden, and the handler answers 400, not 403. */
  lemma CreateForbiddenIsBadRequest(st: TableState, input: CreateGuestInput, racf: string)
    requires ValidCreateInput(input)
    ensures CreateOutcome(st, false, input, racf).0.error.code == StatusForbidden
    ensures CreateResponse(CreateOutcome(st, false, input, racf).0) == ErrorResponse(StatusBadRequest, MsgUnauthorized)
  {
  }

  /** An update answers 404 exactly when, past validation, the caller check
      and the phone check, the guest does not exist. */
  lemma {:induction false} UpdateNotFoundIff(st: TableState, userKnown: bool, id: int, input: UpdateGuestInput, racf: string)
    requires ValidTable(st)
    requires ValidUpdateInput(input) && userKnown && !PhoneClash(st.rows, id, input.phone)
    ensures UpdateResponse(UpdateOutcome(st, userKnown, id, input, racf).0).status == StatusNotFound
            <==> forall g | g in st.rows :: g.id != id
  {
    var r := UpdateOutcome(st, userKnown, id, input, racf).0;
    UpdateOutcomeSteps(st, userKnown, id, input, racf);
    match IndexOfId(st.rows, id)
    case None =>
      assert r == Failure(GuestNotFoundError());
    case Some(k) =>
      var current := st.rows[k];
      assert current in st.rows;
      assert UpdateRow(st, id, input, racf).0.Success?;
      if input.firstName.Some? || input.lastName.Some? {
        assert GetByID(st.rows, id) == Success(current);
        if NameClash(st.rows, id, current, input) {
          var (f, l) := MergedName(current, input);
          assert r == Failure(Conflict(NameTakenMessage(f, l), None));
          CauselessMatchesNoSentinel(NameTakenMessage(f, l), GuestErrNotFound);
        }
      }
  }

  // ---------------------------------------------------------------------
  // Import aggregation

  /** A create as the import loop sees it: from the table and one input to
      the outcome and the new table. */
  type CreateStep = (TableState, CreateGuestInput) -> (Result<Guest, Error>, TableState)

  /** The service's create for a caller who is or is not a user. */
  function ServiceCreate(userKnown: bool, racf: string): CreateStep {
    (st: TableState, input: CreateGuestInput) => CreateOutcome(st, userKnown, input, racf)
  }

  /** The import loop after `inputs`: the number created, the texts of the
      failures in row order, and the table. Every row is attempted, whatever
      happened to the rows before it. */
  function ImportRun(st: TableState, create: CreateStep, inputs: seq<CreateGuestInput>): (r: (nat, seq<string>, TableState))
    ensures r.0 + |r.1| == |inputs|
    decreases |inputs|
  {
    if inputs == [] then (0, [], st)
    else
      var before := ImportRun(st, create, inputs[..|inputs| - 1]);
      var out := create(before.2, inputs[|inputs| - 1]);
      ImportStep(before, out.0, out.1)
  }

  /** One row of the import loop: a created guest is counted, a failure's
      text is appended. */
  function ImportStep(acc: (nat, seq<string>, TableState), res: Result<Guest, Error>, st: TableState): (nat, seq<string>, TableState) {
    if res.Success? then (acc.0 + 1, acc.1, st) else (acc.0, acc.1 + [ErrorString(res.error)], st)
  }

  /** The import loop over the first `i + 1` rows is one more step after the
      first `i`. */
  lemma ImportRunPrefix(st: TableState, known: bool, racf: string, inputs: seq<CreateGuestInput>, i: nat)
    requires i < |inputs|
    ensures var before := ImportRun(st, ServiceCreate(known, racf), inputs[..i]);
      var out := CreateOutcome(before.2, known, inputs[i], racf);
      ImportRun(st, ServiceCreate(known, racf), inputs[..i + 1]) == ImportStep(before, out.0, out.1)
  {
    assert inputs[..i + 1][..i] == inputs[..i];
  }

  /** Two runs of the import loop, one after the other. */
  function Then(first: (nat, seq<string>, TableState), second: (nat, seq<string>, TableState)): (nat, seq<string>, TableState) {
    (first.0 + second.0, first.1 + second.1, second.2)
  }

  /** Importing `a` then `b` is importing `a + b`: counts add up and the
      failures of `b` follow those of `a`. */
  lemma {:induction false} ImportRunAppend(st: TableState, create: CreateStep, a: seq<CreateGuestInput>, b: seq<CreateGuestInput>)
    ensures ImportRun(st, create, a + b) == Then(ImportRun(st, create, a), ImportRun(ImportRun(st, create, a).2, create, b))
    decreases |b|
  {
    var ra := ImportRun(st, create, a);
    if b != [] {
      var b', last := b[..|b| - 1], b[|b| - 1];
      ImportRunAppend(st, create, a, b');
      assert (a + b)[..|a + b| - 1] == a + b';
      assert (a + b)[|a + b| - 1] == last;
      var rb' := ImportRun(ra.2, create, b');
      var out := create(rb'.2, last);
      if out.0.Failure? {
        assert (ra.1 + rb'.1) + [ErrorString(out.0.error)] == ra.1 + (rb'.1 + [ErrorString(out.0.error)]);
      }
    } else {
      assert a + b == a && ra.1 + [] == ra.1;
    }
  }

  /** With the service's create, `imported` is exactly the number of rows
      added, and the rows already stored stay where they were. */
  lemma {:induction false} ImportRunRows(st: TableState, userKnown: bool, inputs: seq<CreateGuestInput>, racf: string)
    ensures var r := ImportRun(st, ServiceCreate(userKnown, racf), inputs);
            |r.2.rows| == |st.rows| + r.0 && r.2.rows[..|st.rows|] == st.rows
    decreases |inputs|
  {
    if inputs != [] {
      ImportRunRows(st, userKnown, inputs[..|inputs| - 1], racf);
      var before := ImportRun(st, ServiceCreate(userKnown, racf), inputs[..|inputs| - 1]);
      var out := CreateOutcome(before.2, userKnown, inputs[|inputs| - 1], racf);
      if out.0.Success? {
        assert out.1.rows[..|st.rows|] == before.2.rows[..|st.rows|];
      }
    }
  }

  /** An unknown caller imports nothing: every row fails and the table is as it was. */
  lemma {:induction false} ImportRunUnknownCaller(st: TableState, inputs: seq<CreateGuestInput>, racf: string)
    ensures ImportRun(st, ServiceCreate(false, racf), inputs).0 == 0
    ensures ImportRun(st, ServiceCreate(false, racf), inputs).2 == st
    decreases |inputs|
  {
    if inputs != [] {
      ImportRunUnknownCaller(st, inputs[..|inputs| - 1], racf);
    }
  }

  /** The summary response as the handler writes it: 400 when any row
      failed, 200 otherwise; with no failed row, `errors` is `null`. */
  function ImportResponse(imported: nat, errors: seq<string>, total: nat): (resp: Response)
    ensures resp.status == StatusOK <==> errors == []
    ensures resp.status in {StatusOK, StatusBadRequest}
    ensures resp.body.Some? && Field(resp.body.value, "imported") == Some(JNum(imported as real))
    ensures Field(resp.body.value, "total") == Some(JNum(total as real))
    ensures errors == [] ==> Field(resp.body.value, "errors") == Some(JNull)
    ensures errors != [] ==> resp.body == Some(ImportBody(imported, errors, total))
  {
    Response(if |errors| > 0 then StatusBadRequest else StatusOK, Some(ImportBodyAsWritten(imported, errors, total)))
  }

  /** The summary response with the corrected body: `errors` is an array
      even when no row failed. */
  function CorrectedImportResponse(imported: nat, errors: seq<string>, total: nat): (resp: Response)
    ensures resp.status == ImportResponse(imported, errors, total).status
    ensures resp.body == Some(ImportBody(imported, errors, total))
    ensures errors != [] ==> resp == ImportResponse(imported, errors, total)
  {
    Response(if |errors| > 0 then StatusBadRequest else StatusOK, Some(ImportBody(imported, errors, total)))
  }

  /** The status of an import is 200 exactly when every parsed row was created. */
  lemma ImportStatusIff(st: TableState, userKnown: bool, inputs: seq<CreateGuestInput>, racf: string)
    ensures var (c, es, _) := ImportRun(st, ServiceCreate(userKnown, racf), inputs);
            ImportResponse(c, es, |inputs|).status == StatusOK <==> c == |inputs|
  {
  }

  /** The upload of `POST /api/guests/import`: the file name and its rows. */
  datatype Upload = Upload(filename: string, rows: seq<seq<string>>)

  /** The file's guests, or the 400 response a bad file gets. */
  function ParseUpload(upload: Upload): (r: Result<seq<CreateGuestInput>, Response>)
    ensures FileKindOf(upload.filename).None? ==> r == Failure(ErrorResponse(StatusBadRequest, MsgUnsupportedFormat))
    ensures r.Failure? ==> r.error.status == StatusBadRequest
    ensures FileKindOf(upload.filename) == Some(Csv) ==>
      (r.Success? <==> ParseCsvSpec(upload.rows).Success?) && (r.Success? ==> r.value == ParseCsvSpec(upload.rows).value)
    ensures FileKindOf(upload.filename) == Some(Xlsx) ==>
      (r.Success? <==> ParseXlsxSpec(upload.rows).Success?) && (r.Success? ==> r.value == ParseXlsxSpec(upload.rows).value)
  {
    match FileKindOf(upload.filename)
    case None => Failure(ErrorResponse(StatusBadRequest, MsgUnsupportedFormat))
    case Some(kind) =>
      var parsed := if kind == Csv then ParseCsvSpec(upload.rows) else ParseXlsxSpec(upload.rows);
      match parsed
      case Failure(e) => Failure(ErrorResponse(StatusBadRequest, ParseFailedPrefix + ErrorText(e)))
      case Success(gs) => Success(gs)
  }

  // ---------------------------------------------------------------------
  // The handler

  class GuestHandler {
    const svc: GuestService

    ghost predicate Valid()
      reads svc.repo, svc.users
    {
      svc.Valid()
    }

    constructor (svc: GuestService)
      requires svc.Valid()
      ensures Valid() && this.svc == svc
    {
      this.svc := svc;
    }

    method RegisterRoutes(mux: Mux)
      requires forall p | p in GuestRoutes() :: p !in mux.patterns
      modifies mux
      ensures mux.patterns == old(mux.patterns) + GuestRoutes()
    {
      mux.HandleFunc("GET /api/guests");
      mux.HandleFunc("POST /api/guests");
      mux.HandleFunc("GET /api/guests/{id}");
      mux.HandleFunc("PUT /api/guests/{id}");
      mux.HandleFunc("DELETE /api/guests/{id}");
      mux.HandleFunc("POST /api/guests/import");
    }

    /** `GET /api/guests`: every stored guest, as an array even when there is none. */
    method HandleList() returns (resp: Response)
      requires Valid()
      ensures resp.status == StatusOK && resp.body.Some? && resp.body.value.JArr?
      ensures |resp.body.value.items| == |svc.repo.rows|
      ensures forall i :: 0 <= i < |resp.body.value.items| ==>
        resp.body.value.items[i] == GuestJson(svc.repo.rows[|svc.repo.rows| - 1 - i])
      ensures forall j | j in resp.body.value.items :: exists g | g in svc.repo.rows :: j == GuestJson(g)
    {
      var gs := svc.List();
      var items := seq(|gs|, i requires 0 <= i < |gs| => GuestJson(gs[i]));
      forall j | j in items ensures exists g | g in svc.repo.rows :: j == GuestJson(g) {
        var i :| 0 <= i < |items| && items[i] == j;
        assert gs[i] in gs;
      }
      resp := Response(StatusOK, Some(JArr(items)));
    }

    /** `GET /api/guests/{id}`. */
    method HandleGet(pathValue: string) returns (resp: Response)
      requires Valid()
      ensures ParseID(pathValue).None? ==> resp == ErrorResponse(StatusBadRequest, MsgInvalidId)
      ensures ParseID(pathValue).Some? ==>
        var id := ParseID(pathValue).value;
        && (resp.status == StatusOK <==> exists g | g in svc.repo.rows :: g.id == id)
        && (resp.status == StatusOK ==> exists g | g in svc.repo.rows :: g.id == id && resp.body == Some(GuestJson(g)))
        && (resp.status != StatusOK ==> resp == ErrorResponse(StatusNotFound, MsgNotFound))
    {
      var id := ParseID(pathValue);
      if id.None? {
        return ErrorResponse(StatusBadRequest, MsgInvalidId);
      }
      var r := svc.GetByID(id.value);
      resp := GetResponse(r);
    }

    /** `POST /api/guests`: identifier, then body, then the service. */
    method HandleCreate(racfHeader: string, body: Option<CreateGuestInput>) returns (resp: Response)
      requires Valid()
      modifies svc.repo
      ensures Valid()
      ensures GetUserRACF(racfHeader).Failure? ==>
        resp == ErrorResponse(StatusBadRequest, GetUserRACF(racfHeader).error) && svc.repo.State() == old(svc.repo.State())
      ensures GetUserRACF(racfHeader).Success? && body.None? ==>
        resp == ErrorResponse(StatusBadRequest, MsgInvalidJson) && svc.repo.State() == old(svc.repo.State())
      ensures GetUserRACF(racfHeader).Success? && body.Some? ==>
        var racf := GetUserRACF(racfHeader).value;
        var (r, st) := CreateOutcome(old(svc.repo.State()), UserExistsByURACF(svc.users.rows, racf), body.value, racf);
        svc.repo.State() == st && resp == CreateResponse(r)
    {
      var racf := GetUserRACF(racfHeader);
      if racf.Failure? {
        return ErrorResponse(StatusBadRequest, racf.error);
      }
      if body.None? {
        return ErrorResponse(StatusBadRequest, MsgInvalidJson);
      }
      var r := svc.Create(body.value, racf.value);
      resp := CreateResponse(r);
    }

    /** `PUT /api/guests/{id}`: identifier, then id, then body, then the service. */
    method HandleUpdate(racfHeader: string, pathValue: string, body: Option<UpdateGuestInput>) returns (resp: Response)
      requires Valid()
      modifies svc.repo
      ensures Valid()
      ensures GetUserRACF(racfHeader).Failure? ==>
        resp == ErrorResponse(StatusBadRequest, GetUserRACF(racfHeader).error) && svc.repo.State() == old(svc.repo.State())
      ensures GetUserRACF(racfHeader).Success? && ParseID(pathValue).None? ==>
        resp == ErrorResponse(StatusBadRequest, MsgInvalidId) && svc.repo.State() == old(svc.repo.State())
      ensures GetUserRACF(racfHeader).Success? && ParseID(pathValue).Some? && body.None? ==>
        resp == ErrorResponse(StatusBadRequest, MsgInvalidJson) && svc.repo.State() == old(svc.repo.State())
      ensures GetUserRACF(racfHeader).Success? && ParseID(pathValue).Some? && body.Some? ==>
        var racf := GetUserRACF(racfHeader).value;
        var (r, st) := UpdateOutcome(old(svc.repo.State()), UserExistsByURACF(svc.users.rows, racf), ParseID(pathValue).value, body.value, racf);
        svc.repo.State() == st && resp == UpdateResponse(r)
    {
      var racf := GetUserRACF(racfHeader);
      if racf.Failure? {
        return ErrorResponse(StatusBadRequest, racf.error);
      }
      var id := ParseID(pathValue);
      if id.None? {
        return ErrorResponse(StatusBadRequest, MsgInvalidId);
      }
      if body.None? {
        return ErrorResponse(StatusBadRequest, MsgInvalidJson);
      }
      var r := svc.Update(id.value, body.value, racf.value);
      resp := UpdateResponse(r);
    }

    /** `DELETE /api/guests/{id}`: the identifier is checked but not used. */
    method HandleDelete(racfHeader: string, pathValue: string) returns (resp: Response)
      requires Valid()
      modifies svc.repo
      ensures Valid()
      ensures GetUserRACF(racfHeader).Failure? ==>
        resp == ErrorResponse(StatusBadRequest, GetUserRACF(racfHeader).error) && svc.repo.State() == old(svc.repo.State())
      ensures GetUserRACF(racfHeader).Success? && ParseID(pathValue).None? ==>
        resp == ErrorResponse(StatusBadRequest, MsgInvalidId) && svc.repo.State() == old(svc.repo.State())
      ensures GetUserRACF(racfHeader).Success? && ParseID(pathValue).Some? ==>
        var id := ParseID(pathValue).value;
        && svc.repo.State() == DeleteRow(old(svc.repo.State()), id).1
        && (resp.status == StatusNoContent <==> exists g | g in old(svc.repo.rows) :: g.id == id)
        && (resp.status != StatusNoContent ==> resp == ErrorResponse(StatusNotFound, MsgNotFound))
    {
      var racf := GetUserRACF(racfHeader);
      if racf.Failure? {
        return ErrorResponse(StatusBadRequest, racf.error);
      }
      var id := ParseID(pathValue);
      if id.None? {
        return ErrorResponse(StatusBadRequest, MsgInvalidId);
      }
      var r := svc.Delete(id.value);
      resp := DeleteResponse(r);
    }

    /** `POST /api/guests/import`: identifier, file, file type and parse are
        checked before any guest is created; then every parsed row goes
        through the service's create, in file order. */
    method HandleImport(racfHeader: string, upload: Option<Upload>) returns (resp: Response)
      requires Valid()
      modifies svc.repo
      ensures Valid()
      ensures GetUserRACF(racfHeader).Failure? ==>
        resp == ErrorResponse(StatusBadRequest, GetUserRACF(racfHeader).error) && svc.repo.State() == old(svc.repo.State())
      ensures GetUserRACF(racfHeader).Success? && upload.None? ==>
        resp == ErrorResponse(StatusBadRequest, MsgFileRequired) && svc.repo.State() == old(svc.repo.State())
      ensures GetUserRACF(racfHeader).Success? && upload.Some? && ParseUpload(upload.value).Failure? ==>
        resp == ParseUpload(upload.value).error && svc.repo.State() == old(svc.repo.State())
      ensures GetUserRACF(racfHeader).Success? && upload.Some? && ParseUpload(upload.value).Success? ==>
        var racf := GetUserRACF(racfHeader).value;
        var inputs := ParseUpload(upload.value).value;
        var (created, errs, st) := ImportRun(old(svc.repo.State()), ServiceCreate(UserExistsByURACF(svc.users.rows, racf), racf), inputs);
        svc.repo.State() == st && resp == ImportResponse(created, errs, |inputs|)
    {
      var racf := GetUserRACF(racfHeader);
      if racf.Failure? {
        return ErrorResponse(StatusBadRequest, racf.error);
      }
      if upload.None? {
        return ErrorResponse(StatusBadRequest, MsgFileRequired);
      }
      var kind := FileKindOf(upload.value.filename);
      if kind.None? {
        return ErrorResponse(StatusBadRequest, MsgUnsupportedFormat);
      }
      var parsed;
      if kind.value == Csv {
        parsed := ParseCSV(upload.value.rows);
      } else {
        parsed := ParseXLSX(upload.value.rows);
      }
      if parsed.Failure? {
        return ErrorResponse(StatusBadRequest, ParseFailedPrefix + ErrorText(parsed.error));
      }
      var guests := parsed.value;
      resp := CreateAll(racf.value, guests);
    }

    /** The row loop of `handleImport` and its summary. */
    method CreateAll(racf: string, guests: seq<CreateGuestInput>) returns (resp: Response)
      requires Valid()
      modifies svc.repo
      ensures Valid()
      ensures var (created, errs, st) := ImportRun(old(svc.repo.State()), ServiceCreate(UserExistsByURACF(svc.users.rows, racf), racf), guests);
        svc.repo.State() == st && resp == ImportResponse(created, errs, |guests|)
    {
      ghost var st0 := svc.repo.State();
      ghost var known := UserExistsByURACF(svc.users.rows, racf);
      var created := 0;
      var errs: seq<string> := [];
      for i := 0 to |guests|
        invariant Valid()
        invariant known == UserExistsByURACF(svc.users.rows, racf)
        invariant (created, errs, svc.repo.State()) == ImportRun(st0, ServiceCreate(known, racf), guests[..i])
      {
        ImportRunPrefix(st0, known, racf, guests, i);
        var r := svc.Create(guests[i], racf);
        if r.Failure? {
          errs := errs + [ErrorString(r.error)];
        } else {
          created := created + 1;
        }
      }
      assert guests[..|guests|] == guests;
      resp := ImportResponse(created, errs, |guests|);
    }
  }
}
