/** The client's API layer: the identity kept in the browser's local
    storage under "user-racf", the headers each guest call sends, and the
    rule that turns an HTTP answer into a value or an error message. The
    network is left out: a call is its request and the status and JSON body
    that came back. */
module ApiClient {
  import opened Wrappers
  import opened Text
  import opened Json
  import opened AppErr
  import GuestHandler
  import UserService

  const IdentityKey: string := "user-racf"
  const MsgNoIdentity: string := "Identificação (RACF) não configurada"

  /** The one local-storage entry the client uses: absent, or a string. */
  class IdentityStore {
    var stored: Option<string>

    constructor ()
      ensures stored.None?
    {
      stored := None;
    }

    /** `getUserRacf`. */
    function Get(): Option<string>
      reads this
    {
      stored
    }

    /** `setUserRacf`: the identifier is stored upper-cased. */
    method Set(racf: string)
      modifies this
      ensures stored == Some(ToUpper(racf))
    {
      stored := Some(ToUpper(racf));
    }

    /** `clearUserRacf`. */
    method Clear()
      modifies this
      ensures stored.None?
    {
      stored := None;
    }
  }

  /** Upper-casing what is already upper case changes nothing, so storing a
      stored identifier again keeps it. */
  lemma ToUpperIdempotent(s: string)
    ensures ToUpper(ToUpper(s)) == ToUpper(s)
  {
  }

  /** `authHeaders`: a missing or empty identity (both falsy) is an error;
      otherwise the one header carrying it. */
  function AuthHeaders(stored: Option<string>): (r: Result<map<string, string>, string>)
    ensures r.Failure? <==> stored.None? || stored.value == ""
    ensures r.Failure? ==> r.error == MsgNoIdentity
    ensures r.Success? ==> r.value.Keys == {IdentityKey} && r.value[IdentityKey] == stored.value
  {
    if stored.None? || stored.value == "" then Failure(MsgNoIdentity)
    else Success(map[IdentityKey := stored.value])
  }

  /** An identifier of five ASCII letters or digits, once stored, is sent as
      a header the guest routes accept unchanged and the user rules accept
      as an identifier. */
  lemma StoredIdentityAccepted(racf: string)
    requires |racf| == 5 && forall i :: 0 <= i < 5 ==> IsAsciiAlnum(racf[i])
    ensures AuthHeaders(Some(ToUpper(racf))) == Success(map[IdentityKey := ToUpper(racf)])
    ensures GuestHandler.GetUserRACF(ToUpper(racf)) == Success(ToUpper(racf))
    ensures UserService.IsUracf(ToUpper(racf))
  {
    var up := ToUpper(racf);
    assert forall i :: 0 <= i < 5 ==> IsAsciiAlnum(up[i]) && !IsGoSpace(up[i]);
    TrimNoOp(up, IsGoSpace);
    ToUpperIdempotent(racf);
  }

  // ---------------------------------------------------------------------
  // Requests

  datatype Operation =
    | ListGuests
    | GetGuest(id: int)
    | CreateGuest
    | UpdateGuest(id: int)
    | DeleteGuest(id: int)
    | ImportGuests

  /** Only the two reads go without the identity header. */
  predicate NeedsIdentity(op: Operation) {
    !(op.ListGuests? || op.GetGuest?)
  }

  datatype Request = Request(httpMethod: string, path: string, headers: map<string, string>)

  function PathOf(op: Operation): string {
    match op
    case ListGuests => "/api/guests"
    case CreateGuest => "/api/guests"
    case ImportGuests => "/api/guests/import"
    case GetGuest(id) => "/api/guests/" + IntString(id)
    case UpdateGuest(id) => "/api/guests/" + IntString(id)
    case DeleteGuest(id) => "/api/guests/" + IntString(id)
  }

  function MethodOf(op: Operation): string {
    match op
    case ListGuests => "GET"
    case GetGuest(_) => "GET"
    case CreateGuest => "POST"
    case ImportGuests => "POST"
    case UpdateGuest(_) => "PUT"
    case DeleteGuest(_) => "DELETE"
  }

  /** The server route pattern each call is meant to reach. */
  function PatternOf(op: Operation): string {
    match op
    case ListGuests => "GET /api/guests"
    case CreateGuest => "POST /api/guests"
    case ImportGuests => "POST /api/guests/import"
    case GetGuest(_) => "GET /api/guests/{id}"
    case UpdateGuest(_) => "PUT /api/guests/{id}"
    case DeleteGuest(_) => "DELETE /api/guests/{id}"
  }

  /** The request a call issues, or the identity error it throws before any
      request: create and update send JSON, import sends its file as form
      data, and every call but the two reads carries the identity. */
  function BuildRequest(op: Operation, stored: Option<string>): (r: Result<Request, string>)
    ensures r.Failure? <==> NeedsIdentity(op) && (stored.None? || stored.value == "")
    ensures r.Failure? ==> r.error == MsgNoIdentity
    ensures r.Success? ==> (IdentityKey in r.value.headers <==> NeedsIdentity(op))
    ensures r.Success? && NeedsIdentity(op) ==> r.value.headers[IdentityKey] == stored.value
    ensures r.Success? ==> r.value.httpMethod == MethodOf(op) && r.value.path == PathOf(op)
  {
    if !NeedsIdentity(op) then Success(Request(MethodOf(op), PathOf(op), map[]))
    else
      match AuthHeaders(stored)
      case Failure(e) => Failure(e)
      case Success(auth) =>
        var headers := if op.CreateGuest? || op.UpdateGuest? then auth["Content-Type" := "application/json"] else auth;
        Success(Request(MethodOf(op), PathOf(op), headers))
  }

  /** Every call the client makes goes to a route the guest handler
      registers, with the method that route expects. */
  lemma RequestsMatchRoutes(op: Operation)
    ensures PatternOf(op) in GuestHandler.GuestRoutes()
    ensures PatternOf(op)[..|MethodOf(op)| + 1] == MethodOf(op) + " "
  {
  }

  // ---------------------------------------------------------------------
  // Responses

  /** `res.ok`. */
  predicate Ok(status: int) { 200 <= status <= 299 }

  /** The message of the error a failed call throws: the body's `error` if it
      is a non-empty string, otherwise "Erro <status>". */
  function ErrorMessage(status: int, body: Json): (m: string)
    ensures (Field(body, "error").Some? && Field(body, "error").value.JStr? && Field(body, "error").value.s != "")
              ==> m == Field(body, "error").value.s
    ensures Field(body, "error").None? || !Truthy(Field(body, "error").value) ==> m == "Erro " + IntString(status)
    ensures m != ""
  {
    match Field(body, "error")
    case Some(JStr(s)) => if s != "" then s else "Erro " + IntString(status)
    case _ => "Erro " + IntString(status)
  }

  /** `handleResponse`: a 2xx body is returned as it is, without checking it
      against any schema; anything else becomes the error message. */
  function HandleResponse(status: int, body: Json): (r: Result<Json, string>)
    ensures r.Success? <==> Ok(status)
    ensures r.Success? ==> r.value == body
    ensures r.Failure? ==> r.error == ErrorMessage(status, body)
  {
    if Ok(status) then Success(body) else Failure(ErrorMessage(status, body))
  }

  /** `deleteGuest`: a 2xx answer is success without reading a body; anything
      else follows the same message rule. */
  function DeleteOutcome(status: int, body: Json): (r: Result<(), string>)
    ensures r.Success? <==> Ok(status)
    ensures r.Failure? ==> r.error == ErrorMessage(status, body)
  {
    if Ok(status) then Success(()) else Failure(ErrorMessage(status, body))
  }

  /** What the server sends as an error reaches the user as its own text. */
  lemma ServerErrorReachesUser(status: int, msg: string)
    requires !Ok(status) && msg != ""
    ensures var resp := GuestHandler.ErrorResponse(status, msg);
      HandleResponse(resp.status, resp.body.value) == Failure(msg)
  {
  }

  /** An import in which some row failed is answered 400 with the summary,
      which has no `error` key: the client only sees "Erro 400", and the
      counts are lost. */
  lemma FailedImportLosesSummary(imported: nat, errors: seq<string>, total: nat)
    requires errors != []
    ensures var resp := GuestHandler.ImportResponse(imported, errors, total);
      resp.status == StatusBadRequest && HandleResponse(resp.status, resp.body.value) == Failure("Erro 400")
  {
    var resp := GuestHandler.ImportResponse(imported, errors, total);
    assert Field(resp.body.value, "error").None?;
    assert "Erro " + "400" == "Erro 400";
    assert IntString(400) == "400" by {
      assert DecimalString(4) == "4";
      assert DecimalString(40) == "40";
      assert DecimalString(400) == "400";
    }
  }
}
