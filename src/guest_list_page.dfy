/** The guest list page: phone formatting, the search and filter
    derivation, the counts, the bulk selection, what an import shows, and
    who may see the page. The page state the source keeps in React state
    (search text, filters, selection, import summary) is the `ListPage`
    class; rendering is left out. */
module GuestListPage {
  import opened Wrappers
  import opened Text
  import opened Seqs
  import opened Json
  import opened GuestTypes
  import GuestSchemas
  import ApiClient
  import GuestQueries
  import GuestHandler
  import AppErr
  import GuestRepository
  import UserService
  import UserRepository

  // ---------------------------------------------------------------------
  // formatPhone

  const Dash: string := "—"

  /** `formatPhone`: nothing (null or "") is a dash, eleven characters are
      grouped as "(AB) CDEFG-HIJK", anything else is shown as it is. */
  function FormatPhone(phone: Option<string>): (r: string)
    ensures phone.None? || phone.value == "" ==> r == Dash
    ensures phone.Some? && |phone.value| == 11 ==>
      && |r| == 15 && r[0] == '(' && r[3] == ')' && r[4] == ' ' && r[10] == '-'
      && r[1..3] == phone.value[..2] && r[5..10] == phone.value[2..7] && r[11..] == phone.value[7..]
    ensures phone.Some? && phone.value != "" && |phone.value| != 11 ==> r == phone.value
  {
    if phone.None? || phone.value == "" then Dash
    else if |phone.value| == 11 then
      var p := phone.value;
      "(" + p[..2] + ") " + p[2..7] + "-" + p[7..]
    else phone.value
  }

  /** The punctuation `formatPhone` inserts holds no digits. */
  lemma PunctuationHasNoDigits()
    ensures DigitsOnly("(") == [] && DigitsOnly(") ") == [] && DigitsOnly("-") == []
  {
    NoDigits("(");
    NoDigits(") ");
    NoDigits("-");
  }

  /** Punctuation between two parts adds no digits. */
  lemma DropPunctuation(x: string, punct: string, y: string)
    requires DigitsOnly(punct) == []
    ensures DigitsOnly(x + punct + y) == DigitsOnly(x) + DigitsOnly(y)
  {
    var d := DigitsOnly(x);
    assert DigitsOnly(x + punct) == d by {
      DigitsOnlyAppend(x, punct);
      assert d + [] == d;
    }
    DigitsOnlyAppend(x + punct, y);
  }

  /** The digits of "(a) b-c" are a, b and c in order. */
  lemma GroupedDigits(a: string, b: string, c: string)
    requires AllDigits(a) && AllDigits(b) && AllDigits(c)
    ensures DigitsOnly("(" + a + ") " + b + "-" + c) == a + b + c
  {
    PunctuationHasNoDigits();
    var x1 := "(" + a;
    assert DigitsOnly(x1) == a by {
      DigitsOnlyAppend("(", a);
      assert [] + a == a;
    }
    var x3 := x1 + ") " + b;
    assert DigitsOnly(x3) == a + b by {
      DropPunctuation(x1, ") ", b);
      assert DigitsOnly(b) == b;
    }
    assert DigitsOnly(x3 + "-" + c) == a + b + c by {
      DropPunctuation(x3, "-", c);
      assert DigitsOnly(c) == c;
    }
  }

  /** The grouping only adds punctuation: the digits of a formatted
      eleven-digit phone are the phone itself. */
  lemma FormatPhoneKeepsDigits(p: string)
    requires |p| == 11 && AllDigits(p)
    ensures DigitsOnly(FormatPhone(Some(p))) == p
  {
    var a, b, c := p[..2], p[2..7], p[7..];
    assert AllDigits(a) && AllDigits(b) && AllDigits(c) by {
      assert forall i | 0 <= i < 5 :: b[i] == p[i + 2];
      assert forall i | 0 <= i < 4 :: c[i] == p[i + 7];
    }
    GroupedDigits(a, b, c);
    assert a + b + c == p;
  }

  // ---------------------------------------------------------------------
  // filtered

  /** The search test: an empty query keeps everyone; otherwise the
      lower-cased query inside the lower-cased "first last", or the query as
      typed inside a non-empty phone. */
  predicate MatchesSearch(g: Guest, search: string) {
    var q := ToLower(search);
    || q == ""
    || Contains(ToLower(g.firstName + " " + g.lastName), q)
    || (g.phone.Some? && g.phone.value != "" && Contains(g.phone.value, search))
  }

  /** The side filter: "" keeps everyone. */
  predicate MatchesSide(g: Guest, side: string) {
    side == "" || g.relationship == side
  }

  /** The confirmation filter: "" keeps everyone, "yes" the confirmed, any
      other value the pending. */
  predicate MatchesConfirmation(g: Guest, status: string) {
    status == "" || (if status == "yes" then g.confirmed else !g.confirmed)
  }

  predicate Shown(g: Guest, search: string, side: string, status: string) {
    MatchesSearch(g, search) && MatchesSide(g, side) && MatchesConfirmation(g, status)
  }

  /** `filtered`: the guests passing all three tests, in list order. */
  function Filtered(guests: seq<Guest>, search: string, side: string, status: string): (r: seq<Guest>)
    ensures IsSubsequence(r, guests)
    ensures forall g :: g in r <==> g in guests && Shown(g, search, side, status)
  {
    Filter(guests, (g: Guest) => Shown(g, search, side, status))
  }

  /** With no search and no filter, every guest is listed, in order. */
  lemma NoFilterKeepsAll(guests: seq<Guest>)
    ensures Filtered(guests, "", "", "") == guests
  {
    assert ToLower("") == "";
    FilterAll(guests, (g: Guest) => Shown(g, "", "", ""));
  }

  /** For guests whose phone is digits only, the search ignores the case of
      the query: names are compared lower-cased, and a query with a letter
      never occurs in such a phone. */
  lemma SearchIgnoresCase(g: Guest, s: string)
    requires g.phone.None? || AllDigits(g.phone.value)
    ensures MatchesSearch(g, ToUpper(s)) == MatchesSearch(g, s)
  {
    LowerOfUpper(s);
    if g.phone.Some? && g.phone.value != "" {
      var p := g.phone.value;
      if AllDigits(s) {
        assert ToUpper(s) == s;
      } else {
        var k :| 0 <= k < |s| && !IsDigit(s[k]);
        assert !IsDigit(ToUpper(s)[k]);
        if Contains(p, s) {
          ContainsInDigits(p, s);
        }
        if Contains(p, ToUpper(s)) {
          ContainsInDigits(p, ToUpper(s));
        }
      }
    }
  }

  // ---------------------------------------------------------------------
  // stats

  datatype Stats = Stats(total: nat, confirmed: nat, pending: nat)

  /** `stats`: over every guest, not the filtered ones. */
  function ComputeStats(guests: seq<Guest>): (s: Stats)
    ensures s.total == |guests|
    ensures s.confirmed == |Filter(guests, (g: Guest) => g.confirmed)|
    ensures s.pending == |Filter(guests, (g: Guest) => !g.confirmed)|
  {
    Stats(|guests|, Count(guests, (g: Guest) => g.confirmed), Count(guests, (g: Guest) => !g.confirmed))
  }

  /** Every guest is either confirmed or pending. */
  lemma StatsAddUp(guests: seq<Guest>)
    ensures ComputeStats(guests).confirmed + ComputeStats(guests).pending == ComputeStats(guests).total
  {
    CountComplement(guests, (g: Guest) => g.confirmed, (g: Guest) => !g.confirmed);
  }

  // ---------------------------------------------------------------------
  // Selection

  /** The ids of a list of guests. */
  function Ids(gs: seq<Guest>): (r: set<int>)
    ensures forall i | 0 <= i < |gs| :: gs[i].id in r
    ensures forall id | id in r :: exists i | 0 <= i < |gs| :: gs[i].id == id
  {
    if gs == [] then {}
    else
      var rest := Ids(gs[1..]);
      assert forall id | id in rest :: exists i | 0 <= i < |gs| :: gs[i].id == id by {
        forall id | id in rest ensures exists i | 0 <= i < |gs| :: gs[i].id == id {
          var j :| 0 <= j < |gs[1..]| && gs[1..][j].id == id;
          assert gs[j + 1].id == id;
        }
      }
      {gs[0].id} + rest
  }

  predicate DistinctIds(gs: seq<Guest>) {
    forall i, j :: 0 <= i < j < |gs| ==> gs[i].id != gs[j].id
  }

  /** Guests with distinct ids have as many ids as guests. */
  lemma {:induction false} IdsCount(gs: seq<Guest>)
    requires DistinctIds(gs)
    ensures |Ids(gs)| == |gs|
  {
    if gs != [] {
      var rest := gs[1..];
      assert DistinctIds(rest) by {
        forall i, j | 0 <= i < j < |rest| ensures rest[i].id != rest[j].id {
          assert rest[i] == gs[i + 1] && rest[j] == gs[j + 1];
        }
      }
      IdsCount(rest);
      assert gs[0].id !in Ids(rest) by {
        forall j | 0 <= j < |rest| ensures rest[j].id != gs[0].id {
          assert rest[j] == gs[j + 1];
        }
      }
    }
  }

  /** Distinct ids stay distinct in a filtered list. */
  lemma {:induction false} FilterKeepsDistinctIds(gs: seq<Guest>, p: Guest -> bool)
    requires DistinctIds(gs)
    ensures DistinctIds(Filter(gs, p))
  {
    if gs != [] {
      FilterKeepsDistinctIds(gs[1..], p);
      if p(gs[0]) {
        var r := Filter(gs, p);
        forall g | g in r[1..] ensures g.id != gs[0].id {
          assert g in gs[1..];
          var j :| 0 <= j < |gs[1..]| && gs[1..][j] == g;
          assert gs[j + 1] == g;
        }
      }
    }
  }

  /** A subset as large as its superset is the superset. */
  lemma SubsetSameSize(a: set<int>, b: set<int>)
    requires a <= b && |a| == |b|
    ensures a == b
  {
    var d := b - a;
    assert b == a + d;
    assert a * d == {};
    assert |d| == 0;
  }

  /** `toggleSelect`: the id's membership flips, nothing else changes. */
  function Toggle(selected: set<int>, id: int): (r: set<int>)
    ensures id in r <==> id !in selected
    ensures forall x | x != id :: x in r <==> x in selected
  {
    if id in selected then selected - {id} else selected + {id}
  }

  /** Toggling twice restores the selection. */
  lemma ToggleTwice(selected: set<int>, id: int)
    ensures Toggle(Toggle(selected, id), id) == selected
  {
  }

  /** `allSelected`: something is listed and the selection has as many ids
      as the list has rows. */
  predicate AllSelected(visible: seq<Guest>, selected: set<int>) {
    |visible| > 0 && |selected| == |visible|
  }

  /** When every selected id is a listed one and the listed ids are
      distinct, "all selected" means exactly that the selection is the set
      of listed ids. */
  lemma AllSelectedIff(visible: seq<Guest>, selected: set<int>)
    requires DistinctIds(visible) && selected <= Ids(visible)
    ensures AllSelected(visible, selected) <==> visible != [] && selected == Ids(visible)
  {
    IdsCount(visible);
    if AllSelected(visible, selected) {
      SubsetSameSize(selected, Ids(visible));
    }
  }

  /** `toggleSelectAll`: clears an all-selected list, otherwise selects
      exactly the listed ids. */
  function ToggleAll(visible: seq<Guest>, selected: set<int>): set<int> {
    if AllSelected(visible, selected) then {} else Ids(visible)
  }

  /** Selecting all of a non-empty list with distinct ids leaves it all
      selected, and doing it again clears the selection. */
  lemma ToggleAllTwice(visible: seq<Guest>, selected: set<int>)
    requires DistinctIds(visible) && visible != [] && !AllSelected(visible, selected)
    ensures AllSelected(visible, ToggleAll(visible, selected))
    ensures ToggleAll(visible, ToggleAll(visible, selected)) == {}
  {
    IdsCount(visible);
  }

  // ---------------------------------------------------------------------
  // Import result

  datatype ImportResult = ImportResult(imported: int, errors: seq<string>, total: int)

  /** The summary the page can display: one that has the shape of
      `importResultSchema` (the page reads `errors.length`, which a `null`
      cannot give). */
  function ReadImportResult(j: Json): (r: Option<ImportResult>)
    ensures r.Some? <==> GuestSchemas.ImportResultSchema(j)
  {
    if GuestSchemas.ImportResultSchema(j) then
      var e := j.fields["errors"].items;
      Some(ImportResult(j.fields["imported"].n.Floor, seq(|e|, i requires 0 <= i < |e| => e[i].s), j.fields["total"].n.Floor))
    else None
  }

  /** `handleImportFile` once the call has settled: a failure is shown as a
      summary of nothing imported with the message as its only error; a
      success is shown as it came, and the list is refetched only if
      something was imported. */
  function ImportOutcome(r: Result<ImportResult, string>): (out: (ImportResult, bool))
    ensures r.Failure? ==> out == (ImportResult(0, [r.error], 0), false)
    ensures r.Success? ==> out.0 == r.value && (out.1 <==> r.value.imported > 0)
  {
    match r
    case Failure(msg) => (ImportResult(0, [msg], 0), false)
    case Success(v) => (v, v.imported > 0)
  }

  /** The page reads back exactly the summary the corrected handler wrote. */
  lemma ReadsImportBody(imported: nat, errors: seq<string>, total: nat)
    ensures ReadImportResult(GuestHandler.ImportBody(imported, errors, total)) == Some(ImportResult(imported, errors, total))
  {
    var j := GuestHandler.ImportBody(imported, errors, total);
    GuestSchemas.ImportBodyConforms(imported, errors, total);
    var e := j.fields["errors"].items;
    assert seq(|e|, i requires 0 <= i < |e| => e[i].s) == errors;
    assert (imported as real).Floor == imported && (total as real).Floor == total;
  }

  /** With the corrected summary, an import in which every row was created
      is shown with its counts and refetched when it created something. */
  lemma ImportSuccessShown(imported: nat, total: nat)
    ensures var resp := GuestHandler.CorrectedImportResponse(imported, [], total);
      && ApiClient.HandleResponse(resp.status, resp.body.value) == Success(resp.body.value)
      && ReadImportResult(resp.body.value) == Some(ImportResult(imported, [], total))
      && ImportOutcome(Success(ImportResult(imported, [], total))) == (ImportResult(imported, [], total), imported > 0)
  {
    ReadsImportBody(imported, [], total);
  }

  /** As the handler writes it, a successful import reaches the page as a
      success whose summary the page cannot read: its `errors` is `null`. */
  lemma ImportSuccessAsWrittenUnreadable(n: nat)
    ensures var resp := GuestHandler.ImportResponse(n, [], n);
      && resp.status == AppErr.StatusOK
      && ApiClient.HandleResponse(resp.status, resp.body.value) == Success(resp.body.value)
      && ReadImportResult(resp.body.value).None?
  {
    GuestSchemas.ImportBodyAsWrittenRejected(n);
  }

  /** An import with a failed row reaches the page as "Erro 400": it shows
      nothing imported and does not refetch, and the list cache is left as
      it was, however many rows the server did create. */
  lemma ImportPartialFailureHidden(imported: nat, errors: seq<string>, total: nat, c: GuestQueries.Cache)
    requires errors != []
    ensures var resp := GuestHandler.ImportResponse(imported, errors, total);
      && ApiClient.HandleResponse(resp.status, resp.body.value) == Failure("Erro 400")
      && ImportOutcome(Failure("Erro 400")) == (ImportResult(0, ["Erro 400"], 0), false)
      && GuestQueries.AfterImport(c, Failure("Erro 400")) == c
  {
    ApiClient.FailedImportLosesSummary(imported, errors, total);
  }

  // ---------------------------------------------------------------------
  // Who may see the page

  /** `isAuthorized`: the caller's role is the groom's or the bride's. */
  predicate IsAuthorized(role: Option<string>) {
    role == Some(UserService.RoleGroom) || role == Some(UserService.RoleBride)
  }

  /** Once the role lookup has finished, anyone else gets the unauthorized page. */
  predicate ShowsUnauthorized(roleLoading: bool, role: Option<string>) {
    !roleLoading && !IsAuthorized(role)
  }

  /** A registered guest never sees the list; a seeded groom does. */
  lemma OnlyTheCoupleSeesTheList(guests: seq<Guest>, st: UserRepository.UserState, input: UserService.RegisterInput,
                                 groom: string)
    requires groom != "" && forall u | u in st.rows :: u.uracf != groom
    ensures UserService.RegisterOutcome(guests, st, input).0.Success? ==>
      ShowsUnauthorized(false, Some(UserService.RegisterOutcome(guests, st, input).0.value.role))
    ensures var seeded := UserService.SeedPersonOutcome(st, groom, UserService.RoleGroom);
      UserService.GetMeOutcome(seeded.rows, groom).Success?
      && !ShowsUnauthorized(false, Some(UserService.GetMeOutcome(seeded.rows, groom).value.role))
  {
    var seeded := UserService.SeedPersonOutcome(st, groom, UserService.RoleGroom);
    var u := UserRepository.User(st.nextId, None, UserService.RoleGroom, groom);
    assert seeded.rows[|st.rows|] == u;
    assert UserRepository.GetByURACF(seeded.rows, groom) == Some(u) by {
      assert forall v | v in st.rows :: v.uracf != groom;
    }
  }

  // ---------------------------------------------------------------------
  // The page state

  class ListPage {
    var guests: seq<Guest>
    var search: string
    var side: string
    var status: string
    var selected: set<int>
    var importResult: Option<ImportResult>

    constructor (guests: seq<Guest>)
      ensures this.guests == guests && search == "" && side == "" && status == ""
      ensures selected == {} && importResult.None?
    {
      this.guests := guests;
      search, side, status := "", "", "";
      selected, importResult := {}, None;
    }

    function Visible(): seq<Guest>
      reads this
    {
      Filtered(guests, search, side, status)
    }

    /** A new search text; a changed one clears the selection. */
    method SetSearch(s: string)
      modifies this
      ensures search == s && side == old(side) && status == old(status) && guests == old(guests)
      ensures selected == (if s != old(search) then {} else old(selected))
      ensures importResult == old(importResult)
    {
      if s != search {
        selected := {};
      }
      search := s;
    }

    /** A new side filter; a changed one clears the selection. */
    method SetSide(s: string)
      modifies this
      ensures side == s && search == old(search) && status == old(status) && guests == old(guests)
      ensures selected == (if s != old(side) then {} else old(selected))
      ensures importResult == old(importResult)
    {
      if s != side {
        selected := {};
      }
      side := s;
    }

    /** A new confirmation filter; a changed one clears the selection. */
    method SetStatus(s: string)
      modifies this
      ensures status == s && search == old(search) && side == old(side) && guests == old(guests)
      ensures selected == (if s != old(status) then {} else old(selected))
      ensures importResult == old(importResult)
    {
      if s != status {
        selected := {};
      }
      status := s;
    }

    method ToggleSelect(id: int)
      modifies this
      ensures selected == Toggle(old(selected), id)
      ensures guests == old(guests) && search == old(search) && side == old(side) && status == old(status)
      ensures importResult == old(importResult)
    {
      if id in selected {
        selected := selected - {id};
      } else {
        selected := selected + {id};
      }
    }

    method ToggleSelectAll()
      modifies this
      ensures selected == ToggleAll(old(Visible()), old(selected))
      ensures guests == old(guests) && search == old(search) && side == old(side) && status == old(status)
      ensures importResult == old(importResult)
    {
      var visible := Filtered(guests, search, side, status);
      if |visible| > 0 && |selected| == |visible| {
        selected := {};
      } else {
        selected := Ids(visible);
      }
    }

    /** `handleImportFile` once the call has settled; answers whether the
      list is refetched. */
    method ImportSettled(r: Result<ImportResult, string>) returns (refetch: bool)
      modifies this
      ensures (importResult, refetch) == (Some(ImportOutcome(r).0), ImportOutcome(r).1)
      ensures guests == old(guests) && selected == old(selected)
      ensures search == old(search) && side == old(side) && status == old(status)
    {
      match r
      case Failure(msg) =>
        importResult := Some(ImportResult(0, [msg], 0));
        refetch := false;
      case Success(v) =>
        importResult := Some(v);
        refetch := v.imported > 0;
    }
  }

  /** Whatever is toggled, the selection never holds an id that is not
      listed, as long as only listed rows are toggled and the filters are
      not changed. */
  lemma SelectionStaysVisible(visible: seq<Guest>, selected: set<int>, id: int)
    requires selected <= Ids(visible) && id in Ids(visible)
    ensures Toggle(selected, id) <= Ids(visible)
    ensures ToggleAll(visible, selected) <= Ids(visible)
  {
  }
}
