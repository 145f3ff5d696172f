/** The `guests` table as the PostgreSQL repository uses it, held in memory:
    rows in insertion order, the next BIGSERIAL id and a clock standing for
    `now()`. Each SQL statement is a function from the old table to its
    result and the new table; `GuestTable` is the shared, mutable table. */
module GuestRepository {
  import opened Wrappers
  import opened AppErr
  import opened GuestTypes
  import opened Seqs

  datatype TableState = TableState(rows: seq<Guest>, nextId: int, clock: int)

  /** Ids are positive and below the next id; rows are stored oldest first,
      with strictly increasing ids and creation times; every row was written
      before the current clock and last updated no earlier than it was created. */
  ghost predicate ValidTable(st: TableState) {
    && st.nextId >= 1
    && (forall i :: 0 <= i < |st.rows| ==>
          1 <= st.rows[i].id < st.nextId && st.rows[i].createdAt <= st.rows[i].updatedAt < st.clock)
    && (forall i, j :: 0 <= i < j < |st.rows| ==>
          st.rows[i].id < st.rows[j].id && st.rows[i].createdAt < st.rows[j].createdAt)
  }

  function IndexOfId(rows: seq<Guest>, id: int): (r: Option<nat>)
    ensures r.Some? ==> r.value < |rows| && rows[r.value].id == id
    ensures r.None? <==> forall j :: 0 <= j < |rows| ==> rows[j].id != id
  {
    IndexWhere(rows, (g: Guest) => g.id == id)
  }

  /** `SELECT ... WHERE id = $1`: the row, or `ErrNotFound`. */
  function GetByID(rows: seq<Guest>, id: int): (r: Result<Guest, Error>)
    ensures r.Success? ==> r.value in rows && r.value.id == id
    ensures r.Failure? <==> forall g | g in rows :: g.id != id
    ensures r.Failure? ==> r.error == SentinelError(GuestErrNotFound)
  {
    match IndexOfId(rows, id)
    case Some(i) => Success(rows[i])
    case None => Failure(SentinelError(GuestErrNotFound))
  }

  /** `SELECT ... WHERE phone = $1`: absent (not an error) when no row matches. */
  function GetByPhone(rows: seq<Guest>, phone: string): (r: Option<Guest>)
    ensures r.Some? ==> r.value in rows && r.value.phone == Some(phone)
    ensures r.None? <==> forall g | g in rows :: g.phone != Some(phone)
  {
    match IndexWhere(rows, (g: Guest) => g.phone == Some(phone))
    case Some(i) => Some(rows[i])
    case None => None
  }

  /** `SELECT ... WHERE first_name = $1 AND last_name = $2`: absent when no row matches. */
  function GetByName(rows: seq<Guest>, firstName: string, lastName: string): (r: Option<Guest>)
    ensures r.Some? ==> r.value in rows && r.value.firstName == firstName && r.value.lastName == lastName
    ensures r.None? <==> forall g | g in rows :: !(g.firstName == firstName && g.lastName == lastName)
  {
    match IndexWhere(rows, (g: Guest) => g.firstName == firstName && g.lastName == lastName)
    case Some(i) => Some(rows[i])
    case None => None
  }

  /** `SELECT EXISTS(... WHERE family_group = $1)`. */
  predicate FamilyGroupExists(rows: seq<Guest>, familyGroup: int) {
    exists g | g in rows :: g.familyGroup == familyGroup
  }

  /** `MAX(family_group)` over a non-empty table. */
  function MaxFamilyGroup(rows: seq<Guest>): (m: int)
    requires rows != []
    ensures forall g | g in rows :: g.familyGroup <= m
    ensures exists g | g in rows :: g.familyGroup == m
  {
    if |rows| == 1 then rows[0].familyGroup
    else
      var rest := MaxFamilyGroup(rows[1..]);
      assert forall g | g in rows[1..] :: g in rows;
      if rows[0].familyGroup >= rest then rows[0].familyGroup else rest
  }

  /** `SELECT COALESCE(MAX(family_group), 0) + 1`: one more than the largest
      group, or 1 for an empty table; never an existing group. */
  function NextFamilyGroup(rows: seq<Guest>): (n: int)
    ensures forall g | g in rows :: g.familyGroup < n
    ensures !FamilyGroupExists(rows, n)
    ensures rows == [] ==> n == 1
    ensures rows != [] ==> FamilyGroupExists(rows, n - 1)
  {
    if rows == [] then 1 else MaxFamilyGroup(rows) + 1
  }

  /** The stored phone of a create input: "" becomes NULL. */
  function StoredPhone(phone: string): Option<string> {
    if phone == "" then None else Some(phone)
  }

  /** `INSERT ... RETURNING`: a row with the next id, the caller as creator and
      last updater, `confirmed` left to its column default (false) and both
      timestamps at the current clock. The caller must have resolved the
      family group (the source dereferences it). */
  function CreateRow(st: TableState, input: CreateGuestInput, racf: string): (Guest, TableState)
    requires input.familyGroup.Some?
  {
    var g := Guest(st.nextId, input.firstName, input.lastName, StoredPhone(input.phone),
                   input.relationship, false, input.familyGroup.value, racf, racf, st.clock, st.clock);
    (g, TableState(st.rows + [g], st.nextId + 1, st.clock + 1))
  }

  /** The `COALESCE` merge of `UPDATE guests SET ...`: each supplied field
      replaces the stored one; the caller becomes the last updater. */
  function Merge(g: Guest, input: UpdateGuestInput, racf: string, now: int): Guest {
    g.(firstName := input.firstName.GetOr(g.firstName),
       lastName := input.lastName.GetOr(g.lastName),
       phone := if input.phone.Some? then input.phone else g.phone,
       relationship := input.relationship.GetOr(g.relationship),
       confirmed := input.confirmed.GetOr(g.confirmed),
       familyGroup := input.familyGroup.GetOr(g.familyGroup),
       updatedBy := racf,
       updatedAt := now)
  }

  /** `UPDATE ... WHERE id = $8 RETURNING ...`: `ErrNotFound` when no row has the id. */
  function UpdateRow(st: TableState, id: int, input: UpdateGuestInput, racf: string): (Result<Guest, Error>, TableState) {
    match IndexOfId(st.rows, id)
    case None => (Failure(SentinelError(GuestErrNotFound)), st)
    case Some(i) =>
      var g := Merge(st.rows[i], input, racf, st.clock);
      (Success(g), TableState(st.rows[i := g], st.nextId, st.clock + 1))
  }

  /** `DELETE ... WHERE id = $1`: `ErrNotFound` when no row was affected. */
  function DeleteRow(st: TableState, id: int): (Result<(), Error>, TableState) {
    match IndexOfId(st.rows, id)
    case None => (Failure(SentinelError(GuestErrNotFound)), st)
    case Some(i) => (Success(()), TableState(st.rows[..i] + st.rows[i + 1..], st.nextId, st.clock))
  }

  /** `ORDER BY created_at DESC`: newest first. */
  predicate NewestFirst(gs: seq<Guest>) {
    forall i, j :: 0 <= i < j < |gs| ==> gs[i].createdAt > gs[j].createdAt
  }

  // ---------------------------------------------------------------------
  // Properties of the statements

  /** An insert keeps the table valid and adds one row with a fresh id, an
      empty phone stored as NULL, the caller as creator and updater, and
      nothing confirmed. */
  lemma CreateRowSpec(st: TableState, input: CreateGuestInput, racf: string)
    requires ValidTable(st) && input.familyGroup.Some?
    ensures var (g, st') := CreateRow(st, input, racf);
      && ValidTable(st')
      && st'.rows == st.rows + [g]
      && (forall h | h in st.rows :: h.id != g.id)
      && g.createdBy == racf && g.updatedBy == racf && !g.confirmed
      && (g.phone.None? <==> input.phone == "")
      && g.familyGroup == input.familyGroup.value
  {
  }

  /** An update of a missing id is `ErrNotFound` and changes nothing. An
      update of an existing row rewrites that row alone: exactly the supplied
      fields change, the caller becomes the updater, and the id, creator and
      creation time stay; the table stays valid. */
  lemma UpdateRowSpec(st: TableState, id: int, input: UpdateGuestInput, racf: string)
    requires ValidTable(st)
    ensures var (r, st') := UpdateRow(st, id, input, racf);
      && ValidTable(st')
      && (r.Failure? <==> (forall g | g in st.rows :: g.id != id))
      && (r.Failure? ==> st' == st && Is(r.error, GuestErrNotFound))
      && (r.Success? ==>
            && |st'.rows| == |st.rows| && st'.nextId == st.nextId && st'.clock == st.clock + 1
            && (forall k :: 0 <= k < |st.rows| && st.rows[k].id != id ==> st'.rows[k] == st.rows[k])
            && (exists k :: 0 <= k < |st.rows| && st.rows[k].id == id && st'.rows[k] == r.value
                 && r.value.id == id && r.value.createdBy == st.rows[k].createdBy
                 && r.value.createdAt == st.rows[k].createdAt
                 && r.value.updatedBy == racf && r.value.updatedAt == st.clock
                 && (input.firstName.None? ==> r.value.firstName == st.rows[k].firstName)
                 && (input.firstName.Some? ==> r.value.firstName == input.firstName.value)
                 && (input.lastName.None? ==> r.value.lastName == st.rows[k].lastName)
                 && (input.lastName.Some? ==> r.value.lastName == input.lastName.value)
                 && (input.phone.None? ==> r.value.phone == st.rows[k].phone)
                 && (input.phone.Some? ==> r.value.phone == input.phone)
                 && (input.relationship.None? ==> r.value.relationship == st.rows[k].relationship)
                 && (input.relationship.Some? ==> r.value.relationship == input.relationship.value)
                 && (input.confirmed.None? ==> r.value.confirmed == st.rows[k].confirmed)
                 && (input.confirmed.Some? ==> r.value.confirmed == input.confirmed.value)
                 && (input.familyGroup.None? ==> r.value.familyGroup == st.rows[k].familyGroup)
                 && (input.familyGroup.Some? ==> r.value.familyGroup == input.familyGroup.value)))
  {
    match IndexOfId(st.rows, id)
    case None =>
    case Some(i) =>
      var (r, st') := UpdateRow(st, id, input, racf);
      forall k | 0 <= k < |st.rows| && st.rows[k].id != id ensures st'.rows[k] == st.rows[k] {
      }
      assert st.rows[i].id == id && st'.rows[i] == r.value;
  }

  /** Supplying the same fields twice leaves the row as supplying them once
      (setting `confirmed` to true on a confirmed guest changes nothing but
      the audit fields). */
  lemma MergeIdempotent(g: Guest, input: UpdateGuestInput, racf: string, t1: int, t2: int)
    ensures Merge(Merge(g, input, racf, t1), input, racf, t2) == Merge(g, input, racf, t2)
  {
  }

  /** An update that supplies no field changes only the audit fields. */
  lemma MergeNothing(g: Guest, racf: string, now: int)
    ensures Merge(g, NoChanges, racf, now) == g.(updatedBy := racf, updatedAt := now)
  {
  }

  /** A delete of a missing id is `ErrNotFound` and changes nothing; otherwise
      it removes exactly the row with that id and keeps the others in order. */
  lemma DeleteRowSpec(st: TableState, id: int)
    requires ValidTable(st)
    ensures var (r, st') := DeleteRow(st, id);
      && ValidTable(st')
      && (r.Failure? <==> (forall g | g in st.rows :: g.id != id))
      && (r.Failure? ==> st' == st && Is(r.error, GuestErrNotFound))
      && (r.Success? ==> |st'.rows| == |st.rows| - 1)
      && (r.Success? ==> forall g :: g in st'.rows <==> (g in st.rows && g.id != id))
  {
    match IndexOfId(st.rows, id)
    case None =>
    case Some(i) =>
      RemoveAtValid(st, i);
      RemoveAtMembers(st, i);
  }

  lemma RemoveAtValid(st: TableState, i: nat)
    requires ValidTable(st) && i < |st.rows|
    ensures ValidTable(TableState(st.rows[..i] + st.rows[i + 1..], st.nextId, st.clock))
  {
    var rest := st.rows[..i] + st.rows[i + 1..];
    assert forall k :: 0 <= k < |rest| ==> rest[k] == st.rows[if k < i then k else k + 1];
  }

  lemma RemoveAtMembers(st: TableState, i: nat)
    requires ValidTable(st) && i < |st.rows|
    ensures forall g :: g in st.rows[..i] + st.rows[i + 1..] <==> (g in st.rows && g.id != st.rows[i].id)
  {
    forall g ensures g in st.rows[..i] + st.rows[i + 1..] <==> (g in st.rows && g.id != st.rows[i].id) {
      if g in st.rows[..i] + st.rows[i + 1..] {
        RemoveAtLeavesOthers(st, i, g);
      }
      if g in st.rows && g.id != st.rows[i].id {
        RemoveAtKeepsOthers(st, i, g);
      }
    }
  }

  /** A row left after removing position `i` is another row of the table. */
  lemma RemoveAtLeavesOthers(st: TableState, i: nat, g: Guest)
    requires ValidTable(st) && i < |st.rows|
    requires g in st.rows[..i] + st.rows[i + 1..]
    ensures g in st.rows && g.id != st.rows[i].id
  {
    if g in st.rows[..i] {
      var k :| 0 <= k < i && st.rows[..i][k] == g;
      IdsDistinct(st, k, i);
    } else {
      assert g in st.rows[i + 1..];
      var k :| 0 <= k < |st.rows| - i - 1 && st.rows[i + 1..][k] == g;
      IdsDistinct(st, k + i + 1, i);
    }
  }

  /** Removing position `i` keeps every row with another id. */
  lemma RemoveAtKeepsOthers(st: TableState, i: nat, g: Guest)
    requires i < |st.rows|
    requires g in st.rows && g.id != st.rows[i].id
    ensures g in st.rows[..i] + st.rows[i + 1..]
  {
    var k :| 0 <= k < |st.rows| && st.rows[k] == g;
    if k < i {
      assert g in st.rows[..i];
    } else {
      assert k > i;
      assert st.rows[i + 1..][k - i - 1] == g;
    }
  }

  lemma IdsDistinct(st: TableState, i: nat, j: nat)
    requires ValidTable(st) && i < |st.rows| && j < |st.rows| && i != j
    ensures st.rows[i].id != st.rows[j].id
  {
  }

  // ---------------------------------------------------------------------
  // The shared table

  class GuestTable {
    var rows: seq<Guest>
    var nextId: int
    var clock: int

    function State(): TableState
      reads this
    {
      TableState(rows, nextId, clock)
    }

    ghost predicate Valid()
      reads this
    {
      ValidTable(State())
    }

    constructor ()
      ensures Valid() && rows == [] && nextId == 1
    {
      rows, nextId, clock := [], 1, 0;
    }

    /** `List`: every row, newest first; an empty table gives an empty list. */
    method List() returns (gs: seq<Guest>)
      requires Valid()
      ensures |gs| == |rows|
      ensures forall i :: 0 <= i < |gs| ==> gs[i] == rows[|rows| - 1 - i]
      ensures NewestFirst(gs)
      ensures forall g :: g in gs <==> g in rows
    {
      gs := [];
      var k := |rows|;
      while k > 0
        invariant 0 <= k <= |rows|
        invariant |gs| == |rows| - k
        invariant forall i :: 0 <= i < |gs| ==> gs[i] == rows[|rows| - 1 - i]
      {
        k := k - 1;
        gs := gs + [rows[k]];
      }
      forall g | g in rows ensures g in gs {
        var k :| 0 <= k < |rows| && rows[k] == g;
        assert gs[|rows| - 1 - k] == g;
      }
    }

    method Create(input: CreateGuestInput, racf: string) returns (g: Guest)
      requires Valid() && input.familyGroup.Some?
      modifies this
      ensures Valid()
      ensures (g, State()) == CreateRow(old(State()), input, racf)
    {
      CreateRowSpec(State(), input, racf);
      g := Guest(nextId, input.firstName, input.lastName, StoredPhone(input.phone),
                 input.relationship, false, input.familyGroup.value, racf, racf, clock, clock);
      rows, nextId, clock := rows + [g], nextId + 1, clock + 1;
    }

    method Update(id: int, input: UpdateGuestInput, racf: string) returns (r: Result<Guest, Error>)
      requires Valid()
      modifies this
      ensures Valid()
      ensures (r, State()) == UpdateRow(old(State()), id, input, racf)
    {
      UpdateRowSpec(State(), id, input, racf);
      match IndexOfId(rows, id)
      case None =>
        r := Failure(SentinelError(GuestErrNotFound));
      case Some(i) =>
        var g := Merge(rows[i], input, racf, clock);
        rows, clock := rows[i := g], clock + 1;
        r := Success(g);
    }

    method Delete(id: int) returns (r: Result<(), Error>)
      requires Valid()
      modifies this
      ensures Valid()
      ensures (r, State()) == DeleteRow(old(State()), id)
    {
      DeleteRowSpec(State(), id);
      match IndexOfId(rows, id)
      case None =>
        r := Failure(SentinelError(GuestErrNotFound));
      case Some(i) =>
        rows := rows[..i] + rows[i + 1..];
        r := Success(());
    }
  }
}
