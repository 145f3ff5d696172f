/** The `users` table the user service reads and inserts into, held in
    memory: users in insertion order and the next id. */
module UserRepository {
  import opened Wrappers
  import opened Seqs

  datatype User = User(id: int, guestId: Option<int>, role: string, uracf: string)

  datatype UserState = UserState(rows: seq<User>, nextId: int)

  ghost predicate ValidUsers(st: UserState) {
    && st.nextId >= 1
    && (forall i :: 0 <= i < |st.rows| ==> 1 <= st.rows[i].id < st.nextId)
    && (forall i, j :: 0 <= i < j < |st.rows| ==> st.rows[i].id < st.rows[j].id)
  }

  /** `GetByURACF`: absent (not an error) when no user has the identifier. */
  function GetByURACF(rows: seq<User>, uracf: string): (r: Option<User>)
    ensures r.Some? ==> r.value in rows && r.value.uracf == uracf
    ensures r.None? <==> forall u | u in rows :: u.uracf != uracf
  {
    match IndexWhere(rows, (u: User) => u.uracf == uracf)
    case Some(i) => Some(rows[i])
    case None => None
  }

  /** `GetByGuestID`: absent when no user is linked to the guest. */
  function GetByGuestID(rows: seq<User>, guestId: int): (r: Option<User>)
    ensures r.Some? ==> r.value in rows && r.value.guestId == Some(guestId)
    ensures r.None? <==> forall u | u in rows :: u.guestId != Some(guestId)
  {
    match IndexWhere(rows, (u: User) => u.guestId == Some(guestId))
    case Some(i) => Some(rows[i])
    case None => None
  }

  /** The `UserChecker` the guest service consults: a user has this identifier. */
  predicate UserExistsByURACF(rows: seq<User>, uracf: string) {
    GetByURACF(rows, uracf).Some?
  }

  /** `INSERT ... RETURNING`: the user with the next id. */
  function CreateUser(st: UserState, guestId: Option<int>, role: string, uracf: string): (User, UserState) {
    var u := User(st.nextId, guestId, role, uracf);
    (u, UserState(st.rows + [u], st.nextId + 1))
  }

  lemma CreateUserValid(st: UserState, guestId: Option<int>, role: string, uracf: string)
    requires ValidUsers(st)
    ensures ValidUsers(CreateUser(st, guestId, role, uracf).1)
  {
  }

  class UserTable {
    var rows: seq<User>
    var nextId: int

    function State(): UserState
      reads this
    {
      UserState(rows, nextId)
    }

    ghost predicate Valid()
      reads this
    {
      ValidUsers(State())
    }

    constructor ()
      ensures Valid() && rows == []
    {
      rows, nextId := [], 1;
    }

    method Create(guestId: Option<int>, role: string, uracf: string) returns (u: User)
      requires Valid()
      modifies this
      ensures Valid()
      ensures (u, State()) == CreateUser(old(State()), guestId, role, uracf)
    {
      u := User(nextId, guestId, role, uracf);
      rows, nextId := rows + [u], nextId + 1;
    }
  }
}
