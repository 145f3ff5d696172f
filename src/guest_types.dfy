/** The guest record and the two inputs the backend accepts, with the fields
    the PostgreSQL repository reads and writes (id, names, nullable phone,
    relationship, confirmed, family group, audit fields and timestamps). */
module GuestTypes {
  import opened Wrappers

  /** A stored guest row. Timestamps are ticks of the table's clock. */
  datatype Guest = Guest(
    id: int,
    firstName: string,
    lastName: string,
    phone: Option<string>,
    relationship: string,
    confirmed: bool,
    familyGroup: int,
    createdBy: string,
    updatedBy: string,
    createdAt: int,
    updatedAt: int)

  /** The body of `POST /api/guests`: every field but the family group is a
      plain string, so an absent phone arrives as "". */
  datatype CreateGuestInput = CreateGuestInput(
    firstName: string,
    lastName: string,
    phone: string,
    relationship: string,
    familyGroup: Option<int>)

  /** The body of `PUT /api/guests/{id}`: `None` is a field that was not sent. */
  datatype UpdateGuestInput = UpdateGuestInput(
    firstName: Option<string>,
    lastName: Option<string>,
    phone: Option<string>,
    relationship: Option<string>,
    confirmed: Option<bool>,
    familyGroup: Option<int>)

  const NoChanges := UpdateGuestInput(None, None, None, None, None, None)
}
