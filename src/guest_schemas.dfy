/** The client's zod schemas for guests, written as predicates over the JSON
    value they are applied to. A zod object ignores keys it does not declare;
    a declared key that is missing reads as `undefined`, which only an
    `.optional()` field accepts. */
module GuestSchemas {
  import opened Wrappers
  import opened Text
  import opened Json
  import opened GuestTypes
  import GuestService
  import GuestHandler

  /** `relationshipSchema`: `z.enum(["P", "R"])`. */
  predicate Relationship(j: Json) {
    j == JStr("P") || j == JStr("R")
  }

  predicate IsString(j: Json) { j.JStr? }

  predicate IsNumber(j: Json) { j.JNum? }

  /** `z.number().int()`. */
  predicate IsInt(j: Json) { j.JNum? && IsInteger(j.n) }

  /** `z.number().int().min(1)`. */
  predicate IsPositiveInt(j: Json) { IsInt(j) && j.n >= 1.0 }

  /** `z.string().trim().min(1)`: a string that is not blank once trimmed. */
  predicate NonBlank(j: Json) { j.JStr? && JsTrim(j.s) != "" }

  /** A required field: present and satisfying `p`. */
  predicate Required(j: Json, key: string, p: Json -> bool) {
    Field(j, key).Some? && p(Field(j, key).value)
  }

  /** An `.optional()` field: absent, or present and satisfying `p`. */
  predicate Optional(j: Json, key: string, p: Json -> bool) {
    Field(j, key).None? || p(Field(j, key).value)
  }

  /** `guestSchema`. */
  predicate GuestSchema(j: Json) {
    && j.JObj?
    && Required(j, "id", IsNumber)
    && Required(j, "first_name", IsString)
    && Required(j, "last_name", IsString)
    && Required(j, "phone", (p: Json) => p.JStr? || p.JNull?)
    && Required(j, "relationship", Relationship)
    && Required(j, "confirmed", (c: Json) => c.JBool?)
    && Required(j, "family_group", IsInt)
    && Required(j, "created_by", IsString)
    && Required(j, "updated_by", IsString)
    && Required(j, "created_at", IsString)
    && Required(j, "updated_at", IsString)
  }

  /** `createGuestInputSchema`: names not blank, any phone string, a known
      relationship and a positive integer family group. */
  predicate CreateGuestInputSchema(j: Json) {
    && j.JObj?
    && Required(j, "first_name", NonBlank)
    && Required(j, "last_name", NonBlank)
    && Required(j, "phone", IsString)
    && Required(j, "relationship", Relationship)
    && Required(j, "family_group", IsPositiveInt)
  }

  const UpdateKeys: set<string> := {"first_name", "last_name", "phone", "relationship", "confirmed", "family_group"}

  /** `updateGuestInputSchema`: every field optional, each checked when
      present, and the parsed object (declared keys only) must not be empty. */
  predicate UpdateGuestInputSchema(j: Json) {
    && j.JObj?
    && Optional(j, "first_name", NonBlank)
    && Optional(j, "last_name", NonBlank)
    && Optional(j, "phone", IsString)
    && Optional(j, "relationship", Relationship)
    && Optional(j, "confirmed", (c: Json) => c.JBool?)
    && Optional(j, "family_group", IsPositiveInt)
    && exists k | k in UpdateKeys :: k in j.fields
  }

  /** `importResultSchema`. */
  predicate ImportResultSchema(j: Json) {
    && j.JObj?
    && Required(j, "imported", IsInt)
    && Required(j, "errors", (e: Json) => e.JArr? && forall x | x in e.items :: x.JStr?)
    && Required(j, "total", IsInt)
  }

  /** The JSON the server writes for a guest passes `guestSchema` exactly
      when the guest's relationship is "P" or "R". */
  lemma GuestJsonConforms(g: Guest)
    ensures GuestSchema(GuestHandler.GuestJson(g)) <==> GuestService.IsRelationship(g.relationship)
  {
    GuestJsonFields(g);
  }

  /** Every field of the guest JSON but the relationship has the type
      `guestSchema` asks for; the relationship is the guest's, as a string. */
  lemma GuestJsonFields(g: Guest)
    ensures var j := GuestHandler.GuestJson(g);
      && j.JObj?
      && Required(j, "id", IsNumber)
      && Required(j, "first_name", IsString)
      && Required(j, "last_name", IsString)
      && Required(j, "phone", (p: Json) => p.JStr? || p.JNull?)
      && Field(j, "relationship") == Some(JStr(g.relationship))
      && Required(j, "confirmed", (c: Json) => c.JBool?)
      && Required(j, "family_group", IsInt)
      && Required(j, "created_by", IsString)
      && Required(j, "updated_by", IsString)
      && Required(j, "created_at", IsString)
      && Required(j, "updated_at", IsString)
  {
    GuestJsonPersonFields(g);
    GuestJsonAuditFields(g);
    assert IsInteger(g.familyGroup as real);
  }

  lemma GuestJsonPersonFields(g: Guest)
    ensures var j := GuestHandler.GuestJson(g);
      && Field(j, "first_name") == Some(JStr(g.firstName))
      && Field(j, "last_name") == Some(JStr(g.lastName))
      && Field(j, "relationship") == Some(JStr(g.relationship))
      && Field(j, "confirmed") == Some(JBool(g.confirmed))
  {
  }

  lemma GuestJsonAuditFields(g: Guest)
    ensures var j := GuestHandler.GuestJson(g);
      && Field(j, "created_by") == Some(JStr(g.createdBy))
      && Field(j, "updated_by") == Some(JStr(g.updatedBy))
      && Field(j, "created_at") == Some(JStr(GuestHandler.Timestamp(g.createdAt)))
      && Field(j, "updated_at") == Some(JStr(GuestHandler.Timestamp(g.updatedAt)))
  {
  }

  /** Every import summary the corrected handler writes passes `importResultSchema`. */
  lemma ImportBodyConforms(imported: nat, errors: seq<string>, total: nat)
    ensures ImportResultSchema(GuestHandler.ImportBody(imported, errors, total))
  {
    var j := GuestHandler.ImportBody(imported, errors, total);
    assert IsInteger(imported as real) && IsInteger(total as real);
    var e := GuestHandler.StringsJson(errors);
    forall x | x in e.items ensures x.JStr? {
      var i :| 0 <= i < |e.items| && e.items[i] == x;
    }
  }

  /** The summary as written fails `importResultSchema` on every import in
      which no row failed: `errors` is `null`, not an array. */
  lemma ImportBodyAsWrittenRejected(n: nat)
    ensures !ImportResultSchema(GuestHandler.ImportBodyAsWritten(n, [], n))
  {
    assert Field(GuestHandler.ImportBodyAsWritten(n, [], n), "errors") == Some(JNull);
  }

  /** An update with no fields: the client schema refuses it, the server's
      validation lets it through. */
  lemma EmptyUpdateDisagreement()
    ensures !UpdateGuestInputSchema(JObj(map[]))
    ensures GuestService.ValidateUpdate(NoChanges).None?
  {
  }

  /** A blank name passes the server's check (only "" is refused) but not
      the client schema. */
  lemma BlankNameDisagreement()
    ensures !NonBlank(JStr(" "))
    ensures GuestService.ValidCreateInput(CreateGuestInput(" ", "Silva", "", "P", None))
  {
    assert JsTrim(" ") == "" by {
      assert IsJsSpace(" "[0]);
      assert " "[1..] == "";
    }
  }
}
