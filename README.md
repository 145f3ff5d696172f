# parasempre guest directory, modelled in Dafny

This project models the guest-directory core of the *parasempre* wedding site.
The Go backend keeps the guest list and the users allowed to manage it. The
TypeScript client lists, filters, edits and imports guests. The model covers:

- the guest service's create/update/delete decision procedure, over an
  in-memory guest table whose statements follow the PostgreSQL repository
  (a partial update merges only the supplied fields, the next family group is
  the largest plus one, a missing row is not-found);
- the spreadsheet importer (header mapping, trimming, `family_group` parsing,
  the CSV read loop and the XLSX row-skipping loop) and the handler's per-row
  import loop with its summary;
- the guest and user HTTP handlers' choice of status and body for each
  outcome, the `user-racf` header rule, the path id and the upload's file type;
- user registration, the check by phone, the "me" lookup and the seeding of
  the couple;
- the application error type (`apperr`) and `httputil.WriteError`;
- on the client, the zod schemas as predicates, the API layer (stored
  identity, which calls carry it, the error-message rule), the react-query
  cache updates of each guest mutation, and the rules of the guest list page,
  the guest form page and the development impersonation modal.

Every module lives under `src/`. Each state-changing part of the source is a
class: the guest table, the user table, the two services, the two handlers,
the router's pattern list, the identity store, the query cache, the list
page's state and the modal. Each method is specified by a pure function over
the old state (`CreateOutcome`, `UpdateRow`, `ImportRun`, `Invalidate`, …).
The properties are proved about those functions. The loops of the source are
`for`/`while` loops with invariants: the importer's read loops, `mapColumns`,
the `maxIdx` scan, the import loop, and the table's `List`.

The database never fails in this model. Every `apperr.Internal(err)` path that
only a failing query can reach is therefore absent. Timestamps are ticks of a
logical clock kept by the table.

Where the documented behaviour or the tests disagree with the code, the model follows the code:

- A create without `family_group` gets the next free group. The service does
  this (`backend/internal/guest/service.go:102-109`), although one handler
  test expects a 400.
- `handleMe` answers 500 for an unknown identifier. `GetMe` reports an unknown
  identifier as an error, so the handler's 404 branch is never taken.
- The error texts are the Portuguese ones in the code, not the English ones
  some handler tests assert.
- A guest's JSON keys are the snake-case names of the repository's columns
  (`first_name`, `family_group`, …), the names the client schema reads.
  `backend/internal/guest/model.go` declares an older struct with Portuguese
  keys and a string id, which neither the repository nor the service uses.

## Model

| member | source | states |
|---|---|---|
| AppErr.As | backend/internal/httputil/response.go:28-31 | `errors.As` finds an application error in the chain, and an application error finds itself |
| AppErr.NotFound | backend/internal/apperr/apperr.go:19-21 | the error has code 404, text = the message, and unwraps to the given cause |
| AppErr.Conflict | backend/internal/apperr/apperr.go:24-26 | code 409, text = the message, unwraps to the given cause |
| AppErr.Validation | backend/internal/apperr/apperr.go:29-31 | code 400, text = the message, no cause |
| AppErr.Forbidden | backend/internal/apperr/apperr.go:34-36 | code 403, text = the message, no cause |
| AppErr.Internal | backend/internal/apperr/apperr.go:40-42 | code 500, the fixed internal-error text whatever the cause, and the cause is kept for unwrapping |
| AppErr.NotFoundKeepsSentinel | backend/internal/apperr/apperr.go:15-21 | a not-found error wrapping a sentinel satisfies `errors.Is` for that sentinel and for no other |
| AppErr.CauselessMatchesNoSentinel | backend/internal/apperr/apperr.go:29-36 | validation, forbidden and causeless not-found or conflict errors match no sentinel |
| AppErr.TextIgnoresCause | backend/internal/apperr/apperr.go:14 | two errors that differ only in their cause have the same text, internal errors included |
| HttpUtil.WriteError | backend/internal/httputil/response.go:26-36 | the body is a single-key `error` object; an application error in the chain gives its code and message, anything else 500 with the internal text |
| HttpUtil.WriteErrorHidesCause | backend/internal/httputil/response.go:26-31 | the cause of an error never changes the status or body written |
| HttpUtil.WriteErrorStatuses | backend/internal/httputil/response.go:26-36 | each constructor's code reaches the response: 404, 409, 400, 403 and 500; a bare sentinel is a 500 with the internal text |
| GuestRepository.IndexOfId | backend/internal/guest/repository_postgres.go:47-62 | the position found holds the id, and none is found exactly when no row has it |
| GuestRepository.GetByID | backend/internal/guest/repository_postgres.go:47-62 | the row returned has the id; the lookup fails, with the package's not-found sentinel, exactly when no row has the id |
| GuestRepository.GetByPhone | backend/internal/guest/repository_postgres.go:64-78 | a row returned has the phone; absent (not an error) exactly when no row has it |
| GuestRepository.GetByName | backend/internal/guest/repository_postgres.go:80-94 | a row returned has both names; absent exactly when no row has them |
| GuestRepository.MaxFamilyGroup | backend/internal/guest/repository_postgres.go:109-118 | the result bounds every row's family group and is some row's group |
| GuestRepository.NextFamilyGroup | backend/internal/guest/repository_postgres.go:96-118 | the next group exceeds every stored group and is unused; it is 1 on an empty table and otherwise directly follows an existing group |
| GuestRepository.CreateRowSpec | backend/internal/guest/repository_postgres.go:120-139 | an insert appends one row with a fresh id, an empty phone stored as NULL, the caller as creator and updater, nothing confirmed, the given family group; the table stays valid |
| GuestRepository.UpdateRowSpec | backend/internal/guest/repository_postgres.go:141-167 | a missing id is the not-found sentinel with no change; otherwise only that row changes: each of the six editable fields takes the supplied value or keeps the stored one, the caller becomes the updater at the current clock, the id, creator and creation time stay, and the clock advances by one |
| GuestRepository.MergeIdempotent | backend/internal/guest/repository_postgres.go:141-156 | applying the same partial update twice equals applying it once (up to the update time) |
| GuestRepository.MergeNothing | backend/internal/guest/repository_postgres.go:141-156 | an update with no fields changes only the updater and the update time |
| GuestRepository.DeleteRowSpec | backend/internal/guest/repository_postgres.go:169-181 | deleting a missing id is the not-found sentinel with no change; otherwise exactly the row with that id goes and the rest stay |
| GuestRepository.GuestTable.constructor | backend/internal/guest/repository_postgres.go:16-18 | an empty, valid table whose first id is 1 |
| GuestRepository.GuestTable.List | backend/internal/guest/repository_postgres.go:20-45 | the loop returns every row exactly once, newest first (the reverse of insertion order), and an empty list for an empty table |
| GuestRepository.GuestTable.Create | backend/internal/guest/repository_postgres.go:120-139 | the new row and table are those of `CreateRow`; the table stays valid |
| GuestRepository.GuestTable.Update | backend/internal/guest/repository_postgres.go:141-167 | the result and table are those of `UpdateRow` |
| GuestRepository.GuestTable.Delete | backend/internal/guest/repository_postgres.go:169-181 | the result and table are those of `DeleteRow` |
| GuestService.GuestNotFoundError | backend/internal/guest/service.go:44-46 | the not-found error the service returns is a 404 that still satisfies `errors.Is` with the repository sentinel |
| GuestService.ValidateCreate | backend/internal/guest/service.go:203-222 | no error exactly for valid input (both names non-empty, an empty phone or one matching `^\d{2}9\d{8}$`, relationship P or R, a given family group at least 1); any error is a causeless 400; the first broken rule decides the message, in the order empty first name, empty last name, malformed phone, bad relationship, family group below 1 |
| GuestService.ValidateUpdate | backend/internal/guest/service.go:224-232 | no error exactly when a supplied non-empty phone matches the pattern and a supplied relationship is P or R; nothing else is checked; a malformed phone is reported before a bad relationship |
| GuestService.CreateRejection | backend/internal/guest/service.go:54-101 | no error exactly when a create is allowed; otherwise the first failed check in the service's order: the validation error, then 403 for an unknown caller, then 409 with the name-taken message, then 409 with the phone-taken message for a non-empty phone, then 404 for a supplied family group that does not exist |
| GuestService.CreateOutcome | backend/internal/guest/service.go:54-118 | success exactly when the input is valid, the caller is a user, the name and a non-empty phone are free and a given family group exists; a failure is the error `CreateRejection` picks, a 400, 403, 404 or 409 application error, and leaves the table as it was; a valid input from an unknown caller is forbidden; success appends one guest with the next id, the input's fields, an empty phone stored as absent, the caller as creator and updater, not confirmed, in the given group or in a fresh one |
| GuestService.CreatePreservesUnique | backend/internal/guest/service.go:70-90 | a create keeps the table valid and keeps names and non-empty phones unique |
| GuestService.CreateOnEmptyTable | backend/internal/guest/service.go:92-117 | a valid create from a known user on an empty table succeeds with id 1 and opens family group 1 |
| GuestService.UpdateOutcome | backend/internal/guest/service.go:120-188 | a failure changes nothing and is 400, 403, 404 or 409; a success is the repository's merge; past validation, the caller and phone checks, a missing id is the not-found error |
| GuestService.Merged | backend/internal/guest/service.go:177-185 | the repository update, with its not-found sentinel mapped to the service's not-found error |
| GuestService.UpdateOutcomeSpec | backend/internal/guest/service.go:120-188 | on a valid table with unique names and phones, an update succeeds exactly when the input is valid, the caller is a user, the guest exists, and the new phone and merged name belong to no other guest |
| GuestService.PhoneClashIff | backend/internal/guest/service.go:136-146 | the check on the first holder of a phone agrees with "no other guest holds it" |
| GuestService.NameClashIff | backend/internal/guest/service.go:148-175 | the name check uses the current names overridden by the supplied ones and excludes the guest itself |
| GuestService.UpdatePreservesUnique | backend/internal/guest/service.go:120-188 | an update keeps the table valid and names and non-empty phones unique |
| GuestService.UpdateAcceptsEmptyNameAndNegativeGroup | backend/internal/guest/service.go:224-232 | update validation lets through an empty first name and a negative family group, which the stored guest then takes |
| GuestService.DeletePreservesUnique | backend/internal/guest/service.go:190-201 | a delete keeps names and non-empty phones unique |
| GuestService.GuestService.constructor | backend/internal/guest/service.go:28-30 | a service over a valid guest table and user table |
| GuestService.GuestService.List | backend/internal/guest/service.go:32-39 | every stored guest exactly once, newest first: position i holds the i-th most recently inserted row |
| GuestService.GuestService.GetByID | backend/internal/guest/service.go:41-52 | the guest with the id, or the service's not-found error exactly when there is none |
| GuestService.GuestService.Create | backend/internal/guest/service.go:54-118 | the result and new table are `CreateOutcome` of the old table, with the caller known exactly when the user table has the identifier |
| GuestService.GuestService.Update | backend/internal/guest/service.go:120-188 | the result and new table are `UpdateOutcome` of the old table |
| GuestService.GuestService.Delete | backend/internal/guest/service.go:190-201 | succeeds exactly when a guest has the id, then removes it; otherwise the not-found error and no change |
| GuestImporter.Names | backend/internal/guest/importer.go:114-116 | each header cell's column name is the cell lower-cased, then trimmed |
| GuestImporter.LastPositions | backend/internal/guest/importer.go:113-116 | every name is in the map, at a position holding that name, and no later cell has it |
| GuestImporter.ColumnIndex | backend/internal/guest/importer.go:113-116 | every mapped position is a header position |
| GuestImporter.ColumnIndexLastOccurrence | backend/internal/guest/importer.go:113-116 | a repeated column name maps to its last occurrence |
| GuestImporter.FirstMissing | backend/internal/guest/importer.go:118-122 | nothing is missing exactly when every required column is mapped; otherwise a required, unmapped column |
| GuestImporter.FirstMissingAt | backend/internal/guest/importer.go:14-122 | the column reported is the first required column, in the list order first_name, last_name, phone, relationship, family_group, that the header lacks |
| GuestImporter.MapColumnsSpec | backend/internal/guest/importer.go:112-125 | success carries the column map with every required column; a failure names a required column |
| GuestImporter.MapColumnsAcceptsIff | backend/internal/guest/importer.go:112-125 | a header is accepted exactly when each required name appears among its normalised cells |
| GuestImporter.MapColumns | backend/internal/guest/importer.go:112-125 | the two loops compute `MapColumnsSpec` of the header |
| GuestImporter.CheckRequired | backend/internal/guest/importer.go:118-122 | the required-column loop returns the first missing column |
| GuestImporter.MaxIndex | backend/internal/guest/importer.go:85-90 | the scan returns a non-negative bound of every mapped position, reached by one of them unless it is 0 |
| GuestImporter.MaxIsLastColumn | backend/internal/guest/importer.go:85-93 | the largest mapped position is always the header's last position, so only rows at least as wide as the header are read |
| GuestImporter.ParseFamilyGroup | backend/internal/guest/importer.go:127-136 | "" is the missing-group error; success exactly for base-10 64-bit integers, with no positivity check; any other failure carries the cell and `strconv.ParseInt`'s error kind: out of range exactly when `ParseIntOverflows` holds, invalid syntax otherwise |
| GuestImporter.ParseFamilyGroupRoundTrip | backend/internal/guest/importer.go:127-136 | every 64-bit group written in decimal reads back as itself |
| Text.GoParseIntSpec | backend/internal/guest/importer.go:131-133 | `strconv.ParseInt` as its digit loop runs agrees with `ParseInt64` on every value, and reports a range error exactly when the digits before the first non-digit exceed 2^64 - 1, or the rest after the sign is all digits and outside the sign's 64-bit range |
| Text.ScanUint64Spec | backend/internal/guest/importer.go:131-133 | `ParseUint`'s loop stops at whichever comes first, a digit that overflows or a non-digit: range error, syntax error, or the value of the digits |
| Text.FoldIsDecimalValue | backend/internal/guest/importer.go:131-133 | reading digits left to right, as the loop does, gives their decimal value |
| GuestImporter.NinesThenLetterOutOfRange | backend/internal/guest/importer.go:127-136 | twenty nines and then a non-digit are reported as out of range, not as invalid syntax |
| Text.GoQuote | backend/internal/guest/importer.go:131-133 | the cell quoted as `strconv.Quote` quotes it inside the parse error: a quote at each end around the escaped text, never shorter than the cell plus two |
| Text.QuoteRoundTrip | backend/internal/guest/importer.go:131-133 | quoting loses nothing: reading the escapes back gives the original cell |
| Text.QuotePlain | backend/internal/guest/importer.go:131-133 | a cell of printable characters with no quote or backslash appears in the error as it is, between quotes |
| GuestImporter.RowInput | backend/internal/guest/importer.go:41-52 | on success each field is its mapped cell with white space trimmed, and the family group is that cell read as a base-10 64-bit integer |
| GuestImporter.RowResults | backend/internal/guest/importer.go:41-52 | one result per row, in row order |
| GuestImporter.ParseCSV | backend/internal/guest/importer.go:18-56 | the read loop computes `ParseCsvSpec`: no record is an unreadable header, a bad header is its missing column, otherwise the rows' inputs in order or the first error |
| GuestImporter.ReadRecords | backend/internal/guest/importer.go:31-55 | the loop over the records after the header computes the CSV body |
| GuestImporter.CsvBodyAllWide | backend/internal/guest/importer.go:31-55 | when every record has the header's field count, the result is the inputs of all rows in order, or the first row error, which aborts the whole parse |
| GuestImporter.CsvBodyNarrowFails | backend/internal/guest/importer.go:33-39 | a record with the wrong field count makes the whole parse fail |
| GuestImporter.NormalizeNoOp | backend/internal/guest/importer.go:115 | a cell already lower-case and trimmed is its own column name |
| GuestImporter.DistinctHeaderMaps | backend/internal/guest/importer.go:113-116 | distinct, normalised header names map to their own positions, so column order does not matter |
| GuestImporter.RequiredHeaderMaps | backend/internal/guest/importer.go:14-125 | the header made of exactly the required columns is accepted, each at its position |
| GuestImporter.ParseXLSX | backend/internal/guest/importer.go:60-110 | computes `ParseXlsxSpec`: an empty sheet fails, a bad header is its missing column, otherwise the inputs of the wide-enough rows or the first error |
| GuestImporter.ReadSheetRows | backend/internal/guest/importer.go:82-107 | the row loop, with its per-row `maxIdx` scan, computes the XLSX body |
| GuestImporter.XlsxBodyFilters | backend/internal/guest/importer.go:83-107 | the XLSX body is the inputs of exactly the rows at least as wide as the header, in order; narrower rows are skipped silently |
| FilePath.ExtIsSuffix | backend/internal/guest/handler.go:170 | the extension of a name is a suffix of that name |
| FilePath.ExtShape | backend/internal/guest/handler.go:170 | a non-empty extension starts with '.' and has no other '.' and no '/' |
| FilePath.ExtOfEnding | backend/internal/guest/handler.go:170 | a name ending in '.' followed by characters that are neither '.' nor '/' has exactly that ending as its extension |
| FilePath.LowerExtIff | backend/internal/guest/handler.go:170 | the lowered extension equals a given extension exactly when the name ends with it in any case |
| FilePath.FileKindOfIff | backend/internal/guest/handler.go:170-180 | CSV exactly for names ending in ".csv" and XLSX exactly for names ending in ".xlsx", compared case-insensitively |
| ServeMux.Mux.constructor | backend/cmd/server/main.go:50 | a router with no patterns |
| ServeMux.Mux.HandleFunc | backend/internal/guest/handler.go:23-30 | registering a pattern not yet present appends it; a duplicate is not allowed |
| GuestHandler.GuestRoutes | backend/internal/guest/handler.go:23-30 | six distinct route patterns |
| GuestHandler.ErrorResponse | backend/internal/guest/handler.go:216-218 | the body is exactly `{"error": msg}` with the given status |
| GuestHandler.GetUserRACF | backend/internal/guest/handler.go:32-43 | accepted exactly when the trimmed header is five ASCII letters or digits; the result is its upper-case form; an empty header and a malformed one get their own messages |
| GuestHandler.GetUserRACFIdempotent | backend/internal/guest/handler.go:34-43 | an accepted identifier is accepted again unchanged |
| GuestHandler.GetUserRACFIgnoresCase | backend/internal/guest/handler.go:32-43 | lower- and upper-case spellings name the same caller |
| GuestHandler.ParseID | backend/internal/guest/handler.go:45-47 | an id read is a 64-bit integer; an empty path value is no id |
| GuestHandler.ParseIDRoundTrip | backend/internal/guest/handler.go:45-47 | every 64-bit id written in decimal is read back |
| GuestHandler.GuestJson | backend/internal/guest/repository_postgres.go:47-62 | the guest object carries the id, the phone or JSON null, and the family group |
| GuestHandler.ImportBody | backend/internal/guest/handler.go:203-207 | the corrected summary: `imported`, `errors` as an array of the failure texts, and `total` |
| GuestHandler.ImportBodyAsWritten | backend/internal/guest/handler.go:187-207 | as written, an import without failures writes `"errors": null`; with failures it is the corrected body |
| GuestHandler.GetResponse | backend/internal/guest/handler.go:58-75 | 200 with the guest exactly on success; the not-found sentinel gives 404, any other error 500 |
| GuestHandler.CreateResponse | backend/internal/guest/handler.go:77-96 | 201 with the guest exactly on success; every service error, whatever its kind, is a 400 with its text |
| GuestHandler.UpdateResponse | backend/internal/guest/handler.go:98-127 | 200 exactly on success; 404 exactly for the not-found sentinel; other errors are 400 with their text |
| GuestHandler.DeleteResponse | backend/internal/guest/handler.go:129-153 | 204 with no body exactly on success; 404 exactly for the not-found sentinel; every failure carries an error body |
| GuestHandler.CreateForbiddenIsBadRequest | backend/internal/guest/handler.go:90-94 | a valid create from an unknown caller is forbidden in the service but answered 400 |
| GuestHandler.UpdateNotFoundIff | backend/internal/guest/handler.go:117-125 | past validation and the caller and phone checks, an update answers 404 exactly when no guest has the id |
| GuestHandler.ImportRun | backend/internal/guest/handler.go:187-196 | the created count plus the number of failure texts is the number of rows |
| GuestHandler.ImportRunAppend | backend/internal/guest/handler.go:189-196 | importing a then b is importing a + b: the counts add and b's failures follow a's, so every row is tried in file order whatever failed before |
| GuestHandler.ImportRunRows | backend/internal/guest/handler.go:187-196 | the created count is exactly the number of rows added, and the rows already stored keep their places |
| GuestHandler.ImportRunUnknownCaller | backend/internal/guest/handler.go:189-196 | an unknown caller imports nothing and leaves the table as it was |
| GuestHandler.ImportResponse | backend/internal/guest/handler.go:187-207 | the response as written: 200 exactly when no row failed, otherwise 400; the body carries `imported` and `total`, `errors` is `null` when no row failed and the array of failure texts otherwise |
| GuestHandler.CorrectedImportResponse | backend/internal/guest/handler.go:198-207 | the corrected response: the same status, with `errors` an array in every case; it differs from the written one only when no row failed |
| GuestHandler.ImportStatusIff | backend/internal/guest/handler.go:187-201 | an import answers 200 exactly when every parsed row was created |
| GuestHandler.ParseUpload | backend/internal/guest/handler.go:170-185 | an unknown extension is a 400 before parsing; a parse error is a 400; otherwise the rows of the CSV or XLSX parse |
| GuestHandler.GuestHandler.constructor | backend/internal/guest/handler.go:19-21 | a handler over a valid service |
| GuestHandler.GuestHandler.RegisterRoutes | backend/internal/guest/handler.go:23-30 | the six routes are appended to the router in order |
| GuestHandler.GuestHandler.HandleList | backend/internal/guest/handler.go:49-56 | 200 with an array of as many guests as stored, position i holding the JSON of the i-th most recently inserted guest |
| GuestHandler.GuestHandler.HandleGet | backend/internal/guest/handler.go:58-75 | a bad path id is a 400; otherwise 200 with the guest exactly when it exists, else 404 |
| GuestHandler.GuestHandler.HandleCreate | backend/internal/guest/handler.go:77-96 | a bad identifier or body is a 400 with no change; otherwise the response and table follow the service's create |
| GuestHandler.GuestHandler.HandleUpdate | backend/internal/guest/handler.go:98-127 | identifier, then id, then body are checked with no change on failure; otherwise the response and table follow the service's update |
| GuestHandler.GuestHandler.HandleDelete | backend/internal/guest/handler.go:129-153 | identifier and id are checked first; then 204 exactly when the guest existed and is removed, else 404 |
| GuestHandler.GuestHandler.HandleImport | backend/internal/guest/handler.go:155-208 | identifier, file, extension and parse failures are 400 with no guest created; otherwise every parsed row goes through the service's create and the response is the summary as written for `ImportRun`'s counts |
| GuestHandler.GuestHandler.CreateAll | backend/internal/guest/handler.go:187-207 | the row loop leaves the table that `ImportRun` gives and answers with the summary as written (`errors` is `null` when no row failed) |
| UserRepository.GetByURACF | backend/internal/user/repository_postgres.go:19-32 | a user returned has the identifier; absent exactly when no user has it |
| UserRepository.GetByGuestID | backend/internal/user/repository_postgres.go:34-47 | a user returned is linked to the guest; absent exactly when none is |
| UserRepository.CreateUserValid | backend/internal/user/repository_postgres.go:49-61 | an insert keeps the user table well formed |
| UserRepository.UserTable.constructor | backend/internal/user/repository_postgres.go:15-17 | an empty, valid user table |
| UserRepository.UserTable.Create | backend/internal/user/repository_postgres.go:49-61 | the user and table are those of `CreateUser` |
| UserService.ValidateRegister | backend/internal/user/service.go:30-51 | no error exactly for valid input; otherwise a causeless 400 for the first failed check: phone present, phone pattern, identifier present, identifier `^[A-Z0-9]{5}$` |
| UserService.RegisterOutcome | backend/internal/user/service.go:35-96 | success exactly when the input is valid, a guest has the phone, that guest has no user and the identifier is free; a failure changes nothing and wraps the sentinel of the first failed rule; success inserts one user with role "guest", linked to that guest |
| UserService.RegisterPreservesUnique | backend/internal/user/service.go:63-95 | registration keeps identifiers unique and each guest linked to at most one user |
| UserService.RegisterSucceedsIff | backend/internal/user/service.go:53-95 | with distinct guest phones, success exactly when some guest has the phone and no user, and no user has the identifier |
| UserService.RegisterTwiceConflicts | backend/internal/user/service.go:63-71 | registering the same input again is "already registered" and changes nothing |
| UserService.CheckOutcome | backend/internal/user/service.go:119-151 | a malformed phone is a validation error; otherwise the answer says a user exists exactly when the phone's guest has one, with that user's role |
| UserService.CheckAgreesWithRegister | backend/internal/user/service.go:63-151 | for valid input, the check reports a user exactly when registering would be refused as already registered |
| UserService.CheckAfterRegister | backend/internal/user/service.go:83-150 | after a registration the check reports a user with role "guest" |
| UserService.GetMeOutcome | backend/internal/user/service.go:107-117 | the user with the identifier exactly when one exists; otherwise a not-found error that wraps no sentinel |
| UserService.SeedPersonOutcome | backend/internal/user/service.go:162-187 | an empty or taken identifier changes nothing; otherwise one user with the role and no guest is added |
| UserService.SeedPersonPreservesUnique | backend/internal/user/service.go:162-187 | seeding keeps the user table well formed and identifiers unique |
| UserService.SeedCoupleIdempotent | backend/internal/user/service.go:157-187 | seeding the same couple twice is seeding it once |
| UserService.SeedCoupleOrder | backend/internal/user/service.go:157-160 | the groom is inserted before the bride; an identifier shared by both goes to the groom only |
| UserService.UserService.constructor | backend/internal/user/service.go:25-27 | a service over a valid user table and the guest table |
| UserService.UserService.Register | backend/internal/user/service.go:35-96 | the result and user table are `RegisterOutcome` of the old table |
| UserService.UserService.CheckByPhone | backend/internal/user/service.go:119-151 | the result is `CheckOutcome` of the current tables |
| UserService.UserService.GetMe | backend/internal/user/service.go:107-117 | the result is `GetMeOutcome` of the current users |
| UserService.UserService.SeedCouple | backend/internal/user/service.go:157-160 | the user table becomes `SeedCoupleOutcome` of the old one |
| UserService.UserService.SeedPerson | backend/internal/user/service.go:162-187 | the user table becomes `SeedPersonOutcome` of the old one |
| UserHandler.UserRoutes | backend/internal/user/handler.go:19-26 | distinct patterns; the user list is registered exactly outside production, the other three always |
| UserHandler.RoutesDisjoint | backend/cmd/server/main.go:50-52 | the guest and user routes never collide, so registering both on one router succeeds |
| UserHandler.UserJson | backend/internal/user/model.go:5-12 | the user object has id, role and identifier, and `guest_id` only when the user is linked |
| UserHandler.CheckJson | backend/internal/user/model.go:19-22 | the check object has `exists`, and `role` only when non-empty |
| UserHandler.RegisterResponse | backend/internal/user/handler.go:36-57 | 201 exactly on success; sentinels checked in order: already registered 409, guest not found 404, identifier taken 409; otherwise 400 with the error's text |
| UserHandler.RegisterStatusIff | backend/internal/user/handler.go:28-58 | over the whole registration: 201 for a new user, 400 exactly for malformed input, 404 exactly when no guest has the phone, 409 exactly when the guest has a user or the identifier is taken |
| UserHandler.CheckResponseOf | backend/internal/user/handler.go:60-70 | 200 with the answer exactly on success; any error is 400 with its text |
| UserHandler.CheckStatusIff | backend/internal/user/handler.go:60-70 | the check answers 200 exactly for a well-formed mobile phone, otherwise 400 naming the broken rule |
| UserHandler.MeOutcome | backend/internal/user/handler.go:82-101 | an empty header is 401 before any lookup; any lookup error is 500; a 200 body holds only the role |
| UserHandler.MeStatusIff | backend/internal/user/handler.go:89-98 | 200 exactly for a stored identifier, and never 404 |
| UserHandler.MeAfterRegister | backend/internal/user/handler.go:82-101 | a guest who has just registered sees the role "guest" |
| UserHandler.IdentifierNormalisation | backend/internal/guest/handler.go:32-43 | the guest routes pass on only well-formed upper-case identifiers and accept "abc12" as "ABC12", while the user lookup takes the header as sent and gives 500 for "abc12" |
| UserHandler.ListResponse | backend/internal/user/handler.go:72-80 | a failed listing is 500 with its message; otherwise 200 with an array whose item i is the JSON of the service's i-th entry |
| UserHandler.UserListItemJson | backend/internal/user/model.go:24-29 | a list entry is an object with exactly `uracf`, `role`, `first_name` and `last_name`, each holding the entry's field |
| UserHandler.UserHandler.constructor | backend/internal/user/handler.go:15-17 | a handler over a valid service and the environment name |
| UserHandler.UserHandler.RegisterRoutes | backend/internal/user/handler.go:19-26 | the environment's user routes are appended to the router |
| UserHandler.UserHandler.HandleRegister | backend/internal/user/handler.go:28-58 | an undecodable body is 400 with no change; otherwise the response and users follow `RegisterOutcome` |
| UserHandler.UserHandler.HandleCheck | backend/internal/user/handler.go:60-70 | the response is that of the service's check |
| UserHandler.UserHandler.HandleMe | backend/internal/user/handler.go:82-101 | the response is `MeOutcome` of the current users |
| GuestSchemas.GuestJsonConforms | frontend/src/schemas/guest.ts:3-17 | the server's guest JSON passes `guestSchema` exactly when the relationship is P or R |
| GuestSchemas.ImportBodyConforms | frontend/src/schemas/guest.ts:42-46 | every corrected import summary passes `importResultSchema` |
| GuestSchemas.ImportBodyAsWrittenRejected | frontend/src/schemas/guest.ts:42-46 | the summary as written fails `importResultSchema` on every import without failures |
| GuestSchemas.EmptyUpdateDisagreement | frontend/src/schemas/guest.ts:29-40 | the client refuses an update with no fields, which the server's validation accepts |
| GuestSchemas.BlankNameDisagreement | frontend/src/schemas/guest.ts:21-23 | a blank name fails the client's trimmed check but passes the server's create validation |
| ApiClient.IdentityStore.constructor | frontend/src/lib/api.ts:11-13 | nothing stored at first |
| ApiClient.IdentityStore.Set | frontend/src/lib/api.ts:15-17 | the identifier is stored upper-cased |
| ApiClient.IdentityStore.Clear | frontend/src/lib/api.ts:19-21 | nothing stored afterwards |
| ApiClient.AuthHeaders | frontend/src/lib/api.ts:23-27 | fails exactly when nothing or "" is stored, with the configure-identity message; otherwise exactly the `user-racf` header with the stored value |
| ApiClient.StoredIdentityAccepted | frontend/src/lib/api.ts:15-27 | a five-character alphanumeric identifier, once stored, is sent as the header the guest routes accept unchanged and matches the user pattern |
| ApiClient.BuildRequest | frontend/src/lib/api.ts:37-87 | fails before any request exactly for create, update, delete and import with no identity; the header is attached exactly to those four; method and path are the call's |
| ApiClient.RequestsMatchRoutes | frontend/src/lib/api.ts:37-87 | every call's method and path reach a route the guest handler registers |
| ApiClient.ErrorMessage | frontend/src/lib/api.ts:32 | a failed call's message is the body's non-empty `error` string; a missing or falsy `error` gives "Erro <status>"; the message is never empty |
| ApiClient.HandleResponse | frontend/src/lib/api.ts:29-35 | success exactly for a 2xx status, returning the body unchecked; otherwise the error message |
| ApiClient.DeleteOutcome | frontend/src/lib/api.ts:68-77 | success exactly for 2xx, reading no body; otherwise the same message rule |
| ApiClient.ServerErrorReachesUser | frontend/src/lib/api.ts:29-35 | an error body written by the server reaches the caller as its own text |
| ApiClient.FailedImportLosesSummary | frontend/src/lib/api.ts:29-35 | an import with a failed row is a 400 without an `error` key, so the client only sees "Erro 400" |
| GuestQueries.KeysDistinct | frontend/src/lib/guest-queries.ts:12-15 | the list key and detail keys select only themselves, and detail keys select each other exactly for the same id |
| GuestQueries.Invalidate | frontend/src/lib/guest-queries.ts:37 | the same keys and data; exactly the selected entries become stale |
| GuestQueries.Remove | frontend/src/lib/guest-queries.ts:58 | exactly the selected entries are dropped, the others unchanged |
| GuestQueries.SetData | frontend/src/lib/guest-queries.ts:47 | the key holds the data, fresh; every other entry is unchanged |
| GuestQueries.FailureKeepsCache | frontend/src/lib/guest-queries.ts:32-73 | a failed mutation of any kind leaves the cache as it was |
| GuestQueries.CreateTouchesOnlyList | frontend/src/lib/guest-queries.ts:32-40 | a create marks only the list stale; every detail entry is untouched |
| GuestQueries.UpdateStoresGuest | frontend/src/lib/guest-queries.ts:42-51 | an update stores the returned guest fresh under its detail key and marks the list stale; other details are untouched |
| GuestQueries.DeleteDropsDetail | frontend/src/lib/guest-queries.ts:53-62 | a delete drops the guest's detail entry and marks the list stale; other details are untouched |
| GuestQueries.QueryClient.constructor | frontend/src/lib/guest-queries.ts:33 | an empty cache |
| GuestQueries.QueryClient.SetQueryData | frontend/src/lib/guest-queries.ts:47 | the cache becomes `SetData` of the old one |
| GuestQueries.QueryClient.RemoveQueries | frontend/src/lib/guest-queries.ts:58 | the cache becomes `Remove` of the old one |
| GuestQueries.QueryClient.InvalidateQueries | frontend/src/lib/guest-queries.ts:37 | the cache becomes `Invalidate` of the old one |
| GuestQueries.QueryClient.Clear | frontend/src/components/ImpersonationModal.tsx:91 | the cache is emptied |
| GuestQueries.QueryClient.CreateSettled | frontend/src/lib/guest-queries.ts:32-40 | the cache after a create settles: the list is stale on success, nothing changes on failure |
| GuestQueries.QueryClient.UpdateSettled | frontend/src/lib/guest-queries.ts:42-51 | the cache after an update settles, as `AfterUpdate` |
| GuestQueries.QueryClient.DeleteSettled | frontend/src/lib/guest-queries.ts:53-62 | the cache after a delete settles, as `AfterDelete` |
| GuestQueries.QueryClient.ImportSettled | frontend/src/lib/guest-queries.ts:64-73 | the list is stale after any successful import, whatever the summary says |
| GuestListPage.FormatPhone | frontend/src/pages/GuestListPage.tsx:26-32 | no phone or "" is a dash; eleven characters become "(AB) CDEFG-HIJK" around the original slices; anything else is shown as it is |
| GuestListPage.FormatPhoneKeepsDigits | frontend/src/pages/GuestListPage.tsx:26-32 | formatting an eleven-digit phone only adds punctuation: its digits are the phone |
| GuestListPage.Filtered | frontend/src/pages/GuestListPage.tsx:65-76 | an order-preserving sub-list holding exactly the guests that pass the search, side and confirmation tests |
| GuestListPage.NoFilterKeepsAll | frontend/src/pages/GuestListPage.tsx:65-76 | with no search and no filter every guest is listed, in order |
| GuestListPage.SearchIgnoresCase | frontend/src/pages/GuestListPage.tsx:67-71 | for digit-only phones, the case of the search text does not change the result |
| GuestListPage.ComputeStats | frontend/src/pages/GuestListPage.tsx:78-85 | the total is every guest, confirmed and pending count the guests that are and are not confirmed |
| GuestListPage.StatsAddUp | frontend/src/pages/GuestListPage.tsx:78-85 | confirmed plus pending is the total |
| GuestListPage.Ids | frontend/src/pages/GuestListPage.tsx:123 | exactly the ids of the listed guests |
| GuestListPage.Toggle | frontend/src/pages/GuestListPage.tsx:112-119 | the id's membership flips and no other id changes |
| GuestListPage.ToggleTwice | frontend/src/pages/GuestListPage.tsx:112-119 | toggling twice restores the selection |
| GuestListPage.AllSelectedIff | frontend/src/pages/GuestListPage.tsx:88 | when the selection holds only listed ids, "all selected" means a non-empty list whose ids are exactly the selection |
| GuestListPage.ToggleAllTwice | frontend/src/pages/GuestListPage.tsx:88-124 | select-all on a list not all selected selects all of it, and a second select-all empties the selection |
| GuestListPage.SelectionStaysVisible | frontend/src/pages/GuestListPage.tsx:112-124 | neither toggle ever selects an id that is not listed |
| GuestListPage.ReadImportResult | frontend/src/schemas/guest.ts:42-46 | a summary is read exactly when the body has the import-result shape |
| GuestListPage.ImportOutcome | frontend/src/pages/GuestListPage.tsx:148-165 | a failure is shown as zero imported with its message as the only error and total 0, and no refetch; a success is shown as it is, with a refetch exactly when something was imported |
| GuestListPage.ReadsImportBody | frontend/src/pages/GuestListPage.tsx:153-154 | the page reads back exactly the summary the corrected handler writes |
| GuestListPage.ImportSuccessShown | frontend/src/pages/GuestListPage.tsx:148-165 | with the corrected response, an import without failures is shown with its counts and refetches when anything was imported |
| GuestListPage.ImportSuccessAsWrittenUnreadable | frontend/src/pages/GuestListPage.tsx:153-154 | the handler's response to an import without failures is a 200 the client accepts, whose body the page cannot read as a summary |
| GuestListPage.ImportPartialFailureHidden | frontend/src/pages/GuestListPage.tsx:156-161 | an import with a failed row is shown as zero imported with the single error "Erro 400", with no refetch and no cache change, even when rows were created |
| GuestListPage.OnlyTheCoupleSeesTheList | frontend/src/pages/GuestListPage.tsx:61-179 | a registered guest is shown the unauthorized page; a seeded groom is authorized |
| GuestListPage.ListPage.constructor | frontend/src/pages/GuestListPage.tsx:44-55 | no search, no filter, nothing selected, no import summary |
| GuestListPage.ListPage.SetSearch | frontend/src/pages/GuestListPage.tsx:97-99 | the search changes; the selection is cleared exactly when the text changed |
| GuestListPage.ListPage.SetSide | frontend/src/pages/GuestListPage.tsx:97-99 | the side filter changes; the selection is cleared exactly when it changed |
| GuestListPage.ListPage.SetStatus | frontend/src/pages/GuestListPage.tsx:97-99 | the confirmation filter changes; the selection is cleared exactly when it changed |
| GuestListPage.ListPage.ToggleSelect | frontend/src/pages/GuestListPage.tsx:112-119 | the selection becomes `Toggle` of the old one; nothing else changes |
| GuestListPage.ListPage.ToggleSelectAll | frontend/src/pages/GuestListPage.tsx:121-124 | empties an all-selected list, otherwise selects exactly the listed ids |
| GuestListPage.ListPage.ImportSettled | frontend/src/pages/GuestListPage.tsx:148-165 | the shown summary and the refetch are those of `ImportOutcome` |
| GuestFormPage.FromGuest | frontend/src/pages/GuestFormPage.tsx:66-77 | the form loads the guest's fields, a missing phone as "" |
| GuestFormPage.FieldErrors | frontend/src/pages/GuestFormPage.tsx:22-34 | a field has an error exactly when it breaks its rule (trimmed names non-empty, 0 or 11 phone digits, P or R, an integer group of at least 1), with the form's messages |
| GuestFormPage.ParseForm | frontend/src/pages/GuestFormPage.tsx:22-34 | the form is refused exactly when some field has an error; accepted values carry trimmed names, the phone's digits and the integer group |
| GuestFormPage.DefaultsNeedNames | frontend/src/pages/GuestFormPage.tsx:56-63 | the starting values are refused for the two names only |
| GuestFormPage.PhoneFieldInput | frontend/src/pages/GuestFormPage.tsx:194-198 | the field keeps at most eleven characters, all digits, a prefix of the typed digits, and all of them when there are at most eleven |
| GuestFormPage.PhoneFieldStable | frontend/src/pages/GuestFormPage.tsx:194-198 | filtering the field again changes nothing |
| GuestFormPage.Submit | frontend/src/pages/GuestFormPage.tsx:85-116 | with no identity nothing is sent and the page asks for one; editing sends every field and `confirmed`, an empty phone as absent; creating sends the trimmed fields without `confirmed` |
| GuestFormPage.SubmitAgreesWithClient | frontend/src/pages/GuestFormPage.tsx:88-93 | the page refuses to save exactly when the API client would refuse to build the request |
| GuestFormPage.FormCreateAcceptedByServer | frontend/src/pages/GuestFormPage.tsx:108-116 | a create the form accepts, with no phone or one whose third digit is 9, is sent and passes the server's create validation |
| GuestFormPage.FormPhoneCheckWeaker | frontend/src/pages/GuestFormPage.tsx:25-30 | an eleven-digit phone whose third digit is not 9 passes the form but the server refuses it as an invalid phone |
| GuestFormPage.LandlineLikePhoneAccepted | frontend/src/pages/GuestFormPage.tsx:25-30 | the form accepts "11812345678" as it is |
| GuestFormPage.UnchangedEditKeepsGuest | frontend/src/pages/GuestFormPage.tsx:66-107 | opening a stored guest and saving it unchanged passes both checks and writes back the same guest with only the updater and time changed |
| GuestFormPage.ClearedPhoneIsKept | frontend/src/pages/GuestFormPage.tsx:102 | emptying a guest's phone on edit sends no phone, so the server keeps the old one |
| ImpersonationModal.RoleLabel | frontend/src/components/ImpersonationModal.tsx:13-17 | "Noivo" exactly for the groom, "Noiva" exactly for the bride, "Convidado" for any other role |
| ImpersonationModal.FilteredUsers | frontend/src/components/ImpersonationModal.tsx:96-105 | an order-preserving sub-list holding exactly the users whose identifier, role, label or full name contains the lower-cased, trimmed query, or everyone when it is blank |
| ImpersonationModal.BlankSearchKeepsAll | frontend/src/components/ImpersonationModal.tsx:97-98 | a blank query lists everyone, in order |
| ImpersonationModal.SearchIgnoresCase | frontend/src/components/ImpersonationModal.tsx:97 | the case of the search text does not change whether a user matches |
| ImpersonationModal.CoupleFoundByLabel | frontend/src/components/ImpersonationModal.tsx:99-104 | searching "noiv" finds the groom and the bride by their labels |
| ImpersonationModal.GuestNotFoundByLabel | frontend/src/components/ImpersonationModal.tsx:99-104 | a guest matches "noiv" only through their identifier or name |
| ImpersonationModal.FoundByIdentifier | frontend/src/components/ImpersonationModal.tsx:99-100 | a listed user is found by their own identifier typed in any case |
| ImpersonationModal.Modal.constructor | frontend/src/components/ImpersonationModal.tsx:29-31 | closed, no leave confirmation, empty search |
| ImpersonationModal.Modal.Toggle | frontend/src/components/ImpersonationModal.tsx:50-81 | the shortcut opens or closes the modal; closing clears the search |
| ImpersonationModal.Modal.Escape | frontend/src/components/ImpersonationModal.tsx:62-72 | Escape closes the modal and the leave confirmation |
| ImpersonationModal.Modal.SetSearch | frontend/src/components/ImpersonationModal.tsx:31 | typing changes the search of the open modal |
| ImpersonationModal.Modal.Impersonate | frontend/src/components/ImpersonationModal.tsx:83-87 | the user's identifier is stored upper-cased, every user-me query is marked stale and the modal closes |
| ImpersonationModal.Modal.ExitConfirmed | frontend/src/components/ImpersonationModal.tsx:89-94 | the identity is forgotten, the whole cache is emptied and the confirmation hidden |
| ImpersonationModal.ImpersonationResolves | frontend/src/components/ImpersonationModal.tsx:83-87 | impersonating a user makes the client send that user's identifier, under which the server finds that same user |
| ImpersonationModal.LeavingBlocksChanges | frontend/src/components/ImpersonationModal.tsx:89-94 | after leaving, every guest change is refused by the client before any request |

## Left out

- Database failures: every path that answers `apperr.Internal` or 500 because a query failed is unreachable, since the in-memory tables never fail.
- `created_at`/`updated_at` are ticks of a logical clock, not wall-clock times; the JSON renders them as decimal strings.
- JSON decoding of request bodies: a body that does not decode is `None`. The client's JSON parsing is left out too.
- CSV and XLSX byte formats: uploads arrive as already-split rows, and the multipart field name "file" is not modelled.
- `GuestImporter.CsvBody`: a wrong field count reports the record's number counted from 1, where Go's CSV reader reports the physical line the record starts on; the two differ after a skipped blank line or a quoted field holding a line break, which the already-split rows do not show.
- Regular expressions are written as character predicates; case mapping is ASCII-only; `trim` follows JavaScript's and Go's white-space sets.
- `ApiClient.ErrorMessage`: a truthy `error` that is not a string (a number, an object) gives "Erro <status>" here, where JavaScript's `new Error(x)` would use its string conversion (`"5"`, `"[object Object]"`); JavaScript's number and object-to-string conversions are not modelled, and every error body the server writes has a string `error`.
- `UserHandler.UserJson`: the user object has no `created_at` and `updated_at` (backend/internal/user/model.go:10-11), because the user table carries no clock; no client code reads them.
- `Text.IsGoPrint`: code points above U+00FF count as printable, so `Text.GoQuote` writes them as they are; Go's `unicode.IsPrint` tables, which make it escape a few of them (U+2028, for one), are not modelled, and neither are invalid UTF-8 bytes.
- `GuestListPage.FormatPhone`: lengths count characters, not the UTF-16 units JavaScript counts.
- Bulk delete and `someSelected`: the page imports a bulk-delete mutation that no module defines, and there is no bulk route; only the selection logic is modelled.
- react-query's refetch scheduling, stale times and single-flight behaviour: only which entries a mutation updates, removes or marks stale.
- `frontend/src/lib/user-queries.ts` and the `dev-users-list` query of the modal are not part of this model; the user list arrives as a sequence.
- The user repository's SQL is modelled only as an in-memory user table.
- Wiring in `backend/cmd/server/main.go` (whose constructor calls do not match the shown signatures), configuration, CORS and Content-Type headers, logging.
- Presentation: JSX, styling, focus handling, the keyboard event's key tests, navigation after a save or after leaving.
- `ServeMux.Mux.HandleFunc`: only duplicate patterns are refused; Go's overlapping-wildcard conflicts are not modelled.

## Findings

| source | as written | input that shows it | evidently intended | confidence | as-written member | corrected member |
|---|---|---|---|---|---|---|
| backend/internal/guest/handler.go:187-207 | `errs` starts as a nil slice, which `encoding/json` writes as `"errors": null` when no row failed | any import in which every row is created, e.g. one row that is created: `{"imported":1,"errors":null,"total":1}` fails `importResultSchema` | `"errors": []`, an array in every case | not executed | GuestHandler.ImportBodyAsWritten | GuestHandler.ImportBody |
