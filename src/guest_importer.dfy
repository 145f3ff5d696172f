/** The spreadsheet importer: a header row names the columns (in any order,
    any case, surrounding spaces ignored), each later row becomes one create
    input with trimmed fields and a parsed family group. CSV files arrive as
    the records Go's CSV reader yields; XLSX files as the rows of the first
    sheet. */
module GuestImporter {
  import opened Wrappers
  import opened Text
  import opened Seqs
  import opened GuestTypes

  const RequiredColumns: seq<string> := ["first_name", "last_name", "phone", "relationship", "family_group"]

  datatype ImportError =
    | HeaderUnreadable
    | MissingColumn(column: string)
    | WrongFieldCount(line: nat)
    | FamilyGroupMissing
    | FamilyGroupNotNumber(value: string, outOfRange: bool)
    | XlsxEmpty

  /** The error's `Error()` text. */
  function ErrorText(e: ImportError): string {
    match e
    case HeaderUnreadable => "failed to read CSV header"
    case MissingColumn(c) => "missing required column: " + c
    case WrongFieldCount(line) => "failed to read CSV row: record on line " + DecimalString(line) + ": wrong number of fields"
    case FamilyGroupMissing => "invalid family_group value: family_group is required"
    case FamilyGroupNotNumber(v, range) =>
      "invalid family_group value: family_group must be a number: strconv.ParseInt: parsing " + GoQuote(v) + ": "
        + (if range then "value out of range" else "invalid syntax")
    case XlsxEmpty => "XLSX file is empty"
  }

  /** A header cell as a column name: lower-cased, then trimmed. */
  function Normalize(col: string): string {
    TrimSpace(ToLower(col))
  }

  // ---------------------------------------------------------------------
  // Columns

  /** The normalised name of every header cell. */
  function Names(header: seq<string>): (names: seq<string>)
    ensures |names| == |header|
    ensures forall j :: 0 <= j < |header| ==> names[j] == Normalize(header[j])
  {
    seq(|header|, j requires 0 <= j < |header| => Normalize(header[j]))
  }

  /** The column map `mapColumns` builds from the normalised names: every
      name, at the position of its last occurrence. */
  function LastPositions(names: seq<string>): (m: map<string, int>)
    ensures forall k | k in m :: 0 <= m[k] < |names| && names[m[k]] == k
    ensures forall k | k in m :: forall j :: m[k] < j < |names| ==> names[j] != k
    ensures forall j :: 0 <= j < |names| ==> names[j] in m
    decreases |names|
  {
    if names == [] then map[]
    else
      var n := |names| - 1;
      var init := names[..n];
      var m0 := LastPositions(init);
      assert names == init + [names[n]];
      LastPositionsExtend(init, names[n], m0);
      m0[names[n] := n]
  }

  /** Recording one more name at the next position keeps every name at its
      last occurrence. */
  lemma LastPositionsExtend(init: seq<string>, x: string, m0: map<string, int>)
    requires forall k | k in m0 :: 0 <= m0[k] < |init| && init[m0[k]] == k
    requires forall k | k in m0 :: forall j :: m0[k] < j < |init| ==> init[j] != k
    requires forall j :: 0 <= j < |init| ==> init[j] in m0
    ensures var names, m := init + [x], m0[x := |init|];
      && (forall k | k in m :: 0 <= m[k] < |names| && names[m[k]] == k)
      && (forall k | k in m :: forall j :: m[k] < j < |names| ==> names[j] != k)
      && (forall j :: 0 <= j < |names| ==> names[j] in m)
  {
    var names, m := init + [x], m0[x := |init|];
    forall k | k in m ensures 0 <= m[k] < |names| && names[m[k]] == k {
      if k != x { assert names[m0[k]] == init[m0[k]]; }
    }
    forall k, j | k in m && m[k] < j < |names| ensures names[j] != k {
      if k != x && j < |init| { assert names[j] == init[j]; }
    }
    forall j | 0 <= j < |names| ensures names[j] in m {
      if j < |init| { assert names[j] == init[j]; }
    }
  }

  lemma LastPositionsStep(names: seq<string>, i: nat)
    requires i < |names|
    ensures LastPositions(names[..i + 1]) == LastPositions(names[..i])[names[i] := i]
  {
    assert names[..i + 1][..i] == names[..i];
  }

  function ColumnIndex(header: seq<string>): (m: map<string, int>)
    ensures forall k | k in m :: 0 <= m[k] < |header|
  {
    LastPositions(Names(header))
  }

  /** `mapColumns` keys every normalised header name to the position of its
      last occurrence. */
  lemma ColumnIndexLastOccurrence(header: seq<string>)
    ensures var m := ColumnIndex(header);
      && (forall k | k in m :: Normalize(header[m[k]]) == k)
      && (forall k | k in m :: forall j :: m[k] < j < |header| ==> Normalize(header[j]) != k)
      && (forall j :: 0 <= j < |header| ==> Normalize(header[j]) in m)
  {
  }

  /** The first required column, in the listed order, the map lacks. */
  function FirstMissing(index: map<string, int>, required: seq<string>): (r: Option<string>)
    ensures r.None? <==> forall c | c in required :: c in index
    ensures r.Some? ==> r.value in required && r.value !in index
  {
    if required == [] then None
    else if required[0] !in index then Some(required[0])
    else FirstMissing(index, required[1..])
  }

  predicate HasRequired(index: map<string, int>) {
    forall c | c in RequiredColumns :: c in index
  }

  function MapColumnsSpec(header: seq<string>): (r: Result<map<string, int>, ImportError>)
    ensures r.Success? ==> r.value == ColumnIndex(header) && HasRequired(r.value)
    ensures r.Failure? ==> r.error.MissingColumn? && r.error.column in RequiredColumns
  {
    var index := ColumnIndex(header);
    match FirstMissing(index, RequiredColumns)
    case Some(c) => Failure(MissingColumn(c))
    case None => Success(index)
  }

  /** The header is accepted exactly when every required column appears in
      it, in any case and with any surrounding spaces. */
  lemma MapColumnsAcceptsIff(header: seq<string>)
    ensures MapColumnsSpec(header).Success? <==>
      forall c | c in RequiredColumns :: exists j :: 0 <= j < |header| && Normalize(header[j]) == c
  {
    ColumnIndexLastOccurrence(header);
  }

  /** `mapColumns`: fill the map header cell by header cell, then check the
      required columns in order. */
  method MapColumns(header: seq<string>) returns (r: Result<map<string, int>, ImportError>)
    ensures r == MapColumnsSpec(header)
  {
    var index: map<string, int> := map[];
    ghost var names := Names(header);
    var i := 0;
    while i < |header|
      invariant 0 <= i <= |header|
      invariant index == LastPositions(names[..i])
    {
      var name := Normalize(header[i]);
      LastPositionsStep(names, i);
      index := index[name := i];
      i := i + 1;
    }
    assert names[..|header|] == names;
    var missing := CheckRequired(index, RequiredColumns);
    if missing.Some? {
      return Failure(MissingColumn(missing.value));
    }
    return Success(index);
  }

  /** The loop over the required columns: the first one the map lacks. */
  method CheckRequired(index: map<string, int>, required: seq<string>) returns (missing: Option<string>)
    ensures missing == FirstMissing(index, required)
  {
    var j := 0;
    while j < |required|
      invariant 0 <= j <= |required|
      invariant forall k :: 0 <= k < j ==> required[k] in index
    {
      if required[j] !in index {
        FirstMissingAt(index, required, j);
        return Some(required[j]);
      }
      j := j + 1;
    }
    return None;
  }

  /** The first required column absent from the map is the one reported. */
  lemma {:induction false} FirstMissingAt(index: map<string, int>, required: seq<string>, j: nat)
    requires j < |required| && required[j] !in index
    requires forall k :: 0 <= k < j ==> required[k] in index
    ensures FirstMissing(index, required) == Some(required[j])
  {
    if j > 0 {
      FirstMissingAt(index, required[1..], j - 1);
    }
  }

  /** `maxIdx`: the largest position in the map, starting from 0. */
  method MaxIndex(index: map<string, int>) returns (m: int)
    ensures m >= 0
    ensures forall k | k in index :: index[k] <= m
    ensures m == 0 || exists k | k in index :: index[k] == m
  {
    m := 0;
    var keys := index.Keys;
    while keys != {}
      invariant keys <= index.Keys
      invariant m >= 0
      invariant forall k | k in index.Keys - keys :: index[k] <= m
      invariant m == 0 || exists k | k in index.Keys - keys :: index[k] == m
      decreases keys
    {
      var k :| k in keys;
      if index[k] > m {
        m := index[k];
      }
      keys := keys - {k};
    }
  }

  /** The largest position `mapColumns` records is always the last header
      cell's: a row is wide enough exactly when it is as wide as the header. */
  lemma MaxIsLastColumn(header: seq<string>, m: int)
    requires header != []
    requires m >= 0
    requires forall k | k in ColumnIndex(header) :: ColumnIndex(header)[k] <= m
    requires m == 0 || exists k | k in ColumnIndex(header) :: ColumnIndex(header)[k] == m
    ensures m == |header| - 1
  {
    var index := ColumnIndex(header);
    var last := Normalize(header[|header| - 1]);
    assert last in index;
    assert index[last] == |header| - 1;
  }

  // ---------------------------------------------------------------------
  // Rows

  /** `parseFamilyGroup`: required, and a base-10 64-bit integer; a
      non-number carries `strconv.ParseInt`'s error kind. */
  function ParseFamilyGroup(s: string): (r: Result<int, ImportError>)
    ensures s == "" ==> r == Failure(FamilyGroupMissing)
    ensures r.Success? <==> ParseInt64(s).Some?
    ensures r.Success? ==> Some(r.value) == ParseInt64(s) && MinInt64 <= r.value <= MaxInt64
    ensures s != "" && r.Failure? ==> r.error == FamilyGroupNotNumber(s, ParseIntOverflows(s))
  {
    GoParseIntSpec(s);
    if s == "" then Failure(FamilyGroupMissing)
    else
      match GoParseInt(s)
      case IntValue(v) => Success(v)
      case IntSyntax => Failure(FamilyGroupNotNumber(s, false))
      case IntRange => Failure(FamilyGroupNotNumber(s, true))
  }

  /** Twenty nines overflow before the loop reaches a following non-digit,
      so the error is "value out of range", not "invalid syntax". */
  lemma NinesThenLetterOutOfRange(s: string)
    requires |s| == 21 && (forall i :: 0 <= i < 20 ==> s[i] == '9') && !IsDigit(s[20])
    ensures ParseFamilyGroup(s) == Failure(FamilyGroupNotNumber(s, true))
  {
    assert Unsigned(s) == s;
    var d := DigitRun(s);
    assert |d| == 20;
    LeadingDigitBound(d);
    Pow10Of19();
    GoParseIntSpec(s);
  }

  lemma LongNumberThenLetterOutOfRange()
    ensures ParseFamilyGroup("99999999999999999999x") == Failure(FamilyGroupNotNumber("99999999999999999999x", true))
  {
    NinesThenLetterOutOfRange("99999999999999999999x");
  }

  /** Every 64-bit group id written in decimal reads back as itself. */
  lemma ParseFamilyGroupRoundTrip(v: int)
    requires MinInt64 <= v <= MaxInt64
    ensures ParseFamilyGroup(IntString(v)) == Success(v)
  {
    ParseInt64RoundTrip(v);
  }

  /** Every mapped position lies inside the record. */
  predicate Fits(index: map<string, int>, record: seq<string>) {
    forall k | k in index :: 0 <= index[k] < |record|
  }

  /** One record as a create input: every required field trimmed, the family
      group parsed. */
  function RowInput(index: map<string, int>, record: seq<string>): (r: Result<CreateGuestInput, ImportError>)
    requires HasRequired(index) && Fits(index, record)
    ensures r.Success? ==>
      && r.value.firstName == TrimSpace(record[index["first_name"]])
      && r.value.lastName == TrimSpace(record[index["last_name"]])
      && r.value.phone == TrimSpace(record[index["phone"]])
      && r.value.relationship == TrimSpace(record[index["relationship"]])
      && r.value.familyGroup == ParseInt64(TrimSpace(record[index["family_group"]]))
  {
    assert "first_name" in RequiredColumns && "last_name" in RequiredColumns && "phone" in RequiredColumns;
    assert "relationship" in RequiredColumns && "family_group" in RequiredColumns;
    match ParseFamilyGroup(TrimSpace(record[index["family_group"]]))
    case Failure(e) => Failure(e)
    case Success(fg) =>
      Success(CreateGuestInput(
        TrimSpace(record[index["first_name"]]),
        TrimSpace(record[index["last_name"]]),
        TrimSpace(record[index["phone"]]),
        TrimSpace(record[index["relationship"]]),
        Some(fg)))
  }

  /** Each row's input or error, in order. */
  function RowResults(index: map<string, int>, rows: seq<seq<string>>): (rs: seq<Result<CreateGuestInput, ImportError>>)
    requires HasRequired(index) && forall j :: 0 <= j < |rows| ==> Fits(index, rows[j])
    ensures |rs| == |rows|
    ensures forall j :: 0 <= j < |rows| ==> rs[j] == RowInput(index, rows[j])
  {
    seq(|rows|, j requires 0 <= j < |rows| => RowInput(index, rows[j]))
  }

  /** Prefix already collected inputs to the outcome of the remaining rows. */
  function Prepend(done: seq<CreateGuestInput>, r: Result<seq<CreateGuestInput>, ImportError>): Result<seq<CreateGuestInput>, ImportError> {
    match r
    case Success(rest) => Success(done + rest)
    case Failure(e) => Failure(e)
  }

  // ---------------------------------------------------------------------
  // CSV

  /** The CSV records from `i` on: a record whose field count differs from
      the header's is a read error naming the record's number counted from
      1, otherwise each record gives one input; the first error ends the
      import. */
  function CsvBody(index: map<string, int>, width: nat, records: seq<seq<string>>, i: nat): Result<seq<CreateGuestInput>, ImportError>
    requires HasRequired(index) && forall k | k in index :: 0 <= index[k] < width
    requires i <= |records|
    decreases |records| - i
  {
    if i == |records| then Success([])
    else if |records[i]| != width then Failure(WrongFieldCount(i + 1))
    else
      match RowInput(index, records[i])
      case Failure(e) => Failure(e)
      case Success(g) => Prepend([g], CsvBody(index, width, records, i + 1))
  }

  /** `ParseCSV`: no record at all is an unreadable header; a header without
      every required column fails; then the records after it. */
  function ParseCsvSpec(records: seq<seq<string>>): Result<seq<CreateGuestInput>, ImportError> {
    if records == [] then Failure(HeaderUnreadable)
    else
      match MapColumnsSpec(records[0])
      case Failure(e) => Failure(e)
      case Success(index) => CsvBody(index, |records[0]|, records, 1)
  }

  method ParseCSV(records: seq<seq<string>>) returns (r: Result<seq<CreateGuestInput>, ImportError>)
    ensures r == ParseCsvSpec(records)
  {
    if records == [] {
      return Failure(HeaderUnreadable);
    }
    var header := records[0];
    var columns := MapColumns(header);
    if columns.Failure? {
      return Failure(columns.error);
    }
    r := ReadRecords(columns.value, |header|, records);
  }

  /** The read loop of `ParseCSV` over the records after the header. */
  method ReadRecords(index: map<string, int>, width: nat, records: seq<seq<string>>) returns (r: Result<seq<CreateGuestInput>, ImportError>)
    requires HasRequired(index) && forall k | k in index :: 0 <= index[k] < width
    requires 1 <= |records|
    ensures r == CsvBody(index, width, records, 1)
  {
    var guests: seq<CreateGuestInput> := [];
    PrependNothing(CsvBody(index, width, records, 1));
    var i := 1;
    while i < |records|
      invariant 1 <= i <= |records|
      invariant Prepend(guests, CsvBody(index, width, records, i)) == CsvBody(index, width, records, 1)
    {
      var record := records[i];
      if |record| != width {
        return Failure(WrongFieldCount(i + 1));
      }
      var input := RowInput(index, record);
      if input.Failure? {
        return Failure(input.error);
      }
      assert CsvBody(index, width, records, i) == Prepend([input.value], CsvBody(index, width, records, i + 1));
      PrependStep(guests, input.value, CsvBody(index, width, records, i + 1));
      guests := guests + [input.value];
      i := i + 1;
    }
    assert guests + [] == guests;
    r := Success(guests);
  }

  lemma PrependNothing(r: Result<seq<CreateGuestInput>, ImportError>)
    ensures Prepend([], r) == r
  {
    if r.Success? {
      assert [] + r.value == r.value;
    }
  }

  lemma PrependStep(done: seq<CreateGuestInput>, g: CreateGuestInput, rest: Result<seq<CreateGuestInput>, ImportError>)
    ensures Prepend(done, Prepend([g], rest)) == Prepend(done + [g], rest)
  {
    if rest.Success? {
      assert done + ([g] + rest.value) == (done + [g]) + rest.value;
    }
  }

  /** Collecting a non-empty run of rows: the first row's error, or its
      input before the rest's. */
  lemma CollectCons(index: map<string, int>, rows: seq<seq<string>>)
    requires HasRequired(index) && |rows| > 0 && forall j :: 0 <= j < |rows| ==> Fits(index, rows[j])
    ensures forall j :: 0 <= j < |rows[1..]| ==> Fits(index, rows[1..][j])
    ensures CollectAll(RowResults(index, rows)) ==
      match RowInput(index, rows[0])
      case Failure(e) => Failure(e)
      case Success(g) => Prepend([g], CollectAll(RowResults(index, rows[1..])))
  {
    assert forall j :: 0 <= j < |rows[1..]| ==> rows[1..][j] == rows[j + 1];
    assert RowResults(index, rows)[1..] == RowResults(index, rows[1..]);
  }

  /** When every record has the header's field count, the CSV body is the
      rows' inputs in file order (or the first row's family-group error). */
  lemma {:induction false} CsvBodyAllWide(index: map<string, int>, width: nat, records: seq<seq<string>>, i: nat)
    requires HasRequired(index) && forall k | k in index :: 0 <= index[k] < width
    requires i <= |records|
    requires forall j :: i <= j < |records| ==> |records[j]| == width
    ensures forall j :: 0 <= j < |records[i..]| ==> Fits(index, records[i..][j])
    ensures CsvBody(index, width, records, i) == CollectAll(RowResults(index, records[i..]))
    decreases |records| - i
  {
    assert forall j :: 0 <= j < |records[i..]| ==> records[i..][j] == records[i + j];
    if i < |records| {
      CsvBodyAllWide(index, width, records, i + 1);
      CollectCons(index, records[i..]);
      assert records[i..][1..] == records[i + 1..];
    }
  }

  /** A record with the wrong field count makes the whole CSV import fail. */
  lemma {:induction false} CsvBodyNarrowFails(index: map<string, int>, width: nat, records: seq<seq<string>>, i: nat, bad: nat)
    requires HasRequired(index) && forall k | k in index :: 0 <= index[k] < width
    requires i <= bad < |records| && |records[bad]| != width
    ensures CsvBody(index, width, records, i).Failure?
    decreases |records| - i
  {
    if i < bad && |records[i]| == width {
      CsvBodyNarrowFails(index, width, records, i + 1, bad);
      CsvBodyFailureExtends(index, width, records, i);
    }
  }

  lemma CsvBodyFailureExtends(index: map<string, int>, width: nat, records: seq<seq<string>>, i: nat)
    requires HasRequired(index) && forall k | k in index :: 0 <= index[k] < width
    requires i < |records| && |records[i]| == width
    requires CsvBody(index, width, records, i + 1).Failure?
    ensures CsvBody(index, width, records, i).Failure?
  {
    match RowInput(index, records[i])
    case Failure(_) =>
    case Success(g) =>
  }

  /** A header cell already in lower case and without surrounding spaces is its own column name. */
  lemma NormalizeNoOp(col: string)
    requires forall i :: 0 <= i < |col| ==> !('A' <= col[i] <= 'Z')
    requires col == [] || (!IsGoSpace(col[0]) && !IsGoSpace(col[|col| - 1]))
    ensures Normalize(col) == col
  {
    assert ToLower(col) == col;
    TrimNoOp(col, IsGoSpace);
  }

  /** A header of distinct, already normalised names maps each name to its position. */
  lemma {:induction false} DistinctHeaderMaps(header: seq<string>)
    requires forall j :: 0 <= j < |header| ==> Normalize(header[j]) == header[j]
    requires forall i, j :: 0 <= i < j < |header| ==> header[i] != header[j]
    ensures forall j :: 0 <= j < |header| ==> header[j] in ColumnIndex(header) && ColumnIndex(header)[header[j]] == j
  {
    ColumnIndexLastOccurrence(header);
    var m := ColumnIndex(header);
    forall j | 0 <= j < |header| ensures m[header[j]] == j {
      var p := m[header[j]];
      assert Normalize(header[p]) == header[j];
    }
  }

  /** The header written with exactly the required columns, in order, is
      accepted and maps each column to its position. */
  lemma RequiredHeaderMaps()
    ensures MapColumnsSpec(RequiredColumns).Success?
    ensures forall j :: 0 <= j < |RequiredColumns| ==> MapColumnsSpec(RequiredColumns).value[RequiredColumns[j]] == j
  {
    RequiredColumnsNormalized();
    RequiredColumnsDistinct();
    DistinctHeaderMaps(RequiredColumns);
  }

  lemma RequiredColumnsNormalized()
    ensures forall j :: 0 <= j < |RequiredColumns| ==> Normalize(RequiredColumns[j]) == RequiredColumns[j]
  {
    var h := RequiredColumns;
    forall j | 0 <= j < |h| ensures Normalize(h[j]) == h[j] {
      NormalizeNoOp(h[j]);
    }
  }

  lemma RequiredColumnsDistinct()
    ensures forall i, j :: 0 <= i < j < |RequiredColumns| ==> RequiredColumns[i] != RequiredColumns[j]
  {
  }

  // ---------------------------------------------------------------------
  // XLSX

  /** The sheet rows from `i` on: rows narrower than the header are skipped,
      every other row gives one input; the first error ends the import. */
  function XlsxBody(index: map<string, int>, width: nat, rows: seq<seq<string>>, i: nat): Result<seq<CreateGuestInput>, ImportError>
    requires HasRequired(index) && forall k | k in index :: 0 <= index[k] < width
    requires i <= |rows|
    decreases |rows| - i
  {
    if i == |rows| then Success([])
    else if |rows[i]| < width then XlsxBody(index, width, rows, i + 1)
    else
      match RowInput(index, rows[i])
      case Failure(e) => Failure(e)
      case Success(g) => Prepend([g], XlsxBody(index, width, rows, i + 1))
  }

  /** `ParseXLSX`: an empty sheet fails, a header without every required
      column fails, then the rows after it. */
  function ParseXlsxSpec(rows: seq<seq<string>>): Result<seq<CreateGuestInput>, ImportError> {
    if rows == [] then Failure(XlsxEmpty)
    else
      match MapColumnsSpec(rows[0])
      case Failure(e) => Failure(e)
      case Success(index) => XlsxBody(index, |rows[0]|, rows, 1)
  }

  method ParseXLSX(rows: seq<seq<string>>) returns (r: Result<seq<CreateGuestInput>, ImportError>)
    ensures r == ParseXlsxSpec(rows)
  {
    if rows == [] {
      return Failure(XlsxEmpty);
    }
    var header := rows[0];
    var columns := MapColumns(header);
    if columns.Failure? {
      return Failure(columns.error);
    }
    r := ReadSheetRows(header, columns.value, rows);
  }

  /** The row loop of `ParseXLSX`: each row first checks it reaches the
      largest mapped position. */
  method ReadSheetRows(header: seq<string>, index: map<string, int>, rows: seq<seq<string>>) returns (r: Result<seq<CreateGuestInput>, ImportError>)
    requires index == ColumnIndex(header) && HasRequired(index)
    requires 1 <= |rows|
    ensures r == XlsxBody(index, |header|, rows, 1)
  {
    assert header != [] by {
      assert "first_name" in RequiredColumns;
      var k := "first_name";
      assert 0 <= index[k] < |header|;
    }
    var guests: seq<CreateGuestInput> := [];
    PrependNothing(XlsxBody(index, |header|, rows, 1));
    var i := 1;
    while i < |rows|
      invariant 1 <= i <= |rows|
      invariant Prepend(guests, XlsxBody(index, |header|, rows, i)) == XlsxBody(index, |header|, rows, 1)
    {
      var row := rows[i];
      var maxIdx := MaxIndex(index);
      MaxIsLastColumn(header, maxIdx);
      if |row| <= maxIdx {
        i := i + 1;
        continue;
      }
      var input := RowInput(index, row);
      if input.Failure? {
        return Failure(input.error);
      }
      assert XlsxBody(index, |header|, rows, i) == Prepend([input.value], XlsxBody(index, |header|, rows, i + 1));
      PrependStep(guests, input.value, XlsxBody(index, |header|, rows, i + 1));
      guests := guests + [input.value];
      i := i + 1;
    }
    assert guests + [] == guests;
    r := Success(guests);
  }

  /** The XLSX body is the inputs of exactly the rows at least as wide as the
      header, in sheet order (or the first such row's error). */
  lemma {:induction false} XlsxBodyFilters(index: map<string, int>, width: nat, rows: seq<seq<string>>, i: nat)
    requires HasRequired(index) && forall k | k in index :: 0 <= index[k] < width
    requires i <= |rows|
    ensures forall row | row in Filter(rows[i..], (row: seq<string>) => |row| >= width) :: Fits(index, row)
    ensures XlsxBody(index, width, rows, i) == CollectAll(RowResults(index, Filter(rows[i..], (row: seq<string>) => |row| >= width)))
    decreases |rows| - i
  {
    var wide := (row: seq<string>) => |row| >= width;
    if i < |rows| {
      XlsxBodyFilters(index, width, rows, i + 1);
      var f := Filter(rows[i..], wide);
      var f' := Filter(rows[i + 1..], wide);
      assert rows[i..][0] == rows[i] && rows[i..][1..] == rows[i + 1..];
      if wide(rows[i]) {
        assert f == [rows[i]] + f';
        CollectCons(index, f);
        assert f[1..] == f';
      } else {
        assert f == f';
      }
    }
  }
}
