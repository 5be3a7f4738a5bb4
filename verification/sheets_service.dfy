/*
  The pure parts of capig_form/services/google_sheets_service.py: the
  required-field check applied to the decoded service-account credentials,
  and the validation and clean-up `get_column_data` wraps around one
  column read. Decoding the credentials and the Google client itself stay
  outside: the decoded JSON value and the outcome of the column read are
  inputs.
*/
module SheetsService {
  import opened Wrappers
  import opened PyStr

  /** A decoded JSON value, as `json.loads` returns it. */
  datatype Json =
    | JNull
    | JBool(b: bool)
    | JNum(n: real)
    | JStr(s: string)
    | JArr(items: seq<Json>)
    | JObj(fields: map<string, Json>)

  /** Python truthiness of a decoded value: `None`, `False`, zero and empty
      strings, lists and dicts are false. */
  predicate Truthy(v: Json) {
    match v
    case JNull => false
    case JBool(b) => b
    case JNum(n) => n != 0.0
    case JStr(s) => s != []
    case JArr(items) => items != []
    case JObj(fields) => fields != map[]
  }

  /** The fields a service-account credential must carry. */
  const RequiredServiceFields: set<string> := {"private_key", "client_email", "project_id"}

  /** `info.get(field)` is truthy. */
  predicate Present(fields: map<string, Json>, field: string) {
    field in fields && Truthy(fields[field])
  }

  datatype CredentialError =
    | NotAnObject                      // `info.get` does not exist on a non-dict value
    | MissingFields(fields: set<string>)

  /** The check at the end of `_load_service_account_info`: the decoded
      value is accepted, unchanged, exactly when every required field is
      present and truthy; otherwise the error names the offending fields. */
  function LoadServiceAccountInfo(info: Json): (r: Result<map<string, Json>, CredentialError>)
    ensures r.Success? <==> info.JObj? && forall f :: f in RequiredServiceFields ==> Present(info.fields, f)
    ensures r.Success? ==> r.value == info.fields
    ensures !info.JObj? ==> r == Failure(NotAnObject)
    ensures r.Failure? && r.error.MissingFields? ==>
              r.error.fields != {} && r.error.fields <= RequiredServiceFields
    ensures r.Failure? && r.error.MissingFields? ==>
              forall f :: f in RequiredServiceFields ==> (f in r.error.fields <==> !Present(info.fields, f))
  {
    if !info.JObj? then Failure(NotAnObject)
    else
      var missing := set f | f in RequiredServiceFields && !Present(info.fields, f);
      if missing == {} then
        assert forall f :: f in RequiredServiceFields ==> f in missing || Present(info.fields, f);
        Success(info.fields)
      else Failure(MissingFields(missing))
  }

  /** Fields outside the required set never decide acceptance. */
  lemma ExtraFieldsDoNotMatter(fields: map<string, Json>, extra: string, v: Json)
    requires extra !in RequiredServiceFields
    ensures LoadServiceAccountInfo(JObj(fields[extra := v])).Success? <==> LoadServiceAccountInfo(JObj(fields)).Success?
  {
    assert forall f :: f in RequiredServiceFields ==> (Present(fields[extra := v], f) <==> Present(fields, f));
  }

  /** An empty string for `private_key` is rejected just like a missing one. */
  lemma EmptyPrivateKeyRejected(fields: map<string, Json>)
    ensures LoadServiceAccountInfo(JObj(fields["private_key" := JStr("")])).Failure?
    ensures "private_key" in LoadServiceAccountInfo(JObj(fields["private_key" := JStr("")])).error.fields
  {
    assert !Present(fields["private_key" := JStr("")], "private_key");
  }

  /** `re.fullmatch(r"[A-Za-z]", c)` on a one-character string. */
  predicate IsAsciiLetter(c: char) {
    'A' <= c <= 'Z' || 'a' <= c <= 'z'
  }

  /** `ord(column.upper()) - ord('A') + 1` for an accepted letter. */
  function ColumnNumber(letter: char): (n: int)
    requires IsAsciiLetter(letter)
    ensures 1 <= n <= 26
  {
    UpperChar(letter)[0] as int - 'A' as int + 1
  }

  /** The letter naming column `n`, as the sheet shows it. */
  function ColumnLetter(n: int): (c: char)
    requires 1 <= n <= 26
    ensures 'A' <= c <= 'Z'
  {
    ('A' as int + n - 1) as char
  }

  /** Column letters and numbers correspond one to one, A to 1 and Z to 26,
      and the lower-case letter names the same column. */
  lemma ColumnNumberRoundTrip(letter: char, n: int)
    requires IsAsciiLetter(letter) && 1 <= n <= 26
    ensures ColumnNumber(ColumnLetter(n)) == n
    ensures ColumnNumber(letter) == n <==> letter == ColumnLetter(n) || letter == (ColumnLetter(n) as int + 32) as char
  {
  }

  lemma ColumnNumberEnds()
    ensures ColumnNumber('A') == 1 && ColumnNumber('a') == 1
    ensures ColumnNumber('Z') == 26 && ColumnNumber('z') == 26
  {
  }

  /** `[v.strip() for v in values if v.strip()]`. */
  function CleanValues(values: seq<string>): (r: seq<string>)
    ensures |r| <= |values|
  {
    if values == [] then []
    else
      var v := Strip(values[0]);
      var rest := CleanValues(values[1..]);
      if v == [] then rest else [v] + rest
  }

  /** Every value kept is non-empty and has no whitespace at either end. */
  lemma {:induction false} CleanValuesAreClean(values: seq<string>)
    ensures forall i :: 0 <= i < |CleanValues(values)| ==> CleanValues(values)[i] != [] && NoSurroundingSpace(CleanValues(values)[i])
  {
    if values != [] {
      CleanValuesAreClean(values[1..]);
    }
  }

  /** One leading cell contributes its stripped text, unless that is empty. */
  lemma CleanValuesCons(x: string, rest: seq<string>)
    ensures CleanValues([x] + rest) == (if Strip(x) == [] then [] else [Strip(x)]) + CleanValues(rest)
  {
    assert ([x] + rest)[0] == x;
    assert ([x] + rest)[1..] == rest;
  }

  /** Cleaning works cell by cell, so the original order is kept. */
  lemma {:induction false} CleanValuesConcat(a: seq<string>, b: seq<string>)
    ensures CleanValues(a + b) == CleanValues(a) + CleanValues(b)
  {
    if a == [] {
      assert a + b == b;
    } else {
      var x, t := a[0], a[1..];
      var head := if Strip(x) == [] then [] else [Strip(x)];
      calc {
        CleanValues(a + b);
        { assert a + b == [x] + (t + b); }
        CleanValues([x] + (t + b));
        { CleanValuesCons(x, t + b); }
        head + CleanValues(t + b);
        { CleanValuesConcat(t, b); }
        head + (CleanValues(t) + CleanValues(b));
        (head + CleanValues(t)) + CleanValues(b);
        { CleanValuesCons(x, t); assert a == [x] + t; }
        CleanValues(a) + CleanValues(b);
      }
    }
  }

  /** The result holds exactly the non-empty stripped cells. */
  lemma {:induction false} CleanValuesMembers(values: seq<string>, x: string)
    ensures x in CleanValues(values) <==> x != [] && exists i :: 0 <= i < |values| && Strip(values[i]) == x
  {
    if values != [] {
      CleanValuesMembers(values[1..], x);
      if exists i :: 0 <= i < |values[1..]| && Strip(values[1..][i]) == x {
        var i :| 0 <= i < |values[1..]| && Strip(values[1..][i]) == x;
        assert Strip(values[i + 1]) == x;
      }
      if exists i :: 0 <= i < |values| && Strip(values[i]) == x {
        var i :| 0 <= i < |values| && Strip(values[i]) == x;
        if i > 0 {
          assert Strip(values[1..][i - 1]) == x;
        }
      }
    }
  }

  /** Cleaning an already clean column changes nothing. */
  lemma {:induction false} CleanValuesIdempotent(values: seq<string>)
    ensures CleanValues(CleanValues(values)) == CleanValues(values)
  {
    CleanValuesAreClean(values);
    CleanOfClean(CleanValues(values));
  }

  lemma {:induction false} CleanOfClean(r: seq<string>)
    requires forall i :: 0 <= i < |r| ==> r[i] != [] && NoSurroundingSpace(r[i])
    ensures CleanValues(r) == r
  {
    if r != [] {
      StripOfClean(r[0]);
      CleanOfClean(r[1..]);
    }
  }

  datatype ColumnError =
    | EmptyColumn          // the stripped column name is empty
    | NotASingleLetter     // it is not exactly one letter A-Z or a-z
    | ClientValueError     // the client raised ValueError, which is re-raised

  /** What the Google client did when asked for one column. */
  datatype ClientOutcome =
    | Fetched(values: seq<string>)
    | RaisedValueError
    | RaisedOther

  /** What `get_column_data` does: raise `ValueError` or return a list. */
  datatype ColumnResult =
    | Raised(error: ColumnError)
    | Returned(values: seq<string>)

  /** The column name after the strip `get_column_data` applies first. */
  predicate ValidColumn(column: string) {
    var c := Strip(column);
    |c| == 1 && IsAsciiLetter(c[0])
  }

  /** `get_column_data`, with the client read of the 1-based column number
      given as `fetch`. */
  function GetColumnData(column: string, startRow: int, fetch: int -> ClientOutcome): (r: ColumnResult)
    ensures r == Raised(EmptyColumn) <==> Strip(column) == []
    ensures r == Raised(NotASingleLetter) <==> Strip(column) != [] && !ValidColumn(column)
    ensures r.Raised? && r.error == ClientValueError <==>
              ValidColumn(column) && fetch(ColumnNumber(Strip(column)[0])).RaisedValueError?
    ensures ValidColumn(column) && fetch(ColumnNumber(Strip(column)[0])).RaisedOther? ==> r == Returned([])
    ensures r.Returned? ==> forall i :: 0 <= i < |r.values| ==> r.values[i] != [] && NoSurroundingSpace(r.values[i])
  {
    var c := Strip(column);
    if c == [] then Raised(EmptyColumn)
    else if !(|c| == 1 && IsAsciiLetter(c[0])) then Raised(NotASingleLetter)
    else
      match fetch(ColumnNumber(c[0]))
      case Fetched(values) =>
        CleanValuesAreClean(SliceFrom(values, startRow - 1));
        Returned(CleanValues(SliceFrom(values, startRow - 1)))
      case RaisedValueError => Raised(ClientValueError)
      case RaisedOther => Returned([])
  }

  /** A rejected column name is rejected before the client is consulted:
      the outcome does not depend on the sheet or on `start_row`. */
  lemma ValidationBeforeClient(column: string, startRow1: int, fetch1: int -> ClientOutcome,
                               startRow2: int, fetch2: int -> ClientOutcome)
    requires !ValidColumn(column)
    ensures GetColumnData(column, startRow1, fetch1) == GetColumnData(column, startRow2, fetch2)
    ensures GetColumnData(column, startRow1, fetch1).Raised?
  {
  }

  /** For `start_row >= 1` the result is the column from sheet row
      `start_row` down, stripped, with blank cells dropped, in order; the
      column read is the one the letter names. */
  lemma ColumnFromStartRow(column: string, startRow: int, fetch: int -> ClientOutcome, values: seq<string>)
    requires ValidColumn(column) && startRow >= 1
    requires fetch(ColumnNumber(Strip(column)[0])) == Fetched(values)
    ensures var k := if startRow - 1 <= |values| then startRow - 1 else |values|;
            GetColumnData(column, startRow, fetch) == Returned(CleanValues(values[k..]))
  {
  }

  /** Reading from row 1 keeps every non-blank cell of the column. */
  lemma WholeColumnFromRowOne(column: string, fetch: int -> ClientOutcome, values: seq<string>, x: string)
    requires ValidColumn(column)
    requires fetch(ColumnNumber(Strip(column)[0])) == Fetched(values)
    ensures GetColumnData(column, 1, fetch).Returned?
    ensures x in GetColumnData(column, 1, fetch).values <==> x != [] && exists i :: 0 <= i < |values| && Strip(values[i]) == x
  {
    ColumnFromStartRow(column, 1, fetch, values);
    assert values[0..] == values;
    CleanValuesMembers(values, x);
  }

  /** Python slicing with `start_row = 0` starts at index -1, so only the
      column's last cell is considered. */
  lemma StartRowZeroReadsLastCell(column: string, fetch: int -> ClientOutcome, values: seq<string>)
    requires ValidColumn(column) && values != []
    requires fetch(ColumnNumber(Strip(column)[0])) == Fetched(values)
    ensures GetColumnData(column, 0, fetch) == Returned(CleanValues([values[|values| - 1]]))
  {
    assert values[|values| - 1..] == [values[|values| - 1]];
  }
}
