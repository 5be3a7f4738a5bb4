# capig-form: the spreadsheet logic, modelled in Dafny

capig-form is a Django site for a chamber of industry (CAPIG). Its forms read
and write a Google Sheets workbook with three tabs that matter here:

- SOCIOS, the member directory;
- ESTADO_SOCIO, one status line per member;
- VENTAS_SOCIO, sales declarations.

Members are keyed by their RUC, the Ecuadorian business-registry identifier.

This project models the pure logic under those forms. Sheet contents come in as
data: raw values are `seq<seq<string>>`, and header-keyed records are
`seq<map<string, string>>`. Writes come out as a list of effects: update one
cell, append a row, or update a range of a row. Clock readings are parameters.

Modules, following the source files, with a few helpers:

- `Wrappers`: `Option` and `Result`.
- `PyStr`: the Python string and container operations the code relies on.
  This covers `str.strip()` with Python's whitespace set, `str.upper()` for
  ASCII and Latin-1 (including `ß` → `SS`), single-character `replace`,
  `list.index`, `dict.get(k, "")`, the short-row guard
  `row[i] if len(row) > i else ""`, and open slices `xs[k:]` with negative
  indices.
- `Sheets`: the sheet value types and the write effects.
- `Ruc`: `limpiar_ruc`.
- `Afiliados` (forms/utils.py): the status/directory look-up and its
  precedence, the status upsert as effects, and the sales row.
- `AfiliacionHandler` (forms/afiliacion_handler.py): header normalisation,
  the header-aligned row, and the new-member write range.
- `SheetsService` (capig_form/services/google_sheets_service.py): the
  required-field check on the credentials and `get_column_data`.
  `get_column_data` covers the column-letter validation, the slice, and the
  strip-and-drop-empty filter.

## Model

| member | source | states |
|---|---|---|
| Ruc.LimpiarRuc | forms/utils.py:19-21 | The result is the input with every `'` and `"` removed and then only a run of whitespace (no-break space included) taken off each end. It holds no quote, has no whitespace at either end, and is no longer than the input |
| Ruc.LimpiarRucIgnoresPadding | forms/utils.py:19-21 | For every RUC, whitespace added at either end does not change its cleaned form |
| Ruc.LimpiarRucIdempotent | forms/utils.py:19-21 | Cleaning an already cleaned RUC changes nothing |
| Ruc.LimpiarRucOfClean | forms/utils.py:19-21 | A string without quotes and without surrounding whitespace is its own cleaned form |
| Ruc.LimpiarRucUnwrapsQuoted | forms/utils.py:19-21 | For every clean identifier, the quoted and blank-padded form `" \"id\" "` cleans back to the identifier |
| PyStr.StripIsTrim | forms/utils.py:21 | `strip` removes only a run of whitespace from each end, so the result is a contiguous piece of the input, and it never adds characters |
| PyStr.StripIgnoresPadding | forms/utils.py:21 | For every string, whitespace added at either end does not change what `strip` returns |
| PyStr.StripIdempotent | capig_form/services/google_sheets_service.py:203 | Stripping a stripped value changes nothing |
| PyStr.RemoveCharKeeps | forms/utils.py:21 | Removing one character keeps every other character of the input and only those |
| PyStr.UpperIsUpper | forms/afiliacion_handler.py:15 | Every character that `upper` produces is already upper case. Whitespace sits at an end of the result exactly when it did in the input |
| PyStr.UpperOfUpper | forms/afiliacion_handler.py:15 | Upper-casing an upper-case string changes nothing |
| PyStr.UpperStripCommute | forms/afiliacion_handler.py:15 | `s.strip().upper()` equals `s.upper().strip()`: upper-casing neither makes nor removes surrounding whitespace |
| PyStr.IndexOf | forms/utils.py:82-86 | `list.index`: the index of the first equal element; `None` (the ValueError) exactly when the element is absent |
| PyStr.SliceFrom | capig_form/services/google_sheets_service.py:203 | `xs[k:]` is always a suffix of `xs`. For `k >= 0` it drops the first `min(k, len(xs))` items. For `k < 0` it keeps the last `min(-k, len(xs))` items |
| Afiliados.FirstStatusMatch | forms/utils.py:49-52 | The first ESTADO_SOCIO record whose cleaned `RUC` (missing key read as "") equals the cleaned key. `None` exactly when no record matches |
| Afiliados.DirectoryHeader | forms/utils.py:68-95 | SOCIOS is usable exactly when it has at least two rows and row 0 holds all four labels RUC, RAZON_SOCIAL, CIUDAD and FECHA_AFILIACION. The columns are the first occurrence of each label |
| Afiliados.FirstDirectoryMatch | forms/utils.py:98-106 | The first data row (index ≥ 1, never the header) long enough to hold a RUC cell whose cleaned RUC equals the key |
| Afiliados.BuscarAfiliadoPorRucBaseDatos | forms/utils.py:197-227 | `None` when SOCIOS is unusable. Otherwise `None` exactly when no data row matches, and else the first matching row's three fields, with "" past a short row's end |
| Afiliados.BuscarEnEstado | forms/utils.py:44-62 | The look-up answers from ESTADO_SOCIO alone exactly when the first match has non-empty RAZON_SOCIAL, CIUDAD, FECHA_AFILIACION and ESTADO. The answer is those four fields |
| Afiliados.BuscarAfiliadoPorRuc | forms/utils.py:40-124 | A non-empty `estado` in the answer can only come from an ESTADO_SOCIO match |
| Afiliados.BuscarPrecedence | forms/utils.py:54-124 | A non-empty ESTADO_SOCIO match always wins, even an incomplete one and whatever SOCIOS holds. Without one, the answer is the SOCIOS-only look-up with `estado = ""` |
| Afiliados.CompleteStatusIgnoresDirectory | forms/utils.py:54-62 | With a complete status match, the answer is the same for every SOCIOS content, so SOCIOS is never consulted |
| Afiliados.NotFoundCases | forms/utils.py:68-124 | Without a status match, the answer is `None` exactly when SOCIOS has fewer than two rows, lacks one of the four labels, or has no matching data row. Any answer has an empty `estado` |
| Afiliados.ColumnOf | forms/utils.py:132-139 | The 1-based position of the first header label equal to the name; `None` exactly when the label is absent |
| Afiliados.StatusUpdates | forms/utils.py:138-153 | At most two cell updates, all on the given row. ESTADO gets the new status and ACTUALIZACION_ESTADO the timestamp, each at its first header position, and each written exactly when its label is present |
| Afiliados.ActualizarFoundWritesMatchedRow | forms/utils.py:127-153 | On a found RUC only the first matching record's row (position + 2) is written, with updates to labels of the stripped, upper-cased row 1, and nothing is appended |
| Afiliados.ActualizarMissingAppendsFromDirectory | forms/utils.py:156-194 | On a RUC absent from ESTADO_SOCIO nothing is written when SOCIOS is unusable. Otherwise exactly one row is appended, `[limpiar_ruc(ruc), razon, fecha, nuevo_estado, ciudad, ts]`, from the SOCIOS look-up with "" when it finds nothing |
| Afiliados.VentasFila | forms/utils.py:244-255 | Ten cells in the documented column order. Cell 9 is the timestamp and every other cell is `data.get(key, "")` for its key |
| Afiliados.GuardarVentasAfiliado | forms/utils.py:244-264 | The length check never fires. The written cells are exactly the ten-cell sales row for the data and timestamp. They go to columns 1..10 of row `len(all_values) + 1`, and missing keys give "" |
| Afiliados.VentasIgnoresExtraKeys | forms/utils.py:244-264 | Two submissions that agree on the nine keys read write the same row, whatever other keys they carry |
| AfiliacionHandler.Normalize | forms/afiliacion_handler.py:13-24 | With `u` the stripped, upper-cased label, the result has the length of `u`. Each character is `u`'s character, with a space turned into `_` and Á É Í Ó Ú Ñ turned into A E I O U N. So it has no space, no surrounding whitespace and no lower-case letter |
| AfiliacionHandler.NormalizeIgnoresCase | forms/afiliacion_handler.py:13-24 | For every label, the label and its upper-case form normalise alike |
| AfiliacionHandler.NormalizeCaseInsensitive | forms/afiliacion_handler.py:13-24 | Any two labels with the same upper-case form normalise alike |
| AfiliacionHandler.NormalizeIgnoresAccents | forms/afiliacion_handler.py:13-24 | For every label, replacing Á É Í Ó Ú Ñ by A E I O U N beforehand does not change its normal form |
| AfiliacionHandler.NormalizeBlankIsUnderscore | forms/afiliacion_handler.py:13-24 | For every label without surrounding whitespace, writing `_` for each space does not change its normal form |
| AfiliacionHandler.NormalizeIgnoresPadding | forms/afiliacion_handler.py:13-24 | For every label, whitespace added at either end does not change its normal form |
| AfiliacionHandler.Unaccent | forms/afiliacion_handler.py:16-23 | The replacement chain keeps the length, leaves no Á É Í Ó Ú Ñ, and leaves every other character as it was, position by position |
| AfiliacionHandler.NormalizeIdempotent | forms/afiliacion_handler.py:13-24 | Normalising a normalised label changes nothing |
| AfiliacionHandler.NormalizeRazonSocialExample | forms/afiliacion_handler.py:13-24 | `" Razón Social "` normalises to `RAZON_SOCIAL` |
| AfiliacionHandler.FieldForMatchesLabelTable | forms/afiliacion_handler.py:34-65 | The branch ladder agrees with a plain label → form-key table: a label is filled from a key exactly when the table lists it. This covers the three telephone and six head-count spellings |
| AfiliacionHandler.BuildFila | forms/afiliacion_handler.py:27-66 | Exactly `len(header)` cells, one per header label, in header order |
| AfiliacionHandler.BuildFilaFollowsLabelTable | forms/afiliacion_handler.py:32-66 | A recognised label yields `data.get(key, "")` for its mapped key, and an unrecognised label yields "" |
| AfiliacionHandler.RazonSocialHeaderFillsRazonSocial | forms/afiliacion_handler.py:34-36 | A header `" Razón Social "` is filled from `razon_social` |
| AfiliacionHandler.AccentedGeneroAliasUnreachable | forms/afiliacion_handler.py:53 | No normalised label equals `GÉNERO`, so that alias can never match |
| AfiliacionHandler.GuardarNuevoAfiliado | forms/afiliacion_handler.py:80-89 | The built row fills columns 1..len(header) of `next_row`, its width equals the range, and the call returns True. An empty header or a row below 1 has no A1 label and fails |
| SheetsService.LoadServiceAccountInfo | capig_form/services/google_sheets_service.py:22-60 | The credentials are accepted unchanged exactly when `private_key`, `client_email` and `project_id` are all present and truthy. Otherwise the error names exactly the missing or empty ones, and a non-dict value is refused |
| SheetsService.ExtraFieldsDoNotMatter | capig_form/services/google_sheets_service.py:53-58 | Fields other than the three required ones never change acceptance |
| SheetsService.EmptyPrivateKeyRejected | capig_form/services/google_sheets_service.py:53-58 | An empty `private_key` is rejected and named, just like a missing one |
| SheetsService.ColumnNumberRoundTrip | capig_form/services/google_sheets_service.py:200 | Accepted letters map one to one onto 1..26, case-insensitively, and the letter for column n maps back to n |
| SheetsService.ColumnNumberEnds | capig_form/services/google_sheets_service.py:200 | A and a give 1; Z and z give 26 |
| SheetsService.CleanValuesAreClean | capig_form/services/google_sheets_service.py:202-203 | Every value kept is non-empty and has no surrounding whitespace |
| SheetsService.CleanValuesConcat | capig_form/services/google_sheets_service.py:202-203 | The filter works cell by cell, so the original order is kept |
| SheetsService.CleanValuesMembers | capig_form/services/google_sheets_service.py:202-203 | A value is kept exactly when it is the non-empty stripped form of some cell |
| SheetsService.CleanValuesIdempotent | capig_form/services/google_sheets_service.py:202-203 | Filtering an already filtered list changes nothing |
| SheetsService.GetColumnData | capig_form/services/google_sheets_service.py:188-219 | The column name is stripped first. Empty raises, anything but one ASCII letter raises, and a client ValueError is re-raised. Any other client failure returns `[]`, and a returned list holds only non-empty stripped values |
| SheetsService.ValidationBeforeClient | capig_form/services/google_sheets_service.py:190-197 | A rejected column name raises whatever the sheet and `start_row` are, so the client is never reached |
| SheetsService.ColumnFromStartRow | capig_form/services/google_sheets_service.py:200-203 | For `start_row >= 1` the result is the filtered cells from sheet row `start_row` down, read from the column the letter names |
| SheetsService.WholeColumnFromRowOne | capig_form/services/google_sheets_service.py:200-203 | From row 1, every non-blank cell of the column appears in the result, stripped, and nothing else does |
| SheetsService.StartRowZeroReadsLastCell | capig_form/services/google_sheets_service.py:203 | With `start_row = 0` the slice starts at index −1, so only the column's last cell is considered |

## Left out

- The Google client layer is not modelled. This covers `_get_client`, opening
  sheets, `get_all_values`, `get_all_records`, `row_values`, `update_cell`,
  `append_row`, `update` and `format`. Sheet contents are inputs and writes are
  returned effects.
- Records are taken as given `map<string, string>` values. The
  `get_all_records` conversion of numeric cells to numbers, and `str()` applied
  to them inside `limpiar_ruc`, are not modelled.
- Decoding the credentials (base64, then JSON) and the `RuntimeError`s for a
  missing or malformed `SERVICE` setting are not modelled. The required-field
  check starts from the decoded JSON value.
- The `SHEET_PATH` configuration check, logging, `_print_utf8` and tracebacks
  have no effect on the values computed, so they are not modelled.
- `datetime.now().strftime(...)` is a parameter: the formatted timestamp string.
- `find_first_empty_row` is not part of this model. `next_row` is an input of
  `GuardarNuevoAfiliado`.
- `rowcol_to_a1` formatting is not modelled. Ranges are (row, first column,
  last column) triples. Its refusal of a row or column below 1 is modelled only
  in `GuardarNuevoAfiliado`, the one place where the code can reach it.
- The best-effort date formatting of column D in VENTAS_SOCIO is a remote side
  effect whose failure is swallowed, so it is not modelled.
- forms/services/google_sheets_service.py is not part of this model. It
  repeats the credential decoding, and its column filter is the one modelled
  in `SheetsService.CleanValues`, without the letter validation.
- The Django views, URL routing and the health endpoint are not modelled.
  They are request plumbing with no sheet logic.
- Concurrent writers racing for the same target row are not modelled. The
  model is sequential.
- PyStr.Upper: upper-casing is modelled for ASCII and Latin-1 only. Characters
  outside that range are left unchanged, whereas Python also upper-cases Greek,
  Cyrillic and others. Header labels outside Latin-1 are therefore outside the
  model.
- Afiliados.ActualizarEstadoAfiliado carries no contract of its own. What it
  writes is stated by `ActualizarFoundWritesMatchedRow` and
  `ActualizarMissingAppendsFromDirectory`.
- SheetsService.GetColumnData: a `column` that is not a string, and a worksheet
  index out of range, reach the `except Exception` branch. They appear here only
  as the client outcome `RaisedOther`.

## Where the code and its description differ

The model follows the code in each case.

- `limpiar_ruc` removes quote characters anywhere in the value, not only
  around it.
- In `guardar_ventas_afiliado` the row always has ten cells, so its
  "unexpected columns" error can never be raised. Extra keys in the submission
  are simply ignored.
- Status rows are placed with `append_row`, and sales rows at
  `len(all_values) + 1`. Neither uses a first-empty-row search.
- In `buscar_afiliado_por_ruc`, an ESTADO_SOCIO match that is present but
  incomplete is returned as it is. SOCIOS is read, but it never fills the gaps.
