/** The affiliate look-up and status/sales writers of `forms/utils.py`, with the
    ESTADO_SOCIO records, the raw SOCIOS values and the clock reading passed in
    and the writes returned as a list of effects. */
module Afiliados {
  import opened Wrappers
  import opened PyStr
  import opened Ruc
  import opened Sheets

  /** The merged answer of a look-up (`razon_social`, `ciudad`,
      `fecha_afiliacion`, `estado`). */
  datatype Affiliate = Affiliate(razonSocial: string, ciudad: string, fechaAfiliacion: string, estado: string)

  /** The three fields read from a SOCIOS row. */
  datatype DirectoryEntry = DirectoryEntry(razonSocial: string, ciudad: string, fechaAfiliacion: string)

  /** 0-based positions of the four required labels in the SOCIOS header row. */
  datatype DirectoryColumns = DirectoryColumns(ruc: nat, razon: nat, ciudad: nat, fecha: nat)

  // ---------------------------------------------------------------------
  // ESTADO_SOCIO records
  // ---------------------------------------------------------------------

  predicate StatusRowMatches(row: Record, key: string) {
    LimpiarRuc(Get(row, "RUC")) == key
  }

  /** First position at or after `from` holding `true`: the shape of every
      "first matching row" scan (`next(...)`, `for ... break`). */
  function FirstTrue(flags: seq<bool>, from: nat): (r: Option<nat>)
    requires from <= |flags|
    ensures r.Some? ==> from <= r.value < |flags| && flags[r.value]
    ensures r.Some? ==> forall j :: from <= j < r.value ==> !flags[j]
    ensures r.None? <==> forall j :: from <= j < |flags| ==> !flags[j]
    decreases |flags| - from
  {
    if from == |flags| then None
    else if flags[from] then Some(from)
    else FirstTrue(flags, from + 1)
  }

  function StatusMatches(records: seq<Record>, key: string): (flags: seq<bool>)
    ensures |flags| == |records|
    ensures forall j :: 0 <= j < |records| ==> flags[j] == StatusRowMatches(records[j], key)
  {
    seq(|records|, j requires 0 <= j < |records| => StatusRowMatches(records[j], key))
  }

  /** Position of the first record whose normalised RUC is `key`. */
  function FirstStatusMatch(records: seq<Record>, key: string): (r: Option<nat>)
    ensures r.Some? ==> r.value < |records| && StatusRowMatches(records[r.value], key)
    ensures r.Some? ==> forall j :: 0 <= j < r.value ==> !StatusRowMatches(records[j], key)
    ensures r.None? <==> forall j :: 0 <= j < |records| ==> !StatusRowMatches(records[j], key)
  {
    FirstTrue(StatusMatches(records, key), 0)
  }

  /** Python truth value of a record: a dict is false exactly when empty. */
  predicate IsTruthy(rec: Record) {
    |rec| > 0
  }

  /** All of RAZON_SOCIAL, CIUDAD, FECHA_AFILIACION and ESTADO are present and non-empty. */
  predicate IsComplete(rec: Record) {
    Get(rec, "RAZON_SOCIAL") != "" && Get(rec, "CIUDAD") != ""
    && Get(rec, "FECHA_AFILIACION") != "" && Get(rec, "ESTADO") != ""
  }

  function AffiliateOf(rec: Record): Affiliate {
    Affiliate(Get(rec, "RAZON_SOCIAL"), Get(rec, "CIUDAD"), Get(rec, "FECHA_AFILIACION"), Get(rec, "ESTADO"))
  }

  // ---------------------------------------------------------------------
  // SOCIOS raw values
  // ---------------------------------------------------------------------

  /** The header check shared by every SOCIOS scan: at least a header row and
      one more row, and the labels RUC, RAZON_SOCIAL, CIUDAD and
      FECHA_AFILIACION all present (exact, first occurrence). */
  function DirectoryHeader(values: Values): (r: Option<DirectoryColumns>)
    ensures r.Some? <==>
      |values| >= 2 && "RUC" in values[0] && "RAZON_SOCIAL" in values[0]
      && "CIUDAD" in values[0] && "FECHA_AFILIACION" in values[0]
    ensures r.Some? ==>
      && IndexOf(values[0], "RUC") == Some(r.value.ruc)
      && IndexOf(values[0], "RAZON_SOCIAL") == Some(r.value.razon)
      && IndexOf(values[0], "CIUDAD") == Some(r.value.ciudad)
      && IndexOf(values[0], "FECHA_AFILIACION") == Some(r.value.fecha)
  {
    if |values| < 2 then None
    else
      var h := values[0];
      match (IndexOf(h, "RUC"), IndexOf(h, "RAZON_SOCIAL"), IndexOf(h, "CIUDAD"), IndexOf(h, "FECHA_AFILIACION"))
      case (Some(a), Some(b), Some(c), Some(d)) => Some(DirectoryColumns(a, b, c, d))
      case _ => None
  }

  /** A SOCIOS row matches when it reaches the RUC column and that cell
      normalises to `key`; a row too short to have a RUC cell never matches. */
  predicate DirectoryRowMatches(row: seq<string>, cols: DirectoryColumns, key: string) {
    cols.ruc < |row| && LimpiarRuc(row[cols.ruc]) == key
  }

  function DirectoryMatches(values: Values, cols: DirectoryColumns, key: string): (flags: seq<bool>)
    ensures |flags| == |values|
    ensures forall j :: 0 <= j < |values| ==> flags[j] == DirectoryRowMatches(values[j], cols, key)
  {
    seq(|values|, j requires 0 <= j < |values| => DirectoryRowMatches(values[j], cols, key))
  }

  /** Position of the first data row (never the header row 0) whose RUC cell
      normalises to `key`. */
  function FirstDirectoryMatch(values: Values, cols: DirectoryColumns, key: string): (r: Option<nat>)
    requires |values| >= 1
    ensures r.Some? ==> 1 <= r.value < |values| && DirectoryRowMatches(values[r.value], cols, key)
    ensures r.Some? ==> forall j :: 1 <= j < r.value ==> !DirectoryRowMatches(values[j], cols, key)
    ensures r.None? <==> forall j :: 1 <= j < |values| ==> !DirectoryRowMatches(values[j], cols, key)
  {
    FirstTrue(DirectoryMatches(values, cols, key), 1)
  }

  /** The three fields of a SOCIOS row; cells past the end of a short row read "". */
  function EntryOf(row: seq<string>, cols: DirectoryColumns): DirectoryEntry {
    DirectoryEntry(CellOr(row, cols.razon), CellOr(row, cols.ciudad), CellOr(row, cols.fecha))
  }

  /** `buscar_afiliado_por_ruc_base_datos`: look the RUC up in SOCIOS only. */
  function BuscarAfiliadoPorRucBaseDatos(ruc: string, socios: Values): (r: Option<DirectoryEntry>)
    ensures DirectoryHeader(socios).None? ==> r.None?
    ensures DirectoryHeader(socios).Some? ==>
      var cols := DirectoryHeader(socios).value;
      && (r.None? <==> forall j :: 1 <= j < |socios| ==> !DirectoryRowMatches(socios[j], cols, LimpiarRuc(ruc)))
      && (r.Some? ==> exists i :: 1 <= i < |socios| && DirectoryRowMatches(socios[i], cols, LimpiarRuc(ruc))
                         && (forall j :: 1 <= j < i ==> !DirectoryRowMatches(socios[j], cols, LimpiarRuc(ruc)))
                         && r.value == EntryOf(socios[i], cols))
  {
    var key := LimpiarRuc(ruc);
    match DirectoryHeader(socios)
    case None => None
    case Some(cols) =>
      match FirstDirectoryMatch(socios, cols, key)
      case None => None
      case Some(i) => Some(EntryOf(socios[i], cols))
  }

  // ---------------------------------------------------------------------
  // buscar_afiliado_por_ruc
  // ---------------------------------------------------------------------

  /** How far the look-up gets on the ESTADO_SOCIO records alone: either it
      already has its answer, or it must read SOCIOS, carrying the status
      match (if any) along. */
  datatype StatusStage = Answered(found: Affiliate) | ConsultDirectory(afiliado: Option<Record>)

  /** The first phase of `buscar_afiliado_por_ruc`: a complete status record
      answers without SOCIOS being read. */
  function BuscarEnEstado(key: string, records: seq<Record>): (r: StatusStage)
    ensures r.Answered? <==>
      FirstStatusMatch(records, key).Some? && IsComplete(records[FirstStatusMatch(records, key).value])
    ensures r.Answered? ==> r.found == AffiliateOf(records[FirstStatusMatch(records, key).value])
    ensures r.Answered? ==> r.found.razonSocial != "" && r.found.ciudad != "" && r.found.fechaAfiliacion != "" && r.found.estado != ""
    ensures r.ConsultDirectory? ==>
      (r.afiliado.None? <==> FirstStatusMatch(records, key).None?)
      && (r.afiliado.Some? ==> r.afiliado.value == records[FirstStatusMatch(records, key).value])
  {
    var afiliado := match FirstStatusMatch(records, key)
                    case Some(i) => Some(records[i])
                    case None => None;
    if afiliado.Some? && IsTruthy(afiliado.value) && IsComplete(afiliado.value) then
      Answered(AffiliateOf(afiliado.value))
    else
      ConsultDirectory(afiliado)
  }

  /** The second phase: SOCIOS has been read. A truthy status match still wins;
      otherwise the first SOCIOS row gives the answer with an empty status. */
  function ConsultarDirectorio(key: string, afiliado: Option<Record>, socios: Values): Option<Affiliate> {
    var fromStatus := if afiliado.Some? && IsTruthy(afiliado.value) then Some(AffiliateOf(afiliado.value)) else None;
    match DirectoryHeader(socios)
    case None => fromStatus
    case Some(cols) =>
      var baseRow := match FirstDirectoryMatch(socios, cols, key)
                     case Some(i) => Some(EntryOf(socios[i], cols))
                     case None => None;
      if fromStatus.Some? then fromStatus else WithoutEstado(baseRow)
  }

  /** A directory entry as a look-up answer: no status known. */
  function WithoutEstado(e: Option<DirectoryEntry>): Option<Affiliate> {
    match e
    case None => None
    case Some(b) => Some(Affiliate(b.razonSocial, b.ciudad, b.fechaAfiliacion, ""))
  }

  /** `buscar_afiliado_por_ruc`: the status phase, then (only when it has no
      answer) the directory phase. */
  function BuscarAfiliadoPorRuc(ruc: string, records: seq<Record>, socios: Values): (r: Option<Affiliate>)
    ensures r.Some? && r.value.estado != "" ==> FirstStatusMatch(records, LimpiarRuc(ruc)).Some?
  {
    var key := LimpiarRuc(ruc);
    match BuscarEnEstado(key, records)
    case Answered(a) => Some(a)
    case ConsultDirectory(afiliado) => ConsultarDirectorio(key, afiliado, socios)
  }

  /** The directory phase agrees with the SOCIOS-only look-up whenever the
      status phase brought no truthy record along. */
  lemma DirectoryPhaseIsBaseDatos(ruc: string, socios: Values)
    ensures ConsultarDirectorio(LimpiarRuc(ruc), None, socios) == WithoutEstado(BuscarAfiliadoPorRucBaseDatos(ruc, socios))
  {
  }

  /** Once SOCIOS has been read, a truthy status record is still the answer,
      whatever SOCIOS holds. */
  lemma TruthyStatusOutranksDirectory(key: string, rec: Record, socios: Values)
    requires IsTruthy(rec)
    ensures ConsultarDirectorio(key, Some(rec), socios) == Some(AffiliateOf(rec))
  {
  }

  /** Precedence of the look-up. A non-empty ESTADO_SOCIO match always wins,
      even an incomplete one and even when SOCIOS has a complete row; without
      one the answer is the SOCIOS-only look-up with an empty `estado`. */
  lemma BuscarPrecedence(ruc: string, records: seq<Record>, socios: Values)
    ensures var m := FirstStatusMatch(records, LimpiarRuc(ruc));
      m.Some? && IsTruthy(records[m.value]) ==> BuscarAfiliadoPorRuc(ruc, records, socios) == Some(AffiliateOf(records[m.value]))
    ensures var m := FirstStatusMatch(records, LimpiarRuc(ruc));
      !(m.Some? && IsTruthy(records[m.value])) ==>
        BuscarAfiliadoPorRuc(ruc, records, socios) == WithoutEstado(BuscarAfiliadoPorRucBaseDatos(ruc, socios))
  {
    var key := LimpiarRuc(ruc);
    var m := FirstStatusMatch(records, key);
    var stage := BuscarEnEstado(key, records);
    if stage.Answered? {
      assert BuscarAfiliadoPorRuc(ruc, records, socios) == Some(stage.found);
      assert stage.found == AffiliateOf(records[m.value]);
    } else {
      assert BuscarAfiliadoPorRuc(ruc, records, socios) == ConsultarDirectorio(key, stage.afiliado, socios);
      if m.Some? && IsTruthy(records[m.value]) {
        assert stage.afiliado == Some(records[m.value]);
        TruthyStatusOutranksDirectory(key, records[m.value], socios);
      } else {
        assert ConsultarDirectorio(key, stage.afiliado, socios) == ConsultarDirectorio(key, None, socios);
        DirectoryPhaseIsBaseDatos(ruc, socios);
      }
    }
  }

  /** When the status match is complete the answer does not depend on SOCIOS
      at all: the first phase already answered. */
  lemma CompleteStatusIgnoresDirectory(ruc: string, records: seq<Record>, socios1: Values, socios2: Values)
    requires FirstStatusMatch(records, LimpiarRuc(ruc)).Some?
    requires IsComplete(records[FirstStatusMatch(records, LimpiarRuc(ruc)).value])
    ensures BuscarEnEstado(LimpiarRuc(ruc), records).Answered?
    ensures BuscarAfiliadoPorRuc(ruc, records, socios1) == BuscarAfiliadoPorRuc(ruc, records, socios2)
  {
  }

  /** With no usable status match the look-up answers `None` exactly when
      SOCIOS has under two rows, lacks one of the four labels, or has no
      matching data row. */
  lemma NotFoundCases(ruc: string, records: seq<Record>, socios: Values)
    requires FirstStatusMatch(records, LimpiarRuc(ruc)).None?
    ensures BuscarAfiliadoPorRuc(ruc, records, socios).None? <==>
      || |socios| < 2
      || !("RUC" in socios[0] && "RAZON_SOCIAL" in socios[0] && "CIUDAD" in socios[0] && "FECHA_AFILIACION" in socios[0])
      || forall j :: 1 <= j < |socios| ==> !DirectoryRowMatches(socios[j], DirectoryHeader(socios).value, LimpiarRuc(ruc))
    ensures BuscarAfiliadoPorRuc(ruc, records, socios).Some? ==> BuscarAfiliadoPorRuc(ruc, records, socios).value.estado == ""
  {
  }

  // ---------------------------------------------------------------------
  // actualizar_estado_afiliado
  // ---------------------------------------------------------------------

  /** Row 1 of ESTADO_SOCIO as compared by the writer: each label stripped and upper-cased. */
  function StatusHeader(headerRow: seq<string>): (h: seq<string>)
    ensures |h| == |headerRow|
  {
    seq(|headerRow|, i requires 0 <= i < |headerRow| => Upper(Strip(headerRow[i])))
  }

  /** 1-based column of the first header label equal to `name`, if any. */
  function ColumnOf(header: seq<string>, name: string): (r: Option<nat>)
    ensures r.Some? <==> name in header
    ensures r.Some? ==> 1 <= r.value <= |header| && header[r.value - 1] == name
    ensures r.Some? ==> forall j :: 0 <= j < r.value - 1 ==> header[j] != name
  {
    match IndexOf(header, name)
    case None => None
    case Some(i) => Some(i + 1)
  }

  /** The fixed order of an appended ESTADO_SOCIO row:
      RUC | RAZON_SOCIAL | FECHA_AFILIACION | ESTADO | CIUDAD | ACTUALIZACION_ESTADO. */
  function StatusRow(ruc: string, base: DirectoryEntry, nuevoEstado: string, timestamp: string): (row: seq<string>)
    ensures |row| == 6
  {
    [LimpiarRuc(ruc), base.razonSocial, base.fechaAfiliacion, nuevoEstado, base.ciudad, timestamp]
  }

  /** The in-place writes on sheet row `row`: the new status under the first
      ESTADO label and the timestamp under the first ACTUALIZACION_ESTADO
      label, each skipped when its label is absent. */
  function StatusUpdates(header: seq<string>, row: int, nuevoEstado: string, timestamp: string): (effects: seq<Effect>)
    ensures |effects| <= 2
    ensures forall e :: e in effects ==>
      && e.UpdateCell? && e.row == row && 1 <= e.col <= |header|
      && (|| (header[e.col - 1] == "ESTADO" && e.value == nuevoEstado)
          || (header[e.col - 1] == "ACTUALIZACION_ESTADO" && e.value == timestamp))
      && forall j :: 0 <= j < e.col - 1 ==> header[j] != header[e.col - 1]
    ensures "ESTADO" in header <==> exists e :: e in effects && 1 <= e.col <= |header| && header[e.col - 1] == "ESTADO"
    ensures "ACTUALIZACION_ESTADO" in header <==>
      exists e :: e in effects && 1 <= e.col <= |header| && header[e.col - 1] == "ACTUALIZACION_ESTADO"
  {
    var colEstado := ColumnOf(header, "ESTADO");
    var colActualizacion := ColumnOf(header, "ACTUALIZACION_ESTADO");
    var first := if colEstado.Some? then [UpdateCell(row, colEstado.value, nuevoEstado)] else [];
    var second := if colActualizacion.Some? then [UpdateCell(row, colActualizacion.value, timestamp)] else [];
    assert forall e :: e in first + second <==> e in first || e in second;
    assert "ESTADO" != "ACTUALIZACION_ESTADO";
    first + second
  }

  /** `actualizar_estado_afiliado` as the writes it makes. `timestamp` is the
      formatted clock reading. */
  function ActualizarEstadoAfiliado(ruc: string, nuevoEstado: string, records: seq<Record>, headerRow: seq<string>,
                                    socios: Values, timestamp: string): (effects: seq<Effect>)
  {
    var key := LimpiarRuc(ruc);
    match FirstStatusMatch(records, key)
    case Some(i) => StatusUpdates(StatusHeader(headerRow), i + 2, nuevoEstado, timestamp)
    case None =>
      match DirectoryHeader(socios)
      case None => []
      case Some(cols) =>
        var base := match FirstDirectoryMatch(socios, cols, key)
                    case Some(j) => EntryOf(socios[j], cols)
                    case None => DirectoryEntry("", "", "");
        [AppendRow(StatusRow(ruc, base, nuevoEstado, timestamp))]
  }

  /** On a found RUC only cells of the matched record's sheet row (record
      position + 2) are written, at most two of them, and nothing is appended;
      which cells is `StatusUpdates`'s contract, over the stripped, upper-cased
      header. */
  lemma ActualizarFoundWritesMatchedRow(ruc: string, nuevoEstado: string, records: seq<Record>, headerRow: seq<string>,
                                        socios: Values, timestamp: string, i: nat)
    requires FirstStatusMatch(records, LimpiarRuc(ruc)) == Some(i)
    ensures ActualizarEstadoAfiliado(ruc, nuevoEstado, records, headerRow, socios, timestamp)
            == StatusUpdates(StatusHeader(headerRow), i + 2, nuevoEstado, timestamp)
    ensures forall e :: e in ActualizarEstadoAfiliado(ruc, nuevoEstado, records, headerRow, socios, timestamp) ==>
      e.UpdateCell? && e.row == i + 2
  {
  }

  /** On a RUC absent from ESTADO_SOCIO exactly one row is appended when SOCIOS
      is usable, carrying the SOCIOS-only look-up's fields ("" when it finds
      nothing), and nothing is written otherwise. */
  lemma ActualizarMissingAppendsFromDirectory(ruc: string, nuevoEstado: string, records: seq<Record>, headerRow: seq<string>,
                                              socios: Values, timestamp: string)
    requires FirstStatusMatch(records, LimpiarRuc(ruc)).None?
    ensures var effects := ActualizarEstadoAfiliado(ruc, nuevoEstado, records, headerRow, socios, timestamp);
      var base := BuscarAfiliadoPorRucBaseDatos(ruc, socios).GetOr(DirectoryEntry("", "", ""));
      && (effects == [] <==>
            || |socios| < 2
            || !("RUC" in socios[0] && "RAZON_SOCIAL" in socios[0] && "CIUDAD" in socios[0] && "FECHA_AFILIACION" in socios[0]))
      && (effects != [] ==>
            effects == [AppendRow([LimpiarRuc(ruc), base.razonSocial, base.fechaAfiliacion, nuevoEstado, base.ciudad, timestamp])])
  {
  }

  // ---------------------------------------------------------------------
  // guardar_ventas_afiliado
  // ---------------------------------------------------------------------

  /** The form keys of the VENTAS_SOCIO columns, in sheet order; the ninth
      column (index 8, FECHA_REGISTRO) is the clock reading, not a key. */
  const VentasKeys: seq<string> := ["ruc", "razon_social", "ciudad", "fecha_afiliacion", "registro_ventas",
                                    "comparativo", "ventas_estimadas", "observaciones", "", "anio"]

  const FechaRegistroColumn: nat := 8

  /** The VENTAS_SOCIO row, A to J. */
  function VentasFila(data: map<string, string>, timestamp: string): (fila: seq<string>)
    ensures |fila| == |VentasKeys| == 10
    ensures fila[FechaRegistroColumn] == timestamp
    ensures forall k :: 0 <= k < 10 && k != FechaRegistroColumn ==> fila[k] == Get(data, VentasKeys[k])
  {
    [Get(data, "ruc"), Get(data, "razon_social"), Get(data, "ciudad"), Get(data, "fecha_afiliacion"),
     Get(data, "registro_ventas"), Get(data, "comparativo"), Get(data, "ventas_estimadas"),
     Get(data, "observaciones"), timestamp, Get(data, "anio")]
  }

  datatype VentasError = UnexpectedColumns(fila: seq<string>)

  /** `guardar_ventas_afiliado` without the best-effort date formatting:
      the row goes to columns 1..10 of the row after the last one read. */
  function GuardarVentasAfiliado(data: map<string, string>, timestamp: string, ventas: Values): (r: Result<Effect, VentasError>)
    ensures r.Success?
    ensures r.value.UpdateRange? && r.value.row == |ventas| + 1 && r.value.firstCol == 1 && r.value.lastCol == 10
    ensures |r.value.cells| == r.value.lastCol - r.value.firstCol + 1
    ensures forall k :: 0 <= k < 10 && k != FechaRegistroColumn && VentasKeys[k] !in data ==> r.value.cells[k] == ""
    ensures r.value.cells == VentasFila(data, timestamp)
  {
    var fila := VentasFila(data, timestamp);
    if |fila| != 10 then Failure(UnexpectedColumns(fila))
    else Success(UpdateRange(|ventas| + 1, 1, 10, fila))
  }

  /** Keys other than the nine read are ignored: two submissions that agree on
      those nine keys write the same row. */
  lemma VentasIgnoresExtraKeys(data1: map<string, string>, data2: map<string, string>, timestamp: string, ventas: Values)
    requires forall k :: 0 <= k < 10 && k != FechaRegistroColumn ==> Get(data1, VentasKeys[k]) == Get(data2, VentasKeys[k])
    ensures GuardarVentasAfiliado(data1, timestamp, ventas) == GuardarVentasAfiliado(data2, timestamp, ventas)
  {
    var f1 := VentasFila(data1, timestamp);
    var f2 := VentasFila(data2, timestamp);
    assert forall k :: 0 <= k < 10 ==> f1[k] == f2[k];
    assert f1 == f2;
  }
}
