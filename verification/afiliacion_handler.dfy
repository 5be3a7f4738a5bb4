/** The SOCIOS writer of `forms/afiliacion_handler.py`: header labels are
    normalised and mapped to form keys, and the new affiliate's row is laid out
    to match whatever header row the tab has. */
module AfiliacionHandler {
  import opened Wrappers
  import opened PyStr
  import opened Sheets

  // Accented capitals replaced by `_normalize`.
  const A_ACUTE: char := '\U{C1}'   // Á
  const E_ACUTE: char := '\U{C9}'   // É
  const I_ACUTE: char := '\U{CD}'   // Í
  const O_ACUTE: char := '\U{D3}'   // Ó
  const U_ACUTE: char := '\U{DA}'   // Ú
  const N_TILDE: char := '\U{D1}'   // Ñ

  predicate IsAccentedCapital(c: char) {
    c == A_ACUTE || c == E_ACUTE || c == I_ACUTE || c == O_ACUTE || c == U_ACUTE || c == N_TILDE
  }

  /** The accent replacements, applied in order. */
  function Unaccent(s: string): (r: string)
    ensures |r| == |s|
    ensures forall i :: 0 <= i < |s| ==> r[i] == UnaccentChar(s[i])
  {
    Replace(Replace(Replace(Replace(Replace(Replace(s, A_ACUTE, 'A'), E_ACUTE, 'E'), I_ACUTE, 'I'),
      O_ACUTE, 'O'), U_ACUTE, 'U'), N_TILDE, 'N')
  }

  /** The accent replacements on one character: the six accented capitals lose
      their accent, every other character is kept. */
  function UnaccentChar(c: char): (d: char)
    ensures !IsAccentedCapital(d)
    ensures IsAccentedCapital(c) || d == c
  {
    if c == A_ACUTE then 'A'
    else if c == E_ACUTE then 'E'
    else if c == I_ACUTE then 'I'
    else if c == O_ACUTE then 'O'
    else if c == U_ACUTE then 'U'
    else if c == N_TILDE then 'N'
    else c
  }

  /** How `_normalize` finishes one character of the stripped, upper-cased
      label: a space becomes `_`, an accented capital loses its accent. */
  function NormChar(c: char): char {
    UnaccentChar(if c == ' ' then '_' else c)
  }

  /** `NormChar` along a string. */
  function NormChars(u: string): string {
    seq(|u|, i requires 0 <= i < |u| => NormChar(u[i]))
  }

  /** The last two steps of `_normalize`, spaces to underscores and then
      the accent replacements: together they act character by character. */
  function Finish(u: string): (r: string)
    ensures |r| == |u|
    ensures forall i :: 0 <= i < |u| ==> r[i] == NormChar(u[i])
  {
    Unaccent(Replace(u, ' ', '_'))
  }

  /** Replacing spaces and accents in an upper-cased string with no
      surrounding whitespace leaves it upper-cased, with no surrounding
      whitespace, no space and no accented capital. */
  lemma UnderscoreUnaccent(u: string)
    requires forall i :: 0 <= i < |u| ==> !IsLower(u[i]) && IsUpperFixed(u[i])
    requires NoSurroundingSpace(u)
    ensures var r := Finish(u);
      && ' ' !in r
      && (forall i :: 0 <= i < |r| ==> !IsAccentedCapital(r[i]) && !IsLower(r[i]) && IsUpperFixed(r[i]))
      && NoSurroundingSpace(r)
  {
    var r := Finish(u);
    forall i | 0 <= i < |r|
      ensures r[i] != ' ' && !IsAccentedCapital(r[i]) && !IsLower(r[i]) && IsUpperFixed(r[i])
      ensures IsSpace(r[i]) ==> IsSpace(u[i])
    {
      assert r[i] == NormChar(u[i]);
    }
  }

  lemma NormCharsConcat(a: string, b: string)
    ensures NormChars(a + b) == NormChars(a) + NormChars(b)
  {
    assert forall i :: 0 <= i < |a + b| ==> NormChars(a + b)[i] == (NormChars(a) + NormChars(b))[i];
  }

  /** `_normalize`: strip, upper-case, spaces to underscores, accents dropped. */
  function Normalize(col: string): (r: string)
    ensures var u := Upper(Strip(col));
      |r| == |u| && forall i :: 0 <= i < |u| ==> r[i] == NormChar(u[i])
    ensures ' ' !in r
    ensures forall i :: 0 <= i < |r| ==> !IsAccentedCapital(r[i]) && !IsLower(r[i]) && IsUpperFixed(r[i])
    ensures NoSurroundingSpace(r)
  {
    var u := Upper(Strip(col));
    UpperIsUpper(Strip(col));
    UnderscoreUnaccent(u);
    Finish(u)
  }

  /** Normalising a normalised label changes nothing. */
  lemma NormalizeIdempotent(col: string)
    ensures Normalize(Normalize(col)) == Normalize(col)
  {
    var r := Normalize(col);
    StripOfClean(r);
    UpperOfUpper(r);
    assert Replace(r, ' ', '_') == r;
    assert Unaccent(r) == r;
  }

  lemma NormalizeIsNormChars(col: string)
    ensures Normalize(col) == NormChars(Upper(Strip(col)))
  {
  }

  /** Upper-cased strings whose characters finish alike, one by one, finish alike. */
  lemma {:induction false} NormUpperCharwise(s: string, t: string)
    requires |s| == |t|
    requires forall i :: 0 <= i < |s| ==> NormChars(UpperChar(s[i])) == NormChars(UpperChar(t[i]))
    ensures NormChars(Upper(s)) == NormChars(Upper(t))
  {
    if s != [] {
      NormUpperCharwise(s[1..], t[1..]);
      NormCharsConcat(UpperChar(s[0]), Upper(s[1..]));
      NormCharsConcat(UpperChar(t[0]), Upper(t[1..]));
    }
  }

  /** Case does not matter: a label and its upper-case form normalise alike. */
  lemma NormalizeIgnoresCase(col: string)
    ensures Normalize(Upper(col)) == Normalize(col)
  {
    UpperStripCommute(col);
    UpperIsUpper(Strip(col));
    UpperOfUpper(Upper(Strip(col)));
    NormalizeIsNormChars(Upper(col));
    NormalizeIsNormChars(col);
  }

  /** Labels with the same upper-case form are the same label. */
  lemma NormalizeCaseInsensitive(a: string, b: string)
    requires Upper(a) == Upper(b)
    ensures Normalize(a) == Normalize(b)
  {
    NormalizeIgnoresCase(a);
    NormalizeIgnoresCase(b);
  }

  /** Surrounding whitespace does not matter. */
  lemma NormalizeIgnoresPadding(pre: string, col: string, post: string)
    requires AllSpace(pre) && AllSpace(post)
    ensures Normalize(pre + col + post) == Normalize(col)
  {
    StripIgnoresPadding(pre, col, post);
    NormalizeIsNormChars(pre + col + post);
    NormalizeIsNormChars(col);
  }

  lemma NormUpperUnaccentChar(c: char)
    ensures NormChars(UpperChar(UnaccentChar(c))) == NormChars(UpperChar(c))
  {
    if IsAccentedCapital(c) {
      assert UpperChar(c) == [c];
      assert UpperChar(UnaccentChar(c)) == [UnaccentChar(c)];
    }
  }

  /** Accents do not matter: Á É Í Ó Ú Ñ normalise as A E I O U N. */
  lemma NormalizeIgnoresAccents(col: string)
    ensures Normalize(Unaccent(col)) == Normalize(col)
  {
    var v := Unaccent(col);
    assert SameSpacing(col, v);
    StripSameSpacing(col, v);
    var x := Strip(col);
    assert Strip(v) == Unaccent(x);
    forall i | 0 <= i < |x|
      ensures NormChars(UpperChar(Unaccent(x)[i])) == NormChars(UpperChar(x[i]))
    {
      NormUpperUnaccentChar(x[i]);
    }
    NormUpperCharwise(Unaccent(x), x);
    NormalizeIsNormChars(v);
    NormalizeIsNormChars(col);
  }

  /** Inside a label, a space and an underscore are the same character. */
  lemma NormalizeBlankIsUnderscore(col: string)
    requires NoSurroundingSpace(col)
    ensures Normalize(Replace(col, ' ', '_')) == Normalize(col)
  {
    var v := Replace(col, ' ', '_');
    StripOfClean(col);
    assert NoSurroundingSpace(v);
    StripOfClean(v);
    forall i | 0 <= i < |v|
      ensures NormChars(UpperChar(v[i])) == NormChars(UpperChar(col[i]))
    {
      if col[i] == ' ' {
        assert UpperChar('_') == ['_'];
        assert UpperChar(' ') == [' '];
      }
    }
    NormUpperCharwise(v, col);
    NormalizeIsNormChars(v);
    NormalizeIsNormChars(col);
  }

  lemma RazonSocialStrip()
    ensures Strip(" Raz\U{F3}n Social ") == "Raz\U{F3}n Social"
  {
    var inner := "Raz\U{F3}n Social";
    assert (" " + inner + " ")[1..] == inner + " ";
    TrimStartOfClean(inner + " ");
    assert (inner + " ")[..|inner|] == inner;
    TrimEndOfClean(inner);
    assert " " + inner + " " == " Raz\U{F3}n Social ";
  }

  lemma RazonSocialUpper(s: string)
    requires s == "Raz\U{F3}n Social"
    ensures Upper(s) == "RAZ\U{D3}N SOCIAL"
  {
    assert forall i :: 0 <= i < |s| ==> |UpperChar(s[i])| == 1;
    UpperPointwise(s);
    var r := Upper(s);
    forall i | 0 <= i < |r|
      ensures r[i] == "RAZ\U{D3}N SOCIAL"[i]
    {
      assert r[i] == UpperChar(s[i])[0];
    }
  }

  lemma RazonSocialReplace()
    ensures Finish("RAZ\U{D3}N SOCIAL") == "RAZON_SOCIAL"
  {
    var r := Finish("RAZ\U{D3}N SOCIAL");
    assert |r| == |"RAZON_SOCIAL"|;
    forall i | 0 <= i < |r|
      ensures r[i] == "RAZON_SOCIAL"[i]
    {
    }
  }

  /** Labels that differ only in case, surrounding whitespace, spaces versus
      underscores or accents are one label: " Razón Social " is RAZON_SOCIAL. */
  lemma NormalizeRazonSocialExample()
    ensures Normalize(" Raz\U{F3}n Social ") == "RAZON_SOCIAL"
  {
    RazonSocialStrip();
    RazonSocialUpper("Raz\U{F3}n Social");
    RazonSocialReplace();
  }

  /** The form key each normalised header label is filled from: the branch
      ladder of `_build_fila`, first match wins. */
  function FieldFor(key: string): (f: Option<string>)
  {
    if key == "RAZON_SOCIAL" then Some("razon_social")
    else if key == "RUC" then Some("ruc")
    else if key == "FECHA_AFILIACION" then Some("fecha_afiliacion")
    else if key == "CIUDAD" then Some("ciudad")
    else if key == "DIRECCION" then Some("direccion")
    else if key in {"TELEFONO_EMPRESA_1", "TELEFONO_EMPRESA", "TELEFONO"} then Some("telefono")
    else if key == "EMAIL" then Some("email")
    else if key == "NOMBRE_REP_LEGAL" then Some("representante")
    else if key == "CARGO" then Some("cargo")
    else if key in {"GENERO", "G\U{C9}NERO", "GENERO"} then Some("genero")
    else if key in {"NO._COLABORADORES", "NO_COLABORADORES", "NO.COLABORADORES", "COLABORADORES",
                    "NUM_COLABORADORES", "NUMERO_COLABORADORES"} then Some("colaboradores")
    else if key == "SECTOR" then Some("sector")
    else if key == "TAMANO" then Some("tamano")
    else if key == "ESTADO" then Some("estado")
    else None
  }

  /** The same mapping written as a table from each normalised label to the
      form key it is filled from. */
  const LabelField: map<string, string> := map[
    "RAZON_SOCIAL" := "razon_social",
    "RUC" := "ruc",
    "FECHA_AFILIACION" := "fecha_afiliacion",
    "CIUDAD" := "ciudad",
    "DIRECCION" := "direccion",
    "TELEFONO_EMPRESA_1" := "telefono",
    "TELEFONO_EMPRESA" := "telefono",
    "TELEFONO" := "telefono",
    "EMAIL" := "email",
    "NOMBRE_REP_LEGAL" := "representante",
    "CARGO" := "cargo",
    "GENERO" := "genero",
    "G\U{C9}NERO" := "genero",
    "NO._COLABORADORES" := "colaboradores",
    "NO_COLABORADORES" := "colaboradores",
    "NO.COLABORADORES" := "colaboradores",
    "COLABORADORES" := "colaboradores",
    "NUM_COLABORADORES" := "colaboradores",
    "NUMERO_COLABORADORES" := "colaboradores",
    "SECTOR" := "sector",
    "TAMANO" := "tamano",
    "ESTADO" := "estado"
  ]

  /** The branch ladder and the table agree: a label is filled from form key
      `f` exactly when the table maps it to `f`, and from nothing exactly when
      the table does not list it. */
  lemma FieldForMatchesLabelTable(key: string)
    ensures FieldFor(key).Some? <==> key in LabelField
    ensures FieldFor(key).Some? ==> FieldFor(key).value == LabelField[key]
  {
  }

  /** The cell `_build_fila` writes under one header label. */
  function CellFor(col: string, data: map<string, string>): string {
    match FieldFor(Normalize(col))
    case Some(f) => Get(data, f)
    case None => ""
  }

  /** `_build_fila`: one cell per header label, in header order. */
  function BuildFila(header: seq<string>, data: map<string, string>): (fila: seq<string>)
    ensures |fila| == |header|
    ensures forall i :: 0 <= i < |header| ==> fila[i] == CellFor(header[i], data)
  {
    seq(|header|, i requires 0 <= i < |header| => CellFor(header[i], data))
  }

  /** The row follows the label table: a label the table maps to form key
      `f` is filled with `data.get(f, "")`, and a label it does not list gets "". */
  lemma BuildFilaFollowsLabelTable(header: seq<string>, data: map<string, string>, i: nat)
    requires i < |header|
    ensures |BuildFila(header, data)| == |header|
    ensures Normalize(header[i]) in LabelField ==> BuildFila(header, data)[i] == Get(data, LabelField[Normalize(header[i])])
    ensures Normalize(header[i]) !in LabelField ==> BuildFila(header, data)[i] == ""
  {
    FieldForMatchesLabelTable(Normalize(header[i]));
  }

  /** Any spelling of "Razón Social" fills the `razon_social` field. */
  lemma RazonSocialHeaderFillsRazonSocial(data: map<string, string>)
    ensures BuildFila([" Raz\U{F3}n Social "], data) == [Get(data, "razon_social")]
  {
    NormalizeRazonSocialExample();
  }

  /** The accented alias GÉNERO is never reached: normalisation has already
      replaced the É, so GENERO carries that header. */
  lemma AccentedGeneroAliasUnreachable(col: string)
    ensures Normalize(col) != "G\U{C9}NERO"
  {
    var r := Normalize(col);
    if |r| > 1 {
      assert !IsAccentedCapital(r[1]);
    }
  }

  /** Why the new-affiliate write can fail once the sheet is open. */
  datatype SaveError =
    | InvalidCellLabel   // `rowcol_to_a1` refuses a row or column below 1

  /** `guardar_nuevo_afiliado_en_google_sheets` once the sheet has been
      opened: `header` is sheet row 2 of SOCIOS and `nextRow` is the row the
      first-empty-row search chose. The built row goes across columns
      1..len(header) of that row and the call reports success; an empty
      header or a row below 1 has no A1 label, so the write raises. */
  function GuardarNuevoAfiliado(header: seq<string>, data: map<string, string>, nextRow: int): (r: Result<(Effect, bool), SaveError>)
    ensures r.Failure? <==> header == [] || nextRow < 1
    ensures r.Success? ==> r.value.1
    ensures r.Success? ==> r.value.0.UpdateRange? && r.value.0.row == nextRow
                           && r.value.0.firstCol == 1 && r.value.0.lastCol == |header|
    ensures r.Success? ==> |r.value.0.cells| == r.value.0.lastCol - r.value.0.firstCol + 1
    ensures r.Success? ==> r.value.0.cells == BuildFila(header, data)
  {
    if header == [] || nextRow < 1 then Failure(InvalidCellLabel)
    else Success((UpdateRange(nextRow, 1, |header|, BuildFila(header, data)), true))
  }
}
