/** Normalisation of the RUC (the business-registry identifier) before any
    comparison between tabs. */
module Ruc {
  import opened PyStr

  /** `limpiar_ruc`: drop every single and double quote, then strip
      surrounding whitespace (no-break spaces included). */
  function LimpiarRuc(valor: string): (r: string)
    ensures '\'' !in r && '"' !in r
    ensures NoSurroundingSpace(r)
    ensures |r| <= |valor|
    ensures IsTrimOf(r, RemoveChar(RemoveChar(valor, '\''), '"'))
  {
    var unquoted := RemoveChar(RemoveChar(valor, '\''), '"');
    RemoveCharKeeps(RemoveChar(valor, '\''), '"', '\'');
    StripIsTrim(unquoted);
    var r := Strip(unquoted);
    assert '\'' in r ==> '\'' in multiset(r);
    r
  }

  /** A string with no quotes and no surrounding whitespace is its own
      normal form. */
  lemma {:induction false} LimpiarRucOfClean(s: string)
    requires '\'' !in s && '"' !in s && NoSurroundingSpace(s)
    ensures LimpiarRuc(s) == s
  {
    RemoveAbsentChar(s, '\'');
    RemoveAbsentChar(s, '"');
    StripOfClean(s);
  }

  /** Normalising twice is normalising once. */
  lemma {:induction false} LimpiarRucIdempotent(valor: string)
    ensures LimpiarRuc(LimpiarRuc(valor)) == LimpiarRuc(valor)
  {
    LimpiarRucOfClean(LimpiarRuc(valor));
  }

  /** Whitespace around an identifier never matters: whitespace holds no
      quote, so it survives the quote removal and `strip` takes it off. */
  lemma LimpiarRucIgnoresPadding(pre: string, valor: string, post: string)
    requires AllSpace(pre) && AllSpace(post)
    ensures LimpiarRuc(pre + valor + post) == LimpiarRuc(valor)
  {
    var s := pre + valor + post;
    assert s == pre + (valor + post);
    RemoveCharConcat(pre, valor + post, '\'');
    RemoveCharConcat(valor, post, '\'');
    RemoveAbsentChar(pre, '\'');
    RemoveAbsentChar(post, '\'');
    var v := RemoveChar(valor, '\'');
    assert RemoveChar(s, '\'') == pre + (v + post);
    RemoveCharConcat(pre, v + post, '"');
    RemoveCharConcat(v, post, '"');
    RemoveAbsentChar(pre, '"');
    RemoveAbsentChar(post, '"');
    var w := RemoveChar(v, '"');
    assert RemoveChar(RemoveChar(s, '\''), '"') == pre + w + post;
    StripIgnoresPadding(pre, w, post);
  }

  /** One pair of blanks around a clean string is what `strip` removes. */
  lemma StripPadded(core: string)
    requires NoSurroundingSpace(core)
    ensures Strip(" " + core + " ") == core
  {
    var t := core + " ";
    assert (" " + t)[1..] == t;
    assert TrimStart(" " + core + " ") == TrimStart(t) by {
      assert " " + core + " " == " " + t;
    }
    if core == [] {
      assert TrimStart(t) == [] by {
        assert t[1..] == [];
      }
    } else {
      assert t[0] == core[0];
      TrimStartOfClean(t);
      assert t[..|t| - 1] == core;
      TrimEndOfClean(core);
    }
  }

  /** A quoted identifier with one blank on each side, as it often arrives
      from a pasted cell, normalises to the bare identifier. */
  lemma LimpiarRucUnwrapsQuoted(core: string)
    requires '\'' !in core && '"' !in core && NoSurroundingSpace(core)
    ensures LimpiarRuc(" \"" + core + "\" ") == core
  {
    var open, close := " \"", "\" ";
    var s := open + core + close;
    assert s == open + (core + close);
    assert '\'' !in s;
    RemoveAbsentChar(s, '\'');
    RemoveCharConcat(open, core + close, '"');
    RemoveCharConcat(core, close, '"');
    RemoveAbsentChar(core, '"');
    assert RemoveChar(open, '"') == " ";
    assert RemoveChar(close, '"') == " ";
    assert RemoveChar(s, '"') == " " + core + " ";
    StripPadded(core);
  }
}
