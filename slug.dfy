/**
 * The page address of a municipality: its name lower-cased, apostrophes
 * dropped, spaces turned into hyphens and accents stripped, under the
 * lower-cased code of its state.
 */
module Slug {
  import opened Text

  /**
   * The Unicode tables the source borrows from .NET, left uninterpreted:
   * culture-sensitive lower-casing of one character, canonical decomposition
   * (`NormalizationForm.FormD`) and the `NonSpacingMark` category test.
   */
  datatype Unicode = Unicode(toLower: char -> char, formD: string -> string, isNonSpacingMark: char -> bool)

  /** `string.ToLower()`, character by character. */
  function ToLower(u: Unicode, s: string): (r: string)
    ensures |r| == |s|
    ensures forall i :: 0 <= i < |s| ==> r[i] == u.toLower(s[i])
  {
    if s == [] then [] else [u.toLower(s[0])] + ToLower(u, s[1..])
  }

  /** The characters of `s` that are not non-spacing marks, in order. */
  function StripMarks(u: Unicode, s: string): (r: string)
    ensures |r| <= |s|
    ensures forall c :: c in r ==> c in s && !u.isNonSpacingMark(c)
  {
    if s == [] then []
    else (if u.isNonSpacingMark(s[0]) then [] else [s[0]]) + StripMarks(u, s[1..])
  }

  /** Stripping works piece by piece, so the kept characters stay in their order. */
  lemma {:induction false} StripMarksAppend(u: Unicode, a: string, b: string)
    ensures StripMarks(u, a + b) == StripMarks(u, a) + StripMarks(u, b)
  {
    if a == [] {
      assert a + b == b;
    } else {
      assert (a + b)[1..] == a[1..] + b;
      StripMarksAppend(u, a[1..], b);
    }
  }

  /** Every character that is not a mark is kept as often as it occurs; marks are all dropped. */
  lemma {:induction false} StripMarksCounts(u: Unicode, s: string, c: char)
    ensures multiset(StripMarks(u, s))[c] == if u.isNonSpacingMark(c) then 0 else multiset(s)[c]
  {
    if s != [] {
      StripMarksCounts(u, s[1..], c);
      assert s == [s[0]] + s[1..];
    }
  }

  /** A string without marks is kept whole. */
  lemma {:induction false} StripMarksWithoutMarks(u: Unicode, s: string)
    requires forall i :: 0 <= i < |s| ==> !u.isNonSpacingMark(s[i])
    ensures StripMarks(u, s) == s
  {
    if s != [] {
      StripMarksWithoutMarks(u, s[1..]);
    }
  }

  /** `RemoverAcentuacao`: decompose, then keep what is not a non-spacing mark. */
  function RemoverAcentuacao(u: Unicode, value: string): (r: string)
    ensures forall c :: c in r ==> c in u.formD(value) && !u.isNonSpacingMark(c)
  {
    StripMarks(u, u.formD(value))
  }

  /** `nome.ToLower().Replace("'", "").Replace(" ", "-")`, the slug before accents are stripped. */
  function PreSlug(u: Unicode, nome: string): (r: string)
    ensures '\'' !in r && ' ' !in r
    ensures |r| <= |nome|
  {
    var lowered := ToLower(u, nome);
    var noApostrophe := RemoveAll(lowered, "'");
    RemoveAllChar(lowered, '\'');
    ReplaceChar(noApostrophe, ' ', '-')
  }

  /** The municipality's slug, `nomeMunicipio` in the source. */
  function SlugOf(u: Unicode, nome: string): string
  {
    RemoverAcentuacao(u, PreSlug(u, nome))
  }

  const PanoramaPrefix := "https://cidades.ibge.gov.br/brasil/"
  const PanoramaSuffix := "/panorama"

  /** `https://cidades.ibge.gov.br/brasil/{siglaUf}/{nomeMunicipio}/panorama`. */
  function PanoramaUrl(u: Unicode, sigla: string, nome: string): string
  {
    PanoramaPrefix + ToLower(u, sigla) + "/" + SlugOf(u, nome) + PanoramaSuffix
  }

  /** Every page address has the site's prefix and the `/panorama` suffix. */
  lemma PanoramaUrlShape(u: Unicode, sigla: string, nome: string)
    ensures |PanoramaUrl(u, sigla, nome)| >= |PanoramaPrefix| + |PanoramaSuffix|
    ensures PanoramaUrl(u, sigla, nome)[..|PanoramaPrefix|] == PanoramaPrefix
    ensures PanoramaUrl(u, sigla, nome)[|PanoramaUrl(u, sigla, nome)| - |PanoramaSuffix|..] == PanoramaSuffix
  {
    var url := PanoramaUrl(u, sigla, nome);
    var rest := ToLower(u, sigla) + "/" + SlugOf(u, nome);
    assert url == PanoramaPrefix + rest + PanoramaSuffix;
  }

  /** Within one state, two municipalities share a page address only if they share a slug. */
  lemma UrlDeterminesSlug(u: Unicode, sigla: string, a: string, b: string)
    requires PanoramaUrl(u, sigla, a) == PanoramaUrl(u, sigla, b)
    ensures SlugOf(u, a) == SlugOf(u, b)
  {
    var head := PanoramaPrefix + ToLower(u, sigla) + "/";
    var ua, ub := PanoramaUrl(u, sigla, a), PanoramaUrl(u, sigla, b);
    assert ua == head + SlugOf(u, a) + PanoramaSuffix;
    assert ub == head + SlugOf(u, b) + PanoramaSuffix;
    assert SlugOf(u, a) == ua[|head|..|ua| - |PanoramaSuffix|];
    assert SlugOf(u, b) == ub[|head|..|ub| - |PanoramaSuffix|];
  }
}
