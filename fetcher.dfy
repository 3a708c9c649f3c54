/**
 * `DataFetcherService`: the catalog of municipalities, state by state, and
 * the detail page of one municipality, each request run under a fresh retry
 * policy.
 */
module DataFetcher {
  import opened Wrappers
  import opened Retry
  import opened Html

  /**
   * A catalog entry. The core reads only its name and the code of its state
   * (`microrregiao.mesorregiao.UF.sigla`), both taken to be present; `id`
   * stands in, for equality, for the fields that are not modelled. Equality
   * here is coarser than the record's, which also compares the whole
   * `microrregiao` chain and `RegiaoImediata`.
   */
  datatype Municipio = Municipio(id: string, nome: string, siglaUf: string)

  /**
   * The remote end: what attempt `k` of a GET on a URL answers, as parsed
   * JSON (the catalog) or as the document tree of an HTML page.
   */
  datatype Remote = Remote(json: (string, nat) -> Call<seq<Municipio>>, html: (string, nat) -> Call<Node>)

  function CatalogUrl(uf: string): string
  {
    "https://servicodados.ibge.gov.br/api/v1/localidades/estados/" + uf + "/municipios"
  }

  /** The municipalities of one state, fetched under a fresh policy. */
  function StateList(remote: Remote, uf: string): Call<seq<Municipio>>
  {
    Policy(remote.json, CatalogUrl(uf)).outcome
  }

  /**
   * What `ObterMunicipios(estados)` returns: the states' lists joined in the
   * order of `estados`, or the exception of the first state whose request
   * still failed after its retries.
   */
  function Catalog(remote: Remote, estados: seq<string>): Call<seq<Municipio>>
  {
    if estados == [] then Returned([])
    else
      var init := estados[..|estados| - 1];
      var last := StateList(remote, estados[|estados| - 1]);
      match Catalog(remote, init)
      case Threw(e) => Threw(e)
      case Returned(ms) => if last.Threw? then last else Returned(ms + last.value)
  }

  /**
   * The catalog is complete or missing: it is returned exactly when every
   * state's request succeeded, and otherwise it is the exception of the
   * first state that failed.
   */
  lemma {:induction false} CatalogAllOrNothing(remote: Remote, estados: seq<string>)
    ensures Catalog(remote, estados).Returned? <==> forall i :: 0 <= i < |estados| ==> StateList(remote, estados[i]).Returned?
    ensures Catalog(remote, estados).Threw? ==>
      exists i :: 0 <= i < |estados| && Catalog(remote, estados) == StateList(remote, estados[i]) &&
        forall j :: 0 <= j < i ==> StateList(remote, estados[j]).Returned?
  {
    if estados != [] {
      var init := estados[..|estados| - 1];
      assert forall i :: 0 <= i < |init| ==> init[i] == estados[i];
      CatalogAllOrNothing(remote, init);
    }
  }

  /** Once a state has failed, the states after it change nothing. */
  lemma {:induction false} CatalogStopsAtFailure(remote: Remote, estados: seq<string>, i: nat)
    requires i <= |estados| && Catalog(remote, estados[..i]).Threw?
    ensures Catalog(remote, estados) == Catalog(remote, estados[..i])
    decreases |estados| - i
  {
    if i < |estados| {
      assert estados[..i + 1][..i] == estados[..i];
      CatalogStopsAtFailure(remote, estados, i + 1);
    } else {
      assert estados[..i] == estados;
    }
  }

  /** The catalog of several states is the catalog of the first ones followed by that of the rest. */
  lemma {:induction false} CatalogAppend(remote: Remote, a: seq<string>, b: seq<string>)
    requires Catalog(remote, a + b).Returned?
    ensures Catalog(remote, a).Returned? && Catalog(remote, b).Returned?
    ensures Catalog(remote, a + b).value == Catalog(remote, a).value + Catalog(remote, b).value
    decreases |b|
  {
    var ab := a + b;
    assert forall i :: 0 <= i < |a| ==> a[i] == ab[i];
    assert forall i :: 0 <= i < |b| ==> b[i] == ab[|a| + i];
    if b == [] {
      assert ab == a;
    } else {
      var b' := b[..|b| - 1];
      assert ab[..|ab| - 1] == a + b';
      CatalogAppend(remote, a, b');
    }
  }

  /** The number of municipalities is the sum of the states' counts. */
  lemma CatalogCount(remote: Remote, a: seq<string>, uf: string)
    requires Catalog(remote, a + [uf]).Returned?
    ensures StateList(remote, uf).Returned?
    ensures |Catalog(remote, a + [uf]).value| == |Catalog(remote, a).value| + |StateList(remote, uf).value|
  {
    CatalogAppend(remote, a, [uf]);
    assert [uf][..0] == [];
  }

  class DataFetcherService {
    const remote: Remote

    constructor(remote: Remote)
      ensures this.remote == remote
    {
      this.remote := remote;
    }

    /** `ObterMunicipios`: one retried request per state, each list appended once its request succeeds. */
    method ObterMunicipios(estados: seq<string>) returns (r: Call<seq<Municipio>>)
      ensures r == Catalog(remote, estados)
    {
      var municipios: seq<Municipio> := [];
      var i := 0;
      while i < |estados|
        invariant 0 <= i <= |estados|
        invariant Catalog(remote, estados[..i]) == Returned(municipios)
      {
        var uf := estados[i];
        var got, waits := Execute(remote.json, CatalogUrl(uf));
        assert got == StateList(remote, uf);
        ghost var prefix := estados[..i + 1];
        assert prefix[..i] == estados[..i] && prefix[i] == uf;
        assert Catalog(remote, prefix) == if got.Threw? then got else Returned(municipios + got.value);
        if got.Threw? {
          CatalogStopsAtFailure(remote, estados, i + 1);
          return got;
        }
        municipios := municipios + got.value;
        i := i + 1;
      }
      assert estados[..i] == estados;
      return Returned(municipios);
    }

    /** `ObterDadosMunicipio`: the page of the first attempt that succeeds, or the last exception. */
    method ObterDadosMunicipio(url: string) returns (r: Call<Node>, waits: seq<nat>)
      ensures Run(r, waits) == Policy(remote.html, url)
      ensures r.Returned? ==> exists k :: 0 <= k <= RetryCount && r == remote.html(url, k)
    {
      r, waits := Execute(remote.html, url);
    }
  }
}
