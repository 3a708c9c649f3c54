/**
 * `Program`: the stand-alone script. It fetches the catalog state by state,
 * queues the municipalities, processes them in queue order and, once the
 * queue is empty, writes the sorted records to a freshly created
 * `resultado.txt`. Any exception that escapes ends the script before the
 * file is written.
 */
module Script {
  import opened Wrappers
  import opened Retry
  import opened Slug
  import opened DataFetcher
  import opened Extraction
  import opened Output
  import opened Pipeline

  /** The list held in `municipios` after the catalog loop, and the exception that ended the loop, if one did. */
  datatype Fetched = Fetched(municipios: seq<Municipio>, fault: Option<Fault>)

  /**
   * The catalog loop from the list `ms0`: each state's request, under a
   * fresh policy, REPLACES the list with that state's municipalities, and the
   * first request that still fails after its retries ends the script.
   */
  function Fetch(remote: Remote, estados: seq<string>, ms0: seq<Municipio>): Fetched
  {
    if estados == [] then Fetched(ms0, None)
    else
      var f := Fetch(remote, estados[..|estados| - 1], ms0);
      if f.fault.Some? then f
      else
        match StateList(remote, estados[|estados| - 1])
        case Threw(e) => Fetched(f.municipios, Some(e))
        case Returned(ms) => Fetched(ms, None)
  }

  /**
   * The loop succeeds exactly when the service's catalog does, with the
   * same first failure; but it keeps only the last state's list, which
   * is the end of the service's catalog.
   */
  lemma {:induction false} FetchKeepsLastState(remote: Remote, estados: seq<string>, ms0: seq<Municipio>)
    ensures Fetch(remote, estados, ms0).fault.None? <==> Catalog(remote, estados).Returned?
    ensures Fetch(remote, estados, ms0).fault.Some? ==> Catalog(remote, estados) == Threw(Fetch(remote, estados, ms0).fault.value)
    ensures estados != [] && Fetch(remote, estados, ms0).fault.None? ==>
      && Fetch(remote, estados, ms0).municipios == StateList(remote, estados[|estados| - 1]).value
      && Catalog(remote, estados).value == Catalog(remote, estados[..|estados| - 1]).value + Fetch(remote, estados, ms0).municipios
  {
    if estados != [] {
      FetchKeepsLastState(remote, estados[..|estados| - 1], ms0);
    }
  }

  /** For a single state, as the script is configured, the loop yields the service's catalog. */
  lemma FetchOneState(remote: Remote, uf: string, ms0: seq<Municipio>)
    ensures Fetch(remote, [uf], ms0).fault.None? <==> Catalog(remote, [uf]).Returned?
    ensures Fetch(remote, [uf], ms0).fault.None? ==> Fetch(remote, [uf], ms0).municipios == Catalog(remote, [uf]).value
  {
    FetchKeepsLastState(remote, [uf], ms0);
    assert [uf][..0] == [];
  }

  /** A counterexample: with two states the script keeps only the second state's municipalities. */
  lemma FetchDropsEarlierStates(remote: Remote, a: string, b: string, ms0: seq<Municipio>)
    requires StateList(remote, a).Returned? && StateList(remote, b).Returned? && StateList(remote, a).value != []
    ensures Catalog(remote, [a, b]).Returned? && Fetch(remote, [a, b], ms0).fault.None?
    ensures |Fetch(remote, [a, b], ms0).municipios| < |Catalog(remote, [a, b]).value|
  {
    assert [a, b][..1] == [a] && [a][..0] == [];
    CatalogAllOrNothing(remote, [a, b]);
    FetchKeepsLastState(remote, [a, b], ms0);
  }

  class Program {
    const remote: Remote
    const unicode: Unicode
    const estados: seq<string>
    var fila: seq<Municipio>
    var dict: seq<Entry>
    var municipios: seq<Municipio>
    /** The lines of `resultado.txt`, or `None` while the file does not exist. */
    var file: Option<seq<string>>

    constructor(remote: Remote, unicode: Unicode, file: Option<seq<string>>)
      ensures this.remote == remote && this.unicode == unicode && this.file == file
      ensures estados == ["mg"]
      ensures fila == [] && dict == [] && municipios == []
    {
      this.remote := remote;
      this.unicode := unicode;
      this.estados := ["mg"];
      this.file := file;
      this.fila := [];
      this.dict := [];
      this.municipios := [];
    }

    function Env(): Env
    {
      Pipeline.Env(remote, unicode)
    }

    /** `foreach (var uf in estados)`: one retried catalog request per state, each replacing `municipios`. */
    method ObterMunicipios() returns (fault: Option<Fault>)
      modifies this`municipios
      ensures Fetched(municipios, fault) == Fetch(remote, estados, old(municipios))
    {
      var i := 0;
      while i < |estados|
        invariant 0 <= i <= |estados|
        invariant Fetch(remote, estados[..i], old(municipios)) == Fetched(municipios, None)
      {
        var uf := estados[i];
        var got, waits := Execute(remote.json, CatalogUrl(uf));
        assert estados[..i + 1][..i] == estados[..i];
        if got.Threw? {
          FetchStopsAt(remote, estados, old(municipios), i + 1);
          return Some(got.fault);
        }
        municipios := got.value;
        i := i + 1;
      }
      assert estados[..i] == estados;
      return None;
    }

    /**
     * Fetches the page of `m` and appends its records to `dict`; a page that
     * cannot be fetched adds nothing, and a page with a summary but no
     * indicator table raises the exception that ends the script.
     */
    method ProcessarMunicipio(m: Municipio) returns (r: Result<(), Abort>)
      modifies this`dict
      ensures UnitRecords(Env(), municipios, m).Ok? ==> r.Ok? && dict == old(dict) + UnitRecords(Env(), municipios, m).value
      ensures UnitRecords(Env(), municipios, m).Err? ==> r == Err(UnitRecords(Env(), municipios, m).error) && dict == old(dict)
      ensures Gathered(dict, if r.Err? then Some(r.error) else None) == Gather(Env(), municipios, Gathered(old(dict), None), m)
    {
      var nomeMunicipio := SlugOf(unicode, m.nome);
      var url := PanoramaUrl(unicode, m.siglaUf, m.nome);
      var page, waits := Execute(remote.html, url);
      if page.Threw? {
        return Ok(());
      }
      var extracted := Extract(page.value, IndexOf(municipios, m), nomeMunicipio);
      match extracted
      case Err(e) =>
        return Err(e);
      case Ok(rs) =>
        dict := dict + rs;
        return Ok(());
    }

    /** Creates the file afresh and writes every record to it, one line each, in file order. */
    method Finalizar()
      modifies this`file
      ensures file == Some(Snapshot(dict))
    {
      var sorted := OrderByKey(dict);
      file := Some([]);
      assert Render(sorted[..0]) == [];
      for i := 0 to |sorted|
        invariant file == Some(Render(sorted[..i]))
      {
        RenderAppend(sorted[..i], [sorted[i]]);
        assert Render([sorted[i]]) == [Line(sorted[i])];
        assert sorted[..i + 1] == sorted[..i] + [sorted[i]];
        file := Some(file.value + [Line(sorted[i])]);
      }
      assert sorted[..|sorted|] == sorted;
    }

    /** `foreach (var m in municipios) fila.Enqueue(m)`. */
    method Enfileirar()
      modifies this`fila
      ensures fila == old(fila) + municipios
    {
      var i := 0;
      while i < |municipios|
        invariant 0 <= i <= |municipios|
        invariant fila == old(fila) + municipios[..i]
      {
        fila := fila + [municipios[i]];
        i := i + 1;
      }
      assert municipios[..i] == municipios;
    }

    /**
     * `while (fila.Any())`: takes each municipality from the front of the
     * queue and processes it, as `Collect` describes, until the queue is
     * empty or an exception escapes.
     */
    method Esvaziar() returns (r: Result<(), Abort>)
      modifies this`fila, this`dict
      ensures Gathered(dict, if r.Err? then Some(r.error) else None) == Collect(Env(), municipios, Gathered(old(dict), None), old(fila))
      ensures r.Ok? ==> fila == []
      ensures LeftOfGathering(Env(), municipios, Gathered(old(dict), None), old(fila), fila, r.Err?)
    {
      ghost var g0 := Gathered(dict, None);
      ghost var queue := fila;
      ghost var k := 0;
      while fila != []
        invariant 0 <= k <= |queue| && fila == queue[k..]
        invariant Gathered(dict, None) == Collect(Env(), municipios, g0, queue[..k])
        decreases |fila|
      {
        var municipio := fila[0];
        fila := fila[1..];
        var processed := ProcessarMunicipio(municipio);
        CollectAdvance(Env(), municipios, g0, queue, k, Gathered(dict, if processed.Err? then Some(processed.error) else None));
        if processed.Err? {
          assert fila == queue[k + 1..] && |queue| - |fila| - 1 == k;
          assert LeftOfGathering(Env(), municipios, g0, queue, fila, true);
          return processed;
        }
        k := k + 1;
      }
      assert queue[..k] == queue;
      return Ok(());
    }

    /**
     * The whole script. When the catalog loop succeeds, the municipalities
     * queued before and those of the last state are processed in queue
     * order exactly as `Collect` describes; the file is replaced by the
     * sorted records only when no exception escapes, and is otherwise left
     * as it was.
     */
    method Run() returns (outcome: Outcome)
      modifies this`fila, this`dict, this`municipios, this`file
      ensures municipios == Fetch(remote, estados, old(municipios)).municipios
      ensures Fetch(remote, estados, old(municipios)).fault.Some? ==>
        && outcome == CatalogFailed(Fetch(remote, estados, old(municipios)).fault.value)
        && fila == old(fila) && dict == old(dict) && file == old(file)
      ensures Fetch(remote, estados, old(municipios)).fault.None? ==>
        && !outcome.CatalogFailed?
        && Collect(Env(), municipios, Gathered(old(dict), None), old(fila) + municipios)
           == Gathered(dict, if outcome.Crashed? then Some(outcome.abort) else None)
      ensures outcome.Crashed? ==> file == old(file)
      ensures outcome == Completed ==> fila == [] && file == Some(Snapshot(dict))
      ensures Fetch(remote, estados, old(municipios)).fault.None? ==>
        LeftOfGathering(Env(), municipios, Gathered(old(dict), None), old(fila) + municipios, fila, outcome.Crashed?)
    {
      var fault := ObterMunicipios();
      if fault.Some? {
        return CatalogFailed(fault.value);
      }
      Enfileirar();
      var drained := Esvaziar();
      if drained.Err? {
        return Crashed(drained.error);
      }
      Finalizar();
      return Completed;
    }
  }

  /** Once a state's request has failed, the states after it are never requested. */
  lemma {:induction false} FetchStopsAt(remote: Remote, estados: seq<string>, ms0: seq<Municipio>, i: nat)
    requires i <= |estados| && Fetch(remote, estados[..i], ms0).fault.Some?
    ensures Fetch(remote, estados, ms0) == Fetch(remote, estados[..i], ms0)
    decreases |estados| - i
  {
    if i < |estados| {
      assert estados[..i + 1][..i] == estados[..i];
      FetchStopsAt(remote, estados, ms0, i + 1);
    } else {
      assert estados[..i] == estados;
    }
  }
}
