/**
 * `Execute`: the service-based run. It deletes the previous result file,
 * fetches the catalog of the four southern and south-eastern states, queues
 * every municipality and, for each one taken from the queue, gathers its
 * records and appends the whole sorted record list to the file.
 */
module Execution {
  import opened Wrappers
  import opened Retry
  import opened Slug
  import opened DataFetcher
  import opened Extraction
  import opened Output
  import opened Pipeline

  class Execute {
    const service: DataFetcherService
    const unicode: Unicode
    const estados: seq<string>
    var fila: seq<Municipio>
    var dict: seq<Entry>
    var municipios: seq<Municipio>
    /** The lines of `resultado.txt`, or `None` while the file does not exist. */
    var file: Option<seq<string>>

    constructor(service: DataFetcherService, unicode: Unicode, file: Option<seq<string>>)
      ensures this.service == service && this.unicode == unicode && this.file == file
      ensures estados == ["mg", "pr", "sc", "rs"]
      ensures fila == [] && dict == [] && municipios == []
    {
      this.service := service;
      this.unicode := unicode;
      this.estados := ["mg", "pr", "sc", "rs"];
      this.file := file;
      this.fila := [];
      this.dict := [];
      this.municipios := [];
    }

    function Env(): Env
    {
      Pipeline.Env(service.remote, unicode)
    }

    /**
     * Fetches the page of `m` and appends its records to `dict`; a page that
     * cannot be fetched adds nothing, and a page with a summary but no
     * indicator table raises the exception that ends the run.
     */
    method ProcessarMunicipio(m: Municipio) returns (r: Result<(), Abort>)
      modifies this`dict
      ensures UnitRecords(Env(), municipios, m).Ok? ==> r.Ok? && dict == old(dict) + UnitRecords(Env(), municipios, m).value
      ensures UnitRecords(Env(), municipios, m).Err? ==> r == Err(UnitRecords(Env(), municipios, m).error) && dict == old(dict)
    {
      var nomeMunicipio := SlugOf(unicode, m.nome);
      var url := PanoramaUrl(unicode, m.siglaUf, m.nome);
      var page, waits := service.ObterDadosMunicipio(url);
      if page.Threw? {
        return Ok(());
      }
      var extracted := Extract(page.value, IndexOf(municipios, m), nomeMunicipio);
      match extracted
      case Err(e) =>
        return Err(e);
      case Ok(rs) =>
        dict := dict + rs;
        return Ok(());
    }

    /** Appends every record, in file order, to the end of the file, creating it when missing. */
    method EscreverNoArquivo()
      modifies this`file
      ensures file == Some(old(file).GetOr([]) + Snapshot(dict))
    {
      var contents := Snapshot(dict);
      file := Some(file.GetOr([]) + contents);
    }

    /** `foreach (var municipio in municipios) fila.Enqueue(municipio)`. */
    method Enfileirar()
      modifies this`fila
      ensures fila == old(fila) + municipios
    {
      var i := 0;
      while i < |municipios|
        invariant 0 <= i <= |municipios|
        invariant fila == old(fila) + municipios[..i]
      {
        fila := fila + [municipios[i]];
        i := i + 1;
      }
      assert municipios[..i] == municipios;
    }

    /** The body of `while (fila.Any())` for one dequeued municipality: process it, then append the snapshot. */
    method ProcessarEEscrever(municipio: Municipio) returns (r: Result<(), Abort>)
      modifies this`dict, this`file
      ensures Progress(dict, file, r.Err?) == Step(Env(), municipios, Progress(old(dict), old(file), false), municipio)
    {
      r := ProcessarMunicipio(municipio);
      if r.Ok? {
        StepOk(Env(), municipios, Progress(old(dict), old(file), false), municipio, dict[|old(dict)|..]);
        EscreverNoArquivo();
      }
    }

    /**
     * `while (fila.Any())`: takes each municipality from the front of the
     * queue, processes it and appends the snapshot, as `Drain` describes,
     * until the queue is empty or an exception escapes.
     */
    method Esvaziar() returns (r: Result<(), Abort>)
      modifies this`fila, this`dict, this`file
      ensures Progress(dict, file, r.Err?) == Drain(Env(), municipios, Progress(old(dict), old(file), false), old(fila))
      ensures r.Ok? ==> fila == []
      ensures LeftOfQueue(Env(), municipios, Progress(old(dict), old(file), false), old(fila), fila, r.Err?)
    {
      ghost var p0 := Progress(dict, file, false);
      ghost var queue := fila;
      ghost var k := 0;
      while fila != []
        invariant 0 <= k <= |queue| && fila == queue[k..]
        invariant Progress(dict, file, false) == Drain(Env(), municipios, p0, queue[..k])
        decreases |fila|
      {
        var municipio := fila[0];
        fila := fila[1..];
        var processed := ProcessarEEscrever(municipio);
        DrainAdvance(Env(), municipios, p0, queue, k, Progress(dict, file, processed.Err?));
        if processed.Err? {
          assert fila == queue[k + 1..] && |queue| - |fila| - 1 == k;
          assert LeftOfQueue(Env(), municipios, p0, queue, fila, true);
          return processed;
        }
        k := k + 1;
      }
      assert queue[..k] == queue;
      return Ok(());
    }

    /**
     * The whole run. When the catalog is fetched, the municipalities queued
     * before and the whole catalog are processed in queue order exactly as
     * `Drain` describes, from the current records and a deleted file; the
     * run completes exactly when no exception escapes, and then the queue
     * is empty.
     */
    method IniciarExecucao() returns (outcome: Outcome)
      modifies this`fila, this`dict, this`municipios, this`file
      ensures Catalog(service.remote, estados).Threw? ==>
        && outcome == CatalogFailed(Catalog(service.remote, estados).fault)
        && fila == old(fila) && dict == old(dict) && municipios == old(municipios) && file == None
      ensures Catalog(service.remote, estados).Returned? ==>
        && municipios == Catalog(service.remote, estados).value
        && Progress(dict, file, outcome.Crashed?) == Drain(Env(), municipios, Progress(old(dict), None, false), old(fila) + municipios)
        && !outcome.CatalogFailed?
      ensures outcome == Completed ==> fila == []
      ensures Catalog(service.remote, estados).Returned? ==>
        LeftOfQueue(Env(), municipios, Progress(old(dict), None, false), old(fila) + municipios, fila, outcome.Crashed?)
    {
      file := None;
      var catalog := service.ObterMunicipios(estados);
      if catalog.Threw? {
        return CatalogFailed(catalog.fault);
      }
      municipios := catalog.value;
      Enfileirar();
      var drained := Esvaziar();
      if drained.Err? {
        return Crashed(drained.error);
      }
      return Completed;
    }
  }
}
