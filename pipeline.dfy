/**
 * The work done for each municipality taken from the queue, and the state
 * accumulated over the queue: the list of records and, for `Execute`, the
 * output file after each municipality's snapshot is appended.
 */
module Pipeline {
  import opened Wrappers
  import opened Retry
  import opened Html
  import opened Slug
  import opened DataFetcher
  import opened Extraction
  import opened Output

  /** Everything outside the program that its results depend on: the remote servers and the Unicode tables. */
  datatype Env = Env(remote: Remote, unicode: Unicode)

  /** `List<Municipio>.IndexOf`: the first position holding an equal record, or -1. */
  function IndexOf(ms: seq<Municipio>, m: Municipio): int
  {
    if ms == [] then -1
    else if ms[0] == m then 0
    else
      var k := IndexOf(ms[1..], m);
      if k == -1 then -1 else k + 1
  }

  /** The index is -1 exactly for a record not in the list, and otherwise the position of its first occurrence. */
  lemma {:induction false} IndexOfSpec(ms: seq<Municipio>, m: Municipio)
    ensures -1 <= IndexOf(ms, m) < |ms|
    ensures IndexOf(ms, m) == -1 <==> m !in ms
    ensures IndexOf(ms, m) >= 0 ==> ms[IndexOf(ms, m)] == m && forall j :: 0 <= j < IndexOf(ms, m) ==> ms[j] != m
  {
    if ms != [] && ms[0] != m {
      IndexOfSpec(ms[1..], m);
      assert m in ms <==> m in ms[1..];
    }
  }

  /** No two catalog entries are equal records. */
  predicate Distinct(ms: seq<Municipio>)
  {
    forall i, j :: 0 <= i < j < |ms| ==> ms[i] != ms[j]
  }

  /** In a catalog without repeated records, each municipality's index is its position. */
  lemma IndexOfDistinct(ms: seq<Municipio>, k: nat)
    requires Distinct(ms) && k < |ms|
    ensures IndexOf(ms, ms[k]) == k
  {
    IndexOfSpec(ms, ms[k]);
  }

  /** The detail page address of a municipality. */
  function PageUrl(env: Env, m: Municipio): string
  {
    PanoramaUrl(env.unicode, m.siglaUf, m.nome)
  }

  /**
   * What `ProcessarMunicipio(m)` adds to the record list, or the exception
   * that escapes it: nothing when the page could not be fetched (the error
   * is caught and logged), and otherwise the lines extracted from the page,
   * indexed by the position of `m` in the catalog and with the slug as the
   * name line's value.
   */
  function UnitRecords(env: Env, catalog: seq<Municipio>, m: Municipio): Result<seq<Entry>, Abort>
  {
    match Policy(env.remote.html, PageUrl(env, m)).outcome
    case Threw(_) => Ok([])
    case Returned(doc) => Extracted(doc, IndexOf(catalog, m), SlugOf(env.unicode, m.nome))
  }

  /**
   * A municipality contributes no record exactly when its page could not be
   * fetched; otherwise its records open with the name line and are numbered
   * 1, 2, ... under its catalog index.
   */
  lemma UnitRecordsShape(env: Env, catalog: seq<Municipio>, m: Municipio)
    requires UnitRecords(env, catalog, m).Ok?
    ensures var rs := UnitRecords(env, catalog, m).value;
      && (rs == [] <==> Policy(env.remote.html, PageUrl(env, m)).outcome.Threw?)
      && (rs != [] ==> rs[0] == Entry(1, IndexOf(catalog, m), NomeChave, SlugOf(env.unicode, m.nome)))
      && (forall i :: 0 <= i < |rs| ==> rs[i].indexLinha == i + 1 && rs[i].indexMunicipio == IndexOf(catalog, m))
  {
    var outcome := Policy(env.remote.html, PageUrl(env, m)).outcome;
    if outcome.Returned? {
      ExtractedLines(outcome.value, IndexOf(catalog, m), SlugOf(env.unicode, m.nome));
    }
  }

  /** How a run ends: normally, with the exception of a catalog request, or with an exception escaping `ProcessarMunicipio`. */
  datatype Outcome = Completed | CatalogFailed(fault: Fault) | Crashed(abort: Abort)

  /** The record list, the output file (`None` while it does not exist), and whether an exception ended the run. */
  datatype Progress = Progress(dict: seq<Entry>, file: Option<seq<string>>, crashed: bool)

  /**
   * One municipality taken from the queue: its records are added and, in
   * `Execute`, the whole record list is then appended to the file in file
   * order. An exception escaping it ends the run: nothing is written, and
   * nothing after it is processed.
   */
  function Step(env: Env, catalog: seq<Municipio>, p: Progress, m: Municipio): Progress
  {
    if p.crashed then p
    else
      match UnitRecords(env, catalog, m)
      case Err(_) => Progress(p.dict, p.file, true)
      case Ok(rs) =>
        var d := p.dict + rs;
        Progress(d, Some(p.file.GetOr([]) + Snapshot(d)), false)
  }

  /** The state after the municipalities `units` have been dequeued and processed in order from `p0`. */
  function Drain(env: Env, catalog: seq<Municipio>, p0: Progress, units: seq<Municipio>): Progress
  {
    if units == [] then p0 else Step(env, catalog, Drain(env, catalog, p0, units[..|units| - 1]), units[|units| - 1])
  }

  /** Processing a queue in two parts is processing the first part, then the second from where it left off. */
  lemma {:induction false} DrainAppend(env: Env, catalog: seq<Municipio>, p0: Progress, a: seq<Municipio>, b: seq<Municipio>)
    ensures Drain(env, catalog, p0, a + b) == Drain(env, catalog, Drain(env, catalog, p0, a), b)
    decreases |b|
  {
    if b == [] {
      assert a + b == a;
    } else {
      assert (a + b)[..|a + b| - 1] == a + b[..|b| - 1];
      assert (a + b)[|a + b| - 1] == b[|b| - 1];
      DrainAppend(env, catalog, p0, a, b[..|b| - 1]);
    }
  }

  /** Once an exception has ended the run, further municipalities change nothing. */
  lemma {:induction false} DrainCrashed(env: Env, catalog: seq<Municipio>, p0: Progress, units: seq<Municipio>)
    requires p0.crashed
    ensures Drain(env, catalog, p0, units) == p0
  {
    if units != [] {
      DrainCrashed(env, catalog, p0, units[..|units| - 1]);
    }
  }

  /** Taking one more municipality from the queue is one more step. */
  lemma DrainSnoc(env: Env, catalog: seq<Municipio>, p0: Progress, units: seq<Municipio>, m: Municipio)
    ensures Drain(env, catalog, p0, units + [m]) == Step(env, catalog, Drain(env, catalog, p0, units), m)
  {
    assert (units + [m])[..|units|] == units;
  }

  /** A municipality processed without an exception adds its records and appends the new snapshot. */
  lemma StepOk(env: Env, catalog: seq<Municipio>, p: Progress, m: Municipio, rs: seq<Entry>)
    requires !p.crashed && UnitRecords(env, catalog, m) == Ok(rs)
    ensures Step(env, catalog, p, m) == Progress(p.dict + rs, Some(p.file.GetOr([]) + Snapshot(p.dict + rs)), false)
  {
  }

  /** A municipality whose processing raises an exception ends the run: the rest of the queue is never processed. */
  lemma DrainStopsAt(env: Env, catalog: seq<Municipio>, p0: Progress, done: seq<Municipio>, m: Municipio, rest: seq<Municipio>)
    requires Step(env, catalog, Drain(env, catalog, p0, done), m).crashed
    ensures Drain(env, catalog, p0, done + [m] + rest) == Step(env, catalog, Drain(env, catalog, p0, done), m)
  {
    DrainSnoc(env, catalog, p0, done, m);
    DrainAppend(env, catalog, p0, done + [m], rest);
    DrainCrashed(env, catalog, Drain(env, catalog, p0, done + [m]), rest);
  }

  /** The queue cut at its `k`-th element: the part before it, the element, and the part after it. */
  lemma QueueSplit(queue: seq<Municipio>, k: nat)
    requires k < |queue|
    ensures queue[..k + 1] == queue[..k] + [queue[k]]
    ensures queue == queue[..k] + [queue[k]] + queue[k + 1..]
  {
  }

  /** One pass of the queue loop: the state after the next municipality, or the final state when it raised an exception. */
  lemma DrainAdvance(env: Env, catalog: seq<Municipio>, p0: Progress, queue: seq<Municipio>, k: nat, after: Progress)
    requires k < |queue| && !Drain(env, catalog, p0, queue[..k]).crashed
    requires after == Step(env, catalog, Drain(env, catalog, p0, queue[..k]), queue[k])
    ensures !after.crashed ==> Drain(env, catalog, p0, queue[..k + 1]) == after
    ensures after.crashed ==> Drain(env, catalog, p0, queue) == after
  {
    QueueSplit(queue, k);
    DrainSnoc(env, catalog, p0, queue[..k], queue[k]);
    if after.crashed {
      DrainStopsAt(env, catalog, p0, queue[..k], queue[k], queue[k + 1..]);
    }
  }

  /**
   * The `n`-th municipality of `queue` is the one whose exception ends the
   * run of `Execute`: every municipality before it ran through.
   */
  predicate CrashesAt(env: Env, catalog: seq<Municipio>, p0: Progress, queue: seq<Municipio>, n: int)
  {
    && 0 <= n < |queue|
    && !Drain(env, catalog, p0, queue[..n]).crashed
    && Step(env, catalog, Drain(env, catalog, p0, queue[..n]), queue[n]).crashed
  }

  /**
   * `rest` is what is left of `queue` when `Execute`'s loop ends: a suffix of
   * it, and, when an exception ended the run, exactly the municipalities
   * after the one that raised it.
   */
  predicate LeftOfQueue(env: Env, catalog: seq<Municipio>, p0: Progress, queue: seq<Municipio>, rest: seq<Municipio>, crashed: bool)
  {
    && |rest| <= |queue| && rest == queue[|queue| - |rest|..]
    && (crashed ==> CrashesAt(env, catalog, p0, queue, |queue| - |rest| - 1))
  }

  /** At most one municipality of a queue ends the run, and the run ends in the state it leaves. */
  lemma CrashesAtUnique(env: Env, catalog: seq<Municipio>, p0: Progress, queue: seq<Municipio>, n: int, n': int)
    requires CrashesAt(env, catalog, p0, queue, n) && CrashesAt(env, catalog, p0, queue, n')
    ensures n == n'
    ensures Drain(env, catalog, p0, queue) == Step(env, catalog, Drain(env, catalog, p0, queue[..n]), queue[n])
  {
    if n < n' {
      CrashedBefore(env, catalog, p0, queue, n, n');
    } else if n' < n {
      CrashedBefore(env, catalog, p0, queue, n', n);
    }
    QueueSplit(queue, n);
    DrainStopsAt(env, catalog, p0, queue[..n], queue[n], queue[n + 1..]);
  }

  /** A run that crashed at `n` is still crashed after any longer prefix of the queue. */
  lemma CrashedBefore(env: Env, catalog: seq<Municipio>, p0: Progress, queue: seq<Municipio>, n: int, m: int)
    requires CrashesAt(env, catalog, p0, queue, n) && n < m <= |queue|
    ensures Drain(env, catalog, p0, queue[..m]).crashed
  {
    var pre := queue[..m];
    assert pre[..n] == queue[..n] && pre[n] == queue[n];
    QueueSplit(pre, n);
    DrainStopsAt(env, catalog, p0, pre[..n], pre[n], pre[n + 1..]);
  }

  /** The file grows by one snapshot per processed municipality: it only ever gains lines at its end. */
  lemma {:induction false} DrainFileGrows(env: Env, catalog: seq<Municipio>, p0: Progress, units: seq<Municipio>)
    ensures var p := Drain(env, catalog, p0, units);
      p0.file.Some? ==> p.file.Some? && p0.file.value <= p.file.value
    ensures var p := Drain(env, catalog, p0, units);
      units != [] && !p.crashed ==> p.file.Some? && |p.dict| <= |p.file.value|
  {
    if units != [] {
      var init := units[..|units| - 1];
      DrainFileGrows(env, catalog, p0, init);
      var p := Drain(env, catalog, p0, init);
      if !p.crashed && UnitRecords(env, catalog, units[|units| - 1]).Ok? {
        var d := p.dict + UnitRecords(env, catalog, units[|units| - 1]).value;
        SnapshotLines(d);
      }
    }
  }

  const Fresh := Progress([], None, false)

  /** Appending the numbered lines of municipality `k` to a sorted list of earlier municipalities keeps it sorted. */
  lemma AppendBlockSorted(d: seq<Entry>, rs: seq<Entry>, k: int)
    requires StrictlySorted(d) && forall e :: e in d ==> 0 <= e.indexMunicipio < k
    requires k >= 0 && forall i :: 0 <= i < |rs| ==> rs[i].indexLinha == i + 1 && rs[i].indexMunicipio == k
    ensures StrictlySorted(d + rs)
    ensures forall e :: e in d + rs ==> 0 <= e.indexMunicipio < k + 1
  {
    var r := d + rs;
    forall i, j | 0 <= i < j < |r|
      ensures Lt(r[i], r[j])
    {
      if j < |d| {
        assert r[i] == d[i] && r[j] == d[j];
      } else if i < |d| {
        assert r[i] in d;
        assert r[j] == rs[j - |d|];
      } else {
        assert r[i] == rs[i - |d|] && r[j] == rs[j - |d|];
      }
    }
    forall e | e in r
      ensures 0 <= e.indexMunicipio < k + 1
    {
      if e !in d {
        var i :| 0 <= i < |rs| && rs[i] == e;
      }
    }
  }

  /**
   * Processing a catalog without repeated records in queue order, from an
   * empty list, keeps the list in file order: by municipality, then line,
   * with no two records sharing both indices.
   */
  lemma {:induction false} DrainSorted(env: Env, catalog: seq<Municipio>, k: nat)
    requires Distinct(catalog) && k <= |catalog|
    ensures var p := Drain(env, catalog, Fresh, catalog[..k]);
      && StrictlySorted(p.dict)
      && Sorted(p.dict)
      && (forall e :: e in p.dict ==> 0 <= e.indexMunicipio < k)
  {
    if k > 0 {
      var units := catalog[..k];
      assert units[..k - 1] == catalog[..k - 1] && units[k - 1] == catalog[k - 1];
      DrainSorted(env, catalog, k - 1);
      var p := Drain(env, catalog, Fresh, catalog[..k - 1]);
      assert Drain(env, catalog, Fresh, units) == Step(env, catalog, p, catalog[k - 1]);
      var u := UnitRecords(env, catalog, catalog[k - 1]);
      if !p.crashed && u.Ok? {
        UnitRecordsShape(env, catalog, catalog[k - 1]);
        IndexOfDistinct(catalog, k - 1);
        AppendBlockSorted(p.dict, u.value, k - 1);
      }
    }
  }

  /**
   * For such a catalog every snapshot lists the records in the order they
   * were collected, so each snapshot extends the previous one: the file
   * repeats the records of the first municipalities once per later
   * municipality.
   */
  lemma SnapshotsExtend(env: Env, catalog: seq<Municipio>, k: nat)
    requires Distinct(catalog) && k < |catalog|
    ensures var before := Drain(env, catalog, Fresh, catalog[..k]);
      var after := Drain(env, catalog, Fresh, catalog[..k + 1]);
      !after.crashed ==>
        && Snapshot(after.dict) == Render(after.dict)
        && Render(before.dict) <= Snapshot(after.dict)
        && after.file == Some(before.file.GetOr([]) + Render(after.dict))
  {
    var before := Drain(env, catalog, Fresh, catalog[..k]);
    var after := Drain(env, catalog, Fresh, catalog[..k + 1]);
    assert catalog[..k + 1][..k] == catalog[..k];
    DrainSorted(env, catalog, k + 1);
    if !after.crashed {
      OrderOfSorted(after.dict);
      var rs := UnitRecords(env, catalog, catalog[k]).value;
      assert after.dict == before.dict + rs;
      RenderAppend(before.dict, rs);
    }
  }

  /** The record list and the exception that ended the run, if one did. */
  datatype Gathered = Gathered(dict: seq<Entry>, abort: Option<Abort>)

  /** One municipality taken from the queue, with no file written: its records are added, or its exception ends the run. */
  function Gather(env: Env, catalog: seq<Municipio>, g: Gathered, m: Municipio): Gathered
  {
    if g.abort.Some? then g
    else
      match UnitRecords(env, catalog, m)
      case Err(e) => Gathered(g.dict, Some(e))
      case Ok(rs) => Gathered(g.dict + rs, None)
  }

  /**
   * The records gathered by processing `units` in order from `g0`, with no
   * file written along the way: the first exception stops the run.
   */
  function Collect(env: Env, catalog: seq<Municipio>, g0: Gathered, units: seq<Municipio>): Gathered
  {
    if units == [] then g0 else Gather(env, catalog, Collect(env, catalog, g0, units[..|units| - 1]), units[|units| - 1])
  }

  lemma CollectSnoc(env: Env, catalog: seq<Municipio>, g0: Gathered, units: seq<Municipio>, m: Municipio)
    ensures Collect(env, catalog, g0, units + [m]) == Gather(env, catalog, Collect(env, catalog, g0, units), m)
  {
    assert (units + [m])[..|units|] == units;
  }

  lemma GatherOk(env: Env, catalog: seq<Municipio>, g: Gathered, m: Municipio, rs: seq<Entry>)
    requires g.abort.None? && UnitRecords(env, catalog, m) == Ok(rs)
    ensures Gather(env, catalog, g, m) == Gathered(g.dict + rs, None)
  {
  }

  /** One pass of the script's queue loop: the records after the next municipality, or the final result when it raised an exception. */
  lemma CollectAdvance(env: Env, catalog: seq<Municipio>, g0: Gathered, queue: seq<Municipio>, k: nat, after: Gathered)
    requires k < |queue| && Collect(env, catalog, g0, queue[..k]).abort.None?
    requires after == Gather(env, catalog, Collect(env, catalog, g0, queue[..k]), queue[k])
    ensures after.abort.None? ==> Collect(env, catalog, g0, queue[..k + 1]) == after
    ensures after.abort.Some? ==> Collect(env, catalog, g0, queue) == after
  {
    QueueSplit(queue, k);
    CollectSnoc(env, catalog, g0, queue[..k], queue[k]);
    if after.abort.Some? {
      CollectAppend(env, catalog, g0, queue[..k + 1], queue[k + 1..]);
      CollectAborted(env, catalog, after, queue[k + 1..]);
    }
  }

  /**
   * The `n`-th municipality of `queue` is the one whose exception ends the
   * script's run: every municipality before it ran through.
   */
  predicate AbortsAt(env: Env, catalog: seq<Municipio>, g0: Gathered, queue: seq<Municipio>, n: int)
  {
    && 0 <= n < |queue|
    && Collect(env, catalog, g0, queue[..n]).abort.None?
    && UnitRecords(env, catalog, queue[n]).Err?
  }

  /** `rest` is what is left of `queue` when the script's loop ends, likewise. */
  predicate LeftOfGathering(env: Env, catalog: seq<Municipio>, g0: Gathered, queue: seq<Municipio>, rest: seq<Municipio>, aborted: bool)
  {
    && |rest| <= |queue| && rest == queue[|queue| - |rest|..]
    && (aborted ==> AbortsAt(env, catalog, g0, queue, |queue| - |rest| - 1))
  }

  /**
   * Writing the file after every municipality does not change what is
   * gathered: both runs hold the same records and stop at the same
   * municipality.
   */
  lemma {:induction false} DrainGathers(env: Env, catalog: seq<Municipio>, p0: Progress, units: seq<Municipio>)
    requires !p0.crashed
    ensures Drain(env, catalog, p0, units).dict == Collect(env, catalog, Gathered(p0.dict, None), units).dict
    ensures Drain(env, catalog, p0, units).crashed <==> Collect(env, catalog, Gathered(p0.dict, None), units).abort.Some?
  {
    if units != [] {
      DrainGathers(env, catalog, p0, units[..|units| - 1]);
    }
  }

  /** A prefix of the gathering runs the same way: after an exception nothing more is gathered. */
  lemma {:induction false} CollectAborted(env: Env, catalog: seq<Municipio>, g0: Gathered, units: seq<Municipio>)
    requires g0.abort.Some?
    ensures Collect(env, catalog, g0, units) == g0
  {
    if units != [] {
      CollectAborted(env, catalog, g0, units[..|units| - 1]);
    }
  }

  lemma {:induction false} CollectAppend(env: Env, catalog: seq<Municipio>, g0: Gathered, a: seq<Municipio>, b: seq<Municipio>)
    ensures Collect(env, catalog, g0, a + b) == Collect(env, catalog, Collect(env, catalog, g0, a), b)
    decreases |b|
  {
    if b == [] {
      assert a + b == a;
    } else {
      assert (a + b)[..|a + b| - 1] == a + b[..|b| - 1];
      assert (a + b)[|a + b| - 1] == b[|b| - 1];
      CollectAppend(env, catalog, g0, a, b[..|b| - 1]);
    }
  }

  /**
   * A municipality whose processing raises an exception ends the gathering
   * with that exception and the records gathered before it.
   */
  lemma CollectStopsAt(env: Env, catalog: seq<Municipio>, g0: Gathered, done: seq<Municipio>, m: Municipio, rest: seq<Municipio>)
    requires Collect(env, catalog, g0, done).abort.None? && UnitRecords(env, catalog, m).Err?
    ensures Collect(env, catalog, g0, done + [m] + rest) == Gathered(Collect(env, catalog, g0, done).dict, Some(UnitRecords(env, catalog, m).error))
  {
    assert (done + [m])[..|done|] == done;
    CollectAppend(env, catalog, g0, done + [m], rest);
    CollectAborted(env, catalog, Collect(env, catalog, g0, done + [m]), rest);
  }

  /**
   * The script's single snapshot, for a catalog without repeated records
   * processed from an empty list: the records are already in file order,
   * with no two sharing both indices, so the file lists them once each in
   * the order they were collected.
   */
  lemma CollectStrictlySorted(env: Env, catalog: seq<Municipio>)
    requires Distinct(catalog)
    ensures var g := Collect(env, catalog, Gathered([], None), catalog);
      && StrictlySorted(g.dict)
      && Snapshot(g.dict) == Render(g.dict)
  {
    assert catalog[..|catalog|] == catalog;
    DrainSorted(env, catalog, |catalog|);
    DrainGathers(env, catalog, Fresh, catalog);
    OrderOfSorted(Collect(env, catalog, Gathered([], None), catalog).dict);
  }

  /** `a` ends with `b`. */
  predicate EndsWith(a: seq<string>, b: seq<string>)
  {
    |b| <= |a| && a[|a| - |b|..] == b
  }

  /**
   * The file `Execute` leaves after processing a nonempty queue without an
   * exception ends with the one snapshot the script writes of the same
   * records: the earlier snapshots are extra lines in front of it.
   */
  lemma DrainEndsWithSnapshot(env: Env, catalog: seq<Municipio>, p0: Progress, units: seq<Municipio>)
    requires !p0.crashed && units != [] && !Drain(env, catalog, p0, units).crashed
    ensures Drain(env, catalog, p0, units).file.Some?
    ensures EndsWith(Drain(env, catalog, p0, units).file.value, Snapshot(Collect(env, catalog, Gathered(p0.dict, None), units).dict))
  {
    var p := Drain(env, catalog, p0, units[..|units| - 1]);
    var rs := UnitRecords(env, catalog, units[|units| - 1]).value;
    DrainGathers(env, catalog, p0, units);
    SnapshotLines(p.dict + rs);
  }
}
