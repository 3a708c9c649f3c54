/**
 * The output file: the accumulated records ordered by municipality index,
 * then by line number (LINQ `OrderBy(...).ThenBy(...)`, a stable sort), each
 * written as the line `chave;valor;`.
 */
module Output {
  import opened Wrappers
  import opened Extraction

  /** `a` may precede `b`: the order of `OrderBy(IndexMunicipio).ThenBy(IndexLinha)`. */
  predicate Le(a: Entry, b: Entry)
  {
    a.indexMunicipio < b.indexMunicipio || (a.indexMunicipio == b.indexMunicipio && a.indexLinha <= b.indexLinha)
  }

  predicate Sorted(s: seq<Entry>)
  {
    forall i, j :: 0 <= i < j < |s| ==> Le(s[i], s[j])
  }

  /** `a` strictly precedes `b`: a later municipality, or a later line of the same one. */
  predicate Lt(a: Entry, b: Entry)
  {
    a.indexMunicipio < b.indexMunicipio || (a.indexMunicipio == b.indexMunicipio && a.indexLinha < b.indexLinha)
  }

  /** In file order with no two records sharing both indices. */
  predicate StrictlySorted(s: seq<Entry>)
  {
    forall i, j :: 0 <= i < j < |s| ==> Lt(s[i], s[j])
  }

  /** Places `x` after every element of the sorted `s` whose key is not greater, keeping ties in arrival order. */
  function Insert(s: seq<Entry>, x: Entry): seq<Entry>
  {
    if s == [] || Le(s[|s| - 1], x) then s + [x]
    else Insert(s[..|s| - 1], x) + [s[|s| - 1]]
  }

  /** The records in the order the file lists them. */
  function OrderByKey(d: seq<Entry>): seq<Entry>
  {
    if d == [] then [] else Insert(OrderByKey(d[..|d| - 1]), d[|d| - 1])
  }

  lemma {:induction false} InsertPerm(s: seq<Entry>, x: Entry)
    ensures multiset(Insert(s, x)) == multiset(s) + multiset{x}
  {
    if s != [] && !Le(s[|s| - 1], x) {
      InsertPerm(s[..|s| - 1], x);
      assert s == s[..|s| - 1] + [s[|s| - 1]];
    }
  }

  lemma {:induction false} InsertSorted(s: seq<Entry>, x: Entry)
    requires Sorted(s)
    ensures Sorted(Insert(s, x))
  {
    if s != [] && !Le(s[|s| - 1], x) {
      var init, last := s[..|s| - 1], s[|s| - 1];
      InsertSorted(init, x);
      InsertPerm(init, x);
      var r := Insert(init, x);
      forall y | y in r
        ensures Le(y, last)
      {
        assert y in multiset(r);
        if y != x {
          assert y in init;
        }
      }
      forall i, j | 0 <= i < j < |r + [last]|
        ensures Le((r + [last])[i], (r + [last])[j])
      {
        if j == |r| {
          assert (r + [last])[i] in r;
        }
      }
    }
  }

  /** The file order is sorted by municipality, then line. */
  lemma {:induction false} OrderSorted(d: seq<Entry>)
    ensures Sorted(OrderByKey(d))
  {
    if d != [] {
      OrderSorted(d[..|d| - 1]);
      InsertSorted(OrderByKey(d[..|d| - 1]), d[|d| - 1]);
    }
  }

  /** The file holds every record, each as many times as the list does. */
  lemma {:induction false} OrderPerm(d: seq<Entry>)
    ensures multiset(OrderByKey(d)) == multiset(d)
  {
    if d != [] {
      OrderPerm(d[..|d| - 1]);
      InsertPerm(OrderByKey(d[..|d| - 1]), d[|d| - 1]);
      assert d == d[..|d| - 1] + [d[|d| - 1]];
    }
  }

  /** The records of `s` carrying one key, in their order in `s`. */
  function WithKey(s: seq<Entry>, unit: int, linha: int): seq<Entry>
  {
    if s == [] then []
    else
      var last := s[|s| - 1];
      WithKey(s[..|s| - 1], unit, linha) + (if last.indexMunicipio == unit && last.indexLinha == linha then [last] else [])
  }

  lemma {:induction false} WithKeyAppend(a: seq<Entry>, b: seq<Entry>, unit: int, linha: int)
    ensures WithKey(a + b, unit, linha) == WithKey(a, unit, linha) + WithKey(b, unit, linha)
    decreases |b|
  {
    if b == [] {
      assert a + b == a;
    } else {
      assert (a + b)[..|a + b| - 1] == a + b[..|b| - 1];
      WithKeyAppend(a, b[..|b| - 1], unit, linha);
    }
  }

  lemma {:induction false} InsertStable(s: seq<Entry>, x: Entry, unit: int, linha: int)
    ensures WithKey(Insert(s, x), unit, linha) == WithKey(s + [x], unit, linha)
  {
    if s != [] && !Le(s[|s| - 1], x) {
      var init, last := s[..|s| - 1], s[|s| - 1];
      InsertStable(init, x, unit, linha);
      WithKeyAppend(Insert(init, x), [last], unit, linha);
      WithKeyAppend(init + [x], [last], unit, linha);
      WithKeyAppend(init, [x], unit, linha);
      WithKeyAppend(init, [last], unit, linha);
      WithKeyAppend(init + [last], [x], unit, linha);
      assert s == init + [last];
      assert [x][..0] == [] && [last][..0] == [];
    }
  }

  /** The sort is stable: records sharing a key keep their relative order. */
  lemma {:induction false} OrderStable(d: seq<Entry>, unit: int, linha: int)
    ensures WithKey(OrderByKey(d), unit, linha) == WithKey(d, unit, linha)
  {
    if d != [] {
      var init, last := d[..|d| - 1], d[|d| - 1];
      OrderStable(init, unit, linha);
      InsertStable(OrderByKey(init), last, unit, linha);
      WithKeyAppend(OrderByKey(init), [last], unit, linha);
      WithKeyAppend(init, [last], unit, linha);
      assert d == init + [last];
    }
  }

  /** Records already in key order are written in the order they were collected. */
  lemma {:induction false} OrderOfSorted(d: seq<Entry>)
    requires Sorted(d)
    ensures OrderByKey(d) == d
  {
    if d != [] {
      var init, last := d[..|d| - 1], d[|d| - 1];
      assert Sorted(init) by {
        forall i, j | 0 <= i < j < |init|
          ensures Le(init[i], init[j])
        {
          assert init[i] == d[i] && init[j] == d[j];
        }
      }
      OrderOfSorted(init);
      if init != [] {
        assert init[|init| - 1] == d[|d| - 2];
        assert Le(init[|init| - 1], last);
      }
      assert Insert(init, last) == init + [last];
      assert d == init + [last];
    }
  }

  /** `$"{x.Chave};{x.Valor};"` */
  function Line(e: Entry): string
  {
    e.chave + ";" + e.valor + ";"
  }

  /** The lines of `es`, one per record, in order. */
  function Render(es: seq<Entry>): seq<string>
  {
    seq(|es|, i requires 0 <= i < |es| => Line(es[i]))
  }

  /** The lines written for the record list `d`: its records in file order. */
  function Snapshot(d: seq<Entry>): seq<string>
  {
    Render(OrderByKey(d))
  }

  lemma RenderAppend(a: seq<Entry>, b: seq<Entry>)
    ensures Render(a + b) == Render(a) + Render(b)
  {
  }

  /** A snapshot has one line per record and renders every record. */
  lemma SnapshotLines(d: seq<Entry>)
    ensures |Snapshot(d)| == |d|
    ensures forall e :: e in d ==> Line(e) in Snapshot(d)
  {
    OrderPerm(d);
    var o := OrderByKey(d);
    assert |o| == |multiset(o)| == |multiset(d)| == |d|;
    forall e | e in d
      ensures Line(e) in Snapshot(d)
    {
      assert e in multiset(o);
      var i :| 0 <= i < |o| && o[i] == e;
      assert Snapshot(d)[i] == Line(e);
    }
  }

  /** The first `;` of `s` at or after `from`, if any. */
  function FindSemicolon(s: string, from: nat): (r: Option<nat>)
    requires from <= |s|
    ensures r.Some? ==> from <= r.value < |s| && s[r.value] == ';' && forall k :: from <= k < r.value ==> s[k] != ';'
    ensures r.None? ==> forall k :: from <= k < |s| ==> s[k] != ';'
    decreases |s| - from
  {
    if from == |s| then None
    else if s[from] == ';' then Some(from)
    else FindSemicolon(s, from + 1)
  }

  /** Reads a written line back: the key up to the first `;`, the value up to the closing `;`. */
  function ParseLine(line: string): Option<(string, string)>
  {
    if line == [] || line[|line| - 1] != ';' then None
    else
      match FindSemicolon(line, 0)
      case None => None
      case Some(k) =>
        if k == |line| - 1 then None else Some((line[..k], line[k + 1..|line| - 1]))
  }

  /** A line reads back as its key and value whenever the key holds no `;`. */
  lemma LineRoundTrip(e: Entry)
    requires ';' !in e.chave
    ensures ParseLine(Line(e)) == Some((e.chave, e.valor))
  {
    var line := Line(e);
    var k := |e.chave|;
    assert line[k] == ';';
    assert forall j :: 0 <= j < k ==> line[j] == e.chave[j];
    match FindSemicolon(line, 0)
    case None =>
      assert false;
    case Some(f) =>
      assert f == k;
      assert line[..k] == e.chave;
      assert line[k + 1..|line| - 1] == e.valor;
  }

  /** The format does not escape `;`: a key holding one reads like a different pair. */
  lemma LineAmbiguous(unit: int, linha: int)
    ensures Line(Entry(linha, unit, "a;b", "c")) == Line(Entry(linha, unit, "a", "b;c"))
    ensures ParseLine(Line(Entry(linha, unit, "a;b", "c"))) == Some(("a", "b;c"))
  {
    LineRoundTrip(Entry(linha, unit, "a", "b;c"));
  }
}
