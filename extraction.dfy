/**
 * The extractor of `ProcessarMunicipio` (identical in Execute.cs and
 * Program.cs): a synthetic name line, then a two-register scan of the
 * summary block (`div.topo`) and of every list table (`table.lista`).
 */
module Extraction {
  import opened Wrappers
  import opened Text
  import opened Html

  /** The source's `record Result`: one output line of one municipality. */
  datatype Entry = Entry(indexLinha: int, indexMunicipio: int, chave: string, valor: string)

  /** The only way extraction fails: `foreach` over the null that `SelectNodes` returns when no list table exists. */
  datatype Abort = NullReference

  const NomeChave := "Nome do munic\U{ED}pio"
  const Nbsp := " &nbsp;"

  /** The class names that mark a label cell and a value cell in one region of the page. */
  datatype Markers = Markers(keyClass: string, valueClass: string)

  const Topo := Markers("topo__titulo", "topo__valor")
  const Lista := Markers("lista__nome", "lista__valor")

  /** The scan's state: the registers `chave` and `valor`, the line counter and the lines emitted so far. */
  datatype Scan = Scan(chave: string, valor: string, contador: int, entries: seq<Entry>)

  /** The line emitted for a key and a value: white space collapsed, and `" &nbsp;"` removed from the value. */
  function Emit(linha: int, unit: int, chave: string, valor: string): Entry
  {
    Entry(linha, unit, Collapse(chave), RemoveAll(Collapse(valor), Nbsp))
  }

  /**
   * One node of the scan: a node whose class is exactly the label class
   * loads `chave` with its trimmed text, likewise for the value class and
   * `valor`; once both registers are non-blank a line is emitted and both
   * registers are cleared.
   */
  function Visit(s: Scan, n: Node, mk: Markers, unit: int): Scan
  {
    var chave := if n.cls == Some(mk.keyClass) then Trim(n.text) else s.chave;
    var valor := if n.cls == Some(mk.valueClass) then Trim(n.text) else s.valor;
    if !IsNullOrWhiteSpace(chave) && !IsNullOrWhiteSpace(valor) then
      Scan("", "", s.contador + 1, s.entries + [Emit(s.contador + 1, unit, chave, valor)])
    else
      Scan(chave, valor, s.contador, s.entries)
  }

  /** The innermost loop: every node of `ns`, in order. */
  function ScanNodes(s: Scan, ns: seq<Node>, mk: Markers, unit: int): Scan
  {
    if ns == [] then s else Visit(ScanNodes(s, ns[..|ns| - 1], mk, unit), ns[|ns| - 1], mk, unit)
  }

  /** `foreach (var item in items) foreach (var sub in item.Descendants())`. */
  function ScanItems(s: Scan, items: seq<Node>, mk: Markers, unit: int): Scan
  {
    if items == [] then s
    else ScanNodes(ScanItems(s, items[..|items| - 1], mk, unit), Descendants(items[|items| - 1]), mk, unit)
  }

  /** The table loop: for each table, the doubly nested scan of its descendants. */
  function ScanTables(s: Scan, tables: seq<Node>, mk: Markers, unit: int): Scan
  {
    if tables == [] then s
    else ScanItems(ScanTables(s, tables[..|tables| - 1], mk, unit), Descendants(tables[|tables| - 1]), mk, unit)
  }

  /**
   * The lines of one fetched page: the name line, then, when a `div.topo`
   * exists, the summary scan followed by the table scan with the registers
   * carried over; the table scan aborts when no `table.lista` exists.
   */
  function Extracted(doc: Node, unit: int, nome: string): Result<seq<Entry>, Abort>
  {
    var start := Scan("", "", 1, [Entry(1, unit, NomeChave, nome)]);
    match SelectNodes(doc, "div", "topo")
    case None => Ok(start.entries)
    case Some(topo) =>
      var afterTopo := ScanItems(start, DescendantsAll(topo), Topo, unit);
      match SelectNodes(doc, "table", "lista")
      case None => Err(NullReference)
      case Some(tables) => Ok(ScanTables(afterTopo, tables, Lista, unit).entries)
  }

  /** A register holds `""` or a string with no white space at either end. */
  predicate Register(x: string)
  {
    x == [] || (!IsWhiteSpace(x[0]) && !IsWhiteSpace(x[|x| - 1]))
  }

  /** An emitted line: key and value are non-empty and start with a visible character; the key is collapsed and ends with one. */
  predicate WellFormed(e: Entry)
  {
    && e.chave != [] && Collapsed(e.chave) && !IsWhiteSpace(e.chave[0]) && !IsWhiteSpace(e.chave[|e.chave| - 1])
    && e.valor != [] && !IsWhiteSpace(e.valor[0])
  }

  /**
   * What the scan keeps true: the counter equals the number of lines, the
   * lines are numbered 1, 2, ... and all belong to `unit`, every line after the
   * first is well formed, and the registers hold trimmed text.
   */
  predicate Numbered(s: Scan, unit: int)
  {
    && |s.entries| == s.contador
    && (forall i :: 0 <= i < |s.entries| ==> s.entries[i].indexLinha == i + 1 && s.entries[i].indexMunicipio == unit)
    && (forall i :: 1 <= i < |s.entries| ==> WellFormed(s.entries[i]))
    && Register(s.chave) && Register(s.valor)
  }

  lemma TrimIsRegister(x: string)
    ensures Register(Trim(x))
  {
    TrimSpec(x);
  }

  lemma RegisterBlank(x: string)
    requires Register(x)
    ensures IsNullOrWhiteSpace(x) <==> x == []
  {
  }

  /** A line emitted from two non-blank registers is well formed. */
  lemma EmitWellFormed(linha: int, unit: int, chave: string, valor: string)
    requires Register(chave) && Register(valor) && chave != [] && valor != []
    ensures WellFormed(Emit(linha, unit, chave, valor))
  {
    CollapseKeepsLast(chave);
    var v := Collapse(valor);
    assert v[0] != Nbsp[0];
  }

  /** Appending a well-formed line with the next number keeps the scan numbered. */
  lemma AppendKeepsNumbered(s: Scan, e: Entry, unit: int)
    requires Numbered(s, unit) && WellFormed(e)
    requires e.indexLinha == s.contador + 1 && e.indexMunicipio == unit
    ensures Numbered(Scan("", "", s.contador + 1, s.entries + [e]), unit)
  {
    var es := s.entries + [e];
    assert forall i :: 0 <= i < |s.entries| ==> es[i] == s.entries[i];
  }

  lemma VisitKeepsNumbered(s: Scan, n: Node, mk: Markers, unit: int)
    requires Numbered(s, unit)
    ensures Numbered(Visit(s, n, mk, unit), unit)
    ensures s.entries <= Visit(s, n, mk, unit).entries
  {
    var chave := if n.cls == Some(mk.keyClass) then Trim(n.text) else s.chave;
    var valor := if n.cls == Some(mk.valueClass) then Trim(n.text) else s.valor;
    TrimIsRegister(n.text);
    assert Register(chave) && Register(valor);
    RegisterBlank(chave);
    RegisterBlank(valor);
    if chave != [] && valor != [] {
      var e := Emit(s.contador + 1, unit, chave, valor);
      EmitWellFormed(s.contador + 1, unit, chave, valor);
      AppendKeepsNumbered(s, e, unit);
      assert Visit(s, n, mk, unit) == Scan("", "", s.contador + 1, s.entries + [e]);
    } else {
      assert Visit(s, n, mk, unit) == Scan(chave, valor, s.contador, s.entries);
    }
  }

  lemma {:induction false} ScanNodesKeepsNumbered(s: Scan, ns: seq<Node>, mk: Markers, unit: int)
    requires Numbered(s, unit)
    ensures Numbered(ScanNodes(s, ns, mk, unit), unit)
    ensures s.entries <= ScanNodes(s, ns, mk, unit).entries
  {
    if ns != [] {
      var init := ScanNodes(s, ns[..|ns| - 1], mk, unit);
      ScanNodesKeepsNumbered(s, ns[..|ns| - 1], mk, unit);
      VisitKeepsNumbered(init, ns[|ns| - 1], mk, unit);
    }
  }

  lemma {:induction false} ScanItemsKeepsNumbered(s: Scan, items: seq<Node>, mk: Markers, unit: int)
    requires Numbered(s, unit)
    ensures Numbered(ScanItems(s, items, mk, unit), unit)
    ensures s.entries <= ScanItems(s, items, mk, unit).entries
  {
    if items != [] {
      var init := ScanItems(s, items[..|items| - 1], mk, unit);
      ScanItemsKeepsNumbered(s, items[..|items| - 1], mk, unit);
      ScanNodesKeepsNumbered(init, Descendants(items[|items| - 1]), mk, unit);
    }
  }

  lemma {:induction false} ScanTablesKeepsNumbered(s: Scan, tables: seq<Node>, mk: Markers, unit: int)
    requires Numbered(s, unit)
    ensures Numbered(ScanTables(s, tables, mk, unit), unit)
    ensures s.entries <= ScanTables(s, tables, mk, unit).entries
  {
    if tables != [] {
      var init := ScanTables(s, tables[..|tables| - 1], mk, unit);
      ScanTablesKeepsNumbered(s, tables[..|tables| - 1], mk, unit);
      ScanItemsKeepsNumbered(init, Descendants(tables[|tables| - 1]), mk, unit);
    }
  }

  /**
   * The lines of a page: the first is the name line with `IndexLinha` 1 and
   * the slug as its value; the lines are numbered 1, 2, ..., all carry the
   * municipality's index, and every line after the first is well formed.
   */
  lemma ExtractedLines(doc: Node, unit: int, nome: string)
    requires Extracted(doc, unit, nome).Ok?
    ensures var es := Extracted(doc, unit, nome).value;
      && es != [] && es[0] == Entry(1, unit, NomeChave, nome)
      && (forall i :: 0 <= i < |es| ==> es[i].indexLinha == i + 1 && es[i].indexMunicipio == unit)
      && (forall i :: 1 <= i < |es| ==> WellFormed(es[i]))
  {
    var start := Scan("", "", 1, [Entry(1, unit, NomeChave, nome)]);
    assert Numbered(start, unit);
    var topo := SelectNodes(doc, "div", "topo");
    if topo.Some? {
      var afterTopo := ScanItems(start, DescendantsAll(topo.value), Topo, unit);
      ScanItemsKeepsNumbered(start, DescendantsAll(topo.value), Topo, unit);
      var tables := SelectNodes(doc, "table", "lista");
      ScanTablesKeepsNumbered(afterTopo, tables.value, Lista, unit);
    }
  }

  /** A page without `div.topo` yields the name line alone, whatever tables it has. */
  lemma ExtractedWithoutTopo(doc: Node, unit: int, nome: string)
    requires forall n :: n in Descendants(doc) ==> !Matches(n, "div", "topo")
    ensures Extracted(doc, unit, nome) == Ok([Entry(1, unit, NomeChave, nome)])
  {
    SelectNodesSpec(doc, "div", "topo");
  }

  /** A page with a `div.topo` but no `table.lista` aborts the extraction. */
  lemma ExtractedMissingTable(doc: Node, unit: int, nome: string)
    requires exists n :: n in Descendants(doc) && Matches(n, "div", "topo")
    requires forall n :: n in Descendants(doc) ==> !Matches(n, "table", "lista")
    ensures Extracted(doc, unit, nome) == Err(NullReference)
  {
    SelectNodesSpec(doc, "div", "topo");
    SelectNodesSpec(doc, "table", "lista");
  }

  /** The label cells among `ns`: nodes whose class is exactly `mk.keyClass`. */
  function Labels(ns: seq<Node>, mk: Markers): set<Node>
  {
    set a | a in ns && a.cls == Some(mk.keyClass)
  }

  /** The value cells among `ns`: nodes whose class is exactly `mk.valueClass`. */
  function ValueCells(ns: seq<Node>, mk: Markers): set<Node>
  {
    set b | b in ns && b.cls == Some(mk.valueClass)
  }

  /** `chave` is the emitted form of the text of one of the label cells `keys`. */
  predicate KeyFrom(chave: string, keys: set<Node>)
  {
    exists a :: a in keys && chave == Collapse(Trim(a.text))
  }

  /** `valor` is the emitted form of the text of one of the value cells `vals`. */
  predicate ValueFrom(valor: string, vals: set<Node>)
  {
    exists b :: b in vals && valor == RemoveAll(Collapse(Trim(b.text)), Nbsp)
  }

  /**
   * Where the scan's text comes from: each register is empty or the trimmed
   * text of a label (resp. value) cell, and every line after the name line
   * pairs the text of a label cell with the text of a value cell.
   */
  predicate Traced(s: Scan, keys: set<Node>, vals: set<Node>)
  {
    && (s.chave == "" || exists a :: a in keys && s.chave == Trim(a.text))
    && (s.valor == "" || exists b :: b in vals && s.valor == Trim(b.text))
    && (forall i :: 1 <= i < |s.entries| ==> KeyFrom(s.entries[i].chave, keys) && ValueFrom(s.entries[i].valor, vals))
  }

  /** Appending a line whose key and value are traced, with both registers cleared, keeps the scan traced. */
  lemma AppendTraced(s: Scan, e: Entry, contador: int, keys: set<Node>, vals: set<Node>)
    requires Traced(s, keys, vals) && KeyFrom(e.chave, keys) && ValueFrom(e.valor, vals)
    ensures Traced(Scan("", "", contador, s.entries + [e]), keys, vals)
  {
    var es := s.entries + [e];
    assert forall i :: 0 <= i < |s.entries| ==> es[i] == s.entries[i];
  }

  /** A line emitted from two registers loaded from known cells is traced to them. */
  lemma EmitTraced(s: Scan, chave: string, valor: string, unit: int, keys: set<Node>, vals: set<Node>)
    requires Traced(s, keys, vals)
    requires exists a :: a in keys && chave == Trim(a.text)
    requires exists b :: b in vals && valor == Trim(b.text)
    ensures Traced(Scan("", "", s.contador + 1, s.entries + [Emit(s.contador + 1, unit, chave, valor)]), keys, vals)
  {
    var e := Emit(s.contador + 1, unit, chave, valor);
    var a :| a in keys && chave == Trim(a.text);
    var b :| b in vals && valor == Trim(b.text);
    assert KeyFrom(e.chave, keys);
    assert ValueFrom(e.valor, vals);
    AppendTraced(s, e, s.contador + 1, keys, vals);
  }

  /** Visiting a node whose marks are among the known cells keeps every line traced to those cells. */
  lemma VisitTraced(s: Scan, n: Node, mk: Markers, unit: int, keys: set<Node>, vals: set<Node>)
    requires Traced(s, keys, vals)
    requires n.cls == Some(mk.keyClass) ==> n in keys
    requires n.cls == Some(mk.valueClass) ==> n in vals
    ensures Traced(Visit(s, n, mk, unit), keys, vals)
  {
    var chave := if n.cls == Some(mk.keyClass) then Trim(n.text) else s.chave;
    var valor := if n.cls == Some(mk.valueClass) then Trim(n.text) else s.valor;
    assert chave == "" || exists a :: a in keys && chave == Trim(a.text);
    assert valor == "" || exists b :: b in vals && valor == Trim(b.text);
    VisitUnfold(s, n, mk, unit, chave, valor);
    if !IsNullOrWhiteSpace(chave) && !IsNullOrWhiteSpace(valor) {
      EmitTraced(s, chave, valor, unit, keys, vals);
    }
  }

  /** `Visit` with its two registers named. */
  lemma VisitUnfold(s: Scan, n: Node, mk: Markers, unit: int, chave: string, valor: string)
    requires chave == if n.cls == Some(mk.keyClass) then Trim(n.text) else s.chave
    requires valor == if n.cls == Some(mk.valueClass) then Trim(n.text) else s.valor
    ensures !IsNullOrWhiteSpace(chave) && !IsNullOrWhiteSpace(valor) ==>
      Visit(s, n, mk, unit) == Scan("", "", s.contador + 1, s.entries + [Emit(s.contador + 1, unit, chave, valor)])
    ensures IsNullOrWhiteSpace(chave) || IsNullOrWhiteSpace(valor) ==> Visit(s, n, mk, unit) == Scan(chave, valor, s.contador, s.entries)
  {
  }

  /** The inner loop emits only lines whose key and value come from label and value cells of the listing, or from the registers it started with. */
  lemma {:induction false} ScanNodesTraced(s: Scan, ns: seq<Node>, mk: Markers, unit: int, keys: set<Node>, vals: set<Node>)
    requires Traced(s, keys, vals) && Labels(ns, mk) <= keys && ValueCells(ns, mk) <= vals
    ensures Traced(ScanNodes(s, ns, mk, unit), keys, vals)
  {
    if ns != [] {
      var init := ns[..|ns| - 1];
      assert Labels(init, mk) <= Labels(ns, mk) && ValueCells(init, mk) <= ValueCells(ns, mk);
      ScanNodesTraced(s, init, mk, unit, keys, vals);
      VisitTraced(ScanNodes(s, init, mk, unit), ns[|ns| - 1], mk, unit, keys, vals);
    }
  }

  lemma {:induction false} ScanItemsTraced(s: Scan, items: seq<Node>, mk: Markers, unit: int, keys: set<Node>, vals: set<Node>)
    requires Traced(s, keys, vals) && Labels(DescendantsAll(items), mk) <= keys && ValueCells(DescendantsAll(items), mk) <= vals
    ensures Traced(ScanItems(s, items, mk, unit), keys, vals)
  {
    if items != [] {
      var init := items[..|items| - 1];
      DescendantsAllSnoc(items);
      ScanItemsTraced(s, init, mk, unit, keys, vals);
      ScanNodesTraced(ScanItems(s, init, mk, unit), Descendants(items[|items| - 1]), mk, unit, keys, vals);
    }
  }

  lemma {:induction false} ScanTablesTraced(s: Scan, tables: seq<Node>, mk: Markers, unit: int, keys: set<Node>, vals: set<Node>)
    requires Traced(s, keys, vals) && Labels(NestedVisits(tables), mk) <= keys && ValueCells(NestedVisits(tables), mk) <= vals
    ensures Traced(ScanTables(s, tables, mk, unit), keys, vals)
  {
    if tables != [] {
      var init := tables[..|tables| - 1];
      var last := Descendants(tables[|tables| - 1]);
      DescendantsAllSnoc(tables);
      DescendantsAllAppend(DescendantsAll(init), last);
      assert NestedVisits(tables) == NestedVisits(init) + DescendantsAll(last);
      ScanTablesTraced(s, init, mk, unit, keys, vals);
      ScanItemsTraced(ScanTables(s, init, mk, unit), last, mk, unit, keys, vals);
    }
  }

  /** The label cells the extractor visits on a page: summary labels under `div.topo`, list labels under `table.lista`. */
  function PageLabels(doc: Node): set<Node>
  {
    Labels(NestedVisits(SelectNodes(doc, "div", "topo").GetOr([])), Topo)
      + Labels(NestedVisits(SelectNodes(doc, "table", "lista").GetOr([])), Lista)
  }

  /** The value cells the extractor visits on a page, likewise. */
  function PageValues(doc: Node): set<Node>
  {
    ValueCells(NestedVisits(SelectNodes(doc, "div", "topo").GetOr([])), Topo)
      + ValueCells(NestedVisits(SelectNodes(doc, "table", "lista").GetOr([])), Lista)
  }

  /**
   * Every line of a page after the name line pairs the collapsed, trimmed
   * text of a label cell the extractor visited with the collapsed, trimmed
   * text of a visited value cell, stripped of `" &nbsp;"`.
   */
  lemma ExtractedProvenance(doc: Node, unit: int, nome: string)
    requires Extracted(doc, unit, nome).Ok?
    ensures var es := Extracted(doc, unit, nome).value;
      forall i :: 1 <= i < |es| ==> KeyFrom(es[i].chave, PageLabels(doc)) && ValueFrom(es[i].valor, PageValues(doc))
  {
    var start := Scan("", "", 1, [Entry(1, unit, NomeChave, nome)]);
    var keys, vals := PageLabels(doc), PageValues(doc);
    assert Traced(start, keys, vals);
    var topo := SelectNodes(doc, "div", "topo");
    if topo.Some? {
      assert DescendantsAll(DescendantsAll(topo.value)) == NestedVisits(topo.value);
      ScanItemsTraced(start, DescendantsAll(topo.value), Topo, unit, keys, vals);
      var afterTopo := ScanItems(start, DescendantsAll(topo.value), Topo, unit);
      var tables := SelectNodes(doc, "table", "lista");
      ScanTablesTraced(afterTopo, tables.value, Lista, unit, keys, vals);
    }
  }

  /** A page on which the extractor visits no label cell, or no value cell, yields the name line alone. */
  lemma ExtractedUnmarked(doc: Node, unit: int, nome: string)
    requires PageLabels(doc) == {} || PageValues(doc) == {}
    ensures Extracted(doc, unit, nome).Ok? ==> Extracted(doc, unit, nome).value == [Entry(1, unit, NomeChave, nome)]
  {
    if Extracted(doc, unit, nome).Ok? {
      var es := Extracted(doc, unit, nome).value;
      ExtractedLines(doc, unit, nome);
      ExtractedProvenance(doc, unit, nome);
      if PageLabels(doc) == {} {
        assert |es| > 1 ==> KeyFrom(es[1].chave, PageLabels(doc));
      } else {
        assert |es| > 1 ==> ValueFrom(es[1].valor, PageValues(doc));
      }
      assert es == [es[0]];
    }
  }

  /** Every visit leaves at least one register blank, as the scan starts. */
  lemma VisitLeavesBlank(s: Scan, n: Node, mk: Markers, unit: int)
    ensures var t := Visit(s, n, mk, unit); IsNullOrWhiteSpace(t.chave) || IsNullOrWhiteSpace(t.valor)
  {
  }

  /** A listing with no label or value cell adds no line and leaves the scan as it was. */
  lemma {:induction false} ScanNodesUnmarked(s: Scan, ns: seq<Node>, mk: Markers, unit: int)
    requires Labels(ns, mk) == {} && ValueCells(ns, mk) == {}
    requires IsNullOrWhiteSpace(s.chave) || IsNullOrWhiteSpace(s.valor)
    ensures ScanNodes(s, ns, mk, unit) == s
  {
    if ns != [] {
      var init := ns[..|ns| - 1];
      var n := ns[|ns| - 1];
      assert Labels(init, mk) <= Labels(ns, mk) && ValueCells(init, mk) <= ValueCells(ns, mk);
      ScanNodesUnmarked(s, init, mk, unit);
      assert n !in Labels(ns, mk) && n !in ValueCells(ns, mk);
    }
  }

  /** The inner loop over the nodes `ns`, on the source's local variables. */
  method ScanDescendants(ns: seq<Node>, mk: Markers, unit: int,
                         chave0: string, valor0: string, contador0: int, internalDict0: seq<Entry>)
    returns (chave: string, valor: string, contador: int, internalDict: seq<Entry>)
    ensures Scan(chave, valor, contador, internalDict) == ScanNodes(Scan(chave0, valor0, contador0, internalDict0), ns, mk, unit)
  {
    chave, valor, contador, internalDict := chave0, valor0, contador0, internalDict0;
    var j := 0;
    while j < |ns|
      invariant 0 <= j <= |ns|
      invariant Scan(chave, valor, contador, internalDict) == ScanNodes(Scan(chave0, valor0, contador0, internalDict0), ns[..j], mk, unit)
    {
      var sub := ns[j];
      ghost var before := Scan(chave, valor, contador, internalDict);
      if sub.cls == Some(mk.keyClass) {
        chave := Trim(sub.text);
      }
      if sub.cls == Some(mk.valueClass) {
        valor := Trim(sub.text);
      }
      if !IsNullOrWhiteSpace(chave) && !IsNullOrWhiteSpace(valor) {
        contador := contador + 1;
        internalDict := internalDict + [Entry(contador, unit, Collapse(chave), RemoveAll(Collapse(valor), Nbsp))];
        chave, valor := "", "";
      }
      assert Scan(chave, valor, contador, internalDict) == Visit(before, sub, mk, unit);
      assert ns[..j + 1][..j] == ns[..j];
      j := j + 1;
    }
    assert ns[..j] == ns;
  }

  /** `foreach (var item in items) foreach (var sub in item.Descendants())`, on the source's local variables. */
  method ScanEachDescendants(items: seq<Node>, mk: Markers, unit: int,
                             chave0: string, valor0: string, contador0: int, internalDict0: seq<Entry>)
    returns (chave: string, valor: string, contador: int, internalDict: seq<Entry>)
    ensures Scan(chave, valor, contador, internalDict) == ScanItems(Scan(chave0, valor0, contador0, internalDict0), items, mk, unit)
  {
    chave, valor, contador, internalDict := chave0, valor0, contador0, internalDict0;
    var i := 0;
    while i < |items|
      invariant 0 <= i <= |items|
      invariant Scan(chave, valor, contador, internalDict) == ScanItems(Scan(chave0, valor0, contador0, internalDict0), items[..i], mk, unit)
    {
      chave, valor, contador, internalDict := ScanDescendants(Descendants(items[i]), mk, unit, chave, valor, contador, internalDict);
      assert items[..i + 1][..i] == items[..i];
      i := i + 1;
    }
    assert items[..i] == items;
  }

  /** The extraction part of `ProcessarMunicipio`, once the page has been loaded. */
  method Extract(doc: Node, unit: int, nome: string) returns (r: Result<seq<Entry>, Abort>)
    ensures r == Extracted(doc, unit, nome)
  {
    var internalDict: seq<Entry> := [];
    var contador := 0;
    var chave, valor := "", "";
    contador := contador + 1;
    internalDict := internalDict + [Entry(contador, unit, NomeChave, nome)];
    ghost var start := Scan(chave, valor, contador, internalDict);
    assert start == Scan("", "", 1, [Entry(1, unit, NomeChave, nome)]);
    var topo := SelectNodes(doc, "div", "topo");
    if topo.Some? {
      chave, valor, contador, internalDict := ScanEachDescendants(DescendantsAll(topo.value), Topo, unit, chave, valor, contador, internalDict);
      ghost var afterTopo := Scan(chave, valor, contador, internalDict);
      var tables := SelectNodes(doc, "table", "lista");
      if tables.None? {
        return Err(NullReference);
      }
      var t := 0;
      while t < |tables.value|
        invariant 0 <= t <= |tables.value|
        invariant Scan(chave, valor, contador, internalDict) == ScanTables(afterTopo, tables.value[..t], Lista, unit)
      {
        chave, valor, contador, internalDict := ScanEachDescendants(Descendants(tables.value[t]), Lista, unit, chave, valor, contador, internalDict);
        assert tables.value[..t + 1][..t] == tables.value[..t];
        t := t + 1;
      }
      assert tables.value[..t] == tables.value;
      assert Extracted(doc, unit, nome) == Ok(ScanTables(afterTopo, tables.value, Lista, unit).entries);
    } else {
      assert Extracted(doc, unit, nome) == Ok(start.entries);
    }
    return Ok(internalDict);
  }
}
