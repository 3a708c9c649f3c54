/**
 * Small pages run through the extractor, for any key and value texts that
 * are not blank: the usual layout of one summary pair and one table pair,
 * and the effects of the doubly nested traversal and of the registers
 * shared between the summary block and the tables.
 */
module Scenarios {
  import opened Wrappers
  import opened Text
  import opened Html
  import opened Extraction

  /** A text-bearing element with the given class. */
  function Leaf(cls: string, text: string): Node
  {
    Node("p", Some(cls), text, [])
  }

  /** A wrapper element without a class. */
  function Box(children: seq<Node>): Node
  {
    Node("div", None, "", children)
  }

  function TopoDiv(children: seq<Node>): Node
  {
    Node("div", Some("topo"), "", children)
  }

  function ListTable(children: seq<Node>): Node
  {
    Node("table", Some("lista"), "", children)
  }

  /** A page holding one summary block and one list table, in that order. */
  function Page(topo: seq<Node>, rows: seq<Node>): Node
  {
    Node("#document", None, "", [TopoDiv(topo), ListTable(rows)])
  }

  function NameLine(unit: int, nome: string): Entry
  {
    Entry(1, unit, NomeChave, nome)
  }

  function Start(unit: int, nome: string): Scan
  {
    Scan("", "", 1, [NameLine(unit, nome)])
  }

  lemma ForestCons(n: Node, ns: seq<Node>)
    ensures Forest([n] + ns) == [n] + Forest(n.children) + Forest(ns)
  {
    assert ([n] + ns)[1..] == ns;
  }

  lemma {:induction false} FilterAppend(a: seq<Node>, b: seq<Node>, tag: string, cls: string)
    ensures FilterMatching(a + b, tag, cls) == FilterMatching(a, tag, cls) + FilterMatching(b, tag, cls)
  {
    if a == [] {
      assert a + b == b;
    } else {
      assert (a + b)[1..] == a[1..] + b;
      FilterAppend(a[1..], b, tag, cls);
    }
  }

  lemma NoMatch(ns: seq<Node>, tag: string, cls: string)
    requires forall n :: n in ns ==> !Matches(n, tag, cls)
    ensures FilterMatching(ns, tag, cls) == []
  {
  }

  /** No element other than the summary block and the table carries a class, except text-bearing `p` elements. */
  predicate Unmarked(ns: seq<Node>)
  {
    forall n :: n in ns ==> n.cls.None? || n.tag == "p"
  }

  lemma PageDescendants(topo: seq<Node>, rows: seq<Node>)
    ensures Descendants(Page(topo, rows)) == [TopoDiv(topo)] + (Forest(topo) + ([ListTable(rows)] + Forest(rows)))
  {
    var d := TopoDiv(topo);
    var t := ListTable(rows);
    ForestCons(t, []);
    ForestCons(d, [t]);
  }

  lemma UnmarkedNoMatch(ns: seq<Node>, tag: string, cls: string)
    requires Unmarked(ns) && tag != "p"
    ensures FilterMatching(ns, tag, cls) == []
  {
    NoMatch(ns, tag, cls);
  }

  lemma PageTopoHits(topo: seq<Node>, rows: seq<Node>)
    requires Unmarked(Forest(topo)) && Unmarked(Forest(rows))
    ensures FilterMatching(Descendants(Page(topo, rows)), "div", "topo") == [TopoDiv(topo)]
  {
    var d, t := TopoDiv(topo), ListTable(rows);
    var rest := Forest(topo) + ([t] + Forest(rows));
    PageDescendants(topo, rows);
    FilterCons(d, rest, "div", "topo");
    assert FilterMatching(rest, "div", "topo") == [] by {
      FilterAppend(Forest(topo), [t] + Forest(rows), "div", "topo");
      FilterCons(t, Forest(rows), "div", "topo");
      UnmarkedNoMatch(Forest(topo), "div", "topo");
      UnmarkedNoMatch(Forest(rows), "div", "topo");
    }
  }

  lemma PageTableHits(topo: seq<Node>, rows: seq<Node>)
    requires Unmarked(Forest(topo)) && Unmarked(Forest(rows))
    ensures FilterMatching(Descendants(Page(topo, rows)), "table", "lista") == [ListTable(rows)]
  {
    var d, t := TopoDiv(topo), ListTable(rows);
    var rest := Forest(topo) + ([t] + Forest(rows));
    PageDescendants(topo, rows);
    FilterCons(d, rest, "table", "lista");
    assert FilterMatching(rest, "table", "lista") == [t] by {
      FilterAppend(Forest(topo), [t] + Forest(rows), "table", "lista");
      FilterCons(t, Forest(rows), "table", "lista");
      UnmarkedNoMatch(Forest(topo), "table", "lista");
      UnmarkedNoMatch(Forest(rows), "table", "lista");
    }
  }

  /** On such a page the summary query finds the summary block and the table query the table, each alone. */
  lemma PageSelect(topo: seq<Node>, rows: seq<Node>)
    requires Unmarked(Forest(topo)) && Unmarked(Forest(rows))
    ensures SelectNodes(Page(topo, rows), "div", "topo") == Some([TopoDiv(topo)])
    ensures SelectNodes(Page(topo, rows), "table", "lista") == Some([ListTable(rows)])
  {
    PageTopoHits(topo, rows);
    PageTableHits(topo, rows);
  }

  /**
   * A document with exactly one summary block and one list table yields the
   * summary scan followed by the table scan, with the registers carried over.
   */
  lemma TwoRegions(doc: Node, topo: Node, table: Node, unit: int, nome: string)
    requires SelectNodes(doc, "div", "topo") == Some([topo])
    requires SelectNodes(doc, "table", "lista") == Some([table])
    ensures Extracted(doc, unit, nome) ==
      Ok(ScanItems(ScanItems(Start(unit, nome), Descendants(topo), Topo, unit), Descendants(table), Lista, unit).entries)
  {
    var start := Start(unit, nome);
    assert start == Scan("", "", 1, [Entry(1, unit, NomeChave, nome)]);
    assert DescendantsAll([topo]) == Descendants(topo) by {
      assert [topo][1..] == [];
      assert Descendants(topo) + [] == Descendants(topo);
    }
    var afterTopo := ScanItems(start, Descendants(topo), Topo, unit);
    assert ScanTables(afterTopo, [table], Lista, unit) == ScanItems(afterTopo, Descendants(table), Lista, unit) by {
      assert [table][..0] == [];
    }
    assert Extracted(doc, unit, nome) == Ok(ScanTables(afterTopo, [table], Lista, unit).entries);
  }

  lemma PageExtracted(topo: seq<Node>, rows: seq<Node>, unit: int, nome: string)
    requires Unmarked(Forest(topo)) && Unmarked(Forest(rows))
    ensures Extracted(Page(topo, rows), unit, nome) ==
      Ok(ScanItems(ScanItems(Start(unit, nome), Forest(topo), Topo, unit), Forest(rows), Lista, unit).entries)
  {
    PageSelect(topo, rows);
    TwoRegions(Page(topo, rows), TopoDiv(topo), ListTable(rows), unit, nome);
  }

  lemma FilterCons(n: Node, ns: seq<Node>, tag: string, cls: string)
    ensures FilterMatching([n] + ns, tag, cls) == (if Matches(n, tag, cls) then [n] else []) + FilterMatching(ns, tag, cls)
  {
    assert ([n] + ns)[1..] == ns;
  }

  /** A text that is not blank still is not once trimmed. */
  lemma Shown(x: string)
    requires !IsNullOrWhiteSpace(x)
    ensures !IsNullOrWhiteSpace(Trim(x))
  {
    TrimEmptyIffBlank(x);
    TrimSpec(x);
    var r := Trim(x);
    assert r != [] && !IsWhiteSpace(r[0]);
  }

  // Unfolding the scans over short lists.
  lemma Nodes1(s: Scan, x: Node, mk: Markers, unit: int)
    ensures ScanNodes(s, [x], mk, unit) == Visit(s, x, mk, unit)
  {
    assert [x][..0] == [];
  }

  lemma Nodes2(s: Scan, x: Node, y: Node, mk: Markers, unit: int)
    ensures ScanNodes(s, [x, y], mk, unit) == Visit(Visit(s, x, mk, unit), y, mk, unit)
  {
    assert [x, y][..1] == [x];
    Nodes1(s, x, mk, unit);
  }

  lemma Nodes3(s: Scan, x: Node, y: Node, z: Node, mk: Markers, unit: int)
    ensures ScanNodes(s, [x, y, z], mk, unit) == Visit(Visit(Visit(s, x, mk, unit), y, mk, unit), z, mk, unit)
  {
    assert [x, y, z][..2] == [x, y];
    Nodes2(s, x, y, mk, unit);
  }

  lemma Items1(s: Scan, x: Node, mk: Markers, unit: int)
    ensures ScanItems(s, [x], mk, unit) == ScanNodes(s, Descendants(x), mk, unit)
  {
    assert [x][..0] == [];
  }

  lemma Items2(s: Scan, x: Node, y: Node, mk: Markers, unit: int)
    ensures ScanItems(s, [x, y], mk, unit) == ScanNodes(ScanItems(s, [x], mk, unit), Descendants(y), mk, unit)
  {
    assert [x, y][..1] == [x];
  }

  lemma Items3(s: Scan, x: Node, y: Node, z: Node, mk: Markers, unit: int)
    ensures ScanItems(s, [x, y, z], mk, unit) == ScanNodes(ScanItems(s, [x, y], mk, unit), Descendants(z), mk, unit)
  {
    assert [x, y, z][..2] == [x, y];
  }

  lemma Items4(s: Scan, w: Node, x: Node, y: Node, z: Node, mk: Markers, unit: int)
    ensures ScanItems(s, [w, x, y, z], mk, unit) == ScanNodes(ScanItems(s, [w, x, y], mk, unit), Descendants(z), mk, unit)
  {
    assert [w, x, y, z][..3] == [w, x, y];
  }

  // The four kinds of text-bearing element.
  function Title(text: string): Node { Leaf("topo__titulo", text) }
  function Value(text: string): Node { Leaf("topo__valor", text) }
  function Name(text: string): Node { Leaf("lista__nome", text) }
  function Cell(text: string): Node { Leaf("lista__valor", text) }

  /** The line a pair of non-blank texts produces as line `linha`. */
  function Pair(linha: int, unit: int, key: string, value: string): Entry
  {
    Emit(linha, unit, Trim(key), Trim(value))
  }

  lemma OneWrapper(x: Node, y: Node)
    requires x.children == [] && y.children == [] && x.tag == "p" && y.tag == "p"
    ensures Forest([Box([x, y])]) == [Box([x, y]), x, y]
    ensures Unmarked(Forest([Box([x, y])]))
  {
    ForestCons(y, []);
    ForestCons(x, [y]);
    ForestCons(Box([x, y]), []);
  }

  /** Scanning a pair one wrapper deep from empty registers emits it once. */
  lemma WrappedPairScan(s: Scan, x: Node, y: Node, mk: Markers, unit: int)
    requires s.chave == "" && s.valor == ""
    requires x.children == [] && y.children == []
    requires x.cls == Some(mk.keyClass) && y.cls == Some(mk.valueClass) && mk.keyClass != mk.valueClass
    requires !IsNullOrWhiteSpace(x.text) && !IsNullOrWhiteSpace(y.text)
    ensures ScanItems(s, [Box([x, y]), x, y], mk, unit) ==
      Scan("", "", s.contador + 1, s.entries + [Pair(s.contador + 1, unit, x.text, y.text)])
  {
    var w := Box([x, y]);
    Shown(x.text);
    Shown(y.text);
    ForestCons(y, []);
    ForestCons(x, [y]);
    Nodes2(s, x, y, mk, unit);
    Items1(s, w, mk, unit);
    Items2(s, w, x, mk, unit);
    Items3(s, w, x, y, mk, unit);
  }

  lemma SummaryAndTableScan(unit: int, nome: string, tk: string, tv: string, ak: string, av: string)
    requires !IsNullOrWhiteSpace(tk) && !IsNullOrWhiteSpace(tv) && !IsNullOrWhiteSpace(ak) && !IsNullOrWhiteSpace(av)
    ensures Unmarked(Forest([Box([Title(tk), Value(tv)])])) && Unmarked(Forest([Box([Name(ak), Cell(av)])]))
    ensures ScanItems(ScanItems(Start(unit, nome), Forest([Box([Title(tk), Value(tv)])]), Topo, unit), Forest([Box([Name(ak), Cell(av)])]), Lista, unit).entries
      == [NameLine(unit, nome), Pair(2, unit, tk, tv), Pair(3, unit, ak, av)]
  {
    OneWrapper(Title(tk), Value(tv));
    OneWrapper(Name(ak), Cell(av));
    var start := Start(unit, nome);
    WrappedPairScan(start, Title(tk), Value(tv), Topo, unit);
    var pop := Scan("", "", 2, start.entries + [Pair(2, unit, tk, tv)]);
    WrappedPairScan(pop, Name(ak), Cell(av), Lista, unit);
  }

  /**
   * The usual layout: the summary pair sits one wrapper below the summary
   * block and the table pair in a row of the table. The page yields the
   * name line, then the summary pair, then the table pair.
   */
  lemma SummaryAndTable(unit: int, nome: string, tk: string, tv: string, ak: string, av: string)
    requires !IsNullOrWhiteSpace(tk) && !IsNullOrWhiteSpace(tv) && !IsNullOrWhiteSpace(ak) && !IsNullOrWhiteSpace(av)
    ensures Extracted(Page([Box([Title(tk), Value(tv)])], [Box([Name(ak), Cell(av)])]), unit, nome) ==
      Ok([NameLine(unit, nome), Pair(2, unit, tk, tv), Pair(3, unit, ak, av)])
  {
    SummaryAndTableScan(unit, nome, tk, tv, ak, av);
    PageExtracted([Box([Title(tk), Value(tv)])], [Box([Name(ak), Cell(av)])], unit, nome);
  }

  /**
   * A pair placed directly under the summary block is never seen: the
   * outer loop walks the block's descendants and the inner loop only their
   * descendants, so direct children are skipped. Only the name line remains.
   */
  lemma ShallowPairSkipped(unit: int, nome: string, tk: string, tv: string)
    ensures Extracted(Page([Title(tk), Value(tv)], []), unit, nome) == Ok([NameLine(unit, nome)])
  {
    var t, v := Title(tk), Value(tv);
    ForestCons(v, []);
    ForestCons(t, [v]);
    assert Forest([t, v]) == [t, v];
    PageExtracted([t, v], [], unit, nome);
    var start := Start(unit, nome);
    Items1(start, t, Topo, unit);
    Items2(start, t, v, Topo, unit);
  }

  lemma TwoWrappers(x: Node, y: Node)
    requires x.children == [] && y.children == [] && x.tag == "p" && y.tag == "p"
    ensures Forest([Box([Box([x, y])])]) == [Box([Box([x, y])]), Box([x, y]), x, y]
    ensures Unmarked(Forest([Box([Box([x, y])])]))
  {
    ForestCons(y, []);
    ForestCons(x, [y]);
    ForestCons(Box([x, y]), []);
    ForestCons(Box([Box([x, y])]), []);
  }

  /** A key element followed by a value element, from a clean scan, emits one line. */
  lemma VisitPair(s: Scan, x: Node, y: Node, mk: Markers, unit: int)
    requires s.chave == "" && s.valor == ""
    requires x.cls == Some(mk.keyClass) && y.cls == Some(mk.valueClass) && mk.keyClass != mk.valueClass
    requires !IsNullOrWhiteSpace(x.text) && !IsNullOrWhiteSpace(y.text)
    ensures Visit(Visit(s, x, mk, unit), y, mk, unit) ==
      Scan("", "", s.contador + 1, s.entries + [Pair(s.contador + 1, unit, x.text, y.text)])
  {
    Shown(x.text);
    Shown(y.text);
  }

  /** From the outer wrapper the pair is reached once, through the inner wrapper. */
  lemma DeepOuter(s: Scan, x: Node, y: Node, mk: Markers, unit: int)
    requires s.chave == "" && s.valor == ""
    requires x.children == [] && y.children == []
    requires x.cls == Some(mk.keyClass) && y.cls == Some(mk.valueClass) && mk.keyClass != mk.valueClass
    requires !IsNullOrWhiteSpace(x.text) && !IsNullOrWhiteSpace(y.text)
    ensures ScanItems(s, [Box([Box([x, y])])], mk, unit) ==
      Scan("", "", s.contador + 1, s.entries + [Pair(s.contador + 1, unit, x.text, y.text)])
  {
    var inner := Box([x, y]);
    ForestCons(y, []);
    ForestCons(x, [y]);
    ForestCons(inner, []);
    assert Descendants(Box([inner])) == [inner, x, y];
    Nodes3(s, inner, x, y, mk, unit);
    assert Visit(s, inner, mk, unit) == s;
    VisitPair(s, x, y, mk, unit);
    Items1(s, Box([inner]), mk, unit);
  }

  /** From the outer wrapper the pair is reached through the inner wrapper, and from the inner wrapper once more. */
  lemma DeepScan(s: Scan, x: Node, y: Node, mk: Markers, unit: int)
    requires s.chave == "" && s.valor == ""
    requires x.children == [] && y.children == []
    requires x.cls == Some(mk.keyClass) && y.cls == Some(mk.valueClass) && mk.keyClass != mk.valueClass
    requires !IsNullOrWhiteSpace(x.text) && !IsNullOrWhiteSpace(y.text)
    ensures ScanItems(s, [Box([Box([x, y])]), Box([x, y]), x, y], mk, unit) ==
      Scan("", "", s.contador + 2, s.entries + [Pair(s.contador + 1, unit, x.text, y.text), Pair(s.contador + 2, unit, x.text, y.text)])
  {
    var inner := Box([x, y]);
    var outer := Box([inner]);
    var once := Scan("", "", s.contador + 1, s.entries + [Pair(s.contador + 1, unit, x.text, y.text)]);
    var twice := Scan("", "", s.contador + 2, s.entries + [Pair(s.contador + 1, unit, x.text, y.text), Pair(s.contador + 2, unit, x.text, y.text)]);
    DeepOuter(s, x, y, mk, unit);
    ForestCons(y, []);
    ForestCons(x, [y]);
    Nodes2(once, x, y, mk, unit);
    VisitPair(once, x, y, mk, unit);
    assert once.entries + [Pair(s.contador + 2, unit, x.text, y.text)] == twice.entries;
    Items2(s, outer, inner, mk, unit);
    assert ScanItems(s, [outer, inner], mk, unit) == twice;
    Items3(s, outer, inner, x, mk, unit);
    Items4(s, outer, inner, x, y, mk, unit);
  }

  lemma DeepPairScan(unit: int, nome: string, tk: string, tv: string)
    requires !IsNullOrWhiteSpace(tk) && !IsNullOrWhiteSpace(tv)
    ensures Unmarked(Forest([Box([Box([Title(tk), Value(tv)])])])) && Unmarked(Forest([]))
    ensures ScanItems(ScanItems(Start(unit, nome), Forest([Box([Box([Title(tk), Value(tv)])])]), Topo, unit), Forest([]), Lista, unit).entries
      == [NameLine(unit, nome), Pair(2, unit, tk, tv), Pair(3, unit, tk, tv)]
  {
    TwoWrappers(Title(tk), Value(tv));
    DeepScan(Start(unit, nome), Title(tk), Value(tv), Topo, unit);
  }

  /**
   * A pair two wrappers below the summary block is reached once from each
   * wrapper, so it is emitted twice, as lines 2 and 3.
   */
  lemma DeepPairTwice(unit: int, nome: string, tk: string, tv: string)
    requires !IsNullOrWhiteSpace(tk) && !IsNullOrWhiteSpace(tv)
    ensures Extracted(Page([Box([Box([Title(tk), Value(tv)])])], []), unit, nome) ==
      Ok([NameLine(unit, nome), Pair(2, unit, tk, tv), Pair(3, unit, tk, tv)])
  {
    DeepPairScan(unit, nome, tk, tv);
    PageExtracted([Box([Box([Title(tk), Value(tv)])])], [], unit, nome);
  }

  lemma Wrapped(x: Node)
    requires x.children == [] && x.tag == "p"
    ensures Forest([Box([x])]) == [Box([x]), x]
    ensures Unmarked(Forest([Box([x])]))
  {
    ForestCons(x, []);
    ForestCons(Box([x]), []);
  }

  /** A single text-bearing element one wrapper deep is visited once. */
  lemma WrappedScan(s: Scan, x: Node, mk: Markers, unit: int)
    requires x.children == []
    ensures ScanItems(s, [Box([x]), x], mk, unit) == Visit(s, x, mk, unit)
  {
    var w := Box([x]);
    ForestCons(x, []);
    Nodes1(s, x, mk, unit);
    Items1(s, w, mk, unit);
    Items2(s, w, x, mk, unit);
  }

  lemma CarryScan(unit: int, nome: string, tk: string, av: string)
    requires !IsNullOrWhiteSpace(tk) && !IsNullOrWhiteSpace(av)
    ensures Unmarked(Forest([Box([Title(tk)])])) && Unmarked(Forest([Box([Cell(av)])]))
    ensures ScanItems(ScanItems(Start(unit, nome), Forest([Box([Title(tk)])]), Topo, unit), Forest([Box([Cell(av)])]), Lista, unit).entries
      == [NameLine(unit, nome), Pair(2, unit, tk, av)]
  {
    Wrapped(Title(tk));
    Wrapped(Cell(av));
    Shown(tk);
    Shown(av);
    var start := Start(unit, nome);
    var pending := Scan(Trim(tk), "", 1, start.entries);
    WrappedScan(start, Title(tk), Topo, unit);
    assert Visit(start, Title(tk), Topo, unit) == pending;
    WrappedScan(pending, Cell(av), Lista, unit);
  }

  /**
   * The registers are not cleared between the summary block and the
   * tables: a summary key left without a value pairs with the first value
   * found in a table row.
   */
  lemma RegistersCarryOver(unit: int, nome: string, tk: string, av: string)
    requires !IsNullOrWhiteSpace(tk) && !IsNullOrWhiteSpace(av)
    ensures Extracted(Page([Box([Title(tk)])], [Box([Cell(av)])]), unit, nome) ==
      Ok([NameLine(unit, nome), Pair(2, unit, tk, av)])
  {
    CarryScan(unit, nome, tk, av);
    PageExtracted([Box([Title(tk)])], [Box([Cell(av)])], unit, nome);
  }
}
