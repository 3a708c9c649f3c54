/**
 * The document tree that HtmlAgilityPack builds from a detail page, and the
 * three navigation primitives the extractor uses: `Descendants()` of a node,
 * `Descendants()` of a node collection, and `SelectNodes("//tag[@class='c']")`.
 */
module Html {
  import opened Wrappers

  /**
   * One node: its tag name, the value of its `class` attribute when it has
   * one, its `InnerText` (taken as given) and its children in document order.
   */
  datatype Node = Node(tag: string, cls: Option<string>, text: string, children: seq<Node>)

  /** The pre-order listing of every node of the trees in `ns`, roots included. */
  function Forest(ns: seq<Node>): (r: seq<Node>)
    ensures |r| >= |ns|
    ensures forall n :: n in ns ==> n in r
    decreases ns
  {
    if ns == [] then [] else [ns[0]] + Forest(ns[0].children) + Forest(ns[1..])
  }

  /** `HtmlNode.Descendants()`: every node below `n` in pre-order, `n` itself excluded. */
  function Descendants(n: Node): seq<Node>
  {
    Forest(n.children)
  }

  /** `IEnumerable<HtmlNode>.Descendants()`: the descendants of each node of `ns`, one node after the other. */
  function DescendantsAll(ns: seq<Node>): seq<Node>
  {
    if ns == [] then [] else Descendants(ns[0]) + DescendantsAll(ns[1..])
  }

  /** The node carries exactly this tag and this whole `class` attribute. */
  predicate Matches(n: Node, tag: string, cls: string)
  {
    n.tag == tag && n.cls == Some(cls)
  }

  function FilterMatching(ns: seq<Node>, tag: string, cls: string): (r: seq<Node>)
    ensures forall n :: n in r <==> n in ns && Matches(n, tag, cls)
  {
    if ns == [] then []
    else (if Matches(ns[0], tag, cls) then [ns[0]] else []) + FilterMatching(ns[1..], tag, cls)
  }

  /**
   * `doc.DocumentNode.SelectNodes("//tag[@class='cls']")`: the matching nodes
   * below the document node, in document order, or `None` (null) when there
   * are none.
   */
  function SelectNodes(doc: Node, tag: string, cls: string): Option<seq<Node>>
  {
    var hits := FilterMatching(Descendants(doc), tag, cls);
    if hits == [] then None else Some(hits)
  }

  /** `SelectNodes` is null exactly when no node matches, and otherwise lists exactly the matching nodes. */
  lemma SelectNodesSpec(doc: Node, tag: string, cls: string)
    ensures var r := SelectNodes(doc, tag, cls);
      && (r.None? <==> forall n :: n in Descendants(doc) ==> !Matches(n, tag, cls))
      && (r.Some? ==> r.value != [] && forall n :: n in r.value <==> n in Descendants(doc) && Matches(n, tag, cls))
  {
    var hits := FilterMatching(Descendants(doc), tag, cls);
    assert hits != [] ==> hits[0] in hits;
  }

  /** Membership in a forest: a node is one of the roots or lies below one of them. */
  lemma {:induction false} InForest(x: Node, ns: seq<Node>)
    ensures x in Forest(ns) <==> exists c :: c in ns && (x == c || x in Descendants(c))
    decreases ns
  {
    if ns != [] {
      InForest(x, ns[1..]);
      assert Forest(ns) == [ns[0]] + Descendants(ns[0]) + Forest(ns[1..]);
      assert forall c :: c in ns <==> c == ns[0] || c in ns[1..];
      if x in Forest(ns[1..]) {
        var c :| c in ns[1..] && (x == c || x in Descendants(c));
        assert c in ns;
      }
    }
  }

  /** Below-ness is transitive. */
  lemma {:induction false} DescendantTransitive(x: Node, d: Node, n: Node)
    requires d in Descendants(n) && x in Descendants(d)
    ensures x in Descendants(n)
    decreases n
  {
    InForest(d, n.children);
    var c :| c in n.children && (d == c || d in Descendants(c));
    InForest(x, n.children);
    if d != c {
      DescendantTransitive(x, d, c);
    }
  }

  lemma {:induction false} InDescendantsAll(x: Node, ns: seq<Node>)
    ensures x in DescendantsAll(ns) <==> exists m :: m in ns && x in Descendants(m)
  {
    if ns != [] {
      InDescendantsAll(x, ns[1..]);
      assert forall m :: m in ns <==> m == ns[0] || m in ns[1..];
    }
  }

  /** The nodes the extractor's doubly nested loop visits under the nodes `ns`. */
  function NestedVisits(ns: seq<Node>): seq<Node>
  {
    var items := DescendantsAll(ns);
    DescendantsAll(items)
  }

  /**
   * The doubly nested `Descendants()` loop never reaches a child of a matched
   * node: everything it visits lies at least two levels below that node.
   */
  lemma NestedVisitsSkipChildren(x: Node, ns: seq<Node>)
    requires x in NestedVisits(ns)
    ensures exists m, c :: m in ns && c in m.children && x in Descendants(c)
  {
    InDescendantsAll(x, DescendantsAll(ns));
    var d :| d in DescendantsAll(ns) && x in Descendants(d);
    InDescendantsAll(d, ns);
    var m :| m in ns && d in Descendants(m);
    InForest(d, m.children);
    var c :| c in m.children && (d == c || d in Descendants(c));
    if d != c {
      DescendantTransitive(x, d, c);
    }
  }

  /** Conversely, every node at least two levels below a matched node is visited. */
  lemma NestedVisitsReachGrandchildren(x: Node, m: Node, c: Node, ns: seq<Node>)
    requires m in ns && c in m.children && x in Descendants(c)
    ensures x in NestedVisits(ns)
  {
    InForest(c, m.children);
    InDescendantsAll(c, ns);
    InDescendantsAll(x, DescendantsAll(ns));
  }

  /** `DescendantsAll` of a concatenation is the concatenation of their `DescendantsAll`. */
  lemma {:induction false} DescendantsAllAppend(a: seq<Node>, b: seq<Node>)
    ensures DescendantsAll(a + b) == DescendantsAll(a) + DescendantsAll(b)
  {
    if a == [] {
      assert a + b == b;
    } else {
      assert (a + b)[0] == a[0] && (a + b)[1..] == a[1..] + b;
      DescendantsAllAppend(a[1..], b);
      var d, r, q := Descendants(a[0]), DescendantsAll(a[1..]), DescendantsAll(b);
      assert d + (r + q) == (d + r) + q;
    }
  }

  /** `DescendantsAll` of a list is that of all but the last, followed by the last one's descendants. */
  lemma DescendantsAllSnoc(items: seq<Node>)
    requires items != []
    ensures DescendantsAll(items) == DescendantsAll(items[..|items| - 1]) + Descendants(items[|items| - 1])
  {
    var init, last := items[..|items| - 1], items[|items| - 1];
    assert items == init + [last];
    DescendantsAllAppend(init, [last]);
    assert DescendantsAll([last]) == Descendants(last) by {
      assert [last][1..] == [];
    }
  }

  /** Each node of `a` is a child of the one before it: a path down the tree. */
  predicate ChildChain(a: seq<Node>)
  {
    forall i :: 0 <= i < |a| - 1 ==> a[i + 1] in a[i].children
  }

  /** No node value occurs twice in the listing. */
  ghost predicate NoRepeats(ns: seq<Node>)
  {
    forall n :: multiset(ns)[n] <= 1
  }

  /** The nodes the doubly nested loop visits under the trees `ns`, with their roots among the outer items. */
  function Visits(ns: seq<Node>): seq<Node>
  {
    DescendantsAll(Forest(ns))
  }

  /** The visits under a forest: those under its first tree's root, those further down that tree, and those under the other trees. */
  lemma VisitsCons(ns: seq<Node>)
    requires ns != []
    ensures Visits(ns) == Forest(ns[0].children) + Visits(ns[0].children) + Visits(ns[1..])
  {
    var t, below, rest := ns[0], Forest(ns[0].children), Forest(ns[1..]);
    assert Forest(ns) == [t] + (below + rest);
    DescendantsAllAppend([t], below + rest);
    DescendantsAllAppend(below, rest);
    assert DescendantsAll([t]) == below by {
      assert [t][1..] == [];
    }
    var v, w := DescendantsAll(below), DescendantsAll(rest);
    assert Visits(ns[0].children) == v && Visits(ns[1..]) == w;
    assert below + (v + w) == below + v + w;
  }

  /** Every node reached along a path from a root of `ns` is in the forest's listing. */
  lemma {:induction false} ChainInForest(ns: seq<Node>, a: seq<Node>)
    requires a != [] && a[0] in ns && ChildChain(a)
    ensures a[|a| - 1] in Forest(ns)
    decreases ns
  {
    var t := ns[0];
    assert Forest(ns) == [t] + Forest(t.children) + Forest(ns[1..]);
    if a[0] == t {
      if |a| > 1 {
        assert ChildChain(a[1..]) by {
          forall i | 0 <= i < |a[1..]| - 1 ensures a[1..][i + 1] in a[1..][i].children {
            assert a[1..][i + 1] == a[i + 2] && a[1..][i] == a[i + 1];
          }
        }
        ChainInForest(t.children, a[1..]);
      }
    } else {
      assert a[0] in ns[1..];
      ChainInForest(ns[1..], a);
    }
  }

  /** The visits under a forest never leave it. */
  lemma {:induction false} VisitsInForest(x: Node, ns: seq<Node>)
    requires x in Visits(ns)
    ensures x in Forest(ns)
    decreases ns
  {
    VisitsCons(ns);
    var t := ns[0];
    assert Forest(ns) == [t] + Forest(t.children) + Forest(ns[1..]);
    if x in Visits(t.children) {
      VisitsInForest(x, t.children);
    } else if x in Visits(ns[1..]) {
      VisitsInForest(x, ns[1..]);
    }
  }

  /** A path without its first node is still a path, ending at the same node. */
  lemma ChainTail(a: seq<Node>)
    requires |a| > 1 && ChildChain(a)
    ensures ChildChain(a[1..]) && a[1..][0] == a[1] && a[1..][|a| - 2] == a[|a| - 1]
  {
    var b := a[1..];
    forall i | 0 <= i < |b| - 1
      ensures b[i + 1] in b[i].children
    {
      assert b[i + 1] == a[i + 2] && b[i] == a[i + 1];
    }
  }

  /** How often `x` occurs in a forest's listing and in the visits under it, split at the first tree. */
  lemma CountCons(ns: seq<Node>, x: Node)
    requires ns != []
    ensures multiset(Forest(ns))[x] == multiset([ns[0]])[x] + multiset(Forest(ns[0].children))[x] + multiset(Forest(ns[1..]))[x]
    ensures multiset(Visits(ns))[x] == multiset(Forest(ns[0].children))[x] + multiset(Visits(ns[0].children))[x] + multiset(Visits(ns[1..]))[x]
  {
    VisitsCons(ns);
    assert Forest(ns) == [ns[0]] + Forest(ns[0].children) + Forest(ns[1..]);
  }

  /** Both parts of a forest without repeats are without repeats. */
  lemma NoRepeatsParts(ns: seq<Node>)
    requires ns != [] && NoRepeats(Forest(ns))
    ensures NoRepeats(Forest(ns[0].children)) && NoRepeats(Forest(ns[1..]))
  {
    forall n
      ensures multiset(Forest(ns[0].children))[n] <= 1 && multiset(Forest(ns[1..]))[n] <= 1
    {
      CountCons(ns, n);
    }
  }

  /**
   * The doubly nested loop visits a node once for each of its proper
   * ancestors under the outer items: a node `j` levels below a root of `ns`
   * is visited at least `j` times, and exactly `j` times when no node value
   * repeats in the forest.
   */
  lemma VisitsCount(ns: seq<Node>, a: seq<Node>)
    requires a != [] && a[0] in ns && ChildChain(a)
    ensures multiset(Visits(ns))[a[|a| - 1]] >= |a| - 1
    ensures NoRepeats(Forest(ns)) ==> multiset(Visits(ns))[a[|a| - 1]] == |a| - 1
    decreases ns, 1
  {
    if a[0] != ns[0] {
      VisitsCountLater(ns, a);
    } else if |a| > 1 {
      VisitsCountBelow(ns, a);
    } else {
      VisitsCountRoot(ns, a[0]);
    }
  }

  /** The root of the first tree is visited only under the other trees, where a forest without repeats never lists it. */
  lemma VisitsCountRoot(ns: seq<Node>, x: Node)
    requires ns != [] && x == ns[0]
    ensures NoRepeats(Forest(ns)) ==> multiset(Visits(ns))[x] == 0
  {
    if NoRepeats(Forest(ns)) {
      var t := ns[0];
      CountCons(ns, x);
      assert multiset(Forest(ns))[x] <= 1 && multiset([t])[x] == 1;
      assert x !in Visits(t.children) by {
        if x in Visits(t.children) {
          VisitsInForest(x, t.children);
        }
      }
      assert x !in Visits(ns[1..]) by {
        if x in Visits(ns[1..]) {
          VisitsInForest(x, ns[1..]);
        }
      }
    }
  }

  /** A path that starts in the first tree and goes down: one visit under its root, the rest further down. */
  lemma VisitsCountBelow(ns: seq<Node>, a: seq<Node>)
    requires ns != [] && |a| > 1 && a[0] == ns[0] && ChildChain(a)
    ensures multiset(Visits(ns))[a[|a| - 1]] >= |a| - 1
    ensures NoRepeats(Forest(ns)) ==> multiset(Visits(ns))[a[|a| - 1]] == |a| - 1
    decreases ns, 0
  {
    var x, t, b := a[|a| - 1], ns[0], a[1..];
    ChainTail(a);
    CountCons(ns, x);
    VisitsCount(t.children, b);
    ChainInForest(t.children, b);
    if NoRepeats(Forest(ns)) {
      NoRepeatsParts(ns);
      assert multiset(Forest(ns))[x] <= 1;
      assert x !in Visits(ns[1..]) by {
        if x in Visits(ns[1..]) {
          VisitsInForest(x, ns[1..]);
        }
      }
    }
  }

  /** A path that starts in a later tree: nothing of it lies in the first tree. */
  lemma VisitsCountLater(ns: seq<Node>, a: seq<Node>)
    requires ns != [] && a != [] && a[0] in ns && a[0] != ns[0] && ChildChain(a)
    ensures multiset(Visits(ns))[a[|a| - 1]] >= |a| - 1
    ensures NoRepeats(Forest(ns)) ==> multiset(Visits(ns))[a[|a| - 1]] == |a| - 1
    decreases ns, 0
  {
    var x, t := a[|a| - 1], ns[0];
    assert a[0] in ns[1..];
    CountCons(ns, x);
    VisitsCount(ns[1..], a);
    ChainInForest(ns[1..], a);
    if NoRepeats(Forest(ns)) {
      NoRepeatsParts(ns);
      assert multiset(Forest(ns))[x] <= 1;
      assert x !in Visits(t.children) by {
        if x in Visits(t.children) {
          VisitsInForest(x, t.children);
        }
      }
    }
  }

  /**
   * The count for one matched node `m`: a node `k` levels below `m` is
   * examined by the doubly nested loop at least `k - 1` times, and exactly
   * `k - 1` times when no node value repeats below `m`. This is what makes a
   * pair that lies deep under a matched node emitted more than once.
   */
  lemma NestedVisitsCount(m: Node, a: seq<Node>)
    requires |a| >= 2 && a[0] == m && ChildChain(a)
    ensures multiset(NestedVisits([m]))[a[|a| - 1]] >= |a| - 2
    ensures NoRepeats(Descendants(m)) ==> multiset(NestedVisits([m]))[a[|a| - 1]] == |a| - 2
  {
    assert DescendantsAll([m]) == Descendants(m) by {
      assert [m][1..] == [];
    }
    var b := a[1..];
    assert ChildChain(b) by {
      forall i | 0 <= i < |b| - 1 ensures b[i + 1] in b[i].children {
        assert b[i + 1] == a[i + 2] && b[i] == a[i + 1];
      }
    }
    assert b[|b| - 1] == a[|a| - 1];
    VisitsCount(m.children, b);
  }
}
