/**
 * The DGML document the program writes once resolution is done: a header
 * naming the root package, one node per resolved package, then one link per
 * declared dependency of each resolved package. Each line is a record of the
 * values interpolated into it.
 */
module Dgml {
  import opened Packages
  import opened PackageSets

  /** One line of the output file. */
  datatype Line =
    | XmlDeclaration
    | GraphOpen(title: string)
    | NodesOpen
    | Node(id: string, caption: string)
    | NodesClose
    | LinksOpen
    | Link(source: string, target: string)
    | LinksClose
    | GraphClose

  /** The node of a resolved package: its id is both the node's id and its label. */
  function NodeOf(e: Info): Line
  {
    Node(e.identity.id, e.identity.id)
  }

  /** The node lines, one per entry in set order. */
  function NodeLines(es: seq<Info>): seq<Line>
  {
    if es == [] then [] else NodeLines(es[..|es| - 1]) + [NodeOf(es[|es| - 1])]
  }

  /** The links from `source` to each declared dependency's id, in declaration order. */
  function DepLinks(source: string, deps: seq<Dependency>): seq<Line>
  {
    if deps == [] then [] else DepLinks(source, deps[..|deps| - 1]) + [Link(source, deps[|deps| - 1].id)]
  }

  /** The link lines: for each entry in set order, the links of its declared dependencies. */
  function LinkLines(es: seq<Info>): seq<Line>
  {
    if es == [] then []
    else
      var e := es[|es| - 1];
      LinkLines(es[..|es| - 1]) + DepLinks(e.identity.id, e.deps)
  }

  /** The number of declared dependencies over all entries. */
  function DepCount(es: seq<Info>): nat
  {
    if es == [] then 0 else DepCount(es[..|es| - 1]) + |es[|es| - 1].deps|
  }

  function Header(title: string): seq<Line>
  {
    [XmlDeclaration, GraphOpen(title), NodesOpen]
  }

  /** The whole document for the entries `es` under the graph title `title`. */
  function Document(title: string, es: seq<Info>): seq<Line>
  {
    Header(title) + NodeLines(es) + [NodesClose, LinksOpen] + LinkLines(es) + [LinksClose, GraphClose]
  }

  /**
   * Writes the document for the packages in `available`: the header, a node
   * per package, then for each package a link per declared dependency.
   */
  method WriteGraph(title: string, available: PackageSet) returns (lines: seq<Line>)
    ensures lines == Document(title, available.entries)
  {
    var packages := available.entries;
    lines := Header(title);
    for k := 0 to |packages|
      invariant lines == Header(title) + NodeLines(packages[..k])
    {
      var pac := packages[k];
      NodeLinesStep(packages, k);
      lines := lines + [Node(pac.identity.id, pac.identity.id)];
    }
    lines := lines + [NodesClose, LinksOpen];
    ghost var prefix := lines;
    for k := 0 to |packages|
      invariant lines == prefix + LinkLines(packages[..k])
    {
      var pac := packages[k];
      ghost var before := lines;
      for m := 0 to |pac.deps|
        invariant lines == before + DepLinks(pac.identity.id, pac.deps[..m])
      {
        var dep := pac.deps[m];
        DepLinksStep(pac.identity.id, pac.deps, m);
        lines := lines + [Link(pac.identity.id, dep.id)];
      }
      LinkLinesStep(packages, k);
    }
    lines := lines + [LinksClose, GraphClose];
    assert packages[..|packages|] == packages;
  }

  lemma NodeLinesStep(es: seq<Info>, k: nat)
    requires k < |es|
    ensures NodeLines(es[..k + 1]) == NodeLines(es[..k]) + [Node(es[k].identity.id, es[k].identity.id)]
  {
    assert es[..k + 1][..k] == es[..k];
  }

  lemma DepLinksStep(source: string, deps: seq<Dependency>, m: nat)
    requires m < |deps|
    ensures DepLinks(source, deps[..m + 1]) == DepLinks(source, deps[..m]) + [Link(source, deps[m].id)]
  {
    assert deps[..m + 1][..m] == deps[..m];
  }

  lemma LinkLinesStep(es: seq<Info>, k: nat)
    requires k < |es|
    ensures LinkLines(es[..k + 1]) == LinkLines(es[..k]) + DepLinks(es[k].identity.id, es[k].deps[..|es[k].deps|])
  {
    assert es[..k + 1][..k] == es[..k];
    assert es[k].deps[..|es[k].deps|] == es[k].deps;
  }

  /** There is exactly one node line per entry, in order, labelled with the entry's id. */
  lemma {:induction false} NodeLinesSpec(es: seq<Info>)
    ensures |NodeLines(es)| == |es|
    ensures forall i :: 0 <= i < |es| ==> NodeLines(es)[i] == Node(es[i].identity.id, es[i].identity.id)
  {
    if es != [] {
      NodeLinesSpec(es[..|es| - 1]);
    }
  }

  /** One entry's links: one per declared dependency, in order, from the entry's id. */
  lemma {:induction false} DepLinksSpec(source: string, deps: seq<Dependency>)
    ensures |DepLinks(source, deps)| == |deps|
    ensures forall j :: 0 <= j < |deps| ==> DepLinks(source, deps)[j] == Link(source, deps[j].id)
  {
    if deps != [] {
      DepLinksSpec(source, deps[..|deps| - 1]);
    }
  }

  /** There are exactly as many link lines as declared dependencies, and nothing else. */
  lemma {:induction false} LinkLinesCount(es: seq<Info>)
    ensures |LinkLines(es)| == DepCount(es)
    ensures forall l :: l in LinkLines(es) ==> l.Link?
  {
    if es != [] {
      var e := es[|es| - 1];
      LinkLinesCount(es[..|es| - 1]);
      DepLinksSpec(e.identity.id, e.deps);
    }
  }

  /**
   * A link line is present exactly when some entry declares a dependency with
   * that target id; targets are never checked against the nodes.
   */
  lemma LinkLinesMembers(es: seq<Info>, source: string, target: string)
    ensures Link(source, target) in LinkLines(es)
            <==> exists i, j :: 0 <= i < |es| && 0 <= j < |es[i].deps|
                                && source == es[i].identity.id && target == es[i].deps[j].id
  {
    if Link(source, target) in LinkLines(es) {
      LinkFrom(es, Link(source, target));
    }
    if exists i, j :: 0 <= i < |es| && 0 <= j < |es[i].deps|
                      && source == es[i].identity.id && target == es[i].deps[j].id {
      var i, j :| 0 <= i < |es| && 0 <= j < |es[i].deps|
                  && source == es[i].identity.id && target == es[i].deps[j].id;
      LinkTo(es, i, j);
    }
  }

  /** Each declared dependency has its link. */
  lemma {:induction false} LinkTo(es: seq<Info>, i: nat, j: nat)
    requires i < |es| && j < |es[i].deps|
    ensures Link(es[i].identity.id, es[i].deps[j].id) in LinkLines(es)
  {
    var n := |es| - 1;
    if i == n {
      DepLinksSpec(es[n].identity.id, es[n].deps);
      assert DepLinks(es[n].identity.id, es[n].deps)[j] == Link(es[i].identity.id, es[i].deps[j].id);
    } else {
      assert es[..n][i] == es[i];
      LinkTo(es[..n], i, j);
    }
  }

  /** Each link comes from a declared dependency. */
  lemma {:induction false} LinkFrom(es: seq<Info>, l: Line)
    requires l in LinkLines(es)
    ensures exists i, j :: 0 <= i < |es| && 0 <= j < |es[i].deps|
                           && l == Link(es[i].identity.id, es[i].deps[j].id)
  {
    var n := |es| - 1;
    var e := es[n];
    if l in LinkLines(es[..n]) {
      LinkFrom(es[..n], l);
      var i, j :| 0 <= i < n && 0 <= j < |es[..n][i].deps|
                  && l == Link(es[..n][i].identity.id, es[..n][i].deps[j].id);
      assert es[i] == es[..n][i];
    } else {
      DepLinksSpec(e.identity.id, e.deps);
      var j :| 0 <= j < |e.deps| && DepLinks(e.identity.id, e.deps)[j] == l;
      assert l == Link(es[n].identity.id, es[n].deps[j].id);
    }
  }

  /** Where each part of the document sits. */
  lemma DocumentAt(title: string, es: seq<Info>, i: nat)
    requires |NodeLines(es)| == |es| && i < |Document(title, es)|
    ensures var d, n, links := Document(title, es), |es|, LinkLines(es);
      && (i < 3 ==> d[i] == Header(title)[i])
      && (3 <= i < n + 3 ==> d[i] == NodeLines(es)[i - 3])
      && (n + 3 <= i < n + 5 ==> d[i] == [NodesClose, LinksOpen][i - n - 3])
      && (n + 5 <= i < n + 5 + |links| ==> d[i] == links[i - n - 5])
      && (n + 5 + |links| <= i ==> d[i] == [LinksClose, GraphClose][i - n - 5 - |links|])
  {
  }

  /**
   * The document is titled with `title`, has one line per entry and per
   * declared dependency plus seven fixed lines, and its node lines are the
   * entries' nodes, in order, at positions 3 .. 3 + |es|.
   */
  lemma DocumentShape(title: string, es: seq<Info>)
    ensures var d := Document(title, es);
      && |d| == |es| + DepCount(es) + 7
      && d[0] == XmlDeclaration && d[1] == GraphOpen(title) && d[|d| - 1] == GraphClose
      && (forall i :: 0 <= i < |es| ==> d[3 + i] == Node(es[i].identity.id, es[i].identity.id))
  {
    NodeLinesSpec(es);
    LinkLinesCount(es);
    forall i | 0 <= i < |es|
      ensures Document(title, es)[3 + i] == Node(es[i].identity.id, es[i].identity.id)
    {
      DocumentAt(title, es, 3 + i);
    }
  }

  /** Every node line precedes every link line. */
  lemma DocumentOrder(title: string, es: seq<Info>)
    ensures var d := Document(title, es);
      forall i, j :: 0 <= i < |d| && 0 <= j < |d| && d[i].Node? && d[j].Link? ==> i < j
  {
    var d, n, links := Document(title, es), |es|, LinkLines(es);
    NodeLinesSpec(es);
    LinkLinesCount(es);
    forall i | 0 <= i < |d|
      ensures d[i].Node? ==> i < n + 3
    {
      DocumentAt(title, es, i);
      if n + 5 <= i < n + 5 + |links| {
        assert links[i - n - 5] in links;
      }
    }
    forall j | 0 <= j < |d|
      ensures d[j].Link? ==> n + 5 <= j
    {
      DocumentAt(title, es, j);
    }
  }
}
