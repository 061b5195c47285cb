/**
 * The program's entry point without its I/O: resolve the fixed root package
 * for the fixed target framework into a fresh package set, then write the
 * DGML document titled with the root package id.
 */
module Program {
  import opened Wrappers
  import opened Packages
  import opened PackageSets
  import opened Resolution
  import opened ResolutionProperties
  import opened Resolver
  import opened Dgml

  const RootPackageId: string := "cake.nuget"
  const RootVersion: Version := "0.30.0"
  const TargetFramework: Framework := "net46"

  /** The package whose dependency graph is drawn. */
  const Root: Identity := Identity(RootPackageId, RootVersion)

  /** Resolves the root's graph into an empty set, then writes it out. */
  method Run(sources: seq<Source>, ghost universe: set<Identity>) returns (lines: seq<Line>)
    requires WellBehaved(sources, TargetFramework, universe) && Key(Root) in universe
    ensures lines == Document(RootPackageId, Resolve(sources, TargetFramework, universe, Root))
  {
    var availablePackages := new PackageSet();
    GetPackageDependencies(Root, TargetFramework, sources, availablePackages, universe);
    lines := WriteGraph(RootPackageId, availablePackages);
  }

  /**
   * When no source knows the root, the document is the empty graph; otherwise
   * it holds the node of the first source's answer for the root.
   */
  lemma RootNode(sources: seq<Source>, universe: set<Identity>)
    requires WellBehaved(sources, TargetFramework, universe) && Key(Root) in universe
    ensures var d := Document(RootPackageId, Resolve(sources, TargetFramework, universe, Root));
      && (Winner(sources, Key(Root), TargetFramework).None? ==>
            d == [XmlDeclaration, GraphOpen(RootPackageId), NodesOpen, NodesClose,
                  LinksOpen, LinksClose, GraphClose])
      && (Winner(sources, Key(Root), TargetFramework).Some? ==>
            NodeOf(Winner(sources, Key(Root), TargetFramework).value) in d)
  {
    var es := Resolve(sources, TargetFramework, universe, Root);
    var w := Winner(sources, Key(Root), TargetFramework);
    if w.None? {
      VisitUnknown(sources, TargetFramework, universe, Root, []);
    } else {
      ResolveCorrect(sources, TargetFramework, universe, Root);
      var i :| 0 <= i < |es| && Key(es[i].identity) == Key(Root);
      assert es[i] == w.value;
      NodeLinesSpec(es);
      DocumentShape(RootPackageId, es);
      assert Document(RootPackageId, es)[3 + i] == NodeOf(w.value);
    }
  }

  /**
   * Every declared dependency of every drawn package is a link; its target
   * (at the range's minimum version) is a resolved package too, unless no
   * source knows it, in which case the link points at a missing node.
   */
  lemma LinksResolved(sources: seq<Source>, universe: set<Identity>, e: Info, dep: Dependency)
    requires WellBehaved(sources, TargetFramework, universe) && Key(Root) in universe
    requires e in Resolve(sources, TargetFramework, universe, Root) && dep in e.deps
    ensures Link(e.identity.id, dep.id) in Document(RootPackageId, Resolve(sources, TargetFramework, universe, Root))
    ensures Key(Target(dep)) in KeysOf(Resolve(sources, TargetFramework, universe, Root))
            || forall i :: 0 <= i < |sources| ==> sources[i](Key(Target(dep)), TargetFramework).None?
  {
    var es := Resolve(sources, TargetFramework, universe, Root);
    ResolveCorrect(sources, TargetFramework, universe, Root);
    var i :| 0 <= i < |es| && es[i] == e;
    var j :| 0 <= j < |e.deps| && e.deps[j] == dep;
    LinkLinesMembers(es, e.identity.id, dep.id);
    assert Link(e.identity.id, dep.id) in LinkLines(es);
    var k := Key(e.identity);
    assert Expanded(sources, TargetFramework, k, es);
    var s :| 0 <= s < |sources| && sources[s](k, TargetFramework) == Some(e);
    assert DepsResolved(sources, TargetFramework, sources[s](k, TargetFramework).value.deps, es);
    assert Resolved(sources, TargetFramework, Target(dep), es);
  }
}
