/**
 * Small end-to-end runs worked out on the model: concrete sources, the
 * resolved set, and the document written from it. Sources answer on the
 * identity key, so an answer for `X` is found whatever the case of the id.
 */
module Scenarios {
  import opened Wrappers
  import opened Packages
  import opened Resolution
  import opened ResolutionProperties
  import opened Dgml

  const Fw: Framework := "net46"
  const X: Identity := Identity("X", "1.0.0")
  const Y: Identity := Identity("Y", "1.0.0")
  const Z: Identity := Identity("Z", "1.0.0")

  /** A dependency on `id` with a lower bound and no upper bound. */
  function AtLeast(id: string, v: Version): Dependency
  {
    Dependency(id, VersionRange(v, None))
  }

  lemma KeysDiffer(a: Identity, b: Identity)
    requires |a.id| > 0 && |b.id| > 0 && FoldChar(a.id[0]) != FoldChar(b.id[0])
    ensures Key(a) != Key(b)
  {
    assert Key(a).id[0] != Key(b).id[0];
  }

  lemma KeysXYZ()
    ensures Key(X) != Key(Y) && Key(Y) != Key(Z) && Key(X) != Key(Z)
  {
    KeysDiffer(X, Y);
    KeysDiffer(Y, Z);
    KeysDiffer(X, Z);
  }

  /** Source `i` does not know `p`: it is skipped. */
  lemma VisitSkipped(sources: seq<Source>, universe: set<Identity>, p: Identity, i: nat, es: seq<Info>)
    requires WellBehaved(sources, Fw, universe) && Key(p) in universe && i < |sources|
    requires sources[i](Key(p), Fw).None?
    ensures QuerySources(sources, Fw, universe, p, i, es) == QuerySources(sources, Fw, universe, p, i + 1, es)
  {
  }

  lemma ExploreOne(sources: seq<Source>, universe: set<Identity>, deps: seq<Dependency>, es: seq<Info>)
    requires WellBehaved(sources, Fw, universe) && |deps| == 1 && Key(Target(deps[0])) in universe
    ensures ExploreDeps(sources, Fw, universe, deps, 0, es) == Visit(sources, Fw, universe, Target(deps[0]), es)
  {
  }

  lemma ExploreTwo(sources: seq<Source>, universe: set<Identity>, deps: seq<Dependency>, es: seq<Info>)
    requires WellBehaved(sources, Fw, universe) && |deps| == 2
    requires Key(Target(deps[0])) in universe && Key(Target(deps[1])) in universe
    ensures ExploreDeps(sources, Fw, universe, deps, 0, es)
            == Visit(sources, Fw, universe, Target(deps[1]), Visit(sources, Fw, universe, Target(deps[0]), es))
  {
    var first := Visit(sources, Fw, universe, Target(deps[0]), es);
    assert ExploreDeps(sources, Fw, universe, deps, 0, es) == ExploreDeps(sources, Fw, universe, deps, 1, first);
  }

  lemma LinesOfOne(a: Info)
    ensures NodeLines([a]) == [NodeOf(a)]
    ensures LinkLines([a]) == DepLinks(a.identity.id, a.deps)
  {
    assert [a][..0] == [];
  }

  lemma LinesOfTwo(a: Info, b: Info)
    ensures NodeLines([a, b]) == [NodeOf(a), NodeOf(b)]
    ensures LinkLines([a, b]) == DepLinks(a.identity.id, a.deps) + DepLinks(b.identity.id, b.deps)
  {
    assert [a, b][..1] == [a];
    LinesOfOne(a);
  }

  lemma LinesOfThree(a: Info, b: Info, c: Info)
    ensures NodeLines([a, b, c]) == [NodeOf(a), NodeOf(b), NodeOf(c)]
    ensures LinkLines([a, b, c])
            == DepLinks(a.identity.id, a.deps) + DepLinks(b.identity.id, b.deps) + DepLinks(c.identity.id, c.deps)
  {
    assert [a, b, c][..2] == [a, b];
    LinesOfTwo(a, b);
  }

  lemma LinksOfOne(source: string, d: Dependency)
    ensures DepLinks(source, [d]) == [Link(source, d.id)]
  {
    assert [d][..0] == [];
  }

  // A chain: X depends on Y (at least 1.0.0); Y has no dependencies.

  function SourceChain(k: Identity, fw: Framework): Option<Info>
  {
    if k == Key(X) then Some(Info(X, [AtLeast("Y", "1.0.0")]))
    else if k == Key(Y) then Some(Info(Y, []))
    else None
  }

  lemma ResolveChain()
    ensures WellBehaved([SourceChain], Fw, {Key(X), Key(Y)})
    ensures Resolve([SourceChain], Fw, {Key(X), Key(Y)}, X) == [Info(X, [AtLeast("Y", "1.0.0")]), Info(Y, [])]
  {
    var sources, u := [SourceChain], {Key(X), Key(Y)};
    var infoX, infoY := Info(X, [AtLeast("Y", "1.0.0")]), Info(Y, []);
    KeysXYZ();
    assert Target(AtLeast("Y", "1.0.0")) == Y;
    assert WellBehaved(sources, Fw, u);
    assert KeysOf([]) == {} && KeysOf([infoX]) == {Key(X)};
    QueryAnswered(sources, Fw, u, X, 0, []);
    assert Insert([], infoX) == [infoX];
    ExploreOne(sources, u, infoX.deps, [infoX]);
    QueryAnswered(sources, Fw, u, Y, 0, [infoX]);
  }

  /** The chain gives two nodes and one link. */
  lemma ScenarioChain()
    ensures WellBehaved([SourceChain], Fw, {Key(X), Key(Y)})
    ensures Document("X", Resolve([SourceChain], Fw, {Key(X), Key(Y)}, X))
            == [XmlDeclaration, GraphOpen("X"), NodesOpen, Node("X", "X"), Node("Y", "Y"), NodesClose,
                LinksOpen, Link("X", "Y"), LinksClose, GraphClose]
  {
    ResolveChain();
    LinesOfTwo(Info(X, [AtLeast("Y", "1.0.0")]), Info(Y, []));
    LinksOfOne("X", AtLeast("Y", "1.0.0"));
  }

  // A single package: X has no dependencies.

  function SourceSingle(k: Identity, fw: Framework): Option<Info>
  {
    if k == Key(X) then Some(Info(X, [])) else None
  }

  /** The single package gives one node and no link. */
  lemma ScenarioSingle()
    ensures WellBehaved([SourceSingle], Fw, {Key(X)})
    ensures Document("X", Resolve([SourceSingle], Fw, {Key(X)}, X))
            == [XmlDeclaration, GraphOpen("X"), NodesOpen, Node("X", "X"), NodesClose,
                LinksOpen, LinksClose, GraphClose]
  {
    var sources, u := [SourceSingle], {Key(X)};
    assert WellBehaved(sources, Fw, u);
    assert KeysOf([]) == {};
    QueryAnswered(sources, Fw, u, X, 0, []);
    assert Insert([], Info(X, [])) == [Info(X, [])];
    assert Resolve(sources, Fw, u, X) == [Info(X, [])];
    LinesOfOne(Info(X, []));
  }

  // A cycle: X depends on Y and Y depends on X.

  function SourceCycle(k: Identity, fw: Framework): Option<Info>
  {
    if k == Key(X) then Some(Info(X, [AtLeast("Y", "1.0.0")]))
    else if k == Key(Y) then Some(Info(Y, [AtLeast("X", "1.0.0")]))
    else None
  }

  lemma ResolveCycle()
    ensures WellBehaved([SourceCycle], Fw, {Key(X), Key(Y)})
    ensures Resolve([SourceCycle], Fw, {Key(X), Key(Y)}, X)
            == [Info(X, [AtLeast("Y", "1.0.0")]), Info(Y, [AtLeast("X", "1.0.0")])]
  {
    var sources, u := [SourceCycle], {Key(X), Key(Y)};
    var infoX, infoY := Info(X, [AtLeast("Y", "1.0.0")]), Info(Y, [AtLeast("X", "1.0.0")]);
    KeysXYZ();
    assert Target(AtLeast("Y", "1.0.0")) == Y && Target(AtLeast("X", "1.0.0")) == X;
    assert WellBehaved(sources, Fw, u);
    assert KeysOf([]) == {} && KeysOf([infoX]) == {Key(X)};
    QueryAnswered(sources, Fw, u, X, 0, []);
    assert Insert([], infoX) == [infoX];
    ExploreOne(sources, u, infoX.deps, [infoX]);
    QueryAnswered(sources, Fw, u, Y, 0, [infoX]);
    ExploreOne(sources, u, infoY.deps, [infoX, infoY]);
    assert Key(X) in KeysOf([infoX, infoY]);
  }

  /** The cycle ends: one node each for X and Y, and both links. */
  lemma ScenarioCycle()
    ensures WellBehaved([SourceCycle], Fw, {Key(X), Key(Y)})
    ensures Document("X", Resolve([SourceCycle], Fw, {Key(X), Key(Y)}, X))
            == [XmlDeclaration, GraphOpen("X"), NodesOpen, Node("X", "X"), Node("Y", "Y"), NodesClose,
                LinksOpen, Link("X", "Y"), Link("Y", "X"), LinksClose, GraphClose]
  {
    ResolveCycle();
    LinesOfTwo(Info(X, [AtLeast("Y", "1.0.0")]), Info(Y, [AtLeast("X", "1.0.0")]));
    LinksOfOne("X", AtLeast("Y", "1.0.0"));
    LinksOfOne("Y", AtLeast("X", "1.0.0"));
  }

  // Silent omission: X depends on Y, which no source knows.

  function SourceOmission(k: Identity, fw: Framework): Option<Info>
  {
    if k == Key(X) then Some(Info(X, [AtLeast("Y", "1.0.0")])) else None
  }

  /** The link to Y is written although Y has no node. */
  lemma ScenarioOmission()
    ensures WellBehaved([SourceOmission], Fw, {Key(X), Key(Y)})
    ensures Document("X", Resolve([SourceOmission], Fw, {Key(X), Key(Y)}, X))
            == [XmlDeclaration, GraphOpen("X"), NodesOpen, Node("X", "X"), NodesClose,
                LinksOpen, Link("X", "Y"), LinksClose, GraphClose]
  {
    var sources, u := [SourceOmission], {Key(X), Key(Y)};
    var infoX := Info(X, [AtLeast("Y", "1.0.0")]);
    KeysXYZ();
    assert Target(AtLeast("Y", "1.0.0")) == Y;
    assert WellBehaved(sources, Fw, u);
    assert KeysOf([]) == {} && KeysOf([infoX]) == {Key(X)};
    QueryAnswered(sources, Fw, u, X, 0, []);
    assert Insert([], infoX) == [infoX];
    ExploreOne(sources, u, infoX.deps, [infoX]);
    VisitSkipped(sources, u, Y, 0, [infoX]);
    assert Resolve(sources, Fw, u, X) == [infoX];
    LinesOfOne(infoX);
    LinksOfOne("X", AtLeast("Y", "1.0.0"));
  }

  // Two sources that both know X with different dependencies: the first
  // source's X depends on Y, the second's on Z; Y is only in the first
  // source, Z only in the second.

  function FirstFeed(k: Identity, fw: Framework): Option<Info>
  {
    if k == Key(X) then Some(Info(X, [AtLeast("Y", "1.0.0")]))
    else if k == Key(Y) then Some(Info(Y, []))
    else None
  }

  function SecondFeed(k: Identity, fw: Framework): Option<Info>
  {
    if k == Key(X) then Some(Info(X, [AtLeast("Z", "1.0.0")]))
    else if k == Key(Z) then Some(Info(Z, []))
    else None
  }

  lemma TwoFeedsWellBehaved()
    ensures WellBehaved([FirstFeed, SecondFeed], Fw, {Key(X), Key(Y), Key(Z)})
  {
    KeysXYZ();
    assert Target(AtLeast("Y", "1.0.0")) == Y && Target(AtLeast("Z", "1.0.0")) == Z;
  }

  /** Y is known to the first source only. */
  lemma TwoFeedsY()
    requires WellBehaved([FirstFeed, SecondFeed], Fw, {Key(X), Key(Y), Key(Z)})
    ensures var x1 := Info(X, [AtLeast("Y", "1.0.0")]);
      Visit([FirstFeed, SecondFeed], Fw, {Key(X), Key(Y), Key(Z)}, Y, [x1]) == [x1, Info(Y, [])]
  {
    var sources, u := [FirstFeed, SecondFeed], {Key(X), Key(Y), Key(Z)};
    var x1, infoY := Info(X, [AtLeast("Y", "1.0.0")]), Info(Y, []);
    KeysXYZ();
    assert KeysOf([x1]) == {Key(X)};
    QueryAnswered(sources, Fw, u, Y, 0, [x1]);
    VisitSkipped(sources, u, Y, 1, [x1, infoY]);
  }

  /** Z is known to the second source only. */
  lemma TwoFeedsZ(es: seq<Info>)
    requires WellBehaved([FirstFeed, SecondFeed], Fw, {Key(X), Key(Y), Key(Z)})
    requires es == [Info(X, [AtLeast("Y", "1.0.0")]), Info(Y, [])]
    ensures Visit([FirstFeed, SecondFeed], Fw, {Key(X), Key(Y), Key(Z)}, Z, es) == es + [Info(Z, [])]
  {
    var sources, u := [FirstFeed, SecondFeed], {Key(X), Key(Y), Key(Z)};
    KeysXYZ();
    assert KeysOf(es) == {Key(X), Key(Y)};
    VisitSkipped(sources, u, Z, 0, es);
    QueryAnswered(sources, Fw, u, Z, 1, es);
  }

  lemma ResolveTwoFeeds()
    ensures WellBehaved([FirstFeed, SecondFeed], Fw, {Key(X), Key(Y), Key(Z)})
    ensures Resolve([FirstFeed, SecondFeed], Fw, {Key(X), Key(Y), Key(Z)}, X)
            == [Info(X, [AtLeast("Y", "1.0.0")]), Info(Y, []), Info(Z, [])]
  {
    var sources, u := [FirstFeed, SecondFeed], {Key(X), Key(Y), Key(Z)};
    var x1, x2 := Info(X, [AtLeast("Y", "1.0.0")]), Info(X, [AtLeast("Z", "1.0.0")]);
    TwoFeedsWellBehaved();
    KeysXYZ();
    assert KeysOf([]) == {};
    // the first source answers X and Y is resolved from it
    QueryAnswered(sources, Fw, u, X, 0, []);
    assert Insert([], x1) == [x1];
    ExploreOne(sources, u, x1.deps, [x1]);
    TwoFeedsY();
    // the second source answers X too: nothing is added, but Z is resolved
    var es := [x1, Info(Y, [])];
    assert Key(X) in KeysOf(es);
    QueryAnswered(sources, Fw, u, X, 1, es);
    ExploreOne(sources, u, x2.deps, es);
    TwoFeedsZ(es);
  }

  /**
   * X's links are the first source's only, yet Z, which only the second
   * source's X mentions, is drawn as a node.
   */
  lemma ScenarioTwoFeeds()
    ensures WellBehaved([FirstFeed, SecondFeed], Fw, {Key(X), Key(Y), Key(Z)})
    ensures Document("X", Resolve([FirstFeed, SecondFeed], Fw, {Key(X), Key(Y), Key(Z)}, X))
            == [XmlDeclaration, GraphOpen("X"), NodesOpen, Node("X", "X"), Node("Y", "Y"), Node("Z", "Z"),
                NodesClose, LinksOpen, Link("X", "Y"), LinksClose, GraphClose]
  {
    ResolveTwoFeeds();
    LinesOfThree(Info(X, [AtLeast("Y", "1.0.0")]), Info(Y, []), Info(Z, []));
    LinksOfOne("X", AtLeast("Y", "1.0.0"));
  }

  // Minimum versions: X depends on Y at least 1.0.0 and on Y between 2.0.0
  // and 3.0.0; the source knows Y 1.0.0, 2.0.0 and 3.0.0.

  const Y2: Identity := Identity("Y", "2.0.0")
  const Y3: Identity := Identity("Y", "3.0.0")

  function SourceMinimum(k: Identity, fw: Framework): Option<Info>
  {
    if k == Key(X) then Some(Info(X, [AtLeast("Y", "1.0.0"), Dependency("Y", VersionRange("2.0.0", Some("3.0.0")))]))
    else if k == Key(Y) then Some(Info(Y, []))
    else if k == Key(Y2) then Some(Info(Y2, []))
    else if k == Key(Y3) then Some(Info(Y3, []))
    else None
  }

  lemma MinimumWellBehaved()
    ensures WellBehaved([SourceMinimum], Fw, {Key(X), Key(Y), Key(Y2)})
  {
    KeysDiffer(X, Y);
    KeysDiffer(X, Y2);
    assert Target(AtLeast("Y", "1.0.0")) == Y && Target(Dependency("Y", VersionRange("2.0.0", Some("3.0.0")))) == Y2;
  }

  /** A leaf package, unknown to the set so far, that the one source knows. */
  lemma MinimumLeaf(p: Identity, es: seq<Info>)
    requires WellBehaved([SourceMinimum], Fw, {Key(X), Key(Y), Key(Y2)})
    requires p == Y || p == Y2
    requires Key(p) !in KeysOf(es)
    ensures Visit([SourceMinimum], Fw, {Key(X), Key(Y), Key(Y2)}, p, es) == es + [Info(p, [])]
  {
    KeysDiffer(X, Y);
    KeysDiffer(X, Y2);
    assert Key(Y) != Key(Y2);
    QueryAnswered([SourceMinimum], Fw, {Key(X), Key(Y), Key(Y2)}, p, 0, es);
  }

  /** Both ranges of X are resolved, each at its lower bound, after X itself. */
  lemma MinimumDeps(infoX: Info)
    requires WellBehaved([SourceMinimum], Fw, {Key(X), Key(Y), Key(Y2)})
    requires infoX == Info(X, [AtLeast("Y", "1.0.0"), Dependency("Y", VersionRange("2.0.0", Some("3.0.0")))])
    ensures ExploreDeps([SourceMinimum], Fw, {Key(X), Key(Y), Key(Y2)}, infoX.deps, 0, [infoX])
            == [infoX, Info(Y, []), Info(Y2, [])]
  {
    var sources, u := [SourceMinimum], {Key(X), Key(Y), Key(Y2)};
    KeysDiffer(X, Y);
    KeysDiffer(X, Y2);
    assert Key(Y) != Key(Y2);
    assert Target(infoX.deps[0]) == Y && Target(infoX.deps[1]) == Y2;
    assert KeysOf([infoX]) == {Key(X)} && KeysOf([infoX, Info(Y, [])]) == {Key(X), Key(Y)};
    ExploreTwo(sources, u, infoX.deps, [infoX]);
    var afterY := [infoX, Info(Y, [])];
    MinimumLeaf(Y, [infoX]);
    assert Visit(sources, Fw, u, Y, [infoX]) == afterY;
    MinimumLeaf(Y2, afterY);
    assert Visit(sources, Fw, u, Y2, afterY) == afterY + [Info(Y2, [])];
  }

  lemma ResolveM()
    ensures WellBehaved([SourceMinimum], Fw, {Key(X), Key(Y), Key(Y2)})
    ensures Resolve([SourceMinimum], Fw, {Key(X), Key(Y), Key(Y2)}, X)
            == [Info(X, [AtLeast("Y", "1.0.0"), Dependency("Y", VersionRange("2.0.0", Some("3.0.0")))]),
                Info(Y, []), Info(Y2, [])]
  {
    var sources, u := [SourceMinimum], {Key(X), Key(Y), Key(Y2)};
    var infoX := Info(X, [AtLeast("Y", "1.0.0"), Dependency("Y", VersionRange("2.0.0", Some("3.0.0")))]);
    MinimumWellBehaved();
    assert KeysOf([]) == {};
    QueryAnswered(sources, Fw, u, X, 0, []);
    assert Insert([], infoX) == [infoX];
    MinimumDeps(infoX);
    var all := [infoX, Info(Y, []), Info(Y2, [])];
    assert QuerySources(sources, Fw, u, X, 1, all) == all;
  }

  /**
   * Each range is resolved at its lower bound only (Y 3.0.0 is never asked
   * for), and the two versions of Y give two nodes with the same id.
   */
  lemma ScenarioMinimumVersions()
    ensures WellBehaved([SourceMinimum], Fw, {Key(X), Key(Y), Key(Y2)})
    ensures Document("X", Resolve([SourceMinimum], Fw, {Key(X), Key(Y), Key(Y2)}, X))
            == [XmlDeclaration, GraphOpen("X"), NodesOpen, Node("X", "X"), Node("Y", "Y"), Node("Y", "Y"),
                NodesClose, LinksOpen, Link("X", "Y"), Link("X", "Y"), LinksClose, GraphClose]
  {
    var deps := [AtLeast("Y", "1.0.0"), Dependency("Y", VersionRange("2.0.0", Some("3.0.0")))];
    ResolveM();
    LinesOfThree(Info(X, deps), Info(Y, []), Info(Y2, []));
    assert deps[..1] == [deps[0]];
    LinksOfOne("X", deps[0]);
  }

  // A package no one depends on: the source knows X and Z, X has no dependencies.

  function SourceUnrelated(k: Identity, fw: Framework): Option<Info>
  {
    if k == Key(X) then Some(Info(X, [])) else if k == Key(Z) then Some(Info(Z, [])) else None
  }

  /** Z is known to the source, but nothing declares it: resolving X yields X alone. */
  lemma ScenarioUnrelated()
    ensures WellBehaved([SourceUnrelated], Fw, {Key(X), Key(Z)})
    ensures Resolve([SourceUnrelated], Fw, {Key(X), Key(Z)}, X) == [Info(X, [])]
  {
    var sources, u := [SourceUnrelated], {Key(X), Key(Z)};
    KeysXYZ();
    assert WellBehaved(sources, Fw, u);
    assert KeysOf([]) == {};
    QueryAnswered(sources, Fw, u, X, 0, []);
    assert Insert([], Info(X, [])) == [Info(X, [])];
  }

  /** A set holding Z next to the root X is not reached from X, so resolution never yields it. */
  lemma UnrelatedNotReached()
    ensures !Reached([SourceUnrelated], Fw, X, [Info(X, []), Info(Z, [])])
  {
    var es := [Info(X, []), Info(Z, [])];
    KeysXYZ();
    assert es[..1] == [Info(X, [])];
    assert SourceUnrelated(Key(X), Fw) == Some(Info(X, []));
    assert !Demanded([SourceUnrelated], Fw, X, Z, es[..1]);
  }

  // An answer for another version than the one asked for: asked for X
  // 1.0.0, the source answers X 2.0.0, which depends on X at least 1.0.0.

  function SourceMismatch(k: Identity, fw: Framework): Option<Info>
  {
    if k == Key(X) then Some(Info(Identity("X", "2.0.0"), [AtLeast("X", "1.0.0")])) else None
  }

  /**
   * Such a source is outside every universe the model covers: the entry it
   * adds never satisfies the check made on entry, so the program would ask
   * for X 1.0.0 again and again.
   */
  lemma ScenarioMismatch(universe: set<Identity>)
    requires Key(X) in universe
    ensures !WellBehaved([SourceMismatch], Fw, universe)
  {
    var sources := [SourceMismatch];
    var answer := sources[0](Key(X), Fw);
    assert answer.Some? && Key(answer.value.identity).version != Key(X).version;
  }
}
