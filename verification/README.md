# NuGet dependency tree, modelled in Dafny

NuGetDependencyTree is a small console program. Its starting point is one
package, `cake.nuget` 0.30.0. For the target framework `net46`, it collects
that package's whole dependency closure from the configured NuGet sources. It
then writes the closure as a DGML directed graph.

This project models the two parts of the program that hold its logic.

**The resolver.** This is the local function `GetPackageDependencies`.
- A package that is already in the shared set is skipped.
- Otherwise every source is asked, in order, with no stop after a success.
- Each answer is added to the set. An identity that is already present is not
  added again, so the first answer wins.
- Every dependency of every answer is then resolved, at the lower bound of its
  version range. This happens even for an answer that was not added.

**The rendering.** After the header, there is one node per resolved package
and then one link per declared dependency.

## Modules

- `Packages` (packages.dfy) defines package identities, dependency ranges and
  resolved dependency information. It also defines the identity key:
  - the id compared ignoring ASCII case;
  - the version compared exactly.
- `PackageSets` (package_sets.dfy) defines the class `PackageSet`, which stands
  for the program's hash set. It keeps:
  - the entries, in insertion order;
  - the set of their keys.
- `Resolution` (resolution.dfy) holds:
  - the sources, as lookup functions;
  - the first-answer function `Winner`;
  - the functions `Visit`, `QuerySources` and `ExploreDeps`, which specify the
    resolver's result;
  - the termination measure.
- `ResolutionProperties` (resolution.dfy) proves what resolution promises:
  - one entry per identity;
  - each entry is the first answer any source gives for it;
  - the set is closed under the dependencies of every answer;
  - the set holds nothing else: every entry is reached from the root through
    declared dependencies, each at its minimum version.
- `Resolver` (resolver.dfy) is the recursive method that changes the
  `PackageSet`. It is proved equal to `Visit`.
- `Dgml` (dgml.dfy) holds:
  - the output lines as records;
  - the `Document` function;
  - the `WriteGraph` method with its loops;
  - counting, membership and ordering lemmas.
- `Program` (program.dfy) holds the program's constants and `Run`, which
  resolves the root and writes the graph. It also proves facts about the
  resulting document.
- `Scenarios` (scenarios.dfy) works small end-to-end runs out to their
  documents:
  - a chain;
  - a single package;
  - a cycle;
  - a dependency no source knows;
  - a package nothing depends on, which is never resolved;
  - a source answering another version than the one asked for, which the model excludes;
  - two sources that disagree;
  - two ranges over one id. This run gives two nodes with the same id, which
    is the program's behaviour.

## Model

| member | source | states |
|---|---|---|
| Packages.SameKey | NuGetDependencyTree/Program.cs:32 | the identity key `Key` equates two identities exactly when their versions are equal and their ids agree letter by letter ignoring ASCII case; ids differing otherwise, or different versions, give different keys |
| Packages.KeyIdempotent | NuGetDependencyTree/Program.cs:32 | the identity key is normalised: taking the key of a key changes nothing |
| Packages.InsertSpec | NuGetDependencyTree/Program.cs:75 | the contract of `Insert`, the set's add: every old entry is kept in place, the only entry that can appear is the info itself, and it does appear when its key is new; the key set gains exactly the new key, and keys stay distinct |
| PackageSets.PackageSet.constructor | NuGetDependencyTree/Program.cs:32 | the set starts empty and valid |
| PackageSets.PackageSet.Contains | NuGetDependencyTree/Program.cs:65 | true exactly when an entry with the same identity (case-insensitive id, same version) is present |
| PackageSets.PackageSet.Add | NuGetDependencyTree/Program.cs:75 | appends the info exactly when its identity is absent, otherwise changes nothing (first write wins); result says which; key set gains the identity |
| Resolution.FirstSource | NuGetDependencyTree/Program.cs:67-73 | the index of the first source from `from` on that answers, every source before it answers null |
| Resolution.Winner | NuGetDependencyTree/Program.cs:67-75 | none exactly when every source answers null; otherwise the answer of some source all of whose predecessors answer null |
| Resolution.TargetVersion | NuGetDependencyTree/Program.cs:79 | the contract of `Target`: a dependency is resolved as its own id at exactly its range's lower bound, whatever the upper bound, and at no other version |
| Resolution.Visit | NuGetDependencyTree/Program.cs:65 | the set only grows, and visiting an identity already present returns the set unchanged |
| Resolution.QuerySources | NuGetDependencyTree/Program.cs:67-82 | asking the remaining sources only grows the set |
| Resolution.ExploreDeps | NuGetDependencyTree/Program.cs:76-81 | resolving the remaining dependencies, each at its minimum version, only grows the set |
| ResolutionProperties.VisitSound | NuGetDependencyTree/Program.cs:75 | resolution keeps one entry per identity, every entry being the first answer any source gives for its identity |
| ResolutionProperties.VisitClosed | NuGetDependencyTree/Program.cs:76-81 | after a visit the visited identity is present or unknown to every source, and every present identity has the dependencies of every answering source resolved |
| ResolutionProperties.VisitUnknown | NuGetDependencyTree/Program.cs:67-73 | an identity no source knows leaves the set unchanged: it is silently absent |
| ResolutionProperties.VisitReached | NuGetDependencyTree/Program.cs:65-81 | a visit keeps the old entries as a prefix, and each entry it adds is the root or the minimum-version target of a dependency declared for an earlier entry |
| ResolutionProperties.ResolveCorrect | NuGetDependencyTree/Program.cs:58-83 | from the empty set: distinct identities, each entry its identity's first answer, the root present iff some source knows it, the dependencies of every answer for a present identity resolved (including losing sources'), and nothing else: every entry is the root or reached from an earlier entry through a declared dependency at its minimum version |
| Resolver.GetPackageDependencies | NuGetDependencyTree/Program.cs:58-83 | the set only grows, stays valid, and ends exactly as `Visit` specifies; terminates on cycles |
| Resolver.GetDependencies | NuGetDependencyTree/Program.cs:76-81 | resolves each dependency in declaration order at `(dependency id, range minimum)`, ending as `ExploreDeps` specifies |
| Dgml.WriteGraph | NuGetDependencyTree/Program.cs:37-54 | the lines written are the document for the set's entries in order |
| Dgml.NodeLinesSpec | NuGetDependencyTree/Program.cs:41-42 | exactly one node line per entry, in order, with id and label both the package id |
| Dgml.DepLinksSpec | NuGetDependencyTree/Program.cs:48-51 | one link per declared dependency, in order, from the package id to the dependency id |
| Dgml.LinkLinesCount | NuGetDependencyTree/Program.cs:46-52 | the links section has exactly as many lines as there are declared dependencies, all of them links |
| Dgml.LinkLinesMembers | NuGetDependencyTree/Program.cs:46-52 | a link is written iff some entry declares a dependency with that id; targets are not checked against nodes |
| Dgml.LinkTo | NuGetDependencyTree/Program.cs:46-52 | every declared dependency of every entry has its link |
| Dgml.LinkFrom | NuGetDependencyTree/Program.cs:46-52 | every link comes from a declared dependency of an entry |
| Dgml.DocumentShape | NuGetDependencyTree/Program.cs:37-54 | the document is titled with the given title, has seven fixed lines plus one per entry and per dependency, and its nodes sit right after the header |
| Dgml.DocumentOrder | NuGetDependencyTree/Program.cs:39-53 | every node line precedes every link line |
| Program.Run | NuGetDependencyTree/Program.cs:26-54 | resolving `cake.nuget` 0.30.0 for `net46` into a fresh set and writing it gives the document, titled `cake.nuget`, of the resolved set |
| Program.RootNode | NuGetDependencyTree/Program.cs:33-42 | if no source knows the root the document is the empty graph, otherwise it holds the node of the root's first answer |
| Program.LinksResolved | NuGetDependencyTree/Program.cs:76-81 | each dependency of a drawn package is a link, and its target at the range minimum is resolved unless no source knows it |
| Scenarios.ScenarioChain | NuGetDependencyTree/Program.cs:58-83 | X depending on Y gives nodes X, Y and the link X to Y |
| Scenarios.ScenarioSingle | NuGetDependencyTree/Program.cs:58-83 | X with no dependencies gives one node and no link |
| Scenarios.ScenarioCycle | NuGetDependencyTree/Program.cs:65 | the cycle X to Y to X ends with one node each and both links |
| Scenarios.ScenarioOmission | NuGetDependencyTree/Program.cs:46-52 | a dependency no source knows is linked to, yet has no node |
| Scenarios.ScenarioTwoFeeds | NuGetDependencyTree/Program.cs:67-81 | when two sources disagree on X, X keeps the first source's links, but the dependency only the second names is still resolved and drawn |
| Scenarios.ScenarioMinimumVersions | NuGetDependencyTree/Program.cs:79 | each range is resolved at its lower bound only, and two versions of one id give two nodes with the same id |
| Scenarios.ScenarioUnrelated | NuGetDependencyTree/Program.cs:58-83 | a package the source knows but nothing declares is not resolved: resolving X yields X alone |
| Scenarios.UnrelatedNotReached | NuGetDependencyTree/Program.cs:76-81 | a set holding, beside the root, a package that nothing declares is not reached from the root |
| Scenarios.ScenarioMismatch | NuGetDependencyTree/Program.cs:65-75 | a source that answers another version than the one asked for is outside every universe the model covers |

## Left out

- Loading the NuGet settings and building the repository list (Program.cs lines 23-24 and 31) is configuration I/O. The sources are a parameter of type `seq<Source>`.
- The network calls `GetResourceAsync` and `ResolvePackage` (lines 69-71) are out of scope. Each source is a total, deterministic lookup function from (identity, framework) to an optional answer. It is asked with the identity's key, since NuGet feeds match package ids ignoring case.
- Network failures are not modelled. In the program they abort the whole run.
- `async`/`await`, the cancellation token, the source cache and the logger are plumbing with no effect on the result.
- `NuGetVersion`, `VersionRange` and `NuGetFramework` are out of scope:
  - Versions and frameworks are opaque strings.
  - A range's minimum version is taken as a given field.
  - A range without a lower bound (a null `MinVersion`) is not modelled.
- The `StreamWriter`, the literal XML text, the namespace attribute and XML escaping are out of scope. The output is the sequence of line records, each carrying the values written into that line.
- `PackageIdentityComparer.Default` compares ids with full Unicode ordinal case-insensitivity. The model folds ASCII letters only.
- The hash set's iteration order is taken to be insertion order.
- Resolver.GetPackageDependencies: resolution is modelled only for well-behaved sources (`WellBehaved`). `Visit`, `QuerySources`, `ExploreDeps`, `Resolve`, every lemma about them and both resolver methods require it; the key, the set's add, `FirstSource`, `Winner`, `Target` and the predicates `Sound`, `Declares`, `Demanded` and `Reached` do not. Outside it the model states nothing about what resolution yields. Well-behaved means two things:
  - every identity that can be reached has its key in a finite universe, a ghost parameter;
  - every source answers with the identity it was asked for.

  The program does not check the second condition. Line 65 checks the identity it asked for, but line 75 stores the identity in the answer. Most such answers are harmless. For example, take a 1.0 answered as a 2.0 depending on b at least 1.0, and b 1.0 answered as itself depending on a at least 1.0. The second request for a 1.0 asks again, but its answer leads back to b 1.0, which is present, so the run ends with a 2.0 and b 1.0. The program recurses without end only on a cycle of requests in which every request is answered with an identity other than the one asked for. The shortest such cycle is an answer that depends on the very version asked for. `Scenarios.ScenarioMismatch` shows that such a source is not well-behaved. This behaviour was read from the code, not observed.
- Resolver.GetDependencies: in the program, the loop over one answer's dependencies is nested inside `GetPackageDependencies`. Here it is a separate method. The boolean returned by `PackageSet.Add` is ignored, as the program ignores it.
- Resolution.QuerySources: its own contract states only growth. What it computes is stated by `VisitSound`, `VisitClosed`, `VisitReached` and `ResolveCorrect`.
