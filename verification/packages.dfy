/**
 * Package identities, dependency ranges and resolved dependency information,
 * together with the identity comparison the resolver's set uses: package ids
 * compare case-insensitively, versions exactly.
 */
module Packages {
  import opened Wrappers

  /** Versions and target frameworks are opaque values here. */
  type Version = string
  type Framework = string

  /** A concrete package: id and one version (not a range). */
  datatype Identity = Identity(id: string, version: Version)

  /** A version range; only its lower bound matters to the resolver. */
  datatype VersionRange = VersionRange(minVersion: Version, maxVersion: Option<Version>)

  /** A dependency as a package declares it: an id and a version range. */
  datatype Dependency = Dependency(id: string, range: VersionRange)

  /** What a source answers for a package: its identity and its declared dependencies, in order. */
  datatype Info = Info(identity: Identity, deps: seq<Dependency>)

  function FoldChar(c: char): char
  {
    if 'A' <= c <= 'Z' then (c as int + 32) as char else c
  }

  /** The id with every ASCII upper-case letter lowered. */
  function Fold(s: string): string
  {
    seq(|s|, i requires 0 <= i < |s| => FoldChar(s[i]))
  }

  /**
   * The comparison key of an identity: two identities are the same package
   * exactly when their keys are equal.
   */
  function Key(p: Identity): Identity
  {
    Identity(Fold(p.id), p.version)
  }

  /**
   * Two identities share a key exactly when their versions are equal and
   * their ids agree letter by letter ignoring ASCII case.
   */
  lemma SameKey(a: Identity, b: Identity)
    ensures Key(a) == Key(b)
            <==> && a.version == b.version && |a.id| == |b.id|
                 && forall i :: 0 <= i < |a.id| ==> FoldChar(a.id[i]) == FoldChar(b.id[i])
  {
    if Key(a) == Key(b) {
      forall i | 0 <= i < |a.id|
        ensures FoldChar(a.id[i]) == FoldChar(b.id[i])
      {
        assert Fold(a.id)[i] == Fold(b.id)[i];
      }
    }
  }

  /** Keys are normalised: taking the key of a key changes nothing. */
  lemma KeyIdempotent(p: Identity)
    ensures Key(Key(p)) == Key(p)
  {
  }

  /** The keys of a sequence of entries. */
  function KeysOf(es: seq<Info>): set<Identity>
  {
    set e | e in es :: Key(e.identity)
  }

  /** At most one entry per key. */
  ghost predicate DistinctKeys(es: seq<Info>)
  {
    forall i, j :: 0 <= i < j < |es| ==> Key(es[i].identity) != Key(es[j].identity)
  }

  /** Adding to the set: a no-op when the key is already present, else appended last. */
  function Insert(es: seq<Info>, info: Info): seq<Info>
  {
    if Key(info.identity) in KeysOf(es) then es else es + [info]
  }

  lemma KeysOfAppend(es: seq<Info>, info: Info)
    ensures KeysOf(es + [info]) == KeysOf(es) + {Key(info.identity)}
  {
    assert forall e :: e in es + [info] <==> e in es || e == info;
  }

  lemma KeysOfPrefix(a: seq<Info>, b: seq<Info>)
    requires a <= b
    ensures KeysOf(a) <= KeysOf(b)
  {
    forall e | e in a ensures e in b {
      var i :| 0 <= i < |a| && a[i] == e;
      assert b[i] == e;
    }
  }

  /** Insert keeps entries, adds exactly the info's key, and keeps keys distinct. */
  lemma InsertSpec(es: seq<Info>, info: Info)
    ensures es <= Insert(es, info)
    ensures KeysOf(Insert(es, info)) == KeysOf(es) + {Key(info.identity)}
    ensures DistinctKeys(es) ==> DistinctKeys(Insert(es, info))
    ensures forall e | e in Insert(es, info) :: e in es || e == info
    ensures Key(info.identity) !in KeysOf(es) ==> info in Insert(es, info)
  {
    KeysOfAppend(es, info);
    if Key(info.identity) !in KeysOf(es) {
      var r := es + [info];
      assert r[|es|] == info;
      if DistinctKeys(es) {
        forall i, j | 0 <= i < j < |r| ensures Key(r[i].identity) != Key(r[j].identity) {
          if j == |es| {
            assert r[i] in es;
          }
        }
      }
    }
  }
}
