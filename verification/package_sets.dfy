/**
 * The shared set of resolved packages (a hash set keyed by package identity
 * in the original): entries in insertion order plus the set of their keys.
 */
module PackageSets {
  import opened Packages

  class PackageSet {
    var entries: seq<Info>
    var keys: set<Identity>

    ghost predicate Valid()
      reads this
    {
      keys == KeysOf(entries) && DistinctKeys(entries)
    }

    constructor ()
      ensures Valid() && entries == []
    {
      entries := [];
      keys := {};
    }

    /** Whether an entry with the same identity (id ignoring case, same version) is present. */
    method Contains(p: Identity) returns (present: bool)
      requires Valid()
      ensures present <==> exists e :: e in entries && Key(e.identity) == Key(p)
    {
      present := Key(p) in keys;
    }

    /** Adds `info` unless its identity is present already; the first stored info wins. */
    method Add(info: Info) returns (added: bool)
      requires Valid()
      modifies this
      ensures Valid()
      ensures added <==> Key(info.identity) !in old(keys)
      ensures entries == if added then old(entries) + [info] else old(entries)
      ensures keys == old(keys) + {Key(info.identity)}
    {
      added := Key(info.identity) !in keys;
      InsertSpec(entries, info);
      if added {
        entries := entries + [info];
        keys := keys + {Key(info.identity)};
      }
    }
  }
}
