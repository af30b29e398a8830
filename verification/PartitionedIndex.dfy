/** The partition map of `PartitionedVectorIndex`: logical partition keys resolve to
    physical partitions, and once `maxPartitions` physical partitions exist every new
    key is routed to one shared overflow partition. */
module PartitionedIndex {
  type Id = string
  type Key = string
  type Vec = seq<real>

  /** Physical partitions with the vectors each of them holds. */
  type Partitions = map<Key, map<Id, Vec>>

  const OVERFLOW: Key := "_overflow"

  // ---------------------------------------------------------------- key routing

  /** The partition a lookup of `key` addresses; it need not exist. */
  function ResolveKey(keys: set<Key>, maxPartitions: nat, key: Key): Key {
    if key in keys then key
    else if |keys| >= maxPartitions && key != "" && key != OVERFLOW then OVERFLOW
    else key
  }

  /** The partition an insert under `key` uses, created when missing. */
  function InsertTarget(keys: set<Key>, maxPartitions: nat, key: Key): Key {
    var resolved := ResolveKey(keys, maxPartitions, key);
    if resolved in keys then resolved
    else if |keys| >= maxPartitions && resolved != OVERFLOW then OVERFLOW
    else resolved
  }

  /** Never more partitions than configured, plus one for the overflow partition. */
  ghost predicate WithinLimit(keys: set<Key>, maxPartitions: nat) {
    |keys| <= maxPartitions + if OVERFLOW in keys then 1 else 0
  }

  lemma InsertKeepsLimit(keys: set<Key>, maxPartitions: nat, key: Key)
    requires WithinLimit(keys, maxPartitions)
    ensures WithinLimit(keys + {InsertTarget(keys, maxPartitions, key)}, maxPartitions)
  {
    var target := InsertTarget(keys, maxPartitions, key);
    if target in keys {
      assert keys + {target} == keys;
    }
  }

  /** Looking a key up right after inserting under it addresses the partition the insert
      used, except for one family: a new empty key when no partition is left. */
  lemma LookupAfterInsert(keys: set<Key>, maxPartitions: nat, key: Key)
    ensures var target := InsertTarget(keys, maxPartitions, key);
            ResolveKey(keys + {target}, maxPartitions, key) == target
            <==> !(key == "" && "" !in keys && |keys| >= maxPartitions)
  {
    var target := InsertTarget(keys, maxPartitions, key);
    if target in keys {
      assert keys + {target} == keys;
    }
  }

  /** Once a key resolves to an existing partition, no later insert, under any key, makes
      it resolve elsewhere. */
  lemma ResolutionIsStable(keys: set<Key>, maxPartitions: nat, key: Key, other: Key)
    requires ResolveKey(keys, maxPartitions, key) in keys
    ensures ResolveKey(keys + {InsertTarget(keys, maxPartitions, other)}, maxPartitions, key)
            == ResolveKey(keys, maxPartitions, key)
  {
    var target := InsertTarget(keys, maxPartitions, other);
    if target in keys {
      assert keys + {target} == keys;
    }
  }

  /** The partition keys after inserting under each of `inserted` in turn. */
  function KeysAfter(keys: set<Key>, maxPartitions: nat, inserted: seq<Key>): (r: set<Key>)
    ensures keys <= r
    decreases |inserted|
  {
    if inserted == [] then keys
    else KeysAfter(keys + {InsertTarget(keys, maxPartitions, inserted[0])}, maxPartitions, inserted[1..])
  }

  /** Over any run of inserts the partition bound holds, and the partition used for a
      non-empty key is the one every later lookup of that key resolves to. */
  lemma {:induction false} RoutingOverRuns(
    keys: set<Key>, maxPartitions: nat, key: Key, inserted: seq<Key>)
    requires WithinLimit(keys, maxPartitions)
    ensures WithinLimit(KeysAfter(keys, maxPartitions, inserted), maxPartitions)
    ensures ResolveKey(keys, maxPartitions, key) in keys
            ==> ResolveKey(KeysAfter(keys, maxPartitions, inserted), maxPartitions, key)
                == ResolveKey(keys, maxPartitions, key)
    ensures key != "" && inserted != [] && inserted[0] == key
            ==> ResolveKey(KeysAfter(keys, maxPartitions, inserted), maxPartitions, key)
                == InsertTarget(keys, maxPartitions, key)
    decreases |inserted|
  {
    if inserted != [] {
      var next := keys + {InsertTarget(keys, maxPartitions, inserted[0])};
      InsertKeepsLimit(keys, maxPartitions, inserted[0]);
      if ResolveKey(keys, maxPartitions, key) in keys {
        ResolutionIsStable(keys, maxPartitions, key, inserted[0]);
      }
      LookupAfterInsert(keys, maxPartitions, inserted[0]);
      RoutingOverRuns(next, maxPartitions, key, inserted[1..]);
    }
  }

  /** The empty key is inserted into the overflow partition but looked up as itself. */
  lemma EmptyKeyIsLost()
    ensures InsertTarget({"a"}, 1, "") == OVERFLOW
    ensures ResolveKey({"a"} + {OVERFLOW}, 1, "") !in {"a"} + {OVERFLOW}
  {
  }

  // ---------------------------------------------------------------- contents

  /** The vectors a lookup of `key` can see. */
  function Lookup(p: Partitions, maxPartitions: nat, key: Key): map<Id, Vec> {
    var resolved := ResolveKey(p.Keys, maxPartitions, key);
    if resolved in p then p[resolved] else map[]
  }

  /** `insert` creates the partition even when the vector is then refused; an id that is
      already present keeps its vector. */
  function Insert(p: Partitions, maxPartitions: nat, key: Key, id: Id, vec: Vec, accepted: bool): Partitions {
    var target := InsertTarget(p.Keys, maxPartitions, key);
    var before := if target in p then p[target] else map[];
    p[target := if accepted && id !in before then before[id := vec] else before]
  }

  function Remove(p: Partitions, maxPartitions: nat, key: Key, id: Id): Partitions {
    var resolved := ResolveKey(p.Keys, maxPartitions, key);
    if resolved in p then p[resolved := p[resolved] - {id}] else p
  }
}
