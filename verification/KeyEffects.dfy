/** What the operations of the key store leave, told key by key, and what a verification of one key answers. */
module KeyEffects {
  import opened GoStrings
  import opened Keys
  import opened KeyRuns

  lemma {:induction false} FindLast(keys: seq<Key>, key: Key, id: int)
    requires forall other :: other in keys ==> other.id != key.id
    ensures Find(keys + [key], id) == if id == key.id then Some(key) else Find(keys, id)
  {
    if keys == [] {
      assert keys + [key] == [key];
    } else {
      assert (keys + [key])[1..] == keys[1..] + [key];
      FindLast(keys[1..], key, id);
    }
  }

  /**
   * A create that is written adds one active key at the end, under the next id, and leaves every other key in its
   * place; one that is not written leaves the store as it was.
   */
  lemma CreateStores(st: Store, hash: string, description: string, role: string, id: int)
    requires WellFormed(st)
    ensures var next := Created(st, hash, description, role, true);
            && |next.keys| == |st.keys| + 1 && st.keys <= next.keys
            && Find(next.keys, st.nextId) == Some(Key(st.nextId, hash, description, role, true))
            && (id != st.nextId ==> Find(next.keys, id) == Find(st.keys, id))
            && next.nextId == st.nextId + 1 && next.verified == st.verified
    ensures Created(st, hash, description, role, false) == st
  {
    var key := Key(st.nextId, hash, description, role, true);
    FindLast(st.keys, key, id);
    FindLast(st.keys, key, key.id);
  }

  /** The two lists are the same but for the keys of some ids, which are gone. Increasing ids fix the order. */
  ghost predicate LosesExactly(st: Store, next: Store, gone: iset<int>) {
    && Increasing(next.keys) && next.nextId == st.nextId
    && (forall key :: key in next.keys <==> key in st.keys && key.id !in gone)
    && (forall digest :: digest in next.verified <==> digest in st.verified && st.verified[digest] !in gone)
    && (forall digest :: digest in next.verified ==> next.verified[digest] == st.verified[digest])
  }

  /** The key is an active administrator and no other key of the list is one. */
  ghost predicate SoleAdmin(keys: seq<Key>, key: Key) {
    key.active && key.role == "admin"
    && forall other :: other in keys && other.active && other.role == "admin" ==> other.id == key.id
  }

  lemma SoleAdminExactly(keys: seq<Key>, key: Key)
    ensures SoleAdmin(keys, key) <==> LastAdmin(keys, key)
  {
    assert forall i :: 0 <= i < |keys| ==> keys[i] in keys;
  }

  /** A removal takes the key with the id and its cached digests, unless the key is the sole active administrator. */
  lemma DeleteExactly(st: Store, key: Key)
    requires WellFormed(st)
    ensures key in st.keys && !SoleAdmin(st.keys, key) ==> LosesExactly(st, Deleted(st, key.id), iset{key.id})
    ensures key in st.keys && SoleAdmin(st.keys, key) ==> Deleted(st, key.id) == st
    ensures (forall other :: other in st.keys ==> other.id != key.id) ==> Deleted(st, key.id) == st
  {
    SoleAdminExactly(st.keys, key);
    FindHasId(st.keys, key.id);
    WithoutExactly(st, {key.id});
    if key in st.keys {
      FindActive(st.keys, key);
    }
  }

  lemma WithoutExactly(st: Store, gone: set<int>)
    requires WellFormed(st)
    ensures LosesExactly(st, st.(keys := Without(st.keys, gone), verified := Dropped(st.verified, gone)),
                iset id | id in gone)
  {
    WithoutIncreasing(st.keys, gone);
    forall key ensures key in Without(st.keys, gone) <==> key in st.keys && key.id !in gone {
      WithoutMember(st.keys, gone, key);
    }
  }

  /**
   * A revocation that is written deactivates the key and drops its cached digests, one that is not leaves it active;
   * every other key stays as it is, in its place, and a sole active administrator is left alone.
   */
  lemma RevokeExactly(st: Store, key: Key, saved: bool)
    requires WellFormed(st)
    ensures key in st.keys && !SoleAdmin(st.keys, key) ==>
              var next := Revoked(st, key.id, saved);
              && |next.keys| == |st.keys| && next.nextId == st.nextId
              && (forall i :: 0 <= i < |st.keys| ==>
                    next.keys[i] == if st.keys[i] == key then key.(active := !saved) else st.keys[i])
              && (forall digest :: digest in next.verified <==> digest in st.verified && st.verified[digest] != key.id)
              && (forall digest :: digest in next.verified ==> next.verified[digest] == st.verified[digest])
    ensures key in st.keys && SoleAdmin(st.keys, key) ==> Revoked(st, key.id, saved) == st
    ensures (forall other :: other in st.keys ==> other.id != key.id) ==> Revoked(st, key.id, saved) == st
  {
    SoleAdminExactly(st.keys, key);
    FindHasId(st.keys, key.id);
    SetActiveAt(st.keys, key.id, !saved);
    if key in st.keys {
      FindActive(st.keys, key);
      forall i | 0 <= i < |st.keys| ensures st.keys[i].id == key.id <==> st.keys[i] == key {
        if st.keys[i].id == key.id { SameIdSameKey(st.keys, st.keys[i], key); }
      }
    }
  }

  // ----- Which keys a prune removes -----

  /** The carriers of the prefix that were created after the key. */
  function Newer(keys: seq<Key>, prefix: string, key: Key): set<Key> {
    set other | other in keys && HasPrefix(other.description, prefix) && key.id < other.id
  }

  /** A prune is after the key: it carries the prefix, and at least `keep` carriers are newer. */
  ghost predicate Due(keys: seq<Key>, prefix: string, keep: nat, key: Key) {
    HasPrefix(key.description, prefix) && |Newer(keys, prefix, key)| >= keep
  }

  lemma {:induction false} CarryingIncreasing(keys: seq<Key>, prefix: string)
    requires Increasing(keys)
    ensures Increasing(Carrying(keys, prefix))
  {
    if keys != [] {
      var rest := Carrying(keys[1..], prefix);
      CarryingIncreasing(keys[1..], prefix);
      forall i | 0 <= i < |rest| ensures keys[0].id < rest[i].id {
        CarryingMember(keys[1..], prefix, rest[i]);
        var j :| 0 <= j < |keys[1..]| && keys[1..][j] == rest[i];
        assert keys[j + 1] == rest[i];
      }
    }
  }

  lemma {:induction false} IncreasingCount(keys: seq<Key>)
    requires Increasing(keys)
    ensures |set key | key in keys| == |keys|
  {
    if keys != [] {
      IncreasingCount(keys[1..]);
      forall i | 1 <= i < |keys| ensures keys[i] != keys[0] {
        assert keys[0].id < keys[i].id;
      }
      assert keys == [keys[0]] + keys[1..];
      assert (set key | key in keys) == (set key | key in keys[1..]) + {keys[0]};
    }
  }

  lemma NewerCount(keys: seq<Key>, prefix: string, i: nat)
    requires Increasing(keys) && i < |Carrying(keys, prefix)|
    ensures |Newer(keys, prefix, Carrying(keys, prefix)[i])| == |Carrying(keys, prefix)| - 1 - i
  {
    var matching := Carrying(keys, prefix);
    var later := matching[i + 1..];
    CarryingIncreasing(keys, prefix);
    IncreasingCount(later);
    forall key ensures key in later <==> key in Newer(keys, prefix, matching[i]) {
      CarryingMember(keys, prefix, key);
      if key in later {
        var j :| 0 <= j < |later| && later[j] == key;
        assert matching[i + 1 + j] == key;
      }
      if key in Newer(keys, prefix, matching[i]) {
        var j :| 0 <= j < |matching| && matching[j] == key;
        assert later[j - i - 1] == key;
      }
    }
    assert (set key | key in later) == Newer(keys, prefix, matching[i]);
  }

  lemma OldestAreDue(keys: seq<Key>, prefix: string, keep: nat, key: Key)
    requires Increasing(keys) && key in keys
    ensures key in Oldest(keys, prefix, keep) <==> Due(keys, prefix, keep, key)
  {
    var matching := Carrying(keys, prefix);
    CarryingMember(keys, prefix, key);
    if key in matching {
      var i :| 0 <= i < |matching| && matching[i] == key;
      NewerCount(keys, prefix, i);
      if key in Oldest(keys, prefix, keep) {
        var j :| 0 <= j < |matching| - keep && matching[j] == key;
        NewerCount(keys, prefix, j);
      } else if |matching| > keep {
        assert forall j :: 0 <= j < |matching| - keep ==> Oldest(keys, prefix, keep)[j] == matching[j];
      }
    } else if |matching| > keep {
      assert forall j :: 0 <= j < |matching| - keep ==> Oldest(keys, prefix, keep)[j] == matching[j];
    }
  }

  /** The ids a prune removes. */
  ghost predicate Reaped(keys: seq<Key>, prefix: string, keep: nat, id: int) {
    exists key :: key in keys && key.id == id && Due(keys, prefix, keep, key) && !SoleAdmin(keys, key)
  }

  /** A prune takes the carriers that have `keep` newer ones, but for a sole active administrator, and nothing else. */
  lemma PruneExactly(st: Store, prefix: string, keep: nat)
    requires WellFormed(st)
    ensures LosesExactly(st, Pruned(st, prefix, keep), iset id | Reaped(st.keys, prefix, keep, id))
  {
    var victims := Victims(st.keys, prefix, keep);
    forall id ensures id in victims <==> Reaped(st.keys, prefix, keep, id) {
      if id in victims {
        VictimsAreKeys(st.keys, prefix, keep);
        var key :| key in st.keys && key.id == id;
        VictimReaped(st.keys, prefix, keep, key);
      }
      if Reaped(st.keys, prefix, keep, id) {
        var key :| key in st.keys && key.id == id && Due(st.keys, prefix, keep, key) && !SoleAdmin(st.keys, key);
        VictimReaped(st.keys, prefix, keep, key);
      }
    }
    WithoutExactly(st, victims);
    if victims == {} {
      NothingLost(st);
    }
  }

  lemma VictimReaped(keys: seq<Key>, prefix: string, keep: nat, key: Key)
    requires Increasing(keys) && key in keys
    ensures key.id in Victims(keys, prefix, keep) <==> Due(keys, prefix, keep, key) && !SoleAdmin(keys, key)
  {
    VictimsExact(keys, prefix, keep, key);
    OldestAreDue(keys, prefix, keep, key);
    SoleAdminExactly(keys, key);
  }

  lemma NothingLost(st: Store)
    ensures st.(keys := Without(st.keys, {}), verified := Dropped(st.verified, {})) == st
  {
    NoneWithout(st.keys);
    assert Dropped(st.verified, {}) == st.verified;
  }

  lemma {:induction false} NoneWithout(keys: seq<Key>)
    ensures Without(keys, {}) == keys
  {
    if keys != [] {
      NoneWithout(keys[1..]);
    }
  }

  // ----- What a verification of one key answers -----

  /**
   * The first locked half on any store: it changes nothing when the cached id names a live active key, and otherwise
   * leaves the digest out of the cache and everything else as it was.
   */
  lemma LookupDropsStale(crypto: Crypto, st: Store, candidate: string, id: int)
    ensures var digest, next := crypto.digest(candidate), LookedUp(crypto, st, candidate);
            && next.keys == st.keys && next.nextId == st.nextId
            && (digest in st.verified && st.verified[digest] == id ==>
                  if Find(st.keys, id).Some? && Find(st.keys, id).value.active then next.verified == st.verified
                  else digest !in next.verified)
            && (forall other :: other != digest ==>
                  (other in next.verified <==> other in st.verified)
                  && (other in st.verified ==> next.verified[other] == st.verified[other]))
  {
  }

  /** The key is in the list, active, and the only active one of the key material. */
  ghost predicate OnlyMatch(crypto: Crypto, st: Store, key: Key, candidate: string) {
    key in st.keys && key.active && crypto.matches(key.hash, candidate)
    && forall other :: other in st.keys && other.active && crypto.matches(other.hash, candidate) ==> other == key
  }

  lemma SnapshotFinds(crypto: Crypto, st: Store, key: Key, candidate: string)
    requires OnlyMatch(crypto, st, key, candidate)
    ensures FirstMatch(crypto, ActiveOnly(st.keys), candidate) == Some(key)
  {
    var snapshot := ActiveOnly(st.keys);
    forall other ensures other in snapshot <==> other in st.keys && other.active {
      ActiveOnlyMember(st.keys, other);
    }
    FirstMatchMatches(crypto, snapshot, candidate);
    FirstMatchExists(crypto, snapshot, candidate, key);
  }

  lemma {:induction false} FirstMatchExists(crypto: Crypto, keys: seq<Key>, candidate: string, key: Key)
    requires key in keys && key.active && crypto.matches(key.hash, candidate)
    ensures FirstMatch(crypto, keys, candidate).Some?
  {
    if !(keys[0].active && crypto.matches(keys[0].hash, candidate)) {
      assert keys == [keys[0]] + keys[1..];
      FirstMatchExists(crypto, keys[1..], candidate, key);
    }
  }

  /**
   * A first locked half answers at once, with the key, when the cache has it. Otherwise it leaves a scan, whose second
   * half answers the key in every later world in which the key is still in the list and active, and caches it; a
   * lookup in the world after that answers at once.
   */
  lemma OnlyMatchIsAnswered(crypto: Crypto, w: World, key: Key, candidate: string, thread: int, flushed: bool)
    requires Sound(crypto, w) && OnlyMatch(crypto, w.store, key, candidate) && thread !in w.scans
    ensures var lookup := Lookup(thread, candidate, flushed);
            var answer := if flushed then Matched(key) else Failed;
            if crypto.digest(candidate) in w.store.verified then
              Answered(crypto, w, lookup) == Some((candidate, answer)) && Step(crypto, w, lookup) == w
            else
              && Answered(crypto, w, lookup).None? && Step(crypto, w, lookup).store == w.store
              && (forall later: World :: WaitsFor(crypto, Step(crypto, w, lookup), later, key, thread) ==>
                    && Answered(crypto, later, Finish(thread, flushed)) == Some((candidate, answer))
                    && Step(crypto, later, Finish(thread, flushed)) ==
                        World(later.store.(verified := later.store.verified[crypto.digest(candidate) := key.id]),
                            later.scans - {thread}))
  {
    SnapshotFinds(crypto, w.store, key, candidate);
    if crypto.digest(candidate) in w.store.verified {
      CacheAlwaysHits(crypto, w, candidate);
      FindHasId(w.store.keys, w.store.verified[crypto.digest(candidate)]);
    } else {
      assert w.store.verified - {crypto.digest(candidate)} == w.store.verified;
    }
  }

  /** A later world in which the scan of the thread still runs and the key is still live. */
  predicate WaitsFor(crypto: Crypto, looked: World, later: World, key: Key, thread: int) {
    thread in looked.scans && thread in later.scans && later.scans[thread] == looked.scans[thread]
    && Find(later.store.keys, key.id) == Some(key)
  }

  /**
   * The law of the store: a key that was created and written, of material that no active key matches, is what a
   * verification of that material answers, and it answers it from the cache from then on.
   */
  lemma CreatedKeyVerifies(crypto: Crypto, w: World, hash: string, description: string, role: string,
      candidate: string, thread: int, other: int)
    requires Sound(crypto, w) && thread !in w.scans && other !in w.scans && crypto.matches(hash, candidate)
    requires forall key :: key in w.store.keys && key.active ==> !crypto.matches(key.hash, candidate)
    ensures var key := Key(w.store.nextId, hash, description, role, true);
            var created := Step(crypto, w, Create(hash, description, role, true));
            var looked := Step(crypto, created, Lookup(thread, candidate, true));
            var finished := Step(crypto, looked, Finish(thread, true));
            && Answered(crypto, created, Lookup(thread, candidate, true)).None?
            && Answered(crypto, looked, Finish(thread, true)) == Some((candidate, Matched(key)))
            && Answered(crypto, finished, Lookup(other, candidate, true)) == Some((candidate, Matched(key)))
  {
    var key := Key(w.store.nextId, hash, description, role, true);
    var created := Step(crypto, w, Create(hash, description, role, true));
    CreateEvolves(w.store, Create(hash, description, role, true));
    EvolveKeepsSound(crypto, w, created.store, {});
    CreateStores(w.store, hash, description, role, key.id);
    FindHasId(created.store.keys, key.id);
    assert OnlyMatch(crypto, created.store, key, candidate);
    if crypto.digest(candidate) in w.store.verified {
      FindHasId(w.store.keys, w.store.verified[crypto.digest(candidate)]);
    }
    OnlyMatchIsAnswered(crypto, created, key, candidate, thread, true);
    assert WaitsFor(crypto, Step(crypto, created, Lookup(thread, candidate, true)),
        Step(crypto, created, Lookup(thread, candidate, true)), key, thread);
  }
}
