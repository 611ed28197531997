/** The API-key store (internal/keys/keys.go): its list, its verification cache, and the two locked halves of Verify. */
module Keys {
  import opened GoStrings

  datatype Key = Key(id: int, hash: string, description: string, role: string, active: bool)

  /** bcrypt comparison and the digest of the (already truncated) key material. */
  datatype Crypto = Crypto(matches: (string, string) -> bool, digest: string -> string)

  datatype Store = Store(keys: seq<Key>, nextId: int, verified: map<string, int>)

  datatype Answer = Matched(key: Key) | NoMatch | Failed

  // ----- Reading the list -----

  /** find: the first key with the id. */
  function Find(keys: seq<Key>, id: int): Option<Key> {
    if keys == [] then None else if keys[0].id == id then Some(keys[0]) else Find(keys[1..], id)
  }

  /** The first key that is active and whose hash matches the candidate: what a full scan of the list answers. */
  function FirstMatch(crypto: Crypto, keys: seq<Key>, candidate: string): Option<Key> {
    if keys == [] then None
    else if keys[0].active && crypto.matches(keys[0].hash, candidate) then Some(keys[0])
    else FirstMatch(crypto, keys[1..], candidate)
  }

  predicate ActiveAdmin(key: Key) {
    key.active && key.role == "admin"
  }

  predicate HasAdmin(keys: seq<Key>) {
    exists i :: 0 <= i < |keys| && ActiveAdmin(keys[i])
  }

  /** isLastActiveAdmin */
  predicate LastAdmin(keys: seq<Key>, key: Key) {
    ActiveAdmin(key) && forall i :: 0 <= i < |keys| && keys[i].id != key.id ==> !ActiveAdmin(keys[i])
  }

  function Without(keys: seq<Key>, ids: set<int>): seq<Key> {
    if keys == [] then []
    else if keys[0].id in ids then Without(keys[1..], ids)
    else [keys[0]] + Without(keys[1..], ids)
  }

  /** The first key with the id, which is the one `find` answers, made active or inactive. */
  function SetActive(keys: seq<Key>, id: int, active: bool): seq<Key> {
    if keys == [] then []
    else if keys[0].id == id then [keys[0].(active := active)] + keys[1..]
    else [keys[0]] + SetActive(keys[1..], id, active)
  }

  /** dropVerified */
  function Dropped(verified: map<string, int>, ids: set<int>): map<string, int> {
    map digest | digest in verified && verified[digest] !in ids :: verified[digest]
  }

  function Carrying(keys: seq<Key>, prefix: string): seq<Key> {
    if keys == [] then []
    else if HasPrefix(keys[0].description, prefix) then [keys[0]] + Carrying(keys[1..], prefix)
    else Carrying(keys[1..], prefix)
  }

  /**
   * The keys PruneByDescriptionPrefix removes: the oldest carriers beyond `keep`, each judged against the unpruned
   * list.
   */
  function Victims(keys: seq<Key>, prefix: string, keep: nat): set<int> {
    var matching := Carrying(keys, prefix);
    if |matching| <= keep then {} else Removable(keys, matching, |matching| - keep)
  }

  function Removable(keys: seq<Key>, matching: seq<Key>, count: nat): set<int>
    requires count <= |matching|
  {
    set i | 0 <= i < count && !LastAdmin(keys, matching[i]) :: matching[i].id
  }

  function IdsOf(keys: seq<Key>): set<int> {
    set key | key in keys :: key.id
  }

  // ----- The operations on values; `saved` tells whether the file write succeeds -----

  function Created(st: Store, hash: string, description: string, role: string, saved: bool): Store {
    if saved then st.(keys := st.keys + [Key(st.nextId, hash, description, role, true)], nextId := st.nextId + 1)
        else st
  }

  function Deleted(st: Store, id: int): Store {
    match Find(st.keys, id)
    case None => st
    case Some(key) =>
      if LastAdmin(st.keys, key) then st
      else st.(keys := Without(st.keys, {id}), verified := Dropped(st.verified, {id}))
  }

  /** A revocation whose write fails leaves the key active, whatever it was before. */
  function Revoked(st: Store, id: int, saved: bool): Store {
    match Find(st.keys, id)
    case None => st
    case Some(key) =>
      if LastAdmin(st.keys, key) then st
      else st.(keys := SetActive(st.keys, id, !saved), verified := Dropped(st.verified, {id}))
  }

  /** The revocation fails to be written and names a key that is already inactive. */
  predicate Revives(st: Store, id: int, saved: bool) {
    !saved && Find(st.keys, id).Some? && !Find(st.keys, id).value.active
  }

  function Pruned(st: Store, prefix: string, keep: nat): Store {
    var victims := Victims(st.keys, prefix, keep);
    if victims == {} then st
    else st.(keys := Without(st.keys, victims), verified := Dropped(st.verified, victims))
  }

  /** The first locked half of Verify hits: the cached id names a live active key. */
  predicate CacheHit(crypto: Crypto, st: Store, candidate: string) {
    var digest := crypto.digest(candidate);
    digest in st.verified && Find(st.keys, st.verified[digest]).Some? && Find(st.keys, st.verified[digest]).value.active
  }

  /** The first locked half otherwise: a stale entry is dropped. */
  function LookedUp(crypto: Crypto, st: Store, candidate: string): Store {
    if CacheHit(crypto, st, candidate) then st else st.(verified := st.verified - {crypto.digest(candidate)})
  }

  function ActiveOnly(keys: seq<Key>): seq<Key> {
    if keys == [] then []
    else if keys[0].active then [keys[0]] + ActiveOnly(keys[1..])
    else ActiveOnly(keys[1..])
  }

  /** The second locked half: the key the scan found is looked up again and, when still active, cached. */
  function Recorded(crypto: Crypto, st: Store, candidate: string, found: Key): Store {
    var live := Find(st.keys, found.id);
    if live.Some? && live.value.active then st.(verified := st.verified[crypto.digest(candidate) := found.id]) else st
  }

  function RecordAnswer(st: Store, found: Key, flushed: bool): Answer {
    var live := Find(st.keys, found.id);
    if live.None? || !live.value.active then NoMatch else if flushed then Matched(live.value) else Failed
  }

  // ----- The store -----

  class KeyStore {
    const crypto: Crypto
    var keys: seq<Key>
    var nextId: int
    var verified: map<string, int>

    function StateOf(): Store
      reads this
    {
      Store(keys, nextId, verified)
    }

    constructor (crypto: Crypto, keys: seq<Key>, nextId: int)
      ensures this.crypto == crypto
      ensures StateOf() == Store(keys, if nextId < 1 then 1 else nextId, map[])
    {
      this.crypto, this.keys, this.verified := crypto, keys, map[];
      this.nextId := if nextId < 1 then 1 else nextId;
    }

    method FindKey(id: int) returns (found: Option<Key>)
      ensures found == Find(keys, id)
    {
      for i := 0 to |keys|
        invariant Find(keys[i..], id) == Find(keys, id)
      {
        if keys[i].id == id {
          return Some(keys[i]);
        }
      }
      return None;
    }

    method IsLastActiveAdmin(key: Key) returns (last: bool)
      ensures last == LastAdmin(keys, key)
    {
      if !ActiveAdmin(key) {
        return false;
      }
      for i := 0 to |keys|
        invariant forall j :: 0 <= j < i && keys[j].id != key.id ==> !ActiveAdmin(keys[j])
      {
        if keys[i].id != key.id && ActiveAdmin(keys[i]) {
          return false;
        }
      }
      return true;
    }

    /** Create: a failed write rolls the append and the id back. */
    method Create(hash: string, description: string, role: string, saved: bool) returns (created: Option<Key>)
      modifies this`keys, this`nextId
      ensures StateOf() == Created(old(StateOf()), hash, description, role, saved)
      ensures created == if saved then Some(Key(old(nextId), hash, description, role, true)) else None
      ensures saved ==> keys == old(keys) + [created.value] && nextId == old(nextId) + 1
      ensures !saved ==> StateOf() == old(StateOf())
    {
      var key := Key(nextId, hash, description, role, true);
      nextId := nextId + 1;
      keys := keys + [key];
      if !saved {
        keys := keys[..|keys| - 1];
        nextId := nextId - 1;
        return None;
      }
      return Some(key);
    }

    /** The compaction of Delete and Prune: keeps every other key, in order. */
    method Compact(ids: set<int>)
      modifies this`keys
      ensures keys == Without(old(keys), ids)
    {
      var kept := [];
      for i := 0 to |keys|
        invariant keys == old(keys)
        invariant kept + Without(keys[i..], ids) == Without(keys, ids)
      {
        if keys[i].id !in ids {
          kept := kept + [keys[i]];
        }
      }
      keys := kept;
    }

    method DropVerified(id: int)
      modifies this`verified
      ensures verified == Dropped(old(verified), {id})
    {
      var todo := verified.Keys;
      while todo != {}
        invariant todo <= verified.Keys <= old(verified).Keys
        invariant forall digest :: digest in verified ==> verified[digest] == old(verified)[digest]
        invariant forall digest :: digest in old(verified) ==>
            (digest in verified <==> digest in todo || old(verified)[digest] != id)
        decreases |todo|
      {
        var digest :| digest in todo;
        todo := todo - {digest};
        if verified[digest] == id {
          verified := verified - {digest};
        }
      }
    }

    /** Delete: the list and the cache are changed before the write, and stay changed when it fails. */
    method Delete(id: int, saved: bool) returns (deleted: Option<Key>)
      modifies this`keys, this`verified
      ensures StateOf() == Deleted(old(StateOf()), id)
      ensures deleted.Some? <==> saved && Find(old(keys), id).Some? && !LastAdmin(old(keys), Find(old(keys), id).value)
      ensures deleted.Some? ==> deleted == Find(old(keys), id)
    {
      var found := FindKey(id);
      if found.None? {
        return None;
      }
      var last := IsLastActiveAdmin(found.value);
      if last {
        return None;
      }
      Compact({id});
      DropVerified(id);
      return if saved then found else None;
    }

    /** Revoke: a failed write makes the key active, whatever it was before; its cached digests stay dropped. */
    method Revoke(id: int, saved: bool) returns (revoked: Option<Key>)
      modifies this`keys, this`verified
      ensures StateOf() == Revoked(old(StateOf()), id, saved)
      ensures revoked.Some? <==> saved && Find(old(keys), id).Some? && !LastAdmin(old(keys), Find(old(keys), id).value)
      ensures revoked.Some? ==> revoked == Some(Find(old(keys), id).value.(active := false))
    {
      var found := FindKey(id);
      if found.None? {
        return None;
      }
      var last := IsLastActiveAdmin(found.value);
      if last {
        return None;
      }
      Assign(id, false);
      DropVerified(id);
      if !saved {
        Assign(id, true);
        SetActiveTwice(old(keys), id, false, true);
        return None;
      }
      return Some(found.value.(active := false));
    }

    /** The assignment to IsActive of the found key. */
    method Assign(id: int, active: bool)
      modifies this`keys
      ensures keys == SetActive(old(keys), id, active)
    {
      for i := 0 to |keys|
        invariant keys == old(keys)
        invariant SetActive(keys, id, active) == keys[..i] + SetActive(keys[i..], id, active)
      {
        SetActiveHead(keys, id, active, i);
        if keys[i].id == id {
          keys := keys[i := keys[i].(active := active)];
          return;
        }
      }
      assert keys[..|keys|] == keys;
    }

    /** PruneByDescriptionPrefix */
    method Prune(prefix: string, keep: nat, saved: bool) returns (removed: nat)
      modifies this`keys, this`verified
      ensures StateOf() == Pruned(old(StateOf()), prefix, keep)
      ensures removed == if saved then |Victims(old(keys), prefix, keep)| else 0
    {
      var matching := [];
      for i := 0 to |keys|
        invariant matching + Carrying(keys[i..], prefix) == Carrying(keys, prefix)
      {
        if HasPrefix(keys[i].description, prefix) {
          matching := matching + [keys[i]];
        }
      }
      assert matching == Carrying(keys, prefix);
      if |matching| <= keep {
        return 0;
      }
      var victims: set<int> := {};
      for i := 0 to |matching| - keep
        invariant keys == old(keys) && verified == old(verified)
        invariant victims == Removable(keys, matching, i)
      {
        var last := IsLastActiveAdmin(matching[i]);
        if !last {
          victims := victims + {matching[i].id};
        }
      }
      assert victims == Victims(keys, prefix, keep);
      if victims == {} {
        return 0;
      }
      VictimsAreKeys(keys, prefix, keep);
      DropAll(victims);
      Compact(victims);
      return if saved then |victims| else 0;
    }

    /** The cache half of Prune's loop over the keys: one dropVerified for every key that goes. */
    method DropAll(victims: set<int>)
      requires victims <= IdsOf(keys)
      modifies this`verified
      ensures verified == Dropped(old(verified), victims)
    {
      for i := 0 to |keys|
        invariant verified == Dropped(old(verified), victims * IdsOf(keys[..i]))
      {
        assert keys[..i + 1] == keys[..i] + [keys[i]];
        assert IdsOf(keys[..i + 1]) == IdsOf(keys[..i]) + {keys[i].id};
        if keys[i].id in victims {
          DropVerified(keys[i].id);
        }
      }
      assert keys[..|keys|] == keys;
      assert victims * IdsOf(keys) == victims;
    }

    /** Verify up to its first unlock: the cache answers, or the active keys are snapshot for the scan. */
    method VerifyLookup(candidate: string, flushed: bool) returns (answer: Option<Answer>, snapshot: seq<Key>)
      modifies this`verified
      ensures StateOf() == LookedUp(crypto, old(StateOf()), candidate)
      ensures answer.Some? <==> CacheHit(crypto, old(StateOf()), candidate)
      ensures answer.Some? ==>
        answer.value == if flushed then Matched(Find(keys, verified[crypto.digest(candidate)]).value) else Failed
      ensures answer.None? ==> snapshot == ActiveOnly(keys)
    {
      var digest := crypto.digest(candidate);
      if digest in verified {
        var found := FindKey(verified[digest]);
        if found.Some? && found.value.active {
          return Some(if flushed then Matched(found.value) else Failed), [];
        }
        verified := verified - {digest};
      }
      assert verified - {digest} == verified;
      snapshot := [];
      for i := 0 to |keys|
        invariant snapshot + ActiveOnly(keys[i..]) == ActiveOnly(keys)
      {
        if keys[i].active {
          snapshot := snapshot + [keys[i]];
        }
      }
      answer := None;
    }

    /** The scan of the snapshot, outside the lock. */
    method Scan(snapshot: seq<Key>, candidate: string) returns (found: Option<Key>)
      requires forall i :: 0 <= i < |snapshot| ==> snapshot[i].active
      ensures found == FirstMatch(crypto, snapshot, candidate)
    {
      for i := 0 to |snapshot|
        invariant FirstMatch(crypto, snapshot[i..], candidate) == FirstMatch(crypto, snapshot, candidate)
      {
        if crypto.matches(snapshot[i].hash, candidate) {
          return Some(snapshot[i]);
        }
      }
      return None;
    }

    /** Verify after the scan found a key: locked again, the live key is checked and cached. */
    method VerifyRecord(candidate: string, found: Key, flushed: bool) returns (answer: Answer)
      modifies this`verified
      ensures StateOf() == Recorded(crypto, old(StateOf()), candidate, found)
      ensures answer == RecordAnswer(old(StateOf()), found, flushed)
    {
      var live := FindKey(found.id);
      if live.None? || !live.value.active {
        return NoMatch;
      }
      verified := verified[crypto.digest(candidate) := live.value.id];
      FindHasId(keys, found.id);
      return if flushed then Matched(live.value) else Failed;
    }
  }

  lemma {:induction false} FindHasId(keys: seq<Key>, id: int)
    ensures Find(keys, id).Some? ==> Find(keys, id).value.id == id && Find(keys, id).value in keys
    ensures Find(keys, id).None? <==> forall i :: 0 <= i < |keys| ==> keys[i].id != id
  {
    if keys != [] {
      FindHasId(keys[1..], id);
      if keys[0].id != id && Find(keys, id).None? {
        forall i | 0 <= i < |keys| ensures keys[i].id != id {
          if i > 0 { assert keys[i] == keys[1..][i - 1]; }
        }
      }
      if keys[0].id != id && Find(keys, id).Some? {
        var k := Find(keys[1..], id).value;
        var i :| 0 <= i < |keys[1..]| && keys[1..][i] == k;
        assert keys[i + 1] == k;
      }
    }
  }

  lemma SetActiveHead(keys: seq<Key>, id: int, active: bool, i: nat)
    requires i < |keys|
    ensures keys[..i] + SetActive(keys[i..], id, active) ==
            if keys[i].id == id then keys[i := keys[i].(active := active)]
            else keys[..i + 1] + SetActive(keys[i + 1..], id, active)
  {
    assert keys[i..][1..] == keys[i + 1..] && keys[..i] + [keys[i]] == keys[..i + 1];
  }

  lemma {:induction false} SetActiveTwice(keys: seq<Key>, id: int, first: bool, last: bool)
    ensures SetActive(SetActive(keys, id, first), id, last) == SetActive(keys, id, last)
  {
    if keys != [] {
      SetActiveTwice(keys[1..], id, first, last);
      var next := SetActive(keys, id, first);
      assert next == [next[0]] + next[1..];
    }
  }

  lemma {:induction false} SetActiveSame(keys: seq<Key>, id: int, active: bool)
    ensures SetActive(keys, id, active) == keys <==> Find(keys, id).None? || Find(keys, id).value.active == active
  {
    if keys != [] {
      SetActiveSame(keys[1..], id, active);
      assert keys == [keys[0]] + keys[1..];
    }
  }

  /**
   * Exactly when a revocation whose write fails leaves the list as it was: when there is no such key, or it was active.
   * An inactive key it makes active.
   */
  lemma FailedRevokeRestoresExactly(st: Store, id: int)
    ensures Revoked(st, id, false).keys == st.keys <==> !Revives(st, id, false)
    ensures Revives(st, id, false) ==>
        Find(Revoked(st, id, false).keys, id) == Some(Find(st.keys, id).value.(active := true))
  {
    SetActiveSame(st.keys, id, true);
    if Find(st.keys, id).Some? { SetActiveFinds(st.keys, id, true); }
  }

  lemma {:induction false} SetActiveFinds(keys: seq<Key>, id: int, active: bool)
    requires Find(keys, id).Some?
    ensures Find(SetActive(keys, id, active), id) == Some(Find(keys, id).value.(active := active))
  {
    if keys[0].id != id {
      SetActiveFinds(keys[1..], id, active);
    }
  }

  lemma {:induction false} CarryingMember(keys: seq<Key>, prefix: string, key: Key)
    ensures key in Carrying(keys, prefix) <==> key in keys && HasPrefix(key.description, prefix)
  {
    if keys != [] {
      CarryingMember(keys[1..], prefix, key);
      assert keys == [keys[0]] + keys[1..];
    }
  }

  lemma VictimsAreKeys(keys: seq<Key>, prefix: string, keep: nat)
    ensures Victims(keys, prefix, keep) <= IdsOf(keys)
  {
    forall id | id in Victims(keys, prefix, keep) ensures id in IdsOf(keys) {
      var matching := Carrying(keys, prefix);
      var i :| 0 <= i < |matching| - keep && matching[i].id == id;
      CarryingMember(keys, prefix, matching[i]);
    }
  }
}
