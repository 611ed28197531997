/** The key store under interleaved calls: Verify's two locked halves with any other operation in between. */
module KeyRuns {
  import opened GoStrings
  import opened Keys

  /** A Verify between its locked halves. `upTo` is the next id at the moment of the snapshot. */
  datatype Scan = Scan(candidate: string, snapshot: seq<Key>, upTo: int)

  datatype World = World(store: Store, scans: map<int, Scan>)

  datatype Event =
    | Create(hash: string, description: string, role: string, saved: bool)
    | Delete(id: int)
    | Revoke(id: int, saved: bool)
    | Prune(prefix: string, keep: nat)
    | Lookup(thread: int, candidate: string, flushed: bool)
    | Finish(thread: int, flushed: bool)

  function Step(crypto: Crypto, w: World, e: Event): World {
    match e
    case Create(hash, description, role, saved) => w.(store := Created(w.store, hash, description, role, saved))
    case Delete(id) => w.(store := Deleted(w.store, id))
    case Revoke(id, saved) => w.(store := Revoked(w.store, id, saved))
    case Prune(prefix, keep) => w.(store := Pruned(w.store, prefix, keep))
    case Lookup(thread, candidate, _) =>
      if thread in w.scans then w
      else if CacheHit(crypto, w.store, candidate) then w
      else World(LookedUp(crypto, w.store, candidate),
                 w.scans[thread := Scan(candidate, ActiveOnly(w.store.keys), w.store.nextId)])
    case Finish(thread, _) =>
      if thread !in w.scans then w
      else
        var scan := w.scans[thread];
        var found := FirstMatch(crypto, scan.snapshot, scan.candidate);
        World(if found.None? then w.store
            else Recorded(crypto, w.store, scan.candidate, found.value), w.scans - {thread})
  }

  /** The candidate an event answers for, and the answer. */
  function Answered(crypto: Crypto, w: World, e: Event): Option<(string, Answer)> {
    match e
    case Lookup(thread, candidate, flushed) =>
      if thread !in w.scans && CacheHit(crypto, w.store, candidate) then
        Some((candidate, if flushed then Matched(Find(w.store.keys, w.store.verified[crypto.digest(candidate)]).value)
            else Failed))
      else None
    case Finish(thread, flushed) =>
      if thread !in w.scans then None
      else
        var scan := w.scans[thread];
        var found := FirstMatch(crypto, scan.snapshot, scan.candidate);
        Some((scan.candidate, if found.None? then NoMatch else RecordAnswer(w.store, found.value, flushed)))
    case _ => None
  }

  function Run(crypto: Crypto, w: World, events: seq<Event>): World
    decreases |events|
  {
    if events == [] then w else Run(crypto, Step(crypto, w, events[0]), events[1..])
  }

  /** The event is a revocation that fails to be written and names a key that is already inactive. */
  predicate RevivesKey(w: World, e: Event) {
    e.Revoke? && Revives(w.store, e.id, e.saved)
  }

  /** No event of the run is one. */
  predicate NeverRevives(crypto: Crypto, w: World, events: seq<Event>)
    decreases |events|
  {
    events != [] ==> !RevivesKey(w, events[0]) && NeverRevives(crypto, Step(crypto, w, events[0]), events[1..])
  }

  /** No event of the run is one that names the id. */
  predicate NeverRevivesId(crypto: Crypto, w: World, events: seq<Event>, id: int)
    decreases |events|
  {
    events != [] ==>
      !(RevivesKey(w, events[0]) && events[0].id == id) && NeverRevivesId(crypto, Step(crypto, w, events[0]),
          events[1..], id)
  }

  // ----- The invariant of every run -----

  /** Every cached digest names a live active key that matches its key material. */
  ghost predicate CacheLive(crypto: Crypto, st: Store) {
    forall candidate :: crypto.digest(candidate) in st.verified ==>
      var key := Find(st.keys, st.verified[crypto.digest(candidate)]);
      key.Some? && key.value.active && crypto.matches(key.value.hash, candidate)
  }

  /** What a snapshot knows of an id is still so: a key that has it has the same hash, and no new key will have it. */
  ghost predicate ScanKnows(st: Store, scan: Scan) {
    forall key :: key in scan.snapshot ==>
      key.id < st.nextId && forall live :: live in st.keys && live.id == key.id ==> live.hash == key.hash
  }

  ghost predicate Sound(crypto: Crypto, w: World) {
    WellFormed(w.store) && CacheLive(crypto, w.store)
    && forall thread :: thread in w.scans ==> ScanKnows(w.store, w.scans[thread])
  }

  // ----- The invariant of runs that revive no key -----

  ghost predicate DigestIsInjective(crypto: Crypto) {
    forall a, b :: crypto.digest(a) == crypto.digest(b) ==> a == b
  }

  predicate Increasing(keys: seq<Key>) {
    forall i, j :: 0 <= i < j < |keys| ==> keys[i].id < keys[j].id
  }

  /** Ids are unique, increasing in list order, and below the next id. */
  predicate WellFormed(st: Store) {
    Increasing(st.keys) && forall key :: key in st.keys ==> key.id < st.nextId
  }

  /** Every cached digest names the first active match of its key material. */
  ghost predicate CacheRight(crypto: Crypto, st: Store) {
    forall candidate :: crypto.digest(candidate) in st.verified ==>
      var first := FirstMatch(crypto, st.keys, candidate);
      first.Some? && first.value.id == st.verified[crypto.digest(candidate)]
  }

  /**
   * A snapshot still covers every active key that is older than it, and agrees with the list on the keys they share.
   */
  ghost predicate ScanRight(st: Store, scan: Scan) {
    && Increasing(scan.snapshot) && scan.upTo <= st.nextId
    && (forall key :: key in scan.snapshot ==> key.active && key.id < scan.upTo)
    && (forall key :: key in st.keys && key.active && key.id < scan.upTo ==> key in scan.snapshot)
  }

  ghost predicate Inv(crypto: Crypto, w: World) {
    WellFormed(w.store) && CacheRight(crypto, w.store) && forall thread :: thread in w.scans ==>
        ScanRight(w.store, w.scans[thread])
  }

  // ----- First matches in an increasing list -----

  lemma {:induction false} FirstMatchIsLeast(crypto: Crypto, keys: seq<Key>, candidate: string)
    requires Increasing(keys)
    ensures var first := FirstMatch(crypto, keys, candidate);
            if first.Some? then
              && first.value in keys && first.value.active && crypto.matches(first.value.hash, candidate)
              && forall key :: key in keys && key.active && crypto.matches(key.hash, candidate) ==>
                  first.value.id <= key.id
            else forall key :: key in keys && key.active ==> !crypto.matches(key.hash, candidate)
  {
    if keys != [] {
      FirstMatchIsLeast(crypto, keys[1..], candidate);
      assert keys == [keys[0]] + keys[1..];
      forall key | key in keys[1..] ensures keys[0].id < key.id {
        var i :| 0 <= i < |keys[1..]| && keys[1..][i] == key;
        assert keys[i + 1] == key;
      }
    }
  }

  lemma SameIdSameKey(keys: seq<Key>, a: Key, b: Key)
    requires Increasing(keys) && a in keys && b in keys && a.id == b.id
    ensures a == b
  {
    var i :| 0 <= i < |keys| && keys[i] == a;
    var j :| 0 <= j < |keys| && keys[j] == b;
  }

  /** The least active match of an increasing list is the first one. */
  lemma LeastIsFirstMatch(crypto: Crypto, keys: seq<Key>, candidate: string, key: Key)
    requires Increasing(keys) && key in keys && key.active && crypto.matches(key.hash, candidate)
    requires forall other :: other in keys && other.active && crypto.matches(other.hash, candidate) ==>
        key.id <= other.id
    ensures FirstMatch(crypto, keys, candidate) == Some(key)
  {
    FirstMatchIsLeast(crypto, keys, candidate);
    SameIdSameKey(keys, key, FirstMatch(crypto, keys, candidate).value);
  }

  lemma FindActive(keys: seq<Key>, key: Key)
    requires Increasing(keys) && key in keys
    ensures Find(keys, key.id) == Some(key)
  {
    var i :| 0 <= i < |keys| && keys[i] == key;
    FindHasId(keys, key.id);
    SameIdSameKey(keys, key, Find(keys, key.id).value);
  }

  // ----- Operations that take keys away -----

  /** The list loses or deactivates keys of the given ids only, keeping order and the other keys. */
  ghost predicate Shrinks(st: Store, next: seq<Key>, gone: set<int>) {
    && Increasing(next) && (forall key :: key in next ==> key.id < st.nextId)
    && (forall key :: key in next && key.active ==> key in st.keys && key.id !in gone)
    && (forall key :: key in st.keys && key.id !in gone ==> key in next)
  }

  lemma {:induction false} WithoutMember(keys: seq<Key>, gone: set<int>, key: Key)
    ensures key in Without(keys, gone) <==> key in keys && key.id !in gone
  {
    if keys != [] {
      WithoutMember(keys[1..], gone, key);
      assert keys == [keys[0]] + keys[1..];
    }
  }

  lemma {:induction false} WithoutIncreasing(keys: seq<Key>, gone: set<int>)
    requires Increasing(keys)
    ensures Increasing(Without(keys, gone))
  {
    if keys != [] {
      var rest := Without(keys[1..], gone);
      WithoutIncreasing(keys[1..], gone);
      forall key | key in rest ensures keys[0].id < key.id {
        WithoutMember(keys[1..], gone, key);
        var i :| 0 <= i < |keys[1..]| && keys[1..][i] == key;
        assert keys[i + 1] == key;
      }
      assert forall i :: 0 <= i < |rest| ==> rest[i] in rest;
    }
  }

  /** Delete's and Prune's compaction is a filter. */
  lemma WithoutShrinks(st: Store, gone: set<int>)
    requires WellFormed(st)
    ensures Shrinks(st, Without(st.keys, gone), gone)
  {
    WithoutIncreasing(st.keys, gone);
    forall key ensures key in Without(st.keys, gone) <==> key in st.keys && key.id !in gone {
      WithoutMember(st.keys, gone, key);
    }
  }

  lemma {:induction false} SetActiveAt(keys: seq<Key>, id: int, active: bool)
    requires Increasing(keys)
    ensures |SetActive(keys, id, active)| == |keys|
    ensures forall i :: 0 <= i < |keys| ==>
      SetActive(keys, id, active)[i] == if keys[i].id == id then keys[i].(active := active) else keys[i]
  {
    if keys != [] {
      SetActiveAt(keys[1..], id, active);
      if keys[0].id == id {
        assert forall i :: 1 <= i < |keys| ==> keys[0].id < keys[i].id;
      }
    }
  }

  /**
   * Every key of the new list is a key of the old one, but for whether the one with the id is active, and conversely.
   */
  lemma SetActiveMember(keys: seq<Key>, id: int, active: bool, key: Key)
    requires Increasing(keys)
    ensures key in SetActive(keys, id, active)
            <==> (key in keys && key.id != id)
                 || (key.id == id && key.active == active && (key in keys || key.(active := !active) in keys))
  {
    var next := SetActive(keys, id, active);
    SetActiveAt(keys, id, active);
    if key in next {
      var i :| 0 <= i < |next| && next[i] == key;
      assert keys[i] in keys && (keys[i] == key || keys[i] == key.(active := !active));
    }
    if key in keys && (key.id != id || key.active == active) {
      var i :| 0 <= i < |keys| && keys[i] == key;
      assert next[i] == key;
    }
    if key.id == id && key.active == active && key.(active := !active) in keys {
      var i :| 0 <= i < |keys| && keys[i] == key.(active := !active);
      assert next[i] == key;
    }
  }

  lemma DeactivatedShrinks(st: Store, id: int)
    requires WellFormed(st)
    ensures Shrinks(st, SetActive(st.keys, id, false), {id})
  {
    SetActiveAt(st.keys, id, false);
    forall key
      ensures key in SetActive(st.keys, id, false) ==>
                key.id < st.nextId && (key.active ==> key in st.keys && key.id != id)
      ensures key in st.keys && key.id != id ==> key in SetActive(st.keys, id, false)
    {
      SetActiveMember(st.keys, id, false, key);
    }
  }

  lemma ShrinkKeepsInv(crypto: Crypto, w: World, next: seq<Key>, gone: set<int>)
    requires Inv(crypto, w) && Shrinks(w.store, next, gone)
    ensures Inv(crypto, w.(store := w.store.(keys := next, verified := Dropped(w.store.verified, gone))))
  {
    var verified := Dropped(w.store.verified, gone);
    forall candidate | crypto.digest(candidate) in verified
      ensures FirstMatch(crypto, next, candidate).Some? && FirstMatch(crypto, next, candidate).value.id ==
          verified[crypto.digest(candidate)]
    {
      var first := FirstMatch(crypto, w.store.keys, candidate).value;
      FirstMatchIsLeast(crypto, w.store.keys, candidate);
      LeastIsFirstMatch(crypto, next, candidate, first);
    }
  }

  // ----- Every step keeps the invariant -----

  lemma CreateKeepsInv(crypto: Crypto, w: World, e: Event)
    requires Inv(crypto, w) && e.Create?
    ensures Inv(crypto, Step(crypto, w, e))
  {
    var st := w.store;
    var next := st.keys + [Key(st.nextId, e.hash, e.description, e.role, true)];
    assert forall i :: 0 <= i < |st.keys| ==> st.keys[i] in st.keys;
    forall candidate | crypto.digest(candidate) in st.verified
      ensures FirstMatch(crypto, next, candidate) == FirstMatch(crypto, st.keys, candidate)
    {
      FirstMatchIsLeast(crypto, st.keys, candidate);
      LeastIsFirstMatch(crypto, next, candidate, FirstMatch(crypto, st.keys, candidate).value);
    }
  }

  lemma RemovalKeepsInv(crypto: Crypto, w: World, e: Event)
    requires Inv(crypto, w) && (e.Delete? || e.Revoke? || e.Prune?) && !RevivesKey(w, e)
    ensures Inv(crypto, Step(crypto, w, e))
  {
    var keys := w.store.keys;
    match e {
      case Delete(id) =>
        WithoutShrinks(w.store, {id});
        ShrinkKeepsInv(crypto, w, Without(keys, {id}), {id});
      case Revoke(id, saved) =>
        DeactivatedShrinks(w.store, id);
        ShrinkKeepsInv(crypto, w, SetActive(keys, id, false), {id});
        if !saved { FailedRevokeRestoresExactly(w.store, id); }
      case Prune(prefix, keep) =>
        WithoutShrinks(w.store, Victims(keys, prefix, keep));
        ShrinkKeepsInv(crypto, w, Without(keys, Victims(keys, prefix, keep)), Victims(keys, prefix, keep));
      case _ =>
    }
  }

  lemma {:induction false} ActiveOnlyMember(keys: seq<Key>, key: Key)
    ensures key in ActiveOnly(keys) <==> key in keys && key.active
  {
    if keys != [] {
      ActiveOnlyMember(keys[1..], key);
      assert keys == [keys[0]] + keys[1..];
    }
  }

  lemma {:induction false} ActiveOnlyIncreasing(keys: seq<Key>)
    requires Increasing(keys)
    ensures Increasing(ActiveOnly(keys))
  {
    if keys != [] {
      var rest := ActiveOnly(keys[1..]);
      ActiveOnlyIncreasing(keys[1..]);
      forall key | key in rest ensures keys[0].id < key.id {
        ActiveOnlyMember(keys[1..], key);
        var i :| 0 <= i < |keys[1..]| && keys[1..][i] == key;
        assert keys[i + 1] == key;
      }
      assert forall i :: 0 <= i < |rest| ==> rest[i] in rest;
    }
  }

  lemma LookupKeepsInv(crypto: Crypto, w: World, e: Event)
    requires Inv(crypto, w) && e.Lookup?
    ensures Inv(crypto, Step(crypto, w, e))
  {
    var keys := w.store.keys;
    ActiveOnlyIncreasing(keys);
    forall key ensures key in ActiveOnly(keys) <==> key in keys && key.active {
      ActiveOnlyMember(keys, key);
    }
  }

  /** What a finished scan found, when it is still active, is the first active match of the list as it is now. */
  lemma FoundIsFirst(crypto: Crypto, st: Store, scan: Scan)
    requires WellFormed(st) && ScanRight(st, scan)
    requires FirstMatch(crypto, scan.snapshot, scan.candidate).Some?
    requires var live := Find(st.keys, FirstMatch(crypto, scan.snapshot, scan.candidate).value.id);
        live.Some? && live.value.active
    ensures FirstMatch(crypto, st.keys, scan.candidate) == FirstMatch(crypto, scan.snapshot, scan.candidate)
    ensures Find(st.keys, FirstMatch(crypto, scan.snapshot, scan.candidate).value.id) ==
        FirstMatch(crypto, scan.snapshot, scan.candidate)
  {
    var found := FirstMatch(crypto, scan.snapshot, scan.candidate).value;
    FirstMatchIsLeast(crypto, scan.snapshot, scan.candidate);
    FindHasId(st.keys, found.id);
    var live := Find(st.keys, found.id).value;
    SameIdSameKey(scan.snapshot, found, live);
    forall other | other in st.keys && other.active && crypto.matches(other.hash, scan.candidate)
        ensures found.id <= other.id {
      assert other.id < found.id ==> other in scan.snapshot;
    }
    LeastIsFirstMatch(crypto, st.keys, scan.candidate, found);
  }

  lemma FinishKeepsInv(crypto: Crypto, w: World, e: Event)
    requires DigestIsInjective(crypto) && Inv(crypto, w) && e.Finish?
    ensures Inv(crypto, Step(crypto, w, e))
  {
    if e.thread in w.scans {
      var scan := w.scans[e.thread];
      var found := FirstMatch(crypto, scan.snapshot, scan.candidate);
      if found.Some? && Find(w.store.keys, found.value.id).Some? && Find(w.store.keys, found.value.id).value.active {
        FoundIsFirst(crypto, w.store, scan);
      }
    }
  }

  lemma StepKeepsInv(crypto: Crypto, w: World, e: Event)
    requires DigestIsInjective(crypto) && Inv(crypto, w) && !RevivesKey(w, e)
    ensures Inv(crypto, Step(crypto, w, e))
  {
    match e {
      case Create(_, _, _, _) => CreateKeepsInv(crypto, w, e);
      case Lookup(_, _, _) => LookupKeepsInv(crypto, w, e);
      case Finish(_, _) => FinishKeepsInv(crypto, w, e);
      case _ => RemovalKeepsInv(crypto, w, e);
    }
  }

  // ----- Every step of every run is sound -----

  /** From one list to the next: ids keep their hashes and new ones are new; a key whose id is not in `gone` stays. */
  ghost predicate Evolves(st: Store, next: Store, gone: set<int>) {
    && WellFormed(next) && st.nextId <= next.nextId
    && (forall key :: key in next.keys ==>
          key.id >= st.nextId || Knows(st.keys, key.id, key.hash))
    && (forall key :: key in st.keys && key.id !in gone ==> key in next.keys)
    && next.verified == Dropped(st.verified, gone)
  }

  lemma EvolveKeepsSound(crypto: Crypto, w: World, next: Store, gone: set<int>)
    requires Sound(crypto, w) && Evolves(w.store, next, gone)
    ensures Sound(crypto, w.(store := next))
  {
    var st := w.store;
    forall candidate | crypto.digest(candidate) in next.verified
      ensures var key := Find(next.keys, next.verified[crypto.digest(candidate)]);
              key.Some? && key.value.active && crypto.matches(key.value.hash, candidate)
    {
      var key := Find(st.keys, st.verified[crypto.digest(candidate)]).value;
      FindHasId(st.keys, st.verified[crypto.digest(candidate)]);
      FindActive(next.keys, key);
    }
    forall thread | thread in w.scans ensures ScanKnows(next, w.scans[thread]) {
      ScanStaysKnown(st, next, gone, w.scans[thread]);
    }
  }

  lemma ScanStaysKnown(st: Store, next: Store, gone: set<int>, scan: Scan)
    requires ScanKnows(st, scan) && Evolves(st, next, gone)
    ensures ScanKnows(next, scan)
  {
    forall key, live | key in scan.snapshot && live in next.keys && live.id == key.id ensures live.hash == key.hash {
      var known :| known in st.keys && known.id == live.id && known.hash == live.hash;
    }
  }

  lemma CreateEvolves(st: Store, e: Event)
    requires WellFormed(st) && e.Create?
    ensures Evolves(st, Created(st, e.hash, e.description, e.role, e.saved), {})
  {
    assert Dropped(st.verified, {}) == st.verified;
    assert forall i :: 0 <= i < |st.keys| ==> st.keys[i] in st.keys;
  }

  lemma RemovalEvolves(st: Store, gone: set<int>)
    requires WellFormed(st)
    ensures Evolves(st, st.(keys := Without(st.keys, gone), verified := Dropped(st.verified, gone)), gone)
  {
    WithoutShrinks(st, gone);
    forall key ensures key in Without(st.keys, gone) <==> key in st.keys && key.id !in gone {
      WithoutMember(st.keys, gone, key);
    }
  }

  /** The list knows the id with the hash. */
  predicate Knows(keys: seq<Key>, id: int, hash: string) {
    exists key :: key in keys && key.id == id && key.hash == hash
  }

  lemma SetActiveKnows(keys: seq<Key>, id: int, active: bool, key: Key)
    requires Increasing(keys) && key in SetActive(keys, id, active)
    ensures Knows(keys, key.id, key.hash)
  {
    SetActiveMember(keys, id, active, key);
    if key !in keys {
      assert key.(active := !active) in keys;
    }
  }

  lemma SetActiveEvolves(st: Store, id: int, active: bool)
    requires WellFormed(st)
    ensures Evolves(st, st.(keys := SetActive(st.keys, id, active), verified := Dropped(st.verified, {id})), {id})
  {
    SetActiveWellFormed(st, id, active);
    forall key | key in SetActive(st.keys, id, active) ensures Knows(st.keys, key.id, key.hash) {
      SetActiveKnows(st.keys, id, active, key);
    }
    forall key | key in st.keys && key.id != id ensures key in SetActive(st.keys, id, active) {
      SetActiveMember(st.keys, id, active, key);
    }
  }

  lemma SetActiveWellFormed(st: Store, id: int, active: bool)
    requires WellFormed(st)
    ensures WellFormed(st.(keys := SetActive(st.keys, id, active)))
  {
    var next := SetActive(st.keys, id, active);
    SetActiveAt(st.keys, id, active);
    forall key | key in next ensures key.id < st.nextId {
      var i :| 0 <= i < |next| && next[i] == key;
      assert st.keys[i] in st.keys;
    }
  }

  lemma StepKeepsSound(crypto: Crypto, w: World, e: Event)
    requires DigestIsInjective(crypto) && Sound(crypto, w)
    ensures Sound(crypto, Step(crypto, w, e))
  {
    var st := w.store;
    match e {
      case Create(_, _, _, _) =>
        CreateEvolves(st, e);
        EvolveKeepsSound(crypto, w, Step(crypto, w, e).store, {});
      case Delete(id) =>
        RemovalEvolves(st, {id});
        EvolveKeepsSound(crypto, w, st.(keys := Without(st.keys, {id}), verified := Dropped(st.verified, {id})), {id});
      case Revoke(id, saved) =>
        SetActiveEvolves(st, id, !saved);
        EvolveKeepsSound(crypto, w, st.(keys := SetActive(st.keys, id, !saved), verified :=
            Dropped(st.verified, {id})), {id});
      case Prune(prefix, keep) =>
        var gone := Victims(st.keys, prefix, keep);
        RemovalEvolves(st, gone);
        EvolveKeepsSound(crypto, w, st.(keys := Without(st.keys, gone), verified := Dropped(st.verified, gone)), gone);
      case Lookup(_, _, _) => LookupKeepsSound(crypto, w, e);
      case Finish(_, _) => FinishKeepsSound(crypto, w, e);
    }
  }

  lemma LookupKeepsSound(crypto: Crypto, w: World, e: Event)
    requires Sound(crypto, w) && e.Lookup?
    ensures Sound(crypto, Step(crypto, w, e))
  {
    var keys := w.store.keys;
    forall key | key in ActiveOnly(keys)
      ensures key.id < w.store.nextId && forall live :: live in keys && live.id == key.id ==> live.hash == key.hash
    {
      ActiveOnlyMember(keys, key);
      forall live | live in keys && live.id == key.id ensures live == key {
        SameIdSameKey(keys, live, key);
      }
    }
  }

  lemma {:induction false} FirstMatchMatches(crypto: Crypto, keys: seq<Key>, candidate: string)
    ensures var first := FirstMatch(crypto, keys, candidate);
            first.Some? ==> first.value in keys && crypto.matches(first.value.hash, candidate)
  {
    if keys != [] {
      FirstMatchMatches(crypto, keys[1..], candidate);
      assert keys == [keys[0]] + keys[1..];
    }
  }

  lemma FinishKeepsSound(crypto: Crypto, w: World, e: Event)
    requires DigestIsInjective(crypto) && Sound(crypto, w) && e.Finish?
    ensures Sound(crypto, Step(crypto, w, e))
  {
    if e.thread in w.scans {
      var scan := w.scans[e.thread];
      var found := FirstMatch(crypto, scan.snapshot, scan.candidate);
      FirstMatchMatches(crypto, scan.snapshot, scan.candidate);
      if found.Some? { FindHasId(w.store.keys, found.value.id); }
    }
  }

  // ----- Main results: every run -----

  /**
   * Over every interleaving, failed writes anywhere, ids stay unique, increasing and below the next id, and every
   * cached digest names a live active key that matches its key material.
   */
  lemma {:induction false} EveryInterleavingIsSound(crypto: Crypto, w: World, events: seq<Event>)
    requires DigestIsInjective(crypto) && Sound(crypto, w)
    ensures Sound(crypto, Run(crypto, w, events))
    decreases |events|
  {
    if events != [] {
      StepKeepsSound(crypto, w, events[0]);
      EveryInterleavingIsSound(crypto, Step(crypto, w, events[0]), events[1..]);
    }
  }

  /** So is every run from a well-formed file, which is opened with an empty cache and no scan under way. */
  lemma EveryRunFromFileIsSound(crypto: Crypto, keys: seq<Key>, nextId: int, events: seq<Event>)
    requires DigestIsInjective(crypto) && WellFormed(Store(keys, nextId, map[]))
    ensures Sound(crypto, Run(crypto, World(Store(keys, nextId, map[]), map[]), events))
  {
    EveryInterleavingIsSound(crypto, World(Store(keys, nextId, map[]), map[]), events);
  }

  /** A cached digest always hits: the stale-entry branch is unreachable. */
  lemma CacheAlwaysHits(crypto: Crypto, w: World, candidate: string)
    requires Sound(crypto, w) && crypto.digest(candidate) in w.store.verified
    ensures CacheHit(crypto, w.store, candidate) && LookedUp(crypto, w.store, candidate) == w.store
  {
  }

  /**
   * A key that Verify returns, from the cache or from a scan that ran unlocked, is active and matches at that moment.
   */
  lemma AnswersAreLive(crypto: Crypto, w: World, e: Event)
    requires Sound(crypto, w) && Answered(crypto, w, e).Some? && Answered(crypto, w, e).value.1.Matched?
    ensures var (candidate, answer) := Answered(crypto, w, e).value;
            answer.key in w.store.keys && answer.key.active && crypto.matches(answer.key.hash, candidate)
  {
    match e {
      case Lookup(thread, candidate, _) =>
        FindHasId(w.store.keys, w.store.verified[crypto.digest(candidate)]);
      case Finish(thread, _) =>
        var scan := w.scans[thread];
        FirstMatchMatches(crypto, scan.snapshot, scan.candidate);
        FindHasId(w.store.keys, FirstMatch(crypto, scan.snapshot, scan.candidate).value.id);
      case _ =>
    }
  }

  // ----- Main results: runs that revive no key -----

  /**
   * Over every interleaving in which no failing revocation names a key that is already inactive, every cached digest
   * names the first active match of its key material, and every snapshot still covers the active keys older than it.
   */
  lemma {:induction false} EveryInterleavingKeepsInv(crypto: Crypto, w: World, events: seq<Event>)
    requires DigestIsInjective(crypto) && Inv(crypto, w) && NeverRevives(crypto, w, events)
    ensures Inv(crypto, Run(crypto, w, events))
    decreases |events|
  {
    if events != [] {
      StepKeepsInv(crypto, w, events[0]);
      EveryInterleavingKeepsInv(crypto, Step(crypto, w, events[0]), events[1..]);
    }
  }

  lemma EveryRunFromFileKeepsInv(crypto: Crypto, keys: seq<Key>, nextId: int, events: seq<Event>)
    requires DigestIsInjective(crypto) && WellFormed(Store(keys, nextId, map[]))
    requires NeverRevives(crypto, World(Store(keys, nextId, map[]), map[]), events)
    ensures Inv(crypto, Run(crypto, World(Store(keys, nextId, map[]), map[]), events))
  {
    EveryInterleavingKeepsInv(crypto, World(Store(keys, nextId, map[]), map[]), events);
  }

  /**
   * No cached digest names a later key of the revived key's material, and every snapshot that is old enough has the
   * key.
   */
  ghost predicate RevivalHarmless(crypto: Crypto, w: World, key: Key) {
    && (forall candidate :: crypto.digest(candidate) in w.store.verified && crypto.matches(key.hash, candidate) ==>
          w.store.verified[crypto.digest(candidate)] < key.id)
    && (forall thread :: thread in w.scans && key.id < w.scans[thread].upTo ==>
          key.(active := true) in w.scans[thread].snapshot)
  }

  /** Exactly when the step that revives a key keeps the cache and the snapshots right all the same. */
  lemma RevivalKeepsInvExactly(crypto: Crypto, w: World, e: Event)
    requires Inv(crypto, w) && RevivesKey(w, e)
    ensures Inv(crypto, Step(crypto, w, e)) <==> RevivalHarmless(crypto, w, Find(w.store.keys, e.id).value)
  {
    var st, next, key := w.store, Step(crypto, w, e).store, Find(w.store.keys, e.id).value;
    RevivedCache(crypto, w, e);
    RevivalAdds(st, e.id);
    SetActiveWellFormed(st, e.id, true);
    forall other | other in st.keys && other.active ensures other in next.keys {
      RevivalKeepsActive(st, e.id, other);
    }
    forall candidate | crypto.digest(candidate) in st.verified
      ensures FirstMatch(crypto, next.keys, candidate) == FirstMatch(crypto, st.keys, candidate)
              <==> (crypto.matches(key.hash, candidate) ==> st.verified[crypto.digest(candidate)] < key.id)
      ensures FirstMatch(crypto, next.keys, candidate) != FirstMatch(crypto, st.keys, candidate) ==>
              FirstMatch(crypto, next.keys, candidate) == Some(key.(active := true))
    {
      RevivedFirst(crypto, w, e, candidate);
    }
    if RevivalHarmless(crypto, w, key) {
      forall thread | thread in w.scans ensures ScanRight(next, w.scans[thread]) {
        forall other | other in next.keys && other.active && other.id < w.scans[thread].upTo
          ensures other in w.scans[thread].snapshot
        {
          if other.id == e.id { SameIdSameKey(next.keys, other, key.(active := true)); }
        }
      }
    }
  }

  lemma RevivalKeepsActive(st: Store, id: int, other: Key)
    requires WellFormed(st) && Revives(st, id, false) && other in st.keys && other.active
    ensures other in Revoked(st, id, false).keys && other.id != id
  {
    FindHasId(st.keys, id);
    if other.id == id { SameIdSameKey(st.keys, other, Find(st.keys, id).value); }
    SetActiveMember(st.keys, id, true, other);
  }

  /** An inactive key is not cached, so its revocation drops nothing. */
  lemma RevivedCache(crypto: Crypto, w: World, e: Event)
    requires Inv(crypto, w) && RevivesKey(w, e)
    ensures forall candidate :: crypto.digest(candidate) in w.store.verified ==>
              crypto.digest(candidate) in Step(crypto, w, e).store.verified
              && Step(crypto, w, e).store.verified[crypto.digest(candidate)] ==
                  w.store.verified[crypto.digest(candidate)]
    ensures Step(crypto, w, e).scans == w.scans
  {
    forall candidate | crypto.digest(candidate) in w.store.verified
      ensures w.store.verified[crypto.digest(candidate)] != e.id
    {
      CacheRefinesScan(crypto, w, candidate);
    }
  }

  lemma RevivedFirst(crypto: Crypto, w: World, e: Event, candidate: string)
    requires Inv(crypto, w) && RevivesKey(w, e) && crypto.digest(candidate) in w.store.verified
    ensures var key, before, after := Find(w.store.keys, e.id).value, FirstMatch(crypto, w.store.keys, candidate),
                                      FirstMatch(crypto, Step(crypto, w, e).store.keys, candidate);
            && (after == before <==> (crypto.matches(key.hash, candidate) ==>
                w.store.verified[crypto.digest(candidate)] < key.id))
            && (after != before ==> after == Some(key.(active := true)))
  {
    var st, keys, key := w.store, Step(crypto, w, e).store.keys, Find(w.store.keys, e.id).value;
    var first, revived := FirstMatch(crypto, st.keys, candidate).value, key.(active := true);
    FirstMatchIsLeast(crypto, st.keys, candidate);
    RevivalAdds(st, e.id);
    RevivalKeepsActive(st, e.id, first);
    SetActiveWellFormed(st, e.id, true);
    forall other | other in keys && other.active && crypto.matches(other.hash, candidate)
      ensures other == revived || first.id <= other.id
    {
      if other.id == e.id { SameIdSameKey(keys, other, revived); }
    }
    if crypto.matches(key.hash, candidate) && key.id < first.id {
      LeastIsFirstMatch(crypto, keys, candidate, revived);
    } else {
      LeastIsFirstMatch(crypto, keys, candidate, first);
    }
  }

  /** The cache answers what a full scan would: a cached digest names the first active match. */
  lemma CacheRefinesScan(crypto: Crypto, w: World, candidate: string)
    requires Inv(crypto, w) && crypto.digest(candidate) in w.store.verified
    ensures CacheHit(crypto, w.store, candidate)
    ensures Find(w.store.keys, w.store.verified[crypto.digest(candidate)]) ==
        FirstMatch(crypto, w.store.keys, candidate)
  {
    FirstMatchIsLeast(crypto, w.store.keys, candidate);
    FindActive(w.store.keys, FirstMatch(crypto, w.store.keys, candidate).value);
  }

  /** The snapshot had no match, or its first match is no longer an active key. */
  predicate NoLongerMatches(crypto: Crypto, st: Store, scan: Scan) {
    var first := FirstMatch(crypto, scan.snapshot, scan.candidate);
    first.None? || forall key :: key in st.keys && key.active ==> key.id != first.value.id
  }

  /**
   * Verify is a full scan at the moment it answers: a key it returns, from the cache or from a scan that ran
   * unlocked, is the first active match of the list at that moment. A scan answers no only when its snapshot had no
   * match, or when the snapshot's first match is no longer active.
   */
  lemma AnswersAreScans(crypto: Crypto, w: World, e: Event)
    requires Inv(crypto, w) && Answered(crypto, w, e).Some?
    ensures var (candidate, answer) := Answered(crypto, w, e).value;
            && (answer.Matched? ==> FirstMatch(crypto, w.store.keys, candidate) == Some(answer.key))
            && (answer.NoMatch? ==> e.Finish? && NoLongerMatches(crypto, w.store, w.scans[e.thread]))
  {
    match e {
      case Lookup(thread, candidate, _) =>
        CacheRefinesScan(crypto, w, candidate);
      case Finish(thread, _) =>
        var scan := w.scans[thread];
        var found := FirstMatch(crypto, scan.snapshot, scan.candidate);
        if found.Some? {
          var live := Find(w.store.keys, found.value.id);
          if live.Some? && live.value.active {
            FoundIsFirst(crypto, w.store, scan);
          } else {
            forall key | key in w.store.keys && key.active ensures key.id != found.value.id {
              if key.id == found.value.id { FindActive(w.store.keys, key); }
            }
          }
        }
      case _ =>
    }
  }

  /** No active key has the id, and none will be given it. */
  predicate Gone(w: World, id: int) {
    id < w.store.nextId && forall key :: key in w.store.keys && key.active ==> key.id != id
  }

  lemma RemovalIsGone(crypto: Crypto, w: World, e: Event)
    requires WellFormed(w.store)
    requires (e.Delete? && Find(w.store.keys, e.id).Some?) || (e.Revoke? && e.saved && Find(w.store.keys, e.id).Some?)
    requires !LastAdmin(w.store.keys, Find(w.store.keys, e.id).value)
    ensures Gone(Step(crypto, w, e), e.id)
    ensures e.Delete? ==> Absent(Step(crypto, w, e), e.id)
  {
    FindHasId(w.store.keys, e.id);
    if e.Delete? {
      forall key | key in Without(w.store.keys, {e.id}) ensures key.id != e.id {
        WithoutMember(w.store.keys, {e.id}, key);
      }
    } else {
      DeactivatedShrinks(w.store, e.id);
    }
  }

  /** No key has the id, and none will be given it. */
  predicate Absent(w: World, id: int) {
    id < w.store.nextId && forall key :: key in w.store.keys ==> key.id != id
  }

  /** Exactly which step makes an inactive key active again. */
  lemma StaysGoneExactly(crypto: Crypto, w: World, e: Event, id: int)
    requires WellFormed(w.store) && Gone(w, id)
    ensures Gone(Step(crypto, w, e), id) <==> !(RevivesKey(w, e) && e.id == id)
  {
    match e {
      case Delete(removed) => WithoutShrinks(w.store, {removed});
      case Revoke(removed, saved) =>
        FailedRevokeRestoresExactly(w.store, removed);
        if RevivesKey(w, e) {
          RevivalAdds(w.store, removed);
        } else {
          DeactivatedShrinks(w.store, removed);
        }
      case Prune(prefix, keep) => WithoutShrinks(w.store, Victims(w.store.keys, prefix, keep));
      case _ =>
    }
  }

  /** A revival makes that one key active and touches no other. */
  lemma RevivalAdds(st: Store, id: int)
    requires WellFormed(st) && Revives(st, id, false)
    ensures var key := Find(st.keys, id).value.(active := true);
            && key.id == id && key in Revoked(st, id, false).keys
            && forall other :: other in Revoked(st, id, false).keys && other.id != id ==> other in st.keys
  {
    FindHasId(st.keys, id);
    SetActiveMember(st.keys, id, true, Find(st.keys, id).value.(active := true));
    forall other | other in SetActive(st.keys, id, true) && other.id != id ensures other in st.keys {
      SetActiveMember(st.keys, id, true, other);
    }
  }

  lemma StaysAbsent(crypto: Crypto, w: World, e: Event, id: int)
    requires WellFormed(w.store) && Absent(w, id)
    ensures Absent(Step(crypto, w, e), id)
  {
    forall key | key in Step(crypto, w, e).store.keys ensures key.id != id {
      match e {
        case Delete(removed) => WithoutMember(w.store.keys, {removed}, key);
        case Revoke(removed, saved) => SetActiveMember(w.store.keys, removed, !saved, key);
        case Prune(prefix, keep) => WithoutMember(w.store.keys, Victims(w.store.keys, prefix, keep), key);
        case _ =>
      }
    }
  }

  /** Verify does not return the id. */
  predicate NotReturned(crypto: Crypto, w: World, e: Event, id: int) {
    Answered(crypto, w, e).Some? && Answered(crypto, w, e).value.1.Matched? ==>
        Answered(crypto, w, e).value.1.key.id != id
  }

  /** A deleted key is never returned again, in any later interleaving, not even by a scan that had already started. */
  lemma {:induction false} DeletedIsNeverReturned(crypto: Crypto, w: World, events: seq<Event>, id: int, e: Event)
    requires DigestIsInjective(crypto) && Sound(crypto, w) && Absent(w, id)
    ensures NotReturned(crypto, Run(crypto, w, events), e, id)
    decreases |events|
  {
    if events == [] {
      if !NotReturned(crypto, w, e, id) { AnswersAreLive(crypto, w, e); }
    } else {
      StepKeepsSound(crypto, w, events[0]);
      StaysAbsent(crypto, w, events[0], id);
      DeletedIsNeverReturned(crypto, Step(crypto, w, events[0]), events[1..], id, e);
    }
  }

  /**
   * A revoked key is never returned again, not even by a scan that had already started, in any later interleaving in
   * which no failing revocation names it again; what other keys meet makes no difference.
   */
  lemma {:induction false} GoneIsNeverReturned(crypto: Crypto, w: World, events: seq<Event>, id: int, e: Event)
    requires DigestIsInjective(crypto) && Sound(crypto, w) && Gone(w, id) && NeverRevivesId(crypto, w, events, id)
    ensures NotReturned(crypto, Run(crypto, w, events), e, id)
    decreases |events|
  {
    if events == [] {
      if !NotReturned(crypto, w, e, id) { AnswersAreLive(crypto, w, e); }
    } else {
      StepKeepsSound(crypto, w, events[0]);
      StaysGoneExactly(crypto, w, events[0], id);
      GoneIsNeverReturned(crypto, Step(crypto, w, events[0]), events[1..], id, e);
    }
  }

  /**
   * The input on which a revoked key returns: revoked, and revoked again with a write that fails, it is active, and the
   * next Verify of its material returns it.
   */
  lemma RevokedKeyReturns(crypto: Crypto, candidate: string, hash: string)
    requires crypto.matches(hash, candidate)
    ensures var key := Key(1, hash, "", "viewer", true);
            var w := World(Store([key], 2, map[]), map[]);
            var revoked := Step(crypto, w, Revoke(1, true));
            var later := Run(crypto, revoked, [Revoke(1, false), Lookup(0, candidate, true)]);
            && WellFormed(w.store) && Gone(revoked, 1)
            && Answered(crypto, later, Finish(0, true)) == Some((candidate, Matched(key)))
  {
    var key := Key(1, hash, "", "viewer", true);
    var w := World(Store([key], 2, map[]), map[]);
    var revoked := Step(crypto, w, Revoke(1, true));
    assert SetActive([key], 1, false) == [key.(active := false)];
    assert SetActive([key.(active := false)], 1, true) == [key];
    var again := Step(crypto, revoked, Revoke(1, false));
    assert again.store.keys == [key] && again.store.verified == map[];
    var events := [Revoke(1, false), Lookup(0, candidate, true)];
    assert events[1..] == [Lookup(0, candidate, true)] && events[1..][1..] == [];
    assert ActiveOnly([key]) == [key];
    var looked := Step(crypto, again, Lookup(0, candidate, true));
    assert Run(crypto, looked, []) == looked;
    assert Run(crypto, again, [Lookup(0, candidate, true)]) == Run(crypto, looked, [Lookup(0, candidate, true)][1..]);
    assert Run(crypto, revoked, events) == Run(crypto, again, events[1..]);
  }

  /**
   * And the input on which the cache and a full scan part: a revived key before the cached one, of the same material.
   */
  lemma RevivedKeyIsFirst(crypto: Crypto, candidate: string, hash: string)
    requires DigestIsInjective(crypto) && crypto.matches(hash, candidate)
    ensures var first, second := Key(1, hash, "", "viewer", false), Key(2, hash, "", "viewer", true);
            var w := World(Store([first, second], 3, map[crypto.digest(candidate) := 2]), map[]);
            var next := Step(crypto, w, Revoke(1, false));
            && Inv(crypto, w) && RevivesKey(w, Revoke(1, false))
            && Answered(crypto, next, Lookup(0, candidate, true)) == Some((candidate, Matched(second)))
            && FirstMatch(crypto, next.store.keys, candidate) == Some(first.(active := true))
  {
    var first, second := Key(1, hash, "", "viewer", false), Key(2, hash, "", "viewer", true);
    var keys := [first, second];
    var w := World(Store(keys, 3, map[crypto.digest(candidate) := 2]), map[]);
    assert keys[1..] == [second] && FirstMatch(crypto, [second], candidate) == Some(second);
    assert Inv(crypto, w);
    var revived := [first.(active := true), second];
    assert Find(keys, 1) == Some(first) && SetActive(keys, 1, true) == revived;
    var next := Step(crypto, w, Revoke(1, false));
    assert next.store.keys == revived && revived[1..] == [second];
    assert crypto.digest(candidate) in next.store.verified && next.store.verified[crypto.digest(candidate)] == 2;
    assert Find(revived, 2) == Find([second], 2) == Some(second);
    assert FirstMatch(crypto, revived, candidate) == Some(revived[0]);
  }

  // ----- The lockout guard -----

  lemma ShrinkKeepsAdmin(st: Store, next: seq<Key>, gone: set<int>, admin: Key)
    requires Shrinks(st, next, gone) && admin in st.keys && ActiveAdmin(admin) && admin.id !in gone
    ensures HasAdmin(next)
  {
    var i :| 0 <= i < |next| && next[i] == admin;
  }

  lemma OtherAdmin(keys: seq<Key>, key: Key) returns (admin: Key)
    requires Increasing(keys) && HasAdmin(keys) && key in keys && !LastAdmin(keys, key)
    ensures admin in keys && ActiveAdmin(admin) && admin.id != key.id
  {
    var i :| 0 <= i < |keys| && ActiveAdmin(keys[i]);
    admin := keys[i];
    if admin.id == key.id {
      SameIdSameKey(keys, admin, key);
      var j :| 0 <= j < |keys| && keys[j].id != key.id && ActiveAdmin(keys[j]);
      admin := keys[j];
    }
  }

  /** Creating, deleting, revoking and verifying keep an active admin whenever there was one. */
  lemma GuardKeepsAdmin(crypto: Crypto, w: World, e: Event)
    requires WellFormed(w.store) && HasAdmin(w.store.keys) && !e.Prune?
    ensures HasAdmin(Step(crypto, w, e).store.keys)
  {
    var keys := w.store.keys;
    if e.Create? && e.saved {
      var i :| 0 <= i < |keys| && ActiveAdmin(keys[i]);
      assert Step(crypto, w, e).store.keys[i] == keys[i];
    }
    if (e.Delete? || e.Revoke?) && Find(keys, e.id).Some? && !LastAdmin(keys, Find(keys, e.id).value) {
      FindHasId(keys, e.id);
      var admin := OtherAdmin(keys, Find(keys, e.id).value);
      var next := Step(crypto, w, e).store.keys;
      if e.Delete? {
        WithoutMember(keys, {e.id}, admin);
      } else {
        SetActiveMember(keys, e.id, !e.saved, admin);
      }
      var i :| 0 <= i < |next| && next[i] == admin;
    }
  }

  /** The carriers a prune is after: all but the newest `keep`. */
  function Oldest(keys: seq<Key>, prefix: string, keep: nat): seq<Key> {
    var matching := Carrying(keys, prefix);
    if |matching| <= keep then [] else matching[..|matching| - keep]
  }

  lemma VictimsExact(keys: seq<Key>, prefix: string, keep: nat, key: Key)
    requires Increasing(keys) && key in keys
    ensures key.id in Victims(keys, prefix, keep) <==> key in Oldest(keys, prefix, keep) && !LastAdmin(keys, key)
  {
    var matching := Carrying(keys, prefix);
    if |matching| > keep {
      var oldest := matching[..|matching| - keep];
      if key.id in Victims(keys, prefix, keep) {
        var i :| 0 <= i < |matching| - keep && !LastAdmin(keys, matching[i]) && matching[i].id == key.id;
        CarryingMember(keys, prefix, matching[i]);
        SameIdSameKey(keys, key, matching[i]);
        assert oldest[i] == key;
      }
      if key in oldest && !LastAdmin(keys, key) {
        var i :| 0 <= i < |oldest| && oldest[i] == key;
        assert matching[i] == key;
      }
    }
  }

  /**
   * Exactly when a prune leaves an active admin: there was a sole active admin (which is spared), or some active
   * admin is not among the carriers the prune is after.
   */
  lemma PruneKeepsAdminExactly(w: World, prefix: string, keep: nat)
    requires WellFormed(w.store)
    ensures HasAdmin(Pruned(w.store, prefix, keep).keys) <==>
            (exists i :: 0 <= i < |w.store.keys| && LastAdmin(w.store.keys, w.store.keys[i]))
            || exists i :: 0 <= i < |w.store.keys| && ActiveAdmin(w.store.keys[i])
                && w.store.keys[i] !in Oldest(w.store.keys, prefix, keep)
  {
    var keys, victims := w.store.keys, Victims(w.store.keys, prefix, keep);
    var next := Pruned(w.store, prefix, keep).keys;
    WithoutShrinks(w.store, victims);
    if HasAdmin(next) {
      var i :| 0 <= i < |next| && ActiveAdmin(next[i]);
      assert next[i] in next;
      var j :| 0 <= j < |keys| && keys[j] == next[i];
      VictimsExact(keys, prefix, keep, keys[j]);
    }
    if i :| 0 <= i < |keys|
            && (LastAdmin(keys, keys[i]) || (ActiveAdmin(keys[i]) && keys[i] !in Oldest(keys, prefix, keep))) {
      VictimsExact(keys, prefix, keep, keys[i]);
      ShrinkKeepsAdmin(w.store, Without(keys, victims), victims, keys[i]);
    }
  }

  /**
   * Two admins that both carry the prefix and are both old enough go together, although neither was the last when it
   * was judged.
   */
  lemma PruneCanLockOut(newest: Key)
    requires newest.id > 2 && newest.role != "admin"
    ensures var first, second :=
        Key(1, "h1", newest.description, "admin", true), Key(2, "h2", newest.description, "admin", true);
            var st := Store([first, second, newest], newest.id + 1, map[]);
            WellFormed(st) && HasAdmin(st.keys) && Pruned(st, newest.description, 1).keys == [newest]
  {
    var first, second := Key(1, "h1", newest.description, "admin", true),
        Key(2, "h2", newest.description, "admin", true);
    var keys := [first, second, newest];
    assert ActiveAdmin(keys[0]) && ActiveAdmin(keys[1]);
    assert keys[1..] == [second, newest] && keys[1..][1..] == [newest] && keys[1..][1..][1..] == [];
    assert Carrying(keys, newest.description) == keys by {
      assert Carrying([newest], newest.description) == [newest];
      assert Carrying([second, newest], newest.description) == [second, newest];
    }
    var victims := Removable(keys, keys, 2);
    assert !LastAdmin(keys, keys[0]) && !LastAdmin(keys, keys[1]);
    assert keys[0].id in victims && keys[1].id in victims && newest.id !in victims;
    assert Without([newest], victims) == [newest];
    assert Without([second, newest], victims) == [newest];
  }
}
