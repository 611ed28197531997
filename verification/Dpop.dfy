/**
 * Proof-of-possession proofs (internal/dpop/dpop.go): the order of checks and the replay store, RFC 9449 sections 4.3
 * and 11.1.
 */
module Dpop {
  import opened GoStrings

  // Times are nanoseconds. A reading of time.Now() holds the wall clock and the monotonic clock: issue times, which
  // come from outside, are compared by wall clock, and expiries, which come from earlier readings, by monotonic
  // clock.
  const SECOND := 1_000_000_000
  const PROOF_WINDOW := 60 * SECOND
  const REPLAY_WINDOW := 300 * SECOND
  const MAX_JTI := 256

  datatype JWK = JWK(kty: string, crv: string, x: string, y: string, d: string)

  datatype Header = Header(typ: string, alg: string, jwk: Option<JWK>)

  /** iat is in seconds. */
  datatype Claims = Claims(jti: string, htm: string, htu: string, iat: int, ath: string)

  /** The codecs, hashes and curve operations the checks call. */
  datatype Library = Library(
    decode: string -> Option<string>,
    header: string -> Option<Header>,
    claims: string -> Option<Claims>,
    onCurve: (string, string) -> bool,
    signed: (JWK, string, string) -> bool,
    normalize: string -> Option<string>,
    tokenHash: string -> string,
    thumbprint: JWK -> string,
    jtiHash: string -> string)

  datatype Call = Call(proof: string, httpMethod: string, htu: string, token: string, boundJKT: string, wall: int,
      mono: int)

  datatype Outcome = Accepted | ErrProof | ErrBinding

  datatype Checked = Passed(claims: Claims) | Broken(outcome: Outcome)

  /** publicKey */
  predicate UsableKey(lib: Library, jwk: Option<JWK>) {
    jwk.Some? && jwk.value.kty == "EC" && jwk.value.crv == "P-256" && jwk.value.d == "" &&
    var x, y := lib.decode(jwk.value.x), lib.decode(jwk.value.y);
    x.Some? && y.Some? && |x.value| == 32 && |y.value| == 32 && lib.onCurve(x.value, y.value)
  }

  predicate InWindow(iat: int, wall: int) {
    wall - PROOF_WINDOW <= iat * SECOND <= wall + PROOF_WINDOW
  }

  /** The header, key and signature of a proof, down to its claims. */
  function SignedClaims(lib: Library, proof: string): Option<(JWK, Claims)> {
    var parts := Split(proof, '.');
    if |parts| != 3 then None
    else
      var headerRaw := lib.decode(parts[0]);
      if headerRaw.None? || lib.header(headerRaw.value).None? then None
      else
        var h := lib.header(headerRaw.value).value;
        var signature := lib.decode(parts[2]);
        if h.typ != "dpop+jwt" || h.alg != "ES256" || !UsableKey(lib, h.jwk) then None
        else if signature.None? || |signature.value| != 64 then None
        else if !lib.signed(h.jwk.value, parts[0] + "." + parts[1], signature.value) then None
        else
          var payloadRaw := lib.decode(parts[1]);
          if payloadRaw.None? || lib.claims(payloadRaw.value).None? then None
          else Some((h.jwk.value, lib.claims(payloadRaw.value).value))
  }

  /** Every check of Verify before the replay store is asked. */
  function Check(lib: Library, call: Call): Checked {
    match SignedClaims(lib, call.proof)
    case None => Broken(ErrProof)
    case Some((jwk, c)) =>
      if c.jti == "" || |c.jti| > MAX_JTI || c.htm == "" || c.htu == "" || c.iat == 0 then Broken(ErrProof)
      else if c.htm != call.httpMethod then Broken(ErrProof)
      else if lib.normalize(c.htu).None? || lib.normalize(call.htu).None? then Broken(ErrProof)
      else if lib.normalize(c.htu) != lib.normalize(call.htu) then Broken(ErrProof)
      else if !InWindow(c.iat, call.wall) then Broken(ErrProof)
      else if c.ath != lib.tokenHash(call.token) then Broken(ErrProof)
      else if lib.thumbprint(jwk) != call.boundJKT then Broken(ErrBinding)
      else Passed(c)
  }

  function Purged(ids: map<string, int>, mono: int): map<string, int> {
    map key | key in ids && ids[key] > mono :: ids[key]
  }

  function Remembered(ids: map<string, int>, key: string, mono: int): map<string, int> {
    var live := Purged(ids, mono);
    if key in live then live else live[key := mono + REPLAY_WINDOW]
  }

  function After(lib: Library, ids: map<string, int>, call: Call): map<string, int> {
    match Check(lib, call)
    case Broken(_) => ids
    case Passed(c) => Remembered(ids, lib.jtiHash(c.jti), call.mono)
  }

  function Answer(lib: Library, ids: map<string, int>, call: Call): Outcome {
    match Check(lib, call)
    case Broken(outcome) => outcome
    case Passed(c) => if lib.jtiHash(c.jti) in Purged(ids, call.mono) then ErrProof else Accepted
  }

  class Seen {
    const lib: Library
    var ids: map<string, int>

    constructor (lib: Library)
      ensures this.lib == lib && ids == map[]
    {
      this.lib, ids := lib, map[];
    }

    /** remember: purge what expired, refuse what is left, note the rest. */
    method Remember(jti: string, mono: int) returns (unseen: bool)
      modifies this
      ensures ids == Remembered(old(ids), lib.jtiHash(jti), mono)
      ensures unseen <==> lib.jtiHash(jti) !in Purged(old(ids), mono)
    {
      var todo := ids.Keys;
      while todo != {}
        invariant todo <= ids.Keys <= old(ids).Keys
        invariant forall key :: key in ids ==> ids[key] == old(ids)[key]
        invariant forall key :: key in old(ids) ==> (key in ids <==> key in todo || old(ids)[key] > mono)
        decreases |todo|
      {
        var key :| key in todo;
        todo := todo - {key};
        if ids[key] <= mono {
          ids := ids - {key};
        }
      }
      assert ids == Purged(old(ids), mono);
      var key := lib.jtiHash(jti);
      if key in ids {
        return false;
      }
      ids := ids[key := mono + REPLAY_WINDOW];
      return true;
    }

    /** Verify: the store is touched only by a proof that passed every other check. */
    method Verify(call: Call) returns (outcome: Outcome)
      modifies this
      ensures ids == After(lib, old(ids), call)
      ensures outcome == Answer(lib, old(ids), call)
    {
      match Check(lib, call) {
        case Broken(refusal) =>
          return refusal;
        case Passed(c) =>
          var first := Remember(c.jti, call.mono);
          return if first then Accepted else ErrProof;
      }
    }
  }

  // ----- What an accepted proof has shown -----

  /** The key is a public one on the curve P-256: two coordinates of 32 bytes, and no private part. */
  predicate PublicP256(lib: Library, jwk: JWK) {
    && jwk.kty == "EC" && jwk.crv == "P-256" && jwk.d == ""
    && var (x, y) := (lib.decode(jwk.x), lib.decode(jwk.y));
       x.Some? && y.Some? && |x.value| == 32 && |y.value| == 32 && lib.onCurve(x.value, y.value)
  }

  /** The requirements of section 4.3 of RFC 9449 on the proof itself, its key being `jwk` and its claims `c`. */
  predicate ProperlySigned(lib: Library, proof: string, jwk: JWK, c: Claims) {
    var parts := Split(proof, '.');
    && |parts| == 3
    && var (head, payload, sig) := (lib.decode(parts[0]), lib.decode(parts[1]), lib.decode(parts[2]));
    && head.Some? && payload.Some? && sig.Some?
    && lib.claims(payload.value) == Some(c)
    && lib.header(head.value) == Some(Header("dpop+jwt", "ES256", Some(jwk)))
    && PublicP256(lib, jwk) && |sig.value| == 64 && lib.signed(jwk, parts[0] + "." + parts[1], sig.value)
  }

  /** The requirements on the request, the clock and the token. */
  predicate CoversRequest(lib: Library, c: Claims, call: Call) {
    && 0 < |c.jti| <= 256 && c.htu != "" && c.iat != 0
    && c.htm == call.httpMethod && c.htm != ""
    && lib.normalize(c.htu).Some? && lib.normalize(c.htu) == lib.normalize(call.htu)
    && -60 * SECOND <= call.wall - c.iat * SECOND <= 60 * SECOND && c.ath == lib.tokenHash(call.token)
  }

  lemma SignedExactly(lib: Library, proof: string, jwk: JWK, c: Claims)
    ensures SignedClaims(lib, proof) == Some((jwk, c)) <==> ProperlySigned(lib, proof, jwk, c)
  {
  }

  /**
   * A proof reaches the replay store exactly when it is properly signed, covers the request and is bound to the
   * token; a binding error means that the binding alone is missing.
   */
  lemma ChecksExactly(lib: Library, call: Call, jwk: JWK, c: Claims)
    ensures ProperlySigned(lib, call.proof, jwk, c) && CoversRequest(lib, c, call) ==>
              Check(lib, call) == if lib.thumbprint(jwk) == call.boundJKT then Passed(c) else Broken(ErrBinding)
    ensures ProperlySigned(lib, call.proof, jwk, c) && !CoversRequest(lib, c, call) ==>
        Check(lib, call) == Broken(ErrProof)
    ensures (forall key, claims :: !ProperlySigned(lib, call.proof, key, claims)) ==>
        Check(lib, call) == Broken(ErrProof)
  {
    SignedExactly(lib, call.proof, jwk, c);
    match SignedClaims(lib, call.proof) {
      case None =>
      case Some((key, claims)) => SignedExactly(lib, call.proof, key, claims);
    }
  }

  // ----- Runs -----

  /** The store before call `n` of a run that starts empty. */
  function StoreAt(lib: Library, calls: seq<Call>, n: nat): map<string, int>
    requires n <= |calls|
  {
    if n == 0 then map[] else After(lib, StoreAt(lib, calls, n - 1), calls[n - 1])
  }

  predicate AcceptedAt(lib: Library, calls: seq<Call>, n: nat)
    requires n < |calls|
  {
    Answer(lib, StoreAt(lib, calls, n), calls[n]).Accepted?
  }

  /** Call `n` passed every check before the store. */
  predicate ReachesStore(lib: Library, calls: seq<Call>, n: nat)
    requires n < |calls|
  {
    Check(lib, calls[n]).Passed?
  }

  function IdAt(lib: Library, calls: seq<Call>, n: nat): string
    requires n < |calls| && ReachesStore(lib, calls, n)
  {
    lib.jtiHash(Check(lib, calls[n]).claims.jti)
  }

  /** Call `k` reaches the store when the entry that call `i` made has expired, and purges it. */
  predicate PurgesEntryOf(lib: Library, calls: seq<Call>, i: nat, k: nat)
    requires i < |calls| && k < |calls|
  {
    ReachesStore(lib, calls, k) && calls[k].mono >= calls[i].mono + REPLAY_WINDOW
  }

  /** What one call does to one entry. */
  lemma EntryAfter(lib: Library, ids: map<string, int>, call: Call, key: string)
    ensures var next, check := After(lib, ids, call), Check(lib, call);
            && (check.Broken? ==> next == ids)
            && (key in ids && ids[key] > call.mono ==> key in next && next[key] == ids[key])
            && (check.Passed? && lib.jtiHash(check.claims.jti) != key ==>
                  (key in next <==> key in ids && ids[key] > call.mono) && (key in next ==> next[key] == ids[key]))
            && (check.Passed? && lib.jtiHash(check.claims.jti) == key && key !in Purged(ids, call.mono) ==>
                  key in next && next[key] == call.mono + REPLAY_WINDOW)
  {
  }

  lemma EntryMade(lib: Library, calls: seq<Call>, i: nat)
    requires i < |calls| && AcceptedAt(lib, calls, i)
    ensures var key := IdAt(lib, calls, i);
            key in StoreAt(lib, calls, i + 1) && StoreAt(lib, calls, i + 1)[key] == calls[i].mono + REPLAY_WINDOW
  {
    EntryAfter(lib, StoreAt(lib, calls, i), calls[i], IdAt(lib, calls, i));
    assert StoreAt(lib, calls, i + 1) == After(lib, StoreAt(lib, calls, i), calls[i]);
  }

  /** An accepted proof's id stays in the store as long as no call purges it. */
  lemma {:induction false} StaysRemembered(lib: Library, calls: seq<Call>, i: nat, n: nat)
    requires i < n <= |calls| && AcceptedAt(lib, calls, i)
    requires forall k :: i < k < n ==> !PurgesEntryOf(lib, calls, i, k)
    ensures var key := IdAt(lib, calls, i);
            key in StoreAt(lib, calls, n) && StoreAt(lib, calls, n)[key] == calls[i].mono + REPLAY_WINDOW
    decreases n
  {
    if n == i + 1 {
      EntryMade(lib, calls, i);
    } else {
      StaysRemembered(lib, calls, i, n - 1);
      EntryAfter(lib, StoreAt(lib, calls, n - 1), calls[n - 1], IdAt(lib, calls, i));
      assert !PurgesEntryOf(lib, calls, i, n - 1);
    }
  }

  /** No call between the two brings the id. */
  ghost predicate NoOther(lib: Library, calls: seq<Call>, i: nat, n: nat)
    requires i < |calls| && n <= |calls| && ReachesStore(lib, calls, i)
  {
    forall m :: i < m < n && ReachesStore(lib, calls, m) ==> IdAt(lib, calls, m) != IdAt(lib, calls, i)
  }

  /** Until the id is brought again its entry is the first one's or gone: gone as soon as a call has purged it. */
  lemma {:induction false} EntryOrGone(lib: Library, calls: seq<Call>, i: nat, n: nat)
    requires i < n <= |calls| && AcceptedAt(lib, calls, i) && NoOther(lib, calls, i, n)
    ensures var key := IdAt(lib, calls, i);
            && (key in StoreAt(lib, calls, n) ==> StoreAt(lib, calls, n)[key] == calls[i].mono + REPLAY_WINDOW)
            && ((exists k :: i < k < n && PurgesEntryOf(lib, calls, i, k)) ==> key !in StoreAt(lib, calls, n))
    decreases n
  {
    if n == i + 1 {
      EntryMade(lib, calls, i);
    } else {
      EntryOrGone(lib, calls, i, n - 1);
      assert ReachesStore(lib, calls, n - 1) ==> IdAt(lib, calls, n - 1) != IdAt(lib, calls, i);
      assert PurgesEntryOf(lib, calls, i, n - 1) <==>
        ReachesStore(lib, calls, n - 1) && calls[n - 1].mono >= calls[i].mono + REPLAY_WINDOW;
      EntryAfter(lib, StoreAt(lib, calls, n - 1), calls[n - 1], IdAt(lib, calls, i));
      assert StoreAt(lib, calls, n) == After(lib, StoreAt(lib, calls, n - 1), calls[n - 1]);
    }
  }

  /**
   * Exactly when an id is accepted again, no call between having brought it: when some call in between, or the second
   * itself, reached the store at or after the first entry's expiry.
   */
  lemma AcceptedAgainExactly(lib: Library, calls: seq<Call>, i: nat, j: nat)
    requires i < j < |calls| && AcceptedAt(lib, calls, i) && ReachesStore(lib, calls, j)
    requires IdAt(lib, calls, j) == IdAt(lib, calls, i)
    requires NoOther(lib, calls, i, j)
    ensures AcceptedAt(lib, calls, j) <==> exists k :: i < k <= j && PurgesEntryOf(lib, calls, i, k)
  {
    EntryOrGone(lib, calls, i, j);
    if !exists k :: i < k < j && PurgesEntryOf(lib, calls, i, k) {
      StaysRemembered(lib, calls, i, j);
      assert PurgesEntryOf(lib, calls, i, j) <==> calls[j].mono >= calls[i].mono + REPLAY_WINDOW;
    }
  }

  /**
   * Between a call and a later one, no reading of the monotonic clock up to the later one runs ahead of the wall
   * clock's advance by as much as the replay window exceeds the span in which one issue time is acceptable. The
   * readings are taken before the store is locked, so neither clock need be in order over the calls.
   */
  ghost predicate BoundedSkew(calls: seq<Call>) {
    forall a, k, b :: 0 <= a < k <= b < |calls| ==>
      calls[k].mono - calls[a].mono < (calls[b].wall - calls[a].wall) + (REPLAY_WINDOW - 2 * PROOF_WINDOW)
  }

  /**
   * No replay: in no run is a proof accepted twice, nor any two proofs with the same id and issue time, although
   * entries are purged and calls reach the store out of order, as long as the skew stays below 180 seconds.
   */
  lemma NoReplay(lib: Library, calls: seq<Call>, i: nat, j: nat)
    requires i < j < |calls| && BoundedSkew(calls)
    requires AcceptedAt(lib, calls, i) && AcceptedAt(lib, calls, j)
    ensures calls[i].proof != calls[j].proof
    ensures Check(lib, calls[i]).claims.jti != Check(lib, calls[j]).claims.jti
            || Check(lib, calls[i]).claims.iat != Check(lib, calls[j]).claims.iat
  {
    var first, second := Check(lib, calls[i]).claims, Check(lib, calls[j]).claims;
    if first.jti == second.jti && first.iat == second.iat {
      forall k | i < k <= j ensures !PurgesEntryOf(lib, calls, i, k) {
        assert calls[k].mono - calls[i].mono < REPLAY_WINDOW;
      }
      StaysRemembered(lib, calls, i, j);
    }
  }

  /** The monotonic clock goes forwards over the calls, and the wall clock never falls 180 seconds behind it. */
  ghost predicate SteadyClocks(calls: seq<Call>) {
    forall a, b :: 0 <= a < b < |calls| ==>
      0 <= calls[b].mono - calls[a].mono < (calls[b].wall - calls[a].wall) + (REPLAY_WINDOW - 2 * PROOF_WINDOW)
  }

  lemma SteadyClocksAreBounded(calls: seq<Call>)
    requires SteadyClocks(calls)
    ensures BoundedSkew(calls)
  {
    forall a, k, b | 0 <= a < k <= b < |calls|
      ensures calls[k].mono - calls[a].mono < (calls[b].wall - calls[a].wall) + (REPLAY_WINDOW - 2 * PROOF_WINDOW)
    {
      assert k < b ==> 0 <= calls[b].mono - calls[k].mono;
    }
  }

  /** With one clock for both: any run in which no reading is 180 seconds or more below an earlier one. */
  lemma OneClockIsBounded(calls: seq<Call>)
    requires forall n :: 0 <= n < |calls| ==> calls[n].wall == calls[n].mono
    requires forall k, b :: 0 <= k < b < |calls| ==> calls[k].wall - calls[b].wall < REPLAY_WINDOW - 2 * PROOF_WINDOW
    ensures BoundedSkew(calls)
  {
  }

  /**
   * The bound is tight: for every drift of 180 seconds or more, a proof that is good at all is accepted twice, at the
   * two ends of its window.
   */
  lemma DriftReplays(lib: Library, call: Call, drift: int)
    requires Check(lib, call).Passed? && drift >= REPLAY_WINDOW - 2 * PROOF_WINDOW
    ensures var issued := Check(lib, call).claims.iat * SECOND;
            var first := call.(wall := issued - PROOF_WINDOW, mono := 0);
            var again := call.(wall := issued + PROOF_WINDOW, mono := 2 * PROOF_WINDOW + drift);
            && (again.mono - first.mono) - (again.wall - first.wall) == drift
            && AcceptedAt(lib, [first, again], 0) && AcceptedAt(lib, [first, again], 1)
  {
    var issued := Check(lib, call).claims.iat * SECOND;
    var first := call.(wall := issued - PROOF_WINDOW, mono := 0);
    var again := call.(wall := issued + PROOF_WINDOW, mono := 2 * PROOF_WINDOW + drift);
    var calls := [first, again];
    assert Check(lib, first) == Check(lib, call) && Check(lib, again) == Check(lib, call);
    assert StoreAt(lib, calls, 0) == map[];
    assert AcceptedAt(lib, calls, 0) && ReachesStore(lib, calls, 1);
    assert PurgesEntryOf(lib, calls, 0, 1);
    AcceptedAgainExactly(lib, calls, 0, 1);
  }
}
