/** The caches that keep a signed proof from being accepted twice: the proof-of-possession cache,
    which stamps proofs in milliseconds, and the DPoP cache, which stamps them in seconds.

    Clocks are nanoseconds and `unit` is the nanoseconds in one stamp. Both caches forget stamps that
    lie more than twice the allowed skew behind the clock of the current call. */
module ProofCache {
  import opened Common

  const MILLISECOND: nat := 1_000_000
  const SECOND: nat := 1_000_000_000

  type Cache = map<string, int>

  /** One verification. `bound` stands for the checks made before freshness (who, which request) and
      `genuine` for those made after it (digest, signature, access token). */
  datatype Call = Call(key: string, created: int, now: int, bound: bool, genuine: bool)

  datatype Answer = Accepted | Unbound | Stale | Forged | Replayed

  predicate Fresh(created: int, now: int, skew: int, unit: nat) {
    -skew <= now - created * unit <= skew
  }

  /** The clock less twice the skew, in whole stamps rounded down. */
  function Cutoff(now: int, skew: int, unit: nat): int
    requires 1 <= unit
  {
    (now - 2 * skew) / unit
  }

  function Pruned(cache: Cache, cutoff: int): Cache {
    map k | k in cache && cache[k] >= cutoff :: cache[k]
  }

  function Judge(cache: Cache, c: Call, skew: int, unit: nat): (Cache, Answer)
    requires 1 <= unit
  {
    if !c.bound then (cache, Unbound)
    else if !Fresh(c.created, c.now, skew, unit) then (cache, Stale)
    else if !c.genuine then (cache, Forged)
    else
      var kept := Pruned(cache, Cutoff(c.now, skew, unit));
      if c.key in kept then (kept, Replayed) else (kept[c.key := c.created], Accepted)
  }

  /** What one verification decides, in real time: the checks before freshness, then a clock within the skew of the
      stamp, then the checks after it, and then a replay exactly if the cache holds the key with a stamp that ends
      later than twice the skew ago. Only a verification that gets that far changes the cache: it forgets what ended
      earlier, and an accepted proof is stamped. */
  lemma JudgedExactly(cache: Cache, c: Call, skew: int, unit: nat, after: Cache, answer: Answer)
    requires 1 <= unit && (after, answer) == Judge(cache, c, skew, unit)
    ensures answer == Unbound <==> !c.bound
    ensures answer == Stale <==> c.bound && (c.now - c.created * unit > skew || c.created * unit - c.now > skew)
    ensures answer == Forged <==>
              c.bound && c.now - c.created * unit <= skew && c.created * unit - c.now <= skew && !c.genuine
    ensures answer in {Unbound, Stale, Forged} ==> after == cache
    ensures answer in {Accepted, Replayed} ==>
              && (answer == Replayed <==> c.key in cache && cache[c.key] * unit + unit > c.now - 2 * skew)
              && (forall k | k != c.key || answer == Replayed ::
                    k in after <==> k in cache && cache[k] * unit + unit > c.now - 2 * skew)
              && (forall k <- after | k != c.key || answer == Replayed :: k in cache && after[k] == cache[k])
    ensures answer == Accepted ==> c.key in after && after[c.key] == c.created
  {
    forall k <- cache
      ensures cache[k] >= Cutoff(c.now, skew, unit) <==> cache[k] * unit + unit > c.now - 2 * skew
    {
      CutoffMeans(cache[k], c.now, skew, unit);
    }
  }

  // ---- runs ---------------------------------------------------------------------------------

  function After(cs: seq<Call>, skew: int, unit: nat): Cache
    requires 1 <= unit
  {
    if cs == [] then map[]
    else Judge(After(cs[..|cs| - 1], skew, unit), cs[|cs| - 1], skew, unit).0
  }

  function AnswerAt(cs: seq<Call>, i: nat, skew: int, unit: nat): Answer
    requires 1 <= unit && i < |cs|
  {
    Judge(After(cs[..i], skew, unit), cs[i], skew, unit).1
  }

  /** No call's clock lies `bound` or more behind an earlier call's. */
  ghost predicate JumpsBelow(cs: seq<Call>, bound: int) {
    forall i, j :: 0 <= i < j < |cs| ==> cs[i].now - cs[j].now < bound
  }

  ghost predicate NoneTwice(cs: seq<Call>, skew: int, unit: nat)
    requires 1 <= unit
  {
    forall i, j :: 0 <= i < j < |cs| && AnswerAt(cs, i, skew, unit).Accepted? && AnswerAt(cs, j, skew, unit).Accepted?
      ==> (cs[i].key, cs[i].created) != (cs[j].key, cs[j].created)
  }

  // ---- what the cache still knows -----------------------------------------------------------

  lemma CutoffMeans(created: int, now: int, skew: int, unit: nat)
    requires 1 <= unit
    ensures created < Cutoff(now, skew, unit) <==> created * unit + unit <= now - 2 * skew
  {
    var c := Cutoff(now, skew, unit);
    var r := (now - 2 * skew) % unit;
    assert now - 2 * skew == c * unit + r;
    if created < c {
      TimesGrows(created + 1, c, unit);
    } else {
      TimesGrows(c, created, unit);
    }
  }

  lemma TimesGrows(a: int, b: int, unit: nat)
    requires a <= b
    ensures a * unit <= b * unit
  {
  }

  lemma Prefixes(cs: seq<Call>, i: nat, k: nat, skew: int, unit: nat)
    requires 1 <= unit && i < k <= |cs|
    ensures AnswerAt(cs[..k], i, skew, unit) == AnswerAt(cs, i, skew, unit)
  {
    assert cs[..k][..i] == cs[..i];
  }

  /** A call that was itself fresh, and whose cutoff has passed the stamp. */
  ghost predicate Prunes(c: Call, created: int, skew: int, unit: nat)
    requires 1 <= unit
  {
    Fresh(c.created, c.now, skew, unit) && created < Cutoff(c.now, skew, unit)
  }

  /** An accepted proof is in the cache until a fresh call's cutoff has passed it. */
  lemma {:induction false} Remembered(cs: seq<Call>, i: nat, skew: int, unit: nat)
    requires 1 <= unit && i < |cs| && AnswerAt(cs, i, skew, unit).Accepted?
    ensures || (cs[i].key in After(cs, skew, unit) && After(cs, skew, unit)[cs[i].key] == cs[i].created)
            || (exists j :: i < j < |cs| && Prunes(cs[j], cs[i].created, skew, unit))
    decreases |cs|
  {
    var n := |cs| - 1;
    if i < n {
      var front := cs[..n];
      Prefixes(cs, i, n, skew, unit);
      Remembered(front, i, skew, unit);
      if j :| i < j < n && Prunes(front[j], front[i].created, skew, unit) {
        assert cs[j] == front[j];
      } else if Prunes(cs[n], cs[i].created, skew, unit) {
        assert i < n < |cs|;
      } else if cs[i].created >= Cutoff(cs[n].now, skew, unit) {
        assert cs[i].key in Pruned(After(front, skew, unit), Cutoff(cs[n].now, skew, unit));
      }
    }
  }

  /** Nothing is in the cache that was not accepted. */
  lemma {:induction false} OnlyAccepted(cs: seq<Call>, key: string, skew: int, unit: nat) returns (i: nat)
    requires 1 <= unit && key in After(cs, skew, unit)
    ensures i < |cs| && AnswerAt(cs, i, skew, unit).Accepted?
    ensures cs[i].key == key && cs[i].created == After(cs, skew, unit)[key]
    decreases |cs|
  {
    var n := |cs| - 1;
    var front := cs[..n];
    if AnswerAt(cs, n, skew, unit).Accepted? && cs[n].key == key {
      i := n;
    } else {
      i := OnlyAccepted(front, key, skew, unit);
      Prefixes(cs, i, n, skew, unit);
    }
  }

  // ---- no proof twice -----------------------------------------------------------------------

  /** How far back the clock must jump before a proof can be accepted again. With a skew of a third of a stamp or
      more, or none, the call that prunes the proof can come as early as the cutoff allows. With less, no stamp is
      fresh just then, and the next one that is comes later. */
  function SafeJump(skew: int, unit: nat): int {
    if skew == 0 || unit <= 3 * skew then skew + unit else 2 * unit - 2 * skew
  }

  lemma PruningIsFarAhead(created: int, c: Call, now: int, skew: int, unit: nat)
    requires 1 <= unit && Prunes(c, created, skew, unit) && Fresh(created, now, skew, unit)
    ensures 0 <= skew && c.now - now >= SafeJump(skew, unit)
  {
    CutoffMeans(created, c.now, skew, unit);
    if skew != 0 && 3 * skew < unit {
      TwoStampsAhead(created, c.created, c.now, skew, unit);
      TimesGrows(created + 2, c.created, unit);
      assert (created + 2) * unit == created * unit + 2 * unit;
    }
  }

  lemma TwoStampsAhead(created: int, later: int, now: int, skew: int, unit: nat)
    requires 0 < skew && created * unit + unit + 2 * skew <= now <= later * unit + skew
    ensures created + 2 <= later
  {
    assert (created + 1) * unit == created * unit + unit;
    if later <= created + 1 { TimesGrows(later, created + 1, unit); }
  }

  /** No proof is accepted twice in a run whose clock never jumps back that far; with a negative skew none is
      accepted at all. */
  lemma AcceptedAtMostOnce(cs: seq<Call>, skew: int, unit: nat)
    requires 1 <= unit && (0 <= skew ==> JumpsBelow(cs, SafeJump(skew, unit)))
    ensures NoneTwice(cs, skew, unit)
  {
    forall i, j | 0 <= i < j < |cs| && AnswerAt(cs, i, skew, unit).Accepted? && AnswerAt(cs, j, skew, unit).Accepted?
      ensures (cs[i].key, cs[i].created) != (cs[j].key, cs[j].created)
    {
      if (cs[i].key, cs[i].created) == (cs[j].key, cs[j].created) {
        NotAgain(cs, i, j, skew, unit);
      }
    }
  }

  lemma NotAgain(cs: seq<Call>, i: nat, j: nat, skew: int, unit: nat)
    requires 1 <= unit && (0 <= skew ==> JumpsBelow(cs, SafeJump(skew, unit))) && i < j < |cs|
    requires AnswerAt(cs, i, skew, unit).Accepted?
    requires cs[i].key == cs[j].key && cs[i].created == cs[j].created
    ensures !AnswerAt(cs, j, skew, unit).Accepted?
  {
    var before := cs[..j];
    Prefixes(cs, i, j, skew, unit);
    Remembered(before, i, skew, unit);
    if Fresh(cs[j].created, cs[j].now, skew, unit) {
      forall k | i < k < j
        ensures !Prunes(before[k], before[i].created, skew, unit)
      {
        if Prunes(cs[k], cs[i].created, skew, unit) {
          PruningIsFarAhead(cs[i].created, cs[k], cs[j].now, skew, unit);
        }
      }
      if cs[j].created < Cutoff(cs[j].now, skew, unit) {
        CutoffMeans(cs[j].created, cs[j].now, skew, unit);
      }
    }
  }

  /** With a clock that never falls back, the pruned cache answers as the whole history would: a sound
      fresh proof is a replay exactly when its key was accepted with a stamp the cutoff has not passed. */
  lemma ReplayedExactly(cs: seq<Call>, j: nat, skew: int, unit: nat)
    requires 1 <= unit && j < |cs| && JumpsBelow(cs, 1)
    requires cs[j].bound && cs[j].genuine && Fresh(cs[j].created, cs[j].now, skew, unit)
    ensures AnswerAt(cs, j, skew, unit) == Replayed
            <==> exists i :: 0 <= i < j && AnswerAt(cs, i, skew, unit).Accepted? && cs[i].key == cs[j].key
                          && cs[i].created >= Cutoff(cs[j].now, skew, unit)
  {
    var before := cs[..j];
    var cutoff := Cutoff(cs[j].now, skew, unit);
    if AnswerAt(cs, j, skew, unit) == Replayed {
      var i := OnlyAccepted(before, cs[j].key, skew, unit);
      Prefixes(cs, i, j, skew, unit);
    }
    if i :| 0 <= i < j && AnswerAt(cs, i, skew, unit).Accepted? && cs[i].key == cs[j].key && cs[i].created >= cutoff {
      Prefixes(cs, i, j, skew, unit);
      Remembered(before, i, skew, unit);
      forall k | i < k < j
        ensures !Prunes(before[k], before[i].created, skew, unit)
      {
        CutoffRises(cs[k].now, cs[j].now, skew, unit);
      }
    }
  }

  lemma CutoffRises(a: int, b: int, skew: int, unit: nat)
    requires 1 <= unit && a <= b
    ensures Cutoff(a, skew, unit) <= Cutoff(b, skew, unit)
  {
    var c := Cutoff(a, skew, unit) - 1;
    CutoffMeans(c, a, skew, unit);
    CutoffMeans(c, b, skew, unit);
  }

  // ---- the bound is exact -------------------------------------------------------------------

  /** The clock and the stamp of a proof that is fresh as soon after the cutoff has passed stamp 1 as any is. */
  function AheadNow(skew: nat, unit: nat): int {
    if skew == 0 || unit <= 3 * skew then 2 * skew + 2 * unit else 3 * unit - skew
  }

  function AheadStamp(skew: nat, unit: nat): int
    requires 1 <= unit
  {
    if skew != 0 && 2 * skew < unit then 3 else 2 + 2 * skew / unit
  }

  /** A proof stamped 1, that one, and the first again. */
  function FallBack(skew: nat, unit: nat): seq<Call>
    requires 1 <= unit
  {
    [Call("a", 1, skew + unit, true, true),
     Call("b", AheadStamp(skew, unit), AheadNow(skew, unit), true, true),
     Call("a", 1, skew + unit, true, true)]
  }

  lemma FallBackAcceptsTwice(skew: nat, unit: nat)
    requires 1 <= unit
    ensures JumpsBelow(FallBack(skew, unit), SafeJump(skew, unit) + 1)
    ensures !NoneTwice(FallBack(skew, unit), skew, unit)
  {
    var cs := FallBack(skew, unit);
    var now := AheadNow(skew, unit);
    Ahead(skew, unit);
    assert cs[..0] == [] && cs[..1][..0] == [] && cs[..2][..1] == cs[..1];
    assert AnswerAt(cs, 0, skew, unit).Accepted?;
    assert After(cs[..1], skew, unit) == map["a" := 1];
    CutoffMeans(1, now, skew, unit);
    assert "a" !in Pruned(map["a" := 1], Cutoff(now, skew, unit));
    assert After(cs[..2], skew, unit) == map["b" := AheadStamp(skew, unit)];
    assert AnswerAt(cs, 2, skew, unit).Accepted?;
  }

  lemma Ahead(skew: nat, unit: nat)
    requires 1 <= unit
    ensures Fresh(AheadStamp(skew, unit), AheadNow(skew, unit), skew, unit)
  {
    var q, r := 2 * skew / unit, 2 * skew % unit;
    assert 2 * skew == q * unit + r;
    if skew == 0 || unit <= 2 * skew {
      assert (2 + q) * unit == 2 * unit + q * unit;
      if 0 < skew < unit { assert q == 1; }
    }
  }

  /** How far the clock may jump back, for every skew: no proof is accepted twice in any run with smaller jumps if
      and only if they are smaller than this. */
  lemma SafeFallBack(skew: int, unit: nat, bound: int)
    requires 1 <= unit
    ensures (forall cs :: JumpsBelow(cs, bound) ==> NoneTwice(cs, skew, unit))
            <==> skew < 0 || bound <= SafeJump(skew, unit)
  {
    if skew < 0 || bound <= SafeJump(skew, unit) {
      forall cs | JumpsBelow(cs, bound)
        ensures NoneTwice(cs, skew, unit)
      {
        assert 0 <= skew ==> JumpsBelow(cs, SafeJump(skew, unit));
        AcceptedAtMostOnce(cs, skew, unit);
      }
    } else {
      FallBackAcceptsTwice(skew, unit);
      assert JumpsBelow(FallBack(skew, unit), bound);
    }
  }

  // ---- the verifiers as they run ------------------------------------------------------------

  method Prune(cache: Cache, cutoff: int) returns (kept: Cache)
    ensures kept == Pruned(cache, cutoff)
    ensures forall k :: k in kept <==> k in cache && cache[k] >= cutoff
    ensures forall k <- kept :: kept[k] == cache[k]
  {
    kept := cache;
    var todo := cache.Keys;
    while todo != {}
      invariant todo <= cache.Keys
      invariant kept.Keys <= cache.Keys
      invariant forall k <- cache.Keys :: k in kept <==> (k in todo || cache[k] >= cutoff)
      invariant forall k <- kept.Keys :: kept[k] == cache[k]
    {
      var k :| k in todo;
      if cache[k] < cutoff { kept := kept - {k}; }
      todo := todo - {k};
    }
  }

  datatype Proof = Proof(holder: string, createdMs: int, nonce: string, verb: string, target: string, digest: string)

  class PoPVerifier {
    var replay: Cache

    constructor ()
      ensures replay == map[]
    {
      replay := map[];
    }

    /** `signed` is the outcome of the signature check and `digest` the envelope's own digest, which
        may fail to compute. */
    method VerifyPoP(peer: string, proof: Proof, verb: string, target: string, digest: Option<string>, signed: bool,
                     now: int, maxSkew: int) returns (answer: Answer)
      modifies this
      ensures (replay, answer) ==
              Judge(old(replay),
                    Call(proof.holder + ":" + proof.nonce, proof.createdMs, now,
                         proof.holder == peer && proof.verb == verb && proof.target == target,
                         digest == Some(proof.digest) && signed),
                    maxSkew, 1_000_000)
    {
      if proof.holder != peer || proof.verb != verb || proof.target != target { return Unbound; }
      var delta := now - proof.createdMs * MILLISECOND;
      if delta < -maxSkew || delta > maxSkew { return Stale; }
      if digest.None? || digest.value != proof.digest { return Forged; }
      if !signed { return Forged; }
      var key := proof.holder + ":" + proof.nonce;
      replay := Prune(replay, Cutoff(now, maxSkew, MILLISECOND));
      if key in replay { return Replayed; }
      replay := replay[key := proof.createdMs];
      return Accepted;
    }
  }

  datatype Claims = Claims(jti: string, htm: string, htu: string, iat: int)

  const DEFAULT_SKEW: nat := 5 * 60 * SECOND

  class DPoPVerifier {
    var seen: Cache
    var maxSkew: int

    constructor ()
      ensures seen == map[] && maxSkew == 300_000_000_000
    {
      seen := map[];
      maxSkew := DEFAULT_SKEW;
    }

    /** A skew that is not positive means five minutes. `parsed` covers the token's shape and signature, `sameVerb` the
        case-insensitive comparison of the methods, `sameToken` the access token hash. */
    method Verify(parsed: bool, claims: Claims, sameVerb: bool, target: string, sameToken: bool, fingerprint: string,
                  now: int) returns (answer: Answer)
      modifies this
      ensures maxSkew == old(maxSkew)
      ensures (seen, answer) ==
              Judge(old(seen),
                    Call(fingerprint + ":" + claims.jti, claims.iat, now,
                         parsed && claims.jti != "" && claims.htm != "" && claims.htu != "" && claims.iat != 0
                         && sameVerb && claims.htu == target,
                         sameToken),
                    if old(maxSkew) <= 0 then 300_000_000_000 else old(maxSkew), 1_000_000_000)
    {
      if !parsed { return Unbound; }
      if claims.jti == "" || claims.htm == "" || claims.htu == "" || claims.iat == 0 { return Unbound; }
      if !sameVerb || claims.htu != target { return Unbound; }
      var skew := maxSkew;
      if skew <= 0 { skew := DEFAULT_SKEW; }
      var issued := claims.iat * SECOND;
      if now - issued > skew || issued - now > skew { return Stale; }
      if !sameToken { return Forged; }
      var key := fingerprint + ":" + claims.jti;
      seen := Prune(seen, Cutoff(now, skew, SECOND));
      if key in seen { return Replayed; }
      seen := seen[key := claims.iat];
      return Accepted;
    }
  }
}
