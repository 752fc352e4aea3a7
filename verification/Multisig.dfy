/**
 The signature matcher of OP_CHECKMULTISIG (script.cpp:998): one pass over the keys that
 moves on to the next signature whenever the current one verifies.
 */
module Multisig {
  import opened Bytes

  type Check = (Bytes, Bytes) -> bool

  /** Outcome of the loop on the remaining signatures and keys, and how many verifications it makes. */
  function Match(sigs: seq<Bytes>, keys: seq<Bytes>, check: Check): (r: (bool, nat))
    ensures r.1 <= |keys|
    decreases |keys|
  {
    if |sigs| > |keys| then (false, 0)
    else if sigs == [] then (true, 0)
    else
      var (ok, calls) := Match(if check(sigs[0], keys[0]) then sigs[1..] else sigs, keys[1..], check);
      (ok, calls + 1)
  }

  /** `f` assigns to each signature the position of a key it verifies under, in strictly increasing order. */
  ghost predicate Embeds(sigs: seq<Bytes>, keys: seq<Bytes>, f: seq<nat>, check: Check)
  {
    && |f| == |sigs|
    && (forall i :: 0 <= i < |f| ==> f[i] < |keys| && check(sigs[i], keys[f[i]]))
    && (forall i, j :: 0 <= i < j < |f| ==> f[i] < f[j])
  }

  ghost predicate Matchable(sigs: seq<Bytes>, keys: seq<Bytes>, check: Check)
  {
    exists f :: Embeds(sigs, keys, f, check)
  }

  function Shift(f: seq<nat>): (g: seq<nat>)
    ensures |g| == |f| && forall i :: 0 <= i < |f| ==> g[i] == f[i] + 1
  {
    seq(|f|, i requires 0 <= i < |f| => f[i] + 1)
  }

  function Unshift(f: seq<nat>): (g: seq<nat>)
    requires forall i :: 0 <= i < |f| ==> f[i] > 0
    ensures |g| == |f| && forall i :: 0 <= i < |f| ==> g[i] == f[i] - 1
  {
    seq(|f|, i requires 0 <= i < |f| => f[i] - 1)
  }

  lemma EmbedsNothing(keys: seq<Bytes>, check: Check)
    ensures Embeds([], keys, [], check)
  {
  }

  lemma {:induction false} MatchFindsEmbedding(sigs: seq<Bytes>, keys: seq<Bytes>, check: Check) returns (f: seq<nat>)
    requires Match(sigs, keys, check).0
    ensures Embeds(sigs, keys, f, check)
    decreases |keys|
  {
    hide Embeds, Shift;
    if sigs == [] {
      f := [];
      EmbedsNothing(keys, check);
    } else if check(sigs[0], keys[0]) {
      var g := MatchFindsEmbedding(sigs[1..], keys[1..], check);
      f := [0] + Shift(g);
      TakeFirst(sigs, keys, g, check);
    } else {
      var g := MatchFindsEmbedding(sigs, keys[1..], check);
      f := Shift(g);
      SkipFirst(sigs, keys, g, check);
    }
  }

  lemma TakeFirst(sigs: seq<Bytes>, keys: seq<Bytes>, g: seq<nat>, check: Check)
    requires sigs != [] && keys != [] && check(sigs[0], keys[0]) && Embeds(sigs[1..], keys[1..], g, check)
    ensures Embeds(sigs, keys, [0] + Shift(g), check)
  {
    var f := [0] + Shift(g);
    forall i | 0 <= i < |f|
      ensures f[i] < |keys| && check(sigs[i], keys[f[i]])
    {
      if i > 0 {
        assert sigs[i] == sigs[1..][i - 1] && keys[f[i]] == keys[1..][g[i - 1]];
      }
    }
  }

  lemma SkipFirst(sigs: seq<Bytes>, keys: seq<Bytes>, g: seq<nat>, check: Check)
    requires keys != [] && Embeds(sigs, keys[1..], g, check)
    ensures Embeds(sigs, keys, Shift(g), check)
  {
    var f := Shift(g);
    forall i | 0 <= i < |f|
      ensures f[i] < |keys| && check(sigs[i], keys[f[i]])
    {
      assert keys[f[i]] == keys[1..][g[i]];
    }
  }

  /** If any order-preserving assignment exists the greedy pass succeeds: taking the first fitting key never hurts. */
  lemma {:induction false} GreedyIsComplete(sigs: seq<Bytes>, keys: seq<Bytes>, f: seq<nat>, check: Check)
    requires Embeds(sigs, keys, f, check)
    ensures Match(sigs, keys, check).0
    decreases |keys|
  {
    EnoughKeys(sigs, keys, f, check);
    if sigs != [] {
      if check(sigs[0], keys[0]) {
        assert Embeds(sigs[1..], keys[1..], Unshift(f[1..]), check);
        GreedyIsComplete(sigs[1..], keys[1..], Unshift(f[1..]), check);
      } else {
        assert f[0] != 0;
        assert forall i :: 0 <= i < |f| ==> f[i] >= f[0];
        assert Embeds(sigs, keys[1..], Unshift(f), check);
        GreedyIsComplete(sigs, keys[1..], Unshift(f), check);
      }
    }
  }

  lemma {:induction false} EnoughKeys(sigs: seq<Bytes>, keys: seq<Bytes>, f: seq<nat>, check: Check)
    requires Embeds(sigs, keys, f, check)
    ensures |sigs| <= |keys|
  {
    if sigs != [] {
      GrowsAtLeast(f, |f| - 1);
    }
  }

  lemma {:induction false} GrowsAtLeast(f: seq<nat>, i: nat)
    requires i < |f| && forall a, b :: 0 <= a < b < |f| ==> f[a] < f[b]
    ensures f[i] >= i
  {
    if i > 0 {
      GrowsAtLeast(f, i - 1);
    }
  }

  /** The pass succeeds exactly when an order-preserving assignment of signatures to keys exists. */
  lemma MatchIffMatchable(sigs: seq<Bytes>, keys: seq<Bytes>, check: Check)
    ensures Match(sigs, keys, check).0 <==> Matchable(sigs, keys, check)
  {
    if Match(sigs, keys, check).0 {
      var f := MatchFindsEmbedding(sigs, keys, check);
    }
    if Matchable(sigs, keys, check) {
      var f :| Embeds(sigs, keys, f, check);
      GreedyIsComplete(sigs, keys, f, check);
    }
  }

  /** The loop itself (script.cpp:999). */
  method MatchSignatures(sigs: seq<Bytes>, keys: seq<Bytes>, check: Check) returns (success: bool, calls: nat)
    requires |sigs| <= |keys|
    ensures success <==> Matchable(sigs, keys, check)
    ensures (success, calls) == Match(sigs, keys, check)
  {
    var isig: nat, ikey: nat, nSigs: nat, nKeys: int := 0, 0, |sigs|, |keys|;
    success, calls := true, 0;
    while success && nSigs > 0
      invariant isig + nSigs == |sigs| && ikey + nKeys == |keys| && calls == ikey && nKeys >= 0
      invariant success == (nSigs <= nKeys)
      invariant Match(sigs, keys, check) == (Match(sigs[isig..], keys[ikey..], check).0, calls + Match(sigs[isig..], keys[ikey..], check).1)
      decreases nKeys
    {
      calls := calls + 1;
      if check(sigs[isig], keys[ikey]) {
        isig := isig + 1;
        nSigs := nSigs - 1;
      }
      ikey := ikey + 1;
      nKeys := nKeys - 1;
      if nSigs > nKeys {
        success := false;
      }
    }
    MatchIffMatchable(sigs, keys, check);
  }

  /** How many checks are made where all fail, and where all succeed. */
  lemma {:induction false} CallsMade(sigs: seq<Bytes>, keys: seq<Bytes>, check: Check)
    requires 0 < |sigs| <= |keys|
    ensures (forall sig, key :: !check(sig, key)) ==> Match(sigs, keys, check) == (false, |keys| - |sigs| + 1)
    ensures (forall sig, key :: check(sig, key)) ==> Match(sigs, keys, check) == (true, |sigs|)
    decreases |keys|
  {
    if check(sigs[0], keys[0]) {
      if |sigs| > 1 {
        CallsMade(sigs[1..], keys[1..], check);
      }
    } else if |sigs| < |keys| {
      CallsMade(sigs, keys[1..], check);
    }
  }
}
