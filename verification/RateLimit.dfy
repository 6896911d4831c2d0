/** The sliding-window request limit of web_server.py, one bucket of time stamps a key. */
module RateLimit {
  import opened Ranges

  const RATE_LIMIT_WINDOW := 60.0
  const RATE_LIMIT_MAX: nat := 20

  type Buckets = map<string, seq<real>>

  function Prune(stamps: seq<real>, now: real): seq<real> {
    if stamps == [] then []
    else (if now - stamps[0] < RATE_LIMIT_WINDOW then [stamps[0]] else []) + Prune(stamps[1..], now)
  }

  function BucketOf(b: Buckets, key: string): seq<real> {
    if key in b then b[key] else []
  }

  /** The buckets afterwards, and whether the request is accepted; a refusal stores nothing. */
  function Step(b: Buckets, key: string, now: real): (Buckets, bool) {
    var bucket := Prune(BucketOf(b, key), now);
    if |bucket| >= RATE_LIMIT_MAX then (b, false) else (b[key := bucket + [now]], true)
  }

  lemma PruneNext(stamps: seq<real>, i: nat, now: real, kept: seq<real>)
    requires i < |stamps|
    ensures kept + Prune(stamps[i..], now)
         == (if now - stamps[i] < RATE_LIMIT_WINDOW then kept + [stamps[i]] else kept) + Prune(stamps[i + 1..], now)
  {
    assert stamps[i..][0] == stamps[i] && stamps[i..][1..] == stamps[i + 1..];
  }

  lemma PruneNone(now: real, kept: seq<real>)
    ensures kept + Prune([], now) == kept
  {
  }

  class RateLimiter {
    var buckets: Buckets

    constructor ()
      ensures buckets == map[]
    {
      buckets := map[];
    }

    method Enforce(key: string, now: real) returns (accepted: bool)
      modifies this
      ensures (buckets, accepted) == Step(old(buckets), key, now)
    {
      hide Prune;
      var stored, bucket := BucketOf(buckets, key), [];
      for i := 0 to |stored|
        invariant buckets == old(buckets)
        invariant Prune(stored, now) == bucket + Prune(stored[i..], now)
      {
        PruneNext(stored, i, now, bucket);
        if now - stored[i] < RATE_LIMIT_WINDOW {
          bucket := bucket + [stored[i]];
        }
      }
      PruneNone(now, bucket);
      assert stored[|stored|..] == [];
      assert bucket == Prune(stored, now);
      if |bucket| >= RATE_LIMIT_MAX {
        return false;
      }
      bucket := bucket + [now];
      buckets := buckets[key := bucket];
      return true;
    }
  }

  datatype Request = Request(key: string, at: real)

  function After(trace: seq<Request>): Buckets {
    if trace == [] then map[]
    else Step(After(trace[..|trace| - 1]), trace[|trace| - 1].key, trace[|trace| - 1].at).0
  }

  /** Every accepted request of the key, in order. */
  function Accepted(trace: seq<Request>, key: string): seq<real> {
    if trace == [] then []
    else
      var before, last := trace[..|trace| - 1], trace[|trace| - 1];
      Accepted(before, key) + (if last.key == key && Step(After(before), key, last.at).1 then [last.at] else [])
  }

  predicate ClockNeverStepsBack(trace: seq<Request>) {
    forall i, j | 0 <= i <= j < |trace| :: trace[i].at <= trace[j].at
  }

  predicate Sorted(s: seq<real>) {
    forall i, j | 0 <= i <= j < |s| :: s[i] <= s[j]
  }

  predicate AllOld(s: seq<real>, now: real) {
    forall i | 0 <= i < |s| :: now - s[i] >= RATE_LIMIT_WINDOW
  }

  lemma {:induction false} PruneSplits(a: seq<real>, b: seq<real>, now: real)
    ensures Prune(a + b, now) == Prune(a, now) + Prune(b, now)
  {
    if a == [] {
      assert a + b == b && Prune(a, now) + Prune(b, now) == Prune(b, now);
    } else {
      var head := if now - a[0] < RATE_LIMIT_WINDOW then [a[0]] else [];
      assert (a + b)[0] == a[0] && (a + b)[1..] == a[1..] + b;
      PruneSplits(a[1..], b, now);
      assert head + (Prune(a[1..], now) + Prune(b, now)) == head + Prune(a[1..], now) + Prune(b, now);
    }
  }

  lemma {:induction false} PruneExtremes(s: seq<real>, now: real)
    ensures AllOld(s, now) ==> Prune(s, now) == []
    ensures (forall i | 0 <= i < |s| :: now - s[i] < RATE_LIMIT_WINDOW) ==> Prune(s, now) == s
  {
    if s != [] {
      PruneExtremes(s[1..], now);
      assert s == [s[0]] + s[1..];
    }
  }

  /** On a sorted list, pruning drops exactly a prefix. */
  lemma {:induction false} PruneDropsPrefix(s: seq<real>, now: real)
    requires Sorted(s)
    ensures |Prune(s, now)| <= |s| && Prune(s, now) == s[|s| - |Prune(s, now)|..]
    ensures AllOld(s[..|s| - |Prune(s, now)|], now)
    ensures forall i | |s| - |Prune(s, now)| <= i < |s| :: now - s[i] < RATE_LIMIT_WINDOW
  {
    if s != [] {
      PruneDropsPrefix(s[1..], now);
      if now - s[0] < RATE_LIMIT_WINDOW {
        PruneExtremes(s, now);
      } else {
        var k := |s| - |Prune(s, now)|;
        assert Prune(s, now) == Prune(s[1..], now);
        assert s[..k][1..] == s[1..][..k - 1];
        assert forall i | 0 < i < k :: s[..k][i] == s[1..][..k - 1][i - 1];
      }
    }
  }

  /** The stored bucket is the accepted history without a prefix that was already old. */
  predicate Suffix(bucket: seq<real>, accepted: seq<real>, clock: real) {
    |bucket| <= |accepted| && bucket == accepted[|accepted| - |bucket|..]
        && AllOld(accepted[..|accepted| - |bucket|], clock)
  }

  /** Acceptances RATE_LIMIT_MAX apart are a whole window apart. */
  predicate Spaced(s: seq<real>) {
    forall i, j | 0 <= i && i + RATE_LIMIT_MAX <= j < |s| :: s[j] - s[i] >= RATE_LIMIT_WINDOW
  }

  lemma BucketPrunesLikeHistory(bucket: seq<real>, accepted: seq<real>, clock: real, now: real)
    requires Suffix(bucket, accepted, clock) && clock <= now
    ensures Prune(bucket, now) == Prune(accepted, now)
  {
    var k := |accepted| - |bucket|;
    PruneSplits(accepted[..k], bucket, now);
    PruneExtremes(accepted[..k], now);
    assert accepted == accepted[..k] + bucket;
    assert AllOld(accepted[..k], now);
  }

  lemma AcceptKeepsSuffix(bucket: seq<real>, accepted: seq<real>, now: real)
    requires Suffix(bucket, accepted, now) && Sorted(accepted)
    ensures Suffix(Prune(bucket, now) + [now], accepted + [now], now)
  {
    BucketPrunesLikeHistory(bucket, accepted, now, now);
    PruneDropsPrefix(accepted, now);
    var kept, longer := Prune(accepted, now), accepted + [now];
    var k := |accepted| - |kept|;
    assert kept + [now] == longer[k..];
    assert longer[..k] == accepted[..k];
  }

  lemma AcceptKeepsSpacing(bucket: seq<real>, accepted: seq<real>, now: real)
    requires Suffix(bucket, accepted, now) && Sorted(accepted) && Spaced(accepted)
    requires |Prune(bucket, now)| < RATE_LIMIT_MAX
    ensures Spaced(accepted + [now])
  {
    BucketPrunesLikeHistory(bucket, accepted, now, now);
    PruneDropsPrefix(accepted, now);
    var longer := accepted + [now];
    var k := |accepted| - |Prune(accepted, now)|;
    forall i, j | 0 <= i && i + RATE_LIMIT_MAX <= j < |longer| ensures longer[j] - longer[i] >= RATE_LIMIT_WINDOW {
      if j == |accepted| {
        assert accepted[..k][i] == accepted[i];
      }
    }
  }

  /** What a key's bucket and history keep at every moment. */
  predicate KeyInv(bucket: seq<real>, accepted: seq<real>, clock: real) {
    && Suffix(bucket, accepted, clock) && Sorted(accepted) && Spaced(accepted)
    && forall i | 0 <= i < |accepted| :: accepted[i] <= clock
  }

  lemma LaterKeepsInv(bucket: seq<real>, accepted: seq<real>, clock: real, later: real)
    requires KeyInv(bucket, accepted, clock) && clock <= later
    ensures KeyInv(bucket, accepted, later)
  {
  }

  lemma AcceptKeepsInv(bucket: seq<real>, accepted: seq<real>, now: real)
    requires KeyInv(bucket, accepted, now) && |Prune(bucket, now)| < RATE_LIMIT_MAX
    ensures KeyInv(Prune(bucket, now) + [now], accepted + [now], now)
  {
    hide Suffix, Spaced, Prune;
    AcceptKeepsSuffix(bucket, accepted, now);
    AcceptKeepsSpacing(bucket, accepted, now);
  }

  lemma {:induction false} RunInv(trace: seq<Request>, key: string, clock: real)
    requires ClockNeverStepsBack(trace) && (trace != [] ==> trace[|trace| - 1].at <= clock)
    ensures KeyInv(BucketOf(After(trace), key), Accepted(trace, key), clock)
    decreases |trace|
  {
    hide KeyInv, Prune;
    if trace == [] {
      NothingAccepted(clock);
    } else {
      var before, last := trace[..|trace| - 1], trace[|trace| - 1];
      RunInv(before, key, last.at);
      var accepted, bucket := Accepted(before, key), BucketOf(After(before), key);
      if last.key == key && Step(After(before), key, last.at).1 {
        AcceptKeepsInv(bucket, accepted, last.at);
        LaterKeepsInv(Prune(bucket, last.at) + [last.at], accepted + [last.at], last.at, clock);
      } else {
        assert Accepted(trace, key) == accepted;
        assert BucketOf(After(trace), key) == bucket;
        LaterKeepsInv(bucket, accepted, last.at, clock);
      }
    }
  }

  lemma NothingAccepted(clock: real)
    ensures KeyInv([], [], clock)
  {
  }

  /** At any later moment the stored bucket prunes to the whole accepted history of the last window. */
  lemma BucketIsRecentHistory(trace: seq<Request>, key: string, now: real)
    requires ClockNeverStepsBack(trace) && (trace != [] ==> trace[|trace| - 1].at <= now)
    ensures Prune(BucketOf(After(trace), key), now) == Prune(Accepted(trace, key), now)
  {
    RunInv(trace, key, now);
    BucketPrunesLikeHistory(BucketOf(After(trace), key), Accepted(trace, key), now, now);
  }

  /** Acceptances less than a window apart are less than RATE_LIMIT_MAX places apart. */
  lemma NearInPlace(a: seq<real>, i: nat, j: nat)
    requires Spaced(a) && i <= j < |a| && a[j] - a[i] < RATE_LIMIT_WINDOW
    ensures j < i + RATE_LIMIT_MAX
  {
  }

  /** The accepted requests that fall in the window from `from` on. */
  ghost function InWindow(accepted: seq<real>, from: real): set<int> {
    set i | 0 <= i < |accepted| && from <= accepted[i] < from + 60.0
  }

  /** No window of 60 s, open at its end, holds more than 20 accepted requests of one key. */
  lemma WindowHoldsAtMostMax(trace: seq<Request>, key: string, from: real)
    requires ClockNeverStepsBack(trace)
    ensures |InWindow(Accepted(trace, key), from)| <= 20
  {
    hide Accepted, After;
    RunInv(trace, key, if trace == [] then 0.0 else trace[|trace| - 1].at);
    var a := Accepted(trace, key);
    var w := InWindow(a, from);
    var first := 0;
    while first < |a| && first !in w
      invariant 0 <= first <= |a| && forall i | 0 <= i < first :: i !in w
    {
      first := first + 1;
    }
    var range := Range(first, RATE_LIMIT_MAX);
    forall i | i in w ensures i in range {
      assert first in w && first <= i;
      NearInPlace(a, first, i);
    }
    SubsetSize(w, range);
  }

  /** The accepted requests less than 60 s before `now`. */
  ghost function Recent(accepted: seq<real>, now: real): set<int> {
    set i | 0 <= i < |accepted| && now - accepted[i] < 60.0
  }

  /** The next request of a key is accepted exactly when fewer than 20 of its accepted ones are less than 60 s old. */
  lemma AcceptedExactly(trace: seq<Request>, key: string, now: real)
    requires ClockNeverStepsBack(trace) && (trace != [] ==> trace[|trace| - 1].at <= now)
    ensures Step(After(trace), key, now).1 <==> |Recent(Accepted(trace, key), now)| < 20
  {
    hide Accepted, After, Prune;
    RunInv(trace, key, now);
    var a := Accepted(trace, key);
    BucketIsRecentHistory(trace, key, now);
    PruneDropsPrefix(a, now);
    var kept := Prune(a, now);
    var k := |a| - |kept|;
    forall i | 0 <= i < k ensures now - a[i] >= RATE_LIMIT_WINDOW {
      assert a[..k][i] == a[i];
    }
    assert Recent(a, now) == Range(k, |kept|);
  }
}
