/** The cue policy of object_cue_policy_gate.py: stability counting and greedy sequence matching. */
module CuePolicy {
  datatype Signal = Signal(objectState: string, relationOk: bool, token: string)

  datatype PolicyResult = PolicyResult(sequenceState: string, accepted: bool, ambiguous: bool, reason: string)

  type Positive = n: nat | n >= 1 witness 1

  /** What `str.strip` removes. */
  predicate IsSpace(c: char) {
    var n := c as int;
    || 9 <= n <= 13 || 28 <= n <= 32 || n == 0x85 || n == 0xA0 || n == 0x1680 || 0x2000 <= n <= 0x200A
    || n == 0x2028 || n == 0x2029 || n == 0x202F || n == 0x205F || n == 0x3000
  }

  function TrimLeft(s: string): string {
    if s != "" && IsSpace(s[0]) then TrimLeft(s[1..]) else s
  }

  function TrimRight(s: string): string {
    if s != "" && IsSpace(s[|s| - 1]) then TrimRight(s[..|s| - 1]) else s
  }

  function Normalize(f: Signal): Signal {
    Signal(if f.objectState in {"none", "detected", "matched", "ambiguous"} then f.objectState else "none",
           f.relationOk, TrimRight(TrimLeft(f.token)))
  }

  predicate AllSpace(s: string) {
    forall c <- s :: IsSpace(c)
  }

  /** `before` and `after` are the spaces around `t`. */
  predicate Stripped(s: string, before: string, t: string, after: string) {
    && s == before + t + after && AllSpace(before) && AllSpace(after)
    && (t != "" ==> !IsSpace(t[0]) && !IsSpace(t[|t| - 1]))
  }

  lemma {:induction false} TrimLeftExactly(before: string, t: string)
    requires AllSpace(before) && (t != "" ==> !IsSpace(t[0]))
    ensures TrimLeft(before + t) == t
  {
    if before == "" {
      assert before + t == t;
    } else {
      assert (before + t)[1..] == before[1..] + t;
      TrimLeftExactly(before[1..], t);
    }
  }

  lemma {:induction false} TrimRightExactly(t: string, after: string)
    requires AllSpace(after) && (t != "" ==> !IsSpace(t[|t| - 1]))
    ensures TrimRight(t + after) == t
  {
    if after == "" {
      assert t + after == t;
    } else {
      assert (t + after)[..|t + after| - 1] == t + after[..|after| - 1];
      TrimRightExactly(t, after[..|after| - 1]);
    }
  }

  lemma {:induction false} AllTrimmed(s: string)
    requires AllSpace(s)
    ensures TrimLeft(s) == ""
  {
    if s != "" {
      AllTrimmed(s[1..]);
    }
  }

  /**
   A frame keeps a known state and its relation, and its token without the spaces
   around it; an unknown state becomes none.
   */
  lemma NormalizeExactly(f: Signal, before: string, t: string, after: string)
    requires Stripped(f.token, before, t, after)
    ensures Normalize(f).token == t && Normalize(f).relationOk == f.relationOk
    ensures Normalize(f).objectState == "matched" <==> f.objectState == "matched"
    ensures Normalize(f).objectState == "ambiguous" <==> f.objectState == "ambiguous"
    ensures Normalize(f).objectState == "detected" <==> f.objectState == "detected"
    ensures Normalize(f).objectState == "none"
       <==> f.objectState != "matched" && f.objectState != "ambiguous" && f.objectState != "detected"
  {
    assert f.token == before + (t + after);
    if t == "" {
      assert f.token == before + after;
      AllTrimmed(f.token);
    } else {
      TrimLeftExactly(before, t + after);
      TrimRightExactly(t, after);
    }
  }

  lemma {:induction false} LeftSpaces(s: string) returns (before: string)
    ensures s == before + TrimLeft(s) && AllSpace(before)
    ensures TrimLeft(s) != "" ==> !IsSpace(TrimLeft(s)[0])
  {
    before := "";
    if s != "" && IsSpace(s[0]) {
      before := LeftSpaces(s[1..]);
      before := [s[0]] + before;
    }
  }

  lemma {:induction false} RightSpaces(s: string) returns (after: string)
    ensures s == TrimRight(s) + after && AllSpace(after)
    ensures TrimRight(s) != "" ==> !IsSpace(TrimRight(s)[|TrimRight(s)| - 1]) && TrimRight(s)[0] == s[0]
  {
    after := "";
    if s != "" && IsSpace(s[|s| - 1]) {
      after := RightSpaces(s[..|s| - 1]);
      after := after + [s[|s| - 1]];
    }
  }

  /** Every text has its spaces at either end. */
  lemma StripExists(s: string) returns (before: string, t: string, after: string)
    ensures Stripped(s, before, t, after)
  {
    before := LeftSpaces(s);
    after := RightSpaces(TrimLeft(s));
    t := TrimRight(TrimLeft(s));
  }

  ghost predicate ReadsAs(token: string, t: string) {
    exists before, after :: Stripped(token, before, t, after)
  }

  /** A raw frame counts for a token when it is matched, in the right relation, and reads as that token. */
  lemma ShownExactly(f: Signal, token: string)
    ensures Shows(Normalize(f), token) <==> f.objectState == "matched" && f.relationOk && ReadsAs(f.token, token)
  {
    hide Normalize, Stripped;
    var before, t, after := StripExists(f.token);
    NormalizeExactly(f, before, t, after);
    if ReadsAs(f.token, token) {
      var b, a :| Stripped(f.token, b, token, a);
      NormalizeExactly(f, b, token, a);
    }
  }

  function NormalizeAll(frames: seq<Signal>): (r: seq<Signal>)
    ensures |r| == |frames|
  {
    seq(|frames|, i requires 0 <= i < |frames| => Normalize(frames[i]))
  }

  predicate AnyAmbiguous(frames: seq<Signal>) {
    exists f :: f in frames && f.objectState == "ambiguous"
  }

  predicate AllNone(frames: seq<Signal>) {
    forall f <- frames :: f.objectState == "none"
  }

  function MatchedCount(frames: seq<Signal>): nat {
    if frames == [] then 0
    else MatchedCount(frames[..|frames| - 1]) + (if frames[|frames| - 1].objectState == "matched" then 1 else 0)
  }

  /** The frame shows this token, matched and in the right relation. */
  predicate Shows(f: Signal, token: string) {
    f.objectState == "matched" && f.relationOk && f.token == token
  }

  /** The tokens are shown in order by the frames at the increasing positions `at`. */
  predicate EmbedsAt(expected: seq<string>, frames: seq<Signal>, at: seq<nat>) {
    && |at| == |expected|
    && (forall k | 0 <= k < |at| :: at[k] < |frames| && Shows(frames[at[k]], expected[k]))
    && (forall k, l | 0 <= k < l < |at| :: at[k] < at[l])
  }

  ghost predicate Embeds(expected: seq<string>, frames: seq<Signal>) {
    exists at :: EmbedsAt(expected, frames, at)
  }

  /** A new embedding uses the new frame for its last token. */
  lemma NewEmbeddingUsesFrame(expected: seq<string>, frames: seq<Signal>, i: nat)
    requires expected != [] && i < |frames| && Embeds(expected, frames[..i + 1])
    ensures Embeds(expected, frames[..i]) || Shows(frames[i], expected[|expected| - 1])
  {
    var at :| EmbedsAt(expected, frames[..i + 1], at);
    var n := |at| - 1;
    assert Shows(frames[..i + 1][at[n]], expected[n]);
    if at[n] < i {
      forall k | 0 <= k < |at| ensures at[k] < i && frames[..i][at[k]] == frames[..i + 1][at[k]] {
        assert k < n ==> at[k] < at[n];
      }
      assert EmbedsAt(expected, frames[..i], at);
    }
  }

  /** One frame serves one token: all but the last token were shown before it. */
  lemma OneTokenAFrame(expected: seq<string>, frames: seq<Signal>, i: nat)
    requires expected != [] && i < |frames| && Embeds(expected, frames[..i + 1])
    ensures Embeds(expected[..|expected| - 1], frames[..i])
  {
    var n := |expected| - 1;
    var at :| EmbedsAt(expected, frames[..i + 1], at);
    forall k | 0 <= k < n ensures at[k] < i && frames[..i][at[k]] == frames[..i + 1][at[k]] {
      assert at[k] < at[n];
    }
    assert EmbedsAt(expected[..n], frames[..i], at[..n]);
  }

  lemma EmbedsPrefix(expected: seq<string>, n: nat, frames: seq<Signal>)
    requires n <= |expected| && Embeds(expected, frames)
    ensures Embeds(expected[..n], frames)
  {
    var at :| EmbedsAt(expected, frames, at);
    assert EmbedsAt(expected[..n], frames, at[..n]);
  }

  lemma EmbeddingShowsSome(expected: seq<string>, frames: seq<Signal>)
    requires expected != [] && Embeds(expected, frames)
    ensures exists f :: f in frames && f.objectState == "matched"
  {
    var at :| EmbedsAt(expected, frames, at);
    assert frames[at[0]] in frames && Shows(frames[at[0]], expected[0]);
  }

  lemma EmbeddingSurvives(expected: seq<string>, frames: seq<Signal>, longer: seq<Signal>)
    requires frames <= longer && Embeds(expected, frames)
    ensures Embeds(expected, longer)
  {
    var at :| EmbedsAt(expected, frames, at);
    assert EmbedsAt(expected, longer, at);
  }

  lemma {:induction false} MatchedExactly(frames: seq<Signal>)
    ensures MatchedCount(NormalizeAll(frames))
         == |set i | 0 <= i < |frames| && frames[i].objectState == "matched"|
  {
    hide Normalize;
    if frames != [] {
      var n := |frames| - 1;
      MatchedExactly(frames[..n]);
      assert NormalizeAll(frames)[..n] == NormalizeAll(frames[..n]);
      var before, t, after := StripExists(frames[n].token);
      NormalizeExactly(frames[n], before, t, after);
      var all := set i | 0 <= i < |frames| && frames[i].objectState == "matched";
      var front := set i | 0 <= i < |frames[..n]| && frames[..n][i].objectState == "matched";
      assert all == if frames[n].objectState == "matched" then front + {n} else front;
    }
  }

  /** The tokens are shown in order by matched frames in the right relation, at the increasing positions `at`. */
  ghost predicate ShownAt(expected: seq<string>, frames: seq<Signal>, limit: nat, at: seq<nat>) {
    && |at| == |expected|
    && (forall k | 0 <= k < |at| ::
          && at[k] < |frames| && at[k] < limit && frames[at[k]].objectState == "matched" && frames[at[k]].relationOk
          && ReadsAs(frames[at[k]].token, expected[k]))
    && (forall k, l | 0 <= k < l < |at| :: at[k] < at[l])
  }

  lemma EmbedsExactly(expected: seq<string>, frames: seq<Signal>, limit: nat)
    ensures var seen := NormalizeAll(frames);
            Embeds(expected, if |seen| <= limit then seen else seen[..limit])
            <==> exists at :: ShownAt(expected, frames, limit, at)
  {
    hide Normalize, ReadsAs, Shows;
    var seen := NormalizeAll(frames);
    var used := if |seen| <= limit then seen else seen[..limit];
    forall at ensures EmbedsAt(expected, used, at) <==> ShownAt(expected, frames, limit, at) {
      forall k | 0 <= k < |at| == |expected| && at[k] < |used|
        ensures Shows(used[at[k]], expected[k])
           <==> frames[at[k]].objectState == "matched" && frames[at[k]].relationOk
                && ReadsAs(frames[at[k]].token, expected[k])
      {
        ShownExactly(frames[at[k]], expected[k]);
      }
    }
    if Embeds(expected, used) {
      var at :| EmbedsAt(expected, used, at);
      assert ShownAt(expected, frames, limit, at);
    }
  }

  /** No frame holds an object in a known state. */
  predicate NothingSeen(frames: seq<Signal>) {
    forall f <- frames :: f.objectState != "matched" && f.objectState != "ambiguous" && f.objectState != "detected"
  }

  lemma AmbiguousExactly(frames: seq<Signal>)
    ensures AnyAmbiguous(NormalizeAll(frames)) <==> exists f <- frames :: f.objectState == "ambiguous"
    ensures AllNone(NormalizeAll(frames)) <==> NothingSeen(frames)
  {
    hide Normalize;
    var seen := NormalizeAll(frames);
    forall i | 0 <= i < |frames|
      ensures seen[i] == Normalize(frames[i])
      ensures seen[i].objectState == "ambiguous" <==> frames[i].objectState == "ambiguous"
      ensures seen[i].objectState == "none"
         <==> frames[i].objectState != "matched" && frames[i].objectState != "ambiguous"
              && frames[i].objectState != "detected"
    {
      var before, t, after := StripExists(frames[i].token);
      NormalizeExactly(frames[i], before, t, after);
    }
  }

  class ObjectCuePolicyGate {
    const requiredStableFrames: Positive
    const sequenceTimeoutFrames: Positive

    constructor (required: int, timeout: int)
      ensures requiredStableFrames == if required > 1 then required else 1
      ensures sequenceTimeoutFrames == if timeout > requiredStableFrames then timeout else requiredStableFrames
    {
      var stable := if required > 1 then required else 1;
      requiredStableFrames := stable;
      sequenceTimeoutFrames := if timeout > stable then timeout else stable;
    }

    /** The frames a sequence is looked for in. */
    function Budgeted(frames: seq<Signal>): seq<Signal> {
      if |frames| <= sequenceTimeoutFrames then frames else frames[..sequenceTimeoutFrames]
    }

    /** Greedy matching accepts exactly when some embedding exists. */
    method EvaluateSequence(frames: seq<Signal>, expected: seq<string>) returns (r: PolicyResult)
      requires expected != []
      ensures r.accepted <==> Embeds(expected, Budgeted(frames))
      ensures !r.ambiguous
      ensures r.reason == if r.accepted then "sequence_complete"
                          else if |frames| >= sequenceTimeoutFrames then "sequence_timeout" else "sequence_incomplete"
      ensures r.sequenceState == if r.accepted then "matched"
                                 else if |frames| >= sequenceTimeoutFrames then "timeout" else "collecting"
    {
      var idx := 0;
      var budget := if |frames| <= sequenceTimeoutFrames then |frames| else sequenceTimeoutFrames;
      ghost var used := Budgeted(frames);
      assert used == frames[..budget];
      ghost var at: seq<nat> := [];
      if Embeds(expected[..1], frames[..0]) {
        EmbeddingShowsSome(expected[..1], frames[..0]);
      }
      for i := 0 to budget
        invariant 0 <= idx < |expected|
        invariant EmbedsAt(expected[..idx], frames[..i], at)
        invariant !Embeds(expected[..idx + 1], frames[..i])
      {
        assert expected[..idx + 1][|expected[..idx + 1]| - 1] == expected[idx];
        if Shows(frames[i], expected[idx]) {
          at := at + [i];
          assert forall k | 0 <= k < |at| - 1 :: frames[..i + 1][at[k]] == frames[..i][at[k]];
          assert EmbedsAt(expected[..idx + 1], frames[..i + 1], at);
          if idx + 1 == |expected| {
            assert expected[..idx + 1] == expected;
            EmbeddingSurvives(expected, frames[..i + 1], used);
            return PolicyResult("matched", true, false, "sequence_complete");
          }
          assert expected[..idx + 2][..idx + 1] == expected[..idx + 1];
          if Embeds(expected[..idx + 2], frames[..i + 1]) {
            OneTokenAFrame(expected[..idx + 2], frames, i);
          }
          idx := idx + 1;
        } else {
          if Embeds(expected[..idx + 1], frames[..i + 1]) {
            NewEmbeddingUsesFrame(expected[..idx + 1], frames, i);
          }
          assert forall k | 0 <= k < |at| :: frames[..i + 1][at[k]] == frames[..i][at[k]];
        }
      }
      if Embeds(expected, used) {
        EmbedsPrefix(expected, idx + 1, used);
      }
      if budget >= sequenceTimeoutFrames {
        return PolicyResult("timeout", false, false, "sequence_timeout");
      }
      return PolicyResult("collecting", false, false, "sequence_incomplete");
    }

    method StableMatchCount(frames: seq<Signal>) returns (count: nat)
      ensures count == MatchedCount(frames)
    {
      count := 0;
      for i := 0 to |frames|
        invariant count == MatchedCount(frames[..i])
      {
        assert frames[..i + 1][..i] == frames[..i];
        if frames[i].objectState == "matched" {
          count := count + 1;
        }
      }
      assert frames[..|frames|] == frames;
    }

    /** The answer in terms of the frames as they came in. */
    method Evaluate(frames: seq<Signal>, expected: seq<string>) returns (r: PolicyResult)
      ensures r.ambiguous <==> exists f <- frames :: f.objectState == "ambiguous"
      ensures expected != [] ==>
                (r.accepted <==> !r.ambiguous && exists at :: ShownAt(expected, frames, sequenceTimeoutFrames, at))
      ensures expected == [] ==>
                (r.accepted
                 <==> !r.ambiguous
                      && |set i | 0 <= i < |frames| && frames[i].objectState == "matched"| >= requiredStableFrames)
      ensures (r.sequenceState, r.reason)
           == if frames == [] then ("idle", "no_signal")
              else if r.ambiguous then ("ambiguous", "ambiguous_scene")
              else if NothingSeen(frames) then ("idle", "no_object")
              else if r.accepted then ("matched", if expected == [] then "stable_match" else "sequence_complete")
              else if expected == [] then ("collecting", "insufficient_stability")
              else if |frames| >= sequenceTimeoutFrames then ("timeout", "sequence_timeout")
              else ("collecting", "sequence_incomplete")
    {
      hide Normalize, Embeds, ShownAt, MatchedCount, AnyAmbiguous, AllNone, NothingSeen;
      MatchedExactly(frames);
      EmbedsExactly(expected, frames, sequenceTimeoutFrames);
      AmbiguousExactly(frames);
      if frames == [] {
        if expected != [] && Embeds(expected, Budgeted([])) {
          EmbeddingShowsSome(expected, Budgeted([]));
        }
        return PolicyResult("idle", false, false, "no_signal");
      }
      var seen := NormalizeAll(frames);
      if AnyAmbiguous(seen) {
        return PolicyResult("ambiguous", false, true, "ambiguous_scene");
      }
      if AllNone(seen) {
        NothingShown(seen, expected);
        if expected != [] {
          NothingShownWithin(seen, sequenceTimeoutFrames, expected);
        }
        return PolicyResult("idle", false, false, "no_object");
      }
      if expected != [] {
        r := EvaluateSequence(seen, expected);
        return;
      }
      var stable := StableMatchCount(seen);
      if stable >= requiredStableFrames {
        return PolicyResult("matched", true, false, "stable_match");
      }
      return PolicyResult("collecting", false, false, "insufficient_stability");
    }
  }

  lemma NothingShownWithin(frames: seq<Signal>, limit: nat, expected: seq<string>)
    requires AllNone(frames) && expected != []
    ensures !Embeds(expected, if |frames| <= limit then frames else frames[..limit])
  {
    var used := if |frames| <= limit then frames else frames[..limit];
    assert forall f <- used :: f in frames;
    NothingShown(used, expected);
  }

  lemma {:induction false} NothingShown(frames: seq<Signal>, expected: seq<string>)
    requires AllNone(frames)
    ensures MatchedCount(frames) == 0
    ensures expected != [] ==> !Embeds(expected, frames)
  {
    if frames != [] {
      NothingShown(frames[..|frames| - 1], expected);
    }
    if expected != [] && Embeds(expected, frames) {
      EmbeddingShowsSome(expected, frames);
    }
  }
}
