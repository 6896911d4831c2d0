/** The match history of ai_gate.py: per-frame results, the five-frame window and the cue it yields. */
module MatchWindow {
  import opened Wrappers
  import opened KeyContext

  const MATCH_HISTORY_FRAMES: nat := 5
  const MATCH_HISTORY_REQUIRED: nat := 3

  datatype Match = NoMatch | Ambiguous | Matched(mode: Mode)

  /** States other than accepted and ambiguous make no difference here. */
  datatype GateState = Accepted | AmbiguousScene | NotAccepted

  datatype GateResult = GateResult(state: GateState, quality: Option<real>, stableFrames: nat)

  type Frame = set<Mode>

  /** Every field the updates write. */
  datatype View = View(history: seq<Frame>, last: Match, detected: bool, states: map<Mode, bool>,
                       gate: map<Mode, GateResult>)

  datatype Op =
    | Plain(active: Frame)
    | Gated(results: map<Mode, GateResult>)
    | Rebind(saved: bool)
    | Clear(saved: bool)

  function Window(history: seq<Frame>): seq<Frame> {
    if |history| <= MATCH_HISTORY_FRAMES then history else history[|history| - MATCH_HISTORY_FRAMES..]
  }

  function Count(history: seq<Frame>, m: Mode): nat {
    if history == [] then 0 else Count(history[..|history| - 1], m) + (if m in history[|history| - 1] then 1 else 0)
  }

  predicate Stable(history: seq<Frame>, m: Mode) {
    Count(history, m) >= MATCH_HISTORY_REQUIRED
  }

  function Both(dummy: bool, secret: bool): map<Mode, bool> {
    map[Dummy := dummy, Secret := secret]
  }

  const INITIAL := View([], NoMatch, false, Both(false, false), map[])

  /** The report a window calls for. */
  function Report(v: View, history: seq<Frame>): View {
    var d, s := Stable(history, Dummy), Stable(history, Secret);
    v.(history := history,
       last := if d && s then Ambiguous else if d then Matched(Dummy) else if s then Matched(Secret) else NoMatch,
       detected := d != s, states := Both(d, s))
  }

  predicate AnyAmbiguous(results: map<Mode, GateResult>) {
    exists m :: m in results && results[m].state == AmbiguousScene
  }

  function ActiveModes(results: map<Mode, GateResult>): Frame {
    set m | m in results && results[m].state == Accepted
  }

  function Step(v: View, op: Op): View {
    match op
    case Plain(active) => Report(v, Window(v.history + [active]))
    case Gated(results) =>
      if AnyAmbiguous(results) then View([], Ambiguous, false, Both(false, false), results)
      else
        var history := Window(v.history + [ActiveModes(results)]);
        Report(v, history).(gate := map m | m in results :: results[m].(stableFrames := Count(history, m)))
    case Rebind(saved) => if saved then View([], NoMatch, false, Both(false, false), v.gate) else v
    case Clear(saved) => if saved then INITIAL else v
  }

  function Run(ops: seq<Op>): View {
    if ops == [] then INITIAL else Step(Run(ops[..|ops| - 1]), ops[|ops| - 1])
  }

  class MatchGate {
    var history: seq<Frame>
    var last: Match
    var detected: bool
    var states: map<Mode, bool>
    var gate: map<Mode, GateResult>

    function Contents(): View
      reads this
    {
      View(history, last, detected, states, gate)
    }

    constructor ()
      ensures Contents() == INITIAL
    {
      history, last, detected, states, gate := [], NoMatch, false, Both(false, false), map[];
    }

    static method CountActive(history: seq<Frame>, m: Mode) returns (count: nat)
      ensures count == Count(history, m)
    {
      count := 0;
      for i := 0 to |history|
        invariant count == Count(history[..i], m)
      {
        assert history[..i + 1][..i] == history[..i];
        if m in history[i] {
          count := count + 1;
        }
      }
      assert history[..|history|] == history;
    }

    /** Adds a frame, counts each mode over the window and reports the stable ones. */
    method Observe(active: Frame)
      modifies this
      ensures Contents() == Report(old(Contents()), Window(old(history) + [active]))
    {
      history := history + [active];
      if |history| > MATCH_HISTORY_FRAMES {
        history := history[|history| - MATCH_HISTORY_FRAMES..];
      }
      var stable: seq<Mode> := [];
      var modes := [Dummy, Secret];
      for i := 0 to 2
        invariant history == Window(old(history) + [active]) && gate == old(gate)
        invariant i == 1 ==> stable == if Stable(history, Dummy) then [Dummy] else []
        invariant i == 0 ==> stable == []
        invariant i == 2 ==> var dummy := if Stable(history, Dummy) then [Dummy] else [];
                             stable == dummy + if Stable(history, Secret) then [Secret] else []
      {
        var count := CountActive(history, modes[i]);
        if count >= MATCH_HISTORY_REQUIRED {
          stable := stable + [modes[i]];
        }
      }
      if stable == [] {
        last, detected, states := NoMatch, false, Both(false, false);
      } else if |stable| > 1 {
        last, detected, states := Ambiguous, false, Both(true, true);
      } else {
        last, detected, states := Matched(stable[0]), true, Both(stable[0] == Dummy, stable[0] == Secret);
      }
    }

    method UpdateMatchResult(active: Frame)
      modifies this
      ensures Contents() == Step(old(Contents()), Plain(active))
    {
      Observe(active);
    }

    method UpdateFromGateResults(results: map<Mode, GateResult>)
      modifies this
      ensures Contents() == Step(old(Contents()), Gated(results))
    {
      if AnyAmbiguous(results) {
        gate := results;
        last, detected, states, history := Ambiguous, false, Both(false, false), [];
        return;
      }
      Observe(ActiveModes(results));
      gate := map m | m in results :: results[m].(stableFrames := Count(history, m));
    }

    method CommitReference(saved: bool)
      modifies this
      ensures Contents() == Step(old(Contents()), Rebind(saved))
    {
      if saved {
        last, detected, states, history := NoMatch, false, Both(false, false), [];
      }
    }

    method ClearReferences(saved: bool)
      modifies this
      ensures Contents() == Step(old(Contents()), Clear(saved))
    {
      if saved {
        last, detected, states, history, gate := NoMatch, false, Both(false, false), [], map[];
      }
    }
  }

  // ---- the window over runs ----

  /** The frames seen since the history was last emptied. */
  function FramesSinceReset(ops: seq<Op>): seq<Frame> {
    if ops == [] then []
    else
      var before := FramesSinceReset(ops[..|ops| - 1]);
      match ops[|ops| - 1]
      case Plain(active) => before + [active]
      case Gated(results) =>
        if exists m :: m in results && results[m].state == AmbiguousScene then []
        else before + [set m | m in results && results[m].state == Accepted]
      case Rebind(saved) => if saved then [] else before
      case Clear(saved) => if saved then [] else before
  }

  lemma WindowAppend(frames: seq<Frame>, f: Frame)
    ensures Window(Window(frames) + [f]) == Window(frames + [f])
  {
  }

  /** The stored history is the last five frames since the last reset, however long the run. */
  lemma {:induction false} HistoryIsWindow(ops: seq<Op>)
    ensures Run(ops).history == Window(FramesSinceReset(ops))
  {
    if ops != [] {
      HistoryIsWindow(ops[..|ops| - 1]);
      var before, last := FramesSinceReset(ops[..|ops| - 1]), ops[|ops| - 1];
      if last.Plain? {
        WindowAppend(before, last.active);
      } else if last.Gated? {
        WindowAppend(before, ActiveModes(last.results));
      }
    }
  }

  predicate EndsAmbiguous(ops: seq<Op>) {
    ops != [] && (var last := ops[|ops| - 1];
                  (last.Gated? && AnyAmbiguous(last.results))
                  || (((last.Rebind? || last.Clear?) && !last.saved) && EndsAmbiguous(ops[..|ops| - 1])))
  }

  /** A report that says what the window `w` calls for, `forced` ambiguous or not. */
  predicate Reports(v: View, w: seq<Frame>, forced: bool) {
    && (forall m :: v.last == Matched(m) <==> Stable(w, m) && !Stable(w, Other(m)))
    && (v.detected <==> v.last.Matched?)
    && (v.last == Ambiguous <==> (Stable(w, Dummy) && Stable(w, Secret)) || forced)
    && v.states == Both(Stable(w, Dummy), Stable(w, Secret))
  }

  lemma ReportReports(v: View, w: seq<Frame>)
    ensures Reports(Report(v, w), w, false)
  {
    hide Stable;
  }

  lemma EmptyWindow()
    ensures !Stable([], Dummy) && !Stable([], Secret)
  {
  }

  lemma EmptyReports(v: View, forced: bool)
    requires v.last == (if forced then Ambiguous else NoMatch) && !v.detected && v.states == Both(false, false)
    ensures Reports(v, [], forced)
  {
    hide Stable;
    EmptyWindow();
  }

  /**
   After any run a single mode is reported exactly when it is active in at least
   three of the last five frames since the last reset and the other mode is not;
   ambiguity exactly when both are, or the last update was an ambiguous gate frame.
   */
  lemma {:induction false} ReportedExactly(ops: seq<Op>)
    ensures Reports(Run(ops), Window(FramesSinceReset(ops)), EndsAmbiguous(ops))
  {
    hide Reports, Report, Window, AnyAmbiguous;
    HistoryIsWindow(ops);
    if ops == [] {
      EmptyReports(INITIAL, false);
      assert Window([]) == [] by { EmptyHistory(); }
    } else {
      var before, last := ops[..|ops| - 1], ops[|ops| - 1];
      ReportedExactly(before);
      HistoryIsWindow(before);
      EmptyHistory();
      var v := Run(before);
      match last
      case Plain(active) =>
        ReportReports(v, Window(v.history + [active]));
        GateKeepsReport(v, Window(v.history + [active]), v.gate);
      case Gated(results) =>
        if AnyAmbiguous(results) {
          EmptyReports(Run(ops), true);
        } else {
          GateKeepsReport(v, Window(v.history + [ActiveModes(results)]), Run(ops).gate);
        }
      case Rebind(saved) => if saved { EmptyReports(Run(ops), false); }
      case Clear(saved) => if saved { EmptyReports(Run(ops), false); }
    }
  }

  lemma EmptyHistory()
    ensures Window([]) == []
  {
  }

  lemma GateKeepsReport(v: View, w: seq<Frame>, gate: map<Mode, GateResult>)
    ensures Report(v, w).history == w && Reports(Report(v, w).(gate := gate), w, false)
  {
    ReportReports(v, w);
  }

  // ---- the cue ----

  datatype Recognition = Strict | CoercionSafe | Demo

  function Repeat(token: string, length: int): seq<string> {
    if length <= 0 then [] else seq(length, i => token)
  }

  function Confidence(v: View, modelEnabled: bool): real {
    if !v.last.Matched? then 0.0
    else if modelEnabled && v.last.mode in v.gate && v.gate[v.last.mode].quality.Some? then
      var score := v.gate[v.last.mode].quality.value;
      if score < 0.0 then 0.0 else if score > 1.0 then 1.0 else score
    else 1.0
  }

  function AuthSequence(v: View, length: int, modelEnabled: bool, mode: Recognition, trueThreshold: real,
                        fallbackThreshold: real): seq<string> {
    var confidence := Confidence(v, modelEnabled);
    if v.last.Matched? && confidence >= trueThreshold then Repeat(AuthToken(v.last.mode), length)
    else if mode == CoercionSafe then Repeat(AuthToken(Dummy), length)
    else if mode == Demo && confidence >= fallbackThreshold then Repeat(AuthToken(Dummy), length)
    else Repeat(NO_MATCH_TOKEN, length)
  }

  /** The confidence by its cases: none without a match, full without a score, otherwise the score cut to [0, 1]. */
  lemma ConfidenceExactly(v: View, modelEnabled: bool)
    ensures var c := Confidence(v, modelEnabled);
            && 0.0 <= c <= 1.0
            && (v.last in {NoMatch, Ambiguous} ==> c == 0.0)
            && (v.last.Matched? ==>
                  var scored := modelEnabled && v.last.mode in v.gate && v.gate[v.last.mode].quality.Some?;
                  && (!scored ==> c == 1.0)
                  && (scored ==> forall score | v.gate[v.last.mode].quality == Some(score) ::
                        && (score <= 0.0 ==> c == 0.0) && (score >= 1.0 ==> c == 1.0)
                        && (0.0 <= score <= 1.0 ==> c == score)))
  {
  }

  /**
   Which token comes out, for every recognition mode, setting and length. The secret
   mode's only on a secret match of enough confidence; the dummy mode's on a dummy
   match of enough confidence, and whenever no match is confident enough in the
   coercion-safe mode, and in the demo mode when the fallback threshold is reached;
   none otherwise.
   */
  lemma TokenExactly(v: View, length: nat, modelEnabled: bool, mode: Recognition, trueThreshold: real,
                     fallbackThreshold: real)
    requires length >= 1
    ensures var cue := AuthSequence(v, length, modelEnabled, mode, trueThreshold, fallbackThreshold);
            var c := Confidence(v, modelEnabled);
            var confident := v.last.Matched? && c >= trueThreshold;
            && |cue| == length && (forall i | 0 <= i < length :: cue[i] == cue[0])
            && (cue[0] == "reference_secret_matched" <==> confident && v.last == Matched(Secret))
            && (cue[0] == "reference_dummy_matched" <==>
                  (confident && v.last == Matched(Dummy))
                  || (!confident && mode == CoercionSafe) || (!confident && mode == Demo && c >= fallbackThreshold))
            && (cue[0] == "none" <==> !confident && (mode == Strict || (mode == Demo && c < fallbackThreshold)))
  {
    hide Confidence;
    TokensDiffer();
  }

  /** Whatever the gate has seen and however it is set, its cue is one token repeated. */
  lemma AuthSequenceIsGateCue(v: View, length: int, modelEnabled: bool, mode: Recognition, trueThreshold: real,
                              fallbackThreshold: real)
    ensures GateCue(AuthSequence(v, length, modelEnabled, mode, trueThreshold, fallbackThreshold))
  {
  }

  /**
   In strict mode without the model, the gate yields a mode's token exactly when its
   window reports that mode alone.
   */
  lemma StrictTokenExactly(ops: seq<Op>, m: Mode, length: int, trueThreshold: real, fallbackThreshold: real)
    requires length >= 1 && 0.0 <= trueThreshold <= 1.0
    ensures var w := Window(FramesSinceReset(ops));
            AuthSequence(Run(ops), length, false, Strict, trueThreshold, fallbackThreshold)
                == Repeat(AuthToken(m), length)
            <==> Stable(w, m) && !Stable(w, Other(m))
  {
    hide Stable, Window;
    ReportedExactly(ops);
    var cue := AuthSequence(Run(ops), length, false, Strict, trueThreshold, fallbackThreshold);
    TokensDiffer();
    assert Repeat(AuthToken(m), length)[0] == AuthToken(m);
    if cue == Repeat(AuthToken(m), length) {
      assert cue[0] == AuthToken(m);
    }
  }

  lemma TokensDiffer()
    ensures AuthToken(Dummy) != AuthToken(Secret) && NO_MATCH_TOKEN != AuthToken(Dummy)
            && NO_MATCH_TOKEN != AuthToken(Secret)
  {
    assert AuthToken(Dummy)[10] != AuthToken(Secret)[10];
    assert NO_MATCH_TOKEN[0] != AuthToken(Dummy)[0] && NO_MATCH_TOKEN[0] != AuthToken(Secret)[0];
  }

  /** How many of the frames a mode is active in. */
  ghost function ActiveIn(frames: seq<Frame>, m: Mode): set<int> {
    set i | 0 <= i < |frames| && m in frames[i]
  }

  lemma {:induction false} CountExactly(frames: seq<Frame>, m: Mode)
    ensures Count(frames, m) == |ActiveIn(frames, m)|
  {
    if frames != [] {
      var n := |frames| - 1;
      CountExactly(frames[..n], m);
      assert ActiveIn(frames, m) == ActiveIn(frames[..n], m) + if m in frames[n] then {n} else {};
    }
  }

  /** A mode is stable exactly when at least three of the last five frames since the last reset show it. */
  lemma StableExactly(ops: seq<Op>, m: Mode)
    ensures var frames := FramesSinceReset(ops);
            var last := if |frames| <= 5 then frames else frames[|frames| - 5..];
            && Run(ops).history == last
            && (Stable(Run(ops).history, m) <==> |ActiveIn(last, m)| >= 3)
            && (Run(ops).last == Matched(m) <==> |ActiveIn(last, m)| >= 3 && |ActiveIn(last, Other(m))| < 3)
  {
    hide Count, Run, FramesSinceReset;
    HistoryIsWindow(ops);
    ReportedExactly(ops);
    CountExactly(Run(ops).history, m);
    CountExactly(Run(ops).history, Other(m));
  }
}
