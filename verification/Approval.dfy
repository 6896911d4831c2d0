/**
 The dual-approval gate of approval_flow.py: timed requests, grants and single-use
 consumption, purged lazily on every call. Each call reads the clock once.
 */
module Approval {
  import opened Wrappers

  const REQUEST_TTL := 300.0
  const GRANT_TTL := 60.0
  const DUAL_APPROVAL_ACTIONS := {"clear_local_access_path", "initialize_container"}

  datatype Request = Request(action: string, nonce: string, createdAt: real) {
    predicate Expired(now: real) {
      now - createdAt > REQUEST_TTL
    }
  }

  datatype Grant = Grant(action: string, nonce: string, grantedAt: real) {
    predicate Expired(now: real) {
      now - grantedAt > GRANT_TTL
    }
  }

  /** Pending requests in insertion order, one an action; grants by nonce. */
  datatype State = State(pending: seq<Request>, grants: map<string, Grant>)

  /** A call with its environment: the random nonce, and what the role store answers. */
  datatype Call =
    | Ask(action: string, nonce: string)
    | Approve(nonce: string, configured: bool, verified: bool)
    | Consume(action: string, nonce: string)
    | Status(action: string)

  datatype Reply =
    | NotRequired | AlreadyPending(nonce: string) | Created(nonce: string)
    | NoRequest | RequestExpired | NotConfigured | WrongPassphrase | Granted
    | NoGrant | ActionMismatch | GrantExpired | Consumed | KeyError
    | Report(pending: bool, available: bool, nonce: string)

  // ---- steps ----

  function Find(pending: seq<Request>, action: string): Option<Request> {
    if pending == [] then None
    else if pending[0].action == action then Some(pending[0])
    else Find(pending[1..], action)
  }

  function FindByNonce(pending: seq<Request>, nonce: string): Option<Request> {
    if pending == [] then None
    else if pending[0].nonce == nonce then Some(pending[0])
    else FindByNonce(pending[1..], nonce)
  }

  function Pop(pending: seq<Request>, action: string): seq<Request> {
    if pending == [] then []
    else (if pending[0].action == action then [] else [pending[0]]) + Pop(pending[1..], action)
  }

  /** Storing under a key already present keeps its place in the dict. */
  function Put(pending: seq<Request>, r: Request): seq<Request> {
    if pending == [] then [r]
    else if pending[0].action == r.action then [r] + pending[1..]
    else [pending[0]] + Put(pending[1..], r)
  }

  function LivePending(pending: seq<Request>, now: real): seq<Request> {
    if pending == [] then []
    else (if pending[0].Expired(now) then [] else [pending[0]]) + LivePending(pending[1..], now)
  }

  function ExpiredNonces(pending: seq<Request>, now: real): set<string> {
    set r | r in pending && r.Expired(now) :: r.nonce
  }

  function Purge(s: State, now: real): State {
    State(LivePending(s.pending, now),
          map n | n in s.grants && n !in ExpiredNonces(s.pending, now) && !s.grants[n].Expired(now) :: s.grants[n])
  }

  function Step(s: State, call: Call, now: real): (State, Reply) {
    var p := Purge(s, now);
    match call
    case Ask(action, nonce) =>
      if action !in DUAL_APPROVAL_ACTIONS then (p, NotRequired)
      else
        var existing := Find(p.pending, action);
        if existing.Some? && !existing.value.Expired(now) then (p, AlreadyPending(existing.value.nonce))
        else (p.(pending := Put(p.pending, Request(action, nonce, now))), Created(nonce))
    case Approve(nonce, configured, verified) =>
      var req := FindByNonce(s.pending, nonce);
      if req.None? then (p, NoRequest)
      else if req.value.Expired(now) then (p.(pending := Pop(p.pending, req.value.action)), RequestExpired)
      else if !configured then (p, NotConfigured)
      else if !verified then (p, WrongPassphrase)
      else (p.(grants := p.grants[nonce := Grant(req.value.action, nonce, now)]), Granted)
    case Consume(action, nonce) =>
      if nonce !in s.grants then (p, NoGrant)
      else
        var grant := s.grants[nonce];
        if grant.action != action then (p, ActionMismatch)
        else if grant.Expired(now) then (State(Pop(p.pending, action), p.grants - {nonce}), GrantExpired)
        else if nonce !in p.grants then (p, KeyError)
        else (State(Pop(p.pending, action), p.grants - {nonce}), Consumed)
    case Status(action) =>
      var req := Find(p.pending, action);
      var live := req.Some? && !req.value.Expired(now);
      (p, Report(live, live && req.value.nonce in p.grants, if live then req.value.nonce else ""))
  }

  lemma ExpiredNoncesNext(pending: seq<Request>, i: nat, now: real, grants: map<string, Grant>)
    requires i < |pending|
    ensures grants - ExpiredNonces(pending[..i + 1], now)
         == grants - ExpiredNonces(pending[..i], now) - (if pending[i].Expired(now) then {pending[i].nonce} else {})
  {
    assert pending[..i + 1] == pending[..i] + [pending[i]];
    var before, after := ExpiredNonces(pending[..i], now), ExpiredNonces(pending[..i + 1], now);
    forall n ensures n in after <==> n in before || (pending[i].Expired(now) && n == pending[i].nonce) {
      if n in before {
        var r :| r in pending[..i] && r.Expired(now) && r.nonce == n;
        assert r in pending[..i + 1];
      }
      if pending[i].Expired(now) {
        assert pending[i] in pending[..i + 1];
      }
    }
  }

  lemma LivePendingNext(pending: seq<Request>, i: nat, now: real, kept: seq<Request>)
    requires i < |pending|
    ensures kept + LivePending(pending[i..], now)
         == (if pending[i].Expired(now) then kept else kept + [pending[i]]) + LivePending(pending[i + 1..], now)
  {
    assert pending[i..][0] == pending[i] && pending[i..][1..] == pending[i + 1..];
  }

  lemma NothingSeen(pending: seq<Request>, now: real, grants: map<string, Grant>)
    ensures grants - ExpiredNonces(pending[..0], now) == grants
    ensures LivePending([], now) == []
  {
  }

  // ---- the object ----

  class DualApprovalGate {
    var pending: seq<Request>
    var grants: map<string, Grant>

    function Contents(): State
      reads this
    {
      State(pending, grants)
    }

    constructor ()
      ensures Contents() == State([], map[])
    {
      pending, grants := [], map[];
    }

    method FindRequestByNonce(nonce: string) returns (r: Option<Request>)
      ensures r == FindByNonce(pending, nonce)
    {
      for i := 0 to |pending|
        invariant FindByNonce(pending, nonce) == FindByNonce(pending[i..], nonce)
      {
        assert pending[i..][0] == pending[i] && pending[i..][1..] == pending[i + 1..];
        if pending[i].nonce == nonce {
          return Some(pending[i]);
        }
      }
      return None;
    }

    /** Pops expired requests, and with each the grant under its nonce. */
    method DropExpiredRequests(now: real)
      modifies this
      ensures pending == LivePending(old(pending), now)
      ensures grants == old(grants) - ExpiredNonces(old(pending), now)
    {
      hide LivePending, ExpiredNonces;
      ghost var before, held := pending, grants;
      var kept: seq<Request> := [];
      NothingSeen(before, now, held);
      for i := 0 to |pending|
        invariant pending == before && LivePending(before, now) == kept + LivePending(before[i..], now)
        invariant grants == held - ExpiredNonces(before[..i], now)
      {
        var r := pending[i];
        LivePendingNext(before, i, now, kept);
        ExpiredNoncesNext(before, i, now, held);
        if r.Expired(now) {
          grants := grants - {r.nonce};
        } else {
          kept := kept + [r];
        }
      }
      assert before[..|before|] == before && before[|before|..] == [];
      NothingSeen([], now, held);
      pending := kept;
    }

    method DropExpiredGrants(now: real)
      modifies this`grants
      ensures grants == map n | n in old(grants) && !old(grants)[n].Expired(now) :: old(grants)[n]
    {
      var todo := grants.Keys;
      while todo != {}
        invariant todo <= old(grants).Keys
        invariant grants == map n | n in old(grants) && (n in todo || !old(grants)[n].Expired(now)) :: old(grants)[n]
        decreases |todo|
      {
        var n :| n in todo;
        todo := todo - {n};
        if grants[n].Expired(now) {
          grants := grants - {n};
        }
      }
    }

    method PurgeExpired(now: real)
      modifies this
      ensures Contents() == Purge(old(Contents()), now)
    {
      DropExpiredRequests(now);
      DropExpiredGrants(now);
    }

    method RequestApproval(action: string, nonce: string, now: real) returns (reply: Reply)
      modifies this
      ensures (Contents(), reply) == Step(old(Contents()), Ask(action, nonce), now)
    {
      PurgeExpired(now);
      if action !in DUAL_APPROVAL_ACTIONS {
        return NotRequired;
      }
      var existing := Find(pending, action);
      if existing.Some? && !existing.value.Expired(now) {
        return AlreadyPending(existing.value.nonce);
      }
      pending := Put(pending, Request(action, nonce, now));
      return Created(nonce);
    }

    method GrantApproval(nonce: string, configured: bool, verified: bool, now: real) returns (reply: Reply)
      modifies this
      ensures (Contents(), reply) == Step(old(Contents()), Approve(nonce, configured, verified), now)
    {
      var req := FindRequestByNonce(nonce);
      PurgeExpired(now);
      if req.None? {
        return NoRequest;
      }
      if req.value.Expired(now) {
        pending := Pop(pending, req.value.action);
        return RequestExpired;
      }
      if !configured {
        return NotConfigured;
      }
      if !verified {
        return WrongPassphrase;
      }
      grants := grants[nonce := Grant(req.value.action, nonce, now)];
      return Granted;
    }

    method ConsumeGrant(action: string, nonce: string, now: real) returns (reply: Reply)
      modifies this
      ensures (Contents(), reply) == Step(old(Contents()), Consume(action, nonce), now)
    {
      var grant := if nonce in grants then Some(grants[nonce]) else None;
      PurgeExpired(now);
      if grant.None? {
        return NoGrant;
      }
      if grant.value.action != action {
        return ActionMismatch;
      }
      if grant.value.Expired(now) {
        grants := grants - {nonce};
        pending := Pop(pending, action);
        return GrantExpired;
      }
      if nonce !in grants {
        return KeyError;
      }
      grants := grants - {nonce};
      pending := Pop(pending, action);
      return Consumed;
    }

    method ReportStatus(action: string, now: real) returns (reply: Reply)
      modifies this
      ensures (Contents(), reply) == Step(old(Contents()), Status(action), now)
    {
      PurgeExpired(now);
      var req := Find(pending, action);
      var live := req.Some? && !req.value.Expired(now);
      return Report(live, live && req.value.nonce in grants, if live then req.value.nonce else "");
    }
  }

  // ---- traces ----

  datatype Event = Event(call: Call, now: real)

  /** The gate after a trace of calls on a new one. */
  function After(trace: seq<Event>): State {
    if trace == [] then State([], map[])
    else
      var last := trace[|trace| - 1];
      Step(After(trace[..|trace| - 1]), last.call, last.now).0
  }

  function ReplyAt(trace: seq<Event>, i: nat): Reply
    requires i < |trace|
  {
    Step(After(trace[..i]), trace[i].call, trace[i].now).1
  }

  /** Call `j` created the request of `action` carrying `nonce`. */
  predicate CreatedAt(trace: seq<Event>, j: nat, action: string, nonce: string) {
    j < |trace| && trace[j].call == Ask(action, nonce) && ReplyAt(trace, j) == Created(nonce)
  }

  /** Call `k` granted the request carrying `nonce`, the supervisor's passphrase verified. */
  predicate GrantedAt(trace: seq<Event>, k: nat, nonce: string) {
    k < |trace| && trace[k].call == Approve(nonce, true, true) && ReplyAt(trace, k) == Granted
  }

  predicate Backs(trace: seq<Event>, j: nat, r: Request) {
    CreatedAt(trace, j, r.action, r.nonce) && trace[j].now == r.createdAt
  }

  predicate BacksGrant(trace: seq<Event>, pending: seq<Request>, n: string, g: Grant, r: Request, j: nat, k: nat) {
    && r in pending && r.action == g.action && r.nonce == n && g.nonce == n
    && Backs(trace, j, r)
    && j < k && GrantedAt(trace, k, n) && trace[k].now == g.grantedAt
  }

  ghost predicate GrantBacked(trace: seq<Event>, pending: seq<Request>, n: string, g: Grant) {
    exists r, j, k :: BacksGrant(trace, pending, n, g, r, j, k)
  }

  predicate OneRequestAnAction(pending: seq<Request>) {
    forall i, j | 0 <= i < j < |pending| :: pending[i].action != pending[j].action
  }

  /** What holds between calls: every request and grant traces back, and a grant's request still pends. */
  ghost predicate Inv(trace: seq<Event>, s: State) {
    && OneRequestAnAction(s.pending)
    && (forall r | r in s.pending :: exists j :: Backs(trace, j, r))
    && (forall n | n in s.grants :: GrantBacked(trace, s.pending, n, s.grants[n]))
  }

  lemma {:induction false} LivePendingMembers(pending: seq<Request>, now: real)
    ensures forall r :: r in LivePending(pending, now) <==> r in pending && !r.Expired(now)
    ensures OneRequestAnAction(pending) ==> OneRequestAnAction(LivePending(pending, now))
  {
    if pending != [] {
      LivePendingMembers(pending[1..], now);
      assert pending == [pending[0]] + pending[1..];
      var rest := LivePending(pending[1..], now);
      if OneRequestAnAction(pending) {
        assert OneRequestAnAction(pending[1..]);
        forall i | 0 <= i < |rest| ensures rest[i].action != pending[0].action {
          assert rest[i] in pending[1..];
        }
      }
    }
  }

  lemma {:induction false} PopMembers(pending: seq<Request>, action: string)
    ensures forall r :: r in Pop(pending, action) <==> r in pending && r.action != action
    ensures OneRequestAnAction(pending) ==> OneRequestAnAction(Pop(pending, action))
  {
    if pending != [] {
      PopMembers(pending[1..], action);
      assert pending == [pending[0]] + pending[1..];
      var rest := Pop(pending[1..], action);
      if OneRequestAnAction(pending) {
        assert OneRequestAnAction(pending[1..]);
        forall i | 0 <= i < |rest| ensures rest[i].action != pending[0].action {
          assert rest[i] in pending[1..];
        }
      }
    }
  }

  lemma {:induction false} FindMembers(pending: seq<Request>, action: string, nonce: string)
    ensures var r := Find(pending, action);
            if r.Some? then r.value in pending && r.value.action == action
            else forall q | q in pending :: q.action != action
    ensures var r := FindByNonce(pending, nonce);
            if r.Some? then r.value in pending && r.value.nonce == nonce
            else forall q | q in pending :: q.nonce != nonce
  {
    if pending != [] {
      FindMembers(pending[1..], action, nonce);
      assert pending == [pending[0]] + pending[1..];
    }
  }

  lemma {:induction false} PutNew(pending: seq<Request>, r: Request)
    requires forall q | q in pending :: q.action != r.action
    ensures Put(pending, r) == pending + [r]
  {
    if pending != [] {
      assert pending[0] in pending;
      PutNew(pending[1..], r);
    }
  }

  /** Witnesses survive the trace growing. */
  lemma BacksIn(shorter: seq<Event>, trace: seq<Event>, j: nat, r: Request)
    requires shorter <= trace && Backs(shorter, j, r)
    ensures Backs(trace, j, r) && trace[j] == shorter[j]
  {
    hide Step, After;
    assert shorter[..j] == trace[..j];
  }

  lemma GrantedIn(shorter: seq<Event>, trace: seq<Event>, k: nat, nonce: string)
    requires shorter <= trace && GrantedAt(shorter, k, nonce)
    ensures k < |shorter| && GrantedAt(trace, k, nonce) && trace[k] == shorter[k]
  {
    hide Step, After;
    assert shorter[..k] == trace[..k];
  }

  lemma SameRequestForAction(pending: seq<Request>, r: Request, q: Request)
    requires OneRequestAnAction(pending) && r in pending && q in pending && r.action == q.action
    ensures r == q
  {
    var x :| 0 <= x < |pending| && pending[x] == r;
    var y :| 0 <= y < |pending| && pending[y] == q;
    assert x == y;
  }

  lemma GrantBackedGrows(trace: seq<Event>, e: Event, pending: seq<Request>, later: seq<Request>, n: string, g: Grant)
    requires GrantBacked(trace, pending, n, g)
    requires forall r | r in pending && r.action == g.action && r.nonce == n :: r in later
    ensures GrantBacked(trace + [e], later, n, g)
  {
    hide Backs, GrantedAt;
    var r, j, k :| BacksGrant(trace, pending, n, g, r, j, k);
    BacksIn(trace, trace + [e], j, r);
    GrantedIn(trace, trace + [e], k, n);
    assert BacksGrant(trace + [e], later, n, g, r, j, k);
  }

  lemma PurgeKeepsInv(trace: seq<Event>, e: Event, s: State, now: real)
    requires Inv(trace, s)
    ensures Inv(trace + [e], Purge(s, now))
    ensures forall r | r in Purge(s, now).pending :: !r.Expired(now)
    ensures forall n | n in Purge(s, now).grants :: !Purge(s, now).grants[n].Expired(now)
  {
    hide Backs, GrantedAt;
    LivePendingMembers(s.pending, now);
    var p := Purge(s, now);
    forall r | r in p.pending ensures exists j :: Backs(trace + [e], j, r) {
      var j :| Backs(trace, j, r);
      BacksIn(trace, trace + [e], j, r);
    }
    forall n | n in p.grants ensures GrantBacked(trace + [e], p.pending, n, p.grants[n]) {
      forall r | r in s.pending && r.action == s.grants[n].action && r.nonce == n ensures r in p.pending {
        assert r.Expired(now) ==> r.nonce in ExpiredNonces(s.pending, now);
      }
      GrantBackedGrows(trace, e, s.pending, p.pending, n, s.grants[n]);
    }
  }

  /** Taking out an action's request together with its grant. */
  lemma SpendKeepsInv(trace: seq<Event>, p: State, action: string, nonce: string)
    requires Inv(trace, p)
    requires forall n | n in p.grants && p.grants[n].action == action :: n == nonce
    ensures Inv(trace, State(Pop(p.pending, action), p.grants - {nonce}))
  {
    hide Backs, GrantedAt;
    PopMembers(p.pending, action);
    forall n | n in p.grants && n != nonce ensures GrantBacked(trace, Pop(p.pending, action), n, p.grants[n]) {
      var r, j, k :| BacksGrant(trace, p.pending, n, p.grants[n], r, j, k);
      assert BacksGrant(trace, Pop(p.pending, action), n, p.grants[n], r, j, k);
    }
  }

  /** All grants of one action carry the nonce of its one pending request. */
  lemma OneGrantAnAction(trace: seq<Event>, s: State, a: string, b: string)
    requires Inv(trace, s) && a in s.grants && b in s.grants && s.grants[a].action == s.grants[b].action
    ensures a == b
  {
    hide Backs, GrantedAt;
    var r, j, k :| BacksGrant(trace, s.pending, a, s.grants[a], r, j, k);
    var q, l, m :| BacksGrant(trace, s.pending, b, s.grants[b], q, l, m);
    SameRequestForAction(s.pending, r, q);
  }

  lemma NewRequestBacked(trace: seq<Event>, action: string, nonce: string, now: real)
    requires Step(After(trace), Ask(action, nonce), now).1 == Created(nonce)
    ensures Backs(trace + [Event(Ask(action, nonce), now)], |trace|, Request(action, nonce, now))
  {
    hide Step, After;
    assert (trace + [Event(Ask(action, nonce), now)])[..|trace|] == trace;
  }

  lemma NewGrantBacked(trace: seq<Event>, nonce: string, now: real)
    requires Step(After(trace), Approve(nonce, true, true), now).1 == Granted
    ensures GrantedAt(trace + [Event(Approve(nonce, true, true), now)], |trace|, nonce)
  {
    hide Step, After;
    assert (trace + [Event(Approve(nonce, true, true), now)])[..|trace|] == trace;
  }

  lemma AskKeepsInv(trace: seq<Event>, s: State, action: string, nonce: string, now: real)
    requires Inv(trace, s) && s == After(trace)
    ensures var e := Event(Ask(action, nonce), now); Inv(trace + [e], Step(s, e.call, now).0)
  {
    hide Backs, GrantedAt, After, Purge;
    var e := Event(Ask(action, nonce), now);
    var t := trace + [e];
    PurgeKeepsInv(trace, e, s, now);
    var p := Purge(s, now);
    FindMembers(p.pending, action, nonce);
    var next := Step(s, e.call, now);
    if next.1.Created? {
      var r := Request(action, nonce, now);
      PutNew(p.pending, r);
      NewRequestBacked(trace, action, nonce, now);
      forall n | n in p.grants ensures GrantBacked(t, next.0.pending, n, p.grants[n]) {
        var q, j, k :| BacksGrant(t, p.pending, n, p.grants[n], q, j, k);
        assert BacksGrant(t, next.0.pending, n, p.grants[n], q, j, k);
      }
    }
  }

  lemma ApproveKeepsInv(trace: seq<Event>, s: State, nonce: string, configured: bool, verified: bool, now: real)
    requires Inv(trace, s) && s == After(trace)
    ensures var e := Event(Approve(nonce, configured, verified), now); Inv(trace + [e], Step(s, e.call, now).0)
  {
    hide Backs, GrantedAt, After;
    var e := Event(Approve(nonce, configured, verified), now);
    var t := trace + [e];
    PurgeKeepsInv(trace, e, s, now);
    var p := Purge(s, now);
    FindMembers(s.pending, "", nonce);
    var req := FindByNonce(s.pending, nonce);
    var next := Step(s, e.call, now);
    if next.1.RequestExpired? {
      ExpiredRequestGone(trace, s, req.value, now);
      SpendKeepsInv(t, p, req.value.action, nonce);
      assert next.0.grants == p.grants - {nonce};
    } else if next.1.Granted? {
      var j: nat :| Backs(trace, j, req.value);
      assert j < |trace| by { BackedIndex(trace, j, req.value); }
      BacksIn(trace, t, j, req.value);
      NewGrantBacked(trace, nonce, now);
      assert req.value in p.pending by { LivePendingMembers(s.pending, now); }
      assert BacksGrant(t, p.pending, nonce, next.0.grants[nonce], req.value, j, |trace|);
    }
  }

  lemma BackedIndex(trace: seq<Event>, j: nat, r: Request)
    requires Backs(trace, j, r)
    ensures j < |trace| && trace[j].call == Ask(r.action, r.nonce) && trace[j].now == r.createdAt
  {
  }

  /** Purging an expired request leaves no grant of its action or its nonce. */
  lemma ExpiredRequestGone(trace: seq<Event>, s: State, req: Request, now: real)
    requires Inv(trace, s) && req in s.pending && req.Expired(now)
    ensures var p := Purge(s, now);
            req.nonce !in p.grants && forall n | n in p.grants :: p.grants[n].action != req.action
  {
    hide Backs, GrantedAt;
    var p := Purge(s, now);
    assert req.nonce in ExpiredNonces(s.pending, now);
    forall n | n in p.grants ensures p.grants[n].action != req.action {
      var r, j, k :| BacksGrant(trace, s.pending, n, s.grants[n], r, j, k);
      if r.action == req.action {
        SameRequestForAction(s.pending, r, req);
      }
    }
  }

  lemma ConsumeKeepsInv(trace: seq<Event>, s: State, action: string, nonce: string, now: real)
    requires Inv(trace, s) && s == After(trace)
    ensures var e := Event(Consume(action, nonce), now); Inv(trace + [e], Step(s, e.call, now).0)
  {
    hide Backs, GrantedAt, After;
    var e := Event(Consume(action, nonce), now);
    PurgeKeepsInv(trace, e, s, now);
    var p := Purge(s, now);
    if nonce in s.grants && s.grants[nonce].action == action {
      forall n | n in p.grants && p.grants[n].action == action ensures n == nonce {
        OneGrantAnAction(trace, s, n, nonce);
      }
      SpendKeepsInv(trace + [e], p, action, nonce);
    }
  }

  lemma {:induction false} TraceInv(trace: seq<Event>)
    ensures Inv(trace, After(trace))
  {
    if trace != [] {
      var shorter, e := trace[..|trace| - 1], trace[|trace| - 1];
      assert trace == shorter + [e];
      TraceInv(shorter);
      var s := After(shorter);
      match e.call
      case Ask(action, nonce) => AskKeepsInv(shorter, s, action, nonce, e.now);
      case Approve(nonce, configured, verified) => ApproveKeepsInv(shorter, s, nonce, configured, verified, e.now);
      case Consume(action, nonce) => ConsumeKeepsInv(shorter, s, action, nonce, e.now);
      case Status(_) => PurgeKeepsInv(shorter, e, s, e.now);
    }
  }

  /**
   Over any trace: a consumption that succeeds follows, in this order, a request of
   that action carrying that nonce at most 300 s old and a supervisor-verified grant
   of it at most 60 s old.
   */
  lemma ConsumeIsApproved(trace: seq<Event>, i: nat, action: string, nonce: string) returns (j: nat, k: nat)
    requires i < |trace| && trace[i].call == Consume(action, nonce) && ReplyAt(trace, i) == Consumed
    ensures j < k < i
    ensures CreatedAt(trace, j, action, nonce) && trace[i].now - trace[j].now <= 300.0
    ensures GrantedAt(trace, k, nonce) && trace[i].now - trace[k].now <= 60.0
  {
    hide CreatedAt, GrantedAt, GrantBacked;
    var before, now := trace[..i], trace[i].now;
    TraceInv(before);
    var s := After(before);
    var r;
    r, j, k := ConsumedGrantBacked(before, s, action, nonce, now);
    BacksIn(before, trace, j, r);
    GrantedIn(before, trace, k, nonce);
  }

  lemma ConsumedGrantBacked(trace: seq<Event>, s: State, action: string, nonce: string, now: real)
    returns (r: Request, j: nat, k: nat)
    requires Inv(trace, s) && Step(s, Consume(action, nonce), now).1 == Consumed
    ensures BacksGrant(trace, s.pending, nonce, s.grants[nonce], r, j, k) && r.action == action
    ensures now - r.createdAt <= REQUEST_TTL && now - s.grants[nonce].grantedAt <= GRANT_TTL
    ensures r in Purge(s, now).pending
  {
    hide Backs, GrantedAt;
    r, j, k :| BacksGrant(trace, s.pending, nonce, s.grants[nonce], r, j, k);
    assert r.Expired(now) ==> r.nonce in ExpiredNonces(s.pending, now);
    LivePendingMembers(s.pending, now);
  }

  /** Between calls every live grant belongs to the pending request with its nonce and action. */
  lemma GrantsBelongToPending(trace: seq<Event>)
    ensures var s := After(trace);
            forall n | n in s.grants ::
              exists r :: r in s.pending && r.nonce == n == s.grants[n].nonce && r.action == s.grants[n].action
  {
    TraceInv(trace);
    var s := After(trace);
    forall n | n in s.grants
      ensures exists r :: r in s.pending && r.nonce == n == s.grants[n].nonce && r.action == s.grants[n].action
    {
      var r, j, k :| BacksGrant(trace, s.pending, n, s.grants[n], r, j, k);
    }
  }

  /** The one call that raises: the request aged out before its unexpired grant did. */
  lemma KeyErrorExactly(s: State, action: string, nonce: string, now: real)
    ensures Step(s, Consume(action, nonce), now).1 == KeyError
       <==> nonce in s.grants && s.grants[nonce].action == action && now - s.grants[nonce].grantedAt <= 60.0
            && exists r :: r in s.pending && r.nonce == nonce && now - r.createdAt > 300.0
    ensures Step(s, Consume(action, nonce), now).1 == KeyError
        ==> Step(s, Consume(action, nonce), now).0 == Purge(s, now)
  {
    assert nonce in ExpiredNonces(s.pending, now) <==> exists r :: r in s.pending && r.nonce == nonce && r.Expired(now);
  }

  /** It does happen: asked for at 0 s, granted at 290 s, consumed at 301 s, 11 s after the grant. */
  lemma LateConsumeRaises(action: string, nonce: string)
    requires action in DUAL_APPROVAL_ACTIONS
    ensures var trace := [Event(Ask(action, nonce), 0.0), Event(Approve(nonce, true, true), 290.0),
                          Event(Consume(action, nonce), 301.0)];
            ReplyAt(trace, 0) == Created(nonce) && ReplyAt(trace, 1) == Granted && ReplyAt(trace, 2) == KeyError
  {
    var ask, grant := Event(Ask(action, nonce), 0.0), Event(Approve(nonce, true, true), 290.0);
    var consume := Event(Consume(action, nonce), 301.0);
    var trace := [ask, grant, consume];
    assert trace[..1] == [ask] && trace[..1][..0] == [] && trace[..2] == [ask, grant] && trace[..2][..1] == [ask];
    var r := Request(action, nonce, 0.0);
    var asked := State([r], map[]);
    assert After([ask]) == asked;
    assert Purge(asked, 290.0) == asked by { assert LivePending([r], 290.0) == [r]; }
    assert After([ask, grant]) == State([r], map[nonce := Grant(action, nonce, 290.0)]);
  }

  lemma {:induction false} FindAppended(pending: seq<Request>, r: Request)
    requires FindByNonce(pending, r.nonce).None?
    ensures FindByNonce(pending + [r], r.nonce) == Some(r)
  {
    if pending != [] {
      assert (pending + [r])[0] == pending[0] && (pending + [r])[1..] == pending[1..] + [r];
      FindAppended(pending[1..], r);
    } else {
      assert pending + [r] == [r];
    }
  }

  /** A grant that is live, with every request of its nonce live, is kept by a purge. */
  lemma PurgeKeepsLive(s: State, n: string, now: real)
    requires n in s.grants && !s.grants[n].Expired(now)
    requires forall r | r in s.pending && r.nonce == n :: !r.Expired(now)
    ensures n in Purge(s, now).grants && Purge(s, now).grants[n] == s.grants[n]
  {
  }

  /**
   From any state, a request made for a free action with a new nonce, granted within
   its 300 s and consumed within those and 60 s of the grant, succeeds at every step,
   and consuming the nonce again does not.
   */
  lemma PromptApprovalSucceeds(s: State, action: string, nonce: string, t0: real, t1: real, t2: real, t3: real)
    requires action in DUAL_APPROVAL_ACTIONS && Find(Purge(s, t0).pending, action).None?
    requires forall r | r in s.pending :: r.nonce != nonce
    requires t0 <= t1 <= t2 <= t3 && t2 - t0 <= 300.0 && t2 - t1 <= 60.0
    ensures var asked := Step(s, Ask(action, nonce), t0);
            var granted := Step(asked.0, Approve(nonce, true, true), t1);
            var consumed := Step(granted.0, Consume(action, nonce), t2);
            && asked.1 == Created(nonce) && granted.1 == Granted && consumed.1 == Consumed
            && Step(consumed.0, Consume(action, nonce), t3).1 == NoGrant
  {
    var asked := Step(s, Ask(action, nonce), t0);
    LivePendingMembers(s.pending, t0);
    var p := Purge(s, t0).pending;
    FindMembers(p, action, nonce);
    var r := Request(action, nonce, t0);
    PutNew(p, r);
    FindAppended(p, r);
    ApproveNewRequest(asked.0, p, r, t1);
    var granted := Step(asked.0, Approve(nonce, true, true), t1);
    LivePendingMembers(asked.0.pending, t1);
    PurgeKeepsLive(granted.0, nonce, t2);
  }

  lemma ApproveNewRequest(s: State, p: seq<Request>, r: Request, now: real)
    requires s.pending == p + [r] && FindByNonce(p + [r], r.nonce) == Some(r) && !r.Expired(now)
    ensures Step(s, Approve(r.nonce, true, true), now)
         == (Purge(s, now).(grants := Purge(s, now).grants[r.nonce := Grant(r.action, r.nonce, now)]), Granted)
  {
  }

  // ---- replies ----

  /** A purge drops requests over 300 s old, grants over 60 s old and the grants of dropped requests, no more. */
  lemma PurgeExactly(s: State, now: real)
    ensures forall r :: r in Purge(s, now).pending <==> r in s.pending && now - r.createdAt <= 300.0
    ensures forall n :: n in Purge(s, now).grants
                   <==> n in s.grants && now - s.grants[n].grantedAt <= 60.0
                        && forall r | r in s.pending && r.nonce == n :: now - r.createdAt <= 300.0
    ensures forall n | n in Purge(s, now).grants :: Purge(s, now).grants[n] == s.grants[n]
  {
    LivePendingMembers(s.pending, now);
    forall n ensures n in ExpiredNonces(s.pending, now)
                <==> exists r :: r in s.pending && r.nonce == n && now - r.createdAt > 300.0 {
    }
  }

  predicate LiveFor(s: State, r: Request, action: string, now: real) {
    r in s.pending && r.action == action && now - r.createdAt <= 300.0
  }

  lemma FindLive(s: State, action: string, now: real)
    requires OneRequestAnAction(s.pending)
    ensures var found := Find(Purge(s, now).pending, action);
            && (forall r :: LiveFor(s, r, action, now) <==> found == Some(r))
            && (found.Some? ==> !found.value.Expired(now))
  {
    LivePendingMembers(s.pending, now);
    FindMembers(LivePending(s.pending, now), action, "");
    var found := Find(LivePending(s.pending, now), action);
    forall r ensures LiveFor(s, r, action, now) <==> found == Some(r) {
      if LiveFor(s, r, action, now) && found.Some? {
        SameRequestForAction(s.pending, r, found.value);
      }
    }
  }

  /**
   After any trace, asking is answered by the live request of the action, under its own
   nonce, and only when there is none is a new one made, next to the requests left.
   */
  lemma AskExactly(trace: seq<Event>, action: string, nonce: string, now: real)
    ensures var s, next := After(trace), Step(After(trace), Ask(action, nonce), now);
            && (next.1 == NotRequired <==> action != "clear_local_access_path" && action != "initialize_container")
            && (next.1 != NotRequired ==>
                  && (forall r | LiveFor(s, r, action, now) :: next.1 == AlreadyPending(r.nonce))
                  && ((forall r | r in s.pending :: !LiveFor(s, r, action, now)) ==> next.1 == Created(nonce)))
            && next.0.grants == Purge(s, now).grants
            && (forall r :: r in next.0.pending
                       <==> (r in s.pending && now - r.createdAt <= 300.0)
                            || (next.1 == Created(nonce) && r == Request(action, nonce, now)))
  {
    hide GrantBacked, Backs, After, LivePending, Find, Put;
    TraceInv(trace);
    var s := After(trace);
    FindLive(s, action, now);
    PurgeExactly(s, now);
    FindMembers(Purge(s, now).pending, action, "");
    if Step(s, Ask(action, nonce), now).1 == Created(nonce) {
      if Find(Purge(s, now).pending, action).None? {
        PutNew(Purge(s, now).pending, Request(action, nonce, now));
      }
    }
  }

  /** After any trace, the report is of the live request of the action, its nonce, and whether its grant is live. */
  lemma StatusExactly(trace: seq<Event>, action: string, now: real)
    ensures var s, next := After(trace), Step(After(trace), Status(action), now);
            && next == (Purge(s, now), next.1) && next.1.Report?
            && (forall r | LiveFor(s, r, action, now) ::
                  next.1.pending && next.1.nonce == r.nonce
                  && (next.1.available <==> r.nonce in Purge(s, now).grants))
            && ((forall r | r in s.pending :: !LiveFor(s, r, action, now)) ==> next.1 == Report(false, false, ""))
  {
    hide GrantBacked, Backs, After, LivePending, Find;
    TraceInv(trace);
    FindLive(After(trace), action, now);
  }

  /** The request a nonce names: the oldest pending one that carries it. */
  predicate Names(pending: seq<Request>, i: nat, nonce: string) {
    i < |pending| && pending[i].nonce == nonce && forall j | 0 <= j < i :: pending[j].nonce != nonce
  }

  lemma {:induction false} FindNamed(pending: seq<Request>, i: nat, nonce: string)
    requires Names(pending, i, nonce)
    ensures FindByNonce(pending, nonce) == Some(pending[i])
  {
    if i > 0 {
      assert pending[0].nonce != nonce;
      FindNamed(pending[1..], i - 1, nonce);
    }
  }

  /** Granting looks its request up before the purge, and grants it exactly when it is live and the role answers. */
  lemma ApproveExactly(s: State, i: nat, nonce: string, configured: bool, verified: bool, now: real)
    requires Names(s.pending, i, nonce)
    ensures var r, next := s.pending[i], Step(s, Approve(nonce, configured, verified), now);
            && next.1 == (if now - r.createdAt > 300.0 then RequestExpired
                          else if !configured then NotConfigured
                          else if !verified then WrongPassphrase else Granted)
            && next.0.grants == (if next.1 == Granted then Purge(s, now).grants[nonce := Grant(r.action, nonce, now)]
                                 else Purge(s, now).grants)
            && (forall q :: q in next.0.pending
                       <==> q in s.pending && now - q.createdAt <= 300.0
                            && (next.1 == RequestExpired ==> q.action != r.action))
  {
    hide LivePending, FindByNonce, Pop;
    FindNamed(s.pending, i, nonce);
    PurgeExactly(s, now);
    PopMembers(Purge(s, now).pending, s.pending[i].action);
  }

  lemma ApproveUnknown(s: State, nonce: string, configured: bool, verified: bool, now: real)
    requires forall r | r in s.pending :: r.nonce != nonce
    ensures Step(s, Approve(nonce, configured, verified), now) == (Purge(s, now), NoRequest)
  {
    FindMembers(s.pending, "", nonce);
  }

  /** Consuming looks the grant up before the purge, and spends grant and request together or neither. */
  lemma ConsumeExactly(s: State, action: string, nonce: string, now: real)
    ensures var next := Step(s, Consume(action, nonce), now);
            && (next.1 == NoGrant <==> nonce !in s.grants)
            && (next.1 == ActionMismatch <==> nonce in s.grants && s.grants[nonce].action != action)
            && (next.1 == GrantExpired
                <==> nonce in s.grants && s.grants[nonce].action == action && now - s.grants[nonce].grantedAt > 60.0)
            && (next.1 == Consumed <==> nonce in Purge(s, now).grants && s.grants[nonce].action == action)
            && (if next.1 in {Consumed, GrantExpired}
                then next.0.grants == Purge(s, now).grants - {nonce}
                     && forall q :: q in next.0.pending
                                <==> q in s.pending && now - q.createdAt <= 300.0 && q.action != action
                else next.0 == Purge(s, now))
  {
    hide LivePending, Pop;
    PurgeExactly(s, now);
    PopMembers(Purge(s, now).pending, action);
  }

  // ---- single use ----

  function Carrying(pending: seq<Request>, nonce: string): nat {
    if pending == [] then 0 else (if pending[0].nonce == nonce then 1 else 0) + Carrying(pending[1..], nonce)
  }

  /** How many of the trace's calls created a request carrying `nonce`. */
  function CreatedCount(trace: seq<Event>, nonce: string): nat {
    if trace == [] then 0
    else CreatedCount(trace[..|trace| - 1], nonce) + (if ReplyAt(trace, |trace| - 1) == Created(nonce) then 1 else 0)
  }

  function ConsumedCount(trace: seq<Event>, nonce: string): nat {
    if trace == [] then 0
    else
      var last := trace[|trace| - 1].call;
      ConsumedCount(trace[..|trace| - 1], nonce)
      + (if last.Consume? && last.nonce == nonce && ReplyAt(trace, |trace| - 1) == Consumed then 1 else 0)
  }

  lemma CarryingCons(r: Request, rest: seq<Request>, nonce: string)
    ensures Carrying([r] + rest, nonce) == (if r.nonce == nonce then 1 else 0) + Carrying(rest, nonce)
  {
    assert ([r] + rest)[1..] == rest;
  }

  lemma {:induction false} CarryingLive(pending: seq<Request>, nonce: string, now: real)
    ensures Carrying(LivePending(pending, now), nonce) <= Carrying(pending, nonce)
  {
    if pending != [] {
      var rest := LivePending(pending[1..], now);
      CarryingLive(pending[1..], nonce, now);
      CarryingCons(pending[0], rest, nonce);
      assert [] + rest == rest;
    }
  }

  lemma {:induction false} CarryingPop(pending: seq<Request>, action: string, nonce: string)
    ensures Carrying(Pop(pending, action), nonce) <= Carrying(pending, nonce)
    ensures (exists r :: r in pending && r.action == action && r.nonce == nonce)
        ==> Carrying(Pop(pending, action), nonce) < Carrying(pending, nonce)
  {
    if pending != [] {
      var rest := Pop(pending[1..], action);
      CarryingPop(pending[1..], action, nonce);
      CarryingCons(pending[0], rest, nonce);
      assert [] + rest == rest;
      assert pending == [pending[0]] + pending[1..];
    }
  }

  lemma {:induction false} CarryingAppend(pending: seq<Request>, r: Request, nonce: string)
    ensures Carrying(pending + [r], nonce) == Carrying(pending, nonce) + (if r.nonce == nonce then 1 else 0)
  {
    if pending != [] {
      assert (pending + [r])[1..] == pending[1..] + [r];
      CarryingAppend(pending[1..], r, nonce);
    }
  }

  lemma AskCarrying(s: State, action: string, n: string, now: real, nonce: string)
    ensures var next := Step(s, Ask(action, n), now);
            Carrying(next.0.pending, nonce) <= Carrying(s.pending, nonce) + (if next.1 == Created(nonce) then 1 else 0)
  {
    hide LivePending;
    var p := Purge(s, now);
    CarryingLive(s.pending, nonce, now);
    FindMembers(p.pending, action, n);
    LivePendingMembers(s.pending, now);
    if Step(s, Ask(action, n), now).1.Created? {
      PutNew(p.pending, Request(action, n, now));
      CarryingAppend(p.pending, Request(action, n, now), nonce);
    }
  }

  lemma ApproveCarrying(s: State, n: string, configured: bool, verified: bool, now: real, nonce: string)
    ensures Carrying(Step(s, Approve(n, configured, verified), now).0.pending, nonce) <= Carrying(s.pending, nonce)
  {
    hide LivePending, Pop, Carrying;
    var p, req := Purge(s, now), FindByNonce(s.pending, n);
    CarryingLive(s.pending, nonce, now);
    if req.Some? {
      CarryingPop(p.pending, req.value.action, nonce);
    }
  }

  lemma ConsumeCarrying(trace: seq<Event>, s: State, action: string, n: string, now: real, nonce: string)
    requires Inv(trace, s)
    ensures var next := Step(s, Consume(action, n), now);
            Carrying(next.0.pending, nonce)
                + (if n == nonce && next.1 == Consumed then 1 else 0) <= Carrying(s.pending, nonce)
  {
    hide LivePending, Pop, Carrying, Inv, GrantBacked, BacksGrant;
    var p := Purge(s, now);
    CarryingLive(s.pending, nonce, now);
    CarryingPop(p.pending, action, nonce);
    if Step(s, Consume(action, n), now).1 == Consumed {
      ConsumedRequestPends(trace, s, action, n, now);
    }
  }

  lemma ConsumedRequestPends(trace: seq<Event>, s: State, action: string, n: string, now: real)
    requires Inv(trace, s) && Step(s, Consume(action, n), now).1 == Consumed
    ensures exists r :: r in Purge(s, now).pending && r.action == action && r.nonce == n
  {
    hide Step, Inv, Purge;
    var r, j, k := ConsumedGrantBacked(trace, s, action, n, now);
  }

  /** A step adds a pending nonce only by creating it, and a consumption takes one away. */
  lemma StepCarrying(trace: seq<Event>, s: State, e: Event, nonce: string)
    requires Inv(trace, s)
    ensures var next := Step(s, e.call, e.now);
            Carrying(next.0.pending, nonce)
                + (if e.call.Consume? && e.call.nonce == nonce && next.1 == Consumed then 1 else 0)
            <= Carrying(s.pending, nonce) + (if next.1 == Created(nonce) then 1 else 0)
  {
    hide LivePending, Pop, Carrying, Inv, Put;
    match e.call
    case Ask(action, n) => AskCarrying(s, action, n, e.now, nonce);
    case Approve(n, configured, verified) => ApproveCarrying(s, n, configured, verified, e.now, nonce);
    case Consume(action, n) => ConsumeCarrying(trace, s, action, n, e.now, nonce);
    case Status(_) => CarryingLive(s.pending, nonce, e.now);
  }

  /**
   Single use, with no assumption on the random nonces: a nonce is consumed at most
   as often as it was issued, so a nonce issued once is never consumed twice.
   */
  lemma {:induction false} ConsumedAtMostIssued(trace: seq<Event>, nonce: string)
    ensures ConsumedCount(trace, nonce) + Carrying(After(trace).pending, nonce) <= CreatedCount(trace, nonce)
  {
    if trace != [] {
      var shorter, e := trace[..|trace| - 1], trace[|trace| - 1];
      ConsumedAtMostIssued(shorter, nonce);
      TraceInv(shorter);
      StepCarrying(shorter, After(shorter), e, nonce);
    }
  }
}
