/**
 Key-derivation inputs of kdf_engine.py: the context string built from password,
 cue, mode and role, and the secret joined from the access key and providers.
 */
module KeyContext {
  import opened Wrappers

  datatype Mode = Dummy | Secret
  datatype Role = Open | Purge

  const ACCESS_KEY_SIZE: nat := 32
  const NO_MATCH_TOKEN := "none"

  function ModeName(m: Mode): string {
    match m case Dummy => "dummy" case Secret => "secret"
  }

  function RoleName(r: Role): string {
    match r case Open => "open" case Purge => "purge"
  }

  function Other(m: Mode): Mode {
    match m case Dummy => Secret case Secret => Dummy
  }

  function AuthToken(m: Mode): string {
    match m case Dummy => "reference_dummy_matched" case Secret => "reference_secret_matched"
  }

  /** `"-".join(parts)` */
  function Join(parts: seq<string>): string {
    if |parts| == 0 then ""
    else if |parts| == 1 then parts[0]
    else parts[0] + "-" + Join(parts[1..])
  }

  function ContextPassword(password: string, cue: seq<string>, mode: Mode, role: Role): string {
    password + "_" + Join(cue) + "_" + ModeName(mode) + "_" + RoleName(role)
  }

  predicate GateToken(t: string) {
    t == NO_MATCH_TOKEN || t == AuthToken(Dummy) || t == AuthToken(Secret)
  }

  /** Every cue the gate emits: one token, repeated any number of times. */
  predicate GateCue(cue: seq<string>) {
    forall i | 0 <= i < |cue| :: GateToken(cue[i]) && cue[i] == cue[0]
  }

  /** What an underscore is followed by inside a gate cue, where a cue's own first letter never is. */
  predicate UnderscoresInside(s: string) {
    forall i | 0 <= i < |s| && s[i] == '_' :: i + 1 < |s| && s[i + 1] in {'d', 's', 'm'}
  }

  lemma GateTokenShape(t: string)
    requires GateToken(t)
    ensures |t| > 0 && t[0] in {'n', 'r'} && UnderscoresInside(t) && '-' !in t
  {
  }

  lemma {:induction false} GateCueShape(cue: seq<string>)
    requires GateCue(cue)
    ensures UnderscoresInside(Join(cue))
    ensures cue != [] ==> |Join(cue)| > 0 && Join(cue)[0] in {'n', 'r'}
  {
    if cue != [] {
      GateTokenShape(cue[0]);
      if |cue| > 1 {
        assert forall i | 0 <= i < |cue| - 1 :: cue[1..][i] == cue[i + 1] == cue[0];
        GateCueShape(cue[1..]);
        var j := Join(cue);
        var head := cue[0] + "-";
        assert j == head + Join(cue[1..]);
        forall i | 0 <= i < |j| && j[i] == '_' ensures i + 1 < |j| && j[i + 1] in {'d', 's', 'm'} {
          if i < |cue[0]| {
            assert cue[0][i] == '_';
          } else if i >= |head| {
            assert Join(cue[1..])[i - |head|] == '_';
          }
        }
      }
    }
  }

  lemma {:induction false} JoinInjectiveOnGateCues(a: seq<string>, b: seq<string>)
    requires GateCue(a) && GateCue(b) && Join(a) == Join(b)
    ensures a == b
  {
    GateCueShape(a);
    GateCueShape(b);
    if a != [] && b != [] {
      GateTokenShape(a[0]);
      GateTokenShape(b[0]);
      JoinStart(a);
      JoinStart(b);
      SameFirstToken(a[0], b[0], Join(a));
      assert a[0] == b[0];
      if |a| > 1 || |b| > 1 {
        assert |a| > 1 && |b| > 1;
        assert Join(a)[|a[0]| + 1..] == Join(a[1..]);
        assert Join(b)[|b[0]| + 1..] == Join(b[1..]);
        assert forall i | 0 <= i < |a| - 1 :: a[1..][i] == a[i + 1] == a[0];
        assert forall i | 0 <= i < |b| - 1 :: b[1..][i] == b[i + 1] == b[0];
        JoinInjectiveOnGateCues(a[1..], b[1..]);
        assert a == [a[0]] + a[1..] && b == [b[0]] + b[1..];
      }
    }
  }

  lemma JoinStart(cue: seq<string>)
    requires cue != []
    ensures cue[0] <= Join(cue)
    ensures if |cue| == 1 then Join(cue) == cue[0] else cue[0] + "-" <= Join(cue)
  {
  }

  lemma SameFirstToken(s: string, t: string, j: string)
    requires GateToken(s) && GateToken(t) && s <= j && t <= j
    ensures s == t
  {
    assert s[0] == j[0] == t[0];
    if |s| > 10 && |t| > 10 {
      assert s[10] == j[10] == t[10];
    }
  }

  /** The part of a context after the cue fixes both mode and role. */
  lemma SuffixDecides(x: string, m1: Mode, r1: Role, y: string, m2: Mode, r2: Role)
    requires x + ("_" + ModeName(m1) + "_" + RoleName(r1)) == y + ("_" + ModeName(m2) + "_" + RoleName(r2))
    ensures m1 == m2 && r1 == r2 && x == y
  {
    var a, b := "_" + ModeName(m1) + "_" + RoleName(r1), "_" + ModeName(m2) + "_" + RoleName(r2);
    var c := x + a;
    assert c[|c| - 1] == a[|a| - 1] == b[|b| - 1];
    assert r1 == r2;
    var k := |RoleName(r1)| + 2;
    assert c[|c| - k] == a[|a| - k] == b[|b| - k];
    assert m1 == m2;
    assert x == c[..|c| - |a|] == y;
  }

  /** When one ending is longer, the separator before the shorter one lies inside it. */
  lemma SeparatorInsideLonger(p1: string, j1: string, p2: string, j2: string)
    requires p1 + "_" + j1 == p2 + "_" + j2 && |j1| < |j2|
    ensures var at := |j2| - |j1| - 1;
            j2[at] == '_' && (if j1 == "" then at + 1 == |j2| else j2[at + 1] == j1[0])
  {
    var s := p1 + "_" + j1;
    var at := |j2| - |j1| - 1;
    assert j2[at] == s[|s| - |j1| - 1];
    if j1 != "" {
      assert j2[at + 1] == s[|s| - |j1|] == j1[0];
    }
  }

  /** The cue is the part after the last underscore that starts one, whatever the password holds. */
  lemma CueDecides(p1: string, g1: seq<string>, p2: string, g2: seq<string>)
    requires GateCue(g1) && GateCue(g2)
    requires p1 + "_" + Join(g1) == p2 + "_" + Join(g2)
    requires |Join(g1)| <= |Join(g2)|
    ensures p1 == p2 && g1 == g2
  {
    GateCueShape(g1);
    GateCueShape(g2);
    var s, j1, j2 := p1 + "_" + Join(g1), Join(g1), Join(g2);
    if |j1| < |j2| {
      SeparatorInsideLonger(p1, j1, p2, j2);
      assert false;
    } else {
      assert j1 == s[|s| - |j1|..] == j2;
      JoinInjectiveOnGateCues(g1, g2);
      assert p1 == s[..|s| - |j1| - 1] == p2;
    }
  }

  lemma ContextSplits(password: string, cue: seq<string>, mode: Mode, role: Role)
    ensures ContextPassword(password, cue, mode, role)
         == (password + "_" + Join(cue)) + ("_" + ModeName(mode) + "_" + RoleName(role))
  {
    var x, m, r := password + "_" + Join(cue), ModeName(mode), RoleName(role);
    assert x + "_" + m + "_" + r == x + ("_" + m + "_" + r);
  }

  /** No two (password, gate cue, mode, role) share a context, though passwords may hold the separators. */
  lemma ContextInjective(p1: string, g1: seq<string>, m1: Mode, r1: Role,
                         p2: string, g2: seq<string>, m2: Mode, r2: Role)
    requires GateCue(g1) && GateCue(g2)
    requires ContextPassword(p1, g1, m1, r1) == ContextPassword(p2, g2, m2, r2)
    ensures p1 == p2 && g1 == g2 && m1 == m2 && r1 == r2
  {
    var x, y := p1 + "_" + Join(g1), p2 + "_" + Join(g2);
    ContextSplits(p1, g1, m1, r1);
    ContextSplits(p2, g2, m2, r2);
    SuffixDecides(x, m1, r1, y, m2, r2);
    if |Join(g1)| <= |Join(g2)| {
      CueDecides(p1, g1, p2, g2);
    } else {
      CueDecides(p2, g2, p1, g1);
    }
  }

  /** Under one cue, mode and role, any two passwords give different contexts. */
  lemma SameCueContext(p: string, q: string, cue: seq<string>, mode: Mode, role: Role)
    requires ContextPassword(p, cue, mode, role) == ContextPassword(q, cue, mode, role)
    ensures p == q
  {
    var x, y := p + "_" + Join(cue), q + "_" + Join(cue);
    ContextSplits(p, cue, mode, role);
    ContextSplits(q, cue, mode, role);
    SuffixDecides(x, mode, role, y, mode, role);
    assert p == x[..|x| - |Join(cue)| - 1] && q == y[..|y| - |Join(cue)| - 1];
  }

  /** The gate's vocabulary is what separates: free-form cues collide. */
  lemma FreeFormCuesCollide()
    ensures ContextPassword("a_b", ["c"], Dummy, Open) == ContextPassword("a", ["b_c"], Dummy, Open)
  {
    assert Join(["c"]) == "c" && Join(["b_c"]) == "b_c";
    assert "a_b" + "_" + "c" == "a" + "_" + "b_c";
  }

  function Concat(parts: seq<string>): string {
    if parts == [] then "" else parts[0] + Concat(parts[1..])
  }

  lemma {:induction false} ConcatAppend(parts: seq<string>, part: string)
    ensures Concat(parts + [part]) == Concat(parts) + part
  {
    if parts != [] {
      assert (parts + [part])[1..] == parts[1..] + [part];
      ConcatAppend(parts[1..], part);
    } else {
      assert (parts + [part])[1..] == [];
    }
  }

  /** The KDF secret: the local access key, if any, then what the providers return. */
  function KdfSecret(local: Option<string>, providers: seq<Option<string>>): string {
    (if local.Some? then local.value else "") + ProviderSecret(providers)
  }

  function ProviderSecret(providers: seq<Option<string>>): string {
    if providers == [] then ""
    else (if providers[0].Some? then providers[0].value else "") + ProviderSecret(providers[1..])
  }

  method BuildKdfSecret(local: Option<string>, providers: seq<Option<string>>) returns (secret: string)
    ensures secret == KdfSecret(local, providers)
  {
    var parts: seq<string> := [];
    if local.Some? {
      parts := parts + [local.value];
    }
    ghost var first := Concat(parts);
    assert first == if local.Some? then local.value else "";
    for i := 0 to |providers|
      invariant KdfSecret(local, providers) == Concat(parts) + ProviderSecret(providers[i..])
    {
      assert providers[i..][1..] == providers[i + 1..];
      if providers[i].Some? && providers[i].value != "" {
        ConcatAppend(parts, providers[i].value);
        parts := parts + [providers[i].value];
      }
    }
    secret := Concat(parts);
  }

  /** With the providers fixed, the secret tells apart every access key and its absence. */
  lemma KdfSecretInjective(a: Option<string>, b: Option<string>, providers: seq<Option<string>>)
    requires a.Some? ==> |a.value| == ACCESS_KEY_SIZE
    requires b.Some? ==> |b.value| == ACCESS_KEY_SIZE
    requires KdfSecret(a, providers) == KdfSecret(b, providers)
    ensures a == b
  {
    var p := ProviderSecret(providers);
    var s := KdfSecret(a, providers);
    assert a.Some? ==> a.value == s[..|s| - |p|];
    assert b.Some? ==> b.value == s[..|s| - |p|];
  }
}
