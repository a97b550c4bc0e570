/** What a finished revocation and a finished store guarantee in every interleaving of the operations of
    src/auth/token_store.py. */
module Revocation {
  import opened Common
  import opened Tokens = TokenStore

  // ---- Operations only move forward ----------------------------------------------------------

  lemma {:induction false} FlightsMoveForward(asText: User -> User, ops: seq<Op>, steps: seq<Step>, run: seq<State>, m: nat, n: nat, j: nat)
    requires IsRun(asText, ops, steps, run) && m <= n < |run| && j < |ops|
    ensures |run[m].flights| == |run[n].flights| == |ops|
    ensures run[m].flights[j].Finished? ==> run[n].flights[j] == run[m].flights[j]
    ensures run[n].flights[j].NotStarted? ==> run[m].flights[j].NotStarted?
    decreases n
  {
    if n > 0 {
      assert Enabled(run[n - 1], ops, steps[n - 1]) && run[n] == Apply(asText, run[n - 1], ops, steps[n - 1]);
      if m < n {
        FlightsMoveForward(asText, ops, steps, run, m, n - 1, j);
      } else {
        FlightsMoveForward(asText, ops, steps, run, n - 1, n - 1, j);
      }
    }
  }

  // ---- Revocation ------------------------------------------------------------------------------

  /** No store of the token is under way between the two moments: each has finished by the first or not
      begun by the second. */
  ghost predicate NoStoreBetween(ops: seq<Op>, first: seq<Flight>, second: seq<Flight>, t: Token) {
    |first| == |second| == |ops| &&
    forall j | 0 <= j < |ops| && ops[j].Put? && ops[j].token == t :: first[j].Finished? || second[j].NotStarted?
  }

  ghost predicate IsStoreStep(ops: seq<Op>, step: Step, t: Token) {
    !step.Expire? && step.i < |ops| && ops[step.i].Put? && ops[step.i].token == t
  }

  /** Nothing that is still read holds the token. */
  ghost predicate Gone(s: Store, t: Token) {
    t !in s.memory && (s.redisOk ==> t !in s.redis)
  }

  /** How far a revocation has come. */
  ghost predicate Revoking(s: State, ops: seq<Op>, t: Token, r: nat) {
    |s.flights| == |ops| && r < |ops| && ops[r] == Revoke(t) &&
    match s.flights[r]
    case NotStarted => false
    case InRedis(executed, _) => executed ==> t !in s.store.redis
    case Finished(_) => Gone(s.store, t)
  }

  /** A pop or lookup can only answer None. */
  ghost predicate Refused(s: State, t: Token, f: Flight) {
    match f
    case NotStarted => true
    case InRedis(executed, got) => if executed then got.None? else t !in s.store.redis
    case Finished(result) => result.None?
  }

  lemma StepKeepsRevoking(asText: User -> User, s: State, ops: seq<Op>, step: Step, t: Token, r: nat)
    requires Enabled(s, ops, step) && !IsStoreStep(ops, step, t) && Revoking(s, ops, t, r)
    ensures Revoking(Apply(asText, s, ops, step), ops, t, r)
  {
  }

  lemma StepKeepsRefused(asText: User -> User, s: State, ops: seq<Op>, step: Step, t: Token, r: nat, k: nat)
    requires Enabled(s, ops, step) && !IsStoreStep(ops, step, t) && Revoking(s, ops, t, r) && s.flights[r].Finished?
    requires k < |ops| && ops[k] in {Pop(t), Lookup(t)} && Refused(s, t, s.flights[k])
    ensures k < |Apply(asText, s, ops, step).flights| && Refused(Apply(asText, s, ops, step), t, Apply(asText, s, ops, step).flights[k])
  {
  }

  lemma NoStoreStep(asText: User -> User, ops: seq<Op>, steps: seq<Step>, run: seq<State>, b: nat, n: nat, i: nat, t: Token)
    requires IsRun(asText, ops, steps, run) && b <= n < i < |run| && NoStoreBetween(ops, run[b].flights, run[i].flights, t)
    ensures !IsStoreStep(ops, steps[n], t)
  {
    if IsStoreStep(ops, steps[n], t) {
      var j := steps[n].i;
      assert Enabled(run[n], ops, steps[n]) && run[n + 1] == Apply(asText, run[n], ops, steps[n]);
      FlightsMoveForward(asText, ops, steps, run, b, n, j);
      FlightsMoveForward(asText, ops, steps, run, n + 1, i, j);
    }
  }

  lemma {:induction false} RevocationProceeds(asText: User -> User, ops: seq<Op>, steps: seq<Step>, run: seq<State>, b: nat, n: nat, i: nat,
                                              t: Token, r: nat)
    requires IsRun(asText, ops, steps, run) && b < n <= i < |run| && steps[b] == Begin(r) && r < |ops| && ops[r] == Revoke(t)
    requires NoStoreBetween(ops, run[b].flights, run[i].flights, t)
    ensures Revoking(run[n], ops, t, r)
    decreases n
  {
    assert Enabled(run[n - 1], ops, steps[n - 1]) && run[n] == Apply(asText, run[n - 1], ops, steps[n - 1]);
    if n > b + 1 {
      RevocationProceeds(asText, ops, steps, run, b, n - 1, i, t, r);
      NoStoreStep(asText, ops, steps, run, b, n - 1, i, t);
      StepKeepsRevoking(asText, run[n - 1], ops, steps[n - 1], t, r);
    }
  }

  lemma NoStoreBefore(asText: User -> User, ops: seq<Op>, steps: seq<Step>, run: seq<State>, b: nat, i: nat, t: Token)
    requires IsRun(asText, ops, steps, run) && b < i < |run| && NoStoreBetween(ops, run[b].flights, run[i].flights, t)
    ensures NoStoreBetween(ops, run[b].flights, run[i - 1].flights, t)
  {
    assert Enabled(run[i - 1], ops, steps[i - 1]);
    forall j | 0 <= j < |ops| && ops[j].Put? && ops[j].token == t ensures run[b].flights[j].Finished? || run[i - 1].flights[j].NotStarted? {
      FlightsMoveForward(asText, ops, steps, run, i - 1, i, j);
    }
  }

  lemma RefusedNext(asText: User -> User, ops: seq<Op>, steps: seq<Step>, run: seq<State>, b: nat, e: nat, i: nat, t: Token, r: nat, k: nat)
    requires IsRun(asText, ops, steps, run) && b < e <= i < |steps| && steps[b] == Begin(r) && r < |ops| && ops[r] == Revoke(t)
    requires NoStoreBetween(ops, run[b].flights, run[i + 1].flights, t)
    requires |run[e].flights| == |ops| && run[e].flights[r].Finished?
    requires k < |ops| && ops[k] in {Pop(t), Lookup(t)} && |run[i].flights| == |ops| && Refused(run[i], t, run[i].flights[k])
    ensures |run[i + 1].flights| == |ops| && Refused(run[i + 1], t, run[i + 1].flights[k])
  {
    assert Enabled(run[i], ops, steps[i]) && run[i + 1] == Apply(asText, run[i], ops, steps[i]);
    NoStoreStep(asText, ops, steps, run, b, i, i + 1, t);
    RevocationProceeds(asText, ops, steps, run, b, i, i + 1, t, r);
    FlightsMoveForward(asText, ops, steps, run, e, i, r);
    StepKeepsRefused(asText, run[i], ops, steps[i], t, r, k);
  }

  /** Once a revocation has finished, every pop and lookup of the token that begins afterwards answers
      None, however Redis failed, if no store of the token was under way when the revocation began and
      none has begun since. */
  lemma {:induction false} RevokedStaysRevoked(asText: User -> User, ops: seq<Op>, steps: seq<Step>, run: seq<State>, b: nat, e: nat, i: nat,
                                               t: Token, r: nat, k: nat)
    requires IsRun(asText, ops, steps, run) && b < e <= i < |run| && steps[b] == Begin(r) && r < |ops| && ops[r] == Revoke(t)
    requires NoStoreBetween(ops, run[b].flights, run[i].flights, t)
    requires |run[e].flights| == |ops| && run[e].flights[r].Finished?
    requires k < |ops| && ops[k] in {Pop(t), Lookup(t)} && run[e].flights[k].NotStarted?
    ensures |run[i].flights| == |ops| && Refused(run[i], t, run[i].flights[k])
    decreases i
  {
    if e < i {
      assert Enabled(run[i - 1], ops, steps[i - 1]);
      NoStoreBefore(asText, ops, steps, run, b, i, t);
      RevokedStaysRevoked(asText, ops, steps, run, b, e, i - 1, t, r, k);
      RefusedNext(asText, ops, steps, run, b, e, i - 1, t, r, k);
    }
  }

  // ---- Keeping a token -----------------------------------------------------------------------------

  /** Apart from one store, a token is only looked up. */
  ghost predicate OnlyLookedUp(ops: seq<Op>, t: Token, p: nat) {
    forall j | 0 <= j < |ops| && j != p && ops[j].token == t :: ops[j].Lookup?
  }

  /** A finished store left the user in memory or in Redis; nothing else of the token is anywhere. */
  ghost predicate Kept(s: State, ops: seq<Op>, t: Token, u: User, p: nat) {
    |s.flights| == |ops| && p < |ops| && ops[p] == Put(t, u) && (t in s.store.memory ==> s.store.memory[t] == u) &&
    match s.flights[p]
    case NotStarted => true
    case InRedis(executed, _) => executed ==> t in s.store.redis && s.store.redis[t] == u
    case Finished(_) => t in s.store.memory || (t in s.store.redis && s.store.redis[t] == u)
  }

  lemma StepKeepsToken(asText: User -> User, s: State, ops: seq<Op>, step: Step, t: Token, u: User, p: nat)
    requires Enabled(s, ops, step) && OnlyLookedUp(ops, t, p) && step != Expire(t) && Kept(s, ops, t, u, p)
    ensures Kept(Apply(asText, s, ops, step), ops, t, u, p)
  {
  }

  lemma {:induction false} TokenIsKept(asText: User -> User, ops: seq<Op>, steps: seq<Step>, run: seq<State>, i: nat, t: Token, u: User, p: nat)
    requires IsRun(asText, ops, steps, run) && i < |run| && p < |ops| && ops[p] == Put(t, u) && OnlyLookedUp(ops, t, p)
    requires forall j | 0 <= j < i :: steps[j] != Expire(t)
    ensures Kept(run[i], ops, t, u, p)
  {
    if i > 0 {
      assert Enabled(run[i - 1], ops, steps[i - 1]) && run[i] == Apply(asText, run[i - 1], ops, steps[i - 1]);
      TokenIsKept(asText, ops, steps, run, i - 1, t, u, p);
      StepKeepsToken(asText, run[i - 1], ops, steps[i - 1], t, u, p);
    }
  }

  /** A token that was stored and has neither been popped or revoked nor expired is found if and only if
      Redis is still trusted or the token was stored in memory: the first failure of Redis strands
      every token kept there. */
  lemma StoredTokenIsFoundIff(asText: User -> User, ops: seq<Op>, steps: seq<Step>, run: seq<State>, i: nat, t: Token, u: User, p: nat)
    requires IsRun(asText, ops, steps, run) && i < |run| && p < |ops| && ops[p] == Put(t, u) && OnlyLookedUp(ops, t, p)
    requires forall j | 0 <= j < i :: steps[j] != Expire(t)
    requires |run[i].flights| == |ops| && run[i].flights[p].Finished?
    ensures var s, found := run[i].store, RunAlone(asText, run[i].store, Lookup(t), NoFault).1;
            (found == Some(u) <==> s.redisOk || t in s.memory) && (found == None <==> !s.redisOk && t !in s.memory) &&
            (RunAlone(asText, s, Pop(t), NoFault).1.Some? <==> found.Some?)
  {
    TokenIsKept(asText, ops, steps, run, i, t, u, p);
    TrustIsOneWay(asText, ops, steps, run, i, i);
  }
}
