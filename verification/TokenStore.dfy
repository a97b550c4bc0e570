/** The refresh-token store of src/auth/token_store.py, with its one-way failover from Redis to
    memory, and the rotation of src/auth/service.py built on it. Tokens stand for their hashed keys. */
module TokenStore {
  import opened Common

  type Token = string
  type User = string

  /** Redis, the process's fallback dictionary, and whether Redis is still trusted. */
  datatype Store = Store(redis: map<Token, User>, memory: map<Token, User>, redisOk: bool)

  datatype Op = Pop(token: Token) | Put(token: Token, user: User) | Revoke(token: Token) | Lookup(token: Token)

  function Find(m: map<Token, User>, t: Token): Option<User> {
    if t in m then Some(m[t]) else None
  }

  // ---- The three stages of an operation ---------------------------------------------------

  /** What Redis does, atomically. */
  function Effect(s: Store, op: Op): (Store, Option<User>) {
    match op
    case Pop(t) => (s.(redis := s.redis - {t}), Find(s.redis, t))
    case Put(t, u) => (s.(redis := s.redis[t := u]), None)
    case Revoke(t) => (s.(redis := s.redis - {t}), None)
    case Lookup(t) => (s, Find(s.redis, t))
  }

  /** A pop hands on the text of Redis's reply; `asText` says what that text is for a stored user. */
  function Shown(asText: User -> User, raw: Option<User>): Option<User> {
    if raw.Some? then Some(asText(raw.value)) else None
  }

  /** What follows a Redis call that returned `got`. */
  function Success(asText: User -> User, s: Store, op: Op, got: Option<User>): (Store, Option<User>) {
    match op
    case Pop(_) => (s, Shown(asText, got))
    case Put(_, _) => (s, None)
    case Revoke(t) => (s.(memory := s.memory - {t}), None)
    case Lookup(t) => (s, if got.Some? then got else Find(s.memory, t))
  }

  /** The fallback on the dictionary. */
  function Fallback(s: Store, op: Op): (Store, Option<User>) {
    match op
    case Pop(t) => (s.(memory := s.memory - {t}), Find(s.memory, t))
    case Put(t, u) => (s.(memory := s.memory[t := u]), None)
    case Revoke(t) => (s.(memory := s.memory - {t}), None)
    case Lookup(t) => (s, Find(s.memory, t))
  }

  /** How the Redis call of one operation goes: it may raise before or after taking effect. */
  datatype Fault = NoFault | RaisesBefore | RaisesAfter

  /** An operation that runs without interruption. */
  function RunAlone(asText: User -> User, s: Store, op: Op, fault: Fault): (Store, Option<User>) {
    if !s.redisOk then Fallback(s, op)
    else
      var (s1, got) := if fault.RaisesBefore? then (s, None) else Effect(s, op);
      if fault.NoFault? then Success(asText, s1, op, got) else Fallback(s1.(redisOk := false), op)
  }

  class TokenStore {
    var redis: map<Token, User>
    var memory: map<Token, User>
    var redisOk: bool
    const asText: User -> User

    constructor (redis: map<Token, User>, asText: User -> User)
      ensures this.redis == redis && memory == map[] && redisOk && this.asText == asText
    {
      this.redis, memory, redisOk, this.asText := redis, map[], true, asText;
    }

    function State(): Store
      reads this
    {
      Store(redis, memory, redisOk)
    }

    method PopToken(token: Token, fault: Fault) returns (user: Option<User>)
      modifies this
      ensures redisOk == (old(redisOk) && fault == NoFault)
      ensures redis == if old(redisOk) && fault != RaisesBefore then old(redis) - {token} else old(redis)
      ensures memory == if redisOk then old(memory) else old(memory) - {token}
      ensures redisOk ==> user == if token in old(redis) then Some(asText(old(redis)[token])) else None
      ensures !redisOk ==> user == if token in old(memory) then Some(old(memory)[token]) else None
      ensures (State(), user) == RunAlone(asText, old(State()), Pop(token), fault)
    {
      if redisOk {
        var raw: Option<User> := None;
        if fault != RaisesBefore {
          raw := Find(redis, token);
          redis := redis - {token};
        }
        if fault == NoFault {
          return if raw.Some? then Some(asText(raw.value)) else None;
        }
        redisOk := false;
      }
      user := Find(memory, token);
      memory := memory - {token};
    }

    method RevokeToken(token: Token, fault: Fault)
      modifies this
      ensures redisOk == (old(redisOk) && fault == NoFault)
      ensures redis == if old(redisOk) && fault != RaisesBefore then old(redis) - {token} else old(redis)
      ensures memory == old(memory) - {token}
      ensures State() == RunAlone(asText, old(State()), Revoke(token), fault).0
    {
      if redisOk {
        if fault != RaisesBefore {
          redis := redis - {token};
        }
        if fault != NoFault {
          redisOk := false;
        }
      }
      memory := memory - {token};
    }

    method LookupToken(token: Token, fault: Fault) returns (user: Option<User>)
      modifies this
      ensures redisOk == (old(redisOk) && fault == NoFault) && redis == old(redis) && memory == old(memory)
      ensures user == if redisOk && token in redis then Some(redis[token])
                      else if token in memory then Some(memory[token])
                      else None
      ensures (State(), user) == RunAlone(asText, old(State()), Lookup(token), fault)
    {
      if redisOk {
        if fault == NoFault {
          var val := Find(redis, token);
          if val.Some? {
            return val;
          }
        } else {
          redisOk := false;
        }
      }
      user := Find(memory, token);
    }

    method StoreToken(token: Token, user: User, fault: Fault)
      modifies this
      ensures redisOk == (old(redisOk) && fault == NoFault)
      ensures redis == if old(redisOk) && fault != RaisesBefore then old(redis)[token := user] else old(redis)
      ensures memory == if redisOk then old(memory) else old(memory)[token := user]
      ensures State() == RunAlone(asText, old(State()), Put(token, user), fault).0
    {
      if redisOk {
        if fault != RaisesBefore {
          redis := redis[token := user];
        }
        if fault == NoFault {
          return;
        }
        redisOk := false;
      }
      memory := memory[token := user];
    }
  }

  /** Issuing the first token of a session. */
  method CreateTokens(store: TokenStore, user: User, refreshToken: Token, fault: Fault)
    modifies store
    ensures store.State() == RunAlone(store.asText, old(store.State()), Put(refreshToken, user), fault).0
  {
    store.StoreToken(refreshToken, user, fault);
  }

  /** Rotation: a token that decodes is popped, and only a successful pop stores the next one. */
  method RefreshTokens(store: TokenStore, token: Token, decodes: bool, next: Token, popFault: Fault, putFault: Fault)
    returns (r: Option<Token>)
    modifies store
    ensures !decodes ==> r == None && store.State() == old(store.State())
    ensures decodes ==>
              var (s1, user) := RunAlone(store.asText, old(store.State()), Pop(token), popFault);
              if user.None? || user.value == "" then r == None && store.State() == s1
              else r == Some(next) && store.State() == RunAlone(store.asText, s1, Put(next, user.value), putFault).0
  {
    if !decodes {
      return None;
    }
    var username := store.PopToken(token, popFault);
    if username.None? || username.value == "" {
      return None;
    }
    store.StoreToken(next, username.value, putFault);
    r := Some(next);
  }

  // ---- Overlapping operations of one process -------------------------------------------------

  /** Where an operation is: waiting for Redis, with what Redis answered if it has acted, or done. */
  datatype Flight = NotStarted | InRedis(executed: bool, got: Option<User>) | Finished(result: Option<User>)

  /** `taken` and `answered` are history: the stores whose copy in Redis a pop took before they
      returned, and the pops that returned with a user from Redis. */
  datatype State = State(store: Store, flights: seq<Flight>, taken: set<nat>, answered: set<nat>)

  /** Operations interleave at their awaits; keys may also expire in Redis. */
  datatype Step = Begin(i: nat) | Execute(i: nat) | Return(i: nat) | Raise(i: nat) | Expire(token: Token)

  ghost predicate Enabled(s: State, ops: seq<Op>, step: Step) {
    |s.flights| == |ops| &&
    match step
    case Begin(i) => i < |ops| && s.flights[i].NotStarted?
    case Execute(i) => i < |ops| && s.flights[i].InRedis? && !s.flights[i].executed
    case Return(i) => i < |ops| && s.flights[i].InRedis? && s.flights[i].executed
    case Raise(i) => i < |ops| && s.flights[i].InRedis?
    case Expire(_) => true
  }

  /** Store `j` has put the token into Redis and not returned yet. */
  predicate Unreturned(flights: seq<Flight>, ops: seq<Op>, t: Token, j: nat) {
    |flights| == |ops| &&
    j < |ops| && ops[j].Put? && ops[j].token == t && flights[j].InRedis? && flights[j].executed
  }

  ghost function UnreturnedStores(flights: seq<Flight>, ops: seq<Op>, t: Token): set<nat> {
    set j: nat | j < |ops| && Unreturned(flights, ops, t, j)
  }

  ghost function Apply(asText: User -> User, s: State, ops: seq<Op>, step: Step): State
    requires Enabled(s, ops, step)
  {
    match step
    case Begin(i) =>
      if s.store.redisOk then s.(flights := s.flights[i := InRedis(false, None)])
      else var (st, r) := Fallback(s.store, ops[i]); State(st, s.flights[i := Finished(r)], s.taken, s.answered)
    case Execute(i) =>
      var (st, got) := Effect(s.store, ops[i]);
      State(st, s.flights[i := InRedis(true, got)],
            if ops[i].Pop? && got.Some? then s.taken + UnreturnedStores(s.flights, ops, ops[i].token) else s.taken,
            s.answered)
    case Return(i) =>
      var (st, r) := Success(asText, s.store, ops[i], s.flights[i].got);
      State(st, s.flights[i := Finished(r)], s.taken,
            if ops[i].Pop? && s.flights[i].got.Some? then s.answered + {i} else s.answered)
    case Raise(i) =>
      var (st, r) := Fallback(s.store.(redisOk := false), ops[i]); State(st, s.flights[i := Finished(r)], s.taken, s.answered)
    case Expire(t) => s.(store := s.store.(redis := s.store.redis - {t}))
  }

  ghost predicate IsStart(s: State, ops: seq<Op>) {
    s.store == Store(map[], map[], true) && s.taken == {} && s.answered == {} && |s.flights| == |ops| &&
    forall i | 0 <= i < |ops| :: s.flights[i] == NotStarted
  }

  ghost predicate IsRun(asText: User -> User, ops: seq<Op>, steps: seq<Step>, run: seq<State>) {
    |run| == |steps| + 1 && IsStart(run[0], ops) &&
    forall i | 0 <= i < |steps| :: Enabled(run[i], ops, steps[i]) && run[i + 1] == Apply(asText, run[i], ops, steps[i])
  }

  /** How often a token was given out against its being stored. */
  function Redeemed(ops: seq<Op>, flights: seq<Flight>, t: Token): nat
    requires |ops| == |flights|
  {
    if ops == [] then 0
    else
      var n := |ops| - 1;
      Redeemed(ops[..n], flights[..n], t) +
      (if ops[n] == Pop(t) && flights[n].Finished? && flights[n].result.Some? then 1 else 0)
  }

  function Stored(ops: seq<Op>, flights: seq<Flight>, t: Token): nat
    requires |ops| == |flights|
  {
    if ops == [] then 0
    else
      var n := |ops| - 1;
      Stored(ops[..n], flights[..n], t) + (if ops[n].Put? && ops[n].token == t && !flights[n].NotStarted? then 1 else 0)
  }

  ghost predicate PopWaiting(s: State, ops: seq<Op>, t: Token) {
    exists i: nat :: WaitingPop(s.flights, ops, t, i)
  }

  predicate WaitingPop(flights: seq<Flight>, ops: seq<Op>, t: Token, i: nat) {
    |flights| == |ops| &&
    i < |ops| && ops[i] == Pop(t) && flights[i].InRedis? && !flights[i].executed
  }

  /** The one dangerous moment: a store that has reached Redis raises and so leaves a second copy in
      memory, after a pop took the first copy or while one waits for it. */
  ghost predicate LeavesSecondCopy(s: State, ops: seq<Op>, step: Step, t: Token) {
    |s.flights| == |ops| &&
    step.Raise? && Unreturned(s.flights, ops, t, step.i) && t !in s.store.memory &&
    (step.i in s.taken || (t in s.store.redis && PopWaiting(s, ops, t)))
  }

  // ---- The accounting ------------------------------------------------------------------------------

  /** What an operation adds to the account of a token: a redemption, made or already captured,
      counts one; a store pays one once it is finished or its copy was taken. */
  function Weight(op: Op, f: Flight, isTaken: bool, t: Token): int {
    if op == Pop(t) then
      (if (f.Finished? && f.result.Some?) || (f.InRedis? && f.got.Some?) then 1 else 0)
    else if op.Put? && op.token == t then (if f.Finished? || isTaken then -1 else 0)
    else 0
  }

  function Account(ops: seq<Op>, flights: seq<Flight>, taken: set<nat>, t: Token): int
    requires |ops| == |flights|
  {
    if ops == [] then 0
    else var n := |ops| - 1; Account(ops[..n], flights[..n], taken, t) + Weight(ops[n], flights[n], n in taken, t)
  }

  lemma {:induction false} AccountUpdate(ops: seq<Op>, flights: seq<Flight>, taken: set<nat>, t: Token, i: nat, f: Flight)
    requires |ops| == |flights| && i < |ops|
    ensures Account(ops, flights[i := f], taken, t) ==
            Account(ops, flights, taken, t) - Weight(ops[i], flights[i], i in taken, t) + Weight(ops[i], f, i in taken, t)
  {
    var n := |ops| - 1;
    if i < n {
      AccountUpdate(ops[..n], flights[..n], taken, t, i, f);
      assert flights[i := f][..n] == flights[..n][i := f];
    } else {
      assert flights[i := f][..n] == flights[..n];
    }
  }

  /** Every store whose copy is now taken pays, and at least one does. */
  lemma {:induction false} AccountTaken(ops: seq<Op>, flights: seq<Flight>, taken: set<nat>, more: set<nat>, t: Token, j: nat)
    requires |ops| == |flights|
    ensures Account(ops, flights, taken + more, t) <= Account(ops, flights, taken, t)
    ensures Unreturned(flights, ops, t, j) && j in more && j !in taken ==>
              Account(ops, flights, taken + more, t) <= Account(ops, flights, taken, t) - 1
  {
    if ops != [] {
      AccountTaken(ops[..|ops| - 1], flights[..|ops| - 1], taken, more, t, j);
    }
  }

  lemma {:induction false} AccountBoundsRedemptions(ops: seq<Op>, flights: seq<Flight>, taken: set<nat>, t: Token)
    requires |ops| == |flights| && forall j: nat | j < |ops| && j in taken :: !flights[j].NotStarted?
    ensures Redeemed(ops, flights, t) - Stored(ops, flights, t) <= Account(ops, flights, taken, t)
  {
    if ops != [] { AccountBoundsRedemptions(ops[..|ops| - 1], flights[..|ops| - 1], taken, t); }
  }

  lemma {:induction false} AccountStartsAtZero(ops: seq<Op>, flights: seq<Flight>, t: Token)
    requires |ops| == |flights| && forall i | 0 <= i < |ops| :: flights[i] == NotStarted
    ensures Account(ops, flights, {}, t) == 0
  {
    if ops != [] { AccountStartsAtZero(ops[..|ops| - 1], flights[..|ops| - 1], t); }
  }

  /** Some store's copy is in Redis, as far as the pops are concerned, before the store has paid. */
  ghost predicate Unpaid(s: State, ops: seq<Op>, t: Token) {
    exists j: nat :: Unreturned(s.flights, ops, t, j) && j !in s.taken
  }

  /** A copy in Redis that was paid for and some pop can still reach. */
  ghost function RedisCopy(s: State, ops: seq<Op>, t: Token): int {
    if t in s.store.redis && !Unpaid(s, ops, t) && (s.store.redisOk || PopWaiting(s, ops, t)) then 1 else 0
  }

  ghost function MemoryCopy(s: State, t: Token): int {
    if t in s.store.memory then 1 else 0
  }

  /** The redemptions and the copies still to be redeemed are covered by the stores, but for `extra`. */
  ghost predicate Inv(s: State, ops: seq<Op>, t: Token, extra: nat) {
    |s.flights| == |ops| &&
    Account(ops, s.flights, s.taken, t) + RedisCopy(s, ops, t) + MemoryCopy(s, t) <= extra &&
    (s.store.redisOk ==> s.store.memory == map[]) &&
    (forall j: nat | j < |ops| && j in s.taken :: s.flights[j].Finished? || (s.flights[j].InRedis? && s.flights[j].executed)) &&
    forall i | 0 <= i < |ops| && s.flights[i].InRedis? && !s.flights[i].executed :: s.flights[i].got == None
  }

  /** Replacing one flight, when that makes no copy newly reachable beyond the `more` allowed. */
  lemma FlightStep(s: State, ops: seq<Op>, t: Token, i: nat, s': State, extra: nat, more: nat)
    requires Inv(s, ops, t, extra) && i < |ops| == |s'.flights|
    requires s'.flights == s.flights[i := s'.flights[i]] && s'.taken == s.taken
    requires Weight(ops[i], s'.flights[i], i in s.taken, t) + RedisCopy(s', ops, t) + MemoryCopy(s', t) <=
             Weight(ops[i], s.flights[i], i in s.taken, t) + RedisCopy(s, ops, t) + MemoryCopy(s, t) + more
    requires s'.store.redisOk ==> s'.store.memory == map[]
    requires i in s.taken ==> s'.flights[i].Finished?
    requires s'.flights[i].InRedis? && !s'.flights[i].executed ==> s'.flights[i].got == None
    ensures Inv(s', ops, t, extra + more)
  {
    AccountUpdate(ops, s.flights, s.taken, t, i, s'.flights[i]);
  }

  /** Which pops wait after one flight is replaced. */
  lemma WaitingAfter(s: State, ops: seq<Op>, t: Token, i: nat, s': State)
    requires |s.flights| == |s'.flights| == |ops| && i < |ops| && s'.flights == s.flights[i := s'.flights[i]]
    requires WaitingPop(s'.flights, ops, t, i) ==> WaitingPop(s.flights, ops, t, i)
    ensures PopWaiting(s', ops, t) ==> PopWaiting(s, ops, t)
  {
    if PopWaiting(s', ops, t) {
      var k: nat :| WaitingPop(s'.flights, ops, t, k);
      assert WaitingPop(s.flights, ops, t, k);
    }
  }

  /** Which stores are unpaid after one flight is replaced. */
  lemma UnpaidAfter(s: State, ops: seq<Op>, t: Token, i: nat, s': State)
    requires |s.flights| == |s'.flights| == |ops| && i < |ops| && s'.flights == s.flights[i := s'.flights[i]] && s'.taken == s.taken
    requires Unreturned(s.flights, ops, t, i) && i !in s.taken ==> Unreturned(s'.flights, ops, t, i)
    ensures Unpaid(s, ops, t) ==> Unpaid(s', ops, t)
  {
    if Unpaid(s, ops, t) {
      var j: nat :| Unreturned(s.flights, ops, t, j) && j !in s.taken;
      assert Unreturned(s'.flights, ops, t, j);
    }
  }

  lemma BeginInv(asText: User -> User, s: State, ops: seq<Op>, t: Token, i: nat, extra: nat)
    requires Inv(s, ops, t, extra) && Enabled(s, ops, Begin(i))
    ensures Inv(Apply(asText, s, ops, Begin(i)), ops, t, extra)
  {
    var s' := Apply(asText, s, ops, Begin(i));
    UnpaidAfter(s, ops, t, i, s');
    if !s.store.redisOk {
      WaitingAfter(s, ops, t, i, s');
    }
    FlightStep(s, ops, t, i, s', extra, 0);
  }

  /** A pop takes the copy: the stores that put it there pay if they have not, else the copy was paid for. */
  lemma ExecutePopInv(asText: User -> User, s: State, ops: seq<Op>, t: Token, i: nat, extra: nat)
    requires Inv(s, ops, t, extra) && Enabled(s, ops, Execute(i)) && ops[i] == Pop(t) && t in s.store.redis
    ensures Inv(Apply(asText, s, ops, Execute(i)), ops, t, extra)
  {
    var s' := Apply(asText, s, ops, Execute(i));
    var more := UnreturnedStores(s.flights, ops, t);
    assert WaitingPop(s.flights, ops, t, i);
    AccountUpdate(ops, s.flights, s.taken, t, i, s'.flights[i]);
    if Unpaid(s, ops, t) {
      var j: nat :| Unreturned(s.flights, ops, t, j) && j !in s.taken;
      assert Unreturned(s'.flights, ops, t, j) && j in more;
      AccountTaken(ops, s'.flights, s.taken, more, t, j);
    } else {
      AccountTaken(ops, s'.flights, s.taken, more, t, i);
    }
  }

  lemma ExecuteInv(asText: User -> User, s: State, ops: seq<Op>, t: Token, i: nat, extra: nat)
    requires Inv(s, ops, t, extra) && Enabled(s, ops, Execute(i))
    ensures Inv(Apply(asText, s, ops, Execute(i)), ops, t, extra)
  {
    var s' := Apply(asText, s, ops, Execute(i));
    WaitingAfter(s, ops, t, i, s');
    if ops[i] == Pop(t) && t in s.store.redis {
      ExecutePopInv(asText, s, ops, t, i, extra);
    } else if ops[i].Pop? && ops[i].token in s.store.redis {
      OtherTokenTaken(asText, s, ops, t, i, extra);
    } else {
      UnpaidAfter(s, ops, t, i, s');
      if ops[i].Put? && ops[i].token == t {
        assert Unreturned(s'.flights, ops, t, i) && Unpaid(s', ops, t);
      }
      FlightStep(s, ops, t, i, s', extra, 0);
    }
  }

  /** Taking another token changes nothing for this one. */
  lemma OtherTokenTaken(asText: User -> User, s: State, ops: seq<Op>, t: Token, i: nat, extra: nat)
    requires Inv(s, ops, t, extra) && Enabled(s, ops, Execute(i)) && ops[i].Pop? && ops[i].token != t && ops[i].token in s.store.redis
    ensures Inv(Apply(asText, s, ops, Execute(i)), ops, t, extra)
  {
    var s' := Apply(asText, s, ops, Execute(i));
    var s1 := s'.(taken := s.taken);
    var more := UnreturnedStores(s.flights, ops, ops[i].token);
    WaitingAfter(s, ops, t, i, s1);
    UnpaidAfter(s, ops, t, i, s1);
    FlightStep(s, ops, t, i, s1, extra, 0);
    AccountTaken(ops, s'.flights, s.taken, more, t, i);
    if Unpaid(s1, ops, t) {
      var j: nat :| Unreturned(s1.flights, ops, t, j) && j !in s.taken;
      assert Unreturned(s'.flights, ops, t, j) && j !in s'.taken;
    }
  }

  lemma ReturnInv(asText: User -> User, s: State, ops: seq<Op>, t: Token, i: nat, extra: nat)
    requires Inv(s, ops, t, extra) && Enabled(s, ops, Return(i))
    ensures Inv(Apply(asText, s, ops, Return(i)), ops, t, extra)
  {
    var s' := Apply(asText, s, ops, Return(i));
    WaitingAfter(s, ops, t, i, s');
    if Unreturned(s.flights, ops, t, i) && i !in s.taken {
      assert Unpaid(s, ops, t);
    } else {
      UnpaidAfter(s, ops, t, i, s');
    }
    FlightStep(s, ops, t, i, s', extra, 0);
  }

  lemma RaiseInv(asText: User -> User, s: State, ops: seq<Op>, t: Token, i: nat, extra: nat)
    requires Inv(s, ops, t, extra) && Enabled(s, ops, Raise(i))
    ensures Inv(Apply(asText, s, ops, Raise(i)), ops, t, extra + if LeavesSecondCopy(s, ops, Raise(i), t) then 1 else 0)
  {
    var s' := Apply(asText, s, ops, Raise(i));
    WaitingAfter(s, ops, t, i, s');
    if Unreturned(s.flights, ops, t, i) && i !in s.taken {
      assert Unpaid(s, ops, t);
    } else {
      UnpaidAfter(s, ops, t, i, s');
    }
    FlightStep(s, ops, t, i, s', extra, if LeavesSecondCopy(s, ops, Raise(i), t) then 1 else 0);
  }

  lemma ExpireInv(asText: User -> User, s: State, ops: seq<Op>, t: Token, x: Token, extra: nat)
    requires Inv(s, ops, t, extra)
    ensures Enabled(s, ops, Expire(x)) && Inv(Apply(asText, s, ops, Expire(x)), ops, t, extra)
  {
    var s' := Apply(asText, s, ops, Expire(x));
    assert PopWaiting(s', ops, t) <==> PopWaiting(s, ops, t);
    assert Unpaid(s', ops, t) <==> Unpaid(s, ops, t);
  }

  lemma StepInv(asText: User -> User, s: State, ops: seq<Op>, t: Token, step: Step, extra: nat)
    requires Inv(s, ops, t, extra) && Enabled(s, ops, step)
    ensures Inv(Apply(asText, s, ops, step), ops, t, extra + if LeavesSecondCopy(s, ops, step, t) then 1 else 0)
  {
    match step
    case Begin(i) => BeginInv(asText, s, ops, t, i, extra);
    case Execute(i) => ExecuteInv(asText, s, ops, t, i, extra);
    case Return(i) => ReturnInv(asText, s, ops, t, i, extra);
    case Raise(i) => RaiseInv(asText, s, ops, t, i, extra);
    case Expire(x) => ExpireInv(asText, s, ops, t, x, extra);
  }

  /** How many of the first `n` steps left a second copy of the token. */
  ghost function SecondCopies(ops: seq<Op>, steps: seq<Step>, run: seq<State>, t: Token, n: nat): nat
    requires n <= |steps| && n <= |run|
  {
    if n == 0 then 0
    else SecondCopies(ops, steps, run, t, n - 1) + (if LeavesSecondCopy(run[n - 1], ops, steps[n - 1], t) then 1 else 0)
  }

  lemma {:induction false} RunInv(asText: User -> User, ops: seq<Op>, steps: seq<Step>, run: seq<State>, t: Token, i: nat)
    requires IsRun(asText, ops, steps, run) && i < |run|
    ensures Inv(run[i], ops, t, SecondCopies(ops, steps, run, t, i))
  {
    if i == 0 {
      AccountStartsAtZero(ops, run[0].flights, t);
    } else {
      RunInv(asText, ops, steps, run, t, i - 1);
      StepInv(asText, run[i - 1], ops, t, steps[i - 1], SecondCopies(ops, steps, run, t, i - 1));
    }
  }

  /** Use through failover: with operations overlapping freely, Redis raising before or after its
      effect at any of them and keys expiring at will, a token is redeemed at most as often as it was
      stored, plus once for every second copy that a raising store left. */
  lemma RedeemedAtMostAsStored(asText: User -> User, ops: seq<Op>, steps: seq<Step>, run: seq<State>, t: Token, i: nat)
    requires IsRun(asText, ops, steps, run) && i < |run|
    ensures |run[i].flights| == |ops|
    ensures Redeemed(ops, run[i].flights, t) <= Stored(ops, run[i].flights, t) + SecondCopies(ops, steps, run, t, i)
  {
    RunInv(asText, ops, steps, run, t, i);
    AccountBoundsRedemptions(ops, run[i].flights, run[i].taken, t);
  }

  /** So use is single as long as no store leaves a second copy. */
  lemma {:induction false} NoSecondCopies(ops: seq<Op>, steps: seq<Step>, run: seq<State>, t: Token, n: nat)
    requires n <= |steps| && n <= |run| && forall j | 0 <= j < n :: !LeavesSecondCopy(run[j], ops, steps[j], t)
    ensures SecondCopies(ops, steps, run, t, n) == 0
  {
    if n > 0 { NoSecondCopies(ops, steps, run, t, n - 1); }
  }

  /** A run continues with any enabled step. */
  lemma ExtendRun(asText: User -> User, ops: seq<Op>, steps: seq<Step>, run: seq<State>, step: Step) returns (steps': seq<Step>, run': seq<State>)
    requires IsRun(asText, ops, steps, run) && Enabled(run[|steps|], ops, step)
    ensures IsRun(asText, ops, steps', run') && run' == run + [Apply(asText, run[|steps|], ops, step)]
    ensures run'[|steps'|] == Apply(asText, run[|steps|], ops, step)
  {
    steps', run' := steps + [step], run + [Apply(asText, run[|steps|], ops, step)];
  }

  lemma StoreAndPopStart(asText: User -> User, ops: seq<Op>) returns (steps: seq<Step>, run: seq<State>)
    requires ops == [Put("t", "u"), Pop("t"), Pop("t")]
    ensures IsRun(asText, ops, steps, run)
    ensures run[|steps|] == State(Store(map[], map[], true), [InRedis(false, None), InRedis(false, None), NotStarted], {}, {})
  {
    var none: Flight := NotStarted;
    steps, run := [], [State(Store(map[], map[], true), [none, none, none], {}, {})];
    steps, run := ExtendRun(asText, ops, steps, run, Begin(0));
    steps, run := ExtendRun(asText, ops, steps, run, Begin(1));
  }

  /** A store that reaches Redis and then raises, while a pop of the same token waits. */
  lemma StoreRaisesUnderPop(asText: User -> User, ops: seq<Op>) returns (steps: seq<Step>, run: seq<State>)
    requires ops == [Put("t", "u"), Pop("t"), Pop("t")]
    ensures IsRun(asText, ops, steps, run)
    ensures run[|steps|] == State(Store(map["t" := "u"], map["t" := "u"], false), [Finished(None), InRedis(false, None), NotStarted], {}, {})
  {
    steps, run := StoreAndPopStart(asText, ops);
    steps, run := ExtendRun(asText, ops, steps, run, Execute(0));
    assert WaitingPop(run[|steps|].flights, ops, "t", 1) && LeavesSecondCopy(run[|steps|], ops, Raise(0), "t");
    steps, run := ExtendRun(asText, ops, steps, run, Raise(0));
  }

  /** The waiting pop takes the copy in Redis. */
  lemma WaitingPopReturns(asText: User -> User, ops: seq<Op>) returns (steps: seq<Step>, run: seq<State>)
    requires ops == [Put("t", "u"), Pop("t"), Pop("t")]
    ensures IsRun(asText, ops, steps, run)
    ensures run[|steps|] ==
            State(Store(map[], map["t" := "u"], false), [Finished(None), Finished(Some(asText("u"))), NotStarted], {}, {1})
  {
    steps, run := StoreRaisesUnderPop(asText, ops);
    NobodyUnreturned(run[|steps|], ops);
    steps, run := ExtendRun(asText, ops, steps, run, Execute(1));
    assert run[|steps|] ==
           State(Store(map[], map["t" := "u"], false), [Finished(None), InRedis(true, Some("u")), NotStarted], {}, {});
    steps, run := ExtendRun(asText, ops, steps, run, Return(1));
  }

  lemma NobodyUnreturned(s: State, ops: seq<Op>)
    requires |s.flights| == |ops| && forall j | 0 <= j < |ops| && ops[j].Put? :: !s.flights[j].InRedis?
    ensures forall t :: UnreturnedStores(s.flights, ops, t) == {}
  {
  }

  /** The bound is reached: such a store leaves two copies; the waiting pop still takes the one in
      Redis, and a later pop takes the one in memory. */
  lemma OverlapRedeemsTwice(asText: User -> User) returns (ops: seq<Op>, steps: seq<Step>, run: seq<State>)
    ensures IsRun(asText, ops, steps, run)
    ensures var last := run[|steps|];
            |last.flights| == |ops| && Redeemed(ops, last.flights, "t") == 2 && Stored(ops, last.flights, "t") == 1
  {
    ops := [Put("t", "u"), Pop("t"), Pop("t")];
    steps, run := WaitingPopReturns(asText, ops);
    steps, run := ExtendRun(asText, ops, steps, run, Begin(2));
    CountsOfThree(run[|steps|].flights);
  }

  lemma {:induction false} CountsOfThree(f: seq<Flight>)
    requires |f| == 3 && f[0] == Finished(None) && f[1].Finished? && f[1].result.Some? && f[2].Finished? && f[2].result.Some?
    ensures Redeemed([Put("t", "u"), Pop("t"), Pop("t")], f, "t") == 2 && Stored([Put("t", "u"), Pop("t"), Pop("t")], f, "t") == 1
  {
    var ops: seq<Op> := [Put("t", "u"), Pop("t"), Pop("t")];
    CountLast(ops, f, "t");
    CountLast(ops[..2], f[..2], "t");
    CountLast(ops[..1], f[..1], "t");
    assert ops[..2][..1] == ops[..1] && f[..2][..1] == f[..1] && ops[..1][..0] == [] && f[..1][..0] == [];
  }

  lemma CountLast(ops: seq<Op>, flights: seq<Flight>, t: Token)
    requires |ops| == |flights| && ops != []
    ensures var n := |ops| - 1;
            Redeemed(ops, flights, t) == Redeemed(ops[..n], flights[..n], t) +
              (if ops[n] == Pop(t) && flights[n].Finished? && flights[n].result.Some? then 1 else 0) &&
            Stored(ops, flights, t) == Stored(ops[..n], flights[..n], t) +
              (if ops[n].Put? && ops[n].token == t && !flights[n].NotStarted? then 1 else 0)
  {
  }

  // ---- Trust and integrity -----------------------------------------------------------------------------

  /** Redis is trusted only while nothing is kept in memory, and is never trusted again. */
  lemma {:induction false} TrustIsOneWay(asText: User -> User, ops: seq<Op>, steps: seq<Step>, run: seq<State>, i: nat, j: nat)
    requires IsRun(asText, ops, steps, run) && i <= j < |run|
    ensures run[j].store.redisOk ==> run[i].store.redisOk && run[j].store.memory == map[]
    decreases j
  {
    if j > 0 {
      TrustIsOneWay(asText, ops, steps, run, if i < j then i else j - 1, j - 1);
      assert run[j] == Apply(asText, run[j - 1], ops, steps[j - 1]);
    }
  }

  /** A user stored for a token by some operation of the process. */
  ghost predicate IsStored(ops: seq<Op>, t: Token, u: User) {
    Put(t, u) in ops
  }

  /** Every stored user in Redis and in memory was put there for that token. */
  ghost predicate GenuineStore(s: Store, ops: seq<Op>) {
    (forall t | t in s.redis :: IsStored(ops, t, s.redis[t])) && (forall t | t in s.memory :: IsStored(ops, t, s.memory[t]))
  }

  /** What an operation may answer: a stored user, or the text of one if Redis answered a pop. */
  ghost predicate GivesOut(asText: User -> User, ops: seq<Op>, t: Token, fromRedis: bool, u: User) {
    if fromRedis then exists v: User :: IsStored(ops, t, v) && u == asText(v) else IsStored(ops, t, u)
  }

  ghost predicate FlightGenuine(asText: User -> User, ops: seq<Op>, i: nat, f: Flight, fromRedis: bool)
    requires i < |ops|
  {
    (f.InRedis? && f.got.Some? ==> IsStored(ops, ops[i].token, f.got.value)) &&
    (f.Finished? && f.result.Some? ==> GivesOut(asText, ops, ops[i].token, fromRedis, f.result.value)) &&
    (fromRedis ==> f.Finished? && f.result.Some? && ops[i].Pop?)
  }

  ghost predicate Genuine(asText: User -> User, s: State, ops: seq<Op>) {
    |s.flights| == |ops| && GenuineStore(s.store, ops) &&
    forall i: nat | i < |ops| :: FlightGenuine(asText, ops, i, s.flights[i], i in s.answered)
  }

  lemma EffectGenuine(s: Store, ops: seq<Op>, op: Op)
    requires GenuineStore(s, ops) && op in ops
    ensures GenuineStore(Effect(s, op).0, ops)
    ensures Effect(s, op).1.Some? ==> IsStored(ops, op.token, Effect(s, op).1.value)
  {
  }

  lemma FallbackGenuine(s: Store, ops: seq<Op>, op: Op)
    requires GenuineStore(s, ops) && op in ops
    ensures GenuineStore(Fallback(s, op).0, ops)
    ensures Fallback(s, op).1.Some? ==> IsStored(ops, op.token, Fallback(s, op).1.value)
  {
  }

  lemma SuccessGenuine(asText: User -> User, s: Store, ops: seq<Op>, op: Op, got: Option<User>)
    requires GenuineStore(s, ops) && op in ops && (got.Some? ==> IsStored(ops, op.token, got.value))
    ensures var (st, r) := Success(asText, s, op, got);
            GenuineStore(st, ops) && (r.Some? ==> GivesOut(asText, ops, op.token, op.Pop? && got.Some?, r.value))
  {
  }

  lemma StepGenuine(asText: User -> User, s: State, ops: seq<Op>, step: Step)
    requires Genuine(asText, s, ops) && Enabled(s, ops, step)
    ensures Genuine(asText, Apply(asText, s, ops, step), ops)
  {
    if !step.Expire? {
      var i, s' := step.i, Apply(asText, s, ops, step);
      assert FlightGenuine(asText, ops, i, s.flights[i], i in s.answered);
      match step {
        case Begin(_) => FallbackGenuine(s.store, ops, ops[i]);
        case Execute(_) => EffectGenuine(s.store, ops, ops[i]);
        case Return(_) => SuccessGenuine(asText, s.store, ops, ops[i], s.flights[i].got);
        case Raise(_) => FallbackGenuine(s.store.(redisOk := false), ops, ops[i]);
      }
      assert FlightGenuine(asText, ops, i, s'.flights[i], i in s'.answered);
      forall j: nat | j < |ops| ensures FlightGenuine(asText, ops, j, s'.flights[j], j in s'.answered) {
        assert j != i ==> FlightGenuine(asText, ops, j, s.flights[j], j in s.answered);
      }
    }
  }

  /** A redeemed token yields a user it was stored for, or that user's text if Redis answered the pop. */
  lemma {:induction false} RedemptionsAreGenuine(asText: User -> User, ops: seq<Op>, steps: seq<Step>, run: seq<State>, i: nat)
    requires IsRun(asText, ops, steps, run) && i < |run|
    ensures Genuine(asText, run[i], ops)
  {
    if i > 0 {
      RedemptionsAreGenuine(asText, ops, steps, run, i - 1);
      StepGenuine(asText, run[i - 1], ops, steps[i - 1]);
    }
  }

  /** With a client that decodes replies, every operation answers only users stored for its token. */
  lemma DecodedAnswersAreStored(asText: User -> User, ops: seq<Op>, steps: seq<Step>, run: seq<State>, i: nat, k: nat)
    requires IsRun(asText, ops, steps, run) && i < |run| && k < |ops| && forall u :: asText(u) == u
    ensures |run[i].flights| == |ops|
    ensures run[i].flights[k].Finished? && run[i].flights[k].result.Some? ==>
              IsStored(ops, ops[k].token, run[i].flights[k].result.value)
  {
    RedemptionsAreGenuine(asText, ops, steps, run, i);
    assert FlightGenuine(asText, ops, k, run[i].flights[k], k in run[i].answered);
  }

  // ---- Uninterrupted operations are the special case -----------------------------------------------------

  /** An operation run alone is its steps taken in sequence. */
  lemma RunAloneIsSteps(asText: User -> User, s: State, ops: seq<Op>, i: nat, fault: Fault) returns (steps: seq<Step>, run: seq<State>)
    requires |s.flights| == |ops| && i < |ops| && s.flights[i].NotStarted?
    ensures |run| == |steps| + 1 && run[0] == s
    ensures forall j | 0 <= j < |steps| :: Enabled(run[j], ops, steps[j]) && run[j + 1] == Apply(asText, run[j], ops, steps[j])
    ensures var (st, r) := RunAlone(asText, s.store, ops[i], fault);
            run[|steps|].store == st && run[|steps|].flights == s.flights[i := Finished(r)]
  {
    var s1 := Apply(asText, s, ops, Begin(i));
    if !s.store.redisOk {
      return [Begin(i)], [s, s1];
    }
    if fault == RaisesBefore {
      var s2 := Apply(asText, s1, ops, Raise(i));
      assert s2.flights == s.flights[i := s2.flights[i]];
      return [Begin(i), Raise(i)], [s, s1, s2];
    }
    var s2 := Apply(asText, s1, ops, Execute(i));
    if fault == NoFault {
      var s3 := Apply(asText, s2, ops, Return(i));
      assert s3.flights == s.flights[i := s3.flights[i]];
      return [Begin(i), Execute(i), Return(i)], [s, s1, s2, s3];
    }
    var s3 := Apply(asText, s2, ops, Raise(i));
    assert s3.flights == s.flights[i := s3.flights[i]];
    return [Begin(i), Execute(i), Raise(i)], [s, s1, s2, s3];
  }
}
