/** Refresh-token rotation of src/auth/service.py over interleaved requests: the tokens that descend
    from one login, with every store call overlapping and failing over as in TokenStore. */
module Rotation {
  import opened Common
  import opened Tokens = TokenStore

  /** The operation stores a token of the family. */
  predicate PutsInto(op: Op, family: set<Token>) {
    op.Put? && op.token in family
  }

  /** The login stores the first token of the family; after it come the requests, two operations each.
      A request stores a token of the family only as the second half of a refresh, whose first half
      pops one; requests of other kinds, and of other logins, may stand in between. */
  ghost predicate IsSession(ops: seq<Op>, family: set<Token>) {
    |ops| % 2 == 1 && PutsInto(ops[0], family) &&
    forall r: nat | 2 * r + 2 < |ops| ::
      !PutsInto(ops[2 * r + 1], family) &&
      (PutsInto(ops[2 * r + 2], family) ==> ops[2 * r + 1].Pop? && ops[2 * r + 1].token in family)
  }

  /** Every token of the family is issued only once. */
  ghost predicate IssuedOnce(ops: seq<Op>, family: set<Token>) {
    forall j, k | 0 <= j < k < |ops| && PutsInto(ops[j], family) && PutsInto(ops[k], family) :: ops[j].token != ops[k].token
  }

  /** A refresh starts to store its new token only after its pop gave a user, and stores it for that user. */
  ghost predicate StoresAfterPop(ops: seq<Op>, flights: seq<Flight>, family: set<Token>) {
    |flights| == |ops| &&
    forall r: nat | 2 * r + 2 < |ops| && PutsInto(ops[2 * r + 2], family) && !flights[2 * r + 2].NotStarted? ::
      flights[2 * r + 1].Finished? && flights[2 * r + 1].result == Some(ops[2 * r + 2].user)
  }

  /** A client presents a token only after the request that issued it has answered. */
  ghost predicate PresentedAfterIssue(ops: seq<Op>, flights: seq<Flight>, family: set<Token>) {
    |flights| == |ops| &&
    forall j, k | 0 <= j < |ops| && 0 <= k < |ops| && PutsInto(ops[j], family) && ops[k] == Pop(ops[j].token) ::
      !flights[k].NotStarted? ==> flights[j].Finished?
  }

  ghost predicate IsOrderly(ops: seq<Op>, flights: seq<Flight>, family: set<Token>) {
    StoresAfterPop(ops, flights, family) && PresentedAfterIssue(ops, flights, family)
  }

  ghost predicate Orderly(ops: seq<Op>, run: seq<State>, family: set<Token>) {
    forall i | 0 <= i < |run| :: IsOrderly(ops, run[i].flights, family)
  }

  /** The requests of one login's session, interleaved with anything else. */
  ghost predicate IsSessionRun(asText: User -> User, ops: seq<Op>, steps: seq<Step>, run: seq<State>, family: set<Token>) {
    IsRun(asText, ops, steps, run) && IsSession(ops, family) && IssuedOnce(ops, family) && Orderly(ops, run, family)
  }

  // ---- Single use holds in a session ---------------------------------------------------------

  ghost predicate NoneTaken(s: State, ops: seq<Op>, t: Token) {
    forall j: nat | j < |ops| && ops[j].Put? && ops[j].token == t :: j !in s.taken
  }

  lemma {:induction false} NoCopyIsTaken(asText: User -> User, ops: seq<Op>, steps: seq<Step>, run: seq<State>, family: set<Token>, t: Token, i: nat)
    requires IsSessionRun(asText, ops, steps, run, family) && t in family && i < |run|
    ensures NoneTaken(run[i], ops, t)
  {
    if i > 0 {
      NoCopyIsTaken(asText, ops, steps, run, family, t, i - 1);
      var s := run[i - 1];
      assert Enabled(s, ops, steps[i - 1]) && run[i] == Apply(asText, s, ops, steps[i - 1]);
      if steps[i - 1].Execute? && ops[steps[i - 1].i] == Pop(t) {
        forall j: nat ensures !Unreturned(s.flights, ops, t, j) {
          assert IsOrderly(ops, s.flights, family);
        }
      }
    }
  }

  /** So no store of a session ever leaves a second copy. */
  lemma SessionUsesOnce(asText: User -> User, ops: seq<Op>, steps: seq<Step>, run: seq<State>, family: set<Token>, t: Token, i: nat)
    requires IsSessionRun(asText, ops, steps, run, family) && t in family && i < |run|
    ensures |run[i].flights| == |ops| && Redeemed(ops, run[i].flights, t) <= Stored(ops, run[i].flights, t) <= 1
  {
    forall j | 0 <= j < i ensures |run[j].flights| == |ops| && !LeavesSecondCopy(run[j], ops, steps[j], t) {
      NoCopyIsTaken(asText, ops, steps, run, family, t, j);
      assert IsOrderly(ops, run[j].flights, family);
    }
    NoSecondCopies(ops, steps, run, t, i);
    RedeemedAtMostAsStored(asText, ops, steps, run, t, i);
    StoredOnce(ops, run[i].flights, family, t);
  }

  lemma {:induction false} StoredOnce(ops: seq<Op>, flights: seq<Flight>, family: set<Token>, t: Token)
    requires |ops| == |flights| && IssuedOnce(ops, family) && t in family
    ensures Stored(ops, flights, t) <= 1
    ensures Stored(ops, flights, t) > 0 ==> exists j: nat :: Issues(ops, flights, family, t, j)
  {
    if ops != [] {
      var n := |ops| - 1;
      StoredOnce(ops[..n], flights[..n], family, t);
      if Stored(ops[..n], flights[..n], t) > 0 {
        var j: nat :| Issues(ops[..n], flights[..n], family, t, j);
        assert Issues(ops, flights, family, t, j);
      } else if Stored(ops, flights, t) > 0 {
        assert Issues(ops, flights, family, t, n);
      }
    }
  }

  predicate Succeeds(ops: seq<Op>, flights: seq<Flight>, t: Token, k: nat) {
    |ops| == |flights| &&
    k < |ops| && ops[k] == Pop(t) && flights[k].Finished? && flights[k].result.Some?
  }

  lemma {:induction false} RedemptionsCount(ops: seq<Op>, flights: seq<Flight>, t: Token, j: nat, k: nat)
    requires |ops| == |flights| && Succeeds(ops, flights, t, k)
    ensures Redeemed(ops, flights, t) >= 1
    ensures j < k && Succeeds(ops, flights, t, j) ==> Redeemed(ops, flights, t) >= 2
  {
    var n := |ops| - 1;
    if k < n {
      RedemptionsCount(ops[..n], flights[..n], t, j, k);
    } else if j < k && Succeeds(ops, flights, t, j) {
      RedemptionsCount(ops[..n], flights[..n], t, j, j);
    }
  }

  // ---- At most one live token ------------------------------------------------------------------

  /** Refresh `r` has started to store its new token. */
  predicate Mints(ops: seq<Op>, flights: seq<Flight>, family: set<Token>, r: nat) {
    |ops| == |flights| &&
    2 * r + 2 < |ops| && PutsInto(ops[2 * r + 2], family) && !flights[2 * r + 2].NotStarted?
  }

  /** The family's tokens issued so far, by the login and the first `n` requests. */
  ghost function Issued(ops: seq<Op>, flights: seq<Flight>, family: set<Token>, n: nat): set<Token>
    requires |ops| == |flights| && 2 * n < |ops|
  {
    if n == 0 then (if flights[0].NotStarted? then {} else {ops[0].token})
    else if Mints(ops, flights, family, n - 1) then Issued(ops, flights, family, n - 1) + {ops[2 * n].token}
    else Issued(ops, flights, family, n - 1)
  }

  /** The tokens that those of the first `n` requests which minted a new one were given. */
  ghost function Replaced(ops: seq<Op>, flights: seq<Flight>, family: set<Token>, n: nat): set<Token>
    requires |ops| == |flights| && 2 * n < |ops|
  {
    if n == 0 then {}
    else if Mints(ops, flights, family, n - 1) then Replaced(ops, flights, family, n - 1) + {ops[2 * n - 1].token}
    else Replaced(ops, flights, family, n - 1)
  }

  lemma {:induction false} ReplacedWereRedeemed(ops: seq<Op>, flights: seq<Flight>, family: set<Token>, n: nat, t: Token)
    returns (r: nat)
    requires |ops| == |flights| && 2 * n < |ops| && IsSession(ops, family) && StoresAfterPop(ops, flights, family)
    requires t in Replaced(ops, flights, family, n)
    ensures r < n && t in family && Succeeds(ops, flights, t, 2 * r + 1)
  {
    if Mints(ops, flights, family, n - 1) && ops[2 * n - 1].token == t {
      r := n - 1;
      assert PutsInto(ops[2 * r + 2], family);
    } else {
      r := ReplacedWereRedeemed(ops, flights, family, n - 1, t);
    }
  }

  /** A refresh replaces a token that none before it replaced. */
  lemma NewlyReplaced(ops: seq<Op>, flights: seq<Flight>, family: set<Token>, n: nat)
    requires |ops| == |flights| && 2 * n + 2 < |ops| && IsSession(ops, family) && StoresAfterPop(ops, flights, family)
    requires forall t | t in family :: Redeemed(ops, flights, t) <= 1
    requires Mints(ops, flights, family, n)
    ensures ops[2 * n + 1].token !in Replaced(ops, flights, family, n)
  {
    var t := ops[2 * n + 1].token;
    assert PutsInto(ops[2 * n + 2], family) && t in family && Succeeds(ops, flights, t, 2 * n + 1);
    if t in Replaced(ops, flights, family, n) {
      var r := ReplacedWereRedeemed(ops, flights, family, n, t);
      RedemptionsCount(ops, flights, t, 2 * r + 1, 2 * n + 1);
    }
  }

  /** Every new token replaces another one. */
  lemma {:induction false} OneIssuePerReplacement(ops: seq<Op>, flights: seq<Flight>, family: set<Token>, n: nat)
    requires |ops| == |flights| && 2 * n < |ops| && IsSession(ops, family) && StoresAfterPop(ops, flights, family)
    requires forall t | t in family :: Redeemed(ops, flights, t) <= 1
    ensures |Issued(ops, flights, family, n)| <= 1 + |Replaced(ops, flights, family, n)|
  {
    if n > 0 {
      OneIssuePerReplacement(ops, flights, family, n - 1);
      if Mints(ops, flights, family, n - 1) {
        NewlyReplaced(ops, flights, family, n - 1);
      }
    }
  }

  lemma {:induction false} IssuedContains(ops: seq<Op>, flights: seq<Flight>, family: set<Token>, n: nat, r: nat)
    requires |ops| == |flights| && 2 * n < |ops| && r <= n
    requires PutsInto(ops[2 * r], family) && !flights[2 * r].NotStarted?
    ensures ops[2 * r].token in Issued(ops, flights, family, n)
  {
    if r < n {
      IssuedContains(ops, flights, family, n - 1, r);
    } else if n > 0 {
      assert Mints(ops, flights, family, n - 1);
    }
  }

  /** The operation has begun to issue the token. */
  predicate Issues(ops: seq<Op>, flights: seq<Flight>, family: set<Token>, t: Token, j: nat) {
    |ops| == |flights| &&
    j < |ops| && PutsInto(ops[j], family) && ops[j].token == t && !flights[j].NotStarted?
  }

  lemma IssuesIsIssued(ops: seq<Op>, flights: seq<Flight>, family: set<Token>, t: Token, j: nat)
    requires |ops| == |flights| && IsSession(ops, family) && Issues(ops, flights, family, t, j)
    ensures t in Issued(ops, flights, family, |ops| / 2)
  {
    EvenStore(ops, family, j);
    var r := j / 2;
    assert j == 2 * r;
    IssuedContains(ops, flights, family, |ops| / 2, r);
  }

  /** The tokens of the family that were issued and not redeemed. */
  ghost function Live(ops: seq<Op>, flights: seq<Flight>, family: set<Token>): set<Token>
    requires |ops| == |flights|
  {
    set t | t in family && Redeemed(ops, flights, t) == 0 && exists j: nat :: Issues(ops, flights, family, t, j)
  }

  lemma LiveIsNotReplaced(ops: seq<Op>, flights: seq<Flight>, family: set<Token>)
    requires |ops| == |flights| && IsSession(ops, family) && StoresAfterPop(ops, flights, family)
    ensures Live(ops, flights, family) <= Issued(ops, flights, family, |ops| / 2) - Replaced(ops, flights, family, |ops| / 2)
  {
    forall t | t in Live(ops, flights, family)
      ensures t in Issued(ops, flights, family, |ops| / 2) && t !in Replaced(ops, flights, family, |ops| / 2)
    {
      var j: nat :| Issues(ops, flights, family, t, j);
      IssuesIsIssued(ops, flights, family, t, j);
      if t in Replaced(ops, flights, family, |ops| / 2) {
        var r := ReplacedWereRedeemed(ops, flights, family, |ops| / 2, t);
        RedemptionsCount(ops, flights, t, 0, 2 * r + 1);
      }
    }
  }

  lemma ReplacedIsIssued(ops: seq<Op>, flights: seq<Flight>, family: set<Token>)
    requires |ops| == |flights| && IsSession(ops, family) && StoresAfterPop(ops, flights, family) && IssuedOnce(ops, family)
    requires forall t | t in family :: Redeemed(ops, flights, t) <= Stored(ops, flights, t)
    ensures Replaced(ops, flights, family, |ops| / 2) <= Issued(ops, flights, family, |ops| / 2)
  {
    forall t | t in Replaced(ops, flights, family, |ops| / 2) ensures t in Issued(ops, flights, family, |ops| / 2) {
      var r := ReplacedWereRedeemed(ops, flights, family, |ops| / 2, t);
      RedemptionsCount(ops, flights, t, 0, 2 * r + 1);
      StoredOnce(ops, flights, family, t);
      var j: nat :| Issues(ops, flights, family, t, j);
      IssuesIsIssued(ops, flights, family, t, j);
    }
  }

  /** However the refreshes of a session interleave, with each other and with anything else, and
      however Redis fails under them, at most one token of the session is live. */
  lemma AtMostOneLiveToken(asText: User -> User, ops: seq<Op>, steps: seq<Step>, run: seq<State>, family: set<Token>, i: nat)
    requires IsSessionRun(asText, ops, steps, run, family) && i < |run|
    ensures |run[i].flights| == |ops| && |Live(ops, run[i].flights, family)| <= 1
  {
    var flights := run[i].flights;
    forall t | t in family ensures Redeemed(ops, flights, t) <= Stored(ops, flights, t) <= 1 {
      SessionUsesOnce(asText, ops, steps, run, family, t, i);
    }
    OneIssuePerReplacement(ops, flights, family, |ops| / 2);
    LiveIsNotReplaced(ops, flights, family);
    ReplacedIsIssued(ops, flights, family);
    var issued, replaced := Issued(ops, flights, family, |ops| / 2), Replaced(ops, flights, family, |ops| / 2);
    SubsetSize(Live(ops, flights, family), issued - replaced);
    assert (issued - replaced) + replaced == issued;
  }

  lemma {:induction false} SubsetSize<T>(a: set<T>, b: set<T>)
    requires a <= b
    ensures |a| <= |b|
    decreases b
  {
    if x :| x in b {
      SubsetSize(a - {x}, b - {x});
    }
  }

  // ---- One user ------------------------------------------------------------------------------------

  /** All tokens of the session so far were issued for the user who logged in. */
  ghost predicate OneUser(ops: seq<Op>, flights: seq<Flight>, family: set<Token>)
    requires |flights| == |ops| > 0 && ops[0].Put?
  {
    forall j | 0 <= j < |ops| && PutsInto(ops[j], family) && !flights[j].NotStarted? :: ops[j].user == ops[0].user
  }

  /** They were, and every pop of one that succeeded gave that user. */
  ghost predicate KeepsUser(ops: seq<Op>, flights: seq<Flight>, family: set<Token>)
    requires |flights| == |ops| > 0 && ops[0].Put?
  {
    OneUser(ops, flights, family) &&
    forall k: nat | k < |ops| && ops[k].Pop? && ops[k].token in family && Succeeds(ops, flights, ops[k].token, k) ::
      flights[k].result == Some(ops[0].user)
  }

  /** Replies keep the user's name, or Redis answered no pop of the session. */
  ghost predicate NamesSurvive(asText: User -> User, ops: seq<Op>, answered: set<nat>, family: set<Token>)
    requires ops != [] && ops[0].Put?
  {
    asText(ops[0].user) == ops[0].user ||
    forall k: nat | k < |ops| && ops[k].Pop? && ops[k].token in family :: k !in answered
  }

  /** A redeemed token was stored for no other user than the session's. */
  lemma StoredForTheUser(asText: User -> User, ops: seq<Op>, steps: seq<Step>, run: seq<State>, family: set<Token>, i: nat,
                         k: nat, u: User)
    requires IsSessionRun(asText, ops, steps, run, family) && i < |run| && |run[i].flights| == |ops|
    requires OneUser(ops, run[i].flights, family)
    requires k < |ops| && ops[k].Pop? && ops[k].token in family && Succeeds(ops, run[i].flights, ops[k].token, k)
    requires IsStored(ops, ops[k].token, u)
    ensures u == ops[0].user
  {
    var t := ops[k].token;
    RedemptionsCount(ops, run[i].flights, t, 0, k);
    SessionUsesOnce(asText, ops, steps, run, family, t, i);
    StoredOnce(ops, run[i].flights, family, t);
    var j: nat :| Issues(ops, run[i].flights, family, t, j);
    var m: nat :| m < |ops| && ops[m] == Put(t, u);
    assert PutsInto(ops[m], family) && m == j;
  }

  /** So a pop gives the session's user, or the text of it if Redis answered. */
  lemma RedeemedForTheUser(asText: User -> User, ops: seq<Op>, steps: seq<Step>, run: seq<State>, family: set<Token>, i: nat, k: nat)
    requires IsSessionRun(asText, ops, steps, run, family) && i < |run| && |run[i].flights| == |ops|
    requires OneUser(ops, run[i].flights, family)
    requires k < |ops| && ops[k].Pop? && ops[k].token in family && Succeeds(ops, run[i].flights, ops[k].token, k)
    ensures run[i].flights[k].result == Some(if k in run[i].answered then asText(ops[0].user) else ops[0].user)
  {
    RedemptionsAreGenuine(asText, ops, steps, run, i);
    var f := run[i].flights[k];
    assert FlightGenuine(asText, ops, k, f, k in run[i].answered);
    if k in run[i].answered {
      var v: User :| IsStored(ops, ops[k].token, v) && f.result.value == asText(v);
      StoredForTheUser(asText, ops, steps, run, family, i, k, v);
    } else {
      StoredForTheUser(asText, ops, steps, run, family, i, k, f.result.value);
    }
  }

  /** What a new token of the session is issued for, when the tokens before it were for the user. */
  lemma NextTokenForTheUser(asText: User -> User, ops: seq<Op>, steps: seq<Step>, run: seq<State>, family: set<Token>, i: nat, j: nat)
    requires IsSessionRun(asText, ops, steps, run, family) && i + 1 < |run| && |run[i].flights| == |run[i + 1].flights| == |ops|
    requires OneUser(ops, run[i].flights, family) && NamesSurvive(asText, ops, run[i].answered, family)
    requires j < |ops| && PutsInto(ops[j], family) && run[i].flights[j].NotStarted? && !run[i + 1].flights[j].NotStarted?
    ensures ops[j].user == ops[0].user
  {
    assert Enabled(run[i], ops, steps[i]) && run[i + 1] == Apply(asText, run[i], ops, steps[i]);
    if j > 0 {
      EvenStore(ops, family, j);
      var r := j / 2 - 1;
      assert j == 2 * r + 2 && IsOrderly(ops, run[i + 1].flights, family);
      assert run[i + 1].flights[2 * r + 1] == run[i].flights[2 * r + 1];
      RedeemedForTheUser(asText, ops, steps, run, family, i, 2 * r + 1);
    }
  }

  lemma {:induction false} TokensForOneUser(asText: User -> User, ops: seq<Op>, steps: seq<Step>, run: seq<State>, family: set<Token>, i: nat)
    requires IsSessionRun(asText, ops, steps, run, family) && i < |run| && NamesSurvive(asText, ops, run[i].answered, family)
    ensures |run[i].flights| == |ops| && OneUser(ops, run[i].flights, family)
  {
    assert IsOrderly(ops, run[i].flights, family);
    if i > 0 {
      assert Enabled(run[i - 1], ops, steps[i - 1]) && run[i] == Apply(asText, run[i - 1], ops, steps[i - 1]);
      assert run[i - 1].answered <= run[i].answered;
      TokensForOneUser(asText, ops, steps, run, family, i - 1);
      forall j | 0 <= j < |ops| && PutsInto(ops[j], family) && !run[i].flights[j].NotStarted? ensures ops[j].user == ops[0].user {
        if run[i - 1].flights[j].NotStarted? {
          NextTokenForTheUser(asText, ops, steps, run, family, i - 1, j);
        }
      }
    }
  }

  /** A session stays with the user who logged in if and only if the text of Redis's reply is that
      user's name, or Redis answered none of its pops. A client that decodes replies always does. */
  lemma {:induction false} SessionKeepsUserIff(asText: User -> User, ops: seq<Op>, steps: seq<Step>, run: seq<State>, family: set<Token>, i: nat)
    requires IsSessionRun(asText, ops, steps, run, family) && i < |run|
    ensures |run[i].flights| == |ops|
    ensures KeepsUser(ops, run[i].flights, family) <==> NamesSurvive(asText, ops, run[i].answered, family)
  {
    var s := run[i];
    assert IsOrderly(ops, s.flights, family);
    if NamesSurvive(asText, ops, s.answered, family) {
      TokensForOneUser(asText, ops, steps, run, family, i);
      forall k: nat | k < |ops| && ops[k].Pop? && ops[k].token in family && Succeeds(ops, s.flights, ops[k].token, k)
        ensures s.flights[k].result == Some(ops[0].user)
      {
        RedeemedForTheUser(asText, ops, steps, run, family, i, k);
      }
    } else if KeepsUser(ops, s.flights, family) {
      var k: nat :| k < |ops| && ops[k].Pop? && ops[k].token in family && k in s.answered;
      RedemptionsAreGenuine(asText, ops, steps, run, i);
      assert FlightGenuine(asText, ops, k, s.flights[k], k in s.answered);
      RedeemedForTheUser(asText, ops, steps, run, family, i, k);
    }
  }

  lemma EvenStore(ops: seq<Op>, family: set<Token>, j: nat)
    requires IsSession(ops, family) && j < |ops| && PutsInto(ops[j], family)
    ensures j % 2 == 0
  {
    var r := j / 2;
    assert j == 2 * r + 1 ==> 2 * r + 2 < |ops|;
  }

  // ---- A client that does not decode replies ---------------------------------------------------------

  /** The text of a reply left as bytes, for a plain name. */
  function BytesText(u: User): User {
    "b'" + u + "'"
  }

  lemma BytesTextIsAnother(u: User)
    ensures BytesText(u) != u
  {
    assert |BytesText(u)| == |u| + 3;
  }

  /** A session run continues with any enabled step that leaves it orderly. */
  lemma ExtendSession(asText: User -> User, ops: seq<Op>, steps: seq<Step>, run: seq<State>, family: set<Token>, step: Step)
    returns (steps': seq<Step>, run': seq<State>)
    requires IsSessionRun(asText, ops, steps, run, family) && Enabled(run[|steps|], ops, step)
    requires IsOrderly(ops, Apply(asText, run[|steps|], ops, step).flights, family)
    ensures IsSessionRun(asText, ops, steps', run', family) && run'[|steps'|] == Apply(asText, run[|steps|], ops, step)
  {
    steps', run' := ExtendRun(asText, ops, steps, run, step);
  }

  function LoginAndRefresh(u: User): seq<Op> {
    [Put("a", u), Pop("a"), Put("b", BytesText(u))]
  }

  /** The login's token is stored, in Redis. */
  lemma LoginStores(u: User) returns (steps: seq<Step>, run: seq<State>)
    ensures IsSessionRun(BytesText, LoginAndRefresh(u), steps, run, {"a", "b"})
    ensures run[|steps|] == State(Store(map["a" := u], map[], true), [Finished(None), NotStarted, NotStarted], {}, {})
  {
    var ops := LoginAndRefresh(u);
    var none: Flight := NotStarted;
    assert "a"[0] != "b"[0];
    steps, run := [], [State(Store(map[], map[], true), [none, none, none], {}, {})];
    steps, run := ExtendSession(BytesText, ops, steps, run, {"a", "b"}, Begin(0));
    steps, run := ExtendSession(BytesText, ops, steps, run, {"a", "b"}, Execute(0));
    steps, run := ExtendSession(BytesText, ops, steps, run, {"a", "b"}, Return(0));
  }

  /** Redis answers the refresh's pop. */
  lemma RefreshPops(u: User) returns (steps: seq<Step>, run: seq<State>)
    ensures IsSessionRun(BytesText, LoginAndRefresh(u), steps, run, {"a", "b"})
    ensures run[|steps|] ==
            State(Store(map[], map[], true), [Finished(None), Finished(Some(BytesText(u))), NotStarted], {}, {1})
  {
    var ops := LoginAndRefresh(u);
    steps, run := LoginStores(u);
    steps, run := ExtendSession(BytesText, ops, steps, run, {"a", "b"}, Begin(1));
    NobodyUnreturned(run[|steps|], ops);
    steps, run := ExtendSession(BytesText, ops, steps, run, {"a", "b"}, Execute(1));
    assert run[|steps|] == State(Store(map[], map[], true), [Finished(None), InRedis(true, Some(u)), NotStarted], {}, {});
    steps, run := ExtendSession(BytesText, ops, steps, run, {"a", "b"}, Return(1));
  }

  /** One login and one refresh suffice: the next token is stored for another name than the user's. */
  lemma RefreshRenamesUser(u: User) returns (steps: seq<Step>, run: seq<State>)
    ensures IsSessionRun(BytesText, LoginAndRefresh(u), steps, run, {"a", "b"})
    ensures run[|steps|].store.redis == map["b" := BytesText(u)] && BytesText(u) != u
    ensures |run[|steps|].flights| == 3 && !KeepsUser(LoginAndRefresh(u), run[|steps|].flights, {"a", "b"})
  {
    var ops := LoginAndRefresh(u);
    BytesTextIsAnother(u);
    steps, run := RefreshPops(u);
    steps, run := ExtendSession(BytesText, ops, steps, run, {"a", "b"}, Begin(2));
    steps, run := ExtendSession(BytesText, ops, steps, run, {"a", "b"}, Execute(2));
    assert PutsInto(ops[2], {"a", "b"}) && ops[2].user == BytesText(u);
  }
}
