/** The network resolver as a client of the query budget: `Query` as a retry
    loop over an arbitrary network, and any number of concurrent queries and
    transfers as a state machine with cancellation possible at every step. */
module Network {
  import opened Budget

  // ----- one query -----

  /** What the network and the context do during one attempt: UDP answers, the
      context is found done after a UDP failure, TCP answers. */
  datatype Attempt = Attempt(udpOk: bool, ctxDone: bool, tcpOk: bool)

  datatype Outcome = Refused | Abandoned | Answered | Cancelled | Exhausted

  /** Attempt `i` ends the retry loop. */
  predicate Ends(a: Attempt) {
    a.udpOk || a.ctxDone || a.tcpOk
  }

  /** Messages that attempt puts on the wire. */
  function SendsOf(a: Attempt): nat {
    if a.udpOk || a.ctxDone then 1 else 2
  }

  function EndOutcome(a: Attempt): Outcome
    requires Ends(a)
  {
    if a.udpOk then Answered else if a.ctxDone then Cancelled else Answered
  }

  /** Attempt `k` is the first to end the loop, and the loop's result is its. */
  ghost predicate StopsAt(net: nat -> Attempt, k: nat, outcome: Outcome, sends: nat) {
    && Ends(net(k)) && outcome == EndOutcome(net(k)) && sends == 2 * k + SendsOf(net(k))
    && forall i: nat :: i < k ==> !Ends(net(i))
  }

  /** The result of the retry loop: that of the first attempt that ends it, or
      exhaustion. */
  ghost predicate LoopEnds(net: nat -> Attempt, rounds: nat, outcome: Outcome, sends: nat) {
    || (outcome == Exhausted && sends == 2 * rounds && forall i: nat :: i < rounds ==> !Ends(net(i)))
    || (exists k: nat :: k < rounds && StopsAt(net, k, outcome, sends))
  }

  /** What `Query` returns: a refusal exactly when the budget is used up, nothing
      sent if the call held no slot, and else the result of the retry loop. */
  ghost predicate QueryResult(remaining: int, net: nat -> Attempt, rounds: nat, outcome: Outcome, sends: nat) {
    && (outcome == Refused <==> remaining == 0)
    && (outcome in {Refused, Abandoned} <==> sends == 0)
    && (outcome in {Refused, Abandoned} || LoopEnds(net, rounds, outcome, sends))
  }

  /** What `Transfer` returns. */
  ghost predicate TransferResult(remaining: int, answered: bool, outcome: Outcome, sends: nat) {
    && (outcome == Refused <==> remaining == 0)
    && sends == (if outcome in {Refused, Abandoned} then 0 else 1)
    && (outcome in {Refused, Abandoned} || outcome == if answered then Answered else Exhausted)
  }

  class Resolver {
    const counter: Counter
    const sem: Semaphore
    const retries: int

    constructor (b: Limits, retries: int)
      ensures Valid() && fresh(counter) && fresh(sem) && this.retries == retries
      ensures counter.remaining == Validated(b).maxQueries && sem.width == Validated(b).maxConcurrency
      ensures sem.occupied == 0
    {
      counter := new Counter(Validated(b).maxQueries);
      sem := new Semaphore(Validated(b).maxConcurrency);
      this.retries := retries;
    }

    ghost predicate Valid()
      reads this, counter, sem
    {
      counter.Valid() && sem.Valid()
    }

    /** `spend`: consume, wait for the rate limiter, take a slot. A failed
        spend holds no slot, though it may have consumed a query. */
    method Spend(waitDone: bool, acquireDone: bool, pick: bool) returns (outcome: Outcome)
      requires Valid() && (counter.remaining == 0 || waitDone || acquireDone || sem.occupied < sem.width)
      modifies counter, sem
      ensures Valid()
      ensures outcome == Refused <==> old(counter.remaining) == 0
      ensures outcome in {Refused, Abandoned, Answered}
      ensures outcome == Abandoned ==> waitDone || acquireDone
      ensures counter.remaining == old(counter.remaining) - if outcome == Refused then 0 else 1
      ensures sem.occupied == old(sem.occupied) + if outcome == Answered then 1 else 0
    {
      var ok := counter.Consume();
      if !ok {
        return Refused;
      }
      if waitDone {
        return Abandoned;
      }
      ok := sem.Acquire(acquireDone, pick);
      return if ok then Answered else Abandoned;
    }

    /** The retry loop of `Query`. */
    method RetryLoop(net: nat -> Attempt) returns (outcome: Outcome, sends: nat)
      ensures sends <= 2 * ((if retries < 0 then 0 else retries) + 1)
      ensures outcome == Exhausted <==> forall i: nat :: i == 0 || i <= retries ==> !Ends(net(i))
      ensures LoopEnds(net, (if retries < 0 then 0 else retries) + 1, outcome, sends)
    {
      sends := 0;
      var rounds := (if retries < 0 then 0 else retries) + 1;
      var attempt := 0;
      while attempt < rounds
        invariant 0 <= attempt <= rounds && sends == 2 * attempt
        invariant forall i: nat :: i < attempt ==> !Ends(net(i))
      {
        var a := net(attempt);
        sends := sends + 1;
        if a.udpOk {
          assert StopsAt(net, attempt, Answered, sends);
          return Answered, sends;
        }
        if a.ctxDone {
          assert StopsAt(net, attempt, Cancelled, sends);
          return Cancelled, sends;
        }
        sends := sends + 1;
        if a.tcpOk {
          assert StopsAt(net, attempt, Answered, sends);
          return Answered, sends;
        }
        attempt := attempt + 1;
      }
      return Exhausted, sends;
    }

    /** `Query`: whatever happens, the slot is given back, at most one unit of
        budget is used, and nothing is sent without one. */
    method Query(waitDone: bool, acquireDone: bool, pick: bool, net: nat -> Attempt)
      returns (outcome: Outcome, sends: nat)
      requires Valid() && (counter.remaining == 0 || waitDone || acquireDone || sem.occupied < sem.width)
      modifies counter, sem
      ensures Valid() && sem.occupied == old(sem.occupied)
      ensures counter.remaining == old(counter.remaining) - if outcome == Refused then 0 else 1
      ensures outcome == Abandoned ==> waitDone || acquireDone
      ensures outcome in {Refused, Abandoned} || sem.occupied < sem.width
      ensures QueryResult(old(counter.remaining), net, (if retries < 0 then 0 else retries) + 1, outcome, sends)
      ensures sends <= 2 * ((if retries < 0 then 0 else retries) + 1)
    {
      outcome := Spend(waitDone, acquireDone, pick);
      if outcome != Answered {
        return outcome, 0;
      }
      outcome, sends := RetryLoop(net);
      sem.Release();
    }

    /** `Transfer`: one message, whether it is answered or not. */
    method Transfer(waitDone: bool, acquireDone: bool, pick: bool, answered: bool)
      returns (outcome: Outcome, sends: nat)
      requires Valid() && (counter.remaining == 0 || waitDone || acquireDone || sem.occupied < sem.width)
      modifies counter, sem
      ensures Valid() && sem.occupied == old(sem.occupied)
      ensures counter.remaining == old(counter.remaining) - if outcome == Refused then 0 else 1
      ensures outcome == Abandoned ==> waitDone || acquireDone
      ensures outcome in {Refused, Abandoned} || sem.occupied < sem.width
      ensures TransferResult(old(counter.remaining), answered, outcome, sends)
    {
      outcome := Spend(waitDone, acquireDone, pick);
      if outcome != Answered {
        return outcome, 0;
      }
      sends := 1;
      outcome := if answered then Answered else Exhausted;
      sem.Release();
    }
  }

  // ----- many queries at once -----

  datatype Kind = QueryCall | TransferCall

  /** Where a call is: before `Consume`, in the rate limiter, at the semaphore,
      sending, between UDP and TCP, at `release`, or finished. */
  datatype Pc =
    | Start
    | AtLimiter
    | AtSemaphore
    | AtUdp(attempt: nat)
    | AfterUdp(attempt: nat)
    | AtTcp(attempt: nat)
    | AtTransfer
    | AtRelease
    | Finished
    | OutOfBudget
    | GaveUp

  datatype Call = Call(kind: Kind, pc: Pc, sent: nat, cancelled: bool)

  /** The shared state: counter, occupied slots, messages on the wire, calls. */
  datatype State = State(remaining: int, occupied: int, wire: nat, calls: seq<Call>)

  datatype Config = Config(maxQueries: nat, width: nat, retries: nat)

  function ConfigOf(b: Limits, retries: int): (cfg: Config)
    ensures cfg.maxQueries > 0 && cfg.width > 0
  {
    Config(Validated(b).maxQueries, Validated(b).maxConcurrency, if retries < 0 then 0 else retries)
  }

  ghost predicate Init(cfg: Config, s: State) {
    s.remaining == cfg.maxQueries && s.occupied == 0 && s.wire == 0
    && forall i :: 0 <= i < |s.calls| ==> s.calls[i].pc == Start && s.calls[i].sent == 0 && !s.calls[i].cancelled
  }

  /** One step of a call: how its own record and the shared counters change. */
  ghost predicate CallStep(cfg: Config, s: State, c: Call, c': Call, remaining': int, occupied': int, wire': nat) {
    var same := remaining' == s.remaining && occupied' == s.occupied && wire' == s.wire;
    var moved := c'.kind == c.kind && c'.sent == c.sent && c'.cancelled == c.cancelled;
    var sentOne := c'.kind == c.kind && c'.sent == c.sent + 1 && c'.cancelled == c.cancelled
                   && remaining' == s.remaining && occupied' == s.occupied && wire' == s.wire + 1;
    match c.pc
    case Start =>
      moved && occupied' == s.occupied && wire' == s.wire
      && if s.remaining <= 0 then c'.pc == OutOfBudget && remaining' == s.remaining
         else c'.pc == AtLimiter && remaining' == s.remaining - 1
    case AtLimiter =>
      moved && same && (c'.pc == AtSemaphore || (c.cancelled && c'.pc == GaveUp))
    case AtSemaphore =>
      moved && remaining' == s.remaining && wire' == s.wire
      && ((s.occupied < cfg.width && occupied' == s.occupied + 1
           && c'.pc == if c.kind.QueryCall? then AtUdp(0) else AtTransfer)
          || (c.cancelled && occupied' == s.occupied && c'.pc == GaveUp))
    case AtUdp(a) =>
      sentOne && (c'.pc == AtRelease || c'.pc == AfterUdp(a))
    case AfterUdp(a) =>
      moved && same && c'.pc == if c.cancelled then AtRelease else AtTcp(a)
    case AtTcp(a) =>
      sentOne && (c'.pc == AtRelease || (a < cfg.retries && c'.pc == AtUdp(a + 1)))
    case AtTransfer =>
      sentOne && c'.pc == AtRelease
    case AtRelease =>
      moved && remaining' == s.remaining && wire' == s.wire
      && s.occupied > 0 && occupied' == s.occupied - 1 && c'.pc == Finished
    case _ => false
  }

  /** The environment cancels the context of call `i`. */
  ghost predicate CancelStep(s: State, s': State, i: nat) {
    i < |s.calls| && !s.calls[i].cancelled
    && s' == s.(calls := s.calls[i := s.calls[i].(cancelled := true)])
  }

  ghost predicate RunStep(cfg: Config, s: State, s': State, i: nat) {
    i < |s.calls| && i < |s'.calls| && s'.calls == s.calls[i := s'.calls[i]]
    && CallStep(cfg, s, s.calls[i], s'.calls[i], s'.remaining, s'.occupied, s'.wire)
  }

  ghost predicate Next(cfg: Config, s: State, s': State) {
    exists i :: CancelStep(s, s', i) || RunStep(cfg, s, s', i)
  }

  // ----- totals over the calls -----

  function Total(f: Call -> nat, calls: seq<Call>): nat {
    if calls == [] then 0 else f(calls[0]) + Total(f, calls[1..])
  }

  lemma {:induction false} TotalUpdate(f: Call -> nat, calls: seq<Call>, i: nat, c: Call)
    requires i < |calls|
    ensures Total(f, calls[i := c]) + f(calls[i]) == Total(f, calls) + f(c)
  {
    var updated := calls[i := c];
    if i == 0 {
      assert updated[1..] == calls[1..];
    } else {
      assert updated[1..] == calls[1..][i - 1 := c];
      TotalUpdate(f, calls[1..], i - 1, c);
    }
  }

  lemma {:induction false} TotalBound(f: Call -> nat, g: Call -> nat, k: nat, calls: seq<Call>)
    requires forall i :: 0 <= i < |calls| ==> f(calls[i]) <= k * g(calls[i])
    ensures Total(f, calls) <= k * Total(g, calls)
  {
    if calls != [] {
      TotalBound(f, g, k, calls[1..]);
      assert k * (g(calls[0]) + Total(g, calls[1..])) == k * g(calls[0]) + k * Total(g, calls[1..]);
    }
  }

  /** Has the call been granted a unit of budget? */
  function Granted(c: Call): nat {
    if c.pc == Start || c.pc == OutOfBudget then 0 else 1
  }

  /** Does the call hold a slot? */
  function Holds(c: Call): nat {
    if c.pc.AtUdp? || c.pc.AfterUdp? || c.pc.AtTcp? || c.pc.AtTransfer? || c.pc.AtRelease? then 1 else 0
  }

  function Sent(c: Call): nat {
    c.sent
  }

  /** A call's sends fit its place in the retry loop. */
  ghost predicate CallOk(cfg: Config, c: Call) {
    match c.pc
    case AtUdp(a) => c.kind == QueryCall && a <= cfg.retries && c.sent == 2 * a
    case AfterUdp(a) => c.kind == QueryCall && a <= cfg.retries && c.sent == 2 * a + 1
    case AtTcp(a) => c.kind == QueryCall && a <= cfg.retries && c.sent == 2 * a + 1
    case AtTransfer => c.kind == TransferCall && c.sent == 0
    case AtRelease => c.sent <= (if c.kind == QueryCall then 2 * (cfg.retries + 1) else 1)
    case Finished => c.sent <= (if c.kind == QueryCall then 2 * (cfg.retries + 1) else 1)
    case _ => c.sent == 0
  }

  /** What every reachable state satisfies. */
  ghost predicate Inv(cfg: Config, s: State) {
    && s.remaining >= 0 && s.remaining + Total(Granted, s.calls) == cfg.maxQueries
    && s.occupied == Total(Holds, s.calls) && s.occupied <= cfg.width
    && s.wire == Total(Sent, s.calls)
    && forall i :: 0 <= i < |s.calls| ==> CallOk(cfg, s.calls[i])
  }

  lemma {:induction false} TotalZero(f: Call -> nat, calls: seq<Call>)
    requires forall i :: 0 <= i < |calls| ==> f(calls[i]) == 0
    ensures Total(f, calls) == 0
  {
    if calls != [] {
      TotalZero(f, calls[1..]);
    }
  }

  lemma InitIsInv(cfg: Config, s: State)
    requires Init(cfg, s)
    ensures Inv(cfg, s)
  {
    TotalZero(Granted, s.calls);
    TotalZero(Holds, s.calls);
    TotalZero(Sent, s.calls);
  }

  /** The local effect of a step: the shared counters change by what the call
      gains or loses in grants, slots and messages. */
  lemma CallStepBalances(cfg: Config, s: State, c: Call, c': Call, remaining': int, occupied': int, wire': nat)
    requires CallOk(cfg, c) && s.remaining >= 0 && s.occupied <= cfg.width
    requires CallStep(cfg, s, c, c', remaining', occupied', wire')
    ensures CallOk(cfg, c') && remaining' >= 0 && occupied' <= cfg.width
    ensures remaining' + Granted(c') == s.remaining + Granted(c)
    ensures occupied' - Holds(c') == s.occupied - Holds(c)
    ensures wire' - Sent(c') == s.wire - Sent(c)
  {
  }

  lemma RunStepKeepsInv(cfg: Config, s: State, s': State, i: nat)
    requires Inv(cfg, s) && RunStep(cfg, s, s', i)
    ensures Inv(cfg, s')
  {
    var c, c' := s.calls[i], s'.calls[i];
    CallStepBalances(cfg, s, c, c', s'.remaining, s'.occupied, s'.wire);
    TotalUpdate(Granted, s.calls, i, c');
    TotalUpdate(Holds, s.calls, i, c');
    TotalUpdate(Sent, s.calls, i, c');
  }

  lemma CancelStepKeepsInv(cfg: Config, s: State, s': State, i: nat)
    requires Inv(cfg, s) && CancelStep(s, s', i)
    ensures Inv(cfg, s')
  {
    var c, c' := s.calls[i], s'.calls[i];
    TotalUpdate(Granted, s.calls, i, c');
    TotalUpdate(Holds, s.calls, i, c');
    TotalUpdate(Sent, s.calls, i, c');
    assert CallOk(cfg, c) && CallOk(cfg, c');
  }

  lemma StepKeepsInv(cfg: Config, s: State, s': State)
    requires Inv(cfg, s) && Next(cfg, s, s')
    ensures Inv(cfg, s')
  {
    var i: nat :| CancelStep(s, s', i) || RunStep(cfg, s, s', i);
    if CancelStep(s, s', i) {
      CancelStepKeepsInv(cfg, s, s', i);
    } else {
      RunStepKeepsInv(cfg, s, s', i);
    }
  }

  /** A run: a start state and then any interleaving of steps. */
  ghost predicate IsRun(cfg: Config, run: seq<State>) {
    run != [] && Init(cfg, run[0]) && forall i :: 0 <= i < |run| - 1 ==> Next(cfg, run[i], run[i + 1])
  }

  lemma {:induction false} RunsKeepInv(cfg: Config, run: seq<State>, k: nat)
    requires IsRun(cfg, run) && k < |run|
    ensures Inv(cfg, run[k])
  {
    if k == 0 {
      InitIsInv(cfg, run[0]);
    } else {
      RunsKeepInv(cfg, run, k - 1);
      StepKeepsInv(cfg, run[k - 1], run[k]);
    }
  }

  /** Safety of every interleaving: grants never exceed the validated number of
      queries and only they reduce it, the holders are exactly the occupied
      slots and never exceed the concurrency limit, and the messages on the
      wire are at most 2 (retries + 1) for each grant. */
  lemma BudgetIsSafe(b: Limits, retries: int, run: seq<State>, k: nat)
    requires IsRun(ConfigOf(b, retries), run) && k < |run|
    ensures var s := run[k];
            && 0 <= s.remaining && s.remaining + Total(Granted, s.calls) == Validated(b).maxQueries
            && s.occupied == Total(Holds, s.calls) <= Validated(b).maxConcurrency
            && s.wire <= 2 * ((if retries < 0 then 0 else retries) + 1) * Total(Granted, s.calls)
            && s.wire <= 2 * ((if retries < 0 then 0 else retries) + 1) * Validated(b).maxQueries
  {
    var cfg, s := ConfigOf(b, retries), run[k];
    var most := 2 * (cfg.retries + 1);
    RunsKeepInv(cfg, run, k);
    forall i | 0 <= i < |s.calls| ensures Sent(s.calls[i]) <= most * Granted(s.calls[i]) {
      assert CallOk(cfg, s.calls[i]);
    }
    TotalBound(Sent, Granted, most, s.calls);
    Monotone(most, Total(Granted, s.calls), Validated(b).maxQueries);
  }

  lemma Monotone(k: nat, x: nat, y: nat)
    requires x <= y
    ensures k * x <= k * y
  {
  }

  ghost predicate IsFinal(c: Call) {
    c.pc == Finished || c.pc == OutOfBudget || c.pc == GaveUp
  }

  lemma {:induction false} TotalPositive(f: Call -> nat, calls: seq<Call>, i: nat)
    requires i < |calls| && f(calls[i]) > 0
    ensures Total(f, calls) > 0
  {
    if i > 0 {
      TotalPositive(f, calls[1..], i - 1);
    }
  }

  /** `release` never blocks: a call at it finds a taken slot. */
  lemma ReleaseNeverBlocks(cfg: Config, s: State, i: nat)
    requires Inv(cfg, s) && i < |s.calls| && s.calls[i].pc == AtRelease
    ensures s.occupied > 0
    ensures exists s' :: RunStep(cfg, s, s', i)
  {
    TotalPositive(Holds, s.calls, i);
    var s' := s.(occupied := s.occupied - 1, calls := s.calls[i := s.calls[i].(pc := Finished)]);
    assert RunStep(cfg, s, s', i);
  }

  /** When every call is finished no slot is leaked, whatever failed. */
  lemma FinishedLeaksNothing(cfg: Config, s: State)
    requires Inv(cfg, s) && forall i :: 0 <= i < |s.calls| ==> IsFinal(s.calls[i])
    ensures s.occupied == 0
  {
    TotalZero(Holds, s.calls);
  }

  lemma CanMove(cfg: Config, s: State, i: nat)
    requires Inv(cfg, s) && i < |s.calls| && !IsFinal(s.calls[i])
    requires s.calls[i].pc == AtSemaphore ==> s.occupied < cfg.width
    ensures exists s' :: RunStep(cfg, s, s', i)
  {
    var c := s.calls[i];
    var sent := s.(wire := s.wire + 1);
    match c.pc {
      case Start =>
        var to := if s.remaining <= 0 then s else s.(remaining := s.remaining - 1);
        Moves(cfg, s, i, c.(pc := if s.remaining <= 0 then OutOfBudget else AtLimiter), to);
      case AtLimiter => Moves(cfg, s, i, c.(pc := AtSemaphore), s);
      case AtSemaphore =>
        Moves(cfg, s, i, c.(pc := if c.kind.QueryCall? then AtUdp(0) else AtTransfer), s.(occupied := s.occupied + 1));
      case AtUdp(a) => Moves(cfg, s, i, c.(pc := AtRelease, sent := c.sent + 1), sent);
      case AfterUdp(a) => Moves(cfg, s, i, c.(pc := if c.cancelled then AtRelease else AtTcp(a)), s);
      case AtTcp(a) => Moves(cfg, s, i, c.(pc := AtRelease, sent := c.sent + 1), sent);
      case AtTransfer => Moves(cfg, s, i, c.(pc := AtRelease, sent := c.sent + 1), sent);
      case AtRelease => ReleaseNeverBlocks(cfg, s, i);
    }
  }

  lemma Moves(cfg: Config, s: State, i: nat, c': Call, to: State)
    requires i < |s.calls| && CallStep(cfg, s, s.calls[i], c', to.remaining, to.occupied, to.wire)
    ensures exists s' :: RunStep(cfg, s, s', i)
  {
    assert RunStep(cfg, s, to.(calls := s.calls[i := c']), i);
  }

  lemma {:induction false} HolderExists(calls: seq<Call>) returns (i: nat)
    requires Total(Holds, calls) > 0
    ensures i < |calls| && Holds(calls[i]) > 0
  {
    if Holds(calls[0]) > 0 {
      i := 0;
    } else {
      i := HolderExists(calls[1..]);
      i := i + 1;
    }
  }

  /** No deadlock: while a call is unfinished, some call can take a step, even
      without any cancellation. */
  lemma NoDeadlock(cfg: Config, s: State, i: nat)
    requires Inv(cfg, s) && cfg.width > 0 && i < |s.calls| && !IsFinal(s.calls[i])
    ensures exists j, s' :: RunStep(cfg, s, s', j)
  {
    if s.calls[i].pc == AtSemaphore && s.occupied >= cfg.width {
      var j := HolderExists(s.calls);
      CanMove(cfg, s, j);
    } else {
      CanMove(cfg, s, i);
    }
  }

  /** A cancelled call that waits can always give up, even when every slot is
      taken, and takes none with it. */
  lemma CancelledGivesUp(cfg: Config, s: State, i: nat)
    requires i < |s.calls| && s.calls[i].cancelled && (s.calls[i].pc == AtLimiter || s.calls[i].pc == AtSemaphore)
    ensures exists s' :: RunStep(cfg, s, s', i) && s'.calls[i].pc == GaveUp && s'.occupied == s.occupied
                         && s'.wire == s.wire && s'.remaining == s.remaining
  {
    var s' := s.(calls := s.calls[i := s.calls[i].(pc := GaveUp)]);
    assert RunStep(cfg, s, s', i);
  }

  // ----- every run ends -----

  /** How many steps a call may still take. */
  function Rank(retries: nat, c: Call): nat {
    (if c.cancelled then 0 else 1)
    + match c.pc
      case Start => 3 * retries + 7
      case AtLimiter => 3 * retries + 6
      case AtSemaphore => 3 * retries + 5
      case AtUdp(a) => if a <= retries then 3 * (retries - a) + 4 else 0
      case AfterUdp(a) => if a <= retries then 3 * (retries - a) + 3 else 0
      case AtTcp(a) => if a <= retries then 3 * (retries - a) + 2 else 0
      case AtTransfer => 2
      case AtRelease => 1
      case _ => 0
  }

  function RankSum(retries: nat, calls: seq<Call>): nat {
    if calls == [] then 0 else Rank(retries, calls[0]) + RankSum(retries, calls[1..])
  }

  lemma {:induction false} RankUpdate(retries: nat, calls: seq<Call>, i: nat, c: Call)
    requires i < |calls|
    ensures RankSum(retries, calls[i := c]) + Rank(retries, calls[i]) == RankSum(retries, calls) + Rank(retries, c)
  {
    var updated := calls[i := c];
    if i == 0 {
      assert updated[1..] == calls[1..];
    } else {
      assert updated[1..] == calls[1..][i - 1 := c];
      RankUpdate(retries, calls[1..], i - 1, c);
    }
  }

  lemma CallStepLowersRank(cfg: Config, s: State, c: Call, c': Call, remaining': int, occupied': int, wire': nat)
    requires CallOk(cfg, c) && CallStep(cfg, s, c, c', remaining', occupied', wire')
    ensures Rank(cfg.retries, c') < Rank(cfg.retries, c)
  {
  }

  lemma StepLowersRank(cfg: Config, s: State, s': State)
    requires Inv(cfg, s) && Next(cfg, s, s')
    ensures RankSum(cfg.retries, s'.calls) < RankSum(cfg.retries, s.calls)
  {
    var i: nat :| CancelStep(s, s', i) || RunStep(cfg, s, s', i);
    var c, c' := s.calls[i], s'.calls[i];
    assert Rank(cfg.retries, c') < Rank(cfg.retries, c) by {
      if RunStep(cfg, s, s', i) {
        CallStepLowersRank(cfg, s, c, c', s'.remaining, s'.occupied, s'.wire);
      }
    }
    RankUpdate(cfg.retries, s.calls, i, c');
    assert s'.calls == s.calls[i := c'];
  }

  lemma {:induction false} InitialRank(cfg: Config, calls: seq<Call>)
    requires forall i :: 0 <= i < |calls| ==> calls[i].pc == Start && !calls[i].cancelled
    ensures RankSum(cfg.retries, calls) == (3 * cfg.retries + 8) * |calls|
  {
    if calls != [] {
      InitialRank(cfg, calls[1..]);
      Distribute(3 * cfg.retries + 8, |calls| - 1);
    }
  }

  lemma Distribute(k: nat, n: nat)
    ensures k * (n + 1) == k * n + k
  {
  }

  /** Every interleaving ends: a run of n calls takes at most (3 retries + 8) n
      steps, cancellations included. */
  lemma {:induction false} RunsAreBounded(cfg: Config, run: seq<State>, k: nat)
    requires IsRun(cfg, run) && k < |run|
    ensures k + RankSum(cfg.retries, run[k].calls) <= (3 * cfg.retries + 8) * |run[0].calls|
  {
    if k == 0 {
      InitialRank(cfg, run[0].calls);
    } else {
      RunsAreBounded(cfg, run, k - 1);
      RunsKeepInv(cfg, run, k - 1);
      assert Next(cfg, run[k - 1], run[k]);
      StepLowersRank(cfg, run[k - 1], run[k]);
    }
  }

  // ----- a query is a run of the state machine -----

  ghost predicate Reaches(cfg: Config, s: State, s': State, n: nat)
    decreases n
  {
    if n == 0 then s == s' else exists m :: Next(cfg, s, m) && Reaches(cfg, m, s', n - 1)
  }

  lemma {:induction false} ReachesOnwards(cfg: Config, s: State, m: State, s': State, n: nat, k: nat)
    requires Reaches(cfg, s, m, n) && Reaches(cfg, m, s', k)
    ensures Reaches(cfg, s, s', n + k)
    decreases n
  {
    if n > 0 {
      var x :| Next(cfg, s, x) && Reaches(cfg, x, m, n - 1);
      ReachesOnwards(cfg, x, m, s', n - 1, k);
    }
  }

  /** Some run leads from `s` to `s'`. */
  ghost predicate Leads(cfg: Config, s: State, s': State) {
    exists n :: Reaches(cfg, s, s', n)
  }

  lemma NextLeads(cfg: Config, s: State, s': State)
    requires Next(cfg, s, s')
    ensures Leads(cfg, s, s')
  {
    var n: nat := 1;
    assert Reaches(cfg, s', s', n - 1);
    assert Reaches(cfg, s, s', n);
  }

  lemma Onwards(cfg: Config, s: State, m: State, s': State)
    requires Leads(cfg, s, m) && Leads(cfg, m, s')
    ensures Leads(cfg, s, s')
  {
    var n :| Reaches(cfg, s, m, n);
    var k :| Reaches(cfg, m, s', k);
    ReachesOnwards(cfg, s, m, s', n, k);
  }

  /** `s` with call `i` and the shared counters replaced. */
  function Put(s: State, i: nat, c: Call, remaining: int, occupied: int, wire: nat): State
    requires i < |s.calls|
  {
    State(remaining, occupied, wire, s.calls[i := c])
  }

  /** Only call `i` and what it shares have changed from `s` to `s'`. */
  ghost predicate OnlyCall(s: State, s': State, i: nat) {
    i < |s.calls| == |s'.calls| && s'.calls == s.calls[i := s'.calls[i]]
  }

  lemma OneStep(cfg: Config, s: State, i: nat, c: Call, remaining: int, occupied: int, wire: nat)
    requires i < |s.calls| && CallStep(cfg, s, s.calls[i], c, remaining, occupied, wire)
    ensures Leads(cfg, s, Put(s, i, c, remaining, occupied, wire))
  {
    var s' := Put(s, i, c, remaining, occupied, wire);
    assert RunStep(cfg, s, s', i);
    NextLeads(cfg, s, s');
  }

  lemma Cancel(cfg: Config, s: State, i: nat) returns (s': State)
    requires i < |s.calls|
    ensures s' == s.(calls := s.calls[i := s.calls[i].(cancelled := true)]) && Leads(cfg, s, s')
  {
    s' := s.(calls := s.calls[i := s.calls[i].(cancelled := true)]);
    if s.calls[i].cancelled {
      assert s' == s;
      assert Reaches(cfg, s, s, 0);
    } else {
      assert CancelStep(s, s', i);
      NextLeads(cfg, s, s');
    }
  }

  /** A step of call `i` to `pc` that sends or does not send a message. */
  lemma StepTo(cfg: Config, s: State, i: nat, pc: Pc, sends: nat) returns (s': State)
    requires i < |s.calls| && sends <= 1
    requires CallStep(cfg, s, s.calls[i], s.calls[i].(pc := pc, sent := s.calls[i].sent + sends), s.remaining,
                      s.occupied, s.wire + sends)
    ensures Leads(cfg, s, s') && OnlyCall(s, s', i)
    ensures s'.calls[i] == s.calls[i].(pc := pc, sent := s.calls[i].sent + sends)
    ensures s'.remaining == s.remaining && s'.occupied == s.occupied && s'.wire == s.wire + sends
  {
    var c := s.calls[i].(pc := pc, sent := s.calls[i].sent + sends);
    OneStep(cfg, s, i, c, s.remaining, s.occupied, s.wire + sends);
    s' := Put(s, i, c, s.remaining, s.occupied, s.wire + sends);
  }

  /** What the loop's result says about the first attempt not ruled out yet. */
  lemma SendsDecided(net: nat -> Attempt, rounds: nat, a: nat, outcome: Outcome, sends: nat)
    requires LoopEnds(net, rounds, outcome, sends) && a < rounds && forall j: nat :: j < a ==> !Ends(net(j))
    ensures Ends(net(a)) ==> sends == 2 * a + SendsOf(net(a))
    ensures !Ends(net(a)) && a + 1 == rounds ==> sends == 2 * rounds
  {
    if k: nat :| k < rounds && StopsAt(net, k, outcome, sends) {
      if a < k {
        assert !Ends(net(a));
      }
    }
  }

  /** From attempt `a` on, the loop's result is the result of a run. */
  lemma {:induction false} LoopIsRun(cfg: Config, s: State, i: nat, net: nat -> Attempt, a: nat, outcome: Outcome,
                                     sends: nat) returns (s': State)
    requires i < |s.calls| && s.calls[i].pc == AtUdp(a) && s.calls[i].kind == QueryCall && a <= cfg.retries
    requires !s.calls[i].cancelled && forall j: nat :: j < a ==> !Ends(net(j))
    requires LoopEnds(net, cfg.retries + 1, outcome, sends)
    ensures Leads(cfg, s, s') && OnlyCall(s, s', i) && s'.calls[i].pc == AtRelease
    ensures s'.remaining == s.remaining && s'.occupied == s.occupied
    ensures s'.wire + 2 * a == s.wire + sends && s'.calls[i].sent + 2 * a == s.calls[i].sent + sends
    decreases cfg.retries - a, 1
  {
    SendsDecided(net, cfg.retries + 1, a, outcome, sends);
    if net(a).udpOk {
      s' := StepTo(cfg, s, i, AtRelease, 1);
    } else {
      var s1 := StepTo(cfg, s, i, AfterUdp(a), 1);
      if net(a).ctxDone {
        var s2 := Cancel(cfg, s1, i);
        s' := StepTo(cfg, s2, i, AtRelease, 0);
        Onwards(cfg, s, s1, s2);
        Onwards(cfg, s, s2, s');
      } else {
        var s2 := StepTo(cfg, s1, i, AtTcp(a), 0);
        Onwards(cfg, s, s1, s2);
        s' := AfterTcp(cfg, s, s2, i, net, a, outcome, sends);
      }
    }
  }

  lemma {:induction false} AfterTcp(cfg: Config, s: State, s2: State, i: nat, net: nat -> Attempt, a: nat,
                                    outcome: Outcome, sends: nat) returns (s': State)
    requires OnlyCall(s, s2, i) && Leads(cfg, s, s2) && s2.calls[i].pc == AtTcp(a) && a <= cfg.retries
    requires s2.calls[i].kind == QueryCall && !s2.calls[i].cancelled && forall j: nat :: j < a ==> !Ends(net(j))
    requires LoopEnds(net, cfg.retries + 1, outcome, sends) && !net(a).udpOk && !net(a).ctxDone
    requires s2.remaining == s.remaining && s2.occupied == s.occupied
    requires s2.wire == s.wire + 1 && s2.calls[i].sent == s.calls[i].sent + 1
    ensures Leads(cfg, s, s') && OnlyCall(s, s', i) && s'.calls[i].pc == AtRelease
    ensures s'.remaining == s.remaining && s'.occupied == s.occupied
    ensures s'.wire + 2 * a == s.wire + sends && s'.calls[i].sent + 2 * a == s.calls[i].sent + sends
    decreases cfg.retries - a, 0
  {
    SendsDecided(net, cfg.retries + 1, a, outcome, sends);
    if net(a).tcpOk || a == cfg.retries {
      s' := StepTo(cfg, s2, i, AtRelease, 1);
      Onwards(cfg, s, s2, s');
    } else {
      var s3 := StepTo(cfg, s2, i, AtUdp(a + 1), 1);
      Onwards(cfg, s, s2, s3);
      s' := LoopIsRun(cfg, s3, i, net, a + 1, outcome, sends);
      Onwards(cfg, s, s3, s');
    }
  }

  /** A call that is refused or gives up before it holds a slot. */
  lemma EarlyEndIsRun(cfg: Config, s: State, i: nat, outcome: Outcome) returns (s': State)
    requires i < |s.calls| && s.calls[i] == Call(s.calls[i].kind, Start, 0, false)
    requires outcome in {Refused, Abandoned} && s.remaining >= 0 && (outcome == Refused <==> s.remaining == 0)
    ensures Leads(cfg, s, s') && OnlyCall(s, s', i) && IsFinal(s'.calls[i]) && s'.calls[i].sent == 0
    ensures s'.remaining == s.remaining - if outcome == Refused then 0 else 1
    ensures s'.occupied == s.occupied && s'.wire == s.wire
  {
    var c := s.calls[i];
    if outcome == Refused {
      OneStep(cfg, s, i, c.(pc := OutOfBudget), s.remaining, s.occupied, s.wire);
      s' := Put(s, i, c.(pc := OutOfBudget), s.remaining, s.occupied, s.wire);
    } else {
      var s1 := Put(s, i, c.(pc := AtLimiter), s.remaining - 1, s.occupied, s.wire);
      OneStep(cfg, s, i, c.(pc := AtLimiter), s.remaining - 1, s.occupied, s.wire);
      var s2 := Cancel(cfg, s1, i);
      s' := StepTo(cfg, s2, i, GaveUp, 0);
      Onwards(cfg, s, s1, s2);
      Onwards(cfg, s, s2, s');
    }
  }

  /** A granted call on its way to its first message. */
  lemma SpendIsRun(cfg: Config, s: State, i: nat) returns (s': State)
    requires i < |s.calls| && s.calls[i] == Call(s.calls[i].kind, Start, 0, false)
    requires s.remaining > 0 && s.occupied < cfg.width
    ensures Leads(cfg, s, s') && OnlyCall(s, s', i)
    ensures s'.calls[i] == s.calls[i].(pc := if s.calls[i].kind.QueryCall? then AtUdp(0) else AtTransfer)
    ensures s'.remaining == s.remaining - 1 && s'.occupied == s.occupied + 1 && s'.wire == s.wire
  {
    var c := s.calls[i];
    var s1 := Put(s, i, c.(pc := AtLimiter), s.remaining - 1, s.occupied, s.wire);
    OneStep(cfg, s, i, c.(pc := AtLimiter), s.remaining - 1, s.occupied, s.wire);
    var s2 := StepTo(cfg, s1, i, AtSemaphore, 0);
    var c' := s2.calls[i].(pc := if c.kind.QueryCall? then AtUdp(0) else AtTransfer);
    s' := Put(s2, i, c', s2.remaining, s2.occupied + 1, s2.wire);
    OneStep(cfg, s2, i, c', s2.remaining, s2.occupied + 1, s2.wire);
    Onwards(cfg, s, s1, s2);
    Onwards(cfg, s, s2, s');
  }

  /** Every result that the contract of `Query` allows is that of a run in which
      only this call moves: it ends finished, with as many messages and as much
      budget used as the contract says, and holds no slot. */
  lemma QueryIsRun(cfg: Config, s: State, i: nat, net: nat -> Attempt, outcome: Outcome, sends: nat)
    returns (s': State)
    requires i < |s.calls| && s.calls[i] == Call(QueryCall, Start, 0, false) && s.remaining >= 0
    requires QueryResult(s.remaining, net, cfg.retries + 1, outcome, sends)
    requires s.occupied >= 0 && (outcome in {Refused, Abandoned} || s.occupied < cfg.width)
    ensures Leads(cfg, s, s') && OnlyCall(s, s', i) && IsFinal(s'.calls[i]) && s'.calls[i].sent == sends
    ensures s'.remaining == s.remaining - if outcome == Refused then 0 else 1
    ensures s'.occupied == s.occupied && s'.wire == s.wire + sends
  {
    if outcome in {Refused, Abandoned} {
      s' := EarlyEndIsRun(cfg, s, i, outcome);
    } else {
      var s1 := SpendIsRun(cfg, s, i);
      var s2 := LoopIsRun(cfg, s1, i, net, 0, outcome, sends);
      Onwards(cfg, s, s1, s2);
      s' := ReleaseIsRun(cfg, s, s2, i);
    }
  }

  /** The deferred `release` at the end of a call. */
  lemma ReleaseIsRun(cfg: Config, s: State, s2: State, i: nat) returns (s': State)
    requires Leads(cfg, s, s2) && OnlyCall(s, s2, i) && s2.calls[i].pc == AtRelease && s2.occupied > 0
    ensures Leads(cfg, s, s') && OnlyCall(s, s', i) && s'.calls[i] == s2.calls[i].(pc := Finished)
    ensures s'.remaining == s2.remaining && s'.occupied == s2.occupied - 1 && s'.wire == s2.wire
  {
    var c := s2.calls[i].(pc := Finished);
    s' := Put(s2, i, c, s2.remaining, s2.occupied - 1, s2.wire);
    OneStep(cfg, s2, i, c, s2.remaining, s2.occupied - 1, s2.wire);
    Onwards(cfg, s, s2, s');
  }

  /** The same for a transfer. */
  lemma TransferIsRun(cfg: Config, s: State, i: nat, answered: bool, outcome: Outcome, sends: nat)
    returns (s': State)
    requires i < |s.calls| && s.calls[i] == Call(TransferCall, Start, 0, false) && s.remaining >= 0
    requires TransferResult(s.remaining, answered, outcome, sends)
    requires s.occupied >= 0 && (outcome in {Refused, Abandoned} || s.occupied < cfg.width)
    ensures Leads(cfg, s, s') && OnlyCall(s, s', i) && IsFinal(s'.calls[i]) && s'.calls[i].sent == sends
    ensures s'.remaining == s.remaining - if outcome == Refused then 0 else 1
    ensures s'.occupied == s.occupied && s'.wire == s.wire + sends
  {
    if outcome in {Refused, Abandoned} {
      s' := EarlyEndIsRun(cfg, s, i, outcome);
    } else {
      var s1 := SpendIsRun(cfg, s, i);
      var s2 := StepTo(cfg, s1, i, AtRelease, 1);
      Onwards(cfg, s, s1, s2);
      s' := ReleaseIsRun(cfg, s, s2, i);
    }
  }

  /** The object and the shared state have as much budget and as many slots taken. */
  ghost predicate SameState(res: Resolver, s: State)
    reads res, res.counter, res.sem
  {
    s.remaining == res.counter.remaining && s.occupied == res.sem.occupied
  }

  /** The object was built from this budget and this number of retries. */
  ghost predicate BuiltFrom(res: Resolver, b: Limits, retries: int)
    reads res, res.sem
  {
    res.retries == retries && res.sem.width == Validated(b).maxConcurrency
  }

  /** `Query` refines the state machine: called on a resolver in the shared state
      of `s`, it leaves it in a state to which a run leads in which only call `i`
      moves, and sends what that call sends. */
  method QueryAsCall(res: Resolver, ghost b: Limits, ghost retries: int, ghost s: State, ghost i: nat, waitDone: bool,
                     acquireDone: bool, pick: bool, net: nat -> Attempt)
    returns (outcome: Outcome, sends: nat, ghost s': State)
    requires res.Valid() && BuiltFrom(res, b, retries) && SameState(res, s)
    requires i < |s.calls| && s.calls[i] == Call(QueryCall, Start, 0, false)
    requires res.counter.remaining == 0 || waitDone || acquireDone || res.sem.occupied < res.sem.width
    modifies res.counter, res.sem
    ensures res.Valid() && BuiltFrom(res, b, retries) && SameState(res, s')
    ensures QueryResult(s.remaining, net, ConfigOf(b, retries).retries + 1, outcome, sends)
    ensures Leads(ConfigOf(b, retries), s, s') && OnlyCall(s, s', i)
    ensures IsFinal(s'.calls[i]) && s'.calls[i].sent == sends && s'.wire == s.wire + sends
  {
    outcome, sends := res.Query(waitDone, acquireDone, pick, net);
    s' := QueryIsRun(ConfigOf(b, retries), s, i, net, outcome, sends);
  }

  /** `Transfer` refines it in the same way. */
  method TransferAsCall(res: Resolver, ghost b: Limits, ghost retries: int, ghost s: State, ghost i: nat,
                        waitDone: bool, acquireDone: bool, pick: bool, answered: bool)
    returns (outcome: Outcome, sends: nat, ghost s': State)
    requires res.Valid() && BuiltFrom(res, b, retries) && SameState(res, s)
    requires i < |s.calls| && s.calls[i] == Call(TransferCall, Start, 0, false)
    requires res.counter.remaining == 0 || waitDone || acquireDone || res.sem.occupied < res.sem.width
    modifies res.counter, res.sem
    ensures res.Valid() && BuiltFrom(res, b, retries) && SameState(res, s')
    ensures TransferResult(s.remaining, answered, outcome, sends)
    ensures Leads(ConfigOf(b, retries), s, s') && OnlyCall(s, s', i)
    ensures IsFinal(s'.calls[i]) && s'.calls[i].sent == sends && s'.wire == s.wire + sends
  {
    outcome, sends := res.Transfer(waitDone, acquireDone, pick, answered);
    s' := TransferIsRun(ConfigOf(b, retries), s, i, answered, outcome, sends);
  }

  /** A new resolver is in the start state of the machine for its budget. */
  method NewResolver(b: Limits, retries: int, ghost s: State) returns (res: Resolver)
    requires Init(ConfigOf(b, retries), s)
    ensures fresh(res) && fresh(res.counter) && fresh(res.sem) && res.Valid()
    ensures BuiltFrom(res, b, retries) && SameState(res, s)
  {
    res := new Resolver(b, retries);
  }
}
