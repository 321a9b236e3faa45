/**
 Delivery of events to the edge, internal/output/edge.go: one batch and one retry
 counter shared by writers, a ticker and sleeping retriers.
 */

/** The client as one caller at a time sees it. */
module EdgeClient {
  import opened Bytes

  const BATCH_SIZE := 2000
  const RETRY_LIMIT := 100
  const CYCLE := RETRY_LIMIT + 1

  /** How marshalling and posting a batch turns out. */
  datatype PostResult = MarshalError | Failure | Success

  /** `1 << uint(k)` on int64: a count that is negative or past 63 shifts everything out. */
  function ShiftOne(k: int): int
  {
    if 0 <= k < 64 then WrapInt64(Pow2(k)) else 0
  }

  /** The sleep, in nanoseconds, computed from the retry counter. */
  function Backoff(retryCount: int): (d: int)
    ensures d <= 60 * SECOND
  {
    var d := WrapInt64(SECOND * ShiftOne(retryCount - 1));
    if d > 60 * SECOND then 60 * SECOND else d
  }

  /** What is observable of a client: its two fields and what became of the batches it took.
      `streak`, `streakDrops` and `streakSleeps` cover the failed posts since the last success. */
  datatype Client<Event> = Client(
    batch: seq<Event>,
    retryCount: int,
    delivered: seq<Event>,
    discarded: seq<Event>,
    streak: nat,
    streakDrops: nat,
    streakSleeps: seq<int>)

  function RetrySpec<Event>(c: Client<Event>, events: seq<Event>): Client<Event>
  {
    if c.retryCount + 1 > RETRY_LIMIT then
      c.(retryCount := 0, discarded := c.discarded + events, streak := c.streak + 1, streakDrops := c.streakDrops + 1)
    else
      c.(retryCount := c.retryCount + 1, batch := c.batch + events, streak := c.streak + 1,
         streakSleeps := c.streakSleeps + [Backoff(c.retryCount + 1)])
  }

  function FlushSpec<Event>(c: Client<Event>, result: PostResult): Client<Event>
  {
    if c.batch == [] then c
    else
      var taken := c.(batch := []);
      match result
      case MarshalError => taken.(discarded := c.discarded + c.batch)
      case Failure => RetrySpec(taken, c.batch)
      case Success =>
        taken.(retryCount := 0, delivered := c.delivered + c.batch,
               streak := 0, streakDrops := 0, streakSleeps := [])
  }

  class EdgeClient<Event> {
    var batch: seq<Event>
    var retryCount: int
    var delivered: seq<Event>
    var discarded: seq<Event>
    var streak: nat
    var streakDrops: nat
    var streakSleeps: seq<int>

    function View(): Client<Event>
      reads this
    {
      Client(batch, retryCount, delivered, discarded, streak, streakDrops, streakSleeps)
    }

    constructor ()
      ensures View() == Client([], 0, [], [], 0, 0, [])
    {
      batch, retryCount, delivered, discarded := [], 0, [], [];
      streak, streakDrops, streakSleeps := 0, 0, [];
    }

    method Retry(events: seq<Event>)
      modifies this
      ensures View() == RetrySpec(old(View()), events)
      ensures if old(retryCount) >= 100 then batch == old(batch) && discarded == old(discarded) + events
              else batch == old(batch) + events && discarded == old(discarded)
      ensures retryCount == if old(retryCount) >= 100 then 0 else old(retryCount) + 1
    {
      streak := streak + 1;
      retryCount := retryCount + 1;
      if retryCount > RETRY_LIMIT {
        discarded, streakDrops := discarded + events, streakDrops + 1;
        retryCount := 0;
        return;
      }
      streakSleeps := streakSleeps + [Backoff(retryCount)];
      batch := batch + events;
    }

    method Flush(result: PostResult) returns (ok: bool)
      modifies this
      ensures View() == FlushSpec(old(View()), result)
      ensures ok <==> old(batch) == [] || result.Success?
    {
      if batch == [] { return true; }
      var events := batch;
      batch := [];
      match result
      case MarshalError =>
        discarded := discarded + events;
        ok := false;
      case Failure =>
        Retry(events);
        ok := false;
      case Success =>
        delivered := delivered + events;
        retryCount, streak, streakDrops, streakSleeps := 0, 0, 0, [];
        ok := true;
    }

    method WriteEvent(event: Event, result: PostResult) returns (ok: bool)
      modifies this
      ensures View() == OpSpec(old(View()), Write(event, result))
      ensures |old(batch)| + 1 < BATCH_SIZE ==> batch == old(batch) + [event]
      ensures ok <==> |old(batch)| + 1 < BATCH_SIZE || result.Success?
    {
      batch := batch + [event];
      if |batch| >= BATCH_SIZE {
        ok := Flush(result);
      } else {
        ok := true;
      }
    }

    method WriteBatch(events: seq<Event>, result: PostResult) returns (ok: bool)
      modifies this
      ensures View() == OpSpec(old(View()), WriteAll(events, result))
      ensures ok <==> old(batch) + events == [] || result.Success?
    {
      batch := batch + events;
      ok := Flush(result);
    }
  }

  /** One serialised call: a writer, or a flush by the ticker or Stop. */
  datatype Op<Event> = Write(event: Event, result: PostResult) | WriteAll(events: seq<Event>, result: PostResult)
    | Tick(result: PostResult)

  function OpSpec<Event>(c: Client<Event>, op: Op<Event>): Client<Event>
  {
    match op
    case Write(event, result) =>
      var c' := c.(batch := c.batch + [event]);
      if |c'.batch| >= BATCH_SIZE then FlushSpec(c', result) else c'
    case WriteAll(events, result) => FlushSpec(c.(batch := c.batch + events), result)
    case Tick(result) => FlushSpec(c, result)
  }

  function Run<Event>(c: Client<Event>, ops: seq<Op<Event>>): Client<Event>
    decreases |ops|
  {
    if ops == [] then c else Run(OpSpec(c, ops[0]), ops[1..])
  }

  // ---------------------------------------------------------------------------
  // What becomes of the events
  // ---------------------------------------------------------------------------

  function Brought<Event>(op: Op<Event>): seq<Event>
  {
    match op
    case Write(event, _) => [event]
    case WriteAll(events, _) => events
    case Tick(_) => []
  }

  /** A single write flushes only when it makes 2000 events; the other calls always do. */
  predicate Flushes<Event>(c: Client<Event>, op: Op<Event>)
  {
    op.Write? ==> |c.batch| + 1 >= 2000
  }

  /** A call in the order of its effects: the events join the batch, and a flush takes all of it,
      delivers it, or gives it up, or after a failed post puts it back and counts and sleeps. */
  lemma OpEffect<Event>(c: Client<Event>, op: Op<Event>)
    ensures var c' := OpSpec(c, op);
            var b := c.batch + Brought(op);
            if !Flushes(c, op) || b == [] then c' == c.(batch := b)
            else if op.result.Success? then c' == Client([], 0, c.delivered + b, c.discarded, 0, 0, [])
            else if op.result.MarshalError? then c' == c.(batch := [], discarded := c.discarded + b)
            else if c.retryCount >= 100 then
              c' == c.(batch := [], discarded := c.discarded + b, retryCount := 0,
                       streak := c.streak + 1, streakDrops := c.streakDrops + 1)
            else
              c' == c.(batch := b, retryCount := c.retryCount + 1, streak := c.streak + 1,
                       streakSleeps := c.streakSleeps + [Backoff(c.retryCount + 1)])
  {
    hide Backoff;
    assert c.batch + [] == c.batch;
    assert [] + (c.batch + Brought(op)) == c.batch + Brought(op);
  }

  /** Everything the client ever took on and still answers for. */
  ghost function Holdings<Event>(c: Client<Event>): multiset<Event>
  {
    multiset(c.batch) + multiset(c.delivered) + multiset(c.discarded)
  }

  function AllBrought<Event>(ops: seq<Op<Event>>): seq<Event>
  {
    if ops == [] then [] else Brought(ops[0]) + AllBrought(ops[1..])
  }

  lemma OpAccounts<Event>(c: Client<Event>, op: Op<Event>)
    ensures Holdings(OpSpec(c, op)) == Holdings(c) + multiset(Brought(op))
  {
    OpEffect(c, op);
    hide OpSpec, Brought, Backoff;
  }

  /** Over every serialised history, what is queued, delivered and discarded is exactly what was
      there before and what the calls brought. */
  lemma {:induction false} RunAccounts<Event>(c: Client<Event>, ops: seq<Op<Event>>)
    ensures Holdings(Run(c, ops)) == Holdings(c) + multiset(AllBrought(ops))
    decreases |ops|
  {
    hide OpSpec, Holdings, Brought;
    if ops != [] {
      OpAccounts(c, ops[0]);
      RunAccounts(OpSpec(c, ops[0]), ops[1..]);
    }
  }

  lemma OpKeepsOrder<Event>(c: Client<Event>, op: Op<Event>)
    ensures c.discarded <= OpSpec(c, op).discarded
    ensures OpSpec(c, op).discarded == c.discarded ==>
              OpSpec(c, op).delivered + OpSpec(c, op).batch == c.delivered + c.batch + Brought(op)
  {
    OpEffect(c, op);
    hide OpSpec, Brought, Backoff;
  }

  lemma {:induction false} DiscardedGrows<Event>(c: Client<Event>, ops: seq<Op<Event>>)
    ensures c.discarded <= Run(c, ops).discarded
    decreases |ops|
  {
    hide OpSpec;
    if ops != [] {
      OpKeepsOrder(c, ops[0]);
      DiscardedGrows(OpSpec(c, ops[0]), ops[1..]);
    }
  }

  /** While nothing is discarded, events are delivered in the order in which they were written,
      whatever the failures in between. */
  lemma {:induction false} DeliversInOrder<Event>(c: Client<Event>, ops: seq<Op<Event>>)
    requires Run(c, ops).discarded == c.discarded
    ensures Run(c, ops).delivered + Run(c, ops).batch == c.delivered + c.batch + AllBrought(ops)
    decreases |ops|
  {
    hide OpSpec, Brought;
    if ops != [] {
      OpKeepsOrder(c, ops[0]);
      DiscardedGrows(OpSpec(c, ops[0]), ops[1..]);
      DeliversInOrder(OpSpec(c, ops[0]), ops[1..]);
    }
  }

  /** As long as every post succeeds the batch stays below 2000 events, and nothing is discarded. */
  lemma {:induction false} SuccessKeepsBatchSmall<Event>(c: Client<Event>, ops: seq<Op<Event>>)
    requires |c.batch| < 2000 && forall i :: 0 <= i < |ops| ==> ops[i].result.Success?
    ensures |Run(c, ops).batch| < 2000 && Run(c, ops).discarded == c.discarded
    decreases |ops|
  {
    hide OpSpec, Backoff;
    if ops != [] {
      OpEffect(c, ops[0]);
      SuccessKeepsBatchSmall(OpSpec(c, ops[0]), ops[1..]);
    }
  }

  /** The sleep of the `n`th consecutive failed post: every 101st discards instead. */
  function SleepAt(n: nat): seq<int>
  {
    if n % CYCLE == 0 then [] else [Backoff(n % CYCLE)]
  }

  /** The sleeps of `n` consecutive failed posts. */
  function SleepsOf(n: nat): seq<int>
  {
    if n == 0 then [] else SleepsOf(n - 1) + SleepAt(n)
  }

  predicate StreakInvariant<Event>(c: Client<Event>)
  {
    && c.retryCount == c.streak % CYCLE
    && c.streakDrops == c.streak / CYCLE
    && c.streakSleeps == SleepsOf(c.streak)
  }

  lemma CycleStep(n: nat)
    ensures if n % CYCLE == RETRY_LIMIT then (n + 1) % CYCLE == 0 && (n + 1) / CYCLE == n / CYCLE + 1
            else (n + 1) % CYCLE == n % CYCLE + 1 && (n + 1) / CYCLE == n / CYCLE
  {
  }

  lemma RetryKeepsStreak<Event>(c: Client<Event>, events: seq<Event>)
    requires StreakInvariant(c)
    ensures StreakInvariant(RetrySpec(c, events))
  {
    CycleStep(c.streak);
    assert SleepsOf(c.streak + 1) == SleepsOf(c.streak) + SleepAt(c.streak + 1);
    hide SleepsOf, Backoff;
  }

  lemma FlushKeepsStreak<Event>(c: Client<Event>, result: PostResult)
    requires StreakInvariant(c)
    ensures StreakInvariant(FlushSpec(c, result))
  {
    assert SleepsOf(0) == [];
    hide SleepsOf;
    if c.batch != [] && result.Failure? {
      hide RetrySpec;
      RetryKeepsStreak(c.(batch := []), c.batch);
    }
  }

  lemma OpKeepsStreak<Event>(c: Client<Event>, op: Op<Event>)
    requires StreakInvariant(c)
    ensures StreakInvariant(OpSpec(c, op))
  {
    hide SleepsOf, FlushSpec;
    match op
    case Write(event, result) => FlushKeepsStreak(c.(batch := c.batch + [event]), result);
    case WriteAll(events, result) => FlushKeepsStreak(c.(batch := c.batch + events), result);
    case Tick(result) => FlushKeepsStreak(c, result);
  }

  /** After every serialised history, the counter is the number of consecutive failed posts
      modulo 101, one batch in 101 was discarded, and the sleeps are those of that many failures. */
  lemma {:induction false} RunKeepsStreak<Event>(c: Client<Event>, ops: seq<Op<Event>>)
    requires StreakInvariant(c)
    ensures StreakInvariant(Run(c, ops))
    ensures Run(c, ops).retryCount == Run(c, ops).streak % 101 && Run(c, ops).streakDrops == Run(c, ops).streak / 101
    decreases |ops|
  {
    hide SleepsOf, OpSpec;
    if ops != [] {
      OpKeepsStreak(c, ops[0]);
      RunKeepsStreak(OpSpec(c, ops[0]), ops[1..]);
    }
  }

  // ---------------------------------------------------------------------------
  // The backoff against its documentation: 1s, 2s, 4s ... at most 60s
  // ---------------------------------------------------------------------------

  function DocumentedBackoff(retryCount: nat): int
    requires retryCount >= 1
  {
    SECOND * (if Pow2(retryCount - 1) < 60 then Pow2(retryCount - 1) else 60)
  }

  lemma WrapInRange(x: int)
    requires -TWO_63 <= x <= MAX_INT
    ensures WrapInt64(x) == x
  {
  }

  lemma WrapMultiple(k: int)
    ensures WrapInt64(TWO_64 * k) == 0
  {
    assert (TWO_64 * k + TWO_63) % TWO_64 == TWO_63;
  }

  lemma BackoffOfShift(r: nat)
    requires 1 <= r <= 63
    ensures Backoff(r) == var d := WrapInt64(SECOND * Pow2(r - 1)); if d > 60 * SECOND then 60 * SECOND else d
  {
    hide WrapInt64;
    Pow2Values();
    Pow2Monotone(r - 1, 62);
    WrapInRange(Pow2(r - 1));
  }

  lemma BackoffExact(r: nat)
    requires 1 <= r <= 34
    ensures Backoff(r) == DocumentedBackoff(r)
  {
    hide WrapInt64, Backoff;
    Pow2Values();
    BackoffOfShift(r);
    Pow2Monotone(r, 34);
    WrapInRange(SECOND * Pow2(r - 1));
  }

  lemma {:induction false} SleepsPrefix(m: nat, n: nat)
    requires m <= n
    ensures SleepsOf(m) <= SleepsOf(n)
    decreases n
  {
    hide SleepAt;
    if m < n { SleepsPrefix(m, n - 1); }
  }

  /** Up to the retry limit the `k`th failure of a streak sleeps for attempt `k`. */
  lemma {:induction false} EarlySleeps(n: nat)
    requires n <= RETRY_LIMIT
    ensures |SleepsOf(n)| == n && forall k :: 0 <= k < n ==> SleepsOf(n)[k] == Backoff(k + 1)
  {
    hide Backoff;
    if n > 0 {
      EarlySleeps(n - 1);
      SleepAtStart(n);
      hide SleepAt;
    }
  }

  /** Whatever the length of a streak, its first 34 sleeps are the documented ones. */
  lemma FirstSleepsDocumented(n: nat, k: nat)
    requires k < n && k < 34
    ensures k < |SleepsOf(n)| && SleepsOf(n)[k] == DocumentedBackoff(k + 1)
  {
    hide Backoff, DocumentedBackoff, SleepsOf, Pow2;
    EarlySleeps(k + 1);
    SleepsPrefix(k + 1, n);
    BackoffExact(k + 1);
  }

  lemma SleepAtStart(n: nat)
    requires 0 < n <= RETRY_LIMIT
    ensures SleepAt(n) == [Backoff(n)]
  {
    hide Backoff;
    assert n % CYCLE == n;
  }

  /** From the 56th attempt the product is a multiple of 2^64. */
  lemma BackoffVanishes(r: nat)
    requires 56 <= r <= 100
    ensures Backoff(r) == 0
  {
    hide WrapInt64;
    Pow2Values();
    if r <= 63 {
      hide Backoff;
      BackoffOfShift(r);
      Pow2Sum(r - 56, 55);
      WrapMultiple(1953125 * Pow2(r - 56));
      assert SECOND * Pow2(r - 1) == TWO_64 * (1953125 * Pow2(r - 56));
    } else if r == 64 {
      WrapMultiple(-500_000_000);
      assert WrapInt64(TWO_63) == -TWO_63 by { WrapTop(); }
    } else {
      WrapMultiple(0);
    }
  }

  lemma WrapTop()
    ensures WrapInt64(TWO_63) == -TWO_63
  {
  }

  /** The attempts past the 34th on which the wrapped product is still positive. */
  const LUCKY := {38, 42, 43, 46, 48, 51, 52, 54}

  /** The wrapped product doubles, and wraps again, from one attempt to the next. */
  lemma WrapDoubles(x: int)
    ensures WrapInt64(2 * x) == AddInt64(WrapInt64(x), WrapInt64(x))
  {
    var q := (x + TWO_63) / TWO_64;
    var w := WrapInt64(x);
    assert x == TWO_64 * q + w;
    assert 2 * x + TWO_63 == TWO_64 * (2 * q) + (2 * w + TWO_63);
  }

  /** The wrapped product at attempt 35 + k. */
  function WrappedProduct(k: nat): int
  {
    if k == 0 then WrapInt64(SECOND * 0x4_0000_0000)
    else AddInt64(WrappedProduct(k - 1), WrappedProduct(k - 1))
  }

  lemma {:induction false} WrappedProductIs(k: nat)
    ensures WrapInt64(SECOND * Pow2(34 + k)) == WrappedProduct(k)
  {
    if k == 0 {
      Pow2Values();
    } else {
      WrappedProductIs(k - 1);
      WrapDoubles(SECOND * Pow2(34 + k - 1));
    }
  }

  lemma BackoffWraps(r: nat)
    requires 35 <= r <= 55
    ensures if r in LUCKY then Backoff(r) == 60 * SECOND else Backoff(r) < 0
  {
    BackoffOfShift(r);
    WrappedProductIs(r - 35);
    WrappedProductSigns(r - 35);
  }

  lemma WrappedProductSigns(k: nat)
    requires k <= 20
    ensures if 35 + k in LUCKY then WrappedProduct(k) > 60 * SECOND else WrappedProduct(k) < 0
  {
    assert WrappedProduct(0) == -1266874889709551616;
    assert WrappedProduct(1) == -2533749779419103232;
    assert WrappedProduct(2) == -5067499558838206464;
    assert WrappedProduct(3) == 8311744956033138688;
    assert WrappedProduct(4) == -1823254161643274240;
    assert WrappedProduct(5) == -3646508323286548480;
    assert WrappedProduct(6) == -7293016646573096960;
    assert WrappedProduct(7) == 3860710780563357696;
    assert WrappedProduct(8) == 7721421561126715392;
    assert WrappedProduct(9) == -3003900951456120832;
    assert WrappedProduct(10) == -6007801902912241664;
    assert WrappedProduct(11) == 6431140267885068288;
    assert WrappedProduct(12) == -5584463537939415040;
    assert WrappedProduct(13) == 7277816997830721536;
    assert WrappedProduct(14) == -3891110078048108544;
    assert WrappedProduct(15) == -7782220156096217088;
    assert WrappedProduct(16) == 2882303761517117440;
    assert WrappedProduct(17) == 5764607523034234880;
    assert WrappedProduct(18) == -6917529027641081856;
    assert WrappedProduct(19) == 4611686018427387904;
    assert WrappedProduct(20) == -9223372036854775808;
  }

  /** Exactly when the sleep is the documented one, over every counter value that a serialised
      history sleeps on. */
  lemma BackoffAgainstDocumentation(r: nat)
    requires 1 <= r <= RETRY_LIMIT
    ensures Backoff(r) == DocumentedBackoff(r) <==> r <= 34 || r in LUCKY
  {
    hide WrapInt64, Backoff;
    if r <= 34 {
      BackoffExact(r);
    } else {
      assert DocumentedBackoff(r) == 60 * SECOND by {
        Pow2Values();
        Pow2Monotone(6, r - 1);
      }
      hide DocumentedBackoff;
      if r <= 55 { BackoffWraps(r); } else { BackoffVanishes(r); }
    }
  }
}

/** The client as concurrent goroutines run it.  A step ends at every lock, unlock and
    access to the unguarded retry counter, so every interleaving of those is a run. */
module EdgeRuns {
  import opened Bytes
  import opened EdgeClient

  /** Where a goroutine stands, and the events it alone holds. */
  datatype Thread =
    | Idle
    | Flushing
    | Posting(events: seq<nat>)
    | Acknowledged
    | Failed(events: seq<nat>)
    | Counting(events: seq<nat>, loaded: int)
    | Checking(events: seq<nat>)
    | Dropping(events: seq<nat>)
    | BackingOff(events: seq<nat>)
    | Sleeping(events: seq<nat>, duration: int)

  /** Events are named by the order in which they were accepted: 0 up to `accepted`. */
  datatype State = State(
    batch: seq<nat>,
    retryCount: int,
    threads: seq<Thread>,
    accepted: nat,
    acked: seq<nat>,
    discarded: seq<nat>)

  datatype Action =
    | Spawn
    | WriteEvent(t: nat)
    | WriteBatch(t: nat, count: nat)
    | StartFlush(t: nat)
    | TakeBatch(t: nat)
    | MarshalFails(t: nat)
    | Post(t: nat, accepted: bool)
    | ResetCount(t: nat)
    | LoadCount(t: nat)
    | StoreCount(t: nat)
    | CheckLimit(t: nat)
    | Drop(t: nat)
    | ComputeBackoff(t: nat)
    | Requeue(t: nat)

  const INIT := State([], 0, [], 0, [], [])

  function NewEvents(from: nat, count: nat): seq<nat>
  {
    seq(count, i requires 0 <= i < count => from + i)
  }

  predicate Enabled(s: State, a: Action)
  {
    a.Spawn? ||
    (a.t < |s.threads| &&
     var th := s.threads[a.t];
     match a
     case Spawn => true
     case WriteEvent(_) => th.Idle?
     case WriteBatch(_, _) => th.Idle?
     case StartFlush(_) => th.Idle?
     case TakeBatch(_) => th.Flushing?
     case MarshalFails(_) => th.Posting?
     case Post(_, _) => th.Posting?
     case ResetCount(_) => th.Acknowledged?
     case LoadCount(_) => th.Failed?
     case StoreCount(_) => th.Counting?
     case CheckLimit(_) => th.Checking?
     case Drop(_) => th.Dropping?
     case ComputeBackoff(_) => th.BackingOff?
     case Requeue(_) => th.Sleeping?)
  }

  function Goto(s: State, t: nat, th: Thread): State
    requires t < |s.threads|
  {
    s.(threads := s.threads[t := th])
  }

  /** A batch that marshals goes straight to `Post`. */
  function Next(s: State, a: Action): State
    requires Enabled(s, a)
  {
    match a
    case Spawn => s.(threads := s.threads + [Idle])
    case WriteEvent(t) =>
      var s' := s.(batch := s.batch + NewEvents(s.accepted, 1), accepted := s.accepted + 1);
      if |s'.batch| >= BATCH_SIZE then Goto(s', t, Flushing) else s'
    case WriteBatch(t, count) =>
      Goto(s.(batch := s.batch + NewEvents(s.accepted, count), accepted := s.accepted + count), t, Flushing)
    case StartFlush(t) => Goto(s, t, Flushing)
    case TakeBatch(t) =>
      if s.batch == [] then Goto(s, t, Idle) else Goto(s.(batch := []), t, Posting(s.batch))
    case MarshalFails(t) => Goto(s.(discarded := s.discarded + s.threads[t].events), t, Idle)
    case Post(t, true) => Goto(s.(acked := s.acked + s.threads[t].events), t, Acknowledged)
    case Post(t, false) => Goto(s, t, Failed(s.threads[t].events))
    case ResetCount(t) => Goto(s.(retryCount := 0), t, Idle)
    case LoadCount(t) => Goto(s, t, Counting(s.threads[t].events, s.retryCount))
    case StoreCount(t) => Goto(s.(retryCount := s.threads[t].loaded + 1), t, Checking(s.threads[t].events))
    case CheckLimit(t) =>
      Goto(s, t, if s.retryCount > RETRY_LIMIT then Dropping(s.threads[t].events) else BackingOff(s.threads[t].events))
    case Drop(t) =>
      Goto(s.(retryCount := 0, discarded := s.discarded + s.threads[t].events), t, Idle)
    case ComputeBackoff(t) => Goto(s, t, Sleeping(s.threads[t].events, Backoff(s.retryCount)))
    case Requeue(t) => Goto(s.(batch := s.batch + s.threads[t].events), t, Idle)
  }

  /** The state after a run, if every step of it was enabled. */
  function Exec(s: State, run: seq<Action>): Option<State>
    decreases |run|
  {
    if run == [] then Some(s)
    else if Enabled(s, run[0]) then Exec(Next(s, run[0]), run[1..])
    else None
  }

  // ---------------------------------------------------------------------------
  // Conservation
  // ---------------------------------------------------------------------------

  function Held(th: Thread): seq<nat>
  {
    match th
    case Idle => []
    case Flushing => []
    case Acknowledged => []
    case _ => th.events
  }

  function Count(events: seq<nat>, e: nat): nat
  {
    multiset(events)[e]
  }

  function InFlight(threads: seq<Thread>, e: nat): nat
  {
    if threads == [] then 0 else Count(Held(threads[0]), e) + InFlight(threads[1..], e)
  }

  /** How often an event occurs over the batch, the goroutines, the acknowledged and the discarded. */
  function Places(s: State, e: nat): nat
  {
    Count(s.batch, e) + InFlight(s.threads, e) + Count(s.acked, e) + Count(s.discarded, e)
  }

  /** Every accepted event is in exactly one place, and nothing else is anywhere. */
  ghost predicate Conserved(s: State)
  {
    forall e: nat :: Places(s, e) == if e < s.accepted then 1 else 0
  }

  lemma {:induction false} InFlightUpdate(threads: seq<Thread>, t: nat, th: Thread, e: nat)
    requires t < |threads|
    ensures InFlight(threads[t := th], e) == InFlight(threads, e) - Count(Held(threads[t]), e) + Count(Held(th), e)
  {
    hide Count, Held;
    if t > 0 {
      InFlightUpdate(threads[1..], t - 1, th, e);
      assert threads[t := th][1..] == threads[1..][t - 1 := th];
    } else {
      assert threads[t := th][1..] == threads[1..];
    }
  }

  lemma {:induction false} InFlightSpawn(threads: seq<Thread>, e: nat)
    ensures InFlight(threads + [Idle], e) == InFlight(threads, e)
  {
    if threads == [] {
      assert (threads + [Idle])[1..] == [];
    } else {
      InFlightSpawn(threads[1..], e);
      assert (threads + [Idle])[1..] == threads[1..] + [Idle];
    }
  }

  lemma CountAppend(a: seq<nat>, b: seq<nat>, e: nat)
    ensures Count(a + b, e) == Count(a, e) + Count(b, e)
  {
  }

  lemma {:induction false} CountNew(from: nat, count: nat, e: nat)
    ensures Count(NewEvents(from, count), e) == if from <= e < from + count then 1 else 0
  {
    if count > 0 {
      CountNew(from, count - 1, e);
      assert NewEvents(from, count) == NewEvents(from, count - 1) + [from + count - 1];
    }
  }

  /** A goroutine that hands its events to one of the shared lists, or takes the batch. */
  lemma GotoPlaces(s: State, t: nat, th: Thread, e: nat)
    requires t < |s.threads|
    ensures Places(Goto(s, t, th), e) == Places(s, e) - Count(Held(s.threads[t]), e) + Count(Held(th), e)
  {
    InFlightUpdate(s.threads, t, th, e);
  }

  lemma StepMovesEvents(s: State, a: Action, e: nat)
    requires Enabled(s, a)
    ensures Places(Next(s, a), e) == Places(s, e) + if s.accepted <= e < Next(s, a).accepted then 1 else 0
  {
    hide Count, InFlight;
    assert Count([], e) == 0 by { EmptyCount(e); }
    match a
    case Spawn => InFlightSpawn(s.threads, e);
    case WriteEvent(t) =>
      CountNew(s.accepted, 1, e);
      CountAppend(s.batch, NewEvents(s.accepted, 1), e);
      GotoPlaces(s.(batch := s.batch + NewEvents(s.accepted, 1), accepted := s.accepted + 1), t, Flushing, e);
    case WriteBatch(t, count) =>
      CountNew(s.accepted, count, e);
      CountAppend(s.batch, NewEvents(s.accepted, count), e);
      GotoPlaces(s.(batch := s.batch + NewEvents(s.accepted, count), accepted := s.accepted + count), t, Flushing, e);
    case TakeBatch(t) =>
      GotoPlaces(s, t, Idle, e);
      GotoPlaces(s.(batch := []), t, Posting(s.batch), e);
    case Post(t, true) =>
      CountAppend(s.acked, s.threads[t].events, e);
      GotoPlaces(s.(acked := s.acked + s.threads[t].events), t, Acknowledged, e);
    case Requeue(t) =>
      CountAppend(s.batch, s.threads[t].events, e);
      GotoPlaces(s.(batch := s.batch + s.threads[t].events), t, Idle, e);
    case MarshalFails(t) => DiscardMovesEvents(s, t, e);
    case Drop(t) => DiscardMovesEvents(s.(retryCount := 0), t, e);
    case _ => LocalStepMovesNothing(s, a, e);
  }

  lemma EmptyCount(e: nat)
    ensures Count([], e) == 0
  {
  }

  lemma DiscardMovesEvents(s: State, t: nat, e: nat)
    requires t < |s.threads| && (s.threads[t].Posting? || s.threads[t].Dropping?)
    ensures Places(Goto(s.(discarded := s.discarded + s.threads[t].events), t, Idle), e) == Places(s, e)
  {
    EmptyCount(e);
    CountAppend(s.discarded, s.threads[t].events, e);
    GotoPlaces(s.(discarded := s.discarded + s.threads[t].events), t, Idle, e);
  }

  /** Steps that only touch the counter or move a goroutine along. */
  lemma LocalStepMovesNothing(s: State, a: Action, e: nat)
    requires Enabled(s, a)
    requires a.StartFlush? || a.Post? || a.ResetCount? || a.LoadCount? || a.StoreCount? || a.CheckLimit?
             || a.ComputeBackoff?
    requires a.Post? ==> !a.accepted
    ensures Places(Next(s, a), e) == Places(s, e)
  {
    hide Count;
    InFlightUpdate(s.threads, a.t, Next(s, a).threads[a.t], e);
    EmptyCount(e);
  }

  lemma StepConserves(s: State, a: Action)
    requires Conserved(s) && Enabled(s, a)
    ensures Conserved(Next(s, a))
  {
    hide Places, Next;
    forall e: nat ensures Places(Next(s, a), e) == if e < Next(s, a).accepted then 1 else 0 {
      StepMovesEvents(s, a, e);
      StepGrows(s, a);
    }
  }

  /** Nothing accepted, acknowledged or discarded is ever taken back. */
  lemma StepGrows(s: State, a: Action)
    requires Enabled(s, a)
    ensures s.accepted <= Next(s, a).accepted
    ensures s.acked <= Next(s, a).acked && s.discarded <= Next(s, a).discarded
  {
  }

  /** Conservation at every state of every interleaving. */
  lemma {:induction false} RunConserves(s: State, run: seq<Action>)
    requires Conserved(s) && Exec(s, run).Some?
    ensures Conserved(Exec(s, run).value)
    ensures s.acked <= Exec(s, run).value.acked && s.discarded <= Exec(s, run).value.discarded
    decreases |run|
  {
    if run != [] {
      StepConserves(s, run[0]);
      StepGrows(s, run[0]);
      RunConserves(Next(s, run[0]), run[1..]);
    }
  }

  lemma InitConserved()
    ensures Conserved(INIT)
  {
  }

  /** Whatever the goroutines do, every accepted event is in exactly one place: waiting in the
      batch, held by one goroutine, acknowledged or discarded. */
  lemma EveryInterleavingConserves(run: seq<Action>)
    requires Exec(INIT, run).Some?
    ensures Conserved(Exec(INIT, run).value)
  {
    InitConserved();
    RunConserves(INIT, run);
  }

  lemma {:induction false} HeldInFlight(threads: seq<Thread>, t: nat, e: nat)
    requires t < |threads|
    ensures InFlight(threads, e) >= Count(Held(threads[t]), e)
  {
    if t > 0 { HeldInFlight(threads[1..], t - 1, e); }
  }

  /** Once an event is acknowledged, no later state of the run has it in the batch or in any
      goroutine's hands, so no later post can carry it. */
  lemma AcknowledgedNeverPostedAgain(before: seq<Action>, after: seq<Action>, e: nat, t: nat)
    requires Exec(INIT, before).Some? && e in Exec(INIT, before).value.acked
    requires Exec(Exec(INIT, before).value, after).Some?
    requires t < |Exec(Exec(INIT, before).value, after).value.threads|
    ensures var s := Exec(Exec(INIT, before).value, after).value;
            e !in s.batch && e !in Held(s.threads[t]) && e !in s.discarded
  {
    hide Exec;
    InitConserved();
    RunConserves(INIT, before);
    var s := Exec(INIT, before).value;
    RunConserves(s, after);
    var s' := Exec(s, after).value;
    assert e in s'.acked;
    assert Count(s'.acked, e) >= 1;
    assert Places(s', e) <= 1;
    HeldInFlight(s'.threads, t, e);
    assert Count(Held(s'.threads[t]), e) == 0;
  }

  // ---------------------------------------------------------------------------
  // A flush that is not interrupted
  // ---------------------------------------------------------------------------

  function Observed(s: State): Client<nat>
  {
    Client(s.batch, s.retryCount, s.acked, s.discarded, 0, 0, [])
  }

  /** The steps of one goroutine's flush when no other goroutine moves. */
  function FlushRun(s: State, t: nat, result: PostResult): seq<Action>
  {
    if s.batch == [] then [TakeBatch(t)]
    else if result.MarshalError? then [TakeBatch(t), MarshalFails(t)]
    else if result.Success? then [TakeBatch(t), Post(t, true), ResetCount(t)]
    else if s.retryCount + 1 > RETRY_LIMIT then RetryRun(t) + [Drop(t)]
    else RetryRun(t) + [ComputeBackoff(t), Requeue(t)]
  }

  /** A failed post up to the comparison with the retry limit. */
  function RetryRun(t: nat): seq<Action>
  {
    [TakeBatch(t), Post(t, false), LoadCount(t), StoreCount(t), CheckLimit(t)]
  }

  lemma {:induction false} ExecSplit(s: State, first: seq<Action>, second: seq<Action>)
    requires Exec(s, first).Some?
    ensures Exec(s, first + second) == Exec(Exec(s, first).value, second)
    decreases |first|
  {
    if first == [] {
      assert first + second == second;
    } else {
      ExecSplit(Next(s, first[0]), first[1..], second);
      assert (first + second)[1..] == first[1..] + second;
    }
  }

  /** A run extended by one enabled step. */
  lemma ExecStep(s: State, run: seq<Action>, a: Action, longer: seq<Action>)
    requires Exec(s, run).Some? && Enabled(Exec(s, run).value, a) && longer == run + [a]
    ensures Exec(s, longer) == Some(Next(Exec(s, run).value, a))
  {
    ExecSplit(s, run, [a]);
    assert [a][1..] == [];
  }

  lemma ExecNone(s: State)
    ensures Exec(s, []) == Some(s)
  {
  }

  lemma GotoAgain(s: State, t: nat, a: Thread, b: Thread)
    requires t < |s.threads|
    ensures Goto(Goto(s, t, a), t, b) == Goto(s, t, b)
  {
    assert s.threads[t := a][t := b] == s.threads[t := b];
  }

  lemma TakeRun(s: State, t: nat)
    requires t < |s.threads| && s.threads[t].Flushing?
    ensures Exec(s, [TakeBatch(t)]) == Some(Next(s, TakeBatch(t)))
  {
    ExecStep(s, [], TakeBatch(t), [TakeBatch(t)]);
  }

  lemma RetryRunReaches(s: State, t: nat)
    requires t < |s.threads| && s.threads[t].Flushing? && s.batch != []
    ensures Exec(s, RetryRun(t)) == Some(
              Goto(s.(batch := [], retryCount := s.retryCount + 1), t,
                   if s.retryCount + 1 > RETRY_LIMIT then Dropping(s.batch) else BackingOff(s.batch)))
  {
    hide Exec;
    var s0, s1, events, run := s.(batch := []), s.(batch := [], retryCount := s.retryCount + 1), s.batch, RetryRun(t);
    TakeRun(s, t);
    assert run[..1] == [TakeBatch(t)];
    ExecStep(s, run[..1], Post(t, false), run[..2]);
    GotoAgain(s0, t, Posting(events), Failed(events));
    ExecStep(s, run[..2], LoadCount(t), run[..3]);
    GotoAgain(s0, t, Failed(events), Counting(events, s.retryCount));
    ExecStep(s, run[..3], StoreCount(t), run[..4]);
    GotoAgain(s1, t, Counting(events, s.retryCount), Checking(events));
    ExecStep(s, run[..4], CheckLimit(t), run);
    GotoAgain(s1, t, Checking(events), Dropping(events));
    GotoAgain(s1, t, Checking(events), BackingOff(events));
  }

  /** What the serialised client makes of a flush, with the goroutine idle again. */
  function Flushed(s: State, t: nat, result: PostResult): State
    requires t < |s.threads|
  {
    var c := FlushSpec(Observed(s), result);
    State(c.batch, c.retryCount, s.threads[t := Idle], s.accepted, c.delivered, c.discarded)
  }

  lemma FlushedCases(s: State, t: nat, result: PostResult)
    requires t < |s.threads|
    ensures Flushed(s, t, result) ==
            Goto(if s.batch == [] then s
                 else if result.MarshalError? then s.(batch := [], discarded := s.discarded + s.batch)
                 else if result.Success? then s.(batch := [], acked := s.acked + s.batch, retryCount := 0)
                 else if s.retryCount + 1 > RETRY_LIMIT then
                   s.(batch := [], retryCount := 0, discarded := s.discarded + s.batch)
                 else s.(retryCount := s.retryCount + 1), t, Idle)
  {
    hide Backoff;
    assert [] + s.batch == s.batch;
  }

  /** The serialised client is the machine restricted to uninterrupted flushes. */
  lemma FlushRunIsFlush(s: State, t: nat, result: PostResult)
    requires t < |s.threads| && s.threads[t].Flushing?
    ensures Exec(s, FlushRun(s, t, result)) == Some(Flushed(s, t, result))
  {
    hide Exec, FlushRun, RetryRun, Flushed, Goto;
    FlushedCases(s, t, result);
    if s.batch == [] {
      EmptyRun(s, t, result);
    } else if result.MarshalError? {
      DiscardRun(s, t);
    } else if result.Success? {
      AcceptedRun(s, t);
    } else if s.retryCount + 1 > RETRY_LIMIT {
      DropRun(s, t);
    } else {
      RequeueRun(s, t);
    }
  }

  lemma EmptyRun(s: State, t: nat, result: PostResult)
    requires t < |s.threads| && s.threads[t].Flushing? && s.batch == []
    ensures Exec(s, FlushRun(s, t, result)) == Some(Goto(s, t, Idle))
  {
    TakeRun(s, t);
    hide Exec;
  }

  lemma DiscardRun(s: State, t: nat)
    requires t < |s.threads| && s.threads[t].Flushing? && s.batch != []
    ensures Exec(s, FlushRun(s, t, MarshalError)) == Some(
              Goto(s.(batch := [], discarded := s.discarded + s.batch), t, Idle))
  {
    hide Exec;
    var s0, run := s.(batch := []), FlushRun(s, t, MarshalError);
    TakeRun(s, t);
    assert run[..1] == [TakeBatch(t)];
    ExecStep(s, run[..1], MarshalFails(t), run);
    GotoAgain(s0.(discarded := s.discarded + s.batch), t, Posting(s.batch), Idle);
  }

  lemma AcceptedRun(s: State, t: nat)
    requires t < |s.threads| && s.threads[t].Flushing? && s.batch != []
    ensures Exec(s, FlushRun(s, t, Success)) == Some(
              Goto(s.(batch := [], acked := s.acked + s.batch, retryCount := 0), t, Idle))
  {
    hide Exec;
    var s1, run := s.(batch := [], acked := s.acked + s.batch), FlushRun(s, t, Success);
    TakeRun(s, t);
    assert run[..1] == [TakeBatch(t)];
    ExecStep(s, run[..1], Post(t, true), run[..2]);
    GotoAgain(s1, t, Posting(s.batch), Acknowledged);
    ExecStep(s, run[..2], ResetCount(t), run);
    GotoAgain(s1.(retryCount := 0), t, Acknowledged, Idle);
  }

  lemma DropRun(s: State, t: nat)
    requires t < |s.threads| && s.threads[t].Flushing? && s.batch != [] && s.retryCount + 1 > RETRY_LIMIT
    ensures Exec(s, FlushRun(s, t, Failure)) == Some(
              Goto(s.(batch := [], retryCount := 0, discarded := s.discarded + s.batch), t, Idle))
  {
    hide Exec, Backoff;
    RetryRunReaches(s, t);
    ExecStep(s, RetryRun(t), Drop(t), FlushRun(s, t, Failure));
    GotoAgain(s.(batch := [], retryCount := 0, discarded := s.discarded + s.batch), t, Dropping(s.batch), Idle);
  }

  function FirstAction(t: nat, op: Op<nat>): Action
  {
    match op
    case Write(_, _) => WriteEvent(t)
    case WriteAll(events, _) => WriteBatch(t, |events|)
    case Tick(_) => StartFlush(t)
  }

  /** With the call's events in the batch. */
  function Joined(s: State, op: Op<nat>): State
  {
    s.(batch := s.batch + Brought(op), accepted := s.accepted + |Brought(op)|)
  }

  /** The steps of one call when no other goroutine moves. */
  function OpRun(s: State, t: nat, op: Op<nat>): seq<Action>
  {
    [FirstAction(t, op)]
    + if op.Write? && |s.batch| + 1 < 2000 then [] else FlushRun(Joined(s, op), t, op.result)
  }

  /** What the serialised client makes of a call that brings the next events. */
  function Performed(s: State, t: nat, op: Op<nat>): State
    requires t < |s.threads|
  {
    var c := OpSpec(Observed(s), op);
    State(c.batch, c.retryCount, s.threads[t := Idle], s.accepted + |Brought(op)|, c.delivered, c.discarded)
  }

  lemma FirstStep(s: State, t: nat, op: Op<nat>)
    requires t < |s.threads| && s.threads[t].Idle? && Brought(op) == NewEvents(s.accepted, |Brought(op)|)
    ensures Enabled(s, FirstAction(t, op))
    ensures Next(s, FirstAction(t, op))
            == if op.Write? && |s.batch| + 1 < 2000 then Joined(s, op) else Goto(Joined(s, op), t, Flushing)
  {
    assert s.batch + [] == s.batch;
  }

  lemma PerformedCases(s: State, t: nat, op: Op<nat>)
    requires t < |s.threads| && s.threads[t].Idle?
    ensures Performed(s, t, op)
            == if op.Write? && |s.batch| + 1 < 2000 then Joined(s, op) else Flushed(Joined(s, op), t, op.result)
  {
    hide FlushSpec;
    assert s.threads[t := Idle] == s.threads;
    assert s.batch + [] == s.batch;
    assert Observed(Joined(s, op)) == Observed(s).(batch := s.batch + Brought(op));
  }

  /** A call that is not interrupted is a run of the machine that ends in the serialised client's state. */
  lemma OpRunIsOp(s: State, t: nat, op: Op<nat>)
    requires t < |s.threads| && s.threads[t].Idle? && Brought(op) == NewEvents(s.accepted, |Brought(op)|)
    ensures Exec(s, OpRun(s, t, op)) == Some(Performed(s, t, op))
  {
    hide Exec, FlushRun, Performed, Flushed, Next, Enabled, NewEvents, Brought, FirstAction;
    var first, s1 := FirstAction(t, op), Joined(s, op);
    FirstStep(s, t, op);
    PerformedCases(s, t, op);
    ExecNone(s);
    ExecStep(s, [], first, [first]);
    if op.Write? && |s.batch| + 1 < 2000 {
      assert OpRun(s, t, op) == [first];
    } else {
      FlushAfter(s1, t, op.result);
      ExecSplit(s, [first], FlushRun(s1, t, op.result));
    }
  }

  lemma FlushAfter(s: State, t: nat, result: PostResult)
    requires t < |s.threads|
    ensures Exec(Goto(s, t, Flushing), FlushRun(s, t, result)) == Some(Flushed(s, t, result))
  {
    var s' := Goto(s, t, Flushing);
    FlushRunIsFlush(s', t, result);
    assert s'.threads[t := Idle] == s.threads[t := Idle];
    assert FlushRun(s', t, result) == FlushRun(s, t, result);
    hide Exec, FlushRun;
  }

  lemma RequeueRun(s: State, t: nat)
    requires t < |s.threads| && s.threads[t].Flushing? && s.batch != [] && s.retryCount + 1 <= RETRY_LIMIT
    ensures Exec(s, FlushRun(s, t, Failure)) == Some(Goto(s.(retryCount := s.retryCount + 1), t, Idle))
  {
    hide Exec, Backoff;
    RetryRunReaches(s, t);
    var s1, events, run := s.(batch := [], retryCount := s.retryCount + 1), s.batch, FlushRun(s, t, Failure);
    var sleep := Backoff(s.retryCount + 1);
    ExecStep(s, RetryRun(t), ComputeBackoff(t), run[..6]);
    GotoAgain(s1, t, BackingOff(events), Sleeping(events, sleep));
    ExecStep(s, run[..6], Requeue(t), run);
    assert [] + events == events;
    GotoAgain(s1.(batch := events), t, Sleeping(events, sleep), Idle);
  }

  /** The steps of one goroutine's retry when no other goroutine moves. */
  function RetrySteps(s: State, t: nat): seq<Action>
  {
    [LoadCount(t), StoreCount(t), CheckLimit(t)]
    + if s.retryCount + 1 > 100 then [Drop(t)] else [ComputeBackoff(t), Requeue(t)]
  }

  /** Whatever others have queued since the batch was taken, a retry that is not interrupted ends in
      the serialised client's state: the events go behind the batch, or are given up. */
  lemma RetryStepsAreRetry(s: State, t: nat)
    requires t < |s.threads| && s.threads[t].Failed?
    ensures var c := RetrySpec(Observed(s), s.threads[t].events);
            Exec(s, RetrySteps(s, t)) == Some(
              State(c.batch, c.retryCount, s.threads[t := Idle], s.accepted, c.delivered, c.discarded))
  {
    hide Exec, RetrySteps, Backoff;
    if s.retryCount + 1 > 100 { RetryDrops(s, t); } else { RetryRequeues(s, t); }
  }

  lemma RetryDrops(s: State, t: nat)
    requires t < |s.threads| && s.threads[t].Failed? && s.retryCount + 1 > 100
    ensures Exec(s, RetrySteps(s, t)) == Some(
              Goto(s.(retryCount := 0, discarded := s.discarded + s.threads[t].events), t, Idle))
  {
    hide Exec, Backoff;
    var events, run := s.threads[t].events, RetrySteps(s, t);
    CountedRun(s, t);
    ExecStep(s, run[..3], Drop(t), run);
    GotoAgain(s.(retryCount := 0, discarded := s.discarded + events), t, Dropping(events), Idle);
  }

  lemma RetryRequeues(s: State, t: nat)
    requires t < |s.threads| && s.threads[t].Failed? && s.retryCount + 1 <= 100
    ensures Exec(s, RetrySteps(s, t)) == Some(
              Goto(s.(retryCount := s.retryCount + 1, batch := s.batch + s.threads[t].events), t, Idle))
  {
    hide Exec, Backoff;
    var events, run := s.threads[t].events, RetrySteps(s, t);
    var s1, sleep := s.(retryCount := s.retryCount + 1), Backoff(s.retryCount + 1);
    CountedRun(s, t);
    ExecStep(s, run[..3], ComputeBackoff(t), run[..4]);
    GotoAgain(s1, t, BackingOff(events), Sleeping(events, sleep));
    ExecStep(s, run[..4], Requeue(t), run);
    GotoAgain(s1.(batch := s.batch + events), t, Sleeping(events, sleep), Idle);
  }

  lemma LoadStep(s: State, t: nat)
    requires t < |s.threads| && s.threads[t].Failed?
    ensures Enabled(s, LoadCount(t))
    ensures Next(s, LoadCount(t)) == Goto(s, t, Counting(s.threads[t].events, s.retryCount))
  {
    hide Backoff, NewEvents;
  }

  lemma StoreStep(s: State, t: nat, events: seq<nat>, loaded: int)
    requires t < |s.threads|
    ensures var counting := Goto(s, t, Counting(events, loaded));
            && Enabled(counting, StoreCount(t))
            && Next(counting, StoreCount(t)) == Goto(s.(retryCount := loaded + 1), t, Checking(events))
  {
    hide Backoff, NewEvents;
    GotoAgain(s.(retryCount := loaded + 1), t, Counting(events, loaded), Checking(events));
  }

  lemma StoredRun(s: State, t: nat)
    requires t < |s.threads| && s.threads[t].Failed?
    ensures Exec(s, [LoadCount(t), StoreCount(t)])
            == Some(Goto(s.(retryCount := s.retryCount + 1), t, Checking(s.threads[t].events)))
  {
    hide Exec, Next, Enabled, Goto;
    LoadStep(s, t);
    StoreStep(s, t, s.threads[t].events, s.retryCount);
    ExecNone(s);
    ExecStep(s, [], LoadCount(t), [LoadCount(t)]);
    ExecStep(s, [LoadCount(t)], StoreCount(t), [LoadCount(t), StoreCount(t)]);
  }

  lemma CountedRun(s: State, t: nat)
    requires t < |s.threads| && s.threads[t].Failed?
    ensures var events := s.threads[t].events;
            Exec(s, RetrySteps(s, t)[..3]) == Some(
              Goto(s.(retryCount := s.retryCount + 1), t,
                   if s.retryCount + 1 > 100 then Dropping(events) else BackingOff(events)))
  {
    hide Exec, Backoff;
    var events, run := s.threads[t].events, [LoadCount(t), StoreCount(t)];
    var s1 := s.(retryCount := s.retryCount + 1);
    assert RetrySteps(s, t)[..3] == run + [CheckLimit(t)];
    StoredRun(s, t);
    ExecStep(s, run, CheckLimit(t), run + [CheckLimit(t)]);
    GotoAgain(s1, t, Checking(events), Dropping(events));
    GotoAgain(s1, t, Checking(events), BackingOff(events));
  }

  /** A goroutine whose post failed sleeps as long as the serialised client does. */
  lemma SleepsAlike(s: State, t: nat)
    requires t < |s.threads| && s.threads[t].Flushing? && s.batch != [] && s.retryCount < 100
    ensures var r := Exec(s, RetryRun(t) + [ComputeBackoff(t)]);
            && r.Some? && t < |r.value.threads| && r.value.threads[t].Sleeping?
            && FlushSpec(Observed(s), Failure).streakSleeps == [r.value.threads[t].duration]
  {
    hide Exec, Backoff;
    RetryRunReaches(s, t);
    ExecStep(s, RetryRun(t), ComputeBackoff(t), RetryRun(t) + [ComputeBackoff(t)]);
  }

  // ---------------------------------------------------------------------------
  // The counter is not guarded
  // ---------------------------------------------------------------------------

  /** A run from the start, extended by one enabled step. */
  lemma Take(run: seq<Action>, s: State, a: Action) returns (longer: seq<Action>)
    requires Exec(INIT, run) == Some(s) && Enabled(s, a)
    ensures Exec(INIT, longer) == Some(Next(s, a))
  {
    hide Next;
    longer := run + [a];
    ExecStep(INIT, run, a, longer);
  }

  /** An idle goroutine writes an event and its post fails. */
  lemma FailOnce(run: seq<Action>, s: State, t: nat) returns (longer: seq<Action>)
    requires Exec(INIT, run) == Some(s) && s.batch == [] && t < |s.threads| && s.threads[t].Idle?
    ensures Exec(INIT, longer) == Some(Goto(s.(accepted := s.accepted + 1), t, Failed([s.accepted])))
  {
    hide Exec;
    var s0, e := s.(accepted := s.accepted + 1), [s.accepted];
    assert [] + NewEvents(s.accepted, 1) == e;
    longer := Take(run, s, WriteBatch(t, 1));
    longer := Take(longer, Goto(s0.(batch := e), t, Flushing), TakeBatch(t));
    GotoAgain(s0, t, Flushing, Posting(e));
    longer := Take(longer, Goto(s0, t, Posting(e)), Post(t, false));
    GotoAgain(s0, t, Posting(e), Failed(e));
  }

  /** Two goroutines with nothing queued, one holding a loaded counter and one about to load it. */
  predicate Contested(s: State, n: int, t: nat)
  {
    && s.batch == [] && |s.threads| == 2 && t < 2
    && s.threads[t].Counting? && s.threads[t].loaded == n && s.threads[t].events != []
    && s.threads[1 - t].Failed? && s.threads[1 - t].events != []
  }

  lemma StartContested() returns (run: seq<Action>, s: State)
    ensures Exec(INIT, run) == Some(s) && Contested(s, 0, 0) && s.retryCount == 0
  {
    hide Exec;
    ExecNone(INIT);
    run := Take([], INIT, Spawn);
    run := Take(run, Next(INIT, Spawn), Spawn);
    s := Next(Next(INIT, Spawn), Spawn);
    run := FailOnce(run, s, 0);
    s := Goto(s.(accepted := s.accepted + 1), 0, Failed([s.accepted]));
    run := FailOnce(run, s, 1);
    s := Goto(s.(accepted := s.accepted + 1), 1, Failed([s.accepted]));
    run := Take(run, s, LoadCount(0));
    s := Next(s, LoadCount(0));
  }

  /** Two failed posts that interleave can count as one. */
  lemma LostIncrement()
    ensures exists run :: Exec(INIT, run).Some? && |Exec(INIT, run).value.threads| == 2
                          && Exec(INIT, run).value.retryCount == 1
                          && Exec(INIT, run).value.threads[0].Checking? && Exec(INIT, run).value.threads[1].Checking?
  {
    hide Exec;
    var run, s := StartContested();
    run := Take(run, s, LoadCount(1));
    s := Next(s, LoadCount(1));
    run := Take(run, s, StoreCount(0));
    s := Next(s, StoreCount(0));
    run := Take(run, s, StoreCount(1));
  }

  /** One goroutine stores its stale value, the other loads it, and the first gives up or retries and
      fails again: the roles are swapped and the value has grown by one. */
  lemma HandOver(run: seq<Action>, s: State, n: int, t: nat) returns (longer: seq<Action>, s': State)
    requires Exec(INIT, run) == Some(s) && Contested(s, n, t)
    ensures Exec(INIT, longer) == Some(s') && Contested(s', n + 1, 1 - t)
  {
    hide Exec, Backoff;
    var s1 := Next(s, StoreCount(t));
    longer := Take(run, s, StoreCount(t));
    var s2 := Next(s1, LoadCount(1 - t));
    longer := Take(longer, s1, LoadCount(1 - t));
    s' := Next(s2, CheckLimit(t));
    longer := Take(longer, s2, CheckLimit(t));
    assert s'.batch == [] && |s'.threads| == 2;
    assert s'.threads[1 - t].Counting? && s'.threads[1 - t].loaded == n + 1;
    if n + 1 > RETRY_LIMIT {
      longer := Take(longer, s', Drop(t));
      s' := Next(s', Drop(t));
      longer := FailOnce(longer, s', t);
      s' := Goto(s'.(accepted := s'.accepted + 1), t, Failed([s'.accepted]));
    } else {
      longer, s' := RetryAgain(longer, s', t);
    }
  }

  /** A goroutine that backs off, requeues its events and fails to post them again. */
  lemma RetryAgain(run: seq<Action>, s: State, t: nat) returns (longer: seq<Action>, s': State)
    requires Exec(INIT, run) == Some(s) && s.batch == [] && t < |s.threads| && s.threads[t].BackingOff?
             && s.threads[t].events != []
    ensures Exec(INIT, longer) == Some(s') && s'.batch == [] && |s'.threads| == |s.threads|
    ensures s'.threads[t].Failed? && s'.threads[t].events != []
    ensures forall u :: 0 <= u < |s.threads| && u != t ==> s'.threads[u] == s.threads[u]
  {
    hide Exec, Backoff;
    longer, s' := run, s;
    longer := Take(longer, s', ComputeBackoff(t));
    s' := Next(s', ComputeBackoff(t));
    longer := Take(longer, s', Requeue(t));
    s' := Next(s', Requeue(t));
    longer := Take(longer, s', StartFlush(t));
    s' := Next(s', StartFlush(t));
    longer := Take(longer, s', TakeBatch(t));
    s' := Next(s', TakeBatch(t));
    longer := Take(longer, s', Post(t, false));
    s' := Next(s', Post(t, false));
  }

  lemma {:induction false} ReachContested(n: nat) returns (run: seq<Action>, s: State, t: nat)
    ensures t < 2 && Exec(INIT, run) == Some(s) && Contested(s, n, t)
  {
    hide Exec, Contested;
    if n == 0 {
      run, s := StartContested();
      t := 0;
    } else {
      run, s, t := ReachContested(n - 1);
      run, s := HandOver(run, s, n - 1, t);
      t := 1 - t;
    }
  }

  /** With two goroutines the counter has no bound: one stores a value that the other loads before
      the first resets it, and so on. */
  lemma CounterUnbounded(k: nat)
    ensures exists run :: Exec(INIT, run).Some? && |Exec(INIT, run).value.threads| == 2
                          && Exec(INIT, run).value.retryCount == k
  {
    hide Exec;
    if k == 0 {
      var run, s := StartContested();
    } else {
      var run, s, t := ReachContested(k - 1);
      run := Take(run, s, StoreCount(t));
    }
  }

  // ---------------------------------------------------------------------------
  // A single goroutine keeps the counter bounded
  // ---------------------------------------------------------------------------

  /** The counter's range at each point of the only goroutine. */
  predicate CountedBy(th: Thread, count: int)
  {
    match th
    case Counting(_, loaded) => loaded == count && 0 <= count <= RETRY_LIMIT
    case Checking(_) => 0 <= count <= RETRY_LIMIT + 1
    case Dropping(_) => 0 <= count <= RETRY_LIMIT + 1
    case _ => 0 <= count <= RETRY_LIMIT
  }

  predicate Alone(s: State)
  {
    if s.threads == [] then s.retryCount == 0 else |s.threads| == 1 && CountedBy(s.threads[0], s.retryCount)
  }

  lemma StepKeepsAlone(s: State, a: Action)
    requires Alone(s) && Enabled(s, a) && |Next(s, a).threads| <= 1
    ensures Alone(Next(s, a))
  {
    hide Backoff, NewEvents;
  }

  lemma ThreadsStay(s: State, a: Action)
    requires Enabled(s, a)
    ensures |Next(s, a).threads| >= |s.threads|
  {
    hide Backoff, NewEvents;
  }

  lemma {:induction false} RunThreadsStay(s: State, run: seq<Action>)
    requires Exec(s, run).Some?
    ensures |Exec(s, run).value.threads| >= |s.threads|
    decreases |run|
  {
    hide Next, Enabled;
    if run != [] {
      ThreadsStay(s, run[0]);
      RunThreadsStay(Next(s, run[0]), run[1..]);
    }
  }

  lemma {:induction false} RunKeepsAlone(s: State, run: seq<Action>)
    requires Alone(s) && Exec(s, run).Some? && |Exec(s, run).value.threads| <= 1
    ensures Alone(Exec(s, run).value)
    decreases |run|
  {
    hide Alone, Next, Enabled;
    if run != [] {
      RunThreadsStay(Next(s, run[0]), run[1..]);
      StepKeepsAlone(s, run[0]);
      RunKeepsAlone(Next(s, run[0]), run[1..]);
    }
  }

  predicate CounterInRange(s: State)
  {
    0 <= s.retryCount <= RETRY_LIMIT + 1
  }

  /** The unguarded counter stays in range in every interleaving exactly when there is at most one
      goroutine. */
  lemma CounterBoundedIff(n: nat)
    ensures (forall run :: Exec(INIT, run).Some? && |Exec(INIT, run).value.threads| <= n ==>
                             CounterInRange(Exec(INIT, run).value))
            <==> n <= 1
  {
    hide Exec;
    if n <= 1 {
      forall run | Exec(INIT, run).Some? && |Exec(INIT, run).value.threads| <= n
        ensures CounterInRange(Exec(INIT, run).value)
      {
        RunKeepsAlone(INIT, run);
      }
    } else {
      CounterUnbounded(RETRY_LIMIT + 2);
    }
  }
}
