/**
 The pod cache of internal/k8s/enricher.go, keyed by formatPID, against asking the
 Kubernetes client directly.
 */
module PodKeys {
  import opened Bytes

  const REPLACEMENT := 0xFFFD

  predicate IsScalar(c: int)
  {
    0 <= c < 0xD800 || 0xE000 <= c <= 0x10FFFF
  }

  /** UTF-8, section 3 of RFC 3629. */
  function Utf8(c: int): (s: seq<byte>)
    requires IsScalar(c)
  {
    if c < 0x80 then [c]
    else if c < 0x800 then [0xC0 + c / 64, 0x80 + c % 64]
    else if c < 0x10000 then [0xE0 + c / 4096, 0x80 + c / 64 % 64, 0x80 + c % 64]
    else [0xF0 + c / 262144, 0x80 + c / 4096 % 64, 0x80 + c / 64 % 64, 0x80 + c % 64]
  }

  /** Reads back what `Utf8` wrote. */
  function FromUtf8(s: seq<byte>): int
  {
    if |s| == 1 then s[0]
    else if |s| == 2 then (s[0] as int - 0xC0) * 64 + (s[1] as int - 0x80)
    else if |s| == 3 then (s[0] as int - 0xE0) * 4096 + (s[1] as int - 0x80) * 64 + (s[2] as int - 0x80)
    else if |s| == 4 then
      (s[0] as int - 0xF0) * 262144 + (s[1] as int - 0x80) * 4096 + (s[2] as int - 0x80) * 64 + (s[3] as int - 0x80)
    else -1
  }

  lemma Utf8RoundTrip(c: int)
    requires IsScalar(c)
    ensures FromUtf8(Utf8(c)) == c
  {
    assert c / 64 / 64 == c / 4096 && c / 4096 / 64 == c / 262144;
  }

  /** `rune(pid)`: the 32 bits read as a signed number. */
  function Rune(pid: nat): int
    requires pid < TWO_32
  {
    if pid >= 0x8000_0000 then pid - TWO_32 else pid
  }

  /** The code point that string(rune(pid)) encodes. */
  function CodePoint(pid: nat): (c: int)
    requires pid < TWO_32
    ensures IsScalar(c)
  {
    if IsScalar(Rune(pid)) then Rune(pid) else REPLACEMENT
  }

  function FormatPid(pid: nat): (key: seq<byte>)
    requires pid < TWO_32
  {
    Utf8(CodePoint(pid))
  }

  /** The key is the UTF-8 form of the pid itself if that is a Unicode scalar value, and of U+FFFD
      otherwise. */
  lemma KeyMeaning(pid: nat)
    requires pid < TWO_32
    ensures FromUtf8(FormatPid(pid)) == if pid < 0xD800 || 0xE000 <= pid <= 0x10FFFF then pid else 0xFFFD
  {
    Utf8RoundTrip(CodePoint(pid));
    hide Utf8, FromUtf8;
  }

  /** Pids share a cache entry exactly when they are equal or both print as the replacement
      character: 0xFFFD itself, the surrogates and everything above 0x10FFFF. */
  lemma SharedKeyIff(p: nat, q: nat)
    requires p < TWO_32 && q < TWO_32
    ensures FormatPid(p) == FormatPid(q) <==>
              p == q || ((!IsScalar(p) || p == REPLACEMENT) && (!IsScalar(q) || q == REPLACEMENT))
  {
    Utf8RoundTrip(CodePoint(p));
    Utf8RoundTrip(CodePoint(q));
    hide Utf8, FromUtf8;
  }
}

module PodCache {
  import opened Bytes
  import opened PodKeys

  type Pid = p: nat | p < TWO_32
  type Key = seq<byte>

  datatype PodInfo = PodInfo(name: string, namespace: string, uid: string, nodeName: string,
                             labels: map<string, string>, containers: seq<string>)

  /** The pod that Enrich works with: the cached one, or else what the client answers. */
  function PodUsed(cache: map<Key, PodInfo>, pid: Pid, lookup: Option<PodInfo>): Option<PodInfo>
  {
    if FormatPid(pid) in cache then Some(cache[FormatPid(pid)]) else lookup
  }

  /** The Kubernetes fields of an event. */
  class EnrichedEvent {
    var podName: string
    var podNamespace: string
    var podUid: string
    var nodeName: string
    var labels: map<string, string>
    var containerName: string

    twostate predicate FilledFrom(pod: PodInfo)
      reads this
    {
      && podName == pod.name && podNamespace == pod.namespace && podUid == pod.uid
      && nodeName == pod.nodeName && labels == pod.labels
      && containerName == if pod.containers != [] then pod.containers[0] else old(containerName)
    }

    twostate predicate OnlyNode(name: string)
      reads this
    {
      && podName == old(podName) && podNamespace == old(podNamespace) && podUid == old(podUid)
      && nodeName == name && labels == old(labels) && containerName == old(containerName)
    }
  }

  /** Whether the enricher runs, and whether its stop channel has been closed. */
  datatype Lifecycle = Lifecycle(running: bool, closed: bool)

  datatype Switch = Start | Stop

  /** Start keeps the old channel, and closing a closed channel panics. */
  function SwitchSpec(l: Lifecycle, op: Switch): Outcome<Lifecycle, ()>
  {
    match op
    case Start => Ok(l.(running := true))
    case Stop => if !l.running then Ok(l) else if l.closed then Panic else Ok(Lifecycle(false, true))
  }

  class EventEnricher {
    var podCache: map<Key, PodInfo>
    var running: bool
    var stopClosed: bool
    var connected: bool
    var nodeName: string

    constructor (connected: bool, nodeName: string)
      ensures podCache == map[] && !running && !stopClosed
      ensures this.connected == connected && this.nodeName == nodeName
    {
      podCache, running, stopClosed := map[], false, false;
      this.connected, this.nodeName := connected, nodeName;
    }

    method Start()
      modifies this`running
      ensures SwitchSpec(old(Lifecycle(running, stopClosed)), Switch.Start) == Ok(Lifecycle(running, stopClosed))
    {
      if running { return; }
      running := true;
    }

    method Stop() returns (r: Outcome<(), ()>)
      modifies this`running, this`stopClosed
      ensures match SwitchSpec(old(Lifecycle(running, stopClosed)), Switch.Stop)
              case Ok(l) => r.Ok? && l == Lifecycle(running, stopClosed)
              case _ => r.Panic? && unchanged(this)
    {
      if !running { return Ok(()); }
      if stopClosed { return Panic; }
      stopClosed := true;
      running := false;
      r := Ok(());
    }

    /** `lookup` is what GetPodByPID answers for this pid now; `evicted` is what the LRU drops. */
    method Enrich(pid: Pid, event: EnrichedEvent?, lookup: Option<PodInfo>, evicted: set<Key>)
        returns (r: EnrichedEvent?)
      modifies this`podCache, event
      ensures r == event
      ensures event == null || !running || !connected ==> podCache == old(podCache)
      ensures event != null && (!running || !connected) ==> unchanged(event)
      ensures event != null && running && connected ==>
                (if FormatPid(pid) in old(podCache) then event.FilledFrom(old(podCache)[FormatPid(pid)])
                 else match lookup
                      case Some(pod) => event.FilledFrom(pod)
                      case None => event.OnlyNode(nodeName))
      ensures event != null && running && connected ==>
                podCache == if FormatPid(pid) in old(podCache) || lookup.None? then old(podCache)
                            else old(podCache)[FormatPid(pid) := lookup.value] - evicted
    {
      r := event;
      if event == null || !running || !connected { return; }
      var pod := GetPodFromCache(pid);
      if pod.None? {
        pod := lookup;
        if pod.Some? { AddToCache(pid, pod.value, evicted); }
      }
      if pod.Some? {
        event.podName, event.podNamespace := pod.value.name, pod.value.namespace;
        event.podUid, event.nodeName := pod.value.uid, pod.value.nodeName;
        event.labels := pod.value.labels;
        if |pod.value.containers| > 0 { event.containerName := pod.value.containers[0]; }
      } else {
        event.nodeName := nodeName;
      }
    }

    method GetPodFromCache(pid: Pid) returns (pod: Option<PodInfo>)
      ensures pod == PodUsed(podCache, pid, None)
    {
      var key := FormatPid(pid);
      pod := if key in podCache then Some(podCache[key]) else None;
    }

    method AddToCache(pid: Pid, pod: PodInfo, evicted: set<Key>)
      modifies this`podCache
      ensures podCache == old(podCache)[FormatPid(pid) := pod] - evicted
    {
      podCache := podCache[FormatPid(pid) := pod] - evicted;
    }

    method InvalidateCache(pid: Pid)
      modifies this`podCache
      ensures podCache == old(podCache) - {FormatPid(pid)}
    {
      podCache := podCache - {FormatPid(pid)};
    }

    method InvalidateAllCache()
      modifies this`podCache
      ensures podCache == map[]
    {
      podCache := map[];
    }
  }

  // ---------------------------------------------------------------------------
  // Starting and stopping
  // ---------------------------------------------------------------------------

  function SwitchAll(l: Lifecycle, ops: seq<Switch>): Outcome<Lifecycle, ()>
    decreases |ops|
  {
    if ops == [] then Ok(l)
    else
      match SwitchSpec(l, ops[0])
      case Fail(e) => Fail(e)
      case Panic => Panic
      case Ok(l') => SwitchAll(l', ops[1..])
  }

  /** The pattern occurs in order, with anything in between. */
  predicate Occurs(pattern: seq<Switch>, ops: seq<Switch>)
    decreases |pattern|
  {
    pattern == []
    || exists k :: 0 <= k < |ops| && ops[k] == pattern[0] && Occurs(pattern[1..], ops[k + 1..])
  }

  lemma OccursLater(pattern: seq<Switch>, ops: seq<Switch>, k: nat)
    requires k <= |ops| && Occurs(pattern, ops[k..])
    ensures Occurs(pattern, ops)
  {
    if pattern != [] {
      var i :| 0 <= i < |ops[k..]| && ops[k..][i] == pattern[0] && Occurs(pattern[1..], ops[k..][i + 1..]);
      assert ops[k + i] == pattern[0] && ops[k + i + 1..] == ops[k..][i + 1..];
    }
  }

  /** The first operation serves the pattern if it can, and is passed over if it cannot. */
  lemma OccursFirst(pattern: seq<Switch>, ops: seq<Switch>)
    requires pattern != [] && ops != []
    ensures Occurs(pattern, ops) <==> Occurs(if ops[0] == pattern[0] then pattern[1..] else pattern, ops[1..])
  {
    if Occurs(pattern, ops) {
      var k :| 0 <= k < |ops| && ops[k] == pattern[0] && Occurs(pattern[1..], ops[k + 1..]);
      if ops[0] == pattern[0] {
        assert ops[k + 1..] == ops[1..][k..];
        OccursLater(pattern[1..], ops[1..], k);
      } else {
        assert ops[1..][k - 1] == pattern[0] && ops[1..][k - 1 + 1..] == ops[k + 1..];
      }
    }
    if Occurs(if ops[0] == pattern[0] then pattern[1..] else pattern, ops[1..]) && ops[0] != pattern[0] {
      OccursLater(pattern, ops, 1);
    }
  }

  /** What is still to come before Stop closes the channel a second time. */
  function Remaining(l: Lifecycle): seq<Switch>
  {
    if l.closed then (if l.running then [Stop] else [Start, Stop])
    else if l.running then [Stop, Start, Stop]
    else [Start, Stop, Start, Stop]
  }

  lemma {:induction false} SwitchesPanicIff(l: Lifecycle, ops: seq<Switch>)
    ensures SwitchAll(l, ops).Panic? <==> Occurs(Remaining(l), ops)
    decreases |ops|
  {
    if ops != [] {
      OccursFirst(Remaining(l), ops);
      if SwitchSpec(l, ops[0]).Ok? {
        var l' := SwitchSpec(l, ops[0]).value;
        SwitchesPanicIff(l', ops[1..]);
        assert Remaining(l') == if ops[0] == Remaining(l)[0] then Remaining(l)[1..] else Remaining(l);
      }
    }
  }

  /** A new enricher panics exactly when it is started, stopped, started and stopped again. */
  lemma RestartPanicsIff(ops: seq<Switch>)
    ensures SwitchAll(Lifecycle(false, false), ops).Panic? <==> Occurs([Start, Stop, Start, Stop], ops)
  {
    SwitchesPanicIff(Lifecycle(false, false), ops);
  }

  // ---------------------------------------------------------------------------
  // Histories
  // ---------------------------------------------------------------------------

  /** A goroutine inside Enrich, holding the read lock. */
  datatype Reader = Missed(pid: Pid) | Adding(pid: Pid, pod: PodInfo)

  /** `given` are the answers of direct lookup since each pid's last invalidation. */
  datatype State = State(cache: map<Key, PodInfo>, readers: map<nat, Reader>, given: set<(Pid, PodInfo)>)

  datatype Action =
    | Miss(t: nat, pid: Pid)
    | LookupNone(t: nat)
    | LookupSome(t: nat, pod: PodInfo)
    | Add(t: nat)
    | Evict(key: Key)
    | Invalidate(pid: Pid)
    | InvalidateAll

  const INIT := State(map[], map[], {})

  /** Invalidation takes the write lock, so it waits for every reader. */
  predicate Enabled(s: State, a: Action)
  {
    match a
    case Miss(t, pid) => t !in s.readers && FormatPid(pid) !in s.cache
    case LookupNone(t) => t in s.readers && s.readers[t].Missed?
    case LookupSome(t, _) => t in s.readers && s.readers[t].Missed?
    case Add(t) => t in s.readers && s.readers[t].Adding?
    case Evict(_) => true
    case Invalidate(_) => s.readers == map[]
    case InvalidateAll => s.readers == map[]
  }

  function Next(s: State, a: Action): State
    requires Enabled(s, a)
  {
    match a
    case Miss(t, pid) => s.(readers := s.readers[t := Missed(pid)])
    case LookupNone(t) => s.(readers := s.readers - {t})
    case LookupSome(t, pod) =>
      var pid := s.readers[t].pid;
      s.(readers := s.readers[t := Adding(pid, pod)], given := s.given + {(pid, pod)})
    case Add(t) =>
      var reader := s.readers[t];
      s.(readers := s.readers - {t}, cache := s.cache[FormatPid(reader.pid) := reader.pod])
    case Evict(key) => s.(cache := s.cache - {key})
    case Invalidate(pid) =>
      s.(cache := s.cache - {FormatPid(pid)}, given := set g | g in s.given && g.0 != pid)
    case InvalidateAll => s.(cache := map[], given := {})
  }

  function Exec(s: State, run: seq<Action>): Option<State>
    decreases |run|
  {
    if run == [] then Some(s)
    else if Enabled(s, run[0]) then Exec(Next(s, run[0]), run[1..])
    else None
  }

  /** Only pids of `pids` are looked up. */
  predicate Over(run: seq<Action>, pids: set<Pid>)
  {
    forall i :: 0 <= i < |run| && run[i].Miss? ==> run[i].pid in pids
  }

  /** No two of the pids share a key. */
  predicate KeysDistinct(pids: set<Pid>)
  {
    forall p, q :: p in pids && q in pids && FormatPid(p) == FormatPid(q) ==> p == q
  }

  /** Every cached pod was given by direct lookup for the very pid that finds it. */
  predicate Faithful(s: State, pids: set<Pid>)
  {
    forall p :: p in pids && FormatPid(p) in s.cache ==> (p, s.cache[FormatPid(p)]) in s.given
  }

  predicate Invariant(s: State, pids: set<Pid>)
  {
    && Faithful(s, pids)
    && (forall t :: t in s.readers ==> s.readers[t].pid in pids)
    && (forall t :: t in s.readers && s.readers[t].Adding? ==> (s.readers[t].pid, s.readers[t].pod) in s.given)
  }

  lemma StepKeepsInvariant(s: State, a: Action, pids: set<Pid>)
    requires KeysDistinct(pids) && Invariant(s, pids) && Enabled(s, a) && (a.Miss? ==> a.pid in pids)
    ensures Invariant(Next(s, a), pids)
  {
    hide FormatPid;
  }

  lemma {:induction false} RunKeepsInvariant(s: State, run: seq<Action>, pids: set<Pid>)
    requires KeysDistinct(pids) && Invariant(s, pids) && Over(run, pids) && Exec(s, run).Some?
    ensures Invariant(Exec(s, run).value, pids)
    decreases |run|
  {
    if run != [] {
      hide Invariant, KeysDistinct, Next, Enabled;
      StepKeepsInvariant(s, run[0], pids);
      assert Over(run[1..], pids);
      RunKeepsInvariant(Next(s, run[0]), run[1..], pids);
    }
  }

  /** Over a set of pids, every history of concurrent lookups, evictions and invalidations serves
      each pid only pods given for that pid since its last invalidation, exactly when no two of
      the pids share a key. */
  lemma FaithfulIff(pids: set<Pid>)
    ensures (forall run :: Over(run, pids) && Exec(INIT, run).Some? ==> Faithful(Exec(INIT, run).value, pids))
            <==> KeysDistinct(pids)
  {
    if KeysDistinct(pids) {
      forall run | Over(run, pids) && Exec(INIT, run).Some? ensures Faithful(Exec(INIT, run).value, pids) {
        RunKeepsInvariant(INIT, run, pids);
      }
    } else {
      var p, q :| p in pids && q in pids && FormatPid(p) == FormatPid(q) && p != q;
      var run := LookupRun(0, p, SOME_POD);
      LookupRunIsEnrich(INIT, 0, p, SOME_POD);
      assert Over(run, pids) && !Faithful(Exec(INIT, run).value, pids);
    }
  }

  const SOME_POD := PodInfo("a", "b", "c", "d", map[], [])

  /** The steps of one Enrich that misses and is answered. */
  function LookupRun(t: nat, pid: Pid, pod: PodInfo): seq<Action>
  {
    [Miss(t, pid), LookupSome(t, pod), Add(t)]
  }

  /** A call of Enrich that is not interrupted changes the cache as the method does. */
  lemma LookupRunIsEnrich(s: State, t: nat, pid: Pid, pod: PodInfo)
    requires t !in s.readers && FormatPid(pid) !in s.cache
    ensures Exec(s, LookupRun(t, pid, pod))
            == Some(State(s.cache[FormatPid(pid) := pod], s.readers, s.given + {(pid, pod)}))
  {
    hide FormatPid;
    var run := LookupRun(t, pid, pod);
    var s1 := Next(s, run[0]);
    var s2 := Next(s1, run[1]);
    var s3 := Next(s2, run[2]);
    assert s3.readers == s.readers;
    assert run[1..][1..] == [run[2]] && [run[2]][1..] == [];
    assert Exec(s3, []) == Some(s3);
    assert Exec(s2, [run[2]]) == Some(s3);
    assert Exec(s1, run[1..]) == Some(s3);
  }

  /** Scalar-value pids never collide. */
  lemma ScalarsDistinct(pids: set<Pid>)
    requires forall p :: p in pids ==> IsScalar(p)
    ensures KeysDistinct(pids)
  {
    forall p, q | p in pids && q in pids && FormatPid(p) == FormatPid(q) ensures p == q {
      SharedKeyIff(p, q);
    }
  }

  /** When direct lookup is a fixed function of the pid, the cache never changes the answer. */
  lemma StableLookupUnchanged(run: seq<Action>, pids: set<Pid>, lookup: Pid -> Option<PodInfo>, p: Pid)
    requires KeysDistinct(pids) && Over(run, pids) && Exec(INIT, run).Some? && p in pids
    requires forall g :: g in Exec(INIT, run).value.given ==> lookup(g.0) == Some(g.1)
    ensures PodUsed(Exec(INIT, run).value.cache, p, lookup(p)) == lookup(p)
  {
    RunKeepsInvariant(INIT, run, pids);
  }

  // ---------------------------------------------------------------------------
  // A cached pod is kept
  // ---------------------------------------------------------------------------

  /** The key holds the pod, and no goroutine is on its way to add another one. */
  predicate Holds(s: State, key: Key, pod: PodInfo)
  {
    && key in s.cache && s.cache[key] == pod
    && forall t :: t in s.readers ==> FormatPid(s.readers[t].pid) != key
  }

  predicate Removes(a: Action, key: Key)
  {
    match a
    case Evict(k) => k == key
    case Invalidate(pid) => FormatPid(pid) == key
    case InvalidateAll => true
    case _ => false
  }

  lemma StepHolds(s: State, a: Action, key: Key, pod: PodInfo)
    requires Holds(s, key, pod) && Enabled(s, a) && !Removes(a, key)
    ensures Holds(Next(s, a), key, pod)
  {
    hide FormatPid;
  }

  lemma {:induction false} RunHolds(s: State, run: seq<Action>, key: Key, pod: PodInfo)
    requires Holds(s, key, pod) && Exec(s, run).Some? && forall i :: 0 <= i < |run| ==> !Removes(run[i], key)
    ensures Holds(Exec(s, run).value, key, pod)
    decreases |run|
  {
    hide Holds, Removes, Next, Enabled;
    if run != [] {
      StepHolds(s, run[0], key, pod);
      RunHolds(Next(s, run[0]), run[1..], key, pod);
    }
  }

  /** Once looked up, a pod is what every later Enrich of that pid uses, whatever the client would
      answer by then, until its key is evicted or invalidated. */
  lemma CachedPodIsUsed(s: State, t: nat, pid: Pid, pod: PodInfo, run: seq<Action>, lookup: Option<PodInfo>)
    requires t !in s.readers && FormatPid(pid) !in s.cache
    requires forall u :: u in s.readers ==> FormatPid(s.readers[u].pid) != FormatPid(pid)
    requires Exec(s, LookupRun(t, pid, pod)).Some?
    requires Exec(Exec(s, LookupRun(t, pid, pod)).value, run).Some?
    requires forall i :: 0 <= i < |run| ==> !Removes(run[i], FormatPid(pid))
    ensures PodUsed(Exec(Exec(s, LookupRun(t, pid, pod)).value, run).value.cache, pid, lookup) == Some(pod)
  {
    hide Exec, FormatPid, Removes;
    LookupRunIsEnrich(s, t, pid, pod);
    RunHolds(Exec(s, LookupRun(t, pid, pod)).value, run, FormatPid(pid), pod);
  }
}
