/**
 The per-process counters and rankings of pkg/perf/analyzer.go.
 */
module Ranking {
  import opened Bytes

  /** The first `n` positions hold their final elements: nothing behind any of them is larger. */
  ghost predicate Settled<T>(s: seq<T>, key: T -> nat, n: int)
  {
    forall x, y :: 0 <= x < n && x < y < |s| ==> key(s[x]) >= key(s[y])
  }

  /** Exchanging two elements behind the settled part, the later one being larger. */
  lemma ExchangeKeepsSettled<T>(s: seq<T>, t: seq<T>, key: T -> nat, i: int, j: int)
    requires 0 <= i < j < |s| && t == s[i := s[j]][j := s[i]] && Settled(s, key, i)
    ensures Settled(t, key, i)
  {
    forall x, y | 0 <= x < i && x < y < |t| ensures key(t[x]) >= key(t[y]) {
      assert key(s[x]) >= key(s[if y == i then j else if y == j then i else y]);
    }
  }

  lemma ExchangePermutes<T>(s: seq<T>, i: int, j: int)
    requires 0 <= i < j < |s|
    ensures multiset(s[i := s[j]][j := s[i]]) == multiset(s)
  {
  }

  ghost predicate Permutes<T>(s: seq<T>, t: seq<T>)
  {
    multiset(s) == multiset(t)
  }

  method Exchange<T>(a: array<T>, i: nat, j: nat)
    requires i < j < a.Length
    modifies a
    ensures a[..] == old(a[..])[i := old(a[j])][j := old(a[i])]
    ensures Permutes(old(a[..]), a[..])
  {
    ExchangePermutes(a[..], i, j);
    a[i], a[j] := a[j], a[i];
  }

  /** Position `i` holds the largest element up to `j`. */
  ghost predicate Leads<T>(s: seq<T>, key: T -> nat, i: int, j: int)
    requires 0 <= i < |s|
  {
    forall y :: i < y < j && y < |s| ==> key(s[i]) >= key(s[y])
  }

  lemma LeaderSettles<T>(s: seq<T>, key: T -> nat, i: nat)
    requires i < |s| && Settled(s, key, i) && Leads(s, key, i, |s|)
    ensures Settled(s, key, i + 1)
  {
  }

  lemma ExchangeLeads<T>(s: seq<T>, t: seq<T>, key: T -> nat, i: int, j: int)
    requires 0 <= i < j < |s| && t == s[i := s[j]][j := s[i]] && Leads(s, key, i, j) && key(s[j]) > key(s[i])
    ensures Leads(t, key, i, j + 1)
  {
  }

  /** One comparison of the inner loop. */
  method Compare<T>(a: array<T>, key: T -> nat, i: nat, j: nat)
    requires i < j < a.Length && Settled(a[..], key, i) && Leads(a[..], key, i, j)
    modifies a
    ensures Settled(a[..], key, i) && Leads(a[..], key, i, j + 1) && Permutes(old(a[..]), a[..])
  {
    ghost var s := a[..];
    PermutesReflexive(s);
    if key(a[j]) > key(a[i]) {
      Exchange(a, i, j);
      ExchangeKeepsSettled(s, a[..], key, i, j);
      ExchangeLeads(s, a[..], key, i, j);
      hide Settled, Leads, Permutes;
    } else {
      hide Settled, Permutes;
    }
  }

  /** The inner loop: the largest of the unsettled elements comes to position `i`. */
  method SettleNext<T>(a: array<T>, key: T -> nat, i: nat)
    requires i < a.Length && Settled(a[..], key, i)
    modifies a
    ensures Settled(a[..], key, i + 1) && Permutes(old(a[..]), a[..])
  {
    ghost var start := a[..];
    assert Leads(start, key, i, i + 1);
    hide Settled, Leads, Permutes;
    PermutesReflexive(start);
    for j := i + 1 to a.Length
      invariant Settled(a[..], key, i) && Leads(a[..], key, i, j)
      invariant Permutes(start, a[..])
    {
      ghost var s := a[..];
      Compare(a, key, i, j);
      PermutesTransitive(start, s, a[..]);
    }
    LeaderSettles(a[..], key, i);
  }

  lemma PermutesReflexive<T>(s: seq<T>)
    ensures Permutes(s, s)
  {
  }

  lemma PermutesTransitive<T>(s: seq<T>, t: seq<T>, u: seq<T>)
    requires Permutes(s, t) && Permutes(t, u)
    ensures Permutes(s, u)
  {
  }

  /** The nested exchange loops: a descending permutation, in place. */
  method SortDescending<T>(a: array<T>, key: T -> nat)
    modifies a
    ensures Settled(a[..], key, a.Length) && Permutes(old(a[..]), a[..])
  {
    hide Permutes, Settled;
    ghost var start := a[..];
    PermutesReflexive(start);
    assert Settled(a[..], key, 0) by { NothingSettled(a[..], key); }
    for i := 0 to a.Length
      invariant Settled(a[..], key, i) && Permutes(start, a[..])
    {
      ghost var s := a[..];
      SettleNext(a, key, i);
      PermutesTransitive(start, s, a[..]);
    }
  }

  lemma NothingSettled<T>(s: seq<T>, key: T -> nat)
    ensures Settled(s, key, 0)
  {
  }

  /** Every entry names the process it is stored under. */
  ghost predicate Named<T>(m: map<nat, T>, pidOf: T -> nat)
  {
    forall p :: p in m ==> pidOf(m[p]) == p
  }

  /** A ranking: distinct entries of the map in descending order, as many as asked for and there
      are, and no entry left out exceeds one that is in. */
  ghost predicate IsTop<T>(m: map<nat, T>, pidOf: T -> nat, key: T -> nat, n: nat, top: seq<T>)
  {
    && |top| == (if n < |m| then n else |m|)
    && (forall i :: 0 <= i < |top| ==> pidOf(top[i]) in m && m[pidOf(top[i])] == top[i])
    && (forall i, j :: 0 <= i < j < |top| ==> pidOf(top[i]) != pidOf(top[j]))
    && Settled(top, key, |top|)
    && (forall p :: p in m && m[p] !in top ==> forall i :: 0 <= i < |top| ==> key(m[p]) <= key(top[i]))
  }

  /** A place in a ranking is no smaller than any process not ranked up to it. */
  lemma TopExceeds<T>(m: map<nat, T>, pidOf: T -> nat, key: T -> nat, n: nat, top: seq<T>, i: nat, p: nat)
    requires IsTop(m, pidOf, key, n, top) && i < |top| && p in m && pidOf(m[p]) == p
    requires forall j :: 0 <= j <= i ==> pidOf(top[j]) != p
    ensures key(top[i]) >= key(m[p])
  {
    if m[p] in top {
      var k :| 0 <= k < |top| && top[k] == m[p];
      assert k > i;
    }
  }

  ghost predicate NoDuplicates<T>(s: seq<T>)
  {
    forall i, j :: 0 <= i < j < |s| ==> s[i] != s[j]
  }

  /** The values of a map in some order; Go leaves the order open. */
  method Collect<T(==)>(m: map<nat, T>, ghost pidOf: T -> nat) returns (values: seq<T>)
    requires Named(m, pidOf)
    ensures |values| == |m| && NoDuplicates(values)
    ensures forall v :: v in values <==> exists p :: p in m && m[p] == v
  {
    values := [];
    var left := m.Keys;
    while left != {}
      invariant left <= m.Keys && |values| + |left| == |m|
      invariant NoDuplicates(values)
      invariant forall v :: v in values ==> pidOf(v) in m && pidOf(v) !in left && m[pidOf(v)] == v
      invariant forall p :: p in m && p !in left ==> m[p] in values
      decreases left
    {
      var p :| p in left;
      values := values + [m[p]];
      left := left - {p};
    }
  }

  lemma {:induction false} OccurrencesAtMostOne<T>(s: seq<T>, v: T)
    requires NoDuplicates(s)
    ensures multiset(s)[v] <= 1
  {
    if s != [] {
      var front, last := s[..|s| - 1], s[|s| - 1];
      OccurrencesAtMostOne(front, v);
      assert s == front + [last];
      assert last !in front;
    }
  }

  lemma PermutationNoDuplicates<T>(s: seq<T>, t: seq<T>)
    requires multiset(s) == multiset(t) && NoDuplicates(s)
    ensures NoDuplicates(t)
  {
    forall i, j | 0 <= i < j < |t| ensures t[i] != t[j] {
      OccurrencesAtMostOne(s, t[i]);
      assert t == t[..j] + [t[j]] + t[j + 1..];
      assert t[i] in t[..j];
      assert multiset(t)[t[i]] >= multiset(t[..j])[t[i]] + multiset([t[j]])[t[i]];
    }
  }

  lemma PermutationMembers<T>(s: seq<T>, t: seq<T>, v: T)
    requires multiset(s) == multiset(t)
    ensures v in s <==> v in t
  {
    assert v in multiset(s) <==> v in multiset(t);
  }

  /** The ranking loop shared by GetTopCPU and GetTopAlloc; a negative `n` is an out-of-range slice
      bound. */
  method TopOf<T(==)>(m: map<nat, T>, ghost pidOf: T -> nat, key: T -> nat, n: int)
    returns (top: Outcome<seq<T>, ()>)
    requires Named(m, pidOf)
    ensures if n < 0 then top.Panic? else top.Ok? && IsTop(m, pidOf, key, n, top.value)
  {
    var values := Collect(m, pidOf);
    var a := new T[|values|](i requires 0 <= i < |values| => values[i]);
    assert a[..] == values;
    SortDescending(a, key);
    var sorted := a[..];
    if n < 0 { return Panic; }
    PrefixIsTop(m, pidOf, key, n, values, sorted);
    top := Ok(sorted[..if n < |sorted| then n else |sorted|]);
  }

  lemma PrefixIsTop<T>(m: map<nat, T>, pidOf: T -> nat, key: T -> nat, n: nat, values: seq<T>, sorted: seq<T>)
    requires Named(m, pidOf) && |values| == |m| && NoDuplicates(values)
    requires forall v :: v in values <==> exists p :: p in m && m[p] == v
    requires multiset(sorted) == multiset(values) && Settled(sorted, key, |sorted|) && |sorted| == |values|
    ensures IsTop(m, pidOf, key, n, sorted[..if n < |sorted| then n else |sorted|])
  {
    var top := sorted[..if n < |sorted| then n else |sorted|];
    PermutationNoDuplicates(values, sorted);
    forall v ensures v in values <==> v in sorted {
      PermutationMembers(values, sorted, v);
    }
    forall i | 0 <= i < |top| ensures pidOf(top[i]) in m && m[pidOf(top[i])] == top[i] {
      assert top[i] in values;
    }
    forall p | p in m && m[p] !in top ensures forall i :: 0 <= i < |top| ==> key(m[p]) <= key(top[i]) {
      assert m[p] in sorted;
      var k :| 0 <= k < |sorted| && sorted[k] == m[p];
      assert k >= |top|;
    }
  }
}

module SchedAnalyzer {
  import opened Bytes
  import opened Ranking

  datatype ProcessCpu = ProcessCpu(pid: nat, comm: string, totalNs: nat)

  function PidOf(p: ProcessCpu): nat { p.pid }

  function TotalOf(p: ProcessCpu): nat { p.totalNs }

  function Record(samples: map<nat, ProcessCpu>, pid: nat, comm: string, deltaNs: nat): map<nat, ProcessCpu>
  {
    var proc := if pid in samples then samples[pid] else ProcessCpu(pid, comm, 0);
    samples[pid := proc.(totalNs := (proc.totalNs + deltaNs) % TWO_64)]
  }

  class SchedAnalyzer {
    var samples: map<nat, ProcessCpu>

    ghost predicate Valid()
      reads this
    {
      Named(samples, PidOf)
    }

    constructor ()
      ensures Valid() && samples == map[]
    {
      samples := map[];
    }

    method RecordSample(pid: nat, comm: string, deltaNs: nat)
      requires Valid()
      modifies this
      ensures Valid() && samples == Record(old(samples), pid, comm, deltaNs)
    {
      var proc: ProcessCpu;
      if pid in samples {
        proc := samples[pid];
      } else {
        proc := ProcessCpu(pid, comm, 0);
      }
      proc := proc.(totalNs := (proc.totalNs + deltaNs) % TWO_64);
      samples := samples[pid := proc];
    }

    method GetTopCpu(n: int) returns (top: Outcome<seq<ProcessCpu>, ()>)
      requires Valid()
      ensures if n < 0 then top.Panic? else top.Ok? && IsTop(samples, PidOf, TotalOf, n, top.value)
    {
      top := TopOf(samples, PidOf, TotalOf, n);
    }

    method Reset()
      modifies this
      ensures Valid() && samples == map[]
    {
      samples := map[];
    }
  }

  // ---------------------------------------------------------------------------
  // Histories
  // ---------------------------------------------------------------------------

  datatype Op = Sample(pid: nat, comm: string, deltaNs: nat) | Reset

  function After(history: seq<Op>): map<nat, ProcessCpu>
  {
    if history == [] then map[]
    else
      var samples := After(history[..|history| - 1]);
      match history[|history| - 1]
      case Sample(pid, comm, deltaNs) => Record(samples, pid, comm, deltaNs)
      case Reset => map[]
  }

  /** The history since the last reset. */
  function SinceReset(history: seq<Op>): seq<Op>
  {
    if history == [] || history[|history| - 1].Reset? then []
    else SinceReset(history[..|history| - 1]) + [history[|history| - 1]]
  }

  /** The sum of a process's samples. */
  function Sum(ops: seq<Op>, pid: nat): nat
  {
    if ops == [] then 0
    else
      var last := ops[|ops| - 1];
      Sum(ops[..|ops| - 1], pid) + if last.Sample? && last.pid == pid then last.deltaNs else 0
  }

  /** The name in a process's first sample. */
  function FirstComm(ops: seq<Op>, pid: nat): Option<string>
  {
    if ops == [] then None
    else
      var earlier, last := FirstComm(ops[..|ops| - 1], pid), ops[|ops| - 1];
      if earlier.Some? then earlier
      else if last.Sample? && last.pid == pid then Some(last.comm)
      else None
  }

  /** What the map says about a process first sampled as `comm`, with samples adding up to `sum`. */
  predicate Lists(samples: map<nat, ProcessCpu>, pid: nat, comm: Option<string>, sum: nat)
  {
    if comm.None? then pid !in samples && sum == 0
    else pid in samples && samples[pid] == ProcessCpu(pid, comm.value, sum % TWO_64)
  }

  lemma RecordLists(samples: map<nat, ProcessCpu>, op: Op, pid: nat, comm: Option<string>, sum: nat)
    requires op.Sample? && Lists(samples, pid, comm, sum)
    ensures Lists(Record(samples, op.pid, op.comm, op.deltaNs), pid,
                  if comm.None? && op.pid == pid then Some(op.comm) else comm,
                  sum + if op.pid == pid then op.deltaNs else 0)
  {
  }

  /** After every history, a process is listed exactly if it was sampled since the last reset, under
      its first name, with the sum of its samples since then, modulo 2^64. */
  lemma {:induction false} TotalsAreSums(history: seq<Op>, pid: nat)
    ensures var recent := SinceReset(history);
            Lists(After(history), pid, FirstComm(recent, pid), Sum(recent, pid))
  {
    if history != [] && !history[|history| - 1].Reset? {
      var front, last := history[..|history| - 1], history[|history| - 1];
      TotalsAreSums(front, pid);
      var recent := SinceReset(front);
      assert (recent + [last])[..|recent|] == recent;
      RecordLists(After(front), last, pid, FirstComm(recent, pid), Sum(recent, pid));
      hide Lists, Record;
    }
  }

  lemma ListedTotal(history: seq<Op>, pid: nat)
    requires Sum(SinceReset(history), pid) < TWO_64
    ensures if pid in After(history) then After(history)[pid].pid == pid
                                          && After(history)[pid].totalNs == Sum(SinceReset(history), pid)
            else Sum(SinceReset(history), pid) == 0
  {
    TotalsAreSums(history, pid);
    hide After, SinceReset, Sum, FirstComm;
  }

  /** Ranking after any history ranks by those sums, whatever order the map is walked in: later
      places have no larger sum, and neither has any process left out. */
  lemma TopRanksSums(history: seq<Op>, n: nat, top: seq<ProcessCpu>, i: nat, pid: nat)
    requires IsTop(After(history), PidOf, TotalOf, n, top) && i < |top|
    requires Sum(SinceReset(history), top[i].pid) < TWO_64 && Sum(SinceReset(history), pid) < TWO_64
    requires forall j :: 0 <= j <= i ==> PidOf(top[j]) != pid
    ensures Sum(SinceReset(history), top[i].pid) >= Sum(SinceReset(history), pid)
  {
    hide After, SinceReset, Sum;
    ListedTotal(history, top[i].pid);
    ListedTotal(history, pid);
    var samples := After(history);
    assert samples[PidOf(top[i])] == top[i];
    if pid in samples {
      hide IsTop;
      TopExceeds(samples, PidOf, TotalOf, n, top, i, pid);
    }
  }
}

module MemLeakDetector {
  import opened Bytes
  import opened Ranking

  datatype AllocInfo = AllocInfo(pid: nat, bytes: nat, count: nat)

  function PidOf(a: AllocInfo): nat { a.pid }

  function BytesOf(a: AllocInfo): nat { a.bytes }

  function Alloc(allocs: map<nat, AllocInfo>, pid: nat, bytes: nat): map<nat, AllocInfo>
  {
    var info := if pid in allocs then allocs[pid] else AllocInfo(pid, 0, 0);
    allocs[pid := info.(bytes := (info.bytes + bytes) % TWO_64, count := (info.count + 1) % TWO_64)]
  }

  /** A free of more than is counted, or for an unknown process, changes nothing. */
  function Free(allocs: map<nat, AllocInfo>, pid: nat, bytes: nat): map<nat, AllocInfo>
  {
    if pid in allocs && allocs[pid].bytes >= bytes
    then allocs[pid := allocs[pid].(bytes := allocs[pid].bytes - bytes)]
    else allocs
  }

  class MemLeakDetector {
    var allocs: map<nat, AllocInfo>

    ghost predicate Valid()
      reads this
    {
      Named(allocs, PidOf)
    }

    constructor ()
      ensures Valid() && allocs == map[]
    {
      allocs := map[];
    }

    method RecordAlloc(pid: nat, bytes: nat)
      requires Valid()
      modifies this
      ensures Valid() && allocs == Alloc(old(allocs), pid, bytes)
    {
      var info: AllocInfo;
      if pid in allocs {
        info := allocs[pid];
      } else {
        info := AllocInfo(pid, 0, 0);
      }
      info := info.(bytes := (info.bytes + bytes) % TWO_64);
      info := info.(count := (info.count + 1) % TWO_64);
      allocs := allocs[pid := info];
    }

    method RecordFree(pid: nat, bytes: nat)
      requires Valid()
      modifies this
      ensures Valid() && allocs == Free(old(allocs), pid, bytes)
    {
      if pid in allocs && allocs[pid].bytes >= bytes {
        var info := allocs[pid];
        allocs := allocs[pid := info.(bytes := info.bytes - bytes)];
      }
    }

    method GetTopAlloc(n: int) returns (top: Outcome<seq<AllocInfo>, ()>)
      requires Valid()
      ensures if n < 0 then top.Panic? else top.Ok? && IsTop(allocs, PidOf, BytesOf, n, top.value)
    {
      top := TopOf(allocs, PidOf, BytesOf, n);
    }
  }

  // ---------------------------------------------------------------------------
  // Histories
  // ---------------------------------------------------------------------------

  datatype Op = Allocated(pid: nat, bytes: nat) | Freed(pid: nat, bytes: nat)

  function After(history: seq<Op>): map<nat, AllocInfo>
  {
    if history == [] then map[]
    else
      var allocs := After(history[..|history| - 1]);
      match history[|history| - 1]
      case Allocated(pid, bytes) => Alloc(allocs, pid, bytes)
      case Freed(pid, bytes) => Free(allocs, pid, bytes)
  }

  function Counted(history: seq<Op>, pid: nat): nat
  {
    if pid in After(history) then After(history)[pid].bytes else 0
  }

  /** Allocations minus frees of a process. */
  function Balance(history: seq<Op>, pid: nat): int
  {
    if history == [] then 0
    else
      var last := history[|history| - 1];
      Balance(history[..|history| - 1], pid)
      + if last.pid != pid then 0 else if last.Allocated? then last.bytes else -(last.bytes as int)
  }

  /** The bytes of a process's frees that were ignored. */
  function Ignored(history: seq<Op>, pid: nat): nat
  {
    if history == [] then 0
    else
      var front, last := history[..|history| - 1], history[|history| - 1];
      Ignored(front, pid)
      + if last.Freed? && last.pid == pid && !(pid in After(front) && After(front)[pid].bytes >= last.bytes)
        then last.bytes else 0
  }

  /** No allocation of the process takes its counter past 64 bits. */
  predicate NoOverflow(history: seq<Op>, pid: nat)
  {
    history != [] ==>
      var front, last := history[..|history| - 1], history[|history| - 1];
      && NoOverflow(front, pid)
      && (last.Allocated? && last.pid == pid ==> Counted(front, pid) + last.bytes < TWO_64)
  }

  /** The counter is the true balance plus whatever was ignored, so it never under-reports. */
  lemma {:induction false} CountedIsBalancePlusIgnored(history: seq<Op>, pid: nat)
    requires NoOverflow(history, pid)
    ensures Counted(history, pid) == Balance(history, pid) + Ignored(history, pid)
    ensures Counted(history, pid) >= Balance(history, pid)
  {
    if history != [] {
      CountedIsBalancePlusIgnored(history[..|history| - 1], pid);
    }
  }

  /** The number of a process's allocations. */
  function Allocations(history: seq<Op>, pid: nat): nat
  {
    if history == [] then 0
    else
      var last := history[|history| - 1];
      Allocations(history[..|history| - 1], pid) + if last.Allocated? && last.pid == pid then 1 else 0
  }

  predicate Lists(allocs: map<nat, AllocInfo>, pid: nat, n: nat)
  {
    && (pid in allocs <==> n > 0)
    && (pid in allocs ==> allocs[pid].pid == pid && allocs[pid].count == n % 0x1_0000_0000_0000_0000)
  }

  lemma AllocLists(allocs: map<nat, AllocInfo>, pid: nat, n: nat, caller: nat, bytes: nat)
    requires Lists(allocs, pid, n)
    ensures Lists(Alloc(allocs, caller, bytes), pid, n + if caller == pid then 1 else 0)
  {
  }

  lemma FreeLists(allocs: map<nat, AllocInfo>, pid: nat, n: nat, caller: nat, bytes: nat)
    requires Lists(allocs, pid, n)
    ensures Lists(Free(allocs, caller, bytes), pid, n)
  {
  }

  /** After every history a process is listed exactly if it ever allocated, under its own pid, with
      the number of its allocations modulo 2^64; frees change neither. */
  lemma {:induction false} CountIsAllocations(history: seq<Op>, pid: nat)
    ensures Lists(After(history), pid, Allocations(history, pid))
  {
    if history != [] {
      hide Lists, Alloc, Free;
      var front, last := history[..|history| - 1], history[|history| - 1];
      CountIsAllocations(front, pid);
      match last
      case Allocated(caller, bytes) => AllocLists(After(front), pid, Allocations(front, pid), caller, bytes);
      case Freed(caller, bytes) => FreeLists(After(front), pid, Allocations(front, pid), caller, bytes);
    } else {
      assert Lists(map[], pid, 0);
    }
  }

  /** The frees of the process never run ahead of its allocations. */
  predicate NeverNegative(history: seq<Op>, pid: nat)
  {
    Balance(history, pid) >= 0 && (history != [] ==> NeverNegative(history[..|history| - 1], pid))
  }

  lemma {:induction false} IgnoredIffNegative(history: seq<Op>, pid: nat)
    requires NoOverflow(history, pid)
    ensures Ignored(history, pid) == 0 <==> NeverNegative(history, pid)
  {
    CountedIsBalancePlusIgnored(history, pid);
    if history != [] {
      var front := history[..|history| - 1];
      IgnoredIffNegative(front, pid);
      CountedIsBalancePlusIgnored(front, pid);
    }
  }

  /** The counter is exact if and only if the process's frees never ran ahead of its allocations. */
  lemma ExactIff(history: seq<Op>, pid: nat)
    requires NoOverflow(history, pid)
    ensures Counted(history, pid) == Balance(history, pid) <==> NeverNegative(history, pid)
  {
    CountedIsBalancePlusIgnored(history, pid);
    IgnoredIffNegative(history, pid);
  }

  /** Where no process's frees ran ahead, GetTopAlloc ranks by what is really outstanding. */
  lemma TopRanksBalances(history: seq<Op>, n: nat, top: seq<AllocInfo>, i: nat, pid: nat)
    requires IsTop(After(history), PidOf, BytesOf, n, top) && i < |top|
    requires forall j :: 0 <= j <= i ==> PidOf(top[j]) != pid
    requires forall p :: p == pid || p == top[i].pid ==> NoOverflow(history, p) && NeverNegative(history, p)
    ensures Balance(history, top[i].pid) >= Balance(history, pid)
  {
    ExactIff(history, pid);
    ExactIff(history, top[i].pid);
    InfoNamed(history, pid);
    hide After, Balance, NoOverflow, NeverNegative;
    var allocs := After(history);
    assert allocs[PidOf(top[i])] == top[i];
    if pid in allocs {
      hide IsTop;
      TopExceeds(allocs, PidOf, BytesOf, n, top, i, pid);
    }
  }

  lemma {:induction false} InfoNamed(history: seq<Op>, pid: nat)
    ensures pid in After(history) ==> PidOf(After(history)[pid]) == pid
  {
    if history != [] { InfoNamed(history[..|history| - 1], pid); }
  }
}
