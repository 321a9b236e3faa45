/**
 Pairing of write and writev entries with their exits in bpf/log_collect.bpf.c:
 one hash map from thread to descriptor, shared by every thread.
 */
module SyscallPairing {
  import opened Bytes

  /** The capacity of write_args. */
  const MAX_ENTRIES := 10240

  datatype Syscall = Write | Writev

  /** A tracepoint hit: `tid` is the 64-bit pid_tgid of the running thread. */
  datatype Action =
    | Enter(tid: nat, call: Syscall, fd: nat)
    | Exit(tid: nat, call: Syscall, ret: int)

  datatype LogEvent = LogEvent(tid: nat, pid: nat, fd: nat, dataLen: nat)

  datatype State = State(writeArgs: map<nat, nat>, events: seq<LogEvent>)

  const INIT := State(map[], [])

  predicate IsStdoutStderr(fd: nat)
  {
    fd == 1 || fd == 2
  }

  /** bpf_map_update_elem with BPF_ANY: a new key is refused once the map is full. */
  function Update(m: map<nat, nat>, tid: nat, fd: nat, capacity: nat): map<nat, nat>
  {
    if tid in m || |m| < capacity then m[tid := fd] else m
  }

  /** The event of a successful exit; the length is truncated to 32 bits. */
  function EventOf(tid: nat, fd: nat, ret: int): LogEvent
  {
    LogEvent(tid, tid / TWO_32, fd, ret % TWO_32)
  }

  function Step(s: State, a: Action, capacity: nat): State
  {
    match a
    case Enter(tid, _, fd) =>
      if !IsStdoutStderr(fd) then s else s.(writeArgs := Update(s.writeArgs, tid, fd, capacity))
    case Exit(tid, _, ret) =>
      if ret <= 0 || tid !in s.writeArgs then s
      else
        var fd := s.writeArgs[tid];
        var removed := s.(writeArgs := s.writeArgs - {tid});
        if !IsStdoutStderr(fd) then removed else removed.(events := s.events + [EventOf(tid, fd, ret)])
  }

  /** The program with its map and its output. */
  class LogCollector {
    var writeArgs: map<nat, nat>
    var events: seq<LogEvent>

    function View(): State
      reads this
    {
      State(writeArgs, events)
    }

    constructor ()
      ensures View() == INIT
    {
      writeArgs, events := map[], [];
    }

    method TraceSysEnter(tid: nat, call: Syscall, fd: nat)
      modifies this
      ensures View() == Step(old(View()), Enter(tid, call, fd), 10240)
    {
      if !IsStdoutStderr(fd) { return; }
      if tid in writeArgs || |writeArgs| < MAX_ENTRIES {
        writeArgs := writeArgs[tid := fd];
      }
    }

    method TraceSysExit(tid: nat, call: Syscall, ret: int)
      modifies this
      ensures View() == Step(old(View()), Exit(tid, call, ret), 10240)
      ensures events != old(events) ==>
                events == old(events) + [LogEvent(tid, tid / 0x1_0000_0000, old(writeArgs)[tid], ret % 0x1_0000_0000)]
    {
      if ret <= 0 { return; }
      if tid !in writeArgs { return; }
      var fd := writeArgs[tid];
      if IsStdoutStderr(fd) {
        events := events + [EventOf(tid, fd, ret)];
      }
      writeArgs := writeArgs - {tid};
    }
  }

  /** The state after a trace, an arbitrary interleaving of the threads' calls. */
  function Run(trace: seq<Action>, capacity: nat): State
  {
    if trace == [] then INIT else Step(Run(trace[..|trace| - 1], capacity), trace[|trace| - 1], capacity)
  }

  // ---------------------------------------------------------------------------
  // What holds of every trace
  // ---------------------------------------------------------------------------

  predicate Records(a: Action, t: nat)
  {
    a.Enter? && a.tid == t && IsStdoutStderr(a.fd)
  }

  /** The descriptor of the thread's latest entry on stdout or stderr. */
  function LatestFd(trace: seq<Action>, t: nat): Option<nat>
  {
    if trace == [] then None
    else
      var last := trace[|trace| - 1];
      if Records(last, t) then Some(last.fd) else LatestFd(trace[..|trace| - 1], t)
  }

  function RecordedEnters(trace: seq<Action>, t: nat): nat
  {
    if trace == [] then 0
    else RecordedEnters(trace[..|trace| - 1], t) + if Records(trace[|trace| - 1], t) then 1 else 0
  }

  function EventsBy(events: seq<LogEvent>, t: nat): seq<LogEvent>
  {
    if events == [] then []
    else EventsBy(events[..|events| - 1], t) + if events[|events| - 1].tid == t then [events[|events| - 1]] else []
  }

  lemma EventsByAppend(events: seq<LogEvent>, e: LogEvent, t: nat)
    ensures EventsBy(events + [e], t) == EventsBy(events, t) + if e.tid == t then [e] else []
  {
    assert (events + [e])[..|events|] == events;
  }

  lemma RunAppend(trace: seq<Action>, a: Action, capacity: nat)
    ensures Run(trace + [a], capacity) == Step(Run(trace, capacity), a, capacity)
  {
    assert (trace + [a])[..|trace|] == trace;
  }

  /** A thread whose latest recorded descriptor is `latest` after `enters` recorded entries. */
  predicate ThreadInvariant(s: State, t: nat, latest: Option<nat>, enters: nat)
  {
    && (t in s.writeArgs ==> latest == Some(s.writeArgs[t]) && IsStdoutStderr(s.writeArgs[t]))
    && |EventsBy(s.events, t)| + (if t in s.writeArgs then 1 else 0) <= enters
  }

  lemma StepKeepsInvariant(s: State, a: Action, t: nat, latest: Option<nat>, enters: nat, capacity: nat)
    requires ThreadInvariant(s, t, latest, enters)
    ensures if Records(a, t) then ThreadInvariant(Step(s, a, capacity), t, Some(a.fd), enters + 1)
            else ThreadInvariant(Step(s, a, capacity), t, latest, enters)
  {
    if a.Exit? && a.tid in s.writeArgs {
      EventsByAppend(s.events, EventOf(a.tid, s.writeArgs[a.tid], a.ret), t);
    }
    hide EventsBy, EventOf;
  }

  /** The map never holds anything but the thread's latest recorded descriptor, and a thread has
      emitted no more events than it has recorded entries, even when the map is full. */
  lemma {:induction false} RunInvariant(trace: seq<Action>, t: nat, capacity: nat)
    ensures ThreadInvariant(Run(trace, capacity), t, LatestFd(trace, t), RecordedEnters(trace, t))
  {
    if trace != [] {
      hide ThreadInvariant, Step, Records;
      var front, a := trace[..|trace| - 1], trace[|trace| - 1];
      RunInvariant(front, t, capacity);
      StepKeepsInvariant(Run(front, capacity), a, t, LatestFd(front, t), RecordedEnters(front, t), capacity);
    }
  }

  /** An event about a thread's call: the thread, its process, a descriptor and the low 32 bits of
      the length, which is all of it below 4 GiB. */
  predicate Reports(e: LogEvent, t: nat, fd: nat, ret: int)
  {
    && e.tid == t && e.pid == t / 0x1_0000_0000 && e.fd == fd
    && e.dataLen == ret % 0x1_0000_0000 && (0 <= ret < 0x1_0000_0000 ==> e.dataLen == ret)
  }

  /** Position `i` is the thread's latest entry on descriptor 1 or 2. */
  predicate LatestEnter(trace: seq<Action>, t: nat, i: int)
  {
    && 0 <= i < |trace| && trace[i].Enter? && trace[i].tid == t && trace[i].fd in {1, 2}
    && forall k :: i < k < |trace| ==> !(trace[k].Enter? && trace[k].tid == t && trace[k].fd in {1, 2})
  }

  lemma {:induction false} LatestFdIs(trace: seq<Action>, t: nat)
    ensures LatestFd(trace, t).Some? <==> exists i :: LatestEnter(trace, t, i)
    ensures forall i :: LatestEnter(trace, t, i) ==> LatestFd(trace, t) == Some(trace[i].fd)
  {
    if trace != [] {
      var n := |trace| - 1;
      var front := trace[..n];
      LatestFdIs(front, t);
      if Records(trace[n], t) {
        assert LatestEnter(trace, t, n);
      } else {
        forall i ensures LatestEnter(trace, t, i) <==> LatestEnter(front, t, i) {
          LatestBefore(trace, t, i);
        }
      }
    }
  }

  lemma LatestBefore(trace: seq<Action>, t: nat, i: int)
    requires trace != [] && !Records(trace[|trace| - 1], t)
    ensures LatestEnter(trace, t, i) <==> LatestEnter(trace[..|trace| - 1], t, i)
  {
    var front := trace[..|trace| - 1];
    if LatestEnter(trace, t, i) {
      assert forall k :: 0 <= k < |front| ==> front[k] == trace[k];
    }
  }

  /** Whatever the interleaving, an exit adds at most one event, and that one reports the thread, its
      process, the descriptor of its latest entry on descriptor 1 or 2, and its own return value. */
  lemma EventCarriesLatestFd(trace: seq<Action>, a: Action, capacity: nat)
    requires a.Exit?
    ensures var before := Run(trace, capacity).events;
            var after := Run(trace + [a], capacity).events;
            after == before ||
            (&& a.ret > 0 && |after| == |before| + 1 && before <= after
             && exists i :: LatestEnter(trace, a.tid, i) && Reports(after[|before|], a.tid, trace[i].fd, a.ret))
  {
    RunInvariant(trace, a.tid, capacity);
    RunAppend(trace, a, capacity);
    LatestFdIs(trace, a.tid);
    hide Run, EventsBy, LatestEnter, LatestFd;
    var s := Run(trace, capacity);
    if a.ret > 0 && a.tid in s.writeArgs {
      var i :| LatestEnter(trace, a.tid, i);
      LatestInRange(trace, a.tid, i);
      assert Reports(EventOf(a.tid, s.writeArgs[a.tid], a.ret), a.tid, trace[i].fd, a.ret);
    }
  }

  lemma LatestInRange(trace: seq<Action>, t: nat, i: int)
    requires LatestEnter(trace, t, i)
    ensures 0 <= i < |trace| && trace[i].Enter?
  {
  }

  // ---------------------------------------------------------------------------
  // Isolation of threads
  // ---------------------------------------------------------------------------

  /** The calls of one thread. */
  function Project(trace: seq<Action>, t: nat): seq<Action>
  {
    if trace == [] then []
    else Project(trace[..|trace| - 1], t) + if trace[|trace| - 1].tid == t then [trace[|trace| - 1]] else []
  }

  /** The thread's events are those it would have emitted alone. */
  predicate Isolated(trace: seq<Action>, t: nat, capacity: nat)
  {
    EventsBy(Run(trace, capacity).events, t) == Run(Project(trace, t), capacity).events
  }

  predicate Over(trace: seq<Action>, threads: set<nat>)
  {
    forall i :: 0 <= i < |trace| ==> trace[i].tid in threads
  }

  /** The thread sees the same in the shared state as it would alone. */
  predicate Agrees(s: State, solo: State, t: nat, threads: set<nat>)
  {
    && s.writeArgs.Keys <= threads && solo.writeArgs.Keys <= threads
    && (t in s.writeArgs <==> t in solo.writeArgs)
    && (t in s.writeArgs ==> s.writeArgs[t] == solo.writeArgs[t])
    && EventsBy(s.events, t) == solo.events
  }

  lemma OwnStepAgrees(s: State, solo: State, a: Action, threads: set<nat>, capacity: nat)
    requires Agrees(s, solo, a.tid, threads) && a.tid in threads && |threads| <= capacity
    ensures Agrees(Step(s, a, capacity), Step(solo, a, capacity), a.tid, threads)
  {
    hide EventsBy;
    match a
    case Enter(tid, _, _) =>
      RoomLeft(s.writeArgs, threads, tid, capacity);
      RoomLeft(solo.writeArgs, threads, tid, capacity);
    case Exit(tid, _, ret) =>
      if tid in s.writeArgs {
        var e := EventOf(tid, s.writeArgs[tid], ret);
        EventsByAppend(s.events, e, tid);
        assert EventsBy(s.events + [e], tid) == EventsBy(s.events, tid) + [e];
      }
  }

  lemma ForeignStepAgrees(s: State, solo: State, a: Action, t: nat, threads: set<nat>, capacity: nat)
    requires Agrees(s, solo, t, threads) && a.tid in threads && a.tid != t
    ensures Agrees(Step(s, a, capacity), solo, t, threads)
  {
    if a.Exit? && a.tid in s.writeArgs {
      var e := EventOf(a.tid, s.writeArgs[a.tid], a.ret);
      EventsByAppend(s.events, e, t);
      assert EventsBy(s.events + [e], t) == EventsBy(s.events, t) + [];
    }
    hide EventsBy, EventOf;
  }

  lemma {:induction false} Simulates(trace: seq<Action>, t: nat, threads: set<nat>, capacity: nat)
    requires Over(trace, threads) && |threads| <= capacity
    ensures Agrees(Run(trace, capacity), Run(Project(trace, t), capacity), t, threads)
  {
    hide Agrees, Step;
    if trace == [] {
      assert Agrees(INIT, INIT, t, threads) by { InitAgrees(t, threads); }
    } else {
      var front, a := trace[..|trace| - 1], trace[|trace| - 1];
      Simulates(front, t, threads, capacity);
      var s, own := Run(front, capacity), Project(front, t);
      if a.tid == t {
        OwnStepAgrees(s, Run(own, capacity), a, threads, capacity);
        assert (own + [a])[..|own|] == own;
      } else {
        ForeignStepAgrees(s, Run(own, capacity), a, t, threads, capacity);
        assert own + [] == own;
      }
    }
  }

  lemma InitAgrees(t: nat, threads: set<nat>)
    ensures Agrees(INIT, INIT, t, threads)
  {
  }

  /** A map over at most `capacity` threads has room for any of them that is not in it. */
  lemma RoomLeft(m: map<nat, nat>, threads: set<nat>, tid: nat, capacity: nat)
    requires m.Keys <= threads && tid in threads && |threads| <= capacity
    ensures tid in m || |m| < capacity
  {
    if tid !in m {
      assert m.Keys <= threads - {tid};
      SubsetSize(m.Keys, threads - {tid});
    }
  }

  lemma {:induction false} SubsetSize(a: set<nat>, b: set<nat>)
    requires a <= b
    ensures |a| <= |b|
  {
    if a != {} {
      var x :| x in a;
      SubsetSize(a - {x}, b - {x});
    }
  }

  function Fill(tids: seq<nat>): seq<Action>
  {
    seq(|tids|, i requires 0 <= i < |tids| => Enter(tids[i], Write, 1))
  }

  predicate Distinct(tids: seq<nat>)
  {
    forall i, j :: 0 <= i < j < |tids| ==> tids[i] != tids[j]
  }

  lemma InsertNew(m: map<nat, nat>, tid: nat, fd: nat)
    requires tid !in m
    ensures |m[tid := fd]| == |m| + 1
  {
    assert m[tid := fd].Keys == m.Keys + {tid};
  }

  lemma {:induction false} FillRecords(tids: seq<nat>, capacity: nat)
    requires Distinct(tids) && |tids| <= capacity
    ensures var s := Run(Fill(tids), capacity);
            s.events == [] && |s.writeArgs| == |tids| && (forall x :: x in s.writeArgs ==> x in tids)
  {
    hide Step;
    if tids == [] {
      assert Fill(tids) == [];
    } else {
      var front, last := tids[..|tids| - 1], tids[|tids| - 1];
      FillRecords(front, capacity);
      RunAppend(Fill(front), Enter(last, Write, 1), capacity);
      assert Fill(tids) == Fill(front) + [Enter(last, Write, 1)];
      FillStep(Run(Fill(front), capacity), last, capacity);
      hide Run, Fill;
      assert forall x :: x in front ==> x in tids;
    }
  }

  lemma FillStep(s: State, tid: nat, capacity: nat)
    requires tid !in s.writeArgs && |s.writeArgs| < capacity
    ensures var s' := Step(s, Enter(tid, Write, 1), capacity);
            && s'.events == s.events && |s'.writeArgs| == |s.writeArgs| + 1
            && forall x :: x in s'.writeArgs ==> x in s.writeArgs || x == tid
  {
    InsertNew(s.writeArgs, tid, 1);
  }

  /** More threads than the map has entries can starve one of them: once the others fill the map,
      its successful write leaves no event, although alone it would. */
  lemma FullMapStarves(tids: seq<nat>, late: nat, capacity: nat)
    requires Distinct(tids) && |tids| == capacity >= 1 && late !in tids
    ensures !Isolated(Fill(tids) + [Enter(late, Write, 1), Exit(late, Write, 1)], late, capacity)
  {
    var full, enter, exit := Fill(tids), Enter(late, Write, 1), Exit(late, Write, 1);
    FillRecords(tids, capacity);
    RunAppend(full, enter, capacity);
    RunAppend(full + [enter], exit, capacity);
    assert full + [enter] + [exit] == full + [enter, exit];
    NoneOwn(full, late);
    ProjectAppend(full, enter, late);
    ProjectAppend(full + [enter], exit, late);
    RunAppend([], enter, capacity);
    RunAppend([enter], exit, capacity);
    assert [] + [enter] == [enter] && [enter] + [exit] == [enter, exit];
    assert Run([], capacity) == INIT;
    hide Run, Project, Fill, EventOf;
    assert Run(full + [enter, exit], capacity).events == [];
    assert |Run([enter, exit], capacity).events| == 1;
  }

  lemma ProjectAppend(trace: seq<Action>, a: Action, t: nat)
    ensures Project(trace + [a], t) == Project(trace, t) + if a.tid == t then [a] else []
  {
    assert (trace + [a])[..|trace|] == trace;
  }

  lemma {:induction false} NoneOwn(trace: seq<Action>, t: nat)
    requires forall i :: 0 <= i < |trace| ==> trace[i].tid != t
    ensures Project(trace, t) == []
  {
    if trace != [] { NoneOwn(trace[..|trace| - 1], t); }
  }

  lemma {:induction false} Enumerate(threads: set<nat>, n: nat) returns (tids: seq<nat>)
    requires n <= |threads|
    ensures |tids| == n && Distinct(tids) && forall i :: 0 <= i < n ==> tids[i] in threads
  {
    if n == 0 {
      tids := [];
    } else {
      var x :| x in threads;
      var rest := Enumerate(threads - {x}, n - 1);
      tids := [x] + rest;
    }
  }

  /** Over a set of threads, every thread's events depend on its own calls alone, in every
      interleaving, exactly when the threads are no more than the map's entries. */
  lemma IsolationIff(threads: set<nat>, capacity: nat)
    requires capacity >= 1
    ensures (forall trace, t :: Over(trace, threads) ==> Isolated(trace, t, capacity)) <==> |threads| <= capacity
  {
    if |threads| <= capacity {
      forall trace, t | Over(trace, threads) ensures Isolated(trace, t, capacity) {
        Simulates(trace, t, threads, capacity);
      }
    } else {
      var tids := Enumerate(threads, capacity + 1);
      var late, first := tids[capacity], tids[..capacity];
      FullMapStarves(first, late, capacity);
      assert Over(Fill(first) + [Enter(late, Write, 1), Exit(late, Write, 1)], threads);
    }
  }

  // ---------------------------------------------------------------------------
  // Attribution within one thread
  // ---------------------------------------------------------------------------

  /** A completed call of one thread. */
  datatype Call = Call(call: Syscall, fd: nat, ret: int)

  function Hits(calls: seq<Call>, t: nat): seq<Action>
  {
    if calls == [] then []
    else
      var last := calls[|calls| - 1];
      Hits(calls[..|calls| - 1], t) + [Enter(t, last.call, last.fd), Exit(t, last.call, last.ret)]
  }

  /** `j` is the thread's latest call on stdout or stderr up to and including call `i`. */
  predicate IsLatestStd(calls: seq<Call>, j: int, i: int)
  {
    0 <= j <= i < |calls| && calls[j].fd in {1, 2}
    && forall k :: j < k <= i ==> calls[k].fd !in {1, 2}
  }

  /** Call `j` is still unanswered when call `i` returns: nothing from `j` on has succeeded. */
  predicate Unanswered(calls: seq<Call>, j: int, i: int)
  {
    0 <= j <= i <= |calls| && forall k :: j <= k < i ==> calls[k].ret <= 0
  }

  /** The call the map still remembers after some calls, or -1. */
  function Pending(calls: seq<Call>): (j: int)
    ensures -1 <= j < |calls| && (j >= 0 ==> IsStdoutStderr(calls[j].fd))
  {
    if calls == [] then -1
    else
      var i := |calls| - 1;
      if calls[i].ret > 0 then -1
      else if IsStdoutStderr(calls[i].fd) then i
      else Pending(calls[..i])
  }

  /** The call whose descriptor a successful call `i` reports, or -1: its own, or a remembered one. */
  function Source(calls: seq<Call>, i: nat): (j: int)
    requires i < |calls|
    ensures -1 <= j <= i
  {
    if IsStdoutStderr(calls[i].fd) then i else Pending(calls[..i])
  }

  lemma {:induction false} PendingIsUnanswered(calls: seq<Call>, i: nat, j: int)
    requires i <= |calls|
    ensures Pending(calls[..i]) == j && j >= 0 <==> i > 0 && IsLatestStd(calls, j, i - 1) && Unanswered(calls, j, i)
  {
    if i > 0 {
      PendingIsUnanswered(calls, i - 1, j);
      assert calls[..i][..i - 1] == calls[..i - 1];
    }
  }

  /** A call reports call `j` exactly when `j` is the thread's latest on stdout or stderr and
      nothing from `j` to before it has succeeded. */
  lemma SourceIsUnanswered(calls: seq<Call>, i: nat, j: int)
    requires i < |calls|
    ensures Source(calls, i) == j && j >= 0 <==> IsLatestStd(calls, j, i) && Unanswered(calls, j, i)
  {
    PendingIsUnanswered(calls, i, j);
  }

  function Entry(t: nat, fd: Option<nat>): map<nat, nat>
  {
    if fd.Some? then map[t := fd.value] else map[]
  }

  function FdAt(calls: seq<Call>, j: int): Option<nat>
    requires j < |calls|
  {
    if j >= 0 then Some(calls[j].fd) else None
  }

  function Remembered(calls: seq<Call>, t: nat): map<nat, nat>
  {
    Entry(t, FdAt(calls, Pending(calls)))
  }

  /** One call, entry and exit, when the thread is alone in the map. */
  lemma EnterExit(s: State, t: nat, c: Call, fd: Option<nat>, capacity: nat)
    requires capacity >= 1 && s.writeArgs == Entry(t, fd) && (fd.Some? ==> IsStdoutStderr(fd.value))
    ensures var entered := Step(s, Enter(t, c.call, c.fd), capacity);
            var after := Step(entered, Exit(t, c.call, c.ret), capacity);
            var source := if IsStdoutStderr(c.fd) then Some(c.fd) else fd;
            && after.writeArgs == (if c.ret > 0 then map[] else Entry(t, source))
            && after.events == s.events + if c.ret > 0 && source.Some? then [EventOf(t, source.value, c.ret)] else []
  {
    hide EventOf;
  }

  lemma {:induction false} HitsRemember(calls: seq<Call>, t: nat, capacity: nat)
    requires capacity >= 1
    ensures Run(Hits(calls, t), capacity).writeArgs == Remembered(calls, t)
  {
    if calls != [] {
      var i := |calls| - 1;
      HitsRemember(calls[..i], t, capacity);
      CallStep(calls, i, t, capacity);
      assert calls[..i + 1] == calls;
    }
  }

  lemma CallStep(calls: seq<Call>, i: nat, t: nat, capacity: nat)
    requires i < |calls| && capacity >= 1
    requires Run(Hits(calls[..i], t), capacity).writeArgs == Remembered(calls[..i], t)
    ensures var before, after := Run(Hits(calls[..i], t), capacity), Run(Hits(calls[..i + 1], t), capacity);
            var j := Source(calls, i);
            && after.writeArgs == Remembered(calls[..i + 1], t)
            && after.events == before.events +
                 if calls[i].ret > 0 && j >= 0 then [EventOf(t, calls[j].fd, calls[i].ret)] else []
  {
    var c, hits := calls[i], Hits(calls[..i], t);
    var enter, exit := Enter(t, c.call, c.fd), Exit(t, c.call, c.ret);
    assert calls[..i + 1][..i] == calls[..i];
    assert Hits(calls[..i + 1], t) == hits + [enter] + [exit];
    RunAppend(hits, enter, capacity);
    RunAppend(hits + [enter], exit, capacity);
    EnterExit(Run(hits, capacity), t, c, FdAt(calls[..i], Pending(calls[..i])), capacity);
    hide Run, Hits, EventOf, Step, Entry;
  }

  /** One event more than before, which reports that descriptor and return value. */
  predicate Adds(before: seq<LogEvent>, after: seq<LogEvent>, t: nat, fd: nat, ret: int)
  {
    |after| == |before| + 1 && before <= after && Reports(after[|before|], t, fd, ret)
  }

  /** An event, call by call: a successful call emits one event exactly when some call on stdout or
      stderr, the latest so far, is unanswered, and the event carries that call's descriptor. */
  lemma Attribution(calls: seq<Call>, i: nat, t: nat, capacity: nat)
    requires i < |calls| && capacity >= 1
    ensures var before := Run(Hits(calls[..i], t), capacity).events;
            var after := Run(Hits(calls[..i + 1], t), capacity).events;
            && (forall j :: calls[i].ret > 0 && IsLatestStd(calls, j, i) && Unanswered(calls, j, i) ==>
                  Adds(before, after, t, calls[j].fd, calls[i].ret))
            && ((calls[i].ret <= 0 || forall j :: IsLatestStd(calls, j, i) ==> !Unanswered(calls, j, i)) ==>
                  after == before)
  {
    HitsRemember(calls[..i], t, capacity);
    CallStep(calls, i, t, capacity);
    hide Run, Hits, EventsBy;
    var s := Source(calls, i);
    SourceIsUnanswered(calls, i, s);
    forall j | IsLatestStd(calls, j, i) && Unanswered(calls, j, i) ensures j == s {
      SourceIsUnanswered(calls, i, j);
    }
  }

  /** What a thread's calls lead to: for each successful call with a source, in order, the source's
      descriptor and the call's return value. */
  function Reported(calls: seq<Call>): seq<(nat, int)>
  {
    if calls == [] then []
    else
      var i := |calls| - 1;
      var j := Source(calls, i);
      Reported(calls[..i]) + if calls[i].ret > 0 && j >= 0 then [(calls[j].fd, calls[i].ret)] else []
  }

  predicate ReportsAll(events: seq<LogEvent>, t: nat, reported: seq<(nat, int)>)
  {
    |events| == |reported|
    && forall k :: 0 <= k < |events| ==> Reports(events[k], t, reported[k].0, reported[k].1)
  }

  lemma {:induction false} HitsReport(calls: seq<Call>, t: nat, capacity: nat)
    requires capacity >= 1
    ensures ReportsAll(Run(Hits(calls, t), capacity).events, t, Reported(calls))
  {
    if calls != [] {
      var i := |calls| - 1;
      HitsReport(calls[..i], t, capacity);
      HitsRemember(calls[..i], t, capacity);
      CallStep(calls, i, t, capacity);
      assert calls[..i + 1] == calls;
      hide Run, Hits, Source;
    }
  }

  /** The same inside any interleaving of no more threads than the map has entries. */
  lemma InterleavedReport(trace: seq<Action>, calls: seq<Call>, t: nat, threads: set<nat>, capacity: nat)
    requires Over(trace, threads) && 1 <= |threads| <= capacity && Project(trace, t) == Hits(calls, t)
    ensures ReportsAll(EventsBy(Run(trace, capacity).events, t), t, Reported(calls))
  {
    Simulates(trace, t, threads, capacity);
    HitsReport(calls, t, capacity);
    hide Run, Hits, Project, Reported, EventsBy, ReportsAll;
  }

  /** Call `i` succeeds, is not on stdout or stderr, and follows a stdout or stderr call of the thread
      that returned 0 or an error, with nothing successful and no other such call in between. */
  predicate FollowsFailure(calls: seq<Call>, i: nat)
    requires i < |calls|
  {
    && calls[i].ret > 0
    && exists j :: 0 <= j < i && IsLatestStd(calls, j, i) && calls[j].ret <= 0
                   && forall k :: j < k < i ==> calls[k].ret <= 0
  }

  /** The code against its purpose, reporting writes to stdout and stderr: an event is charged to
      another write exactly when the thread's latest write to stdout or stderr returned 0 or an
      error and this is its first later successful write. */
  lemma MisattributedIff(calls: seq<Call>, i: nat, t: nat, capacity: nat)
    requires i < |calls| && capacity >= 1
    ensures var before := Run(Hits(calls[..i], t), capacity).events;
            var after := Run(Hits(calls[..i + 1], t), capacity).events;
            after != before && calls[i].fd !in {1, 2} <==> FollowsFailure(calls, i)
  {
    HitsRemember(calls[..i], t, capacity);
    CallStep(calls, i, t, capacity);
    hide Run, Hits, EventOf;
    var s := Source(calls, i);
    SourceIsUnanswered(calls, i, s);
    forall j | j < i && IsLatestStd(calls, j, i) && calls[j].ret <= 0 && (forall k :: j < k < i ==> calls[k].ret <= 0)
      ensures s == j
    {
      SourceIsUnanswered(calls, i, j);
    }
  }

  lemma EnterKeepsEvents(s: State, t: nat, c: Call, capacity: nat)
    ensures Step(s, Enter(t, c.call, c.fd), capacity).events == s.events
  {
  }

  /** A thread's exit adds an event to the log exactly when it adds one to the thread's own. */
  lemma ExitEmitsOwn(s: State, t: nat, c: Call, capacity: nat)
    ensures var s' := Step(s, Exit(t, c.call, c.ret), capacity);
            s'.events != s.events <==> EventsBy(s'.events, t) != EventsBy(s.events, t)
  {
    var s' := Step(s, Exit(t, c.call, c.ret), capacity);
    if s'.events != s.events {
      EventsByAppend(s.events, EventOf(t, s.writeArgs[t], c.ret), t);
      hide EventsBy;
    }
  }

  lemma AgreeingEvents(trace: seq<Action>, t: nat, threads: set<nat>, capacity: nat)
    requires Over(trace, threads) && |threads| <= capacity
    ensures EventsBy(Run(trace, capacity).events, t) == Run(Project(trace, t), capacity).events
  {
    Simulates(trace, t, threads, capacity);
    hide Run, Project, EventsBy;
  }

  /** The same inside any interleaving of no more threads than the map has entries: `trace` is what
      happened up to the return of the thread's call `i`. */
  lemma InterleavedMisattributedIff(trace: seq<Action>, calls: seq<Call>, i: nat, t: nat, threads: set<nat>,
                                    capacity: nat)
    requires i < |calls| && t in threads && Over(trace, threads) && |threads| <= capacity
    requires Project(trace, t) == Hits(calls[..i], t) + [Enter(t, calls[i].call, calls[i].fd)]
    ensures var returned := trace + [Exit(t, calls[i].call, calls[i].ret)];
            Run(returned, capacity).events != Run(trace, capacity).events && calls[i].fd !in {1, 2}
            <==> FollowsFailure(calls, i)
  {
    hide FollowsFailure, Step, EventsBy;
    var c, hits := calls[i], Hits(calls[..i], t);
    var exit := Exit(t, c.call, c.ret);
    assert capacity >= 1 by { SubsetSize({t}, threads); }
    AgreeingEvents(trace, t, threads, capacity);
    AgreeingEvents(trace + [exit], t, threads, capacity);
    ProjectAppend(trace, exit, t);
    RunAppend(trace, exit, capacity);
    ExitEmitsOwn(Run(trace, capacity), t, c, capacity);
    RunAppend(hits, Enter(t, c.call, c.fd), capacity);
    EnterKeepsEvents(Run(hits, capacity), t, c, capacity);
    HitsSplit(calls, i, t);
    MisattributedIff(calls, i, t, capacity);
    hide Run, Hits, Project;
  }

  lemma HitsSplit(calls: seq<Call>, i: nat, t: nat)
    requires i < |calls|
    ensures Hits(calls[..i + 1], t)
            == Hits(calls[..i], t) + [Enter(t, calls[i].call, calls[i].fd)] + [Exit(t, calls[i].call, calls[i].ret)]
  {
    assert calls[..i + 1][..i] == calls[..i];
  }
}
