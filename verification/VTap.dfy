/**
 The mirroring pipeline of internal/collector/vtap.go: a bounded queue between a
 receiving and a processing goroutine, and a writer of rotating pcap files.
 */
module PcapFormat {
  import opened Bytes

  function Le32(a: byte, b: byte, c: byte, d: byte): (n: nat)
    ensures n < TWO_32
  {
    a as int + b as int * 0x100 + c as int * 0x1_0000 + d as int * 0x100_0000
  }

  /** binary.LittleEndian.Uint32 at position `i`. */
  function U32(s: seq<byte>, i: nat): (n: nat)
    requires i + 4 <= |s|
    ensures n < TWO_32
  {
    Le32(s[i], s[i + 1], s[i + 2], s[i + 3])
  }

  function Put32(n: nat): (s: seq<byte>)
    requires n < TWO_32
    ensures |s| == 4 && Le32(s[0], s[1], s[2], s[3]) == n
  {
    assert n / 0x100 / 0x100 == n / 0x1_0000 && n / 0x1_0000 / 0x100 == n / 0x100_0000;
    [n % 0x100, n / 0x100 % 0x100, n / 0x1_0000 % 0x100, n / 0x100_0000]
  }

  lemma LittleEndian()
    ensures Put32(0x01020304) == [4, 3, 2, 1]
  {
  }

  /** A reading of time.Now(): wall clock since 1970 and monotonic clock, in nanoseconds. */
  datatype Time = Time(wall: nat, mono: int)

  datatype Packet = Packet(at: Time, data: seq<byte>)

  datatype PcapFile = PcapFile(start: Time, packets: seq<Packet>)

  const MAGIC := 0xa1b2c3d4

  function GlobalHeader(): (s: seq<byte>)
    ensures |s| == 24
  {
    Put32(MAGIC) + [2, 0, 4, 0] + seq(16, _ => 0)
  }

  function Seconds(t: Time): nat
  {
    t.wall / SECOND % TWO_32
  }

  function Micros(t: Time): (us: nat)
    ensures us < 1_000_000
  {
    t.wall % SECOND / 1000
  }

  /** Until 2106 the two parts of a timestamp are the packet's wall time, cut to a microsecond. */
  lemma TimestampWithinMicro(t: Time)
    requires t.wall < TWO_32 * 1_000_000_000
    ensures 0 <= t.wall - (Seconds(t) * 1_000_000_000 + Micros(t) * 1000) < 1000
  {
    assert t.wall / 1_000_000_000 < TWO_32;
  }

  lemma EraShift(w: nat, era: nat)
    ensures (w + era * 1_000_000_000) / 1_000_000_000 == w / 1_000_000_000 + era
    ensures (w + era * 1_000_000_000) % 1_000_000_000 == w % 1_000_000_000
  {
  }

  /** After that the seconds start again at 0. */
  lemma SecondsWrap(t: Time)
    ensures var later := Time(t.wall + TWO_32 * 1_000_000_000, t.mono);
            Seconds(later) == Seconds(t) && Micros(later) == Micros(t)
  {
    EraShift(t.wall, TWO_32);
    var s := t.wall / 1_000_000_000;
    assert (s + TWO_32) % TWO_32 == s % TWO_32;
  }

  function RecordBytes(p: Packet): (s: seq<byte>)
    requires |p.data| < TWO_32
    ensures |s| == 16 + |p.data|
  {
    Put32(Seconds(p.at)) + Put32(Micros(p.at)) + Put32(|p.data|) + Put32(|p.data|) + p.data
  }

  predicate Storable(ps: seq<Packet>)
  {
    forall i :: 0 <= i < |ps| ==> |ps[i].data| < TWO_32
  }

  function RecordsBytes(ps: seq<Packet>): (s: seq<byte>)
    requires Storable(ps)
  {
    if ps == [] then [] else RecordsBytes(ps[..|ps| - 1]) + RecordBytes(ps[|ps| - 1])
  }

  function FileBytes(f: PcapFile): (s: seq<byte>)
    requires Storable(f.packets)
  {
    GlobalHeader() + RecordsBytes(f.packets)
  }

  // ---------------------------------------------------------------------------
  // A reader, sections 4 and 5 of draft-ietf-opsawg-pcap, that does not look at SnapLen and LinkType
  // ---------------------------------------------------------------------------

  datatype Record = Record(seconds: nat, micros: nat, originalLength: nat, data: seq<byte>)

  function ReadRecords(s: seq<byte>): (r: Option<seq<Record>>)
    decreases |s|
  {
    if s == [] then Some([])
    else if |s| < 16 || |s| < 16 + U32(s, 8) then None
    else
      var n := U32(s, 8);
      match ReadRecords(s[16 + n..])
      case None => None
      case Some(rest) => Some([Record(U32(s, 0), U32(s, 4), U32(s, 12), s[16..16 + n])] + rest)
  }

  /** The records of a little-endian microsecond capture. */
  function ReadPcap(s: seq<byte>): (r: Option<seq<Record>>)
  {
    if |s| < 24 || U32(s, 0) != MAGIC || s[4..8] != [2, 0, 4, 0] then None else ReadRecords(s[24..])
  }

  function RecordOf(p: Packet): Record
  {
    Record(Seconds(p.at), Micros(p.at), |p.data|, p.data)
  }

  function RecordsOf(ps: seq<Packet>): (rs: seq<Record>)
  {
    seq(|ps|, i requires 0 <= i < |ps| => RecordOf(ps[i]))
  }

  /** The reader takes off one record and goes on behind it. */
  lemma ReadFirst(p: Packet, rest: seq<byte>)
    requires |p.data| < TWO_32 && ReadRecords(rest).Some?
    ensures ReadRecords(RecordBytes(p) + rest) == Some([RecordOf(p)] + ReadRecords(rest).value)
  {
    var s, n := RecordBytes(p) + rest, |p.data|;
    HeaderReadsBack(p, rest);
    hide RecordBytes, U32;
  }

  lemma HeaderReadsBack(p: Packet, rest: seq<byte>)
    requires |p.data| < TWO_32
    ensures var s := RecordBytes(p) + rest;
            && U32(s, 0) == Seconds(p.at) && U32(s, 4) == Micros(p.at)
            && U32(s, 8) == |p.data| && U32(s, 12) == |p.data|
            && s[16..16 + |p.data|] == p.data && s[16 + |p.data|..] == rest
  {
    hide Le32, Put32, Seconds, Micros;
    var s := RecordBytes(p) + rest;
    var a, b, c := Put32(Seconds(p.at)), Put32(Micros(p.at)), Put32(|p.data|);
    assert s == a + b + c + c + p.data + rest;
  }

  lemma {:induction false} ReadBack(ps: seq<Packet>, rest: seq<byte>)
    requires Storable(ps) && ReadRecords(rest).Some?
    ensures ReadRecords(RecordsBytes(ps) + rest) == Some(RecordsOf(ps) + ReadRecords(rest).value)
  {
    hide ReadRecords, RecordBytes, RecordOf, RecordsOf;
    RecordsOfSplit(ps);
    if ps == [] {
      assert RecordsBytes(ps) + rest == rest && [] + ReadRecords(rest).value == ReadRecords(rest).value;
    } else {
      var front, last := ps[..|ps| - 1], ps[|ps| - 1];
      var tail := RecordBytes(last) + rest;
      ReadFirst(last, rest);
      ReadBack(front, tail);
      assert RecordsBytes(ps) + rest == RecordsBytes(front) + tail;
      Regroup(RecordsOf(front), RecordOf(last), ReadRecords(rest).value);
    }
  }

  lemma RecordsOfSplit(ps: seq<Packet>)
    ensures RecordsOf(ps) == if ps == [] then [] else RecordsOf(ps[..|ps| - 1]) + [RecordOf(ps[|ps| - 1])]
  {
  }

  lemma Regroup(a: seq<Record>, r: Record, b: seq<Record>)
    ensures a + ([r] + b) == a + [r] + b
  {
  }

  /** A pcap reader splits every file back into exactly the packets appended to it, in order. */
  lemma FileReadsBack(f: PcapFile)
    requires Storable(f.packets)
    ensures ReadPcap(FileBytes(f)) == Some(RecordsOf(f.packets))
  {
    var s := FileBytes(f);
    assert ReadRecords([]) == Some([]);
    ReadBack(f.packets, []);
    hide RecordsBytes, ReadRecords, Le32;
    assert s[24..] == RecordsBytes(f.packets) + [];
    assert s[..4] == Put32(MAGIC) && s[4..8] == [2, 0, 4, 0];
    assert RecordsOf(f.packets) + [] == RecordsOf(f.packets);
  }

  /** The limit on captured octets that a file header announces; it must not be zero. */
  function SnapLen(s: seq<byte>): nat
    requires |s| >= 24
  {
    U32(s, 16)
  }

  lemma GlobalHeaderOctets()
    ensures var h := GlobalHeader();
            && h[..4] == Put32(0xa1b2c3d4) && h[4..8] == [2, 0, 4, 0] && forall i :: 8 <= i < 24 ==> h[i] == 0
  {
    hide Put32;
  }

  lemma GlobalHeaderFields()
    ensures var h := GlobalHeader();
            && U32(h, 0) == 0xa1b2c3d4 && h[4..8] == [2, 0, 4, 0]
            && U32(h, 8) == 0 && U32(h, 12) == 0 && U32(h, 16) == 0 && U32(h, 20) == 0
  {
    hide GlobalHeader, Put32, Le32, U32;
    GlobalHeaderOctets();
    var h := GlobalHeader();
    ReadsPut(h, 0xa1b2c3d4);
    ReadsZero(h, 8);
    ReadsZero(h, 12);
    ReadsZero(h, 16);
    ReadsZero(h, 20);
  }

  lemma ReadsPut(s: seq<byte>, n: nat)
    requires n < TWO_32 && |s| >= 4 && s[..4] == Put32(n)
    ensures U32(s, 0) == n
  {
    hide Put32, Le32;
    assert s[0] == s[..4][0] && s[1] == s[..4][1] && s[2] == s[..4][2] && s[3] == s[..4][3];
  }

  lemma ReadsZero(s: seq<byte>, i: nat)
    requires i + 4 <= |s| && forall k :: i <= k < i + 4 ==> s[k] == 0
    ensures U32(s, i) == 0
  {
  }

  /** The whole header: version 2.4, time zone, accuracy, SnapLen and LinkType all 0. */
  lemma HeaderFields(f: PcapFile)
    requires Storable(f.packets)
    ensures var s := FileBytes(f);
            && |s| >= 24 && U32(s, 0) == 0xa1b2c3d4 && s[4..8] == [2, 0, 4, 0]
            && U32(s, 8) == 0 && U32(s, 12) == 0 && U32(s, 16) == 0 && U32(s, 20) == 0
  {
    GlobalHeaderFields();
    hide RecordsBytes, GlobalHeader, Le32;
    assert FileBytes(f)[4..8] == GlobalHeader()[4..8];
  }

  predicate WithinSnapLen(rs: seq<Record>, limit: nat)
  {
    forall i :: 0 <= i < |rs| ==> |rs[i].data| <= limit
  }

  /** A reader that holds a file to its SnapLen. */
  function ReadStrict(s: seq<byte>): (r: Option<seq<Record>>)
  {
    match ReadPcap(s)
    case None => None
    case Some(rs) => if SnapLen(s) > 0 && WithinSnapLen(rs, SnapLen(s)) then Some(rs) else None
  }

  /** Every file announces a SnapLen of zero, so such a reader accepts none of them. */
  lemma StrictReaderRejects(f: PcapFile)
    requires Storable(f.packets)
    ensures ReadPcap(FileBytes(f)).Some? && SnapLen(FileBytes(f)) == 0 && ReadStrict(FileBytes(f)) == None
  {
    FileReadsBack(f);
    hide ReadPcap, RecordsBytes, Put32;
    var s := FileBytes(f);
    assert s[16] == 0 && s[17] == 0 && s[18] == 0 && s[19] == 0;
  }
}

/** Rotation: which packets end up in which file. */
module PcapWriting {
  import opened Bytes
  import opened PcapFormat

  /** `clock` is the latest monotonic reading; `closed` means the current file was closed and no
      new one could be created. */
  datatype Writer = Writer(units: int, clock: int, open: bool, closed: bool, startTime: Time, files: seq<PcapFile>)

  function AppendTo(files: seq<PcapFile>, p: Packet): (fs: seq<PcapFile>)
    requires files != []
    ensures |fs| == |files|
  {
    var last := files[|files| - 1];
    files[..|files| - 1] + [last.(packets := last.packets + [p])]
  }

  predicate Rotates(w: Writer, now: Time)
  {
    !w.open || now.mono - w.startTime.mono >= w.units
  }

  function RotateSpec(w: Writer, now: Time, created: bool): Writer
  {
    if created then w.(open := true, closed := false, startTime := now, files := w.files + [PcapFile(now, [])])
    else w.(closed := w.open)
  }

  /** Write: a call that rotates does not store its packet, and writing to a closed file is lost
      without an error. */
  function WriteSpec(w: Writer, now: Time, data: seq<byte>, created: bool): Writer
  {
    var w' := w.(clock := now.mono);
    if Rotates(w, now) then RotateSpec(w', now, created)
    else if w.closed || w.files == [] then w'
    else w'.(files := AppendTo(w.files, Packet(now, data)))
  }

  /** Whether Write returns no error. */
  predicate Succeeds(w: Writer, now: Time, created: bool)
  {
    Rotates(w, now) ==> created
  }

  predicate FileFits(f: PcapFile, units: int)
  {
    Storable(f.packets)
    && forall i :: 0 <= i < |f.packets| ==> 0 <= f.packets[i].at.mono - f.start.mono < units
  }

  predicate FilesFit(files: seq<PcapFile>, units: int)
  {
    forall i :: 0 <= i < |files| ==> FileFits(files[i], units)
  }

  /** Each file was started at least `units` after every earlier one. */
  predicate Spaced(files: seq<PcapFile>, units: int)
  {
    forall i, j :: 0 <= i < j < |files| ==>
      files[j].start.mono - files[i].start.mono >= units && files[j].start.mono >= files[i].start.mono
  }

  predicate WriterInvariant(w: Writer)
  {
    && FilesFit(w.files, w.units) && Spaced(w.files, w.units)
    && (w.open <==> w.files != [])
    && (w.open ==> w.startTime == w.files[|w.files| - 1].start && w.startTime.mono <= w.clock)
    && (w.closed ==> w.open && w.clock - w.startTime.mono >= w.units)
  }

  function Start(units: int, clock: int): Writer
  {
    Writer(units, clock, false, false, Time(0, 0), [])
  }

  /** Every packet stays in the file that was started less than `units` before it, and a closed
      file is never written to, as long as the monotonic clock does not go back. */
  lemma WriteKeepsInvariant(w: Writer, now: Time, data: seq<byte>, created: bool)
    requires WriterInvariant(w) && now.mono >= w.clock && |data| < TWO_32
    ensures WriterInvariant(WriteSpec(w, now, data, created))
  {
    if !Rotates(w, now) {
      var last := w.files[|w.files| - 1];
      assert FileFits(last, w.units);
      assert FileFits(last.(packets := last.packets + [Packet(now, data)]), w.units);
    }
    hide FileFits;
  }

  // ---------------------------------------------------------------------------
  // The files in the directory
  // ---------------------------------------------------------------------------

  /** A file is named by the wall-clock second in which it was started. */
  function FileName(f: PcapFile): nat
  {
    f.start.wall / SECOND
  }

  predicate AllStorable(log: seq<PcapFile>)
  {
    forall i :: 0 <= i < |log| ==> Storable(log[i].packets)
  }

  /** What the directory holds after the files of the log: os.Create truncates a file of the same name. */
  function DiskOf(log: seq<PcapFile>): map<nat, seq<byte>>
    requires AllStorable(log)
  {
    if log == [] then map[]
    else DiskOf(log[..|log| - 1])[FileName(log[|log| - 1]) := FileBytes(log[|log| - 1])]
  }

  predicate OnDisk(disk: map<nat, seq<byte>>, log: seq<PcapFile>)
  {
    AllStorable(log) && disk == DiskOf(log)
  }

  predicate DistinctNames(log: seq<PcapFile>)
  {
    forall i, j :: 0 <= i < j < |log| ==> FileName(log[i]) != FileName(log[j])
  }

  /** A file is on disk, complete, as long as no later one was started in the same second. */
  lemma {:induction false} FileHeld(log: seq<PcapFile>, i: nat)
    requires AllStorable(log) && i < |log|
    requires forall j :: i < j < |log| ==> FileName(log[j]) != FileName(log[i])
    ensures FileName(log[i]) in DiskOf(log) && DiskOf(log)[FileName(log[i])] == FileBytes(log[i])
    decreases |log|
  {
    hide FileBytes, FileName, Storable;
    if i < |log| - 1 { FileHeld(log[..|log| - 1], i); }
  }

  lemma {:induction false} NamesHeld(log: seq<PcapFile>, name: nat)
    requires AllStorable(log)
    ensures name in DiskOf(log) <==> exists i :: 0 <= i < |log| && FileName(log[i]) == name
  {
    hide FileBytes, FileName, Storable;
    if log != [] {
      var front := log[..|log| - 1];
      NamesHeld(front, name);
      if name in DiskOf(front) {
        var i :| 0 <= i < |front| && FileName(front[i]) == name;
        assert FileName(log[i]) == name;
      }
    }
  }

  /** Every file ever started is still there if and only if no two were started in the same
      wall-clock second; each then holds exactly what was written to it. */
  lemma {:induction false} AllSurviveIff(log: seq<PcapFile>)
    requires AllStorable(log)
    ensures |DiskOf(log)| <= |log|
    ensures |DiskOf(log)| == |log| <==> DistinctNames(log)
    ensures DistinctNames(log) ==> forall i :: 0 <= i < |log| ==>
              FileName(log[i]) in DiskOf(log) && DiskOf(log)[FileName(log[i])] == FileBytes(log[i])
  {
    CountFiles(log);
    if DistinctNames(log) {
      forall i | 0 <= i < |log|
        ensures FileName(log[i]) in DiskOf(log) && DiskOf(log)[FileName(log[i])] == FileBytes(log[i])
      {
        FileHeld(log, i);
      }
    }
  }

  lemma {:induction false} CountFiles(log: seq<PcapFile>)
    requires AllStorable(log)
    ensures |DiskOf(log)| <= |log|
    ensures |DiskOf(log)| == |log| <==> DistinctNames(log)
  {
    hide FileBytes, FileName, Storable;
    if log != [] {
      var n := |log| - 1;
      CountFiles(log[..n]);
      NamesHeld(log[..n], FileName(log[n]));
      AddFile(DiskOf(log[..n]), FileName(log[n]), FileBytes(log[n]));
      DistinctSplit(log);
    }
  }

  lemma AddFile(disk: map<nat, seq<byte>>, name: nat, content: seq<byte>)
    ensures |disk[name := content]| == |disk| + if name in disk then 0 else 1
  {
    assert disk[name := content].Keys == disk.Keys + {name};
  }

  lemma DistinctSplit(log: seq<PcapFile>)
    requires log != []
    ensures var n := |log| - 1;
            DistinctNames(log) <==>
            DistinctNames(log[..n]) && !exists i :: 0 <= i < n && FileName(log[..n][i]) == FileName(log[n])
  {
    hide FileName;
    var n := |log| - 1;
    if !DistinctNames(log) {
      var i, j :| 0 <= i < j < |log| && FileName(log[i]) == FileName(log[j]);
      assert FileName(log[..n][i]) == FileName(log[j]);
      if j < n { assert FileName(log[..n][j]) == FileName(log[..n][i]); }
    } else {
      assert forall i :: 0 <= i < n ==> log[..n][i] == log[i];
    }
  }

  /** A wall clock that runs with the monotonic clock, started at `offset`. */
  predicate Steady(files: seq<PcapFile>, offset: int)
  {
    forall i :: 0 <= i < |files| ==> files[i].start.wall == files[i].start.mono + offset
  }

  /** A writer that rotates every second or less often never reuses a name on a steady clock. */
  lemma SteadyNamesDiffer(files: seq<PcapFile>, units: int, offset: int)
    requires Spaced(files, units) && Steady(files, offset) && units >= SECOND
    ensures DistinctNames(files)
  {
    forall i, j | 0 <= i < j < |files| ensures FileName(files[i]) != FileName(files[j]) {
      assert files[j].start.wall >= files[i].start.wall + SECOND;
      LaterSecond(files[i].start.wall, files[j].start.wall);
    }
  }

  lemma LaterSecond(a: nat, b: nat)
    requires b >= a + SECOND
    ensures a / SECOND < b / SECOND
  {
  }

  /** Appending the encoding of a packet is encoding the file with the packet appended. */
  lemma RecordAppends(f: PcapFile, p: Packet)
    requires Storable(f.packets) && |p.data| < TWO_32
    ensures var f' := f.(packets := f.packets + [p]);
            Storable(f'.packets) && FileBytes(f') == FileBytes(f) + RecordBytes(p)
  {
    hide RecordBytes, GlobalHeader;
    var ps := f.packets;
    assert (ps + [p])[..|ps|] == ps;
    assert RecordsBytes(ps + [p]) == RecordsBytes(ps) + RecordBytes(p);
  }

  lemma PacketReachesDisk(disk: map<nat, seq<byte>>, log: seq<PcapFile>, p: Packet)
    requires OnDisk(disk, log) && log != [] && |p.data| < TWO_32
    ensures var name := FileName(log[|log| - 1]);
            name in disk && OnDisk(disk[name := disk[name] + RecordBytes(p)], AppendTo(log, p))
  {
    hide FileBytes, RecordBytes, Storable;
    var n := |log| - 1;
    RecordAppends(log[n], p);
    var log' := AppendTo(log, p);
    assert log'[..n] == log[..n];
  }

  lemma HeaderReachesDisk(disk: map<nat, seq<byte>>, log: seq<PcapFile>, now: Time)
    requires OnDisk(disk, log)
    ensures OnDisk(disk[now.wall / SECOND := GlobalHeader()], log + [PcapFile(now, [])])
  {
    hide GlobalHeader;
    assert FileBytes(PcapFile(now, [])) == GlobalHeader();
    hide FileBytes;
    assert (log + [PcapFile(now, [])])[..|log|] == log;
  }

  class PcapWriter {
    const units: int
    var open: bool
    var closed: bool
    var startTime: Time
    var disk: map<nat, seq<byte>>
    ghost var log: seq<PcapFile>
    ghost var clock: int

    ghost function View(): Writer
      reads this
    {
      Writer(units, clock, open, closed, startTime, log)
    }

    ghost predicate Valid()
      reads this
    {
      WriterInvariant(View()) && OnDisk(disk, log)
    }

    constructor (units: int, ghost clock: int)
      ensures Valid() && View() == Start(units, clock)
    {
      this.units, this.clock := units, clock;
      open, closed, startTime, disk, log := false, false, Time(0, 0), map[], [];
    }

    /** `created` tells whether os.Create succeeds; writes to an open file do. */
    method Write(now: Time, data: seq<byte>, created: bool) returns (ok: bool)
      requires Valid() && now.mono >= clock && |data| < TWO_32
      modifies this
      ensures Valid() && View() == WriteSpec(old(View()), now, data, created)
      ensures ok == Succeeds(old(View()), now, created)
    {
      hide OnDisk, FilesFit, Spaced, AppendTo, RecordBytes;
      WriteKeepsInvariant(View(), now, data, created);
      clock := now.mono;
      if !open || now.mono - startTime.mono >= units {
        closed := open;
        ok := Rotate(now, created);
        return;
      }
      AppendRecord(Packet(now, data));
      ok := true;
    }

    /** The two writes of header and data to the current file. */
    method AppendRecord(p: Packet)
      requires OnDisk(disk, log) && log != [] && |p.data| < TWO_32 && startTime == log[|log| - 1].start
      modifies this`disk, this`log
      ensures OnDisk(disk, log) && log == AppendTo(old(log), p)
    {
      PacketReachesDisk(disk, log, p);
      var name := startTime.wall / SECOND;
      disk := disk[name := disk[name] + RecordBytes(p)];
      log := AppendTo(log, p);
    }

    method Rotate(now: Time, created: bool) returns (ok: bool)
      requires OnDisk(disk, log)
      modifies this
      ensures ok == created && clock == old(clock) && OnDisk(disk, log)
      ensures if created then open && !closed && startTime == now && log == old(log) + [PcapFile(now, [])]
              else unchanged(this)
    {
      if !created { return false; }
      HeaderReachesDisk(disk, log, now);
      hide OnDisk;
      disk := disk[now.wall / SECOND := GlobalHeader()];
      log := log + [PcapFile(now, [])];
      open, closed, startTime := true, false, now;
      ok := true;
    }
  }

  // ---------------------------------------------------------------------------
  // Accounting
  // ---------------------------------------------------------------------------

  /** All packets in all files, in the order they were stored. */
  function Stored(files: seq<PcapFile>): (ps: seq<Packet>)
  {
    if files == [] then [] else Stored(files[..|files| - 1]) + files[|files| - 1].packets
  }

  lemma StoredAppends(files: seq<PcapFile>, f: PcapFile)
    ensures Stored(files + [f]) == Stored(files) + f.packets
  {
    assert (files + [f])[..|files|] == files;
  }

  /** No file yet, or the latest was started `units` ago or more. */
  predicate FileDue(w: Writer, now: Time)
  {
    w.files == [] || now.mono - w.files[|w.files| - 1].start.mono >= w.units
  }

  /** A call that finds a new file due starts one if it can, named by its time, and stores nothing;
      any other call stores exactly its own packet, last. */
  lemma WriteStores(w: Writer, now: Time, data: seq<byte>, created: bool)
    requires WriterInvariant(w) && now.mono >= w.clock
    ensures var w' := WriteSpec(w, now, data, created);
            && Stored(w'.files) == Stored(w.files) + (if FileDue(w, now) then [] else [Packet(now, data)])
            && |w'.files| == |w.files| + (if FileDue(w, now) && created then 1 else 0)
            && (FileDue(w, now) ==> w'.files == if created then w.files + [PcapFile(now, [])] else w.files)
            && (Succeeds(w, now, created) <==> FileDue(w, now) ==> created)
  {
    hide FilesFit;
    if Rotates(w, now) {
      StoredAppends(w.files, PcapFile(now, []));
    } else {
      var n := |w.files| - 1;
      var front, last := w.files[..n], w.files[n];
      assert w.files == front + [last];
      StoredAppends(front, last);
      StoredAppends(front, last.(packets := last.packets + [Packet(now, data)]));
      hide Stored;
    }
  }
}

/** The receiving and the processing goroutine around the packet channel. */
module VTap {
  import opened Bytes
  import opened PcapFormat
  import opened PcapWriting

  /** Capacity of the packet channel. */
  const QUEUE_SIZE := 100000

  type Frame = f: seq<byte> | |f| <= 65536

  datatype Stats = Stats(received: nat, dropped: nat, forwarded: nat, written: nat)

  /** `arrived` and `fates` record every packet read and, once decided, whether it was queued;
      `failed` counts the files that could not be created. */
  datatype State = State(
    arrived: seq<Frame>,
    fates: seq<bool>,
    hand: Option<Frame>,
    queue: seq<Frame>,
    handled: seq<Frame>,
    forwarding: bool,
    stats: Stats,
    writer: Option<Writer>,
    failed: nat)

  datatype Action =
    | Receive(frame: Frame)
    | Offer
    | Process(now: Time, created: bool)

  predicate Enabled(s: State, a: Action)
  {
    match a
    case Receive(_) => s.hand.None?
    case Offer => s.hand.Some?
    case Process(now, _) => s.queue != [] && (s.writer.Some? ==> now.mono >= s.writer.value.clock)
  }

  /** handlePacket: the pcap file first, then the interface. */
  function HandleSpec(s: State, frame: Frame, now: Time, created: bool): State
  {
    var ok := s.writer.Some? && Succeeds(s.writer.value, now, created);
    s.(handled := s.handled + [frame],
       writer := if s.writer.Some? then Some(WriteSpec(s.writer.value, now, frame, created)) else None,
       failed := s.failed + (if s.writer.Some? && !ok then 1 else 0),
       stats := s.stats.(written := s.stats.written + (if ok then 1 else 0),
                         forwarded := s.stats.forwarded + (if s.forwarding then 1 else 0)))
  }

  function Next(s: State, a: Action): State
    requires Enabled(s, a)
  {
    match a
    case Receive(frame) =>
      s.(arrived := s.arrived + [frame], hand := Some(frame),
         stats := s.stats.(received := s.stats.received + 1))
    case Offer =>
      if |s.queue| < QUEUE_SIZE then
        s.(hand := None, queue := s.queue + [s.hand.value], fates := s.fates + [true])
      else
        s.(hand := None, fates := s.fates + [false], stats := s.stats.(dropped := s.stats.dropped + 1))
    case Process(now, created) => HandleSpec(s.(queue := s.queue[1..]), s.queue[0], now, created)
  }

  function Exec(s: State, run: seq<Action>): Option<State>
    decreases |run|
  {
    if run == [] then Some(s)
    else if Enabled(s, run[0]) then Exec(Next(s, run[0]), run[1..])
    else None
  }

  class VTapCollector {
    var packets: seq<Frame>
    var hand: Option<Frame>
    var stats: Stats
    var writer: PcapWriter?
    const forwarding: bool
    ghost var arrived: seq<Frame>
    ghost var fates: seq<bool>
    ghost var handled: seq<Frame>
    ghost var failed: nat

    ghost function View(): State
      reads this, writer
    {
      State(arrived, fates, hand, packets, handled, forwarding, stats,
            if writer == null then None else Some(writer.View()), failed)
    }

    ghost predicate Valid()
      reads this, writer
    {
      writer != null ==> writer.Valid()
    }

    constructor (writer: PcapWriter?, forwarding: bool)
      requires writer != null ==> writer.Valid()
      ensures Valid() && this.writer == writer
      ensures View() == State([], [], None, [], [], forwarding, Stats(0, 0, 0, 0),
                              if writer == null then None else Some(writer.View()), 0)
    {
      packets, hand, stats := [], None, Stats(0, 0, 0, 0);
      this.writer, this.forwarding := writer, forwarding;
      arrived, fates, handled, failed := [], [], [], 0;
    }

    /** receiveLoop up to the copied packet. */
    method ReceiveFrame(frame: Frame)
      requires Valid() && hand.None?
      modifies this
      ensures Valid() && View() == Next(old(View()), Receive(frame)) && writer == old(writer)
    {
      stats := stats.(received := stats.received + 1);
      hand := Some(frame);
      arrived := arrived + [frame];
    }

    /** The non-blocking send. */
    method OfferFrame()
      requires Valid() && hand.Some?
      modifies this
      ensures Valid() && View() == Next(old(View()), Offer) && writer == old(writer)
    {
      if |packets| < QUEUE_SIZE {
        packets := packets + [hand.value];
        fates := fates + [true];
      } else {
        stats := stats.(dropped := stats.dropped + 1);
        fates := fates + [false];
      }
      hand := None;
    }

    /** processLoop taking one packet. */
    method ProcessFrame(now: Time, created: bool)
      requires Valid() && packets != [] && (writer != null ==> now.mono >= writer.clock)
      modifies this, writer
      ensures Valid() && View() == Next(old(View()), Process(now, created)) && writer == old(writer)
    {
      hide WriteSpec, Succeeds, WriterInvariant, OnDisk;
      var frame := packets[0];
      packets := packets[1..];
      HandlePacket(frame, now, created);
    }

    method HandlePacket(frame: Frame, now: Time, created: bool)
      requires Valid() && (writer != null ==> now.mono >= writer.clock)
      modifies this, writer
      ensures Valid() && View() == HandleSpec(old(View()), frame, now, created) && writer == old(writer)
    {
      hide WriteSpec, Succeeds, WriterInvariant, OnDisk;
      handled := handled + [frame];
      if writer != null {
        var ok := writer.Write(now, frame, created);
        if ok {
          stats := stats.(written := stats.written + 1);
        } else {
          failed := failed + 1;
        }
      }
      if forwarding { stats := stats.(forwarded := stats.forwarded + 1); }
    }
  }

  // ---------------------------------------------------------------------------
  // Accounting over every interleaving
  // ---------------------------------------------------------------------------

  /** The packets that were queued, in order of arrival. */
  function Kept(arrived: seq<Frame>, fates: seq<bool>): seq<Frame>
    requires |fates| <= |arrived|
  {
    if fates == [] then []
    else
      var n := |fates| - 1;
      Kept(arrived, fates[..n]) + if fates[n] then [arrived[n]] else []
  }

  function Drops(fates: seq<bool>): nat
  {
    if fates == [] then 0 else Drops(fates[..|fates| - 1]) + if fates[|fates| - 1] then 0 else 1
  }

  /** A packet is undecided only while the receiver holds it. */
  predicate InHand(s: State)
  {
    match s.hand
    case None => |s.fates| == |s.arrived|
    case Some(frame) => |s.fates| + 1 == |s.arrived| && s.arrived[|s.fates|] == frame
  }

  /** What was queued has been handled, oldest first, or is still queued. */
  predicate QueueInvariant(s: State)
  {
    && InHand(s) && |s.queue| <= QUEUE_SIZE
    && Kept(s.arrived, s.fates) == s.handled + s.queue
    && s.stats.received == |s.arrived| && s.stats.dropped == Drops(s.fates)
    && s.stats.forwarded == if s.forwarding then |s.handled| else 0
  }

  /** In-order subsequence. */
  predicate Subsequence(a: seq<seq<byte>>, b: seq<seq<byte>>)
    decreases |b|
  {
    a == [] ||
    (b != [] && if a[|a| - 1] == b[|b| - 1] then Subsequence(a[..|a| - 1], b[..|b| - 1])
                else Subsequence(a, b[..|b| - 1]))
  }

  function DataOf(ps: seq<Packet>): seq<seq<byte>>
  {
    seq(|ps|, i requires 0 <= i < |ps| => ps[i].data)
  }

  /** Every handled packet started a file, was stored or met a file that could not be created. */
  predicate WriterAccounts(s: State)
  {
    match s.writer
    case None => s.stats.written == 0 && s.failed == 0
    case Some(w) =>
      && WriterInvariant(w)
      && Subsequence(DataOf(Stored(w.files)), s.handled)
      && s.stats.written == |Stored(w.files)| + |w.files|
      && |s.handled| == s.stats.written + s.failed
  }

  lemma {:induction false} KeptIgnoresLater(arrived: seq<Frame>, fates: seq<bool>, frame: Frame)
    requires |fates| <= |arrived|
    ensures Kept(arrived + [frame], fates) == Kept(arrived, fates)
  {
    if fates != [] { KeptIgnoresLater(arrived, fates[..|fates| - 1], frame); }
  }

  lemma KeptAppends(arrived: seq<Frame>, fates: seq<bool>, kept: bool)
    requires |fates| < |arrived|
    ensures Kept(arrived, fates + [kept]) == Kept(arrived, fates) + if kept then [arrived[|fates|]] else []
    ensures Drops(fates + [kept]) == Drops(fates) + if kept then 0 else 1
  {
    assert (fates + [kept])[..|fates|] == fates;
  }

  lemma ReceiveKeepsQueue(s: State, frame: Frame)
    requires QueueInvariant(s) && s.hand.None?
    ensures QueueInvariant(Next(s, Receive(frame)))
  {
    KeptIgnoresLater(s.arrived, s.fates, frame);
    hide Kept, Drops;
  }

  lemma OfferKeepsQueue(s: State)
    requires QueueInvariant(s) && s.hand.Some?
    ensures QueueInvariant(Next(s, Offer))
  {
    KeptAppends(s.arrived, s.fates, |s.queue| < QUEUE_SIZE);
    hide Kept, Drops;
    assert s.handled + (s.queue + [s.hand.value]) == s.handled + s.queue + [s.hand.value];
  }

  /** An offer drops its packet if and only if 100000 are already waiting; otherwise it joins the end. */
  lemma OfferDropsIff(s: State)
    requires s.hand.Some?
    ensures var s' := Next(s, Offer);
            && s'.hand.None?
            && (s'.stats.dropped > s.stats.dropped <==> |s.queue| >= 100000)
            && (|s.queue| >= 100000 ==> s'.queue == s.queue && s'.fates == s.fates + [false])
            && (|s.queue| < 100000 ==> s'.queue == s.queue + [s.hand.value] && s'.fates == s.fates + [true])
  {
  }

  lemma ProcessKeepsQueue(s: State, now: Time, created: bool)
    requires QueueInvariant(s) && Enabled(s, Process(now, created))
    ensures QueueInvariant(Next(s, Process(now, created)))
  {
    hide Kept, Drops, WriteSpec, Succeeds;
    assert s.handled + s.queue == s.handled + [s.queue[0]] + s.queue[1..];
  }

  lemma StepKeepsQueue(s: State, a: Action)
    requires QueueInvariant(s) && Enabled(s, a)
    ensures QueueInvariant(Next(s, a))
  {
    hide QueueInvariant, Next;
    match a
    case Receive(frame) => ReceiveKeepsQueue(s, frame);
    case Offer => OfferKeepsQueue(s);
    case Process(now, created) => ProcessKeepsQueue(s, now, created);
  }

  lemma {:induction false} SubsequenceOfLonger(a: seq<seq<byte>>, b: seq<seq<byte>>)
    requires Subsequence(a, b)
    ensures a != [] ==> Subsequence(a[..|a| - 1], b)
    decreases |b|
  {
    if a != [] && b != [] {
      var a', b' := a[..|a| - 1], b[..|b| - 1];
      if a[|a| - 1] == b[|b| - 1] {
        SubsequenceOfLonger(a', b');
      } else {
        SubsequenceOfLonger(a, b');
        if a' != [] { SubsequenceOfLonger(a', b'); }
      }
    }
  }

  /** Extending the longer sequence, or both by the same element, keeps the relation. */
  lemma SubsequenceExtends(a: seq<seq<byte>>, b: seq<seq<byte>>, x: seq<byte>)
    requires Subsequence(a, b)
    ensures Subsequence(a, b + [x]) && Subsequence(a + [x], b + [x])
  {
    assert (b + [x])[..|b|] == b && (a + [x])[..|a|] == a;
    SubsequenceOfLonger(a, b);
  }

  lemma WriteKeepsOrder(w: Writer, handled: seq<seq<byte>>, now: Time, data: seq<byte>, created: bool)
    requires WriterInvariant(w) && now.mono >= w.clock && Subsequence(DataOf(Stored(w.files)), handled)
    ensures Subsequence(DataOf(Stored(WriteSpec(w, now, data, created).files)), handled + [data])
  {
    hide WriterInvariant, WriteSpec, Stored, Subsequence, FileDue, Succeeds, Rotates;
    WriteStores(w, now, data, created);
    var ps := Stored(w.files);
    SubsequenceExtends(DataOf(ps), handled, data);
    assert DataOf(ps + [Packet(now, data)]) == DataOf(ps) + [data];
    assert ps + [] == ps;
  }

  lemma StepKeepsAccounts(s: State, a: Action)
    requires WriterAccounts(s) && Enabled(s, a)
    ensures WriterAccounts(Next(s, a))
  {
    if a.Process? && s.writer.Some? {
      WriteKeepsInvariant(s.writer.value, a.now, s.queue[0], a.created);
      WriteStores(s.writer.value, a.now, s.queue[0], a.created);
      WriteKeepsOrder(s.writer.value, s.handled, a.now, s.queue[0], a.created);
    }
    hide WriterInvariant, WriteSpec, Stored, Subsequence, DataOf, FileDue;
  }

  lemma {:induction false} RunKeepsBoth(s: State, run: seq<Action>)
    requires QueueInvariant(s) && WriterAccounts(s) && Exec(s, run).Some?
    ensures QueueInvariant(Exec(s, run).value) && WriterAccounts(Exec(s, run).value)
    decreases |run|
  {
    if run != [] {
      hide QueueInvariant, WriterAccounts, Next, Enabled;
      StepKeepsQueue(s, run[0]);
      StepKeepsAccounts(s, run[0]);
      RunKeepsBoth(Next(s, run[0]), run[1..]);
    }
  }

  lemma {:induction false} FatesAddUp(arrived: seq<Frame>, fates: seq<bool>)
    requires |fates| <= |arrived|
    ensures |Kept(arrived, fates)| + Drops(fates) == |fates|
  {
    if fates != [] { FatesAddUp(arrived, fates[..|fates| - 1]); }
  }

  /** No step adds or removes the writer or changes its interval. */
  lemma {:induction false} RunKeepsWriter(s: State, run: seq<Action>)
    requires Exec(s, run).Some?
    ensures Exec(s, run).value.writer.Some? <==> s.writer.Some?
    ensures s.writer.Some? ==> Exec(s, run).value.writer.value.units == s.writer.value.units
    decreases |run|
  {
    hide AppendTo, Rotates, Succeeds;
    if run != [] { RunKeepsWriter(Next(s, run[0]), run[1..]); }
  }

  function Begin(forwarding: bool, writer: Option<Writer>): State
  {
    State([], [], None, [], [], forwarding, Stats(0, 0, 0, 0), writer, 0)
  }

  /** At every state of every interleaving: received is dropped, queued, handled or in the
      receiver's hand; the queue is bounded; the handled packets are the oldest of those queued, in
      order of arrival; and with a writer, every handled packet is stored less than `units` after its
      file was started, started a file itself, or met a creation failure. */
  lemma EveryInterleavingAccounts(run: seq<Action>, forwarding: bool, units: int, clock: int, writing: bool)
    requires Exec(Begin(forwarding, if writing then Some(Start(units, clock)) else None), run).Some?
    ensures var s := Exec(Begin(forwarding, if writing then Some(Start(units, clock)) else None), run).value;
            && s.stats.received == s.stats.dropped + |s.queue| + |s.handled| + (if s.hand.Some? then 1 else 0)
            && |s.queue| <= QUEUE_SIZE
            && |s.fates| <= |s.arrived| && s.handled <= Kept(s.arrived, s.fates)
            && (s.writer.Some? <==> writing)
            && (writing ==>
                  && s.writer.value.units == units && FilesFit(s.writer.value.files, units)
                  && Subsequence(DataOf(Stored(s.writer.value.files)), s.handled)
                  && s.stats.written == |Stored(s.writer.value.files)| + |s.writer.value.files|
                  && |s.handled| == s.stats.written + s.failed)
  {
    var begin := Begin(forwarding, if writing then Some(Start(units, clock)) else None);
    assert QueueInvariant(begin) && WriterAccounts(begin);
    RunKeepsBoth(begin, run);
    RunKeepsWriter(begin, run);
    hide Exec;
    var s := Exec(begin, run).value;
    FatesAddUp(s.arrived, s.fates);
    hide Kept, Drops, FilesFit, Subsequence, DataOf, Stored;
  }

  /** At every offer of the run fewer than 100000 packets are waiting. */
  predicate NeverFull(s: State, run: seq<Action>)
    decreases |run|
  {
    run == [] ||
    (Enabled(s, run[0]) && (run[0].Offer? ==> |s.queue| < 100000) && NeverFull(Next(s, run[0]), run[1..]))
  }

  function Offered(s: State): seq<Frame>
    requires |s.fates| <= |s.arrived|
  {
    s.arrived[..|s.fates|]
  }

  lemma {:induction false} RunDropsNothing(s: State, run: seq<Action>)
    requires Exec(s, run).Some? && NeverFull(s, run)
    ensures Exec(s, run).value.stats.dropped == s.stats.dropped
    decreases |run|
  {
    hide HandleSpec;
    if run != [] {
      StepDropsNothing(s, run[0]);
      hide Next, Enabled;
      RunDropsNothing(Next(s, run[0]), run[1..]);
    }
  }

  lemma StepDropsNothing(s: State, a: Action)
    requires Enabled(s, a) && (a.Offer? ==> |s.queue| < 100000)
    ensures Next(s, a).stats.dropped == s.stats.dropped
  {
  }

  lemma {:induction false} NoDropsKeepAll(arrived: seq<Frame>, fates: seq<bool>)
    requires |fates| <= |arrived| && Drops(fates) == 0
    ensures Kept(arrived, fates) == arrived[..|fates|]
  {
    if fates != [] {
      var n := |fates| - 1;
      NoDropsKeepAll(arrived, fates[..n]);
      assert arrived[..n + 1] == arrived[..n] + [arrived[n]];
    }
  }

  /** Where the queue never fills up, nothing is dropped and what was handled or still waits is
      everything that was offered, in order. */
  lemma NothingLostBelowCapacity(run: seq<Action>, forwarding: bool, units: int, clock: int, writing: bool)
    requires var begin := Begin(forwarding, if writing then Some(Start(units, clock)) else None);
             Exec(begin, run).Some? && NeverFull(begin, run)
    ensures var s := Exec(Begin(forwarding, if writing then Some(Start(units, clock)) else None), run).value;
            && s.stats.dropped == 0 && |s.fates| <= |s.arrived| && s.handled + s.queue == Offered(s)
  {
    var begin := Begin(forwarding, if writing then Some(Start(units, clock)) else None);
    assert QueueInvariant(begin) && WriterAccounts(begin);
    RunKeepsBoth(begin, run);
    RunDropsNothing(begin, run);
    hide Exec, WriterAccounts, NeverFull;
    var s := Exec(begin, run).value;
    NoDropsKeepAll(s.arrived, s.fates);
    hide Kept, Drops;
  }

  // ---------------------------------------------------------------------------
  // Which capture files survive
  // ---------------------------------------------------------------------------

  /** Every packet is processed on a wall clock that runs with the monotonic clock. */
  predicate SteadyRun(run: seq<Action>, offset: int)
  {
    forall i :: 0 <= i < |run| && run[i].Process? ==> run[i].now.wall == run[i].now.mono + offset
  }

  predicate SteadyState(s: State, offset: int)
  {
    s.writer.Some? ==> Steady(s.writer.value.files, offset)
  }

  lemma {:induction false} RunStaysSteady(s: State, run: seq<Action>, offset: int)
    requires SteadyState(s, offset) && SteadyRun(run, offset) && Exec(s, run).Some?
    ensures SteadyState(Exec(s, run).value, offset)
    decreases |run|
  {
    if run != [] {
      assert run[0].Process? ==> run[0].now.wall == run[0].now.mono + offset;
      RunStaysSteady(Next(s, run[0]), run[1..], offset);
      hide Exec;
    }
  }

  lemma FitsStorable(files: seq<PcapFile>, units: int)
    requires FilesFit(files, units)
    ensures AllStorable(files)
  {
  }

  /** With a rotation interval of a second or more and a clock that is not set, no interleaving
      loses a capture file: each is on disk under its own name. */
  lemma SteadyClockKeepsFiles(run: seq<Action>, forwarding: bool, units: int, clock: int, offset: int)
    requires units >= SECOND && SteadyRun(run, offset)
    requires Exec(Begin(forwarding, Some(Start(units, clock))), run).Some?
    ensures var w := Exec(Begin(forwarding, Some(Start(units, clock))), run).value.writer;
            w.Some? && AllStorable(w.value.files) && |DiskOf(w.value.files)| == |w.value.files|
  {
    var begin := Begin(forwarding, Some(Start(units, clock)));
    assert QueueInvariant(begin) && WriterAccounts(begin);
    RunKeepsBoth(begin, run);
    RunKeepsWriter(begin, run);
    RunStaysSteady(begin, run, offset);
    hide Exec, QueueInvariant, DiskOf, FilesFit, Spaced, Steady, DistinctNames, Subsequence;
    var w := Exec(begin, run).value.writer.value;
    FitsStorable(w.files, units);
    SteadyNamesDiffer(w.files, units, offset);
    AllSurviveIff(w.files);
  }

  /** The run of three steps that hands one frame to the writer. */
  function OneFrame(now: Time): seq<Action>
  {
    [Receive([]), Offer, Process(now, true)]
  }

  lemma OneFrameStarts(s: State, now: Time, rest: seq<Action>) returns (s': State)
    requires s.hand.None? && s.queue == [] && s.writer.Some?
    requires Rotates(s.writer.value, now) && now.mono >= s.writer.value.clock
    ensures Exec(s, OneFrame(now) + rest) == Exec(s', rest) && s'.hand.None? && s'.queue == []
    ensures s'.writer == Some(RotateSpec(s.writer.value.(clock := now.mono), now, true))
  {
    var run := OneFrame(now) + rest;
    var s1 := Next(s, Receive([]));
    var s2 := Next(s1, Offer);
    s' := Next(s2, Process(now, true));
    assert run[1..] == [Offer, Process(now, true)] + rest;
    assert run[1..][1..] == [Process(now, true)] + rest;
    assert run[1..][1..][1..] == rest;
    assert Exec(s, run) == Exec(s1, run[1..]) == Exec(s2, run[1..][1..]) == Exec(s', rest);
  }

  predicate LostFile(s: State)
  {
    && s.writer.Some? && AllStorable(s.writer.value.files)
    && |DiskOf(s.writer.value.files)| < |s.writer.value.files|
  }

  lemma SameSecond(t0: Time, t1: Time)
    requires t0.wall / SECOND == t1.wall / SECOND
    ensures AllStorable([PcapFile(t0, []), PcapFile(t1, [])]) && |DiskOf([PcapFile(t0, []), PcapFile(t1, [])])| < 2
  {
    hide DiskOf;
    var files := [PcapFile(t0, []), PcapFile(t1, [])];
    assert FileName(files[0]) == FileName(files[1]);
    AllSurviveIff(files);
  }

  lemma TwoFrames(forwarding: bool, units: int, later: nat) returns (s: State)
    requires later >= units
    ensures Exec(Begin(forwarding, Some(Start(units, 0))), OneFrame(Time(0, 0)) + OneFrame(Time(later, later)))
            == Some(s)
    ensures s.writer.Some? && s.writer.value.files == [PcapFile(Time(0, 0), []), PcapFile(Time(later, later), [])]
  {
    hide Exec;
    var t0, t1 := Time(0, 0), Time(later, later);
    s := OneFrameStarts(Begin(forwarding, Some(Start(units, 0))), t0, OneFrame(t1));
    assert OneFrame(t1) + [] == OneFrame(t1);
    s := OneFrameStarts(s, t1, []);
    ExecNone(s);
  }

  lemma ExecNone(s: State)
    ensures Exec(s, []) == Some(s)
  {
  }

  /** With a shorter interval the second file can replace the first, on a steady clock. */
  lemma ShortUnitsLoseFile(forwarding: bool, units: int)
    requires units < SECOND
    ensures exists run ::
              && SteadyRun(run, 0) && Exec(Begin(forwarding, Some(Start(units, 0))), run).Some?
              && LostFile(Exec(Begin(forwarding, Some(Start(units, 0))), run).value)
  {
    hide Exec, DiskOf, AllStorable;
    var later := if units > 0 then units else 0;
    var s := TwoFrames(forwarding, units, later);
    SameSecond(Time(0, 0), Time(later, later));
    assert SteadyRun(OneFrame(Time(0, 0)) + OneFrame(Time(later, later)), 0);
  }
}
