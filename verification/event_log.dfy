/** The rotating event log (`_raw_append` of scripts/resilience/runtime.py) and its readers' cursors
    (scripts/resilience/faultctl.py). An append is one step: nobody else rotates between its check and its write. */
module EventLog {
  import opened Options

  const ROTATE_AT: nat := 0x100_0000

  datatype Event = Event(kind: string, caseId: Option<string>, stage: Option<string>, mode: Option<string>)

  /** A line of the log: its event, unless it does not parse, and its length in bytes, newline included. */
  datatype Line = Line(event: Option<Event>, size: nat)

  datatype LogFile = LogFile(inode: nat, lines: seq<Line>)

  /** `events.previous.jsonl` and `events.jsonl`. */
  datatype Disk = Disk(previous: Option<LogFile>, current: Option<LogFile>)

  function Size(lines: seq<Line>): nat {
    if |lines| == 0 then 0 else lines[0].size + Size(lines[1..])
  }

  function LinesOf(f: Option<LogFile>): seq<Line> { if f.Some? then f.value.lines else [] }

  function Retained(d: Disk): seq<Line> { LinesOf(d.previous) + LinesOf(d.current) }

  // ---------------------------------------------------------------- appending

  predicate Rotates(d: Disk) { d.current.Some? && Size(d.current.value.lines) >= ROTATE_AT }

  /** After the rename the old previous file is gone. */
  function Rotated(d: Disk): Disk { if Rotates(d) then Disk(d.current, None) else d }

  /** `inode` is what a newly created file would get: not zero, and not that of a file still there. The inode of
      a file that is gone can come back. */
  predicate Fresh(d: Disk, inode: nat) {
    inode != 0 && (Rotated(d).previous.Some? ==> inode != Rotated(d).previous.value.inode)
  }

  function Append(d: Disk, line: Line, inode: nat): Disk {
    var r := Rotated(d);
    var f := if r.current.Some? then r.current.value else LogFile(inode, []);
    r.(current := Some(f.(lines := f.lines + [line])))
  }

  class EventFiles {
    var previous: Option<LogFile>
    var current: Option<LogFile>

    constructor ()
      ensures State() == Disk(None, None)
    {
      previous, current := None, None;
    }

    ghost function State(): Disk
      reads this
    {
      Disk(previous, current)
    }

    method RawAppend(line: Line, inode: nat)
      modifies this
      ensures State() == Append(old(State()), line, inode)
    {
      if current.Some? && Size(current.value.lines) >= ROTATE_AT {
        previous, current := current, None;
      }
      if current.None? {
        current := Some(LogFile(inode, []));
      }
      current := Some(LogFile(current.value.inode, current.value.lines + [line]));
    }

    /** Where the log ends now; zero when there is no file yet. */
    method EventCursor() returns (c: Cursor)
      ensures c == CursorAt(State())
    {
      if current.None? {
        return Cursor(0, 0);
      }
      c := Cursor(current.value.inode, Size(current.value.lines));
    }
  }

  // ---------------------------------------------------------------- cursors and scans

  datatype Cursor = Cursor(inode: nat, position: nat)

  function CursorAt(d: Disk): Cursor {
    if d.current.Some? then Cursor(d.current.value.inode, Size(d.current.value.lines)) else Cursor(0, 0)
  }

  /** Lines passed over when reading starts at a byte position. A position inside a line leaves the rest of that
      line, which does not parse. */
  function Skipped(lines: seq<Line>, position: int): (k: nat)
    ensures k <= |lines|
    ensures position > 0 && |lines| > 0 ==> k > 0
  {
    if |lines| == 0 || position <= 0 then 0 else 1 + Skipped(lines[1..], position - lines[0].size)
  }

  function ReadFrom(f: LogFile, position: nat): seq<Line> { f.lines[Skipped(f.lines, position)..] }

  /** Whether a file's identity is the cursor's. */
  predicate Is(f: Option<LogFile>, c: Cursor) { f.Some? && f.value.inode == c.inode }

  /** The lines one poll looks at, in order. */
  function Scan(d: Disk, c: Cursor): seq<Line> {
    if c.inode == 0 then Retained(d)
    else
      (if Is(d.previous, c) then ReadFrom(d.previous.value, c.position) else [])
      + (if Is(d.current, c) then ReadFrom(d.current.value, c.position) else [])
      + (if Is(d.previous, c) && !Is(d.current, c) then LinesOf(d.current) else [])
  }

  datatype Query = Query(kind: string, caseId: string, stage: Option<string>, mode: Option<string>)

  predicate Matches(line: Line, q: Query) {
    && line.event.Some?
    && line.event.value.kind == q.kind && line.event.value.caseId == Some(q.caseId)
    && (q.stage.None? || line.event.value.stage == q.stage)
    && (q.mode.None? || line.event.value.mode == q.mode)
  }

  /** Any event of the kind and case answers a query that asks for nothing else; asking for a stage or a mode as well
      keeps exactly the answers that have it. */
  lemma MatchesMeaning(line: Line, kind: string, caseId: string, stage: string, mode: string)
    ensures Matches(line, Query(kind, caseId, None, None))
       <==> exists v: Event :: line.event == Some(v) && v.kind == kind && v.caseId == Some(caseId)
    ensures Matches(line, Query(kind, caseId, Some(stage), None))
       <==> Matches(line, Query(kind, caseId, None, None)) && line.event.value.stage == Some(stage)
    ensures Matches(line, Query(kind, caseId, Some(stage), Some(mode)))
       <==> Matches(line, Query(kind, caseId, Some(stage), None)) && line.event.value.mode == Some(mode)
    ensures Matches(line, Query(kind, caseId, None, Some(mode)))
       <==> Matches(line, Query(kind, caseId, None, None)) && line.event.value.mode == Some(mode)
  {
  }

  predicate HasMatch(lines: seq<Line>, q: Query) {
    exists k :: 0 <= k < |lines| && Matches(lines[k], q)
  }

  /** `k` is the first match. */
  ghost predicate FirstMatch(lines: seq<Line>, q: Query, k: nat) {
    k < |lines| && Matches(lines[k], q) && !HasMatch(lines[..k], q)
  }

  method FindIn(lines: seq<Line>, q: Query) returns (found: Option<nat>)
    ensures found.Some? ==> FirstMatch(lines, q, found.value)
    ensures found.None? ==> !HasMatch(lines, q)
  {
    for k := 0 to |lines|
      invariant !HasMatch(lines[..k], q)
    {
      if Matches(lines[k], q) {
        return Some(k);
      }
    }
    found := None;
  }

  /** The existing files, the previous one marked. */
  method ListPaths(d: Disk) returns (paths: seq<(LogFile, bool)>)
    ensures Paths(d, paths)
  {
    paths := [];
    if d.previous.Some? {
      paths := paths + [(d.previous.value, true)];
    }
    if d.current.Some? {
      paths := paths + [(d.current.value, false)];
    }
  }

  /** The files with the cursor's identity, to be read from its position. */
  method FindOrigins(paths: seq<(LogFile, bool)>, c: Cursor) returns (scans: seq<(LogFile, nat)>, fromPrevious: bool)
    ensures scans == Origins(paths, c)
    ensures fromPrevious <==> exists k :: 0 <= k < |paths| && paths[k].1 && paths[k].0.inode == c.inode
  {
    scans, fromPrevious := [], false;
    for k := 0 to |paths|
      invariant fromPrevious <==> exists j :: 0 <= j < k && paths[j].1 && paths[j].0.inode == c.inode
      invariant scans == Origins(paths[..k], c)
    {
      assert paths[..k + 1][..k] == paths[..k];
      if paths[k].0.inode == c.inode {
        scans := scans + [(paths[k].0, c.position)];
        fromPrevious := fromPrevious || paths[k].1;
      }
    }
    assert paths[..|paths|] == paths;
  }

  /** The files to read and where to start in each, as one poll collects them. */
  method CollectScans(d: Disk, c: Cursor) returns (scans: seq<(LogFile, nat)>)
    ensures Joined(scans) == Scan(d, c)
  {
    hide Joined, Origins;
    var paths := ListPaths(d);
    if c.inode != 0 {
      var fromPrevious;
      scans, fromPrevious := FindOrigins(paths, c);
      OriginsJoined(d, c, paths);
      FromPrevious(d, c, paths);
      if fromPrevious && d.current.Some? && d.current.value.inode != c.inode {
        JoinedSnoc(scans, d.current.value, 0);
        scans := scans + [(d.current.value, 0)];
      }
    } else {
      scans := [];
      for k := 0 to |paths|
        invariant scans == seq(k, i requires 0 <= i < k => (paths[i].0, 0))
      {
        scans := scans + [(paths[k].0, 0)];
      }
      WholeJoined(d, paths, scans);
    }
  }

  lemma FromPrevious(d: Disk, c: Cursor, paths: seq<(LogFile, bool)>)
    requires Paths(d, paths)
    ensures Is(d.previous, c) <==> exists k :: 0 <= k < |paths| && paths[k].1 && paths[k].0.inode == c.inode
  {
    if d.previous.Some? {
      assert paths[0] == (d.previous.value, true);
    }
  }

  function Origins(paths: seq<(LogFile, bool)>, c: Cursor): seq<(LogFile, nat)> {
    if |paths| == 0 then []
    else
      var last := paths[|paths| - 1].0;
      Origins(paths[..|paths| - 1], c) + if last.inode == c.inode then [(last, c.position)] else []
  }

  /** What reading the collected files gives. */
  function Joined(scans: seq<(LogFile, nat)>): seq<Line> {
    if |scans| == 0 then []
    else Joined(scans[..|scans| - 1]) + ReadFrom(scans[|scans| - 1].0, scans[|scans| - 1].1)
  }

  lemma JoinedSnoc(scans: seq<(LogFile, nat)>, f: LogFile, position: nat)
    ensures Joined(scans + [(f, position)]) == Joined(scans) + ReadFrom(f, position)
  {
    assert (scans + [(f, position)])[..|scans|] == scans;
  }

  predicate Paths(d: Disk, paths: seq<(LogFile, bool)>) {
    paths == (if d.previous.Some? then [(d.previous.value, true)] else [])
             + if d.current.Some? then [(d.current.value, false)] else []
  }

  lemma OriginsSnoc(paths: seq<(LogFile, bool)>, f: LogFile, previous: bool, c: Cursor)
    ensures Joined(Origins(paths + [(f, previous)], c))
            == Joined(Origins(paths, c)) + if f.inode == c.inode then ReadFrom(f, c.position) else []
  {
    assert (paths + [(f, previous)])[..|paths|] == paths;
    if f.inode == c.inode {
      JoinedSnoc(Origins(paths, c), f, c.position);
    } else {
      assert Origins(paths, c) + [] == Origins(paths, c);
      assert Joined(Origins(paths, c)) + [] == Joined(Origins(paths, c));
    }
  }

  lemma OriginsJoined(d: Disk, c: Cursor, paths: seq<(LogFile, bool)>)
    requires Paths(d, paths)
    ensures Joined(Origins(paths, c)) == (if Is(d.previous, c) then ReadFrom(d.previous.value, c.position) else [])
                                         + if Is(d.current, c) then ReadFrom(d.current.value, c.position) else []
  {
    hide Joined, Origins, ReadFrom;
    var first: seq<(LogFile, bool)> := if d.previous.Some? then [(d.previous.value, true)] else [];
    NothingJoined(c);
    if d.previous.Some? {
      OriginsSnoc([], d.previous.value, true, c);
      assert [] + first == first;
    }
    if d.current.Some? {
      OriginsSnoc(first, d.current.value, false, c);
    }
    assert first + [] == first;
  }

  lemma NothingJoined(c: Cursor)
    ensures Joined(Origins([], c)) == []
  {
  }

  lemma WholeJoined(d: Disk, paths: seq<(LogFile, bool)>, scans: seq<(LogFile, nat)>)
    requires Paths(d, paths) && |scans| == |paths|
    requires forall i :: 0 <= i < |scans| ==> scans[i] == (paths[i].0, 0)
    ensures Joined(scans) == Retained(d)
  {
    if |scans| > 0 {
      JoinedSnoc([], scans[0].0, 0);
      assert [] + [scans[0]] == scans[..1];
      if |scans| == 2 {
        JoinedSnoc([scans[0]], scans[1].0, 0);
        assert [scans[0]] + [scans[1]] == scans;
      }
    }
  }

  /** The first match of the first poll that has one; a timeout, with `poll` the number of polls, if none has. */
  ghost predicate Reported(disks: seq<Disk>, c: Cursor, q: Query, found: Option<Event>, poll: nat) {
    && poll <= |disks| && (forall i :: 0 <= i < poll ==> !HasMatch(Scan(disks[i], c), q))
    && (found.None? ==> poll == |disks|)
    && (found.Some? ==>
          && poll < |disks|
          && exists k: nat :: FirstMatch(Scan(disks[poll], c), q, k) && found == Scan(disks[poll], c)[k].event)
  }

  /** Polls until a match or the deadline; at least one poll is made. `disks` is what each poll meets. */
  method FindEvent(disks: seq<Disk>, c: Cursor, q: Query) returns (found: Option<Event>, poll: nat)
    requires |disks| > 0
    ensures Reported(disks, c, q, found, poll)
  {
    poll := 0;
    while poll < |disks|
      invariant poll <= |disks|
      invariant forall i :: 0 <= i < poll ==> !HasMatch(Scan(disks[i], c), q)
    {
      var scans := CollectScans(disks[poll], c);
      var k := FindIn(Joined(scans), q);
      if k.Some? {
        found := Joined(scans)[k.value].event;
        return;
      }
      poll := poll + 1;
    }
    found := None;
  }

  // ---------------------------------------------------------------- runs

  /** The disk, everything ever appended, and how often the log was rotated. */
  datatype Log = Log(disk: Disk, all: seq<Line>, rotations: nat)

  const EMPTY := Log(Disk(None, None), [], 0)

  datatype Step = Step(line: Line, inode: nat)

  function Next(log: Log, s: Step): Log {
    Log(Append(log.disk, s.line, s.inode), log.all + [s.line], log.rotations + if Rotates(log.disk) then 1 else 0)
  }

  function Run(log: Log, steps: seq<Step>): Log {
    if |steps| == 0 then log else Next(Run(log, steps[..|steps| - 1]), steps[|steps| - 1])
  }

  /** Lines are not empty, and every step's inode is one the file system could give. */
  predicate Possible(log: Log, steps: seq<Step>) {
    |steps| == 0
    || (var last := |steps| - 1;
        && Possible(log, steps[..last])
        && steps[last].line.size > 0 && Fresh(Run(log, steps[..last]).disk, steps[last].inode))
  }

  ghost predicate NonEmpty(lines: seq<Line>) {
    forall k :: 0 <= k < |lines| ==> lines[k].size > 0
  }

  ghost predicate WellFormed(log: Log) {
    && NonEmpty(log.all)
    && |Retained(log.disk)| <= |log.all| && Retained(log.disk) == log.all[|log.all| - |Retained(log.disk)|..]
    && (log.disk.current.None? ==> log.disk.previous.None? && log.all == [])
    && (log.disk.current.Some? ==> log.disk.current.value.inode != 0 && |log.disk.current.value.lines| > 0)
    && (log.disk.previous.Some? ==> log.disk.previous.value.inode != 0 && |log.disk.previous.value.lines| > 0)
    && (log.disk.current.Some? && log.disk.previous.Some? ==>
          log.disk.current.value.inode != log.disk.previous.value.inode)
    && (log.rotations == 0 <==> log.disk.previous.None?)
  }

  lemma NextWellFormed(log: Log, s: Step)
    requires WellFormed(log) && s.line.size > 0 && Fresh(log.disk, s.inode)
    ensures WellFormed(Next(log, s))
  {
    var d, n := log.disk, Next(log, s);
    var dropped := |log.all| - |Retained(d)|;
    if Rotates(d) {
      assert Retained(n.disk) == LinesOf(d.current) + [s.line];
      assert log.all[dropped..][|LinesOf(d.previous)|..] == LinesOf(d.current);
    } else {
      assert Retained(n.disk) == Retained(d) + [s.line];
    }
  }

  lemma {:induction false} RunWellFormed(log: Log, steps: seq<Step>)
    requires WellFormed(log) && Possible(log, steps)
    ensures WellFormed(Run(log, steps))
  {
    if |steps| == 0 {
    } else {
      RunWellFormed(log, steps[..|steps| - 1]);
      NextWellFormed(Run(log, steps[..|steps| - 1]), steps[|steps| - 1]);
    }
  }

  // ---------------------------------------------------------------- what a cursor sees

  /** `tail` is what follows the first `position` bytes of a file. */
  ghost predicate Continues(f: Option<LogFile>, c: Cursor, tail: seq<Line>) {
    Is(f, c) && exists head :: Size(head) == c.position && f.value.lines == head + tail
  }

  /** How a cursor taken when `n` lines had been appended relates to the log `turns` rotations later. */
  ghost predicate Tracks(log: Log, c: Cursor, n: nat, turns: nat) {
    && n <= |log.all| && c.inode != 0 && c.position > 0
    && (turns == 0 ==> Continues(log.disk.current, c, log.all[n..]))
    && (turns == 1 ==>
          && |LinesOf(log.disk.current)| <= |log.all| - n
          && Continues(log.disk.previous, c, log.all[n..|log.all| - |LinesOf(log.disk.current)|]))
    && (turns >= 2 ==> n + |Retained(log.disk)| <= |log.all|)
  }

  lemma CursorTracks(log: Log)
    requires WellFormed(log) && log.disk.current.Some?
    ensures Tracks(log, CursorAt(log.disk), |log.all|, 0)
  {
    var lines := log.disk.current.value.lines;
    assert lines == lines + log.all[|log.all|..];
    var k := |LinesOf(log.disk.previous)|;
    assert lines[0] == Retained(log.disk)[k];
    SizePositive(lines);
  }

  lemma SizePositive(lines: seq<Line>)
    requires |lines| > 0 && lines[0].size > 0
    ensures Size(lines) > 0
  {
  }

  lemma NextTracks(log: Log, s: Step, c: Cursor, n: nat, turns: nat)
    requires WellFormed(log) && s.line.size > 0 && Fresh(log.disk, s.inode) && Tracks(log, c, n, turns)
    ensures Tracks(Next(log, s), c, n, turns + if Rotates(log.disk) then 1 else 0)
  {
    var d, next := log.disk, Next(log, s);
    if turns == 0 {
      var head :| Size(head) == c.position && d.current.value.lines == head + log.all[n..];
      if Rotates(d) {
        assert next.all[n..|next.all| - 1] == log.all[n..];
      } else {
        assert d.current.value.lines + [s.line] == head + next.all[n..];
      }
    } else if turns == 1 && !Rotates(d) {
      var end := |log.all| - |LinesOf(d.current)|;
      assert next.all[n..end] == log.all[n..end];
    }
  }

  lemma {:induction false} RunTracks(log: Log, steps: seq<Step>, c: Cursor, n: nat)
    requires WellFormed(log) && Possible(log, steps) && Tracks(log, c, n, 0)
    ensures log.rotations <= Run(log, steps).rotations
    ensures Tracks(Run(log, steps), c, n, Run(log, steps).rotations - log.rotations)
  {
    if |steps| == 0 {
    } else {
      var init := steps[..|steps| - 1];
      RunTracks(log, init, c, n);
      RunWellFormed(log, init);
      var mid := Run(log, init);
      NextTracks(mid, steps[|steps| - 1], c, n, mid.rotations - log.rotations);
    }
  }

  lemma {:induction false} SkipHead(head: seq<Line>, tail: seq<Line>)
    requires NonEmpty(head)
    ensures Skipped(head + tail, Size(head)) == |head|
  {
    if |head| == 0 {
    } else {
      SkipHead(head[1..], tail);
      assert (head + tail)[1..] == head[1..] + tail;
    }
  }

  lemma ReadTail(f: Option<LogFile>, c: Cursor, tail: seq<Line>)
    requires Continues(f, c, tail) && NonEmpty(f.value.lines)
    ensures ReadFrom(f.value, c.position) == tail
  {
    var head :| Size(head) == c.position && f.value.lines == head + tail;
    assert forall k :: 0 <= k < |head| ==> head[k] == f.value.lines[k];
    SkipHead(head, tail);
  }

  lemma SuffixNonEmpty(lines: seq<Line>, k: nat)
    requires NonEmpty(lines) && k <= |lines|
    ensures NonEmpty(lines[k..])
  {
  }

  lemma PartsNonEmpty(a: seq<Line>, b: seq<Line>)
    requires NonEmpty(a + b)
    ensures NonEmpty(a) && NonEmpty(b)
  {
    assert forall k :: 0 <= k < |a| ==> a[k] == (a + b)[k];
    assert forall k :: 0 <= k < |b| ==> b[k] == (a + b)[|a| + k];
  }

  lemma RetainedNonEmpty(log: Log)
    requires WellFormed(log)
    ensures NonEmpty(LinesOf(log.disk.previous)) && NonEmpty(LinesOf(log.disk.current))
  {
    hide NonEmpty;
    SuffixNonEmpty(log.all, |log.all| - |Retained(log.disk)|);
    PartsNonEmpty(LinesOf(log.disk.previous), LinesOf(log.disk.current));
  }

  /** After at most one rotation a poll looks at exactly the lines appended since the cursor, in order. */
  lemma ScanAfterOneRotation(log: Log, c: Cursor, n: nat, turns: nat)
    requires WellFormed(log) && Tracks(log, c, n, turns) && turns <= 1 && (turns == 1 ==> log.rotations > 0)
    ensures Scan(log.disk, c) == log.all[n..]
  {
    RetainedNonEmpty(log);
    var d := log.disk;
    if turns == 0 {
      ReadTail(d.current, c, log.all[n..]);
    } else {
      var end := |log.all| - |LinesOf(d.current)|;
      ReadTail(d.previous, c, log.all[n..end]);
      assert log.all[n..] == log.all[n..end] + log.all[end..];
      assert log.all[end..] == Retained(d)[|LinesOf(d.previous)|..];
    }
  }

  /** Nothing is looked at: the cursor's inode is on neither file, or it is the current file's and that file does not
      reach the cursor's position. */
  predicate LostSight(d: Disk, c: Cursor) {
    && !Is(d.previous, c)
    && (Is(d.current, c) ==> Skipped(d.current.value.lines, c.position) == |d.current.value.lines|)
  }

  /** After more rotations nothing older than the cursor is left, the lines seen are some of the last ones, and at
      least one appended line is missed; exactly when sight is lost all are. */
  lemma ScanAfterMore(log: Log, c: Cursor, n: nat, turns: nat)
    requires WellFormed(log) && Tracks(log, c, n, turns) && turns >= 2 && log.disk.current.Some?
    ensures |Scan(log.disk, c)| < |log.all| - n
    ensures Scan(log.disk, c) == log.all[|log.all| - |Scan(log.disk, c)|..]
    ensures Scan(log.disk, c) == [] <==> LostSight(log.disk, c)
  {
    hide Skipped;
    var d := log.disk;
    var scan, all := Scan(d, c), log.all;
    var retained := Retained(d);
    assert |LinesOf(d.current)| > 0;
    if Is(d.previous, c) {
      var k := Skipped(d.previous.value.lines, c.position);
      assert scan == retained[k..];
    } else if Is(d.current, c) {
      var k := Skipped(d.current.value.lines, c.position);
      assert scan == retained[|LinesOf(d.previous)| + k..];
    } else {
      assert scan == [];
    }
  }

  /** What a reader whose cursor was taken after `n` lines, `turns` rotations ago, looks at: never anything older
      than its cursor, exactly what was appended since, in order, if and only if `turns` is at most one, and after
      more rotations nothing if and only if sight is lost. */
  ghost predicate SeesSince(end: Log, c: Cursor, n: nat, turns: int) {
    var scan := Scan(end.disk, c);
    && n <= |end.all| && turns >= 0
    && |scan| <= |end.all| - n && scan == end.all[|end.all| - |scan|..]
    && (scan == end.all[n..] <==> turns <= 1)
    && (turns >= 2 ==> (scan == [] <==> LostSight(end.disk, c)))
  }

  lemma TrackedCursorSees(end: Log, c: Cursor, n: nat, turns: nat)
    requires WellFormed(end) && Tracks(end, c, n, turns) && turns <= end.rotations && end.disk.current.Some?
    ensures SeesSince(end, c, n, turns)
  {
    hide Scan, LostSight;
    if turns <= 1 {
      ScanAfterOneRotation(end, c, n, turns);
    } else {
      ScanAfterMore(end, c, n, turns);
    }
  }

  /** The cursor law over every run: a cursor taken once there is a file sees as above. */
  lemma CursorLaw(before: seq<Step>, after: seq<Step>)
    requires Possible(EMPTY, before) && Possible(Run(EMPTY, before), after) && |before| > 0
    ensures
      var start := Run(EMPTY, before);
      var end := Run(start, after);
      SeesSince(end, CursorAt(start.disk), |start.all|, end.rotations - start.rotations)
  {
    hide Run, Possible, Tracks, SeesSince, CursorAt;
    var start := Run(EMPTY, before);
    var end := Run(start, after);
    var c, n := CursorAt(start.disk), |start.all|;
    EmptyWellFormed();
    RunWellFormed(EMPTY, before);
    RunWellFormed(start, after);
    AppendedOnce(EMPTY, before);
    AppendedOnce(start, after);
    CursorTracks(start);
    RunTracks(start, after, c, n);
    TrackedCursorSees(end, c, n, end.rotations - start.rotations);
  }

  lemma EmptyWellFormed()
    ensures WellFormed(EMPTY)
  {
  }

  lemma {:induction false} AppendedOnce(log: Log, steps: seq<Step>)
    ensures |steps| > 0 || log.disk.current.Some? ==> Run(log, steps).disk.current.Some?
  {
    if |steps| == 0 {
    } else {
      AppendedOnce(log, steps[..|steps| - 1]);
    }
  }

  /** A cursor taken before the first event scans all retained lines: everything exactly until the second rotation. */
  lemma EarlyCursorLaw(steps: seq<Step>)
    requires Possible(EMPTY, steps)
    ensures
      var end := Run(EMPTY, steps);
      var scan := Scan(end.disk, CursorAt(EMPTY.disk));
      && |scan| <= |end.all| && scan == end.all[|end.all| - |scan|..]
      && (scan == end.all <==> end.rotations <= 1)
  {
    RunWellFormed(EMPTY, steps);
    AllRetained(steps);
    hide Run, Possible, Retained;
    assert WellFormed(Run(EMPTY, steps));
  }

  lemma {:induction false} AllRetained(steps: seq<Step>)
    requires Possible(EMPTY, steps)
    ensures
      var log := Run(EMPTY, steps);
      |Retained(log.disk)| == |log.all| <==> log.rotations <= 1
  {
    if |steps| == 0 {
    } else {
      var init := steps[..|steps| - 1];
      AllRetained(init);
      RunWellFormed(EMPTY, init);
    }
  }

  /** What `FindEvent` reports was appended after the cursor; up to one rotation it is the first match since then. */
  lemma FoundIsNew(end: Log, c: Cursor, n: nat, turns: int, q: Query, k: nat)
    requires SeesSince(end, c, n, turns) && FirstMatch(Scan(end.disk, c), q, k)
    ensures
      var i := |end.all| - |Scan(end.disk, c)| + k;
      && n <= i < |end.all| && Matches(end.all[i], q)
      && (turns <= 1 ==> FirstMatch(end.all[n..], q, k))
  {
    hide Scan, Matches, HasMatch;
    var scan := Scan(end.disk, c);
    assert scan[k] == end.all[|end.all| - |scan|..][k];
  }

  /** Up to one rotation a poll that finds nothing proves that nothing matching was appended. */
  lemma NotFoundMeansNone(end: Log, c: Cursor, n: nat, turns: int, q: Query)
    requires SeesSince(end, c, n, turns) && turns <= 1 && !HasMatch(Scan(end.disk, c), q)
    ensures forall i :: n <= i < |end.all| ==> !Matches(end.all[i], q)
  {
    forall i | n <= i < |end.all| ensures !Matches(end.all[i], q) {
      assert end.all[n..][i - n] == end.all[i];
    }
  }

  lemma RunSnoc(log: Log, steps: seq<Step>, s: Step)
    ensures Run(log, steps + [s]) == Next(Run(log, steps), s)
    ensures Possible(log, steps) && s.line.size > 0 && Fresh(Run(log, steps).disk, s.inode) ==>
            Possible(log, steps + [s])
  {
    assert (steps + [s])[..|steps|] == steps;
  }

  // ---------------------------------------------------------------- polling a growing log

  /** The disks that polls meet while a run goes on: poll `i` after `polls[i]` more appends. */
  ghost predicate PollsOf(start: Log, after: seq<Step>, polls: seq<nat>, disks: seq<Disk>) {
    |polls| == |disks| && forall i :: 0 <= i < |polls| ==>
        polls[i] <= |after| && disks[i] == Run(start, after[..polls[i]]).disk
  }

  lemma Nothing(log: Log)
    ensures Run(log, []) == log && Possible(log, [])
  {
  }

  lemma {:induction false} PrefixRun(start: Log, after: seq<Step>, k: nat)
    requires Possible(start, after) && k <= |after|
    ensures Possible(start, after[..k])
    ensures |Run(start, after).all| == |start.all| + |after|
    ensures Run(start, after[..k]).all == Run(start, after).all[..|start.all| + k]
  {
    if k == |after| {
      assert after[..k] == after;
      AllGrows(start, after);
    } else {
      PrefixRun(start, after[..|after| - 1], k);
      assert after[..|after| - 1][..k] == after[..k];
    }
  }

  lemma {:induction false} AllGrows(start: Log, after: seq<Step>)
    ensures |Run(start, after).all| == |start.all| + |after|
  {
    if |after| == 0 {
    } else {
      AllGrows(start, after[..|after| - 1]);
    }
  }

  /** Rotations between the cursor and a poll. */
  function Turns(start: Log, after: seq<Step>, k: nat): int
    requires k <= |after|
  {
    Run(start, after[..k]).rotations - start.rotations
  }

  /** Line `i` is what a poll reports when `upTo` lines were written and the cursor was taken after `n`; when the poll
      sees everything since, nothing before it matches. */
  ghost predicate IsReport(all: seq<Line>, n: nat, upTo: nat, everything: bool, q: Query, i: nat,
                           event: Option<Event>) {
    && n <= i < upTo && i < |all| && Matches(all[i], q) && all[i].event == event
    && (everything ==> forall j :: n <= j < i ==> !Matches(all[j], q))
  }

  ghost predicate HasReport(all: seq<Line>, n: nat, upTo: nat, everything: bool, q: Query, event: Option<Event>) {
    exists i :: IsReport(all, n, upTo, everything, q, i, event)
  }

  /** Where in the whole log the first match of a scanned suffix is. */
  lemma ReportIndex(all: seq<Line>, upTo: nat, n: nat, scan: seq<Line>, q: Query, m: nat) returns (i: nat)
    requires n <= upTo <= |all| && |scan| <= upTo - n && scan == all[upTo - |scan|..upTo] && FirstMatch(scan, q, m)
    ensures n <= i < upTo && all[i] == scan[m] && Matches(all[i], q)
    ensures |scan| == upTo - n ==> forall j :: n <= j < i ==> !Matches(all[j], q)
  {
    hide Matches;
    i := upTo - |scan| + m;
    if |scan| == upTo - n {
      forall j | n <= j < i ensures !Matches(all[j], q) {
        assert scan[..m][j - n] == all[j];
      }
    }
  }

  /** A scan in terms of the whole run. */
  lemma PollScan(before: seq<Step>, after: seq<Step>, k: nat)
    requires Possible(EMPTY, before) && Possible(Run(EMPTY, before), after) && |before| > 0 && k <= |after|
    ensures
      var start := Run(EMPTY, before);
      var all, scan := Run(start, after).all, Scan(Run(start, after[..k]).disk, CursorAt(start.disk));
      var n, upTo := |start.all|, |start.all| + k;
      && upTo <= |all| && |scan| <= upTo - n && scan == all[upTo - |scan|..upTo]
      && (Turns(start, after, k) <= 1 ==> |scan| == upTo - n)
  {
    var start := Run(EMPTY, before);
    hide Run, Possible, Scan, CursorAt, LostSight;
    PrefixRun(start, after, k);
    CursorLaw(before, after[..k]);
    var all, end := Run(start, after).all, Run(start, after[..k]);
    var scan := Scan(end.disk, CursorAt(start.disk));
    assert end.all[|end.all| - |scan|..] == all[|end.all| - |scan|..|end.all|];
  }

  /** One poll that finds something. */
  lemma PollFinds(before: seq<Step>, after: seq<Step>, k: nat, q: Query, m: nat) returns (i: nat)
    requires Possible(EMPTY, before) && Possible(Run(EMPTY, before), after) && |before| > 0 && k <= |after|
    requires
      var start := Run(EMPTY, before);
      FirstMatch(Scan(Run(start, after[..k]).disk, CursorAt(start.disk)), q, m)
    ensures
      var start := Run(EMPTY, before);
      IsReport(Run(start, after).all, |start.all|, |start.all| + k, Turns(start, after, k) <= 1, q, i,
               Scan(Run(start, after[..k]).disk, CursorAt(start.disk))[m].event)
  {
    hide Run, Possible, Scan, CursorAt, Matches, HasMatch, Turns;
    var start := Run(EMPTY, before);
    PollScan(before, after, k);
    i := ReportIndex(Run(start, after).all, |start.all| + k, |start.all|,
                     Scan(Run(start, after[..k]).disk, CursorAt(start.disk)), q, m);
  }

  /** One poll, within one rotation, that finds nothing. */
  lemma PollMisses(before: seq<Step>, after: seq<Step>, k: nat, q: Query)
    requires Possible(EMPTY, before) && Possible(Run(EMPTY, before), after) && |before| > 0 && k <= |after|
    requires Turns(Run(EMPTY, before), after, k) <= 1
    requires
      var start := Run(EMPTY, before);
      !HasMatch(Scan(Run(start, after[..k]).disk, CursorAt(start.disk)), q)
    ensures
      var start := Run(EMPTY, before);
      forall j :: |start.all| <= j < |start.all| + k && j < |Run(start, after).all| ==>
          !Matches(Run(start, after).all[j], q)
  {
    var start := Run(EMPTY, before);
    hide Run, Possible, Scan, CursorAt, Matches;
    var end, n := Run(start, after[..k]), |start.all|;
    PrefixRun(start, after, k);
    CursorLaw(before, after[..k]);
    NotFoundMeansNone(end, CursorAt(start.disk), n, Turns(start, after, k), q);
  }

  /** Watching end to end: while a run goes on appending and rotating between the polls, an event that is reported was
      appended after the cursor and before its poll, and up to one rotation is the first match since the cursor; and
      a poll that found nothing, up to one rotation, proves that nothing matching had been appended by then. */
  lemma WatchedRun(before: seq<Step>, after: seq<Step>, polls: seq<nat>, disks: seq<Disk>, q: Query,
                   found: Option<Event>, poll: nat)
    requires Possible(EMPTY, before) && Possible(Run(EMPTY, before), after) && |before| > 0
    requires
      var start := Run(EMPTY, before);
      PollsOf(start, after, polls, disks) && Reported(disks, CursorAt(start.disk), q, found, poll)
    ensures
      var start := Run(EMPTY, before);
      && (found.Some? ==>
            HasReport(Run(start, after).all, |start.all|, |start.all| + polls[poll],
                      Turns(start, after, polls[poll]) <= 1,
                      q, found))
      && forall p :: 0 <= p < poll && Turns(start, after, polls[p]) <= 1 ==>
           forall j :: |start.all| <= j < |start.all| + polls[p] && j < |Run(start, after).all| ==>
             !Matches(Run(start, after).all[j], q)
  {
    var start := Run(EMPTY, before);
    hide Run, Possible, Scan, CursorAt, Matches, HasMatch;
    if found.Some? {
      var m: nat :| FirstMatch(Scan(disks[poll], CursorAt(start.disk)), q, m)
                    && found == Scan(disks[poll], CursorAt(start.disk))[m].event;
      var i := PollFinds(before, after, polls[poll], q, m);
    }
    forall p | 0 <= p < poll && Turns(start, after, polls[p]) <= 1
      ensures forall j :: |start.all| <= j < |start.all| + polls[p] && j < |Run(start, after).all| ==>
                            !Matches(Run(start, after).all[j], q)
    {
      PollMisses(before, after, polls[p], q);
    }
  }

  // ---------------------------------------------------------------- a cursor's inode comes back

  function Copies(x: Line, n: nat): (r: seq<Line>)
    ensures |r| == n && forall i :: 0 <= i < n ==> r[i] == x
  {
    if n == 0 then [] else [x] + Copies(x, n - 1)
  }

  /** How many lines of a size reach a target. */
  function Needed(size: nat, target: int): nat
    requires size > 0
    decreases if target > 0 then target else 0
  {
    if target <= 0 then 0 else 1 + Needed(size, target - size)
  }

  lemma {:induction false} CopiesReach(x: Line, target: int, n: nat)
    requires x.size > 0
    ensures Size(Copies(x, n)) >= target <==> n >= Needed(x.size, target)
    decreases n
  {
    if target <= 0 || n == 0 {
    } else {
      CopiesReach(x, target - x.size, n - 1);
      assert Copies(x, n)[1..] == Copies(x, n - 1);
    }
  }

  function Repeated(s: Step, n: nat): seq<Step> {
    if n == 0 then [] else Repeated(s, n - 1) + [s]
  }

  /** A log whose current file holds `k` equal lines. */
  ghost predicate Holding(log: Log, previous: Option<LogFile>, inode: nat, x: Line, k: nat) {
    log.disk == Disk(previous, Some(LogFile(inode, Copies(x, k))))
  }

  ghost predicate Usable(previous: Option<LogFile>, inode: nat) {
    inode != 0 && (previous.Some? ==> previous.value.inode != inode)
  }

  lemma CopiesSnoc(x: Line, n: nat)
    ensures Copies(x, n) + [x] == Copies(x, n + 1)
  {
  }

  lemma StaysPut(log: Log, previous: Option<LogFile>, inode: nat, x: Line, k: nat, spare: nat)
    requires x.size > 0 && Holding(log, previous, inode, x, k) && Usable(previous, spare)
    requires k < Needed(x.size, ROTATE_AT)
    ensures Fresh(log.disk, spare)
    ensures
      var end := Next(log, Step(x, spare));
      Holding(end, previous, inode, x, k + 1) && end.rotations == log.rotations && |end.all| == |log.all| + 1
  {
    CopiesReach(x, ROTATE_AT, k);
    CopiesSnoc(x, k);
  }

  /** Appending copies of a line until the file is full does not rotate. */
  lemma {:induction false} FillUp(log: Log, previous: Option<LogFile>, inode: nat, x: Line, k: nat, j: nat, spare: nat)
    requires x.size > 0 && Holding(log, previous, inode, x, k) && Usable(previous, spare)
    requires k + j <= Needed(x.size, ROTATE_AT)
    ensures Possible(log, Repeated(Step(x, spare), j))
    ensures
      var end := Run(log, Repeated(Step(x, spare), j));
      Holding(end, previous, inode, x, k + j) && end.rotations == log.rotations && |end.all| == |log.all| + j
  {
    hide Run, Possible, Next, Fresh, Holding, Needed;
    if j == 0 {
      Nothing(log);
    } else {
      FillUp(log, previous, inode, x, k, j - 1, spare);
      RunSnoc(log, Repeated(Step(x, spare), j - 1), Step(x, spare));
      StaysPut(Run(log, Repeated(Step(x, spare), j - 1)), previous, inode, x, k + j - 1, spare);
    }
  }

  /** The next line goes to a new file. */
  lemma TurnOver(log: Log, previous: Option<LogFile>, inode: nat, x: Line, n: nat, next: nat)
    requires x.size > 0 && n == Needed(x.size, ROTATE_AT) && Holding(log, previous, inode, x, n)
    requires next != 0 && next != inode
    ensures Fresh(log.disk, next)
    ensures
      var end := Next(log, Step(x, next));
      && Holding(end, Some(LogFile(inode, Copies(x, n))), next, x, 1)
      && end.rotations == log.rotations + 1 && |end.all| == |log.all| + 1
  {
    CopiesReach(x, ROTATE_AT, n);
    assert Copies(x, 1) == [x] && [] + [x] == [x];
  }

  /** The first file is filled, a second one is, and a third one gets the first one's inode. */
  function ReuseSteps(x: Line): seq<Step>
    requires x.size > 0
  {
    var n := Needed(x.size, ROTATE_AT);
    Repeated(Step(x, 3), n - 1) + [Step(x, 2)] + Repeated(Step(x, 3), n - 1) + [Step(x, 1)] + [Step(x, 3)]
  }

  lemma {:induction false} RunAppend(log: Log, a: seq<Step>, b: seq<Step>)
    ensures Run(log, a + b) == Run(Run(log, a), b)
    ensures Possible(log, a) && Possible(Run(log, a), b) ==> Possible(log, a + b)
  {
    if |b| == 0 {
      assert a + b == a;
    } else {
      RunAppend(log, a, b[..|b| - 1]);
      assert (a + b)[..|a + b| - 1] == a + b[..|b| - 1];
    }
  }

  /** "None after two rotations" does rest on inodes: for every line that fits below the limit, a run that appends only
      that line gives the cursor's own inode out again, and the reader sees the last line of a newer file and misses
      all that came before. */
  lemma ReusedInode(x: Line)
    requires 0 < x.size < ROTATE_AT
    ensures
      var start := Run(EMPTY, [Step(x, 1)]);
      var end := Run(start, ReuseSteps(x));
      && Possible(EMPTY, [Step(x, 1)]) && Possible(start, ReuseSteps(x))
      && end.rotations - start.rotations == 2
      && Scan(end.disk, CursorAt(start.disk)) == [x] && |end.all| - |start.all| >= 4
  {
    hide Run, Possible, Next, Fresh, Size;
    var n := Needed(x.size, ROTATE_AT);
    CopiesReach(x, ROTATE_AT, 1);
    FirstLine(x);
    var start := Run(EMPTY, [Step(x, 1)]);
    var fill := Repeated(Step(x, 3), n - 1);
    FillUp(start, None, 1, x, 1, n - 1, 3);
    var full := Run(start, fill);
    TurnOver(full, None, 1, x, n, 2);
    RunSnoc(start, fill, Step(x, 2));
    var second := Run(start, fill + [Step(x, 2)]);
    var first := Some(LogFile(1, Copies(x, n)));
    FillUp(second, first, 2, x, 1, n - 1, 3);
    RunAppend(start, fill + [Step(x, 2)], fill);
    var steps := fill + [Step(x, 2)] + fill;
    TurnOver(Run(start, steps), first, 2, x, n, 1);
    RunSnoc(start, steps, Step(x, 1));
    var third := Run(start, steps + [Step(x, 1)]);
    FillUp(third, Some(LogFile(2, Copies(x, n))), 1, x, 1, 1, 3);
    OneMore(Step(x, 3));
    RunAppend(start, steps + [Step(x, 1)], [Step(x, 3)]);
    SeenAgain(Run(start, ReuseSteps(x)).disk, Some(LogFile(2, Copies(x, n))), x);
  }

  lemma FirstLine(x: Line)
    requires x.size > 0
    ensures Possible(EMPTY, [Step(x, 1)])
    ensures
      var start := Run(EMPTY, [Step(x, 1)]);
      && Holding(start, None, 1, x, 1) && start.rotations == 0 && |start.all| == 1
      && CursorAt(start.disk) == Cursor(1, x.size)
  {
    Nothing(EMPTY);
    RunSnoc(EMPTY, [], Step(x, 1));
    assert [] + [Step(x, 1)] == [Step(x, 1)];
    assert Copies(x, 1) == [x] && [] + [x] == [x];
    assert Size([x]) == x.size by { assert [x][1..] == []; }
  }

  lemma OneMore(s: Step)
    ensures Repeated(s, 1) == [s]
  {
  }

  /** A file with the cursor's inode and two lines: the second one is read. */
  lemma SeenAgain(d: Disk, previous: Option<LogFile>, x: Line)
    requires x.size > 0 && previous.Some? && previous.value.inode == 2
    requires d == Disk(previous, Some(LogFile(1, Copies(x, 2))))
    ensures Scan(d, Cursor(1, x.size)) == [x]
  {
    var lines := Copies(x, 2);
    assert lines[1..] == Copies(x, 1) && Copies(x, 1)[1..] == [];
    assert Skipped(lines, x.size) == 1;
  }
}
