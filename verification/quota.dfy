/** The cross-process byte quota of a campaign's cache namespace (scripts/resilience/runtime.py) and the artifact
    mutations that share its lock (scripts/resilience/faultctl.py). Any number of processes take steps in any
    order; the lock holder's stat, check, write, copy, truncation and record are separate steps, with other
    processes' unlocked steps between them. Writes may be short or fail, and a holder may die at any point. A
    descriptor whose file lies in the control directory at the moment of a write is not guarded at all, and a
    mutation works on whatever file its path names at the time. */
module Quota {
  import opened Options

  const MAX_BYTES: nat := 0x2_0000_0000
  const CONTROL_ALLOWANCE: nat := 0x400_0000

  // ---------------------------------------------------------------- files

  /** `Data` is a named file outside the control directory, `Anonymous` an unlinked file somebody still has
      open, `Backup` a mutation backup, `Control` any other file of the control directory, `Stale` a control file
      that was unlinked while open. */
  datatype Kind = Data | Anonymous | Backup | Control | Stale | Gone

  /** `path` is the name of a data file and, for a backup, the name that a restore gives it; `open` says that some
      process has the file open for writing, `loose` counts writes in flight that found the file in the control
      directory and so took neither lock nor check. */
  datatype File = File(kind: Kind, path: nat, size: nat, open: bool, loose: nat)

  const GONE := File(Gone, 0, 0, false, 0)

  const GUARDED := {Data, Anonymous, Backup}
  const INTERNAL := {Backup, Control, Stale}
  const CONTROLS := {Control, Stale}
  const NAMED := {Data, Backup, Control}
  const UNNAMED := {Anonymous, Stale}
  const ALL := {Data, Anonymous, Backup, Control, Stale}

  function Weight(f: File, kinds: set<Kind>): nat { if f.kind in kinds then f.size else 0 }

  /** Bytes of the files of some kinds. */
  function Bytes(files: seq<File>, kinds: set<Kind>): nat {
    if |files| == 0 then 0 else Bytes(files[..|files| - 1], kinds) + Weight(files[|files| - 1], kinds)
  }

  lemma {:induction false} BytesUpdate(files: seq<File>, kinds: set<Kind>, i: nat, f: File)
    requires i < |files|
    ensures Bytes(files[i := f], kinds) == Bytes(files, kinds) - Weight(files[i], kinds) + Weight(f, kinds)
  {
    var k := |files| - 1;
    if i == k {
      assert files[i := f][..k] == files[..k];
    } else {
      BytesUpdate(files[..k], kinds, i, f);
      assert files[i := f][..k] == files[..k][i := f];
    }
  }

  lemma BytesAppend(files: seq<File>, kinds: set<Kind>, f: File)
    ensures Bytes(files + [f], kinds) == Bytes(files, kinds) + Weight(f, kinds)
  {
    assert (files + [f])[..|files|] == files;
  }

  lemma {:induction false} BytesSplit(files: seq<File>)
    ensures Bytes(files, ALL) == Bytes(files, GUARDED) + Bytes(files, CONTROLS)
    ensures Bytes(files, ALL) == Bytes(files, NAMED) + Bytes(files, UNNAMED)
  {
    if |files| == 0 {
    } else {
      BytesSplit(files[..|files| - 1]);
    }
  }

  // ---------------------------------------------------------------- names

  predicate IsAt(f: File, path: nat) { f.kind.Data? && f.path == path }

  /** The file that a path names. */
  function Holder(files: seq<File>, path: nat): (h: Option<nat>)
    ensures h.Some? ==> h.value < |files| && IsAt(files[h.value], path)
    ensures h.None? ==> forall i :: 0 <= i < |files| ==> !IsAt(files[i], path)
  {
    if |files| == 0 then None
    else if IsAt(files[|files| - 1], path) then Some(|files| - 1)
    else Holder(files[..|files| - 1], path)
  }

  /** No two files have the same name. */
  predicate OnePerPath(files: seq<File>) {
    forall i, j :: 0 <= i < j < |files| && files[i].kind.Data? && files[j].kind.Data? ==> files[i].path != files[j].path
  }

  lemma HolderIs(files: seq<File>, path: nat, i: nat)
    requires OnePerPath(files) && i < |files| && IsAt(files[i], path)
    ensures Holder(files, path) == Some(i)
    ensures forall j :: 0 <= j < |files| && j != i ==> !IsAt(files[j], path)
  {
  }

  /** A file that is renamed over: it stays for whoever has it open. */
  function Displaced(f: File, kept: bool): File {
    if kept || f.open then f.(kind := Anonymous) else GONE
  }

  /** A rename onto a path takes the name from the file that had it. */
  function Cleared(files: seq<File>, path: nat, kept: bool): (r: seq<File>)
    ensures |r| == |files|
  {
    var h := Holder(files, path);
    if h.None? then files else files[h.value := Displaced(files[h.value], kept)]
  }

  // ---------------------------------------------------------------- the shared state

  /** What the lock holder has been told it may do: write to a file, no further than `reach`; copy what a path
      names; and, once that is copied, resize what the path names to `half` unless `half` is zero. */
  datatype Grant =
    | Undecided
    | Grow(file: nat, reach: nat)
    | Duplicate(path: nat, half: nat)
    | Damage(path: nat, half: nat)

  datatype Lock = Free | Held(owner: nat, grant: Grant)

  /** `recorded` is the last total written to the quota state file. */
  datatype Space = Space(files: seq<File>, recorded: nat, lock: Lock)

  predicate ValidCap(cap: nat) { 4096 <= cap <= MAX_BYTES }

  function Min(a: nat, b: nat): nat { if a < b then a else b }

  function Max(a: int, b: int): int { if a < b then b else a }

  /** What guarded files may use: the rest of the cap is for control files. */
  function Limit(cap: nat): nat { cap - Min(CONTROL_ALLOWANCE, cap / 4) }

  /** That is the most which, with any control bytes within their allowance of a quarter or 64 MiB, fits under the
      cap. */
  lemma LimitIsExact(cap: nat, guarded: nat)
    ensures guarded <= Limit(cap)
       <==> forall control: nat :: 4 * control <= cap && control <= 0x400_0000 ==> guarded + control <= cap
  {
    if forall control: nat :: 4 * control <= cap && control <= 0x400_0000 ==> guarded + control <= cap {
      var allowance := Min(CONTROL_ALLOWANCE, cap / 4);
      assert 4 * allowance <= cap && allowance <= 0x400_0000;
    }
  }

  function Guarded(s: Space): nat { Bytes(s.files, GUARDED) }

  /** Named and unlinked bytes together, control files included. */
  function Used(s: Space): nat { Bytes(s.files, ALL) }

  function Growth(size: nat, position: nat, length: nat): nat { Max(0, position + length - size) }

  predicate GrowthRefused(used: nat, growth: nat, cap: nat) {
    growth > 0 && used + growth > Limit(cap)
  }

  /** The backup check takes the larger of a walk and the record, which counts as zero if it cannot be read. */
  function Measured(s: Space, walk: nat, readable: bool): nat { Max(walk, if readable then s.recorded else 0) }

  /** It compares with the largest cap, whatever the campaign's own. */
  predicate DuplicateRefused(measured: nat, size: nat) { measured + size > Limit(MAX_BYTES) }

  // ---------------------------------------------------------------- steps

  /** `seen` and `walk` are what a measurement of the namespace adds up to: a walk over a changing tree may miss
      files. `reach` is where the write would end in the file, which need not be `position + length`: a descriptor
      may append, and the elements of a payload may be wider than a byte. */
  datatype Step =
    // unlocked, by anyone
    | Create(kind: Kind, path: nat)                   // an empty file, named, temporary or control
    | SetControl(file: nat, size: nat)                // control files are written without the guard
    | Open(file: nat)                                 // somebody opens the file for writing
    | Close(file: nat)                                // the last writer closes it
    | Unlink(file: nat)                               // the name goes, a descriptor stays
    | Vanish(file: nat)                               // last name and last descriptor go
    | Shrink(file: nat, size: nat)                    // an open that truncates
    | Loosen(file: nat)                               // a write finds its file in the control directory
    | Stray(file: nat, size: nat)                     // and goes through, wherever the file is by then
    | Move(file: nat, path: nat, kept: bool)          // a rename, perhaps over a file that somebody keeps open
    | PutBack(file: nat, kept: bool)                  // restore renames a backup over its artifact
    // under the lock
    | Acquire(p: nat)
    | Admit(p: nat, file: nat, position: nat, length: nat, seen: nat, reach: nat)
    | Store(p: nat, end: nat)                         // a whole, short or empty write
    | Resize(p: nat, size: nat)                       // a truncation
    | SetAside(p: nat, file: nat)                     // an artifact is renamed to its backup
    | AdmitCopy(p: nat, path: nat, truncates: bool, walk: nat, readable: bool)
    | Copy(p: nat, count: nat)                        // a whole or partial backup copy of what the path names now
    | Halve(p: nat)                                   // and what it names now is set to half the size checked
    | Record(p: nat)
    | Release(p: nat)                                 // also: the holder dies

  predicate Holds(s: Space, p: nat) { s.lock.Held? && s.lock.owner == p }

  /** The holder has not been granted anything yet. */
  predicate MayAct(s: Space, p: nat) { Holds(s, p) && s.lock.grant.Undecided? }

  predicate Granted(s: Space, p: nat) { Holds(s, p) && s.lock.grant.Grow? && s.lock.grant.file < |s.files| }

  /** The holder has been granted a write to the file. */
  predicate Pinned(s: Space, i: nat) { s.lock.Held? && s.lock.grant.Grow? && s.lock.grant.file == i }

  /** A mutation of the path is under way. */
  predicate Mutating(s: Space, path: nat) {
    s.lock.Held? && (s.lock.grant.Duplicate? || s.lock.grant.Damage?) && s.lock.grant.path == path
  }

  predicate IsKind(s: Space, i: nat, kinds: set<Kind>) { i < |s.files| && s.files[i].kind in kinds }

  function WithFile(s: Space, i: nat, f: File): Space
    requires i < |s.files|
  {
    s.(files := s.files[i := f])
  }

  function WithGrant(s: Space, grant: Grant): Space
    requires s.lock.Held?
  {
    s.(lock := s.lock.(grant := grant))
  }

  /** One step; a step that is not possible leaves everything as it was. */
  function Next(s: Space, cap: nat, step: Step): Space {
    match step
    case Create(kind, path) =>
      if Creates(s, kind, path) then s.(files := s.files + [File(kind, path, 0, true, 0)]) else s
    case SetControl(i, size) => if IsKind(s, i, CONTROLS) then WithFile(s, i, s.files[i].(size := size)) else s
    case Open(i) => if IsKind(s, i, {Data, Control}) then WithFile(s, i, s.files[i].(open := true)) else s
    case Close(i) =>
      if i < |s.files| && !Pinned(s, i) && s.files[i].loose == 0 then WithFile(s, i, s.files[i].(open := false)) else s
    case Unlink(i) =>
      if IsKind(s, i, {Data}) then WithFile(s, i, s.files[i].(kind := Anonymous))
      else if IsKind(s, i, {Control}) then WithFile(s, i, s.files[i].(kind := Stale)) else s
    case Vanish(i) => if i < |s.files| && !Pinned(s, i) && !s.files[i].open then WithFile(s, i, GONE) else s
    case Shrink(i, size) =>
      if IsKind(s, i, GUARDED) && size <= s.files[i].size then WithFile(s, i, s.files[i].(size := size)) else s
    case Loosen(i) =>
      if IsKind(s, i, {Backup}) && s.files[i].open
      then WithFile(s, i, s.files[i].(loose := s.files[i].loose + 1)) else s
    case Stray(i, size) =>
      if i < |s.files| && s.files[i].loose > 0
      then WithFile(s, i, s.files[i].(size := size, loose := s.files[i].loose - 1)) else s
    case Move(i, path, kept) => if Moves(s, i, path) then Placed(s, i, path, kept) else s
    case PutBack(i, kept) => if IsKind(s, i, {Backup}) then Placed(s, i, s.files[i].path, kept) else s
    case Acquire(p) => if s.lock.Free? then s.(lock := Held(p, Undecided)) else s
    case Admit(p, i, position, length, seen, reach) =>
      if Admits(s, cap, p, i, position, length, seen) then WithGrant(s, Grow(i, reach)) else s
    case Store(p, end) =>
      if Granted(s, p) && end <= s.lock.grant.reach then Sized(s, Max(s.files[s.lock.grant.file].size, end)) else s
    case Resize(p, size) => if Granted(s, p) && size <= s.lock.grant.reach then Sized(s, size) else s
    case SetAside(p, i) =>
      if MayAct(s, p) && IsKind(s, i, {Data}) then WithFile(s, i, s.files[i].(kind := Backup)) else s
    case AdmitCopy(p, path, truncates, walk, readable) =>
      var h := Holder(s.files, path);
      if MayAct(s, p) && h.Some? && !DuplicateRefused(Measured(s, walk, readable), s.files[h.value].size)
      then WithGrant(s, Duplicate(path, if truncates then s.files[h.value].size / 2 else 0)) else s
    case Copy(p, count) =>
      if Copies(s, p, count) then
        var path := s.lock.grant.path;
        WithGrant(s.(files := s.files + [File(Backup, path, count, false, 0)]), Damage(path, s.lock.grant.half))
      else s
    case Halve(p) =>
      if Halves(s, p) then
        var i := Holder(s.files, s.lock.grant.path).value;
        WithGrant(WithFile(s, i, s.files[i].(size := s.lock.grant.half)), Undecided)
      else s
    case Record(p) => if Holds(s, p) then s.(recorded := Used(s)) else s
    case Release(p) => if Holds(s, p) then s.(lock := Free) else s
  }

  /** A named file is created where there is none. */
  predicate Creates(s: Space, kind: Kind, path: nat) {
    kind in {Anonymous, Control} || (kind.Data? && Holder(s.files, path).None?)
  }

  predicate Moves(s: Space, i: nat, path: nat) { IsKind(s, i, {Data}) && s.files[i].path != path }

  predicate Admits(s: Space, cap: nat, p: nat, i: nat, position: nat, length: nat, seen: nat) {
    MayAct(s, p) && IsKind(s, i, GUARDED) && s.files[i].open
    && !GrowthRefused(seen, Growth(s.files[i].size, position, length), cap)
  }

  predicate Copies(s: Space, p: nat, count: nat) {
    Holds(s, p) && s.lock.grant.Duplicate?
    && var h := Holder(s.files, s.lock.grant.path); h.Some? && count <= s.files[h.value].size
  }

  predicate Halves(s: Space, p: nat) {
    Holds(s, p) && s.lock.grant.Damage? && s.lock.grant.half > 0 && Holder(s.files, s.lock.grant.path).Some?
  }

  /** File `i` gets the path, and whichever file had it loses its name. */
  function Placed(s: Space, i: nat, path: nat, kept: bool): Space
    requires i < |s.files|
  {
    s.(files := Cleared(s.files, path, kept)[i := s.files[i].(kind := Data, path := path)])
  }

  /** The granted file at its new size. */
  function Sized(s: Space, size: nat): Space
    requires s.lock.Held? && s.lock.grant.Grow? && s.lock.grant.file < |s.files|
  {
    var i := s.lock.grant.file;
    WithGrant(WithFile(s, i, s.files[i].(size := size)), Undecided)
  }

  function Run(s: Space, cap: nat, steps: seq<Step>): Space {
    if |steps| == 0 then s else Next(Run(s, cap, steps[..|steps| - 1]), cap, steps[|steps| - 1])
  }

  const EMPTY := Space([], 0, Free)

  // ---------------------------------------------------------------- the invariant

  /** What a mutation may still add for a file of this size at its path. */
  function Owed(grant: Grant, size: nat): nat {
    match grant
    case Duplicate(_, half) => Max(size, half)
    case Damage(_, half) => Max(0, half - size)
    case _ => 0
  }

  /** What the lock holder may still add. */
  function Debt(files: seq<File>, lock: Lock): nat {
    if lock.Free? then 0 else
    match lock.grant
    case Undecided => 0
    case Grow(i, reach) => if i < |files| then Max(0, reach - files[i].size) else 0
    case Duplicate(path, _) =>
      var h := Holder(files, path);
      if h.Some? then Owed(lock.grant, files[h.value].size) else 0
    case Damage(path, _) =>
      var h := Holder(files, path);
      if h.Some? then Owed(lock.grant, files[h.value].size) else 0
  }

  /** Guarded bytes once the lock holder has done all it was granted. */
  function Promised(s: Space): nat { Guarded(s) + Debt(s.files, s.lock) }

  predicate GrantIsOpen(s: Space) {
    s.lock.Held? && s.lock.grant.Grow? ==> IsKind(s, s.lock.grant.file, GUARDED) && s.files[s.lock.grant.file].open
  }

  predicate SettledFile(f: File) { f.loose == 0 && (f.kind.Backup? ==> !f.open) }

  /** Nobody writes to a backup, and no unguarded write is under way. */
  predicate Settled(s: Space) {
    forall i :: 0 <= i < |s.files| ==> SettledFile(s.files[i])
  }

  predicate Sound(s: Space) { GrantIsOpen(s) && Settled(s) && OnePerPath(s.files) }

  predicate Safe(s: Space, cap: nat) { Sound(s) && Promised(s) <= Limit(cap) }

  // ---------------------------------------------------------------- what a run has to keep to

  /** A measurement that misses nothing guarded, and a write that ends where it said or inside the file. */
  predicate Honest(s: Space, step: Step) {
    step.Admit? && step.file < |s.files| ==>
      Guarded(s) <= step.seen && step.reach <= Max(s.files[step.file].size, step.position + step.length)
  }

  /** An artifact that is renamed to its backup is not open for writing. */
  predicate ClosedRename(s: Space, step: Step) {
    step.SetAside? && step.file < |s.files| ==> !s.files[step.file].open
  }

  /** The backup check sees enough: whatever it admits fits under the limit. */
  predicate CopyCovered(s: Space, cap: nat, walk: nat, readable: bool) {
    Guarded(s) + Limit(MAX_BYTES) <= Measured(s, walk, readable) + Limit(cap)
  }

  /** Some other file comes to the path of a mutation that is under way: one that is put back, renamed or created. */
  predicate Arrives(s: Space, step: Step) {
    match step
    case Create(kind, path) => kind.Data? && Creates(s, kind, path) && Mutating(s, path)
    case Move(i, path, _) => Moves(s, i, path) && Mutating(s, path)
    case PutBack(i, _) => IsKind(s, i, {Backup}) && Mutating(s, s.files[i].path)
    case _ => false
  }

  /** There is room for what the mutation will add for the file that arrives. */
  predicate ArrivalFits(s: Space, cap: nat, step: Step) {
    Arrives(s, step) ==>
      match step
      case Create(_, _) => Guarded(s) + Owed(s.lock.grant, 0) <= Limit(cap)
      case Move(i, path, kept) =>
        Bytes(Cleared(s.files, path, kept), GUARDED) + Owed(s.lock.grant, s.files[i].size) <= Limit(cap)
      case PutBack(i, kept) =>
        Bytes(Cleared(s.files, s.files[i].path, kept), GUARDED) + Owed(s.lock.grant, s.files[i].size) <= Limit(cap)
      case _ => true
  }

  predicate Orderly(s: Space, step: Step) { Honest(s, step) && ClosedRename(s, step) }

  predicate Covered(s: Space, cap: nat, step: Step) {
    && Orderly(s, step) && ArrivalFits(s, cap, step)
    && (step.AdmitCopy? ==> CopyCovered(s, cap, step.walk, step.readable))
  }

  /** Every step of a run is covered where it is taken. */
  predicate RunCovered(s: Space, cap: nat, steps: seq<Step>) {
    |steps| == 0
    || (RunCovered(s, cap, steps[..|steps| - 1])
        && Covered(Run(s, cap, steps[..|steps| - 1]), cap, steps[|steps| - 1]))
  }

  // ---------------------------------------------------------------- every step keeps it

  /** A file that does not grow and does not get a name stays within what was promised. */
  predicate NoMore(s: Space, i: nat, f: File)
    requires i < |s.files|
  {
    && SettledFile(f) && Weight(f, GUARDED) <= Weight(s.files[i], GUARDED)
    && (Pinned(s, i) ==> f.kind in GUARDED && f.open)
    && (f.kind.Data? ==> s.files[i].kind.Data? && f.path == s.files[i].path)
  }

  lemma SoundUpdate(s: Space, i: nat, f: File)
    requires Sound(s) && i < |s.files| && NoMore(s, i, f)
    ensures Sound(WithFile(s, i, f))
  {
    hide Weight;
  }

  lemma HolderUpdate(files: seq<File>, i: nat, f: File, path: nat)
    requires OnePerPath(files) && i < |files| && (f.kind.Data? ==> files[i].kind.Data? && f.path == files[i].path)
    ensures
      var h := Holder(files, path);
      Holder(files[i := f], path) == if h == Some(i) && !f.kind.Data? then None else h
  {
    var after := files[i := f];
    assert OnePerPath(after);
    var h := Holder(files, path);
    if h.Some? && after[h.value].kind.Data? {
      HolderIs(after, path, h.value);
    } else if h.Some? {
      HolderIs(files, path, i);
    }
  }

  lemma DebtUpdate(s: Space, i: nat, f: File)
    requires Sound(s) && i < |s.files| && NoMore(s, i, f)
    ensures Weight(f, GUARDED) + Debt(s.files[i := f], s.lock) <= Weight(s.files[i], GUARDED) + Debt(s.files, s.lock)
  {
    hide OnePerPath, Settled;
    if s.lock.Held? && (s.lock.grant.Duplicate? || s.lock.grant.Damage?) {
      HolderUpdate(s.files, i, f, s.lock.grant.path);
    }
  }

  lemma FileStepSafe(s: Space, cap: nat, i: nat, f: File)
    requires Safe(s, cap) && i < |s.files| && NoMore(s, i, f)
    ensures Safe(WithFile(s, i, f), cap)
  {
    hide NoMore, Sound, Debt, Weight;
    SoundUpdate(s, i, f);
    DebtUpdate(s, i, f);
    BytesUpdate(s.files, GUARDED, i, f);
  }

  /** The steps that change one file and nothing else keep the space safe. */
  lemma UnlockedStepSafe(s: Space, cap: nat, step: Step)
    requires Safe(s, cap)
    requires step.SetControl? || step.Open? || step.Close? || step.Unlink? || step.Vanish? || step.Shrink?
             || step.Loosen? || step.Stray?
    ensures Safe(Next(s, cap, step), cap)
  {
    hide Promised, OnePerPath;
    if step.file < |s.files| {
      var i, f := step.file, s.files[step.file];
      assert SettledFile(f);
      match step
      case SetControl(_, size) => if f.kind in CONTROLS { FileStepSafe(s, cap, i, f.(size := size)); }
      case Open(_) => if f.kind in {Data, Control} { FileStepSafe(s, cap, i, f.(open := true)); }
      case Close(_) => if !Pinned(s, i) { FileStepSafe(s, cap, i, f.(open := false)); }
      case Unlink(_) =>
        if f.kind.Data? { FileStepSafe(s, cap, i, f.(kind := Anonymous)); }
        if f.kind.Control? { FileStepSafe(s, cap, i, f.(kind := Stale)); }
      case Vanish(_) => if !Pinned(s, i) && !f.open { FileStepSafe(s, cap, i, GONE); }
      case Shrink(_, size) => if f.kind in GUARDED && size <= f.size { FileStepSafe(s, cap, i, f.(size := size)); }
      case _ =>
    }
  }

  // ---------------------------------------------------------------- names that change hands

  lemma ClearedFacts(s: Space, cap: nat, path: nat, kept: bool)
    requires Safe(s, cap)
    ensures Safe(s.(files := Cleared(s.files, path, kept)), cap) && Holder(Cleared(s.files, path, kept), path).None?
    ensures forall j :: 0 <= j < |s.files| ==> Cleared(s.files, path, kept)[j] == s.files[j] || IsAt(s.files[j], path)
  {
    var h := Holder(s.files, path);
    if h.Some? {
      var f := Displaced(s.files[h.value], kept);
      assert SettledFile(s.files[h.value]);
      FileStepSafe(s, cap, h.value, f);
      HolderUpdate(s.files, h.value, f, path);
    }
  }

  /** A backup or a renamed file comes to a path that names nothing. */
  lemma NamedSafe(s: Space, cap: nat, i: nat, path: nat)
    requires Safe(s, cap) && IsKind(s, i, {Data, Backup}) && Holder(s.files, path).None?
    requires Mutating(s, path) ==> Guarded(s) + Owed(s.lock.grant, s.files[i].size) <= Limit(cap)
    ensures Safe(WithFile(s, i, s.files[i].(kind := Data, path := path)), cap)
    ensures Guarded(WithFile(s, i, s.files[i].(kind := Data, path := path))) == Guarded(s)
  {
    var f := s.files[i].(kind := Data, path := path);
    BytesUpdate(s.files, GUARDED, i, f);
    NamedDebt(s, i, path);
    assert SettledFile(s.files[i]);
  }

  lemma NamedDebt(s: Space, i: nat, path: nat)
    requires OnePerPath(s.files) && IsKind(s, i, {Data, Backup}) && Holder(s.files, path).None?
    ensures OnePerPath(s.files[i := s.files[i].(kind := Data, path := path)])
    ensures
      var after := Debt(s.files[i := s.files[i].(kind := Data, path := path)], s.lock);
      if Mutating(s, path) then after == Owed(s.lock.grant, s.files[i].size) else after <= Debt(s.files, s.lock)
  {
    var after := s.files[i := s.files[i].(kind := Data, path := path)];
    assert OnePerPath(after);
    HolderIs(after, path, i);
    if s.lock.Held? && (s.lock.grant.Duplicate? || s.lock.grant.Damage?) && s.lock.grant.path != path {
      var h := Holder(s.files, s.lock.grant.path);
      var h' := Holder(after, s.lock.grant.path);
      if h'.Some? {
        assert IsAt(s.files[h'.value], s.lock.grant.path);
        HolderIs(s.files, s.lock.grant.path, h'.value);
      }
    }
  }

  lemma PlacedSafe(s: Space, cap: nat, i: nat, path: nat, kept: bool)
    requires Safe(s, cap) && IsKind(s, i, {Data, Backup}) && !IsAt(s.files[i], path)
    requires Mutating(s, path) ==>
               Bytes(Cleared(s.files, path, kept), GUARDED) + Owed(s.lock.grant, s.files[i].size) <= Limit(cap)
    ensures Safe(Placed(s, i, path, kept), cap)
    ensures Guarded(Placed(s, i, path, kept)) == Bytes(Cleared(s.files, path, kept), GUARDED)
  {
    hide Safe, Cleared, OnePerPath, Debt;
    ClearedFacts(s, cap, path, kept);
    var cleared := s.(files := Cleared(s.files, path, kept));
    NamedSafe(cleared, cap, i, path);
  }

  lemma CreatedSafe(s: Space, cap: nat, kind: Kind, path: nat)
    requires Safe(s, cap) && Creates(s, kind, path) && ArrivalFits(s, cap, Create(kind, path))
    ensures Safe(Next(s, cap, Create(kind, path)), cap)
  {
    var f := File(kind, path, 0, true, 0);
    BytesAppend(s.files, GUARDED, f);
    AppendedDebt(s, f);
  }

  /** A new file at the end of the list owes something only at the path of a mutation. */
  lemma AppendedDebt(s: Space, f: File)
    requires OnePerPath(s.files) && GrantIsOpen(s) && (f.kind.Data? ==> Holder(s.files, f.path).None?)
    ensures OnePerPath(s.files + [f])
    ensures Debt(s.files + [f], s.lock)
         == if f.kind.Data? && Mutating(s, f.path) then Owed(s.lock.grant, f.size) else Debt(s.files, s.lock)
  {
    if s.lock.Held? && (s.lock.grant.Duplicate? || s.lock.grant.Damage?) {
      HolderAppend(s.files, f, s.lock.grant.path);
    }
    hide Holder, Owed;
  }

  lemma HolderAppend(files: seq<File>, f: File, path: nat)
    ensures Holder(files + [f], path) == if IsAt(f, path) then Some(|files|) else Holder(files, path)
  {
    assert (files + [f])[..|files|] == files;
  }

  // ---------------------------------------------------------------- steps under the lock

  lemma AdmitSafe(s: Space, cap: nat, step: Step)
    requires Safe(s, cap) && step.Admit? && Honest(s, step)
    ensures Safe(Next(s, cap, step), cap)
  {
  }

  lemma SizedSafe(s: Space, cap: nat, p: nat, size: nat)
    requires Safe(s, cap) && Granted(s, p) && size <= Max(s.files[s.lock.grant.file].size, s.lock.grant.reach)
    ensures Safe(Sized(s, size), cap)
  {
    var i := s.lock.grant.file;
    BytesUpdate(s.files, GUARDED, i, s.files[i].(size := size));
  }

  lemma AdmitCopySafe(s: Space, cap: nat, step: Step)
    requires Safe(s, cap) && step.AdmitCopy? && CopyCovered(s, cap, step.walk, step.readable)
    ensures Safe(Next(s, cap, step), cap)
  {
  }

  lemma CopySafe(s: Space, cap: nat, p: nat, count: nat)
    requires Safe(s, cap) && Copies(s, p, count)
    ensures Safe(Next(s, cap, Copy(p, count)), cap)
  {
    var f := File(Backup, s.lock.grant.path, count, false, 0);
    BytesAppend(s.files, GUARDED, f);
    AppendedDebt(s.(lock := Held(p, Damage(s.lock.grant.path, s.lock.grant.half))), f);
  }

  lemma HalveSafe(s: Space, cap: nat, p: nat)
    requires Safe(s, cap) && Halves(s, p)
    ensures Safe(Next(s, cap, Halve(p)), cap)
  {
    var i := Holder(s.files, s.lock.grant.path).value;
    BytesUpdate(s.files, GUARDED, i, s.files[i].(size := s.lock.grant.half));
  }

  lemma StepSafe(s: Space, cap: nat, step: Step)
    requires Safe(s, cap) && Covered(s, cap, step)
    ensures Safe(Next(s, cap, step), cap)
  {
    hide Safe, Sound, Promised, Limit, Placed, Sized;
    match step
    case Create(kind, path) => if Creates(s, kind, path) { CreatedSafe(s, cap, kind, path); }
    case Move(i, path, kept) => if Moves(s, i, path) { PlacedSafe(s, cap, i, path, kept); }
    case PutBack(i, kept) => if IsKind(s, i, {Backup}) { PlacedSafe(s, cap, i, s.files[i].path, kept); }
    case SetAside(p, i) => if MayAct(s, p) && IsKind(s, i, {Data}) { SetAsideSafe(s, cap, i); }
    case Admit(_, _, _, _, _, _) => AdmitSafe(s, cap, step);
    case Store(p, end) =>
      if Granted(s, p) && end <= s.lock.grant.reach { SizedSafe(s, cap, p, Max(s.files[s.lock.grant.file].size, end)); }
    case Resize(p, size) => if Granted(s, p) && size <= s.lock.grant.reach { SizedSafe(s, cap, p, size); }
    case AdmitCopy(_, _, _, _, _) => AdmitCopySafe(s, cap, step);
    case Copy(p, count) => if Copies(s, p, count) { CopySafe(s, cap, p, count); }
    case Halve(p) => if Halves(s, p) { HalveSafe(s, cap, p); }
    case Acquire(_) => LockSafe(s, cap, step);
    case Record(_) => LockSafe(s, cap, step);
    case Release(_) => LockSafe(s, cap, step);
    case _ => UnlockedStepSafe(s, cap, step);
  }

  lemma SetAsideSafe(s: Space, cap: nat, i: nat)
    requires Safe(s, cap) && IsKind(s, i, {Data}) && !s.files[i].open
    ensures Safe(WithFile(s, i, s.files[i].(kind := Backup)), cap)
  {
    assert SettledFile(s.files[i]);
    FileStepSafe(s, cap, i, s.files[i].(kind := Backup));
  }

  lemma LockSafe(s: Space, cap: nat, step: Step)
    requires Safe(s, cap) && (step.Acquire? || step.Record? || step.Release?)
    ensures Safe(Next(s, cap, step), cap)
  {
  }

  lemma {:induction false} RunSafe(s: Space, cap: nat, steps: seq<Step>)
    requires Safe(s, cap) && RunCovered(s, cap, steps)
    ensures Safe(Run(s, cap, steps), cap)
  {
    if |steps| == 0 {
    } else {
      var init := steps[..|steps| - 1];
      RunSafe(s, cap, init);
      StepSafe(Run(s, cap, init), cap, steps[|steps| - 1]);
    }
  }

  /** In every covered run, at every step, guarded bytes stay within the cap less the control allowance; the whole
      namespace stays within the cap as long as the control files stay within the allowance. */
  lemma QuotaSafety(cap: nat, steps: seq<Step>)
    requires RunCovered(EMPTY, cap, steps)
    ensures Guarded(Run(EMPTY, cap, steps)) <= Limit(cap)
    ensures Bytes(Run(EMPTY, cap, steps).files, CONTROLS) <= Min(CONTROL_ALLOWANCE, cap / 4) ==>
              Used(Run(EMPTY, cap, steps)) <= cap
  {
    RunSafe(EMPTY, cap, steps);
    BytesSplit(Run(EMPTY, cap, steps).files);
  }

  // ---------------------------------------------------------------- runs put together

  lemma RunSnoc(s: Space, cap: nat, steps: seq<Step>, step: Step)
    ensures Run(s, cap, steps + [step]) == Next(Run(s, cap, steps), cap, step)
  {
    assert (steps + [step])[..|steps|] == steps;
  }

  lemma {:induction false} RunAppend(s: Space, cap: nat, a: seq<Step>, b: seq<Step>)
    ensures Run(s, cap, a + b) == Run(Run(s, cap, a), cap, b)
  {
    if |b| == 0 {
      assert a + b == a;
    } else {
      RunAppend(s, cap, a, b[..|b| - 1]);
      assert (a + b)[..|a + b| - 1] == a + b[..|b| - 1];
    }
  }

  lemma RunOne(s: Space, cap: nat, x: Step)
    ensures Run(s, cap, [x]) == Next(s, cap, x)
  {
    RunSnoc(s, cap, [], x);
  }

  lemma RunThree(s: Space, cap: nat, x: Step, y: Step, z: Step)
    ensures Run(s, cap, [x, y, z]) == Next(Next(Next(s, cap, x), cap, y), cap, z)
  {
    RunOne(s, cap, x);
    RunSnoc(s, cap, [x], y);
    RunSnoc(s, cap, [x, y], z);
    assert [x] + [y] == [x, y] && [x, y] + [z] == [x, y, z];
  }
}
