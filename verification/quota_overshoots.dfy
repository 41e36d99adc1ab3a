/** Runs in which the byte quota is exceeded, one for each condition of `Quota.Covered`. */
module QuotaOvershoots {
  import opened Options
  import opened Quota
  import opened QuotaBackups

  // ---------------------------------------------------------------- lists of files

  lemma OneFile(f: File, kinds: set<Kind>)
    ensures Bytes([f], kinds) == Weight(f, kinds)
  {
    assert [f][..0] == [];
  }

  lemma TwoFiles(f: File, g: File, kinds: set<Kind>)
    ensures Bytes([f, g], kinds) == Weight(f, kinds) + Weight(g, kinds)
  {
    OneFile(f, kinds);
    BytesAppend([f], kinds, g);
    assert [f] + [g] == [f, g];
  }

  lemma ThreeFiles(f: File, g: File, h: File, kinds: set<Kind>)
    ensures Bytes([f, g, h], kinds) == Weight(f, kinds) + Weight(g, kinds) + Weight(h, kinds)
  {
    TwoFiles(f, g, kinds);
    BytesAppend([f, g], kinds, h);
    assert [f, g] + [h] == [f, g, h];
  }

  lemma FourFiles(f: File, g: File, h: File, k: File, kinds: set<Kind>)
    ensures Bytes([f, g, h, k], kinds) == Weight(f, kinds) + Weight(g, kinds) + Weight(h, kinds) + Weight(k, kinds)
  {
    ThreeFiles(f, g, h, kinds);
    BytesAppend([f, g, h], kinds, k);
    assert [f, g, h] + [k] == [f, g, h, k];
  }

  // ---------------------------------------------------------------- dishonest growth

  function Created(): Space { Space([File(Data, 0, 0, true, 0)], 0, Held(1, Undecided)) }

  lemma CreatedReaches(cap: nat)
    ensures Run(EMPTY, cap, [Create(Data, 0), Acquire(1)]) == Created()
  {
    RunOne(EMPTY, cap, Create(Data, 0));
    RunSnoc(EMPTY, cap, [Create(Data, 0)], Acquire(1));
    assert [Create(Data, 0)] + [Acquire(1)] == [Create(Data, 0), Acquire(1)];
  }

  /** A write that declares `length` bytes and ends at `size`, after a measurement of `seen` bytes. */
  function Writing(length: nat, seen: nat, size: nat): seq<Step> {
    [Create(Data, 0), Acquire(1)] + [Admit(1, 0, 0, length, seen, size)] + [Store(1, size)]
  }

  lemma WritingReaches(cap: nat, length: nat, seen: nat, size: nat)
    requires seen + length <= Limit(cap)
    ensures Guarded(Run(EMPTY, cap, Writing(length, seen, size))) == size
  {
    hide Run, Next, Limit;
    var opening := [Create(Data, 0), Acquire(1)];
    CreatedReaches(cap);
    RunSnoc(EMPTY, cap, opening, Admit(1, 0, 0, length, seen, size));
    AdmittedWrite(cap, length, seen, size);
    RunSnoc(EMPTY, cap, opening + [Admit(1, 0, 0, length, seen, size)], Store(1, size));
    StoredWrite(cap, size);
    OneFile(File(Data, 0, size, true, 0), GUARDED);
  }

  lemma AdmittedWrite(cap: nat, length: nat, seen: nat, size: nat)
    requires seen + length <= Limit(cap)
    ensures Next(Created(), cap, Admit(1, 0, 0, length, seen, size)) == Created().(lock := Held(1, Grow(0, size)))
  {
  }

  lemma StoredWrite(cap: nat, size: nat)
    ensures Next(Created().(lock := Held(1, Grow(0, size))), cap, Store(1, size))
         == Space([File(Data, 0, size, true, 0)], 0, Held(1, Undecided))
  {
    assert Created().files[0 := File(Data, 0, size, true, 0)] == [File(Data, 0, size, true, 0)];
  }

  /** One element is declared, but the write ends further on: at any cap the file reaches any size. */
  lemma OverreachCanExceed(cap: nat, size: nat)
    requires 4 <= cap
    ensures Guarded(Run(EMPTY, cap, Writing(1, 0, size))) == size
  {
    WritingReaches(cap, 1, 0, size);
  }

  // ---------------------------------------------------------------- an open artifact is renamed

  /** An artifact is created, renamed by a mutation while its writer has it open, and written to. */
  function Escape(size: nat): seq<Step> {
    [Create(Data, 0), Acquire(1)] + [SetAside(1, 0)] + Escaping(0, size)
  }

  /** Without any backup copy, at any cap, one renamed artifact reaches any size. */
  lemma RenameCanExceed(cap: nat, size: nat)
    ensures Guarded(Run(EMPTY, cap, Escape(size))) >= size
  {
    var opening := [Create(Data, 0), Acquire(1)];
    CreatedReaches(cap);
    RunSnoc(EMPTY, cap, opening, SetAside(1, 0));
    RunAppend(EMPTY, cap, opening + [SetAside(1, 0)], Escaping(0, size));
    WriterEscapes(Created(), cap, 1, 0, size);
  }

  // ---------------------------------------------------------------- one artifact, written and recorded

  function ControlFile(control: nat): File { File(Control, 0, control, false, 0) }

  /** The artifact, once closed; its name is path 1. */
  function Artifact(size: nat): File { File(Data, 1, size, false, 0) }

  function BackupOf(size: nat): File { File(Backup, 1, size, false, 0) }

  function Leftover(size: nat): File { File(Anonymous, 1, size, false, 0) }

  /** A namespace with `control` control bytes and one closed artifact of `size` bytes, recorded after its write. */
  function Settle(control: nat, size: nat): Space {
    Space([ControlFile(control), Artifact(size)], control + size, Free)
  }

  /** The steps that lead there. */
  function SettleSteps(control: nat, size: nat): seq<Step> {
    [Create(Control, 0), SetControl(0, control), Close(0)]
    + [Create(Data, 1), Acquire(1), Admit(1, 1, 0, size, control, size)]
    + [Store(1, size), Record(1), Release(1)] + [Close(1)]
  }

  lemma OpenedReaches(cap: nat, control: nat)
    ensures Run(EMPTY, cap, [Create(Control, 0), SetControl(0, control), Close(0)])
            == Space([ControlFile(control)], 0, Free)
  {
    RunThree(EMPTY, cap, Create(Control, 0), SetControl(0, control), Close(0));
    assert [File(Control, 0, 0, true, 0)][0 := File(Control, 0, control, true, 0)]
           == [File(Control, 0, control, true, 0)];
    assert [File(Control, 0, control, true, 0)][0 := ControlFile(control)] == [ControlFile(control)];
  }

  lemma AdmittedReaches(cap: nat, control: nat, size: nat)
    requires control + size <= Limit(cap)
    ensures Run(Space([ControlFile(control)], 0, Free), cap,
                [Create(Data, 1), Acquire(1), Admit(1, 1, 0, size, control, size)])
            == Space([ControlFile(control), File(Data, 1, 0, true, 0)], 0, Held(1, Grow(1, size)))
  {
    var start, empty := Space([ControlFile(control)], 0, Free), File(Data, 1, 0, true, 0);
    RunThree(start, cap, Create(Data, 1), Acquire(1), Admit(1, 1, 0, size, control, size));
    assert [ControlFile(control)] + [empty] == [ControlFile(control), empty];
    assert Next(start, cap, Create(Data, 1)) == Space([ControlFile(control), empty], 0, Free);
  }

  lemma StoredReaches(cap: nat, control: nat, size: nat)
    ensures Run(Space([ControlFile(control), File(Data, 1, 0, true, 0)], 0, Held(1, Grow(1, size))), cap,
                [Store(1, size), Record(1), Release(1)])
            == Space([ControlFile(control), File(Data, 1, size, true, 0)], control + size, Free)
  {
    hide Next;
    var start := Space([ControlFile(control), File(Data, 1, 0, true, 0)], 0, Held(1, Grow(1, size)));
    RunThree(start, cap, Store(1, size), Record(1), Release(1));
    StoreStep(cap, control, size);
    RecordSteps(cap, control, size);
  }

  lemma StoreStep(cap: nat, control: nat, size: nat)
    ensures Next(Space([ControlFile(control), File(Data, 1, 0, true, 0)], 0, Held(1, Grow(1, size))), cap,
                 Store(1, size))
            == Space([ControlFile(control), File(Data, 1, size, true, 0)], 0, Held(1, Undecided))
  {
    assert [ControlFile(control), File(Data, 1, 0, true, 0)][1 := File(Data, 1, size, true, 0)]
           == [ControlFile(control), File(Data, 1, size, true, 0)];
  }

  lemma RecordSteps(cap: nat, control: nat, size: nat)
    ensures
      var files := [ControlFile(control), File(Data, 1, size, true, 0)];
      Next(Next(Space(files, 0, Held(1, Undecided)), cap, Record(1)), cap, Release(1))
          == Space(files, control + size, Free)
  {
    hide Bytes;
    TwoFiles(ControlFile(control), File(Data, 1, size, true, 0), ALL);
  }

  lemma ClosedReaches(cap: nat, control: nat, size: nat)
    ensures Next(Space([ControlFile(control), File(Data, 1, size, true, 0)], control + size, Free), cap, Close(1))
            == Settle(control, size)
  {
    assert [ControlFile(control), File(Data, 1, size, true, 0)][1 := Artifact(size)]
           == [ControlFile(control), Artifact(size)];
  }

  lemma SettleReaches(cap: nat, control: nat, size: nat)
    requires control + size <= Limit(cap)
    ensures Run(EMPTY, cap, SettleSteps(control, size)) == Settle(control, size)
  {
    hide Run, Limit, Next;
    var a := [Create(Control, 0), SetControl(0, control), Close(0)];
    var b := [Create(Data, 1), Acquire(1), Admit(1, 1, 0, size, control, size)];
    var c := [Store(1, size), Record(1), Release(1)];
    OpenedReaches(cap, control);
    AdmittedReaches(cap, control, size);
    StoredReaches(cap, control, size);
    ClosedReaches(cap, control, size);
    RunAppend(EMPTY, cap, a, b);
    RunAppend(EMPTY, cap, a + b, c);
    RunSnoc(EMPTY, cap, a + b + c, Close(1));
  }

  // ---------------------------------------------------------------- copies

  /** A mutation up to the end of its copy. */
  function CopySteps(truncates: bool, walk: nat, size: nat): seq<Step> {
    [Acquire(2), AdmitCopy(2, 1, truncates, walk, true), Copy(2, size)]
  }

  /** File `i` is admitted and copied. */
  lemma CopyTaken(s: Space, cap: nat, i: nat, truncates: bool, walk: nat, size: nat)
    requires OnePerPath(s.files) && i < |s.files| && s.files[i] == Artifact(size) && s.lock.Free?
    requires Max(walk, s.recorded) + size <= Limit(MAX_BYTES)
    ensures Run(s, cap, CopySteps(truncates, walk, size))
            == Space(s.files + [BackupOf(size)], s.recorded, Held(2, Damage(1, if truncates then size / 2 else 0)))
  {
    HolderIs(s.files, 1, i);
    hide Limit, OnePerPath, Holder;
    RunThree(s, cap, Acquire(2), AdmitCopy(2, 1, truncates, walk, true), Copy(2, size));
  }

  lemma FirstCopy(cap: nat, control: nat, truncates: bool, size: nat)
    requires control + 2 * size <= Limit(MAX_BYTES)
    ensures Run(Settle(control, size), cap, CopySteps(truncates, control + size, size))
            == Space([ControlFile(control), Artifact(size), BackupOf(size)], control + size,
                     Held(2, Damage(1, if truncates then size / 2 else 0)))
  {
    hide Run, Limit;
    CopyTaken(Settle(control, size), cap, 1, truncates, control + size, size);
    assert [ControlFile(control), Artifact(size)] + [BackupOf(size)]
           == [ControlFile(control), Artifact(size), BackupOf(size)];
  }

  /** Below the largest cap a single mutation can exceed the campaign's limit: the check does not know the cap. */
  lemma SmallCapCanBeExceeded(cap: nat, control: nat, size: nat)
    requires control + size <= Limit(cap) < 2 * size && control + 2 * size <= Limit(MAX_BYTES)
    ensures
      var end := Run(EMPTY, cap, SettleSteps(control, size) + CopySteps(false, control + size, size));
      Guarded(end) == 2 * size > Limit(cap) && Used(end) == control + 2 * size
  {
    hide Run, Limit;
    SettleReaches(cap, control, size);
    FirstCopy(cap, control, false, size);
    RunAppend(EMPTY, cap, SettleSteps(control, size), CopySteps(false, control + size, size));
    ThreeFiles(ControlFile(control), Artifact(size), BackupOf(size), GUARDED);
    ThreeFiles(ControlFile(control), Artifact(size), BackupOf(size), ALL);
  }

  /** Restored while a reader keeps the mutated artifact open. */
  function RestoreSteps(): seq<Step> { [Release(2), PutBack(2, true)] }

  lemma Restored(cap: nat, control: nat, size: nat)
    ensures Run(Space([ControlFile(control), Artifact(size), BackupOf(size)], control + size, Held(2, Damage(1, 0))),
                cap, RestoreSteps())
            == Space([ControlFile(control), Leftover(size), Artifact(size)], control + size, Free)
  {
    var s := Space([ControlFile(control), Artifact(size), BackupOf(size)], control + size, Held(2, Damage(1, 0)));
    RunOne(s, cap, Release(2));
    RunSnoc(s, cap, [Release(2)], PutBack(2, true));
    assert [Release(2)] + [PutBack(2, true)] == RestoreSteps();
    RestoredFiles(control, size, size);
  }

  lemma RestoredFiles(control: nat, now: nat, size: nat)
    ensures Cleared([ControlFile(control), Artifact(now), BackupOf(size)], 1, true)
            == [ControlFile(control), Leftover(now), BackupOf(size)]
    ensures [ControlFile(control), Leftover(now), BackupOf(size)][2 := Artifact(size)]
            == [ControlFile(control), Leftover(now), Artifact(size)]
  {
    HolderIs([ControlFile(control), Artifact(now), BackupOf(size)], 1, 1);
  }

  lemma SecondCopy(cap: nat, control: nat, size: nat)
    requires control + 2 * size <= Limit(MAX_BYTES)
    ensures Run(Space([ControlFile(control), Leftover(size), Artifact(size)], control + size, Free),
                cap, CopySteps(false, control + size, size))
            == Space([ControlFile(control), Leftover(size), Artifact(size), BackupOf(size)], control + size,
                     Held(2, Damage(1, 0)))
  {
    hide Run, Limit;
    var files := [ControlFile(control), Leftover(size), Artifact(size)];
    CopyTaken(Space(files, control + size, Free), cap, 2, false, control + size, size);
    assert files + [BackupOf(size)] == [ControlFile(control), Leftover(size), Artifact(size), BackupOf(size)];
  }

  /** Written, mutated, restored with a reader, mutated again. */
  function Overshoot(control: nat, size: nat): seq<Step> {
    SettleSteps(control, size) + CopySteps(false, control + size, size) + RestoreSteps()
        + CopySteps(false, control + size, size)
  }

  /** At the largest cap, without any failed call, with whole walks and a fresh record: for every artifact of which two
      copies and the control bytes fit under the limit, three copies can be on disk. */
  lemma QuotaCanBeExceeded(control: nat, size: nat)
    requires control + 2 * size <= Limit(MAX_BYTES)
    ensures
      var end := Run(EMPTY, MAX_BYTES, Overshoot(control, size));
      Guarded(end) == 3 * size && Used(end) == control + 3 * size
  {
    hide Run, Limit;
    var cap := MAX_BYTES;
    SettleReaches(cap, control, size);
    FirstCopy(cap, control, false, size);
    Restored(cap, control, size);
    SecondCopy(cap, control, size);
    var copied := SettleSteps(control, size) + CopySteps(false, control + size, size);
    RunAppend(EMPTY, cap, SettleSteps(control, size), CopySteps(false, control + size, size));
    RunAppend(EMPTY, cap, copied, RestoreSteps());
    RunAppend(EMPTY, cap, copied + RestoreSteps(), CopySteps(false, control + size, size));
    FourFiles(ControlFile(control), Leftover(size), Artifact(size), BackupOf(size), GUARDED);
    FourFiles(ControlFile(control), Leftover(size), Artifact(size), BackupOf(size), ALL);
  }

  /** However many control bytes there are within their allowance, some artifact makes the whole cap exceeded. */
  lemma WholeCapCanBeExceeded(control: nat)
    requires control <= CONTROL_ALLOWANCE
    ensures exists size: nat ::
              control + 2 * size <= Limit(MAX_BYTES)
                  && Guarded(Run(EMPTY, MAX_BYTES, Overshoot(control, size))) > MAX_BYTES
  {
    hide Run;
    var size := (Limit(MAX_BYTES) - control) / 2;
    QuotaCanBeExceeded(control, size);
  }

  // ---------------------------------------------------------------- a restore during a mutation

  /** A first mutation truncates the artifact. */
  function TruncateSteps(control: nat, size: nat): seq<Step> {
    CopySteps(true, control + size, size) + [Halve(2), Release(2)]
  }

  function Truncated(control: nat, size: nat): Space {
    Space([ControlFile(control), Artifact(size / 2), BackupOf(size)], control + size, Free)
  }

  lemma TruncateReaches(cap: nat, control: nat, size: nat)
    requires control + 2 * size <= Limit(MAX_BYTES) && size >= 2
    ensures Run(Settle(control, size), cap, TruncateSteps(control, size)) == Truncated(control, size)
  {
    hide Run, Limit, Next;
    var s, copy := Settle(control, size), CopySteps(true, control + size, size);
    var copied := Space([ControlFile(control), Artifact(size), BackupOf(size)], control + size,
                        Held(2, Damage(1, size / 2)));
    FirstCopy(cap, control, true, size);
    HalvedReaches(cap, control, size);
    RunSnoc(s, cap, copy, Halve(2));
    RunSnoc(s, cap, copy + [Halve(2)], Release(2));
    assert copy + [Halve(2)] + [Release(2)] == TruncateSteps(control, size);
    assert Next(copied.(files := Truncated(control, size).files, lock := Held(2, Undecided)), cap, Release(2))
           == Truncated(control, size) by { ReleaseStep(Truncated(control, size).files, control + size, cap); }
  }

  lemma ReleaseStep(files: seq<File>, recorded: nat, cap: nat)
    ensures Next(Space(files, recorded, Held(2, Undecided)), cap, Release(2)) == Space(files, recorded, Free)
  {
  }

  lemma HalvedReaches(cap: nat, control: nat, size: nat)
    requires size >= 2
    ensures Next(Space([ControlFile(control), Artifact(size), BackupOf(size)], control + size,
                       Held(2, Damage(1, size / 2))),
                 cap, Halve(2))
            == Space(Truncated(control, size).files, control + size, Held(2, Undecided))
  {
    var files := [ControlFile(control), Artifact(size), BackupOf(size)];
    HolderIs(files, 1, 1);
    assert files[1 := Artifact(size / 2)] == Truncated(control, size).files;
  }

  /** A second mutation checks the truncated artifact; before it copies, a restore puts the original back at its
      path, while a reader keeps the truncated one open; the copy takes the original. */
  function RaceSteps(control: nat, size: nat): seq<Step> {
    [Acquire(3), AdmitCopy(3, 1, false, control + size + size / 2, true)] + [PutBack(2, true)] + [Copy(3, size)]
  }

  lemma RaceReaches(cap: nat, control: nat, size: nat)
    requires control + 2 * size <= Limit(MAX_BYTES)
    ensures
      var admitted := Run(Truncated(control, size), cap,
                          [Acquire(3), AdmitCopy(3, 1, false, control + size + size / 2, true)]);
      admitted == Truncated(control, size).(lock := Held(3, Duplicate(1, 0))) && Arrives(admitted, PutBack(2, true))
    ensures Run(Truncated(control, size), cap, RaceSteps(control, size))
            == Space([ControlFile(control), Leftover(size / 2), Artifact(size), BackupOf(size)], control + size,
                     Held(3, Damage(1, 0)))
  {
    hide Run, Limit, Next, Arrives;
    var s, check := Truncated(control, size), AdmitCopy(3, 1, false, control + size + size / 2, true);
    var admitted := s.(lock := Held(3, Duplicate(1, 0)));
    RaceAdmitted(cap, control, size);
    RacePutBack(cap, control, size);
    RaceCopied(cap, control, size);
    RunSnoc(s, cap, [Acquire(3), check], PutBack(2, true));
    RunSnoc(s, cap, [Acquire(3), check] + [PutBack(2, true)], Copy(3, size));
  }

  lemma RaceAdmitted(cap: nat, control: nat, size: nat)
    requires control + 2 * size <= Limit(MAX_BYTES)
    ensures Run(Truncated(control, size), cap, [Acquire(3), AdmitCopy(3, 1, false, control + size + size / 2, true)])
            == Truncated(control, size).(lock := Held(3, Duplicate(1, 0)))
  {
    var s, check := Truncated(control, size), AdmitCopy(3, 1, false, control + size + size / 2, true);
    HolderIs(s.files, 1, 1);
    hide Limit, Holder;
    RunOne(s, cap, Acquire(3));
    RunSnoc(s, cap, [Acquire(3)], check);
    assert [Acquire(3)] + [check] == [Acquire(3), check];
  }

  lemma RacePutBack(cap: nat, control: nat, size: nat)
    ensures
      var admitted := Truncated(control, size).(lock := Held(3, Duplicate(1, 0)));
      && Arrives(admitted, PutBack(2, true))
      && Next(admitted, cap, PutBack(2, true))
         == Space([ControlFile(control), Leftover(size / 2), Artifact(size)], control + size, Held(3, Duplicate(1, 0)))
  {
    hide Cleared;
    RestoredFiles(control, size / 2, size);
  }

  lemma RaceCopied(cap: nat, control: nat, size: nat)
    ensures Next(Space([ControlFile(control), Leftover(size / 2), Artifact(size)], control + size,
                       Held(3, Duplicate(1, 0))),
                 cap, Copy(3, size))
            == Space([ControlFile(control), Leftover(size / 2), Artifact(size), BackupOf(size)], control + size,
                     Held(3, Damage(1, 0)))
  {
    var files := [ControlFile(control), Leftover(size / 2), Artifact(size)];
    HolderIs(files, 1, 2);
    hide Holder;
    assert files + [BackupOf(size)] == [ControlFile(control), Leftover(size / 2), Artifact(size), BackupOf(size)];
  }

  /** Written, mutated by truncation, restored during the next mutation. */
  function Race(control: nat, size: nat): seq<Step> {
    SettleSteps(control, size) + TruncateSteps(control, size) + RaceSteps(control, size)
  }

  /** At the largest cap, although every backup check sees enough, a restore between check and copy leaves two and a
      half times the artifact on disk. */
  lemma RestoreRaceCanExceed(control: nat, size: nat)
    requires control + 2 * size <= Limit(MAX_BYTES) && size >= 2
    ensures Guarded(Run(EMPTY, MAX_BYTES, Race(control, size))) == 2 * size + size / 2
    ensures CopyCovered(Settle(control, size), MAX_BYTES, control + size, true)
    ensures CopyCovered(Truncated(control, size), MAX_BYTES, control + size + size / 2, true)
  {
    hide Run, Limit;
    var cap := MAX_BYTES;
    SettleReaches(cap, control, size);
    TruncateReaches(cap, control, size);
    RaceReaches(cap, control, size);
    RunAppend(EMPTY, cap, SettleSteps(control, size), TruncateSteps(control, size));
    RunAppend(EMPTY, cap, SettleSteps(control, size) + TruncateSteps(control, size), RaceSteps(control, size));
    FourFiles(ControlFile(control), Leftover(size / 2), Artifact(size), BackupOf(size), GUARDED);
    TwoFiles(ControlFile(control), Artifact(size), GUARDED);
    ThreeFiles(ControlFile(control), Artifact(size / 2), BackupOf(size), GUARDED);
  }

  /** However many control bytes there are within their allowance, for some artifact this exceeds the whole cap. */
  lemma RaceCanExceedWholeCap(control: nat)
    requires control <= CONTROL_ALLOWANCE
    ensures exists size: nat ::
              control + 2 * size <= Limit(MAX_BYTES) && Guarded(Run(EMPTY, MAX_BYTES, Race(control, size))) > MAX_BYTES
  {
    hide Run;
    var size := (Limit(MAX_BYTES) - control) / 2;
    RestoreRaceCanExceed(control, size);
  }
}
