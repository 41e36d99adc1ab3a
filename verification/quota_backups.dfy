/** What the byte quota's checks are worth (scripts/resilience/runtime.py, scripts/resilience/faultctl.py): for each
    kind of grant and for each way a mutation can go wrong, exactly when the limit is kept in whatever covered steps
    follow. */
module QuotaBackups {
  import opened Options
  import opened Quota

  // ---------------------------------------------------------------- what was promised can be used

  /** The lock holder can use all it was granted. */
  lemma PromiseIsReached(s: Space, cap: nat) returns (steps: seq<Step>)
    requires Sound(s)
    ensures RunCovered(s, cap, steps) && Guarded(Run(s, cap, steps)) >= Promised(s)
  {
    steps := [];
    if s.lock.Held? {
      match s.lock.grant
      case Undecided =>
      case Grow(i, reach) =>
        steps := [Store(s.lock.owner, reach)];
        StoreReaches(s, cap, i, reach);
      case Duplicate(path, half) =>
        if Holder(s.files, path).Some? {
          steps := CopyReaches(s, cap, path, half);
        }
      case Damage(path, half) =>
        if Holder(s.files, path).Some? && half > s.files[Holder(s.files, path).value].size {
          steps := [Halve(s.lock.owner)];
          HalveReaches(s, cap, path, half);
        }
    }
  }

  /** Steps that are neither admissions nor renames, with nothing arriving, are covered. */
  lemma PlainIsCovered(s: Space, cap: nat, step: Step)
    requires step.Store? || step.Copy? || step.Halve? || step.Loosen? || step.Stray?
    ensures RunCovered(s, cap, [step]) && Run(s, cap, [step]) == Next(s, cap, step)
  {
    RunOne(s, cap, step);
    assert [step][..0] == [] && Covered(s, cap, step);
  }

  lemma StoreReaches(s: Space, cap: nat, i: nat, reach: nat)
    requires Sound(s) && s.lock.Held? && s.lock.grant == Grow(i, reach)
    ensures RunCovered(s, cap, [Store(s.lock.owner, reach)])
    ensures Guarded(Run(s, cap, [Store(s.lock.owner, reach)])) >= Promised(s)
  {
    PlainIsCovered(s, cap, Store(s.lock.owner, reach));
    BytesUpdate(s.files, GUARDED, i, s.files[i].(size := Max(s.files[i].size, reach)));
  }

  lemma HalveReaches(s: Space, cap: nat, path: nat, half: nat)
    requires Sound(s) && s.lock.Held? && s.lock.grant == Damage(path, half) && Holder(s.files, path).Some? && half > 0
    ensures RunCovered(s, cap, [Halve(s.lock.owner)])
    ensures
      var after := Run(s, cap, [Halve(s.lock.owner)]);
      Guarded(after) == Guarded(s) - s.files[Holder(s.files, path).value].size + half
  {
    PlainIsCovered(s, cap, Halve(s.lock.owner));
    var i := Holder(s.files, path).value;
    BytesUpdate(s.files, GUARDED, i, s.files[i].(size := half));
  }

  lemma CopyReaches(s: Space, cap: nat, path: nat, half: nat) returns (steps: seq<Step>)
    requires Sound(s) && s.lock.Held? && s.lock.grant == Duplicate(path, half) && Holder(s.files, path).Some?
    ensures RunCovered(s, cap, steps) && Guarded(Run(s, cap, steps)) >= Promised(s)
  {
    var p, size := s.lock.owner, s.files[Holder(s.files, path).value].size;
    steps := [Copy(p, size)];
    PlainIsCovered(s, cap, Copy(p, size));
    var f := File(Backup, path, size, false, 0);
    BytesAppend(s.files, GUARDED, f);
    AppendedDebt(s, f);
    if size < half {
      var copied := Run(s, cap, steps);
      assert copied.files[..|s.files|] == s.files;
      HalveReaches(copied, cap, path, half);
      RunSnoc(s, cap, steps, Halve(p));
      RunOne(copied, cap, Halve(p));
      assert (steps + [Halve(p)])[..1] == steps;
      steps := steps + [Halve(p)];
    }
  }

  /** A sound space stays within the limit in all covered runs exactly when what is promised in it fits. */
  lemma PromiseIsExact(s: Space, cap: nat)
    requires Sound(s)
    ensures (forall steps :: RunCovered(s, cap, steps) ==> Guarded(Run(s, cap, steps)) <= Limit(cap))
            <==> Promised(s) <= Limit(cap)
  {
    hide Promised, Guarded, Limit, Run, RunCovered;
    if Promised(s) <= Limit(cap) {
      forall steps | RunCovered(s, cap, steps) ensures Guarded(Run(s, cap, steps)) <= Limit(cap) {
        RunSafe(s, cap, steps);
        GuardedIsPromised(Run(s, cap, steps));
      }
    } else {
      var steps := PromiseIsReached(s, cap);
      assert RunCovered(s, cap, steps) && Guarded(Run(s, cap, steps)) > Limit(cap);
    }
  }

  lemma GuardedIsPromised(s: Space)
    ensures Guarded(s) <= Promised(s)
  {
  }

  // ---------------------------------------------------------------- growth

  /** The check keeps the limit for every growth it lets through exactly when it lets none through or its measurement
      misses nothing. */
  lemma GrowthCheckIsExact(s: Space, cap: nat, seen: nat)
    requires Guarded(s) <= Limit(cap)
    ensures (forall growth: nat :: growth > 0 && !GrowthRefused(seen, growth, cap) ==>
             Guarded(s) + growth <= Limit(cap))
            <==> seen >= Limit(cap) || Guarded(s) <= seen
  {
    if seen < Limit(cap) {
      var largest := Limit(cap) - seen;
      assert !GrowthRefused(seen, largest, cap);
    }
  }

  /** A write that was let through keeps the limit exactly when there is room for where it ends. */
  lemma GrantIsExact(s: Space, cap: nat, p: nat, i: nat, position: nat, length: nat, seen: nat, reach: nat)
    requires Safe(s, cap) && Admits(s, cap, p, i, position, length, seen)
    ensures
      var granted := Next(s, cap, Admit(p, i, position, length, seen, reach));
      (forall steps :: RunCovered(granted, cap, steps) ==> Guarded(Run(granted, cap, steps)) <= Limit(cap))
      <==> Guarded(s) + Max(0, reach - s.files[i].size) <= Limit(cap)
  {
    PromiseIsExact(Next(s, cap, Admit(p, i, position, length, seen, reach)), cap);
  }

  /** A write measured by whole walks, which ends where its position and length say or inside its file, is honest. */
  lemma OrdinaryIsHonest(s: Space, p: nat, i: nat, position: nat, length: nat, reach: nat)
    requires reach <= position + length || (i < |s.files| && reach <= s.files[i].size)
    ensures Honest(s, Admit(p, i, position, length, Used(s), reach))
  {
    BytesSplit(s.files);
  }

  // ---------------------------------------------------------------- backup copies

  /** The backup check keeps the limit for every artifact it admits exactly when it admits none or sees enough. */
  lemma CopyCheckIsExact(s: Space, cap: nat, walk: nat, readable: bool)
    requires cap <= MAX_BYTES
    ensures (forall size: nat :: !DuplicateRefused(Measured(s, walk, readable), size) ==>
             Guarded(s) + size <= Limit(cap))
            <==> DuplicateRefused(Measured(s, walk, readable), 0) || CopyCovered(s, cap, walk, readable)
  {
    var measured := Measured(s, walk, readable);
    if !DuplicateRefused(measured, 0) {
      var largest := Limit(MAX_BYTES) - measured;
      assert !DuplicateRefused(measured, largest);
    }
  }

  /** A mutation that was admitted keeps the limit, when nothing else comes to its path without room, exactly when there
      is room for a copy. */
  lemma MutationIsExact(s: Space, cap: nat, p: nat, path: nat, truncates: bool, walk: nat, readable: bool)
    requires Safe(s, cap) && MayAct(s, p) && Holder(s.files, path).Some?
    requires !DuplicateRefused(Measured(s, walk, readable), s.files[Holder(s.files, path).value].size)
    ensures
      var admitted := Next(s, cap, AdmitCopy(p, path, truncates, walk, readable));
      (forall steps :: RunCovered(admitted, cap, steps) ==> Guarded(Run(admitted, cap, steps)) <= Limit(cap))
      <==> Guarded(s) + s.files[Holder(s.files, path).value].size <= Limit(cap)
  {
    PromiseIsExact(Next(s, cap, AdmitCopy(p, path, truncates, walk, readable)), cap);
  }

  /** Whatever comes to the path of a mutation that is under way keeps the limit exactly when there is room for its copy
      and for its extension to half the size that was checked. */
  lemma ArrivalIsExact(s: Space, cap: nat, step: Step)
    requires Safe(s, cap) && Arrives(s, step)
    ensures
      var arrived := Next(s, cap, step);
      (forall steps :: RunCovered(arrived, cap, steps) ==> Guarded(Run(arrived, cap, steps)) <= Limit(cap))
      <==> ArrivalFits(s, cap, step)
  {
    hide Promised, Guarded, Debt, Sound, Safe, Placed, Owed;
    match step {
      case Create(kind, path) => CreatedPromise(s, cap, path);
      case Move(i, path, kept) => PlacedPromise(s, cap, i, path, kept);
      case PutBack(i, kept) => PlacedPromise(s, cap, i, s.files[i].path, kept);
    }
    PromiseIsExact(Next(s, cap, step), cap);
  }

  lemma CreatedPromise(s: Space, cap: nat, path: nat)
    requires Safe(s, cap) && Creates(s, Data, path) && Mutating(s, path)
    ensures
      var after := Next(s, cap, Create(Data, path));
      Sound(after) && Promised(after) == Guarded(s) + Owed(s.lock.grant, 0)
  {
    var f := File(Data, path, 0, true, 0);
    BytesAppend(s.files, GUARDED, f);
    AppendedDebt(s, f);
  }

  lemma PlacedPromise(s: Space, cap: nat, i: nat, path: nat, kept: bool)
    requires Safe(s, cap) && IsKind(s, i, {Data, Backup}) && !IsAt(s.files[i], path) && Mutating(s, path)
    ensures Sound(Placed(s, i, path, kept))
    ensures Promised(Placed(s, i, path, kept)) == Bytes(Cleared(s.files, path, kept), GUARDED)
            + Owed(s.lock.grant, s.files[i].size)
  {
    var cleared := s.(files := Cleared(s.files, path, kept));
    ClearedFacts(s, cap, path, kept);
    var f := s.files[i].(kind := Data, path := path);
    assert cleared.files[i] == s.files[i];
    assert SettledFile(s.files[i]);
    BytesUpdate(cleared.files, GUARDED, i, f);
    NamedDebt(cleared, i, path);
  }

  // ---------------------------------------------------------------- renames

  function Renamed(s: Space, cap: nat, p: nat, i: nat): Space { Next(s, cap, SetAside(p, i)) }

  function Escaping(i: nat, size: nat): seq<Step> { [Loosen(i)] + [Stray(i, size)] }

  /** A writer of a renamed artifact finds it in the control directory and is not guarded: it can reach any size. */
  lemma WriterEscapes(s: Space, cap: nat, p: nat, i: nat, size: nat)
    requires MayAct(s, p) && IsKind(s, i, {Data}) && s.files[i].open
    ensures Guarded(Run(Renamed(s, cap, p, i), cap, Escaping(i, size))) >= size
    ensures RunCovered(Renamed(s, cap, p, i), cap, Escaping(i, size))
  {
    var renamed := Renamed(s, cap, p, i);
    PlainIsCovered(renamed, cap, Loosen(i));
    RunSnoc(renamed, cap, [Loosen(i)], Stray(i, size));
    assert Escaping(i, size)[..1] == [Loosen(i)];
    var loose := Next(renamed, cap, Loosen(i));
    BytesUpdate(loose.files, GUARDED, i, Next(loose, cap, Stray(i, size)).files[i]);
    BytesAtLeast(loose.files, i);
  }

  lemma {:induction false} BytesAtLeast(files: seq<File>, i: nat)
    requires i < |files|
    ensures Bytes(files, GUARDED) >= Weight(files[i], GUARDED)
  {
    if i == |files| - 1 {
    } else {
      BytesAtLeast(files[..|files| - 1], i);
    }
  }

  /** A rename keeps the limit in all covered continuations exactly when nobody has the artifact open for writing. */
  lemma RenameIsExact(s: Space, cap: nat, p: nat, i: nat)
    requires Safe(s, cap) && MayAct(s, p) && IsKind(s, i, {Data})
    ensures (forall steps :: RunCovered(Renamed(s, cap, p, i), cap, steps)
                             ==> Guarded(Run(Renamed(s, cap, p, i), cap, steps)) <= Limit(cap))
            <==> !s.files[i].open
  {
    hide Next, Safe, Guarded;
    if s.files[i].open {
      WriterEscapes(s, cap, p, i, Limit(cap) + 1);
    } else {
      StepSafe(s, cap, SetAside(p, i));
      SafeIsKept(Renamed(s, cap, p, i), cap);
    }
  }

  lemma SafeIsKept(s: Space, cap: nat)
    requires Safe(s, cap)
    ensures forall steps :: RunCovered(s, cap, steps) ==> Guarded(Run(s, cap, steps)) <= Limit(cap)
  {
    PromiseIsExact(s, cap);
  }

  // ---------------------------------------------------------------- runs that are covered

  /** Honest writes and closed renames, at every step. */
  predicate RunOrderly(s: Space, cap: nat, steps: seq<Step>) {
    |steps| == 0
    || (RunOrderly(s, cap, steps[..|steps| - 1])
        && Orderly(Run(s, cap, steps[..|steps| - 1]), steps[|steps| - 1]))
  }

  /** Nothing comes to the path of a mutation while it is under way. */
  predicate RunApart(s: Space, cap: nat, steps: seq<Step>) {
    |steps| == 0
    || (RunApart(s, cap, steps[..|steps| - 1])
        && !Arrives(Run(s, cap, steps[..|steps| - 1]), steps[|steps| - 1]))
  }

  predicate Anonymousless(s: Space) {
    forall i :: 0 <= i < |s.files| ==> s.files[i].kind !in UNNAMED
  }

  /** Whenever a backup is checked, no open file has lost its name, and the walk misses no name. */
  predicate RunNamed(s: Space, cap: nat, steps: seq<Step>) {
    |steps| == 0
    || (var last, before := steps[|steps| - 1], Run(s, cap, steps[..|steps| - 1]);
        && RunNamed(s, cap, steps[..|steps| - 1])
        && (last.AdmitCopy? ==> Anonymousless(before) && last.walk == Bytes(before.files, NAMED)))
  }

  lemma {:induction false} NoUnnamedBytes(files: seq<File>)
    requires forall i :: 0 <= i < |files| ==> files[i].kind !in UNNAMED
    ensures Bytes(files, UNNAMED) == 0
  {
    if |files| == 0 {
    } else {
      NoUnnamedBytes(files[..|files| - 1]);
    }
  }

  /** At the largest cap, when no open file has lost its name, a whole walk sees enough, whether or not the record can
      be read. */
  lemma NamedIsCovered(s: Space, readable: bool)
    requires Anonymousless(s)
    ensures CopyCovered(s, MAX_BYTES, Bytes(s.files, NAMED), readable)
  {
    NoUnnamedBytes(s.files);
    BytesSplit(s.files);
  }

  /** So such a run, when mutations are left alone, is covered exactly when its writes are honest and its renames move
      closed files. */
  lemma {:induction false} NamedRunsAreCovered(steps: seq<Step>)
    requires RunNamed(EMPTY, MAX_BYTES, steps) && RunApart(EMPTY, MAX_BYTES, steps)
    ensures RunCovered(EMPTY, MAX_BYTES, steps) <==> RunOrderly(EMPTY, MAX_BYTES, steps)
  {
    hide Run, Arrives, Orderly, Anonymousless, CopyCovered;
    if |steps| == 0 {
    } else {
      var init, last := steps[..|steps| - 1], steps[|steps| - 1];
      NamedRunsAreCovered(init);
      if last.AdmitCopy? {
        NamedIsCovered(Run(EMPTY, MAX_BYTES, init), last.readable);
      }
    }
  }

  predicate NoCopyGranted(s: Space) { s.lock.Held? ==> s.lock.grant.Undecided? || s.lock.grant.Grow? }

  /** At any cap, a run whose mutations only rename is covered exactly when its writes are honest and its renames move
      closed files. */
  lemma {:induction false} CopylessRunsAreCovered(s: Space, cap: nat, steps: seq<Step>)
    requires NoCopyGranted(s) && forall k :: 0 <= k < |steps| ==> !steps[k].AdmitCopy?
    ensures RunCovered(s, cap, steps) <==> RunOrderly(s, cap, steps)
    ensures NoCopyGranted(Run(s, cap, steps))
  {
    if |steps| == 0 {
    } else {
      CopylessRunsAreCovered(s, cap, steps[..|steps| - 1]);
    }
  }
}
