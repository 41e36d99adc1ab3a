/** The quota's operations as the runtime performs them (scripts/resilience/runtime.py): each is a run of the
    steps of `Quota`, so what holds of every run holds of every mix of operations. */
module QuotaRuntime {
  import opened Options
  import opened Quota

  /** Bytes of the unlinked files among `seen`. */
  function SeenBytes(files: seq<File>, seen: set<nat>): nat {
    if |files| == 0 then 0
    else
      var k := |files| - 1;
      SeenBytes(files[..k], seen) + if k in seen then Weight(files[k], UNNAMED) else 0
  }

  lemma {:induction false} SeeOne(files: seq<File>, seen: set<nat>, i: nat)
    ensures SeenBytes(files, {}) == 0
    ensures i < |files| && i !in seen ==>
              SeenBytes(files, seen + {i}) == SeenBytes(files, seen) + Weight(files[i], UNNAMED)
    ensures i >= |files| ==> SeenBytes(files, seen + {i}) == SeenBytes(files, seen)
  {
    if |files| == 0 {
    } else {
      SeeOne(files[..|files| - 1], seen, i);
    }
  }

  /** Every unlinked file is open somewhere. */
  ghost predicate Lists(files: seq<File>, descriptors: seq<nat>) {
    && (forall k :: 0 <= k < |descriptors| ==> descriptors[k] < |files|)
    && forall i :: 0 <= i < |files| && files[i].kind in UNNAMED ==> i in descriptors
  }

  lemma {:induction false} AllSeen(files: seq<File>, seen: set<nat>)
    requires forall i :: 0 <= i < |files| && files[i].kind in UNNAMED ==> i in seen
    ensures SeenBytes(files, seen) == Bytes(files, UNNAMED)
  {
    if |files| == 0 {
    } else {
      AllSeen(files[..|files| - 1], seen);
    }
  }

  /** What the guard answers: the file is in the control directory, the growth fits, or it does not. */
  datatype Guard = Unguarded | Granted | TooMuch

  function ReleaseSteps(p: nat, recordWorks: bool): seq<Step> {
    (if recordWorks then [Record(p)] else []) + [Release(p)]
  }

  /** The lock, and the check with what the walks add up to. */
  function GuardSteps(p: nat, i: nat, position: nat, length: nat, seen: nat, reach: nat): seq<Step> {
    [Acquire(p), Admit(p, i, position, length, seen, reach)]
  }

  /** A guarded write of a payload: where it says it starts and how long it says it is, where it really starts and how
      many bytes it has, and how many of them reach the file. */
  datatype Payload = Payload(position: nat, length: nat, at: nat, bytes: nat, count: nat)

  /** Where the bytes that reach the file end; none do not extend it. */
  function End(w: Payload): nat { if w.count == 0 then 0 else w.at + w.count }

  function WriteSteps(p: nat, i: nat, w: Payload, seen: nat, stored: bool, recordWorks: bool): seq<Step> {
    GuardSteps(p, i, w.position, w.length, seen, w.at + w.bytes)
    + (if stored then [Store(p, End(w))] else [])
    + ReleaseSteps(p, recordWorks)
  }

  function TruncateSteps(p: nat, i: nat, current: nat, length: nat, seen: nat, resized: bool,
                         recordWorks: bool): seq<Step> {
    GuardSteps(p, i, current, Max(0, length - current), seen, length)
    + (if resized then [Resize(p, length)] else [])
    + ReleaseSteps(p, recordWorks)
  }

  /** A write that finds its file in the control directory. */
  function UnguardedSteps(kind: Kind, i: nat, size: nat): seq<Step> {
    if kind.Backup? then [Loosen(i), Stray(i, size)] else [SetControl(i, size)]
  }

  predicate Elsewhere(step: Step) {
    step.Create? || step.SetControl? || step.Open? || step.Close? || step.Unlink? || step.Vanish? || step.Shrink?
    || step.Loosen? || step.Stray? || step.Move? || step.PutBack?
  }

  /** What other processes do at two moments of a mutation: between check and copy, and between copy and damage. */
  datatype Others = Others(beforeCopy: seq<Step>, beforeDamage: seq<Step>)

  predicate Unlocked(o: Others) {
    && (forall k :: 0 <= k < |o.beforeCopy| ==> Elsewhere(o.beforeCopy[k]))
    && (forall k :: 0 <= k < |o.beforeDamage| ==> Elsewhere(o.beforeDamage[k]))
  }

  /** How far a copying mutation gets: refused; then its path may name nothing when it copies; its copy may stop
      early. */
  datatype Progress = Refused | Missing | Partial(count: nat) | Whole(count: nat)

  function MutationHead(p: nat, path: nat, truncates: bool, walk: nat, readable: bool): seq<Step> {
    [Acquire(p)] + [AdmitCopy(p, path, truncates, walk, readable)]
  }

  function MutationTail(p: nat, o: Others, progress: Progress): seq<Step> {
    match progress
    case Refused => []
    case Missing => o.beforeCopy
    case Partial(count) => o.beforeCopy + [Copy(p, count)]
    case Whole(count) => o.beforeCopy + [Copy(p, count)] + o.beforeDamage + [Halve(p)]
  }

  /** What a copy takes of the file that the path names. */
  function Taken(files: seq<File>, path: nat, wanted: nat): Option<nat> {
    var h := Holder(files, path);
    if h.None? then None else Some(Min(wanted, files[h.value].size))
  }

  lemma AdmitCopyKeeps(s: Space, cap: nat, p: nat, path: nat, truncates: bool, walk: nat, readable: bool)
    requires s.lock == Held(p, Undecided)
    ensures
      var after := Next(s, cap, AdmitCopy(p, path, truncates, walk, readable));
      && after.files == s.files && after.recorded == s.recorded && Holds(after, p)
      && (after.lock.grant.Undecided? || (after.lock.grant.Duplicate? && after.lock.grant.path == path))
  {
  }

  lemma {:induction false} ElsewhereKeepsLock(s: Space, cap: nat, steps: seq<Step>)
    requires forall k :: 0 <= k < |steps| ==> Elsewhere(steps[k])
    ensures Run(s, cap, steps).lock == s.lock
  {
    if |steps| == 0 {
    } else {
      ElsewhereKeepsLock(s, cap, steps[..|steps| - 1]);
      ElsewhereStep(Run(s, cap, steps[..|steps| - 1]), cap, steps[|steps| - 1]);
    }
  }

  lemma ElsewhereStep(s: Space, cap: nat, step: Step)
    requires Elsewhere(step)
    ensures Next(s, cap, step).lock == s.lock
  {
    hide Holder, Cleared, Creates;
  }

  lemma HalveKeepsHolder(s: Space, cap: nat, p: nat)
    requires Holds(s, p)
    ensures Holds(Next(s, cap, Halve(p)), p)
  {
  }

  lemma NextStore(s: Space, cap: nat, p: nat, i: nat, reach: nat, end: nat)
    requires s.lock == Held(p, Grow(i, reach)) && i < |s.files| && end <= reach
    ensures Next(s, cap, Store(p, end))
            == Space(s.files[i := s.files[i].(size := Max(s.files[i].size, end))], s.recorded, Held(p, Undecided))
  {
  }

  lemma NextResize(s: Space, cap: nat, p: nat, i: nat, reach: nat, size: nat)
    requires s.lock == Held(p, Grow(i, reach)) && i < |s.files| && size <= reach
    ensures Next(s, cap, Resize(p, size))
            == Space(s.files[i := s.files[i].(size := size)], s.recorded, Held(p, Undecided))
  {
  }

  lemma UnguardedRun(s: Space, cap: nat, i: nat, size: nat)
    requires IsKind(s, i, INTERNAL) && s.files[i].open
    ensures Run(s, cap, UnguardedSteps(s.files[i].kind, i, size))
            == s.(files := s.files[i := s.files[i].(size := size)])
  {
    if s.files[i].kind.Backup? {
      RunOne(s, cap, Loosen(i));
      RunSnoc(s, cap, [Loosen(i)], Stray(i, size));
      assert [Loosen(i)] + [Stray(i, size)] == [Loosen(i), Stray(i, size)];
    } else {
      RunOne(s, cap, SetControl(i, size));
    }
  }

  lemma GuardRun(s: Space, cap: nat, p: nat, i: nat, position: nat, length: nat, seen: nat, reach: nat)
    requires s.lock.Free? && IsKind(s, i, GUARDED) && s.files[i].open
    ensures Run(s, cap, GuardSteps(p, i, position, length, seen, reach))
         == s.(lock := Held(p, if GrowthRefused(seen, Growth(s.files[i].size, position, length), cap) then Undecided
                               else Grow(i, reach)))
  {
    RunOne(s, cap, Acquire(p));
    RunSnoc(s, cap, [Acquire(p)], Admit(p, i, position, length, seen, reach));
    assert [Acquire(p)] + [Admit(p, i, position, length, seen, reach)]
           == GuardSteps(p, i, position, length, seen, reach);
  }

  lemma AcquireRun(s: Space, cap: nat, p: nat)
    requires s.lock.Free?
    ensures Run(s, cap, [Acquire(p)]) == s.(lock := Held(p, Undecided))
  {
    RunOne(s, cap, Acquire(p));
  }

  lemma NextRelease(s: Space, cap: nat, p: nat)
    requires Holds(s, p)
    ensures Next(s, cap, Release(p)) == s.(lock := Free)
  {
  }

  /** A mutation that nobody interferes with leaves a whole backup and, if it truncates, half of its artifact. */
  lemma QuietMutation(s: Space, cap: nat, p: nat, path: nat, i: nat, truncates: bool, walk: nat, readable: bool)
    requires s.lock.Free? && Holder(s.files, path) == Some(i) && s.files[i].size >= 2
    requires !DuplicateRefused(Measured(s, walk, readable), s.files[i].size)
    ensures
      var size := s.files[i].size;
      Run(s, cap, MutationHead(p, path, truncates, walk, readable)
                  + MutationTail(p, Others([], []), Whole(size)) + [Release(p)])
      == s.(files := (if truncates then s.files[i := s.files[i].(size := size / 2)] else s.files)
                     + [File(Backup, path, size, false, 0)])
  {
    hide Next, Run, Limit, Holder;
    var size, half := s.files[i].size, if truncates then s.files[i].size / 2 else 0;
    var head, backup := MutationHead(p, path, truncates, walk, readable), File(Backup, path, size, false, 0);
    AcquireRun(s, cap, p);
    RunSnoc(s, cap, [Acquire(p)], AdmitCopy(p, path, truncates, walk, readable));
    NextAdmitCopy(s.(lock := Held(p, Undecided)), cap, p, path, truncates, walk, readable);
    RunSnoc(s, cap, head, Copy(p, size));
    QuietCopy(s, cap, p, path, i, half);
    RunSnoc(s, cap, head + [Copy(p, size)], Halve(p));
    QuietHalve(s, cap, p, path, i, half);
    RunSnoc(s, cap, head + [Copy(p, size)] + [Halve(p)], Release(p));
    assert head + MutationTail(p, Others([], []), Whole(size)) + [Release(p)]
           == head + [Copy(p, size)] + [Halve(p)] + [Release(p)];
    NextRelease(Next(s.(files := s.files + [backup], lock := Held(p, Damage(path, half))), cap, Halve(p)), cap, p);
  }

  lemma QuietCopy(s: Space, cap: nat, p: nat, path: nat, i: nat, half: nat)
    requires Holder(s.files, path) == Some(i)
    ensures Next(s.(lock := Held(p, Duplicate(path, half))), cap, Copy(p, s.files[i].size))
         == s.(files := s.files + [File(Backup, path, s.files[i].size, false, 0)], lock := Held(p, Damage(path, half)))
  {
  }

  lemma QuietHalve(s: Space, cap: nat, p: nat, path: nat, i: nat, half: nat)
    requires Holder(s.files, path) == Some(i)
    ensures
      var backup := File(Backup, path, s.files[i].size, false, 0);
      var after := Next(s.(files := s.files + [backup], lock := Held(p, Damage(path, half))), cap, Halve(p));
      && Holds(after, p) && after.recorded == s.recorded
      && after.files == (if half > 0 then s.files[i := s.files[i].(size := half)] else s.files) + [backup]
  {
    var backup := File(Backup, path, s.files[i].size, false, 0);
    assert (s.files + [backup])[..|s.files|] == s.files;
    assert Holder(s.files + [backup], path) == Some(i);
    hide Holder;
    assert (s.files + [backup])[i := s.files[i].(size := half)] == s.files[i := s.files[i].(size := half)] + [backup];
  }

  lemma NextAdmitCopy(s: Space, cap: nat, p: nat, path: nat, truncates: bool, walk: nat, readable: bool)
    requires s.lock == Held(p, Undecided)
    ensures Next(s, cap, AdmitCopy(p, path, truncates, walk, readable))
         == var h := Holder(s.files, path);
            if h.None? || DuplicateRefused(Measured(s, walk, readable), s.files[h.value].size) then s
            else s.(lock := Held(p, Duplicate(path, if truncates then s.files[h.value].size / 2 else 0)))
  {
  }

  /** An operation that ends at `end` does not extend the file, or the total after it is within the limit. */
  predicate RoomFor(used: nat, size: nat, end: nat, cap: nat) {
    end <= size || used - size + end <= Limit(cap)
  }

  lemma RoomIsExact(used: nat, size: nat, position: nat, length: nat, cap: nat)
    ensures !GrowthRefused(used, Growth(size, position, length), cap) <==> RoomFor(used, size, position + length, cap)
  {
  }

  class Namespace {
    const cap: nat
    var files: seq<File>
    var recorded: nat
    var lock: Lock

    constructor (cap: nat)
      requires ValidCap(cap)
      ensures State() == EMPTY && this.cap == cap
    {
      this.cap := cap;
      files, recorded, lock := [], 0, Free;
    }

    function State(): Space
      reads this
    {
      Space(files, recorded, lock)
    }

    /** Walks the names under the root. */
    method TreeBytes() returns (total: nat)
      ensures total == Bytes(files, NAMED)
    {
      total := 0;
      for i := 0 to |files|
        invariant total == Bytes(files[..i], NAMED)
      {
        if files[i].kind in NAMED {
          total := total + files[i].size;
        }
        assert files[..i + 1][..i] == files[..i];
      }
      assert files[..|files|] == files;
    }

    /** Walks all processes' descriptors; an unlinked file is counted once however often it is open. */
    method AnonymousBytes(descriptors: seq<nat>) returns (total: nat)
      requires Lists(files, descriptors)
      ensures total == Bytes(files, UNNAMED)
    {
      var seen: set<nat> := {};
      total := 0;
      SeeOne(files, {}, 0);
      for d := 0 to |descriptors|
        invariant total == SeenBytes(files, seen)
        invariant forall e :: 0 <= e < d && files[descriptors[e]].kind in UNNAMED ==> descriptors[e] in seen
      {
        var i := descriptors[d];
        if files[i].kind in UNNAMED && i !in seen {
          SeeOne(files, seen, i);
          seen := seen + {i};
          total := total + files[i].size;
        }
      }
      AllSeen(files, seen);
    }

    /** A descriptor open for writing, whose operation can begin: the lock is only waited for when it is needed. */
    ghost predicate Writable(i: nat, descriptors: seq<nat>)
      reads this
    {
      && IsKind(State(), i, ALL) && files[i].open && Lists(files, descriptors)
      && (files[i].kind !in INTERNAL ==> lock.Free?)
    }

    /** Takes no lock for a file in the control directory. Otherwise takes it and measures; refused exactly when the
        growth would pass the limit, and a refusal gives the lock back. `reach` is where the write would end. */
    method GuardGrowth(p: nat, i: nat, position: nat, length: nat, reach: nat, descriptors: seq<nat>, recordWorks: bool)
      returns (guard: Guard)
      requires Writable(i, descriptors)
      modifies this
      ensures files == old(files)
      ensures guard.Unguarded? <==> old(files[i].kind) in INTERNAL
      ensures !guard.Unguarded? ==>
                (guard.Granted? <==> RoomFor(Used(old(State())), old(files[i].size), position + length, cap))
      ensures guard.Unguarded? ==> State() == old(State())
      ensures !guard.Unguarded? ==>
                State() == Run(old(State()), cap, GuardSteps(p, i, position, length, Used(old(State())), reach)
                                                  + if guard.Granted? then [] else ReleaseSteps(p, recordWorks))
      ensures guard.Granted? ==> lock == Held(p, Grow(i, reach)) && recorded == old(recorded)
      ensures guard.TooMuch? ==> lock.Free? && recorded == if recordWorks then Bytes(files, ALL) else old(recorded)
    {
      if files[i].kind in INTERNAL {
        return Unguarded;
      }
      hide Run, Next, Growth, RoomFor;
      RoomIsExact(Used(State()), files[i].size, position, length, cap);
      ghost var s0 := State();
      GuardRun(s0, cap, p, i, position, length, Used(s0), reach);
      lock := Held(p, Undecided);
      var growth := Growth(files[i].size, position, length);
      var named := TreeBytes();
      var unnamed := AnonymousBytes(descriptors);
      var used := named + unnamed;
      BytesSplit(files);
      guard := if GrowthRefused(used, growth, cap) then TooMuch else Granted;
      if guard.Granted? {
        lock := Held(p, Grow(i, reach));
      }
      ghost var steps := GuardSteps(p, i, position, length, Used(s0), reach);
      if guard.Granted? {
        assert steps + [] == steps;
      } else {
        Unlock(p, recordWorks);
        RunAppend(s0, cap, steps, ReleaseSteps(p, recordWorks));
      }
    }

    /** Records the total, unless that fails, and gives the lock back either way. */
    method Unlock(p: nat, recordWorks: bool)
      requires Holds(State(), p)
      modifies this
      ensures files == old(files) && lock.Free?
      ensures recorded == if recordWorks then Bytes(files, ALL) else old(recorded)
      ensures State() == Run(old(State()), cap, ReleaseSteps(p, recordWorks))
    {
      ghost var s0 := State();
      RunOne(s0, cap, Record(p));
      RunOne(s0, cap, Release(p));
      if recordWorks {
        recorded := Bytes(files, ALL);
        RunSnoc(s0, cap, [Record(p)], Release(p));
      }
      lock := Free;
      assert ReleaseSteps(p, recordWorks) == if recordWorks then [Record(p)] + [Release(p)] else [Release(p)];
    }

    /** `write`, `pwrite`, `writev` and the wrapped stream's `write`. All of the payload's bytes reach the file, or
        some, or none when the system call fails; they land where the descriptor puts them, whatever the check
        assumed. */
    method Write(p: nat, i: nat, w: Payload, descriptors: seq<nat>, recordWorks: bool) returns (stored: bool)
      requires Writable(i, descriptors) && w.count <= w.bytes
      modifies this
      ensures stored <==>
                old(files[i].kind) in INTERNAL
                || RoomFor(Used(old(State())), old(files[i].size), w.position + w.length, cap)
      ensures !stored || w.count == 0 ==> files == old(files)
      ensures stored && w.count > 0 ==>
                files == old(files)[i := old(files[i]).(size := Max(old(files[i].size), w.at + w.count))]
      ensures if old(files[i].kind) in INTERNAL then lock == old(lock) && recorded == old(recorded)
              else lock.Free? && recorded == if recordWorks then Bytes(files, ALL) else old(recorded)
      ensures State() == Run(old(State()), cap,
                             if old(files[i].kind) in INTERNAL then UnguardedSteps(old(files[i].kind), i, files[i].size)
                             else WriteSteps(p, i, w, Used(old(State())), stored, recordWorks))
    {
      hide Run, Next, Growth, RoomFor;
      ghost var s0 := State();
      ghost var head := GuardSteps(p, i, w.position, w.length, Used(s0), w.at + w.bytes);
      var guard := GuardGrowth(p, i, w.position, w.length, w.at + w.bytes, descriptors, recordWorks);
      if guard.TooMuch? {
        assert WriteSteps(p, i, w, Used(s0), false, recordWorks) == head + ReleaseSteps(p, recordWorks);
        return false;
      }
      if guard.Granted? {
        assert State() == Run(s0, cap, head) by { assert head + [] == head; }
        RunSnoc(s0, cap, head, Store(p, End(w)));
        NextStore(State(), cap, p, i, w.at + w.bytes, End(w));
      } else {
        UnguardedRun(s0, cap, i, Max(files[i].size, End(w)));
      }
      files := files[i := files[i].(size := Max(files[i].size, End(w)))];
      stored := true;
      if guard.Granted? {
        lock := Held(p, Undecided);
        Unlock(p, recordWorks);
        RunAppend(s0, cap, head + [Store(p, End(w))], ReleaseSteps(p, recordWorks));
        assert WriteSteps(p, i, w, Used(s0), true, recordWorks)
               == head + [Store(p, End(w))] + ReleaseSteps(p, recordWorks);
      }
    }

    /** `ftruncate`. `current` is the size read before the lock was taken, which may be out of date. */
    method TruncateFd(p: nat, i: nat, current: nat, length: nat, works: bool, descriptors: seq<nat>, recordWorks: bool)
      returns (resized: bool)
      requires Writable(i, descriptors)
      modifies this
      ensures resized <==>
                works && (old(files[i].kind) !in INTERNAL ==>
                            RoomFor(Used(old(State())), old(files[i].size), Max(current, length), cap))
      ensures files == if resized then old(files)[i := old(files[i]).(size := length)] else old(files)
      ensures if old(files[i].kind) in INTERNAL then lock == old(lock) && recorded == old(recorded)
              else lock.Free? && recorded == if recordWorks then Bytes(files, ALL) else old(recorded)
      ensures State() == Run(old(State()), cap,
                             if old(files[i].kind) in INTERNAL then UnguardedSteps(old(files[i].kind), i, files[i].size)
                             else TruncateSteps(p, i, current, length, Used(old(State())), resized, recordWorks))
    {
      hide Run, Next, Growth, RoomFor;
      ghost var s0 := State();
      ghost var head := GuardSteps(p, i, current, Max(0, length - current), Used(s0), length);
      var guard := GuardGrowth(p, i, current, Max(0, length - current), length, descriptors, recordWorks);
      if guard.TooMuch? {
        assert TruncateSteps(p, i, current, length, Used(s0), false, recordWorks)
               == head + ReleaseSteps(p, recordWorks);
        return false;
      }
      if guard.Granted? {
        assert State() == Run(s0, cap, head) by { assert head + [] == head; }
        RunSnoc(s0, cap, head, Resize(p, length));
        NextResize(State(), cap, p, i, length, length);
      } else {
        UnguardedRun(s0, cap, i, if works then length else files[i].size);
        assert files[i := files[i]] == files;
      }
      resized := works;
      if works {
        files := files[i := files[i].(size := length)];
      }
      if guard.Granted? {
        if works {
          lock := Held(p, Undecided);
          head := head + [Resize(p, length)];
        }
        Unlock(p, recordWorks);
        RunAppend(s0, cap, head, ReleaseSteps(p, recordWorks));
        assert TruncateSteps(p, i, current, length, Used(s0), works, recordWorks)
               == head + ReleaseSteps(p, recordWorks);
      }
    }

    /** Other processes take their steps. */
    method Interfere(steps: seq<Step>)
      modifies this
      ensures State() == Run(old(State()), cap, steps)
    {
      var s := Run(State(), cap, steps);
      files, recorded, lock := s.files, s.recorded, s.lock;
    }

    /** What a copying mutation does first: it stats what the path names and checks its size. */
    method CheckCopy(p: nat, path: nat, truncates: bool, readable: bool) returns (made: bool)
      requires lock == Held(p, Undecided)
      modifies this
      ensures files == old(files) && recorded == old(recorded) && (!made ==> lock == old(lock))
      ensures made ==> Holds(State(), p) && lock.grant.Duplicate? && lock.grant.path == path
      ensures made <==>
                var h := Holder(files, path);
                h.Some? && !DuplicateRefused(Measured(old(State()), Bytes(files, NAMED), readable), files[h.value].size)
      ensures State() == Next(old(State()), cap, AdmitCopy(p, path, truncates, Bytes(files, NAMED), readable))
    {
      hide Next, Holder, Bytes, Limit;
      NextAdmitCopy(State(), cap, p, path, truncates, Bytes(files, NAMED), readable);
      var h := Holder(files, path);
      if h.None? {
        return false;
      }
      var size := files[h.value].size;
      var stateUsed := 0;
      if readable {
        stateUsed := recorded;
      }
      var named := TreeBytes();
      var used := Max(named, stateUsed);
      made := used + size <= Limit(MAX_BYTES);
      if made {
        lock := Held(p, Duplicate(path, if truncates then size / 2 else 0));
      }
    }

    /** It copies what the path names by then, if anything: `wanted` bytes, or all there are. */
    method CopyNamed(p: nat, wanted: nat) returns (copied: Option<nat>)
      requires Holds(State(), p) && lock.grant.Duplicate?
      modifies this
      ensures recorded == old(recorded)
      ensures copied == Taken(old(files), old(lock).grant.path, wanted)
      ensures State() == if copied.None? then old(State()) else Next(old(State()), cap, Copy(p, copied.value))
      ensures copied.Some? ==> lock == Held(p, Damage(old(lock).grant.path, old(lock).grant.half))
    {
      var h := Holder(files, lock.grant.path);
      if h.None? {
        return None;
      }
      copied := Some(Min(wanted, files[h.value].size));
      files := files + [File(Backup, lock.grant.path, copied.value, false, 0)];
      lock := Held(p, Damage(lock.grant.path, lock.grant.half));
    }

    /** It damages what the path names by then: a truncation sets it to half the size that was checked. */
    method DamageNamed(p: nat)
      requires Holds(State(), p) && lock.grant.Damage?
      modifies this
      ensures State() == Next(old(State()), cap, Halve(p))
    {
      var h := Holder(files, lock.grant.path);
      if h.Some? && lock.grant.half > 0 {
        files := files[h.value := files[h.value].(size := lock.grant.half)];
        lock := Held(p, Undecided);
      }
    }

    /** A copying mutation (scripts/resilience/faultctl.py), between whose steps other processes take theirs. The
        copy may stop early with an error; nothing is recorded afterwards. Whether it was admitted depends on the
        moment of the check alone, what it copies and damages on the moments of copy and damage. */
    method BackUp(p: nat, path: nat, truncates: bool, readable: bool, others: Others, wanted: nat, works: bool)
      returns (progress: Progress)
      requires lock.Free? && Unlocked(others)
      modifies this
      ensures !progress.Refused? <==>
                var h := Holder(old(files), path);
                h.Some? && !DuplicateRefused(Measured(old(State()), Bytes(old(files), NAMED), readable),
                                             old(files)[h.value].size)
      ensures !progress.Refused? ==>
                var head := MutationHead(p, path, truncates, Bytes(old(files), NAMED), readable);
                var taken := Taken(Run(old(State()), cap, head + others.beforeCopy).files, path, wanted);
                progress == if taken.None? then Missing else if works then Whole(taken.value) else Partial(taken.value)
      ensures State() == Run(old(State()), cap, MutationHead(p, path, truncates, Bytes(old(files), NAMED), readable)
                                                + MutationTail(p, others, progress) + [Release(p)])
      ensures lock.Free? && (progress.Refused? ==> State() == old(State()))
    {
      hide Next, Run;
      ghost var s0, walk := State(), Bytes(files, NAMED);
      ghost var steps := MutationHead(p, path, truncates, walk, readable);
      lock := Held(p, Undecided);
      AcquireRun(s0, cap, p);
      RunSnoc(s0, cap, [Acquire(p)], AdmitCopy(p, path, truncates, walk, readable));
      AdmitCopyKeeps(State(), cap, p, path, truncates, walk, readable);
      var made := CheckCopy(p, path, truncates, readable);
      progress := Refused;
      if made {
        ElsewhereKeepsLock(State(), cap, others.beforeCopy);
        Interfere(others.beforeCopy);
        RunAppend(s0, cap, steps, others.beforeCopy);
        steps := steps + others.beforeCopy;
        var copied := CopyNamed(p, wanted);
        progress := Missing;
        if copied.Some? {
          RunSnoc(s0, cap, steps, Copy(p, copied.value));
          steps := steps + [Copy(p, copied.value)];
          progress := Partial(copied.value);
          if works {
            ElsewhereKeepsLock(State(), cap, others.beforeDamage);
            Interfere(others.beforeDamage);
            RunAppend(s0, cap, steps, others.beforeDamage);
            steps := steps + others.beforeDamage;
            HalveKeepsHolder(State(), cap, p);
            DamageNamed(p);
            RunSnoc(s0, cap, steps, Halve(p));
            steps := steps + [Halve(p)];
            progress := Whole(copied.value);
          }
        }
      }
      assert steps == MutationHead(p, path, truncates, walk, readable) + MutationTail(p, others, progress);
      NextRelease(State(), cap, p);
      RunSnoc(s0, cap, steps, Release(p));
      lock := Free;
    }

    /** The `missing` mutation's rename; no check, and no matter who has the artifact open. */
    method RenameAway(p: nat, i: nat)
      requires lock.Free? && IsKind(State(), i, {Data})
      modifies this
      ensures files == old(files)[i := old(files[i]).(kind := Backup)] && recorded == old(recorded) && lock.Free?
      ensures State() == Run(old(State()), cap, [Acquire(p), SetAside(p, i), Release(p)])
    {
      RunThree(State(), cap, Acquire(p), SetAside(p, i), Release(p));
      files := files[i := files[i].(kind := Backup)];
    }
  }
}
