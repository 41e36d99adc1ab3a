/** Artifact mutations with their backups and journal, and the restore that undoes them
    (scripts/resilience/faultctl.py). */
module Mutations {
  import opened Options

  type Bytes = seq<bv8>

  datatype Mutation = Missing | Truncated | Checksum | Unsupported

  /** A journal record; `before` is the digest of the artifact when it was mutated. */
  datatype Record = Record(id: nat, target: string, before: nat, restored: bool)

  /** Artifacts by path, backups by mutation id, and the journal directory as it is listed: by ascending id. */
  datatype Store = Store(files: map<string, Bytes>, backups: map<nat, Bytes>, journal: seq<Record>)

  ghost predicate Ascending(journal: seq<Record>) {
    forall i, j :: 0 <= i < j < |journal| ==> journal[i].id < journal[j].id
  }

  /** An id that neither the journal nor a leftover backup uses. */
  predicate FreshId(s: Store, id: nat) {
    forall i :: 0 <= i < |s.journal| ==> s.journal[i].id != id
  }

  /** Where a record goes in the listing. */
  function Insert(journal: seq<Record>, r: Record): (after: seq<Record>)
    requires Ascending(journal) && forall i :: 0 <= i < |journal| ==> journal[i].id != r.id
    ensures Ascending(after) && |after| == |journal| + 1
    ensures forall x :: x in after <==> x in journal || x == r
  {
    if |journal| == 0 then [r]
    else
      var last := journal[|journal| - 1];
      assert journal == journal[..|journal| - 1] + [last];
      if last.id < r.id then journal + [r]
      else
        var init := Insert(journal[..|journal| - 1], r);
        assert forall x :: x in journal[..|journal| - 1] ==> x.id < last.id;
        assert forall i :: 0 <= i < |init| ==> init[i] in init && init[i].id < last.id;
        init + [last]
  }

  // ---------------------------------------------------------------- mutating

  datatype Refusal = UnsupportedMutation | NoArtifact | BadIndex | OverCap | TooSmall | Empty

  function HalfOf(data: Bytes): (r: Bytes)
    requires |data| > 0
    ensures 0 < |r| <= |data| && r == data[..|r|] && (|data| > 1 ==> 2 * |r| <= |data| <= 2 * |r| + 1)
  {
    data[..if |data| / 2 > 1 then |data| / 2 else 1]
  }

  function FlipFirst(data: Bytes): (r: Bytes)
    requires |data| > 0
    ensures |r| == |data| && r[1..] == data[1..] && r[0] ^ data[0] == 1
  {
    [data[0] ^ 1] + data[1..]
  }

  /** What a mutation leaves at its target: nothing for a missing artifact. */
  function Changed(m: Mutation, data: Bytes): Option<Bytes>
    requires m.Truncated? ==> |data| >= 2
    requires m.Checksum? ==> |data| > 0
  {
    match m
    case Truncated => Some(HalfOf(data))
    case Checksum => Some(FlipFirst(data))
    case _ => None
  }

  /** One call on the chosen artifact. A refusal after the backup was made leaves that backup behind. */
  function Mutate(s: Store, digest: Bytes -> nat, m: Mutation, target: string, id: nat,
                  overCap: bool): (Store, Option<Refusal>)
    requires target in s.files && Ascending(s.journal) && FreshId(s, id)
  {
    var data := s.files[target];
    var backed := s.(backups := s.backups[id := data]);
    if m.Unsupported? then (s, Some(UnsupportedMutation))
    else if !m.Missing? && overCap then (s, Some(OverCap))
    else if m.Truncated? && |data| < 2 then (backed, Some(TooSmall))
    else if m.Checksum? && |data| == 0 then (backed, Some(Empty))
    else
      var changed := Changed(m, data);
      var files := if changed.Some? then s.files[target := changed.value] else s.files - {target};
      (backed.(files := files, journal := Insert(s.journal, Record(id, target, digest(data), false))), None)
  }

  /** A mutation that is not refused really changes its artifact and nothing else; a refused one changes none. */
  lemma MutationChanges(s: Store, digest: Bytes -> nat, m: Mutation, target: string, id: nat, overCap: bool)
    requires target in s.files && Ascending(s.journal) && FreshId(s, id)
    ensures
      var (after, refusal) := Mutate(s, digest, m, target, id, overCap);
      && (refusal.Some? ==> after.files == s.files && after.journal == s.journal)
      && (refusal.None? ==>
            && (target in after.files ==> after.files[target] != s.files[target])
            && after.files - {target} == s.files - {target}
            && id in after.backups && after.backups[id] == s.files[target])
  {
    var data := s.files[target];
    if |data| > 0 {
      assert FlipFirst(data)[0] != data[0];
    }
  }

  // ---------------------------------------------------------------- restoring

  datatype Failure = BackupMissing(id: nat) | HashDiffers(id: nat)

  datatype Progress = Progress(store: Store, restored: seq<nat>, failure: Option<Failure>)

  /** The record at `k`, put back unless that was done before. */
  function RestoreOne(p: Progress, digest: Bytes -> nat, k: nat): Progress
    requires k < |p.store.journal|
  {
    var s, r := p.store, p.store.journal[k];
    if p.failure.Some? || r.restored then p
    else if r.id !in s.backups then p.(failure := Some(BackupMissing(r.id)))
    else
      var data := s.backups[r.id];
      var moved := s.(files := s.files[r.target := data], backups := s.backups - {r.id});
      if digest(data) != r.before then p.(store := moved, failure := Some(HashDiffers(r.id)))
      else Progress(moved.(journal := s.journal[k := r.(restored := true)]), p.restored + [r.id], None)
  }

  /** The first `n` records of the listing. */
  function RestoreFirst(s: Store, digest: Bytes -> nat, n: nat): (p: Progress)
    requires n <= |s.journal|
    ensures |p.store.journal| == |s.journal|
  {
    if n == 0 then Progress(s, [], None) else RestoreOne(RestoreFirst(s, digest, n - 1), digest, n - 1)
  }

  function Restore(s: Store, digest: Bytes -> nat): Progress { RestoreFirst(s, digest, |s.journal|) }

  class ArtifactStore {
    var files: map<string, Bytes>
    var backups: map<nat, Bytes>
    var journal: seq<Record>

    ghost function State(): Store
      reads this
    {
      Store(files, backups, journal)
    }

    /** `candidates` are the matching artifacts in path order. */
    method MutateArtifact(digest: Bytes -> nat, m: Mutation, candidates: seq<string>, index: int, id: nat,
                          overCap: bool)
      returns (refusal: Option<Refusal>)
      requires forall k :: 0 <= k < |candidates| ==> candidates[k] in files
      requires Ascending(journal) && FreshId(State(), id)
      modifies this
      ensures m.Unsupported? ==> refusal == Some(UnsupportedMutation)
      ensures !m.Unsupported? && candidates == [] ==> refusal == Some(NoArtifact)
      ensures !m.Unsupported? && candidates != [] && !(0 <= index < |candidates|) ==> refusal == Some(BadIndex)
      ensures m.Unsupported? || !(0 <= index < |candidates|) ==> State() == old(State())
      ensures !m.Unsupported? && 0 <= index < |candidates| ==>
                (State(), refusal) == Mutate(old(State()), digest, m, candidates[index], id, overCap)
    {
      if m.Unsupported? {
        return Some(UnsupportedMutation);
      }
      if |candidates| == 0 {
        return Some(NoArtifact);
      }
      if index < 0 || index >= |candidates| {
        return Some(BadIndex);
      }
      var target := candidates[index];
      var data := files[target];
      var before := digest(data);
      if m.Missing? {
        files, backups := files - {target}, backups[id := data];
      } else {
        if overCap {
          return Some(OverCap);
        }
        backups := backups[id := data];
        if m.Truncated? {
          if |data| < 2 {
            return Some(TooSmall);
          }
          files := files[target := HalfOf(data)];
        } else {
          if |data| == 0 {
            return Some(Empty);
          }
          files := files[target := FlipFirst(data)];
        }
      }
      journal := Insert(journal, Record(id, target, before, false));
      refusal := None;
    }

    /** Puts back every pending record's backup, in the order of the listing; stops at the first failure. */
    method RestoreMutations(digest: Bytes -> nat) returns (restored: seq<nat>, failure: Option<Failure>)
      modifies this
      ensures Progress(State(), restored, failure) == Restore(old(State()), digest)
    {
      ghost var s := State();
      restored, failure := [], None;
      for k := 0 to |journal|
        invariant |journal| == |s.journal|
        invariant Progress(State(), restored, None) == RestoreFirst(s, digest, k)
      {
        var r := journal[k];
        if !r.restored {
          if r.id !in backups {
            failure := Some(BackupMissing(r.id));
            StaysFailed(s, digest, k + 1, |journal|);
            return;
          }
          var data := backups[r.id];
          files, backups := files[r.target := data], backups - {r.id};
          if digest(data) != r.before {
            failure := Some(HashDiffers(r.id));
            StaysFailed(s, digest, k + 1, |journal|);
            return;
          }
          journal := journal[k := r.(restored := true)];
          restored := restored + [r.id];
        }
      }
    }
  }

  lemma {:induction false} StaysFailed(s: Store, digest: Bytes -> nat, k: nat, n: nat)
    requires k <= n <= |s.journal| && RestoreFirst(s, digest, k).failure.Some?
    ensures RestoreFirst(s, digest, n) == RestoreFirst(s, digest, k)
  {
    if k == n {
    } else {
      StaysFailed(s, digest, k, n - 1);
    }
  }

  // ---------------------------------------------------------------- what restoring gives

  /** Every pending record still has the backup it was made with. */
  ghost predicate Sound(s: Store, digest: Bytes -> nat) {
    && Ascending(s.journal)
    && forall k :: 0 <= k < |s.journal| && !s.journal[k].restored ==>
         s.journal[k].id in s.backups && digest(s.backups[s.journal[k].id]) == s.journal[k].before
  }

  /** The pending record with the highest id, among the first `n`, for a target. */
  function Top(journal: seq<Record>, n: nat, target: string): Option<nat>
    requires n <= |journal|
  {
    if n == 0 then None
    else if !journal[n - 1].restored && journal[n - 1].target == target then Some(n - 1)
    else Top(journal, n - 1, target)
  }

  lemma {:induction false} TopMeaning(journal: seq<Record>, n: nat, target: string)
    requires n <= |journal|
    ensures
      match Top(journal, n, target)
      case Some(k) =>
        && k < n && !journal[k].restored && journal[k].target == target
        && forall i :: k < i < n ==> journal[i].restored || journal[i].target != target
      case None => forall i :: 0 <= i < n ==> journal[i].restored || journal[i].target != target
  {
    if n == 0 {
    } else {
      TopMeaning(journal, n - 1, target);
    }
  }

  /** A target's content after the first `n` records: the backup of the highest pending one, or as it was. */
  ghost predicate HoldsTop(after: map<string, Bytes>, s: Store, n: nat, target: string)
    requires n <= |s.journal|
  {
    match Top(s.journal, n, target)
    case Some(k) =>
      && k < |s.journal| && s.journal[k].id in s.backups
      && target in after && after[target] == s.backups[s.journal[k].id]
    case None => (target in after <==> target in s.files) && (target in after ==> after[target] == s.files[target])
  }

  ghost predicate RestoredUpTo(p: Progress, s: Store, n: nat)
    requires n <= |s.journal|
  {
    && p.failure.None? && |p.store.journal| == |s.journal|
    && (forall t :: HoldsTop(p.store.files, s, n, t))
    && (forall k :: 0 <= k < |s.journal| ==>
          p.store.journal[k] == if k < n then s.journal[k].(restored := true) else s.journal[k])
    && (forall k :: n <= k < |s.journal| && !s.journal[k].restored ==>
          s.journal[k].id in s.backups && s.journal[k].id in p.store.backups
          && p.store.backups[s.journal[k].id] == s.backups[s.journal[k].id])
  }

  lemma {:induction false} RestoreStepwise(s: Store, digest: Bytes -> nat, n: nat)
    requires Sound(s, digest) && n <= |s.journal|
    ensures RestoredUpTo(RestoreFirst(s, digest, n), s, n)
  {
    if n == 0 {
    } else {
      RestoreStepwise(s, digest, n - 1);
      RestoreStep(RestoreFirst(s, digest, n - 1), s, digest, n);
    }
  }

  lemma RestoreStep(p: Progress, s: Store, digest: Bytes -> nat, n: nat)
    requires Sound(s, digest) && 0 < n <= |s.journal| && RestoredUpTo(p, s, n - 1)
    ensures RestoredUpTo(RestoreOne(p, digest, n - 1), s, n)
  {
    var q, r := RestoreOne(p, digest, n - 1), s.journal[n - 1];
    assert p.store.journal[n - 1] == r;
    forall t ensures HoldsTop(q.store.files, s, n, t) {
      assert HoldsTop(p.store.files, s, n - 1, t);
    }
    hide HoldsTop, Ascending;
  }

  /** The exact effect on a sound store: no failure, every record restored, and every target holds the backup of
      its highest-id pending record, or what it held if it had none. */
  lemma RestoreResult(s: Store, digest: Bytes -> nat)
    requires Sound(s, digest)
    ensures
      var p := Restore(s, digest);
      && p.failure.None? && |p.store.journal| == |s.journal|
      && (forall k :: 0 <= k < |s.journal| ==> p.store.journal[k] == s.journal[k].(restored := true))
      && forall t :: HoldsTop(p.store.files, s, |s.journal|, t)
  {
    RestoreStepwise(s, digest, |s.journal|);
  }

  /** With nothing pending, restoring changes nothing and reports nothing. */
  lemma {:induction false} NothingPending(s: Store, digest: Bytes -> nat, n: nat)
    requires n <= |s.journal| && forall k :: 0 <= k < |s.journal| ==> s.journal[k].restored
    ensures RestoreFirst(s, digest, n) == Progress(s, [], None)
  {
    if n == 0 {
    } else {
      NothingPending(s, digest, n - 1);
    }
  }

  /** A second restore is a no-op. */
  lemma RestoreTwice(s: Store, digest: Bytes -> nat)
    requires Sound(s, digest)
    ensures
      var once := Restore(s, digest).store;
      Restore(once, digest) == Progress(once, [], None)
  {
    RestoreResult(s, digest);
    var once := Restore(s, digest).store;
    NothingPending(once, digest, |once.journal|);
  }

  // ---------------------------------------------------------------- round trips

  datatype Call = Call(m: Mutation, target: string, id: nat, overCap: bool)

  predicate Pending(s: Store, target: string) {
    exists k :: 0 <= k < |s.journal| && !s.journal[k].restored && s.journal[k].target == target
  }

  function Run(s: Store, digest: Bytes -> nat, calls: seq<Call>): Store
    requires Permitted(s, digest, calls)
    decreases |calls|, 1
  {
    if |calls| == 0 then s
    else
      var c := calls[|calls| - 1];
      Mutate(Run(s, digest, calls[..|calls| - 1]), digest, c.m, c.target, c.id, c.overCap).0
  }

  /** Every call names an artifact that is there and gets an unused id. */
  predicate Permitted(s: Store, digest: Bytes -> nat, calls: seq<Call>)
    decreases |calls|, 0
  {
    Ascend(s.journal)
    && (|calls| == 0
        || (Permitted(s, digest, calls[..|calls| - 1])
            && var mid, c := Run(s, digest, calls[..|calls| - 1]), calls[|calls| - 1];
            c.target in mid.files && Ascend(mid.journal) && FreshId(mid, c.id)))
  }

  predicate Ascend(journal: seq<Record>)
    ensures Ascend(journal) <==> Ascending(journal)
  {
    forall i, j :: 0 <= i < j < |journal| ==> journal[i].id < journal[j].id
  }

  /** No call names an artifact that already has a pending record. Pairwise different targets are one such case. */
  predicate OncePending(s: Store, digest: Bytes -> nat, calls: seq<Call>)
    requires Permitted(s, digest, calls)
  {
    |calls| == 0
    || (OncePending(s, digest, calls[..|calls| - 1])
        && !Pending(Run(s, digest, calls[..|calls| - 1]), calls[|calls| - 1].target))
  }

  /** Pending backups are the originals. */
  ghost predicate BackedUp(origin: map<string, Bytes>, s: Store) {
    forall k :: 0 <= k < |s.journal| && !s.journal[k].restored ==> HoldsOriginal(origin, s, s.journal[k])
  }

  ghost predicate HoldsOriginal(origin: map<string, Bytes>, s: Store, r: Record) {
    r.target in origin && r.id in s.backups && s.backups[r.id] == origin[r.target]
  }

  /** Artifacts without a pending record are as they were. */
  ghost predicate Untouched(origin: map<string, Bytes>, s: Store) {
    forall t :: !Pending(s, t) ==> (t in s.files <==> t in origin) && (t in s.files ==> s.files[t] == origin[t])
  }

  ghost predicate Recoverable(origin: Store, s: Store) { BackedUp(origin.files, s) && Untouched(origin.files, s) }

  lemma MutateKeeps(origin: Store, s: Store, digest: Bytes -> nat, c: Call)
    requires c.target in s.files && Ascending(s.journal) && FreshId(s, c.id)
    requires Sound(s, digest)
    ensures Sound(Mutate(s, digest, c.m, c.target, c.id, c.overCap).0, digest)
    ensures Recoverable(origin, s) && !Pending(s, c.target) ==>
              Recoverable(origin, Mutate(s, digest, c.m, c.target, c.id, c.overCap).0)
  {
    hide Mutate, Sound, Recoverable, Pending;
    MutateStaysSound(s, digest, c);
    if Recoverable(origin, s) && !Pending(s, c.target) {
      MutateStaysRecoverable(origin, s, digest, c);
    }
  }

  /** The new journal holds the old records and, unless refused, one more. */
  lemma MutatedJournal(s: Store, digest: Bytes -> nat, c: Call)
    requires c.target in s.files && Ascending(s.journal) && FreshId(s, c.id)
    ensures
      var (after, refusal) := Mutate(s, digest, c.m, c.target, c.id, c.overCap);
      var r := Record(c.id, c.target, digest(s.files[c.target]), false);
      && Ascending(after.journal) && (forall x :: x in s.journal ==> x in after.journal)
      && (forall k :: 0 <= k < |after.journal| ==>
          after.journal[k] in s.journal || (refusal.None? && after.journal[k] == r))
      && (refusal.None? ==> r in after.journal)
  {
    hide Changed;
    var (after, refusal) := Mutate(s, digest, c.m, c.target, c.id, c.overCap);
    forall k | 0 <= k < |after.journal| ensures after.journal[k] in after.journal {
    }
  }

  lemma MutateStaysSound(s: Store, digest: Bytes -> nat, c: Call)
    requires c.target in s.files && Ascending(s.journal) && FreshId(s, c.id) && Sound(s, digest)
    ensures Sound(Mutate(s, digest, c.m, c.target, c.id, c.overCap).0, digest)
  {
    MutatedJournal(s, digest, c);
    hide Changed, Insert, Ascending;
  }

  lemma MutationPends(s: Store, digest: Bytes -> nat, c: Call)
    requires c.target in s.files && Ascending(s.journal) && FreshId(s, c.id)
    ensures
      var (after, refusal) := Mutate(s, digest, c.m, c.target, c.id, c.overCap);
      && (forall t :: Pending(s, t) ==> Pending(after, t))
      && (refusal.None? ==> Pending(after, c.target))
  {
    MutatedJournal(s, digest, c);
    hide Mutate, Ascending;
    var (after, refusal) := Mutate(s, digest, c.m, c.target, c.id, c.overCap);
    forall t | Pending(s, t) ensures Pending(after, t) {
      var k :| 0 <= k < |s.journal| && !s.journal[k].restored && s.journal[k].target == t;
      assert s.journal[k] in after.journal;
    }
  }

  lemma MutateStaysRecoverable(origin: Store, s: Store, digest: Bytes -> nat, c: Call)
    requires c.target in s.files && Ascending(s.journal) && FreshId(s, c.id)
    requires Recoverable(origin, s) && !Pending(s, c.target)
    ensures Recoverable(origin, Mutate(s, digest, c.m, c.target, c.id, c.overCap).0)
  {
    hide BackedUp, Untouched, Mutate, Pending, Ascending, FreshId;
    MutateKeepsBackups(origin.files, s, digest, c);
    MutateLeavesRest(origin.files, s, digest, c);
  }

  /** The new backup is the original of an artifact that had no pending record. */
  lemma MutateKeepsBackups(origin: map<string, Bytes>, s: Store, digest: Bytes -> nat, c: Call)
    requires c.target in s.files && Ascending(s.journal) && FreshId(s, c.id)
    requires BackedUp(origin, s) && Untouched(origin, s) && !Pending(s, c.target)
    ensures BackedUp(origin, Mutate(s, digest, c.m, c.target, c.id, c.overCap).0)
  {
    MutatedJournal(s, digest, c);
    hide Changed, Insert, Ascending, Pending;
    var (after, refusal) := Mutate(s, digest, c.m, c.target, c.id, c.overCap);
    forall k | 0 <= k < |after.journal| && !after.journal[k].restored
      ensures HoldsOriginal(origin, after, after.journal[k])
    {
      if after.journal[k] in s.journal {
        var j :| 0 <= j < |s.journal| && s.journal[j] == after.journal[k];
        assert HoldsOriginal(origin, s, s.journal[j]);
      }
    }
  }

  lemma {:induction false} RunKeeps(s: Store, digest: Bytes -> nat, calls: seq<Call>)
    requires Permitted(s, digest, calls) && OncePending(s, digest, calls)
    requires Sound(s, digest) && forall k :: 0 <= k < |s.journal| ==> s.journal[k].restored
    ensures Sound(Run(s, digest, calls), digest) && Recoverable(s, Run(s, digest, calls))
  {
    if |calls| == 0 {
    } else {
      RunKeeps(s, digest, calls[..|calls| - 1]);
      MutateKeeps(s, Run(s, digest, calls[..|calls| - 1]), digest, calls[|calls| - 1]);
    }
  }

  lemma RecoverableRestores(origin: Store, s: Store, digest: Bytes -> nat)
    requires Sound(s, digest) && Recoverable(origin, s)
    ensures Restore(s, digest).store.files == origin.files
  {
    RestoreResult(s, digest);
    var files := Restore(s, digest).store.files;
    forall t ensures (t in files <==> t in origin.files) && (t in files ==> files[t] == origin.files[t]) {
      assert HoldsTop(files, s, |s.journal|, t);
      TopMeaning(s.journal, |s.journal|, t);
    }
  }

  /** The round trip: after any mutations, refused ones included, of which none hits an artifact that is already
      mutated, one restore brings every artifact back and a second one changes nothing. */
  lemma MutationRoundTrip(s: Store, digest: Bytes -> nat, calls: seq<Call>)
    requires Permitted(s, digest, calls) && OncePending(s, digest, calls)
    requires Sound(s, digest) && forall k :: 0 <= k < |s.journal| ==> s.journal[k].restored
    ensures
      var p := Restore(Run(s, digest, calls), digest);
      && p.failure.None? && p.store.files == s.files
      && Restore(p.store, digest) == Progress(p.store, [], None)
  {
    RunKeeps(s, digest, calls);
    RestoreResult(Run(s, digest, calls), digest);
    RecoverableRestores(s, Run(s, digest, calls), digest);
    RestoreTwice(Run(s, digest, calls), digest);
  }

  /** The backup that restoring leaves at a target, that of its highest-id pending record, is the original. */
  ghost predicate TopIsOriginal(origin: map<string, Bytes>, s: Store, t: string) {
    match Top(s.journal, |s.journal|, t)
    case Some(k) =>
      && k < |s.journal| && s.journal[k].id in s.backups
      && t in origin && s.backups[s.journal[k].id] == origin[t]
    case None => true
  }

  lemma MutateLeavesRest(origin: map<string, Bytes>, s: Store, digest: Bytes -> nat, c: Call)
    requires c.target in s.files && Ascending(s.journal) && FreshId(s, c.id) && Untouched(origin, s)
    ensures Untouched(origin, Mutate(s, digest, c.m, c.target, c.id, c.overCap).0)
  {
    MutationPends(s, digest, c);
    hide Changed, Insert, Ascending, Pending;
  }

  lemma {:induction false} RunLeavesRest(s: Store, digest: Bytes -> nat, calls: seq<Call>)
    requires Permitted(s, digest, calls)
    requires Sound(s, digest) && forall k :: 0 <= k < |s.journal| ==> s.journal[k].restored
    ensures Sound(Run(s, digest, calls), digest) && Untouched(s.files, Run(s, digest, calls))
  {
    if |calls| == 0 {
    } else {
      hide Sound, Untouched;
      RunLeavesRest(s, digest, calls[..|calls| - 1]);
      MutateKeeps(s, Run(s, digest, calls[..|calls| - 1]), digest, calls[|calls| - 1]);
      MutateLeavesRest(s.files, Run(s, digest, calls[..|calls| - 1]), digest, calls[|calls| - 1]);
    }
  }

  lemma RestoreIsExact(origin: map<string, Bytes>, s: Store, digest: Bytes -> nat)
    requires Sound(s, digest) && Untouched(origin, s)
    ensures Restore(s, digest).store.files == origin <==> forall t :: TopIsOriginal(origin, s, t)
  {
    RestoreResult(s, digest);
    hide Restore, Sound, Top;
    var files := Restore(s, digest).store.files;
    forall t
      ensures TopIsOriginal(origin, s, t) <==> (t in files <==> t in origin) && (t in files ==> files[t] == origin[t])
    {
      assert HoldsTop(files, s, |s.journal|, t);
      TopMeaning(s.journal, |s.journal|, t);
    }
  }

  /** After any mutations at all, refused and repeated ones included, one restore succeeds, and it brings every artifact
      back exactly when each target's highest-id pending backup is its original. */
  lemma AnyMutations(s: Store, digest: Bytes -> nat, calls: seq<Call>)
    requires Permitted(s, digest, calls)
    requires Sound(s, digest) && forall k :: 0 <= k < |s.journal| ==> s.journal[k].restored
    ensures
      var mutated := Run(s, digest, calls);
      && Restore(mutated, digest).failure.None?
      && (Restore(mutated, digest).store.files == s.files <==> forall t :: TopIsOriginal(s.files, mutated, t))
  {
    RunLeavesRest(s, digest, calls);
    RestoreResult(Run(s, digest, calls), digest);
    RestoreIsExact(s.files, Run(s, digest, calls), digest);
  }

  /** Both mutations of one artifact succeed, the second on what the first left. */
  ghost predicate MutatedTwice(s: Store, digest: Bytes -> nat, first: Call, second: Call) {
    && first.target == second.target && first.target in s.files
    && Ascending(s.journal) && FreshId(s, first.id)
    && var (mid, refusal) := Mutate(s, digest, first.m, first.target, first.id, first.overCap);
       && refusal.None? && second.target in mid.files && FreshId(mid, second.id) && Ascending(mid.journal)
       && Mutate(mid, digest, second.m, second.target, second.id, second.overCap).1.None?
  }

  lemma TopOfTwo(journal: seq<Record>, a: Record, b: Record, target: string)
    requires Ascending(journal) && a in journal && b in journal && a.id < b.id
    requires !a.restored && !b.restored && a.target == b.target == target
    requires forall x :: x in journal && x != a && x != b ==> x.restored
    ensures Top(journal, |journal|, target).Some?
    ensures
      var k := Top(journal, |journal|, target).value;
      k < |journal| && journal[k] == b
    ensures forall t :: t != target ==> Top(journal, |journal|, t).None?
  {
    TopMeaning(journal, |journal|, target);
    var j :| 0 <= j < |journal| && journal[j] == b;
    var k := Top(journal, |journal|, target).value;
    assert journal[k] in journal;
    forall t | t != target ensures Top(journal, |journal|, t).None? {
      TopMeaning(journal, |journal|, t);
      forall i | 0 <= i < |journal| ensures journal[i].restored || journal[i].target != t {
        assert journal[i] in journal;
      }
    }
  }

  function MutatedBy(s: Store, digest: Bytes -> nat, c: Call): Store
    requires c.target in s.files && Ascending(s.journal) && FreshId(s, c.id)
  {
    Mutate(s, digest, c.m, c.target, c.id, c.overCap).0
  }

  /** After two mutations of one artifact: its two records, their backups, and everything else as it was. */
  /** Two records more, after restored ones. */
  lemma TwoMore(before: seq<Record>, mid: seq<Record>, after: seq<Record>, a: Record, b: Record)
    requires forall k :: 0 <= k < |before| ==> before[k].restored
    requires forall k :: 0 <= k < |mid| ==> mid[k] in before || mid[k] == a
    requires forall k :: 0 <= k < |after| ==> after[k] in mid || after[k] == b
    ensures forall x :: x in after && x != a && x != b ==> x.restored
  {
  }

  lemma TwiceFacts(s: Store, digest: Bytes -> nat, first: Call, second: Call)
    requires MutatedTwice(s, digest, first, second)
    requires Sound(s, digest) && forall k :: 0 <= k < |s.journal| ==> s.journal[k].restored
    ensures
      var target, mid := first.target, MutatedBy(s, digest, first);
      var after := MutatedBy(mid, digest, second);
      var a, b := Record(first.id, target, digest(s.files[target]), false),
                  Record(second.id, target, digest(mid.files[target]), false);
      && Sound(after, digest) && first.id != second.id
      && a in after.journal && b in after.journal
      && (forall x :: x in after.journal && x != a && x != b ==> x.restored)
      && first.id in after.backups && after.backups[first.id] == s.files[target]
      && second.id in after.backups && after.backups[second.id] == mid.files[target] != s.files[target]
      && after.files - {target} == s.files - {target}
  {
    hide Changed, Sound;
    var target, mid := first.target, MutatedBy(s, digest, first);
    var after := MutatedBy(mid, digest, second);
    MutateKeeps(s, s, digest, first);
    MutateKeeps(s, mid, digest, second);
    MutatedJournal(s, digest, first);
    MutatedJournal(mid, digest, second);
    MutationChanges(s, digest, first.m, target, first.id, first.overCap);
    MutationChanges(mid, digest, second.m, target, second.id, second.overCap);
    var a, b := Record(first.id, target, digest(s.files[target]), false),
                Record(second.id, target, digest(mid.files[target]), false);
    hide Insert, Ascending;
    TwoMore(s.journal, mid.journal, after.journal, a, b);
  }

  lemma TopRestored(s: Store, digest: Bytes -> nat, origin: map<string, Bytes>, target: string, top: Record)
    requires Sound(s, digest) && top.id in s.backups && target in origin
    requires Top(s.journal, |s.journal|, target).Some?
    requires
      var k := Top(s.journal, |s.journal|, target).value;
      k < |s.journal| && s.journal[k] == top
    requires forall t :: t != target ==> Top(s.journal, |s.journal|, t).None?
    requires s.files - {target} == origin - {target}
    ensures Restore(s, digest).store.files == origin <==> s.backups[top.id] == origin[target]
  {
    RestoreResult(s, digest);
    hide Restore, Sound, Top;
    var files := Restore(s, digest).store.files;
    assert HoldsTop(files, s, |s.journal|, target);
    forall t | t != target ensures (t in files <==> t in origin) && (t in files ==> files[t] == origin[t]) {
      assert HoldsTop(files, s, |s.journal|, t);
      assert t in s.files <==> t in s.files - {target};
      assert t in origin <==> t in origin - {target};
      assert t in s.files ==> (s.files - {target})[t] == s.files[t];
      assert t in origin ==> (origin - {target})[t] == origin[t];
    }
  }

  /** Restoring replays by id, not by time: after two mutations of one artifact the original comes back exactly when
      the later mutation drew the smaller id. */
  lemma SameTargetTwice(s: Store, digest: Bytes -> nat, first: Call, second: Call)
    requires MutatedTwice(s, digest, first, second)
    requires Sound(s, digest) && forall k :: 0 <= k < |s.journal| ==> s.journal[k].restored
    ensures Restore(MutatedBy(MutatedBy(s, digest, first), digest, second), digest).store.files == s.files
            <==> second.id < first.id
  {
    TwiceFacts(s, digest, first, second);
    var target, mid := first.target, MutatedBy(s, digest, first);
    var after := MutatedBy(mid, digest, second);
    hide MutatedBy, Restore, Top;
    var a, b := Record(first.id, target, digest(s.files[target]), false),
                Record(second.id, target, digest(mid.files[target]), false);
    if first.id < second.id {
      TopOfTwo(after.journal, a, b, target);
      TopRestored(after, digest, s.files, target, b);
    } else {
      TopOfTwo(after.journal, b, a, target);
      TopRestored(after, digest, s.files, target, a);
    }
  }
}
