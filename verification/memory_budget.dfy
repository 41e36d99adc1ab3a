/** The observed memory budget (scripts/resilience/connector_wrapper.py): reservations are admitted against a byte
    limit and the memory still available, and every change is written out as a durable record whose writing may
    fail before or after the record is in place (scripts/resilience/runtime.py, `write_reservation`). */
module MemoryBudgets {
  import opened Options

  // ---------------------------------------------------------------- the ledger

  /** How writing the durable record went: in full, or with an error before or after the file was replaced. */
  datatype Written = Whole | FailsBefore | FailsAfter

  datatype Entry = Entry(peak: nat, released: bool)

  /** `durable` is the number in the record on disk. */
  datatype Ledger = Ledger(reserved: int, durable: int, maximum: int, minAvailable: int, entries: seq<Entry>)

  datatype Admission = NotPositive | Rejected | Admitted | WriteError

  /** The reader's answer: nothing when it raised or did not give an integer. */
  predicate Admissible(l: Ledger, peak: int, available: Option<int>) {
    && available.Some? && available.value >= 0
    && l.reserved + peak <= l.maximum
    && available.value - (l.reserved + peak) >= l.minAvailable
  }

  function Recorded(l: Ledger, value: int, w: Written): Ledger { if w.FailsBefore? then l else l.(durable := value) }

  /** `try_reserve`: on a write error an admission is taken back. */
  function AfterReserve(l: Ledger, peak: int, available: Option<int>, w: Written): (Ledger, Admission) {
    if peak <= 0 then (l, NotPositive)
    else if !Admissible(l, peak, available) then
      (Recorded(l, l.reserved, w), if w.Whole? then Rejected else WriteError)
    else
      var recorded := Recorded(l, l.reserved + peak, w);
      if w.Whole? then
        (recorded.(reserved := l.reserved + peak, entries := l.entries + [Entry(peak, false)]), Admitted)
      else (recorded, WriteError)
  }

  /** `_release` of one of this budget's reservations: write errors are swallowed. */
  function AfterRelease(l: Ledger, id: nat, w: Written): Ledger {
    if id >= |l.entries| || l.entries[id].released then l
    else
      var left := l.reserved - l.entries[id].peak;
      Recorded(l, left, w).(reserved := left, entries := l.entries[id := l.entries[id].(released := true)])
  }

  datatype Operation = Reserve(peak: int, available: Option<int>, w: Written) | Return(id: nat, w: Written)

  function Next(l: Ledger, o: Operation): Ledger {
    match o
    case Reserve(peak, available, w) => AfterReserve(l, peak, available, w).0
    case Return(id, w) => AfterRelease(l, id, w)
  }

  function Run(l: Ledger, ops: seq<Operation>): Ledger {
    if |ops| == 0 then l else Next(Run(l, ops[..|ops| - 1]), ops[|ops| - 1])
  }

  function Opened(maximum: nat, minAvailable: int): Ledger { Ledger(0, 0, maximum, minAvailable, []) }

  // ---------------------------------------------------------------- accounting

  /** Bytes of the reservations not yet released. */
  function Outstanding(entries: seq<Entry>): nat {
    if |entries| == 0 then 0
    else
      var last := entries[|entries| - 1];
      Outstanding(entries[..|entries| - 1]) + if last.released then 0 else last.peak
  }

  lemma {:induction false} OutstandingUpdate(entries: seq<Entry>, id: nat)
    requires id < |entries| && !entries[id].released
    ensures Outstanding(entries[id := entries[id].(released := true)]) == Outstanding(entries) - entries[id].peak
  {
    var k := |entries| - 1;
    var after := entries[id := entries[id].(released := true)];
    if id == k {
      assert after[..k] == entries[..k];
    } else {
      OutstandingUpdate(entries[..k], id);
      assert after[..k] == entries[..k][id := entries[id].(released := true)];
    }
  }

  predicate Balanced(l: Ledger) {
    l.reserved == Outstanding(l.entries) && l.reserved <= l.durable <= l.maximum
  }

  lemma NextBalanced(l: Ledger, o: Operation)
    requires Balanced(l)
    ensures Balanced(Next(l, o)) && Next(l, o).maximum == l.maximum
  {
    match o
    case Reserve(peak, available, w) =>
      assert (l.entries + [Entry(if peak > 0 then peak else 0, false)])[..|l.entries|] == l.entries;
    case Return(id, w) =>
      if id < |l.entries| && !l.entries[id].released {
        OutstandingUpdate(l.entries, id);
      }
  }

  /** In every run, with record writes failing anywhere: the reserved bytes are those of the reservations not yet
      released, between zero and the maximum, and the durable record neither understates them nor exceeds the
      maximum. */
  lemma {:induction false} BudgetSafety(maximum: nat, minAvailable: int, ops: seq<Operation>)
    ensures
      var l := Run(Opened(maximum, minAvailable), ops);
      l.reserved == Outstanding(l.entries) && 0 <= l.reserved <= l.durable <= maximum
    ensures Balanced(Run(Opened(maximum, minAvailable), ops))
    ensures Run(Opened(maximum, minAvailable), ops).maximum == maximum
  {
    if |ops| == 0 {
    } else {
      BudgetSafety(maximum, minAvailable, ops[..|ops| - 1]);
      NextBalanced(Run(Opened(maximum, minAvailable), ops[..|ops| - 1]), ops[|ops| - 1]);
    }
  }

  /** A positive request whose record can be written is admitted exactly when the reader gave a number, the bytes
      reserved with it stay within the maximum, and that many bytes can be taken from the number and leave the
      minimum. */
  lemma AdmissionIsExact(l: Ledger, peak: int, available: Option<int>)
    requires peak > 0
    ensures
      var (after, admission) := AfterReserve(l, peak, available, Whole);
      && (admission.Admitted? <==>
            exists n :: available == Some(n) && n >= 0 && l.reserved + peak <= l.maximum
                        && l.minAvailable + l.reserved + peak <= n)
      && (admission.Admitted? ==>
            after.reserved == l.reserved + peak <= after.maximum && available.value - after.reserved >= l.minAvailable)
      && (!admission.Admitted? ==> admission.Rejected? && after.reserved == l.reserved)
  {
  }

  // ---------------------------------------------------------------- runs compared

  lemma RunSnoc(l: Ledger, ops: seq<Operation>, o: Operation)
    ensures Run(l, ops + [o]) == Next(Run(l, ops), o)
  {
    assert (ops + [o])[..|ops|] == ops;
  }

  lemma {:induction false} RunAppend(l: Ledger, a: seq<Operation>, b: seq<Operation>)
    ensures Run(l, a + b) == Run(Run(l, a), b)
  {
    if |b| == 0 {
      assert a + b == a;
    } else {
      RunAppend(l, a, b[..|b| - 1]);
      assert (a + b)[..|a + b| - 1] == a + b[..|b| - 1];
    }
  }

  /** The operation gets as far as writing the record. */
  predicate Writes(l: Ledger, o: Operation) {
    match o
    case Reserve(peak, _, _) => peak > 0
    case Return(id, _) => id < |l.entries| && !l.entries[id].released
  }

  /** The last record that a run tried to write was written in full. */
  predicate LastWhole(l: Ledger, ops: seq<Operation>) {
    |ops| > 0 ==>
      var o, init := ops[|ops| - 1], ops[..|ops| - 1];
      if Writes(Run(l, init), o) then o.w.Whole? else LastWhole(l, init)
  }

  /** However many writes failed before, the durable record is exact again once one succeeds, until another fails. */
  lemma {:induction false} WholeWriteRepairs(maximum: nat, minAvailable: int, ops: seq<Operation>)
    requires LastWhole(Opened(maximum, minAvailable), ops)
    ensures
      var l := Run(Opened(maximum, minAvailable), ops);
      l.durable == l.reserved
  {
    if |ops| == 0 {
    } else {
      var l, init := Opened(maximum, minAvailable), ops[..|ops| - 1];
      if !Writes(Run(l, init), ops[|ops| - 1]) {
        WholeWriteRepairs(maximum, minAvailable, init);
      }
    }
  }

  lemma {:induction false} StaysReleased(l: Ledger, id: nat, ops: seq<Operation>)
    requires id < |l.entries| && l.entries[id].released
    ensures id < |Run(l, ops).entries| && Run(l, ops).entries[id].released
  {
    if |ops| == 0 {
    } else {
      StaysReleased(l, id, ops[..|ops| - 1]);
    }
  }

  /** In any run, a second release of the same reservation might as well be left out. */
  lemma ReleaseIsIdempotent(l: Ledger, before: seq<Operation>, between: seq<Operation>, after: seq<Operation>, id: nat,
                            v: Written, w: Written)
    requires id < |Run(l, before).entries|
    ensures Run(l, before + [Return(id, v)] + between + [Return(id, w)] + after)
         == Run(l, before + [Return(id, v)] + between + after)
  {
    var first := before + [Return(id, v)];
    RunSnoc(l, before, Return(id, v));
    StaysReleased(Run(l, first), id, between);
    RunAppend(l, first, between);
    RunSnoc(l, first + between, Return(id, w));
    RunAppend(l, first + between + [Return(id, w)], after);
    RunAppend(l, first + between, after);
  }

  /** Two ledgers that differ in the durable record at most. */
  predicate SameButRecord(l: Ledger, k: Ledger) { l == k.(durable := l.durable) }

  lemma {:induction false} RecordDecidesNothing(l: Ledger, k: Ledger, ops: seq<Operation>)
    requires SameButRecord(l, k)
    ensures SameButRecord(Run(l, ops), Run(k, ops))
  {
    if |ops| == 0 {
    } else {
      RecordDecidesNothing(l, k, ops[..|ops| - 1]);
    }
  }

  /** In any run, a request that was refused or not recorded might as well not have been made: every later admission,
      every reservation and the reserved bytes are the same. */
  lemma FailedReserveIsUndone(l: Ledger, before: seq<Operation>, peak: int, available: Option<int>, w: Written,
                              after: seq<Operation>)
    requires !AfterReserve(Run(l, before), peak, available, w).1.Admitted?
    ensures SameButRecord(Run(l, before + [Reserve(peak, available, w)] + after), Run(l, before + after))
  {
    RunSnoc(l, before, Reserve(peak, available, w));
    RunAppend(l, before + [Reserve(peak, available, w)], after);
    RunAppend(l, before, after);
    RecordDecidesNothing(Run(l, before + [Reserve(peak, available, w)]), Run(l, before), after);
  }

  function ReleaseFirst(l: Ledger, n: nat, w: seq<Written>): Ledger
    requires n <= |w|
  {
    if n == 0 then l else AfterRelease(ReleaseFirst(l, n - 1, w), n - 1, w[n - 1])
  }

  lemma {:induction false} AllReleased(entries: seq<Entry>)
    requires forall i :: 0 <= i < |entries| ==> entries[i].released
    ensures Outstanding(entries) == 0
  {
    if |entries| == 0 {
    } else {
      AllReleased(entries[..|entries| - 1]);
    }
  }

  lemma {:induction false} FirstReleased(l: Ledger, n: nat, w: seq<Written>)
    requires n <= |w| && n <= |l.entries| && Balanced(l)
    ensures
      var after := ReleaseFirst(l, n, w);
      && Balanced(after) && |after.entries| == |l.entries|
      && forall i :: 0 <= i < n ==> after.entries[i].released
  {
    if n == 0 {
    } else {
      FirstReleased(l, n - 1, w);
      NextBalanced(ReleaseFirst(l, n - 1, w), Return(n - 1, w[n - 1]));
    }
  }

  /** Nothing leaks: after any run, releasing every reservation frees every byte, whether or not the records could
      be written. */
  lemma NothingLeaks(maximum: nat, minAvailable: int, ops: seq<Operation>, w: seq<Written>)
    requires |w| == |Run(Opened(maximum, minAvailable), ops).entries|
    ensures ReleaseFirst(Run(Opened(maximum, minAvailable), ops), |w|, w).reserved == 0
  {
    var l := Run(Opened(maximum, minAvailable), ops);
    BudgetSafety(maximum, minAvailable, ops);
    FirstReleased(l, |w|, w);
    AllReleased(ReleaseFirst(l, |w|, w).entries);
  }

  // ---------------------------------------------------------------- the objects

  class MemoryReservation {
    const budget: MemoryBudget
    const peakBytes: nat
    var released: bool

    constructor (budget: MemoryBudget, peakBytes: nat)
      ensures this.budget == budget && this.peakBytes == peakBytes && !released
    {
      this.budget, this.peakBytes := budget, peakBytes;
      released := false;
    }
  }

  ghost function EntriesOf(rs: seq<MemoryReservation>): (entries: seq<Entry>)
    reads rs
    ensures |entries| == |rs|
    ensures forall i :: 0 <= i < |rs| ==> entries[i] == Entry(rs[i].peakBytes, rs[i].released)
  {
    seq(|rs|, i requires 0 <= i < |rs| reads rs => Entry(rs[i].peakBytes, rs[i].released))
  }

  datatype Outcome = Done | ForeignBudget

  class MemoryBudget {
    const maxBytes: nat
    const minAvailableBytes: int
    var reservedBytes: int
    var durable: int
    ghost var issued: seq<MemoryReservation>

    /** The record starts at zero; when it cannot be written there is no budget. */
    constructor (maxBytes: nat, minAvailableBytes: int)
      ensures Valid() && issued == [] && State() == Opened(maxBytes, minAvailableBytes)
    {
      this.maxBytes, this.minAvailableBytes := maxBytes, minAvailableBytes;
      reservedBytes, durable, issued := 0, 0, [];
    }

    /** Reservations are distinct objects that point back here. */
    ghost predicate Valid()
      reads this
    {
      && (forall i :: 0 <= i < |issued| ==> issued[i].budget == this)
      && forall i, j :: 0 <= i < j < |issued| ==> issued[i] != issued[j]
    }

    ghost function State(): Ledger
      reads this, issued
    {
      Ledger(reservedBytes, durable, maxBytes, minAvailableBytes, EntriesOf(issued))
    }

    /** The record writer. */
    method WriteReservation(bytes: int, w: Written) returns (raised: bool)
      modifies this`durable
      ensures durable == if w.FailsBefore? then old(durable) else bytes
      ensures raised <==> !w.Whole?
    {
      if w.FailsBefore? {
        return true;
      }
      durable := bytes;
      raised := w.FailsAfter?;
    }

    method TryReserve(peakBytes: int, available: Option<int>, w: Written)
      returns (reservation: Option<MemoryReservation>, admission: Admission)
      requires Valid()
      modifies this
      ensures Valid() && State() == AfterReserve(old(State()), peakBytes, available, w).0
      ensures admission == AfterReserve(old(State()), peakBytes, available, w).1
      ensures reservation.Some? <==> admission.Admitted?
      ensures reservation.Some? ==> fresh(reservation.value) && issued == old(issued) + [reservation.value]
      ensures reservation.None? ==> issued == old(issued)
    {
      if peakBytes <= 0 {
        return None, NotPositive;
      }
      var previousReserved := reservedBytes;
      var newReserved := reservedBytes + peakBytes;
      var admitted := available.Some? && available.value >= 0 && newReserved <= maxBytes
                      && available.value - newReserved >= minAvailableBytes;
      reservation := None;
      if admitted {
        var r := new MemoryReservation(this, peakBytes);
        reservation := Some(r);
        reservedBytes := newReserved;
      }
      var raised := WriteReservation(reservedBytes, w);
      if raised {
        if reservation.Some? {
          reservedBytes := previousReserved;
          reservation.value.released := true;
        }
        return None, WriteError;
      }
      if admitted {
        admission := Admitted;
        issued := issued + [reservation.value];
      } else {
        admission := Rejected;
      }
    }

    /** Any reservation object may be handed in: a released one is ignored, another budget's is refused. */
    method Release(reservation: MemoryReservation, w: Written) returns (outcome: Outcome)
      requires Valid() && (reservation.budget == this ==> reservation in issued)
      modifies this`reservedBytes, this`durable, reservation`released
      ensures Valid() && issued == old(issued)
      ensures outcome.ForeignBudget? <==> !old(reservation.released) && reservation.budget != this
      ensures outcome.ForeignBudget? ==> !reservation.released
      ensures outcome.Done? ==> reservation.released
      ensures reservation.budget != this ==> State() == old(State())
      ensures forall id :: 0 <= id < |issued| && issued[id] == reservation ==>
                State() == AfterRelease(old(State()), id, w)
    {
      if reservation.released {
        return Done;
      }
      if reservation.budget != this {
        return ForeignBudget;
      }
      reservedBytes := reservedBytes - reservation.peakBytes;
      reservation.released := true;
      var raised := WriteReservation(reservedBytes, w);
      outcome := Done;
    }
  }
}
