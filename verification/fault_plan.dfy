/** The counted fault plan (scripts/resilience/runtime.py): every access to a campaign path consults the control
    file, a new generation there reloads the counters, and the counters decide which accesses are hit. */
module FaultPlan {
  import opened Options

  // ---------------------------------------------------------------- control files

  /** A decoded JSON value. A missing key reads as the default its reader gives. */
  datatype Value = Null | Bool(b: bool) | Int(n: int) | Float(x: real) | Other

  datatype Mode = Off | Enospc | Eio | Delay | PublicationEio | UnknownMode

  datatype Operation = ReadOnly | WriteOnly | AnyOperation

  datatype ControlFile =
    ControlFile(generation: Value, after: Value, remaining: Value, delayMs: Value, mode: Mode, operation: Operation)

  /** What an unreadable control file stands for: mode off and nothing else. */
  const UNREADABLE := ControlFile(Null, Int(0), Int(0), Int(0), Off, AnyOperation)

  /** Python's `isinstance(value, int)`, which includes booleans, with the value. */
  function AsInt(v: Value): Option<int> {
    match v
    case Int(n) => Some(n)
    case Bool(b) => Some(if b then 1 else 0)
    case _ => None
  }

  function AsNumber(v: Value): Option<real> {
    match v
    case Float(x) => Some(x)
    case _ => if AsInt(v).Some? then Some(AsInt(v).value as real) else None
  }

  /** Python's `==` against a stored generation, which is an integer, a boolean or nothing. */
  predicate SameGeneration(v: Value, stored: Value) {
    if AsNumber(v).Some? && AsNumber(stored).Some? then AsNumber(v).value == AsNumber(stored).value
    else v.Null? && stored.Null?
  }

  /** One access: what its path is, whether it writes, and what the control file holds at that moment. */
  datatype Access =
    Access(within: bool, controlPath: bool, inManifests: bool, inChunks: bool, write: bool, file: Option<ControlFile>)

  function ControlOf(a: Access): ControlFile { if a.file.Some? then a.file.value else UNREADABLE }

  predicate Matches(a: Access, c: ControlFile) {
    && a.within && !a.controlPath
    && !(c.operation.WriteOnly? && !a.write)
    && !(c.operation.ReadOnly? && a.write)
    && !(c.mode.PublicationEio? && !a.inManifests)
    && !((c.mode.Eio? || c.mode.Delay?) && !a.write && !a.inChunks)
  }

  /** An operation filter asks for one kind of access, or for both. */
  predicate Asked(operation: Operation, write: bool) {
    match operation
    case ReadOnly => !write
    case WriteOnly => write
    case AnyOperation => true
  }

  /** A publication fault waits for a manifest; a read error and a delay spare the scheduler's reads outside the chunks;
      other modes take any access. */
  predicate Eligible(mode: Mode, a: Access) {
    match mode
    case PublicationEio => a.inManifests
    case Eio => a.write || a.inChunks
    case Delay => a.write || a.inChunks
    case _ => true
  }

  /** An access matches exactly when it is to a campaign artifact, of the kind asked for, and eligible for the mode. */
  lemma MatchesMeaning(a: Access, c: ControlFile)
    ensures Matches(a, c) <==> a.within && !a.controlPath && Asked(c.operation, a.write) && Eligible(c.mode, a)
  {
  }

  /** The access reaches the counters. */
  predicate Reaches(a: Access) { Matches(a, ControlOf(a)) }

  // ---------------------------------------------------------------- one access

  datatype Plan = Plan(generation: Value, after: Value, remaining: Value)

  datatype Effect = NoEffect | Sleep(ms: int) | RaiseEio | RaiseEnospc

  datatype Outcome = Untouched | Hit(effect: Effect)

  const INITIAL := Plan(Null, Int(0), Int(0))

  function Kept(generation: Value): Value { if AsInt(generation).Some? then generation else Null }

  function Reloaded(plan: Plan, c: ControlFile): Plan {
    if SameGeneration(c.generation, plan.generation) then plan else Plan(Kept(c.generation), c.after, c.remaining)
  }

  function EffectOf(c: ControlFile): Effect {
    match c.mode
    case Delay =>
      if AsInt(c.delayMs).Some? && 0 < AsInt(c.delayMs).value <= 60_000 then Sleep(AsInt(c.delayMs).value) else NoEffect
    case Eio => RaiseEio
    case PublicationEio => RaiseEio
    case Enospc => RaiseEnospc
    case _ => NoEffect
  }

  /** Which error a hit raises, and which delay it makes: none but a whole number of milliseconds up to a minute. */
  lemma EffectMeaning(c: ControlFile)
    ensures EffectOf(c) == RaiseEio <==> c.mode == Eio || c.mode == PublicationEio
    ensures EffectOf(c) == RaiseEnospc <==> c.mode == Enospc
    ensures forall ms :: EffectOf(c) == Sleep(ms) <==>
                           c.mode == Delay && 0 < ms <= 60_000
                           && (c.delayMs == Int(ms) || (c.delayMs == Bool(true) && ms == 1))
  {
  }

  /** The counters after one access, and what the access meets. */
  function Next(plan: Plan, a: Access): (Plan, Outcome) {
    if !Reaches(a) then (plan, Untouched)
    else
      var p := Reloaded(plan, ControlOf(a));
      var after, remaining := AsInt(p.after), AsInt(p.remaining);
      if after.None? || remaining.None? || remaining.value <= 0 then (p, Untouched)
      else if after.value > 0 then (p.(after := Int(after.value - 1)), Untouched)
      else (p.(remaining := Int(remaining.value - 1)), Hit(EffectOf(ControlOf(a))))
  }

  /** A boolean counter does what the integer one or zero does. */
  function Number(b: bool): Value { if b then Int(1) else Int(0) }

  lemma BooleansCount(generation: Value, after: bool, remaining: bool, a: Access)
    ensures
      var p, q := Plan(generation, Bool(after), Bool(remaining)), Plan(generation, Number(after), Number(remaining));
      && Next(p, a).1 == Next(q, a).1
      && SameCounter(Next(p, a).0.after, Next(q, a).0.after)
          && SameCounter(Next(p, a).0.remaining, Next(q, a).0.remaining)
  {
  }

  predicate SameCounter(v: Value, w: Value) { v == w || exists b :: v == Bool(b) && w == Number(b) }

  function Run(xs: seq<Access>): Plan {
    if |xs| == 0 then INITIAL else Next(Run(xs[..|xs| - 1]), xs[|xs| - 1]).0
  }

  /** Access `k` of a stream is hit. */
  predicate IsHit(xs: seq<Access>, k: nat)
    requires k < |xs|
  {
    Next(Run(xs[..k]), xs[k]).1.Hit?
  }

  function Hits(xs: seq<Access>): nat {
    if |xs| == 0 then 0 else Hits(xs[..|xs| - 1]) + if IsHit(xs, |xs| - 1) then 1 else 0
  }

  /** The plan's globals, and the method that the audit hook and the write guard call. */
  class FaultState {
    var generation: Value
    var after: Value
    var remaining: Value
    var busy: bool

    constructor ()
      ensures State() == INITIAL && !busy
    {
      generation, after, remaining, busy := Null, Int(0), Int(0), false;
    }

    ghost function State(): Plan
      reads this
    {
      Plan(generation, after, remaining)
    }

    /** While the flag is up the thread's own accesses, to the control file for one, are let through. */
    method Fault(a: Access) returns (outcome: Outcome)
      modifies this
      ensures old(busy) ==> outcome == Untouched && State() == old(State())
      ensures !old(busy) ==> outcome == Next(old(State()), a).1 && State() == Next(old(State()), a).0
      ensures busy == old(busy)
    {
      if busy {
        return Untouched;
      }
      if !a.within || a.controlPath {
        return Untouched;
      }
      busy := true;
      var control := ControlOf(a);
      outcome := Count(a, control);
      busy := false;
    }

    method Count(a: Access, control: ControlFile) returns (outcome: Outcome)
      requires a.within && !a.controlPath && control == ControlOf(a)
      modifies this`generation, this`after, this`remaining
      ensures outcome == Next(old(State()), a).1 && State() == Next(old(State()), a).0
    {
      if !Matches(a, control) {
        return Untouched;
      }
      if !SameGeneration(control.generation, generation) {
        generation := if AsInt(control.generation).Some? then control.generation else Null;
        after := control.after;
        remaining := control.remaining;
      }
      if AsInt(after).None? || AsInt(remaining).None? || AsInt(remaining).value <= 0 {
        return Untouched;
      }
      if AsInt(after).value > 0 {
        after := Int(AsInt(after).value - 1);
        return Untouched;
      }
      remaining := Int(AsInt(remaining).value - 1);
      match control.mode
      case Delay =>
        if AsInt(control.delayMs).Some? && 0 < AsInt(control.delayMs).value <= 60_000 {
          return Hit(Sleep(AsInt(control.delayMs).value));
        }
        return Hit(NoEffect);
      case Eio => return Hit(RaiseEio);
      case PublicationEio => return Hit(RaiseEio);
      case Enospc => return Hit(RaiseEnospc);
      case _ => return Hit(NoEffect);
    }
  }

  // ---------------------------------------------------------------- generations

  /** A stretch of accesses between two reloads: the counters it was loaded with, and how many of its accesses
      reached them. */
  datatype Segment = Segment(generation: Value, after: Value, remaining: Value, seen: nat)

  /** The segment that an access which reaches the counters belongs to. */
  function Joined(g: Segment, c: ControlFile): Segment {
    if SameGeneration(c.generation, g.generation) then g.(seen := g.seen + 1)
    else Segment(Kept(c.generation), c.after, c.remaining, 1)
  }

  /** The segments after one more access that reaches the counters. */
  function Extended(before: seq<Segment>, c: ControlFile): (r: seq<Segment>)
    requires |before| > 0
    ensures |r| > 0 && r[|r| - 1] == Joined(before[|before| - 1], c)
  {
    var last := before[|before| - 1];
    (if SameGeneration(c.generation, last.generation) then before[..|before| - 1] else before) + [Joined(last, c)]
  }

  /** The segments of a stream; the first is the process's state before any reload. */
  function Segments(xs: seq<Access>): (r: seq<Segment>)
    ensures |r| > 0
  {
    if |xs| == 0 then [Segment(Null, Int(0), Int(0), 0)]
    else
      var before, a := Segments(xs[..|xs| - 1]), xs[|xs| - 1];
      if Reaches(a) then Extended(before, ControlOf(a)) else before
  }

  function Current(xs: seq<Access>): Segment {
    Segments(xs)[|Segments(xs)| - 1]
  }

  function Positive(n: int): nat { if n > 0 then n else 0 }

  function Least(a: nat, b: nat): nat { if a < b then a else b }

  predicate Counts(g: Segment) { AsInt(g.after).Some? && AsInt(g.remaining).Some? }

  /** How many accesses of a segment are to be hit. */
  function Due(g: Segment): nat {
    if Counts(g) then Least(Positive(AsInt(g.remaining).value), Positive(g.seen - Positive(AsInt(g.after).value)))
    else 0
  }

  /** This access of the segment, the latest one, is due. */
  predicate LatestIsDue(g: Segment) {
    && Counts(g)
    && Positive(AsInt(g.after).value) < g.seen <= Positive(AsInt(g.after).value) + Positive(AsInt(g.remaining).value)
  }

  /** The counters hold what the segment's start and length say. */
  ghost predicate Agrees(p: Plan, g: Segment) {
    && p.generation == g.generation
    && (!Counts(g) ==> p.after == g.after && p.remaining == g.remaining)
    && (Counts(g) ==>
          && AsInt(p.after).Some? && AsInt(p.remaining).Some?
          && Positive(AsInt(p.remaining).value) == Positive(AsInt(g.remaining).value) - Due(g)
          && (AsInt(g.remaining).value > 0 ==>
                Positive(AsInt(p.after).value) == Positive(Positive(AsInt(g.after).value) - g.seen)))
  }

  lemma StepAgrees(p: Plan, g: Segment, a: Access)
    requires Agrees(p, g) && Reaches(a)
    ensures Agrees(Next(p, a).0, Joined(g, ControlOf(a)))
  {
    hide Matches, EffectOf;
  }

  lemma {:induction false} CountersAgree(xs: seq<Access>)
    ensures Agrees(Run(xs), Current(xs))
  {
    if |xs| == 0 {
    } else {
      hide Agrees, SameGeneration, EffectOf;
      CountersAgree(xs[..|xs| - 1]);
      if Reaches(xs[|xs| - 1]) {
        StepAgrees(Run(xs[..|xs| - 1]), Current(xs[..|xs| - 1]), xs[|xs| - 1]);
      }
    }
  }

  /** The plan is exact: within a segment, the reaching accesses numbered `after` to `after + remaining - 1` from
      zero are hit, and no others are. */
  lemma FaultPlanIsExact(xs: seq<Access>, k: nat)
    requires k < |xs|
    ensures IsHit(xs, k) <==> Reaches(xs[k]) && LatestIsDue(Current(xs[..k + 1]))
  {
    CountersAgree(xs[..k]);
    assert xs[..k + 1][..k] == xs[..k];
  }

  function TotalDue(gs: seq<Segment>): nat {
    if |gs| == 0 then 0 else TotalDue(gs[..|gs| - 1]) + Due(gs[|gs| - 1])
  }

  lemma TotalDueSnoc(gs: seq<Segment>, g: Segment)
    ensures TotalDue(gs + [g]) == TotalDue(gs) + Due(g)
  {
    assert (gs + [g])[..|gs|] == gs;
  }

  lemma DueStep(g: Segment)
    requires g.seen > 0
    ensures Due(g) == Due(g.(seen := g.seen - 1)) + if LatestIsDue(g) then 1 else 0
    ensures Due(g.(seen := 0)) == 0
  {
  }

  lemma DueExtended(before: seq<Segment>, c: ControlFile)
    requires |before| > 0
    ensures
      var after := Extended(before, c);
      TotalDue(after) == TotalDue(before) + if LatestIsDue(after[|after| - 1]) then 1 else 0
  {
    hide TotalDue, Due, LatestIsDue, SameGeneration, Kept;
    var head, last := before[..|before| - 1], before[|before| - 1];
    var g := Joined(last, c);
    assert before == head + [last];
    TotalDueSnoc(head, last);
    TotalDueSnoc(head, g);
    TotalDueSnoc(before, g);
    DueStep(g);
    if SameGeneration(c.generation, last.generation) {
      assert g.(seen := g.seen - 1) == last;
    } else {
      assert g.(seen := g.seen - 1) == g.(seen := 0);
    }
  }

  /** One more access adds one to the total exactly when it is due in its segment. */
  lemma DueGrows(xs: seq<Access>)
    requires |xs| > 0
    ensures TotalDue(Segments(xs)) == TotalDue(Segments(xs[..|xs| - 1]))
                                      + if Reaches(xs[|xs| - 1]) && LatestIsDue(Current(xs)) then 1 else 0
  {
    hide TotalDue, LatestIsDue, Matches, Extended;
    if Reaches(xs[|xs| - 1]) {
      DueExtended(Segments(xs[..|xs| - 1]), ControlOf(xs[|xs| - 1]));
    }
  }

  /** Over a whole run the hits are the sum over the segments of `min(remaining, max(0, n - after))`. */
  lemma {:induction false} HitsAreDue(xs: seq<Access>)
    ensures Hits(xs) == TotalDue(Segments(xs))
  {
    if |xs| == 0 {
      TotalDueSnoc([], Segment(Null, Int(0), Int(0), 0));
    } else {
      HitsAreDue(xs[..|xs| - 1]);
      FaultPlanIsExact(xs, |xs| - 1);
      assert xs[..|xs|] == xs;
      DueGrows(xs);
    }
  }

  // ---------------------------------------------------------------- plans that were set

  datatype SetRequest = SetRequest(mode: Mode, operation: Option<Operation>, remaining: Value, after: Value,
                                   delayMs: Value)

  predicate Natural(v: Value) { v.Int? && v.n >= 0 }

  /** `set_control`: refused unless all counts are non-negative integers, booleans excluded. */
  function SetControl(r: SetRequest, now: int): (c: Option<ControlFile>)
    ensures c.Some? <==> !r.mode.UnknownMode? && r.operation.Some? && Natural(r.remaining) && Natural(r.after)
                         && Natural(r.delayMs) && r.delayMs.n <= 60_000
  {
    if r.mode.UnknownMode? || r.operation.None? then None
    else if !Natural(r.remaining) || !Natural(r.after) || !Natural(r.delayMs) then None
    else if r.delayMs.n > 60_000 then None
    else Some(ControlFile(Int(now), r.after, r.remaining, r.delayMs, r.mode, r.operation.value))
  }

  function Reaching(xs: seq<Access>): nat {
    if |xs| == 0 then 0 else Reaching(xs[..|xs| - 1]) + if Reaches(xs[|xs| - 1]) then 1 else 0
  }

  /** Every access sees one and the same control file. */
  ghost predicate Under(xs: seq<Access>, c: ControlFile) {
    forall k :: 0 <= k < |xs| ==> xs[k].file == Some(c)
  }

  lemma {:induction false} OneSegment(before: seq<Access>, xs: seq<Access>, c: ControlFile)
    requires Under(xs, c) && c.generation.Int? && !SameGeneration(c.generation, Current(before).generation)
    ensures Segments(before + xs)
            == if Reaching(xs) == 0 then Segments(before)
               else Segments(before) + [Segment(c.generation, c.after, c.remaining, Reaching(xs))]
  {
    if |xs| == 0 {
      assert before + xs == before;
    } else {
      var init := xs[..|xs| - 1];
      OneSegment(before, init, c);
      assert (before + xs)[..|before + xs| - 1] == before + init;
      assert xs[|xs| - 1].file == Some(c);
    }
  }

  /** A plan set at a new generation time hits exactly `min(remaining, max(0, n - after))` of the `n` accesses that
      reach it before the control file changes again, whatever went before. */
  lemma {:induction false} PlanHits(before: seq<Access>, xs: seq<Access>, r: SetRequest, now: int)
    requires SetControl(r, now).Some? && Under(xs, SetControl(r, now).value)
    requires !SameGeneration(Int(now), Current(before).generation)
    ensures Hits(before + xs) - Hits(before) == Least(r.remaining.n, Positive(Reaching(xs) - r.after.n))
  {
    var c := SetControl(r, now).value;
    OneSegment(before, xs, c);
    HitsAreDue(before);
    HitsAreDue(before + xs);
    var segment := Segment(c.generation, c.after, c.remaining, Reaching(xs));
    assert (Segments(before) + [segment])[..|Segments(before)|] == Segments(before);
  }

  /** One unreadable moment forgets the plan: the same control file is loaded afresh afterwards. */
  lemma {:induction false} UnreadableControlStartsOver(before: seq<Access>, gap: Access, xs: seq<Access>, r: SetRequest,
                                                       now: int)
    requires SetControl(r, now).Some? && Under(xs, SetControl(r, now).value)
    requires gap.file == None && gap.within && !gap.controlPath && !Current(before).generation.Null?
    ensures Hits(before + [gap] + xs) - Hits(before) == Least(r.remaining.n, Positive(Reaching(xs) - r.after.n))
  {
    var head := before + [gap];
    assert head[..|head| - 1] == before;
    CountersAgree(before);
    assert !IsHit(head, |head| - 1);
    assert Hits(head) == Hits(before);
    PlanHits(head, xs, r, now);
  }

  /** So a plan can hit more accesses than it may: with enough accesses before and after one unreadable moment it hits
      twice `remaining`. */
  lemma {:induction false} PlanCanHitTwice(xs: seq<Access>, gap: Access, r: SetRequest, now: int)
    requires SetControl(r, now).Some? && Under(xs, SetControl(r, now).value)
    requires r.remaining.n > 0 && Reaching(xs) >= r.after.n + r.remaining.n
    requires gap.file == None && gap.within && !gap.controlPath
    ensures Hits(xs + [gap] + xs) == 2 * r.remaining.n > r.remaining.n
  {
    var c := SetControl(r, now).value;
    PlanHits([], xs, r, now);
    assert [] + xs == xs;
    OneSegment([], xs, c);
    UnreadableControlStartsOver(xs, gap, xs, r, now);
  }
}
