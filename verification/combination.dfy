/** The compound case that injects a read error while a replay paused in restore is cancelled
    (scripts/resilience/combination_cases.py). Every call into the campaign and every reading of the safety event
    or the clock is an input, so a run is one behaviour of the environment; the verdict is decided over all. */
module Combination {
  import opened Options

  // ---------------------------------------------------------------- the environment

  /** A call returns, raises an ordinary exception (perhaps the phase deadline's), or is interrupted by one that
      ordinary handlers do not catch. */
  datatype Call<T> = Ret(value: T) | Raise(deadline: bool) | Interrupt

  datatype Status = Pass | Pending | Fail

  /** One reading of the safety event and the clock before an event wait. */
  datatype Poll = Poll(safety: bool, timeLeft: bool)

  datatype Event = Event(digest: Option<string>, operationId: Option<string>, mode: Option<string>,
                         operation: Option<string>, timeNs: Option<int>, outcome: Option<string>,
                         committed: bool, instrumentationError: bool)

  datatype Reply = Reply(events: seq<Event>, errors: bool)

  datatype StreamResult = StreamResult(done: bool, finishReason: bool, errorEvent: Option<bool>,
                                       parseErrors: Option<bool>, readComplete: Option<bool>)

  /** What the request object shows once its thread was joined. */
  datatype Observation = Observation(finishedNs: Option<int>, result: Option<StreamResult>, error: bool,
                                     alive: bool, httpStatus: Option<int>)

  datatype Env = Env(
    startSafety: bool, t1: Poll, setCase: Call<()>, prompt: Call<()>, seedCursors: Call<()>, seed: Call<bool>,
    t2: Poll, publications: Call<Reply>,
    t3: Poll, arm: seq<Call<()>>, armSafety: bool,
    t4: Poll, actionCursors: Call<()>, payload: Call<()>, factory: Call<()>, start: Call<()>,
    t5: Poll, waiting: Call<Reply>,
    t6: Poll, requestedNs: int, aliveBefore: bool, cancel: Call<()>,
    t7: Poll, cancelCursors: Call<()>, release: seq<Call<()>>, releaseSafety: bool,
    t8: Poll, hits: Call<Reply>, t9: Poll, ends: Call<Reply>, errorSafety: bool,
    lateRequestedNs: int, lateAliveBefore: bool, lateCancel: Call<()>, reset: Call<bool>, join: Call<()>,
    observed: Observation,
    postSafety: bool, postDeadline: bool, reissue: Call<bool>, health: Call<bool>, idle: Call<Status>,
    midDeadline: bool, midSafety: bool, barriers: Call<()>, drain: Call<Status>, recoverSafety: bool,
    finalSafety: bool, receipt: Call<()>)

  // ---------------------------------------------------------------- proofs from events

  predicate Committed(v: Event) { v.outcome == Some("ok") && v.committed && v.digest.Some? }

  /** The digest that four committed publications share. */
  function PublicationDigest(events: seq<Event>): Option<string> {
    if |events| == 4 && (forall k :: 0 <= k < 4 ==> Committed(events[k]))
       && (forall k :: 0 <= k < 4 ==> events[k].digest == events[0].digest)
    then events[0].digest else None
  }

  predicate WaitingFor(v: Event, digest: Option<string>) {
    v.digest == digest && v.operationId.Some? && v.operationId.value != ""
  }

  predicate WaitingProven(r: Reply, digest: Option<string>) {
    !r.errors && |r.events| == 4 && forall k :: 0 <= k < 4 ==> WaitingFor(r.events[k], digest)
  }

  /** Two stamps, in order. */
  predicate NotAfter(a: Option<int>, b: Option<int>) { a.Some? && b.Some? && a.value <= b.value }

  predicate HitsProven(hits: Reply, waiting: seq<Event>) {
    && !hits.errors && |hits.events| == 4 && |waiting| == 4
    && forall k :: 0 <= k < 4 ==>
         && hits.events[k].mode == Some("eio") && hits.events[k].operation == Some("read")
         && NotAfter(waiting[k].timeNs, hits.events[k].timeNs)
  }

  predicate EndsProven(ends: Reply, hits: seq<Event>, waiting: seq<Event>, digest: Option<string>) {
    && !ends.errors && |hits| == 4 && |ends.events| == 4 && |waiting| == 4
    && forall k :: 0 <= k < 4 ==>
         && ends.events[k].outcome == Some("error") && ends.events[k].digest == digest
         && ends.events[k].operationId == waiting[k].operationId
         && !ends.events[k].instrumentationError
         && NotAfter(hits[k].timeNs, ends.events[k].timeNs)
  }

  datatype Receipt = Receipt(terminated: bool, finishedBeforeCancel: bool, completedStream: bool, interrupted: bool,
                             httpStatus: Option<int>)

  /** The request may have ended by itself. */
  predicate Doubtful(r: Receipt) { r.finishedBeforeCancel || r.completedStream || !r.interrupted }

  predicate WrongStatus(r: Receipt) { r.httpStatus.Some? && r.httpStatus.value != 200 }

  function RequestEvidence(o: Observation, requestedNs: Option<int>, aliveBefore: bool): Receipt {
    var finishedBefore := o.finishedNs.Some? && requestedNs.Some? && o.finishedNs.value <= requestedNs.value;
    var completed := o.result.Some?
      && (o.result.value.done
          || (o.result.value.finishReason && o.result.value.errorEvent == Some(false)
              && o.result.value.parseErrors == Some(false)));
    var brokeOff := o.error || (o.result.Some? && o.result.value.readComplete == Some(false));
    Receipt(!o.alive, finishedBefore, completed,
            aliveBefore && !finishedBefore && !o.alive && !completed && brokeOff, o.httpStatus)
  }

  // ---------------------------------------------------------------- what a pass means

  predicate Open(p: Poll) { !p.safety && p.timeLeft }

  predicate Late(p: Poll) { !p.safety && !p.timeLeft }

  predicate EveryRank(ranks: seq<Call<()>>) { forall k :: 0 <= k < |ranks| ==> ranks[k].Ret? }

  ghost predicate Seeded(e: Env) {
    && e.setCase.Ret? && e.prompt.Ret? && e.seedCursors.Ret? && e.seed == Ret(true)
    && e.publications.Ret? && !e.publications.value.errors && PublicationDigest(e.publications.value.events).Some?
  }

  ghost predicate Cancelled(e: Env, digest: Option<string>) {
    && EveryRank(e.arm)
    && e.actionCursors.Ret? && e.payload.Ret? && e.factory.Ret? && e.start.Ret?
    && e.waiting.Ret? && WaitingProven(e.waiting.value, digest)
    && e.cancel.Ret?
  }

  ghost predicate Released(e: Env, digest: Option<string>)
    requires e.waiting.Ret?
  {
    && e.cancelCursors.Ret? && EveryRank(e.release)
    && e.hits.Ret? && e.ends.Ret?
    && HitsProven(e.hits.value, e.waiting.value.events)
    && EndsProven(e.ends.value, e.hits.value.events, e.waiting.value.events, digest)
  }

  ghost predicate Undisturbed(e: Env) {
    && !e.startSafety && Open(e.t1) && Open(e.t2) && Open(e.t3) && Open(e.t4) && Open(e.t5) && Open(e.t6)
    && Open(e.t7) && Open(e.t8) && Open(e.t9)
  }

  /** The action proved everything it is there to prove. */
  ghost predicate ActionGood(e: Env) {
    && Undisturbed(e) && Seeded(e)
    && Cancelled(e, PublicationDigest(e.publications.value.events))
    && Released(e, PublicationDigest(e.publications.value.events))
  }

  // ---------------------------------------------------------------- the proofs, in the environment's own terms

  /** The client had the request running when it was cancelled, broke it off afterwards, and ended. */
  ghost predicate ClientInterrupted(e: Env) {
    var o := e.observed;
    && e.aliveBefore && !o.alive
    && (o.finishedNs.Some? ==> e.requestedNs < o.finishedNs.value)
    && (o.error || (o.result.Some? && o.result.value.readComplete == Some(false)))
    && (o.result.Some? ==>
          && !o.result.value.done
          && !(o.result.value.finishReason && o.result.value.errorEvent == Some(false)
               && o.result.value.parseErrors == Some(false)))
    && (o.httpStatus.Some? ==> o.httpStatus.value == 200)
  }

  /** A receipt says what the client did: it ended; it finished no later than the cancellation was asked for; its stream
      was complete; and it was running before, broken off, and none of these. */
  lemma ReceiptMeaning(o: Observation, requestedNs: int, aliveBefore: bool)
    ensures
      var r := RequestEvidence(o, Some(requestedNs), aliveBefore);
      var early := exists t :: o.finishedNs == Some(t) && t <= requestedNs;
      var complete := exists v: StreamResult :: o.result == Some(v)
                        && (v.done || (v.finishReason && v.errorEvent == Some(false) && v.parseErrors == Some(false)));
      var broken := o.error || exists v: StreamResult :: o.result == Some(v) && v.readComplete == Some(false);
      && (r.terminated <==> !o.alive) && (r.finishedBeforeCancel <==> early) && (r.completedStream <==> complete)
      && (r.interrupted <==> aliveBefore && !o.alive && !early && !complete && broken)
      && r.httpStatus == o.httpStatus
  {
  }

  /** No finish is early when the cancellation was never asked for. */
  lemma NoRequestNoFinish(o: Observation, aliveBefore: bool)
    ensures !RequestEvidence(o, None, aliveBefore).finishedBeforeCancel
  {
  }

  lemma InterruptedMeaning(e: Env)
    ensures
      var r := RequestEvidence(e.observed, Some(e.requestedNs), e.aliveBefore);
      ClientInterrupted(e) <==>
        && r.terminated && !r.finishedBeforeCancel && !r.completedStream && r.interrupted
        && (r.httpStatus.None? || r.httpStatus == Some(200))
  {
  }

  /** Rank `k`'s part of the evidence: its publication of the digest was committed; it waited in restore for that
      digest; it then hit an injected read error; and that very restore then ended with an error, its instrumentation
      intact. */
  ghost predicate RankProven(e: Env, digest: string, k: nat)
    requires e.publications.Ret? && e.waiting.Ret? && e.hits.Ret? && e.ends.Ret?
    requires k < |e.publications.value.events| && k < |e.waiting.value.events|
    requires k < |e.hits.value.events| && k < |e.ends.value.events|
  {
    var published, waited := e.publications.value.events[k], e.waiting.value.events[k];
    var hit, ended := e.hits.value.events[k], e.ends.value.events[k];
    && published.outcome == Some("ok") && published.committed && published.digest == Some(digest)
    && waited.digest == Some(digest) && ended.digest == Some(digest)
    && waited.operationId.Some? && waited.operationId.value != "" && ended.operationId == waited.operationId
    && hit.mode == Some("eio") && hit.operation == Some("read")
    && ended.outcome == Some("error") && !ended.instrumentationError
    && waited.timeNs.Some? && hit.timeNs.Some? && ended.timeNs.Some?
    && waited.timeNs.value <= hit.timeNs.value <= ended.timeNs.value
  }

  /** All four replies came without errors, and all four ranks proved their part about one digest. */
  ghost predicate FourRanksProven(e: Env) {
    && e.publications.Ret? && e.waiting.Ret? && e.hits.Ret? && e.ends.Ret?
    && !e.publications.value.errors && !e.waiting.value.errors && !e.hits.value.errors && !e.ends.value.errors
    && exists digest :: EveryRankProven(e, digest)
  }

  ghost predicate EveryRankProven(e: Env, digest: string)
    requires e.publications.Ret? && e.waiting.Ret? && e.hits.Ret? && e.ends.Ret?
  {
    && |e.publications.value.events| == |e.waiting.value.events| == |e.hits.value.events| == |e.ends.value.events| == 4
    && forall k :: 0 <= k < 4 ==> RankProven(e, digest, k)
  }

  /** Nothing else was asked of the action than that every call returned and no wait was cut short. */
  ghost predicate CallsReturned(e: Env) {
    && e.setCase.Ret? && e.prompt.Ret? && e.seedCursors.Ret? && e.seed == Ret(true) && EveryRank(e.arm)
    && e.actionCursors.Ret? && e.payload.Ret? && e.factory.Ret? && e.start.Ret? && e.cancel.Ret?
    && e.cancelCursors.Ret? && EveryRank(e.release)
  }

  /** No safety stop was seen, and every wait began in time. */
  ghost predicate NeverCut(e: Env) {
    !e.startSafety && forall k :: 0 <= k < |Polls(e)| ==> !Polls(e)[k].safety && Polls(e)[k].timeLeft
  }

  function Polls(e: Env): seq<Poll> { [e.t1, e.t2, e.t3, e.t4, e.t5, e.t6, e.t7, e.t8, e.t9] }

  /** What a good action is, in the environment's own terms. */
  ghost predicate ActionProven(e: Env) { NeverCut(e) && CallsReturned(e) && FourRanksProven(e) }

  lemma UndisturbedMeaning(e: Env)
    ensures Undisturbed(e) <==> NeverCut(e)
  {
    var ps := Polls(e);
    if NeverCut(e) {
      assert ps[0] == e.t1 && ps[1] == e.t2 && ps[2] == e.t3 && ps[3] == e.t4 && ps[4] == e.t5;
      assert ps[5] == e.t6 && ps[6] == e.t7 && ps[7] == e.t8 && ps[8] == e.t9;
    }
  }

  /** The action is good exactly when it was never cut, its calls returned, and four ranks proved one digest's story. */
  lemma ActionMeaning(e: Env)
    ensures ActionGood(e) <==> ActionProven(e)
  {
    UndisturbedMeaning(e);
    hide Undisturbed, NeverCut;
    if ActionGood(e) {
      var digest := PublicationDigest(e.publications.value.events).value;
      forall k | 0 <= k < 4 ensures RankProven(e, digest, k) {
        assert WaitingFor(e.waiting.value.events[k], Some(digest));
        assert Committed(e.publications.value.events[k]);
      }
      assert EveryRankProven(e, digest);
    }
    if CallsReturned(e) && FourRanksProven(e) {
      ProvenRanks(e);
    }
  }

  lemma ProvenRanks(e: Env)
    requires FourRanksProven(e)
    ensures
      var digest := PublicationDigest(e.publications.value.events);
      && digest.Some? && WaitingProven(e.waiting.value, digest)
      && HitsProven(e.hits.value, e.waiting.value.events)
      && EndsProven(e.ends.value, e.hits.value.events, e.waiting.value.events, digest)
  {
    var digest :| EveryRankProven(e, digest);
    var published, waited := e.publications.value.events, e.waiting.value.events;
    var hits, ends := e.hits.value.events, e.ends.value.events;
    forall k | 0 <= k < 4
      ensures Committed(published[k]) && published[k].digest == Some(digest) && WaitingFor(waited[k], Some(digest))
      ensures hits[k].mode == Some("eio") && hits[k].operation == Some("read")
      ensures NotAfter(waited[k].timeNs, hits[k].timeNs) && NotAfter(hits[k].timeNs, ends[k].timeNs)
      ensures ends[k].outcome == Some("error") && ends[k].digest == Some(digest)
      ensures ends[k].operationId == waited[k].operationId && !ends[k].instrumentationError
    {
      assert RankProven(e, digest, k);
    }
    hide RankProven, Committed, NotAfter, WaitingFor;
    assert PublicationDigest(e.publications.value.events) == Some(digest);
  }

  /** Cleanup, reissue, health, idle and drain were all good. */
  ghost predicate RecoveryGood(e: Env) {
    && !e.lateCancel.Interrupt? && e.reset == Ret(false) && e.join.Ret?
    && !e.postSafety && !e.postDeadline
    && e.reissue == Ret(true) && e.health == Ret(true) && e.idle == Ret(Pass)
    && (e.midDeadline ==> e.midSafety) && e.barriers.Ret? && e.drain == Ret(Pass)
    && !e.finalSafety
  }

  // ---------------------------------------------------------------- the case

  /** How a stretch of the case ends: normally, with a decided outcome, with an ordinary exception, interrupted. */
  datatype Signal = Completed | Decided(status: Status) | Error(deadline: bool) | Interrupted

  datatype Verdict = Returned(status: Status) | Propagated

  /** The signal a call that does not return gives. */
  function Thrown<T>(c: Call<T>): Signal
    requires !c.Ret?
  {
    if c.Interrupt? then Interrupted else Error(c.deadline)
  }

  function TimedOut(p: Poll): Signal
    requires !Open(p)
  {
    Decided(if p.safety then Fail else Pending)
  }

  /** Reasons for which the action may be left undecided. */
  ghost predicate Excused(e: Env) {
    || Late(e.t1) || Late(e.t2) || Late(e.t3) || Late(e.t4) || Late(e.t5) || Late(e.t6) || Late(e.t7) || Late(e.t8)
    || Late(e.t9)
    || (e.publications.Ret? && (e.publications.value.errors || PublicationDigest(e.publications.value.events).None?))
    || (e.waiting.Ret? && e.publications.Ret?
        && !WaitingProven(e.waiting.value, PublicationDigest(e.publications.value.events)))
    || (OnlyDeadlines(e.arm) && !e.armSafety) || (OnlyDeadlines(e.release) && !e.releaseSafety)
    || (e.waiting.Ret? && e.hits.Ret? && e.ends.Ret? && e.publications.Ret?
        && !(HitsProven(e.hits.value, e.waiting.value.events)
             && EndsProven(e.ends.value, e.hits.value.events, e.waiting.value.events,
                           PublicationDigest(e.publications.value.events))))
  }

  /** Reasons for which the action is a failure. */
  ghost predicate Blamed(e: Env) {
    || e.startSafety
    || e.t1.safety || e.t2.safety || e.t3.safety || e.t4.safety || e.t5.safety || e.t6.safety || e.t7.safety
    || e.t8.safety || e.t9.safety
    || e.seed == Ret(false) || e.cancel.Raise?
    || (!EveryRank(e.arm) && (!OnlyDeadlines(e.arm) || e.armSafety))
    || (!EveryRank(e.release) && (!OnlyDeadlines(e.release) || e.releaseSafety))
  }

  /** Some call of the action raised an ordinary exception of this kind. */
  ghost predicate RaisedInAction(e: Env, deadline: bool) {
    || e.setCase == Raise(deadline) || e.prompt == Raise(deadline) || e.seedCursors == Raise(deadline)
    || e.seed == Raise(deadline) || e.publications == Raise(deadline)
    || e.actionCursors == Raise(deadline) || e.payload == Raise(deadline) || e.factory == Raise(deadline)
    || e.start == Raise(deadline) || e.waiting == Raise(deadline)
    || e.cancelCursors == Raise(deadline) || e.hits == Raise(deadline) || e.ends == Raise(deadline)
  }

  /** Some call of the action was interrupted. */
  ghost predicate InterruptInAction(e: Env) {
    || e.setCase.Interrupt? || e.prompt.Interrupt? || e.seedCursors.Interrupt? || e.seed.Interrupt?
    || e.publications.Interrupt? || e.actionCursors.Interrupt? || e.payload.Interrupt? || e.factory.Interrupt?
    || e.start.Interrupt? || e.waiting.Interrupt? || e.cancel.Interrupt? || e.cancelCursors.Interrupt?
    || e.hits.Interrupt? || e.ends.Interrupt?
    || (exists k :: 0 <= k < |e.arm| && e.arm[k].Interrupt?)
        || (exists k :: 0 <= k < |e.release| && e.release[k].Interrupt?)
  }

  /** Some rank failed, and every failure is the phase deadline's. */
  ghost predicate OnlyDeadlines(ranks: seq<Call<()>>) {
    && !EveryRank(ranks)
    && forall k :: 0 <= k < |ranks| ==> ranks[k].Ret? || (ranks[k].Raise? && ranks[k].deadline)
  }

  /** Asks every rank in turn and collects the failures; an interruption is not collected. */
  method SetAll(ranks: seq<Call<()>>, safety: bool) returns (signal: Signal)
    ensures signal.Completed? <==> EveryRank(ranks)
    ensures signal == Decided(Pending) ==> OnlyDeadlines(ranks) && !safety
    ensures signal == Decided(Fail) ==> !EveryRank(ranks) && (!OnlyDeadlines(ranks) || safety)
    ensures signal != Decided(Pass) && !signal.Error?
    ensures signal.Interrupted? <==> exists k :: 0 <= k < |ranks| && ranks[k].Interrupt?
  {
    var failures: seq<bool> := [];
    for k := 0 to |ranks|
      invariant forall j :: 0 <= j < k ==> !ranks[j].Interrupt?
      invariant |failures| == 0 <==> forall j :: 0 <= j < k ==> ranks[j].Ret?
      invariant false in failures <==> exists j :: 0 <= j < k && ranks[j].Raise? && !ranks[j].deadline
    {
      match ranks[k]
      case Ret(_) =>
      case Raise(deadline) =>
        failures := failures + [deadline];
        assert failures[|failures| - 1] == deadline;
      case Interrupt => return Interrupted;
    }
    if |failures| == 0 {
      return Completed;
    }
    var onlyDeadlines := !safety && false !in failures;
    signal := Decided(if onlyDeadlines then Pending else Fail);
  }

  /** The recovery calls all return before the deadline. */
  ghost predicate AllAnswered(e: Env) {
    && e.reissue.Ret? && e.health.Ret? && e.idle.Ret? && (e.midDeadline ==> e.midSafety)
    && e.barriers.Ret? && e.drain.Ret?
  }

  /** The calls of the recovery before a moment all returned: reissue, health, idle; and, if the deadline has not
      passed by then, the barriers. */
  ghost predicate IdleAsked(e: Env) { e.reissue.Ret? && e.health.Ret? && e.idle.Ret? }

  ghost predicate BarriersDue(e: Env) { IdleAsked(e) && (e.midDeadline ==> e.midSafety) }

  /** The first call of the recovery that did not return ended like this. */
  ghost predicate RecoveryStopped(e: Env, how: Signal) {
    || (!e.reissue.Ret? && how == Thrown(e.reissue))
    || (e.reissue.Ret? && !e.health.Ret? && how == Thrown(e.health))
    || (e.reissue.Ret? && e.health.Ret? && !e.idle.Ret? && how == Thrown(e.idle))
    || (BarriersDue(e) && !e.barriers.Ret? && how == Thrown(e.barriers))
    || (BarriersDue(e) && e.barriers.Ret? && !e.drain.Ret? && how == Thrown(e.drain))
  }

  /** What the recovery found is a failure: a bad answer once everything was answered, an ordinary exception, or the
      phase deadline's during a safety stop. */
  ghost predicate RecoveryFailed(e: Env) {
    || (AllAnswered(e) && (!e.reissue.value || !e.health.value || e.idle.value == Fail || e.drain.value == Fail))
    || RecoveryStopped(e, Error(false)) || (RecoveryStopped(e, Error(true)) && e.recoverSafety)
  }

  /** The cleanup or the client's end is a failure, whatever was found before. */
  ghost predicate ClientFailed(request: Option<Receipt>, action: Status) {
    request.Some? && (!request.value.terminated
                      || (WrongStatus(request.value) && !(action == Pass && Doubtful(request.value))))
  }

  class Case {
    var status: Status
    var havePrompt: bool
    var requestStarted: bool
    var requestedNs: Option<int>
    var aliveBefore: bool
    var cleanupErrors: bool
    var clientCleanupErrors: bool
    var request: Option<Receipt>
    var resets: nat

    constructor ()
      ensures status == Fail && !havePrompt && !requestStarted && requestedNs == None && request == None
      ensures !cleanupErrors && !clientCleanupErrors && resets == 0
    {
      status, havePrompt, requestStarted, requestedNs, aliveBefore := Fail, false, false, None, false;
      cleanupErrors, clientCleanupErrors, request, resets := false, false, None, 0;
    }

    /** Up to the committed seed publication. */
    method Seed(e: Env) returns (signal: Signal, digest: Option<string>)
      requires !havePrompt
      modifies this`havePrompt
      ensures signal.Completed? <==> !e.startSafety && Open(e.t1) && Open(e.t2) && Seeded(e)
      ensures signal.Completed? ==> digest == PublicationDigest(e.publications.value.events) && havePrompt
      ensures signal == Decided(Pending) ==> Excused(e)
      ensures signal == Decided(Fail) ==> Blamed(e)
      ensures signal.Error? ==> RaisedInAction(e, signal.deadline)
      ensures signal.Interrupted? ==> InterruptInAction(e)
      ensures signal != Decided(Pass)
    {
      digest := None;
      if e.startSafety { return Decided(Fail), None; }
      if !Open(e.t1) { return TimedOut(e.t1), None; }
      if !e.setCase.Ret? { return Thrown(e.setCase), None; }
      if !e.prompt.Ret? { return Thrown(e.prompt), None; }
      havePrompt := true;
      if !e.seedCursors.Ret? { return Thrown(e.seedCursors), None; }
      if !e.seed.Ret? { return Thrown(e.seed), None; }
      if !e.seed.value { return Decided(Fail), None; }
      if !Open(e.t2) { return TimedOut(e.t2), None; }
      if !e.publications.Ret? { return Thrown(e.publications), None; }
      digest := if e.publications.value.errors then None else PublicationDigest(e.publications.value.events);
      if digest.None? { return Decided(Pending), None; }
      signal := Completed;
    }

    /** From arming the fault to the client's cancellation. */
    method CancelInRestore(e: Env, digest: Option<string>) returns (signal: Signal)
      requires e.publications.Ret? && digest == PublicationDigest(e.publications.value.events)
      requires requestedNs == None && !requestStarted
      modifies this`requestStarted, this`requestedNs, this`aliveBefore
      ensures signal.Completed? <==> Open(e.t3) && Open(e.t4) && Open(e.t5) && Open(e.t6) && Cancelled(e, digest)
      ensures signal.Completed? ==> requestStarted && requestedNs == Some(e.requestedNs) && aliveBefore == e.aliveBefore
      ensures requestedNs.Some? ==> requestStarted
      ensures signal == Decided(Pending) ==> Excused(e)
      ensures signal == Decided(Fail) ==> Blamed(e)
      ensures signal.Error? ==> RaisedInAction(e, signal.deadline)
      ensures signal.Interrupted? ==> InterruptInAction(e)
      ensures signal != Decided(Pass)
    {
      if !Open(e.t3) { return TimedOut(e.t3); }
      var armed := SetAll(e.arm, e.armSafety);
      if !armed.Completed? { return armed; }
      if !Open(e.t4) { return TimedOut(e.t4); }
      if !e.actionCursors.Ret? { return Thrown(e.actionCursors); }
      if !e.payload.Ret? { return Thrown(e.payload); }
      if !e.factory.Ret? { return Thrown(e.factory); }
      if !e.start.Ret? { return Thrown(e.start); }
      requestStarted := true;
      if !Open(e.t5) { return TimedOut(e.t5); }
      if !e.waiting.Ret? { return Thrown(e.waiting); }
      if !WaitingProven(e.waiting.value, digest) { return Decided(Pending); }
      if !Open(e.t6) { return TimedOut(e.t6); }
      requestedNs, aliveBefore := Some(e.requestedNs), e.aliveBefore;
      match e.cancel
      case Ret(_) => signal := Completed;
      case Raise(_) => signal := Decided(Fail);
      case Interrupt => signal := Interrupted;
    }

    /** From releasing the pause to the restore's error boundaries. */
    method ObserveError(e: Env, digest: Option<string>) returns (signal: Signal)
      requires e.publications.Ret? && digest == PublicationDigest(e.publications.value.events)
      requires e.waiting.Ret? && WaitingProven(e.waiting.value, digest)
      ensures signal.Completed? <==> Open(e.t7) && Open(e.t8) && Open(e.t9) && Released(e, digest)
      ensures signal == Decided(Pending) ==> Excused(e)
      ensures signal == Decided(Fail) ==> Blamed(e)
      ensures signal.Error? ==> RaisedInAction(e, signal.deadline)
      ensures signal.Interrupted? ==> InterruptInAction(e)
      ensures signal != Decided(Pass)
    {
      if !Open(e.t7) { return TimedOut(e.t7); }
      if !e.cancelCursors.Ret? { return Thrown(e.cancelCursors); }
      var released := SetAll(e.release, e.releaseSafety);
      if !released.Completed? { return released; }
      if !Open(e.t8) { return TimedOut(e.t8); }
      if !e.hits.Ret? { return Thrown(e.hits); }
      if !Open(e.t9) { return TimedOut(e.t9); }
      if !e.ends.Ret? { return Thrown(e.ends); }
      var waiting := e.waiting.value.events;
      var hitsValid := HitsProven(e.hits.value, waiting);
      var restoreValid := EndsProven(e.ends.value, e.hits.value.events, waiting, digest);
      if !hitsValid { return Decided(Pending); }
      if !restoreValid { return Decided(Pending); }
      signal := Completed;
    }

    /** The guarded part: its outcome and ordinary exceptions become a status, an interruption stays one. */
    method Act(e: Env) returns (interrupted: bool)
      requires status == Fail && !havePrompt && !requestStarted && requestedNs == None
      modifies this`status, this`havePrompt, this`requestStarted, this`requestedNs, this`aliveBefore
      ensures !interrupted ==> (status == Pass <==> ActionGood(e))
      ensures ActionGood(e) ==> !interrupted
      ensures interrupted ==> InterruptInAction(e)
      ensures !interrupted && status == Pending ==> Excused(e) || (RaisedInAction(e, true) && !e.errorSafety)
      ensures !interrupted && status == Fail ==>
                Blamed(e) || RaisedInAction(e, false) || (RaisedInAction(e, true) && e.errorSafety)
      ensures status == Pass ==>
                havePrompt && requestStarted && requestedNs == Some(e.requestedNs) && aliveBefore == e.aliveBefore
      ensures requestedNs.Some? ==> requestStarted
    {
      interrupted := false;
      var signal, digest := Seed(e);
      if signal.Completed? {
        signal := CancelInRestore(e, digest);
      }
      if signal.Completed? {
        signal := ObserveError(e, digest);
      }
      match signal
      case Completed => status := Pass;
      case Decided(s) => status := s;
      case Error(deadline) => status := if deadline && !e.errorSafety then Pending else Fail;
      case Interrupted => interrupted := true;
    }

    /** The finalizer: the request is cancelled, the faults are reset whatever happens, and the thread is joined
        whatever happens. */
    method CleanUp(e: Env) returns (interrupted: bool)
      requires resets == 0 && request == None && !cleanupErrors && !clientCleanupErrors
      requires requestedNs.Some? ==> requestStarted
      modifies this`requestedNs, this`aliveBefore, this`cleanupErrors, this`clientCleanupErrors, this`request,
          this`resets
      ensures resets == 1
      ensures interrupted <==> (requestStarted && (e.lateCancel.Interrupt? || e.join.Interrupt?)) || e.reset.Interrupt?
      ensures cleanupErrors <==> e.reset != Ret(false)
      ensures !interrupted ==> (clientCleanupErrors <==> requestStarted && e.join.Raise?)
      ensures old(requestedNs).Some? ==> requestedNs == old(requestedNs) && aliveBefore == old(aliveBefore)
      ensures !interrupted ==>
                request == if requestStarted then Some(RequestEvidence(e.observed, requestedNs, aliveBefore)) else None
    {
      interrupted := false;
      if requestStarted {
        if requestedNs.None? {
          requestedNs, aliveBefore := Some(e.lateRequestedNs), e.lateAliveBefore;
        }
        if e.lateCancel.Interrupt? {
          interrupted := true;
        }
      }
      // the inner finally
      cleanupErrors := true;
      resets := resets + 1;
      match e.reset {
        case Ret(errors) => cleanupErrors := errors;
        case Raise(_) => cleanupErrors := true;
        case Interrupt => interrupted := true;
      }
      // the outer finally
      if requestStarted {
        request := Some(RequestEvidence(e.observed, requestedNs, aliveBefore));
        match e.join {
          case Ret(_) =>
          case Raise(_) => clientCleanupErrors := true;
          case Interrupt => interrupted := true;
        }
      }
    }

    /** What the cleanup and the client's end make of the status. */
    method Judge()
      modifies this`status
      ensures status == Fail <==>
                old(status) == Fail || cleanupErrors || clientCleanupErrors || ClientFailed(request, old(status))
      ensures status == Pass <==>
                && old(status) == Pass && !cleanupErrors && !clientCleanupErrors
                && (request.Some? ==>
                      var r := request.value;
                      && r.terminated && !r.finishedBeforeCancel && !r.completedStream && r.interrupted
                      && (r.httpStatus.None? || r.httpStatus == Some(200)))
    {
      if cleanupErrors || clientCleanupErrors {
        status := Fail;
      } else if request.Some? {
        var r := request.value;
        if !r.terminated {
          status := Fail;
        } else if status == Pass && (r.finishedBeforeCancel || r.completedStream) {
          status := Pending;
        } else if status == Pass && !r.interrupted {
          status := Pending;
        } else if r.httpStatus.Some? && r.httpStatus.value != 200 {
          status := Fail;
        }
      }
    }

    /** The recovery checks: reissue, health, idle, drain. */
    method Recover(e: Env) returns (interrupted: bool)
      modifies this`status
      ensures interrupted <==> RecoveryStopped(e, Interrupted)
      ensures !interrupted ==> (status == Fail <==> old(status) == Fail || RecoveryFailed(e))
      ensures !interrupted ==>
                (status == Pass <==>
                   && old(status) == Pass && e.reissue == Ret(true) && e.health == Ret(true) && e.idle == Ret(Pass)
                   && (e.midDeadline ==> e.midSafety) && e.barriers.Ret? && e.drain == Ret(Pass))
    {
      interrupted := false;
      var signal := Probe(e);
      match signal
      case Completed =>
        if !e.reissue.value || !e.health.value || e.idle.value == Fail || e.drain.value == Fail {
          status := Fail;
        } else if e.idle.value != Pass || e.drain.value != Pass {
          if status != Fail {
            status := Pending;
          }
        }
      case Decided(s) =>
        if status != Fail {
          status := s;
        }
      case Error(deadline) =>
        status := if deadline && !e.recoverSafety && status != Fail then Pending else Fail;
      case Interrupted => interrupted := true;
    }

    method Probe(e: Env) returns (signal: Signal)
      ensures signal.Completed? <==> AllAnswered(e)
      ensures signal.Decided? <==> IdleAsked(e) && !BarriersDue(e)
      ensures signal.Decided? ==> signal == Decided(Pending)
      ensures forall how: Signal :: how.Error? || how.Interrupted? ==> (signal == how <==> RecoveryStopped(e, how))
    {
      if !e.reissue.Ret? { return Thrown(e.reissue); }
      if !e.health.Ret? { return Thrown(e.health); }
      if !e.idle.Ret? { return Thrown(e.idle); }
      if e.midDeadline && !e.midSafety { return Decided(Pending); }
      if !e.barriers.Ret? { return Thrown(e.barriers); }
      if !e.drain.Ret? { return Thrown(e.drain); }
      signal := Completed;
    }

    /** The whole case. A pass is returned exactly when everything held; the faults are reset exactly once on every
        way out, interruptions included; and a failure is returned exactly when some stage found one: the action, the
        cleanup, the client's end, a safety stop, or the recovery if it was reached. So no failure is ever taken
        back. */
    method RunCacheEioCancelRestore(e: Env) returns (verdict: Verdict, ghost afterAction: Status, ghost inAction: bool)
      requires Initial()
      modifies this
      ensures verdict == Returned(Pass) <==> ActionProven(e) && ClientInterrupted(e) && RecoveryGood(e)
      ensures resets == 1
      ensures inAction ==> InterruptInAction(e)
      ensures verdict.Propagated? <==>
                || inAction || (requestStarted && (e.lateCancel.Interrupt? || e.join.Interrupt?)) || e.reset.Interrupt?
                || (!e.postSafety && !cleanupErrors && !clientCleanupErrors && !e.postDeadline && havePrompt
                    && RecoveryStopped(e, Interrupted))
      ensures verdict.Returned? ==>
                (verdict.status == Fail <==>
                   || afterAction == Fail || cleanupErrors || clientCleanupErrors || ClientFailed(request, afterAction)
                   || e.postSafety || e.finalSafety || (!e.postDeadline && havePrompt && RecoveryFailed(e)))
    {
      hide ActionProven, ClientInterrupted;
      ActionMeaning(e);
      InterruptedMeaning(e);
      var actionCut := Act(e);
      afterAction, inAction := status, actionCut;
      var cleanupCut := CleanUp(e);
      if actionCut || cleanupCut {
        return Propagated, afterAction, inAction;
      }
      Judge();
      var interrupted := false;
      if e.postSafety {
        status := Fail;
      } else if cleanupErrors || clientCleanupErrors {
      } else if e.postDeadline {
        if status != Fail {
          status := Pending;
        }
      } else if havePrompt {
        interrupted := Recover(e);
      }
      if interrupted {
        return Propagated, afterAction, inAction;
      }
      if e.finalSafety {
        status := Fail;
      }
      verdict := Returned(status);
    }

    ghost predicate Initial()
      reads this
    {
      && status == Fail && !havePrompt && !requestStarted && requestedNs == None && request == None
      && !cleanupErrors && !clientCleanupErrors && resets == 0
    }
  }

  /** The entry point: an interruption is recorded, if the record can be written, and passed on. */
  method RunCase(e: Env) returns (verdict: Verdict, recorded: Option<bool>)
    ensures verdict == Returned(Pass) <==> ActionProven(e) && ClientInterrupted(e) && RecoveryGood(e)
    ensures verdict.Propagated? ==>
              || InterruptInAction(e) || e.lateCancel.Interrupt? || e.reset.Interrupt? || e.join.Interrupt?
              || RecoveryStopped(e, Interrupted)
    ensures e.reset.Interrupt? ==> verdict.Propagated?
    ensures verdict.Returned? ==> recorded == None
    ensures verdict.Propagated? ==>
              recorded == match e.receipt case Ret(_) => Some(true) case Raise(_) => Some(false) case Interrupt => None
  {
    hide ActionProven, ClientInterrupted, RecoveryGood;
    var c := new Case();
    ghost var after, cut;
    verdict, after, cut := c.RunCacheEioCancelRestore(e);
    recorded := None;
    if verdict.Propagated? {
      match e.receipt
      case Ret(_) => recorded := Some(true);
      case Raise(_) => recorded := Some(false);
      case Interrupt =>
    }
  }
}
