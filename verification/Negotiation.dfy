/**
 The offer/answer exchange of one subscriber as a state machine: changes of its tracks, a
 debounced timer, and the two flags that keep a second offer back until the first is answered.
 */
module Negotiation {

  /**
   version counts track changes; offered and agreed are the versions the last offer and
   the last applied answer stood for.  callers are threads that changed tracks and have
   yet to call negotiate, firing are timer goroutines waiting for the peer's lock; muted
   says that an offer was made that nobody was there to send.
   */
  datatype State = State(
    version: nat, offered: nat, agreed: nat,
    callers: nat, armed: bool, firing: nat,
    remoteAnswerPending: bool, negotiationPending: bool,
    inFlight: nat, muted: bool)

  const START := State(0, 0, 0, 0, false, 0, false, false, 0, false)

  datatype Step =
    | Change          // a down track is added or removed
    | Nudge           // negotiate is called although nothing changed
    | CallNegotiate   // the thread that changed tracks calls negotiate
    | Fire            // the debounce interval passes
    | Callback        // the timer's goroutine gets the lock; its offer, if it makes one, succeeds
    | CallbackFails   // it makes an offer and that fails
    | CallbackMuted   // it makes an offer, but the peer is closed or has no way to send one
    | Answer          // the answer to the offer in flight is applied

  predicate Enabled(s: State, step: Step) {
    match step
    case Change => true
    case Nudge => true
    case CallNegotiate => s.callers > 0
    case Fire => s.armed
    case Callback => s.firing > 0
    case CallbackFails => s.firing > 0 && !s.remoteAnswerPending
    case CallbackMuted => s.firing > 0 && !s.remoteAnswerPending
    case Answer => s.inFlight > 0
  }

  /** The timer's callback: hold back while an answer is pending, else offer everything so far. */
  function Negotiated(s: State): State {
    if s.remoteAnswerPending then s.(negotiationPending := true)
    else s.(offered := s.version, remoteAnswerPending := true, inFlight := s.inFlight + 1)
  }

  /** An answer is applied: what was held back is set going again. */
  function Answered(s: State): State
    requires s.inFlight > 0
  {
    s.(agreed := s.offered, inFlight := s.inFlight - 1, remoteAnswerPending := false,
       negotiationPending := false, armed := s.armed || s.negotiationPending)
  }

  function Next(s: State, step: Step): State
    requires Enabled(s, step)
  {
    match step
    case Change => s.(version := s.version + 1, callers := s.callers + 1)
    case Nudge => s.(armed := true)
    case CallNegotiate => s.(callers := s.callers - 1, armed := true)
    case Fire => s.(armed := false, firing := s.firing + 1)
    case Callback => Negotiated(s.(firing := s.firing - 1))
    case CallbackFails => s.(firing := s.firing - 1)
    case CallbackMuted => s.(firing := s.firing - 1, remoteAnswerPending := true, muted := true)
    case Answer => Answered(s)
  }

  function Run(s: State, steps: seq<Step>): (r: (bool, State))
  {
    if steps == [] then (true, s)
    else
      var (ok, t) := Run(s, steps[..|steps| - 1]);
      if ok && Enabled(t, steps[|steps| - 1]) then (true, Next(t, steps[|steps| - 1])) else (false, t)
  }

  // ---------------------------------------------------------------- safety

  /** A change newer than the last offer is on its way into one. */
  predicate Covered(s: State) {
    s.offered < s.version ==>
      s.callers > 0 || s.armed || s.firing > 0 || (s.inFlight > 0 && s.negotiationPending)
  }

  predicate Consistent(s: State) {
    && s.inFlight <= 1 && (s.remoteAnswerPending <==> s.inFlight == 1 || s.muted) && !(s.inFlight == 1 && s.muted)
    && (s.negotiationPending ==> s.remoteAnswerPending)
    && s.agreed <= s.offered <= s.version
    && (s.inFlight == 0 ==> s.agreed == s.offered)
  }

  /** Offers that are made succeed and are sent. */
  predicate Sending(steps: seq<Step>) { CallbackFails !in steps && CallbackMuted !in steps }

  lemma {:induction false} ConsistentRun(steps: seq<Step>)
    ensures Consistent(Run(START, steps).1)
    ensures Sending(steps) ==> Covered(Run(START, steps).1) && !Run(START, steps).1.muted
  {
    if steps == [] {
    } else {
      ConsistentRun(steps[..|steps| - 1]);
    }
  }

  /**
   In every reachable state at most one offer is outstanding; the pending flag says so
   unless an offer was made that nobody could send.  While offers succeed and are sent no
   change is lost: one newer than the last offer has a thread about to announce it, an
   armed timer, a timer firing, or an answer on its way with the second flag set.
   */
  lemma {:induction false} NoLostRenegotiation(steps: seq<Step>)
    requires Run(START, steps).0
    ensures var s := Run(START, steps).1;
            && s.inFlight <= 1 && (s.remoteAnswerPending <==> s.inFlight == 1 || s.muted)
            && (Sending(steps) ==> !s.muted && Covered(s))
  {
    ConsistentRun(steps);
  }

  /** One timer goroutine is all that is left to announce a change. */
  predicate LastChance(s: State) {
    s.offered < s.version && s.callers == 0 && !s.armed && s.firing == 1
  }

  /** One step keeps a change covered, unless its last chance fails, cannot be sent, or waits for no answer. */
  lemma {:induction false} CoverageStep(s: State, step: Step)
    requires Consistent(s) && Covered(s) && Enabled(s, step)
    ensures Covered(Next(s, step)) <==>
            !(LastChance(s) && (step == CallbackFails || step == CallbackMuted || (step == Callback && s.muted)))
  {
  }

  /** After an offer that could not be sent none ever is: the flag stays set and every change is held back. */
  lemma {:induction false} MutedForever(s: State, steps: seq<Step>)
    requires Consistent(s) && s.muted
    ensures var t := Run(s, steps).1;
            Consistent(t) && t.muted && t.remoteAnswerPending && t.inFlight == 0 && t.offered == s.offered
  {
    if steps != [] {
      MutedForever(s, steps[..|steps| - 1]);
    }
  }

  /** A failed offer does lose the change: nothing is left that would try again. */
  lemma {:induction false} FailedOfferLosesChange()
    ensures var (ok, s) := Run(START, [Change, CallNegotiate, Fire, CallbackFails]);
            ok && !Covered(s) && s == START.(version := 1)
  {
    var a, b := [Change], [Change, CallNegotiate];
    var c := [Change, CallNegotiate, Fire];
    var d := [Change, CallNegotiate, Fire, CallbackFails];
    assert a[..0] == [] && b[..1] == a && c[..2] == b && d[..3] == c;
    assert Run(START, []) == (true, START);
    assert Run(START, a) == (true, START.(version := 1, callers := 1));
    assert Run(START, b) == (true, START.(version := 1, armed := true));
    assert Run(START, c) == (true, START.(version := 1, firing := 1));
  }

  // ---------------------------------------------------------------- convergence

  /** Steps that go on when tracks no longer change and offers succeed. */
  predicate Internal(step: Step) {
    step.CallNegotiate? || step.Fire? || step.Callback? || step.Answer?
  }

  function Flag(b: bool): nat { if b then 1 else 0 }

  /** How much is left to do. */
  function Work(s: State): nat {
    6 * s.callers + 5 * Flag(s.armed) + 4 * s.firing + 3 * s.inFlight + 3 * Flag(s.negotiationPending)
  }

  /** Every internal step is progress, so without changes the exchange comes to rest. */
  lemma {:induction false} WorkShrinks(s: State, step: Step)
    requires Consistent(s) && Enabled(s, step) && Internal(step)
    ensures Work(Next(s, step)) < Work(s)
  {
  }

  predicate AtRest(s: State) {
    !Enabled(s, CallNegotiate) && !Enabled(s, Fire) && !Enabled(s, Callback) && !Enabled(s, Answer)
  }

  /** Where it comes to rest, both sides agree on every change. */
  lemma {:induction false} RestIsAgreement(s: State)
    requires Consistent(s) && Covered(s) && AtRest(s) && !s.muted
    ensures s.agreed == s.offered == s.version
  {
  }

  /** Answers still needed for agreement: one if the newest offer says everything, else at most two. */
  function AnswersNeeded(s: State): nat {
    if s.agreed == s.version then 0
    else if s.offered < s.version && s.inFlight > 0 then 2
    else 1
  }

  lemma {:induction false} AnswerCounts(s: State, step: Step)
    requires Consistent(s) && Enabled(s, step) && Internal(step)
    ensures Consistent(Next(s, step)) && Next(s, step).version == s.version
    ensures AnswersNeeded(Next(s, step)) <= AnswersNeeded(s)
    ensures step.Answer? && AnswersNeeded(s) > 0 ==> AnswersNeeded(Next(s, step)) < AnswersNeeded(s)
  {
  }

  function Answers(steps: seq<Step>): nat {
    if steps == [] then 0
    else Answers(steps[..|steps| - 1]) + if steps[|steps| - 1] == Answer then 1 else 0
  }

  lemma {:induction false} AnswersProgress(s: State, steps: seq<Step>)
    requires Consistent(s) && Run(s, steps).0
    requires forall i :: 0 <= i < |steps| ==> Internal(steps[i])
    ensures var t := Run(s, steps).1;
            AnswersNeeded(t) + Answers(steps) <= AnswersNeeded(s) || AnswersNeeded(t) == 0
    ensures Run(s, steps).1.version == s.version && Consistent(Run(s, steps).1)
    ensures Work(Run(s, steps).1) + |steps| <= Work(s)
  {
    if steps == [] {
    } else {
      var front, last := steps[..|steps| - 1], steps[|steps| - 1];
      AnswersProgress(s, front);
      AnswerCounts(Run(s, front).1, last);
      WorkShrinks(Run(s, front).1, last);
    }
  }

  /**
   Once changes stop, at most two more answered offers bring agreement, and a bounded
   number of steps brings the exchange to rest.
   */
  lemma {:induction false} TwoOffersAgree(s: State, steps: seq<Step>)
    requires Consistent(s) && Run(s, steps).0
    requires forall i :: 0 <= i < |steps| ==> Internal(steps[i])
    ensures Answers(steps) >= 2 ==> Run(s, steps).1.agreed == Run(s, steps).1.version == s.version
    ensures |steps| <= Work(s)
  {
    AnswersProgress(s, steps);
  }

  // ---------------------------------------------------------------- the object

  /** A peer's part: the two flags, and the timer that negotiate arms. */
  class Peer {
    var remoteAnswerPending: bool
    var negotiationPending: bool
    var armed: bool
    ghost var version: nat
    ghost var offered: nat
    ghost var agreed: nat
    ghost var callers: nat
    ghost var firing: nat
    ghost var inFlight: nat
    ghost var muted: bool

    ghost function Value(): State
      reads this
    {
      State(version, offered, agreed, callers, armed, firing, remoteAnswerPending, negotiationPending, inFlight,
            muted)
    }

    constructor ()
      ensures Value() == START
    {
      remoteAnswerPending, negotiationPending, armed := false, false, false;
      version, offered, agreed, callers, firing, inFlight, muted := 0, 0, 0, 0, 0, 0, false;
    }

    /** Subscriber.negotiate: (re)starts the debounce interval. */
    method Negotiate()
      modifies this`armed
      ensures armed
    {
      armed := true;
    }

    /**
     What the debounced timer runs under the peer's lock: created says whether CreateOffer
     succeeded, canSend whether the peer is open and has someone to hand the offer to.
     */
    method NegotiationNeeded(created: bool, canSend: bool) returns (sent: bool)
      requires firing > 0
      modifies this
      ensures Value() == Next(old(Value()),
                              if old(remoteAnswerPending) then Callback
                              else if !created then CallbackFails
                              else if !canSend then CallbackMuted
                              else Callback)
      ensures sent == (!old(remoteAnswerPending) && created && canSend)
    {
      firing := firing - 1;
      if remoteAnswerPending {
        negotiationPending := true;
        return false;
      }
      if !created {
        return false;
      }
      remoteAnswerPending := true;
      if canSend {
        offered, inFlight := version, inFlight + 1;
        return true;
      }
      muted := true;
      return false;
    }

    /** The answer to the offer in flight; accepted says whether the connection took it. */
    method SetRemoteDescription(accepted: bool) returns (ok: bool)
      requires accepted ==> inFlight > 0
      modifies this
      ensures ok == accepted
      ensures Value() == if accepted then Next(old(Value()), Answer) else old(Value())
    {
      if !accepted {
        return false;
      }
      agreed, inFlight := offered, inFlight - 1;
      remoteAnswerPending := false;
      if negotiationPending {
        negotiationPending := false;
        Negotiate();
      }
      return true;
    }
  }
}
