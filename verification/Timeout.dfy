/** The timeout filter: the request handler runs in a goroutine of its own and
races with the expiry of the request's context.

The response writer is a class whose methods are atomic under its mutex.  The
protocol around it is a transition system; a run is any interleaving of calls by
the handler with the steps of `ServeHTTP` and of the goroutine that it leaves
behind to drain the result channel.
*/
module TimeoutProtocol {

  // ----- the response writer

  datatype Call =
    | Header
    | Write(bytes: seq<int>)
    | WriteHeader(code: int)
    | Flush
    | CloseNotify
    | Hijack(succeeds: bool)

  /** A call that reached the underlying writer. */
  datatype Entry = FromHandler(call: Call) | FromTimeout(call: Call)

  datatype Reply = Forwarded | Dropped | ErrHandlerTimeout | ErrHijacked

  const GATEWAY_TIMEOUT := 504

  function Count(p: Entry -> bool, log: seq<Entry>): nat {
    if log == [] then 0 else Count(p, log[..|log| - 1]) + if p(log[|log| - 1]) then 1 else 0
  }

  lemma {:induction false} CountAppend(p: Entry -> bool, log: seq<Entry>, e: Entry)
    ensures Count(p, log + [e]) == Count(p, log) + if p(e) then 1 else 0
  {
    assert (log + [e])[..|log|] == log;
  }

  lemma {:induction false} CountAppend2(p: Entry -> bool, log: seq<Entry>, e: Entry, f: Entry)
    ensures Count(p, log + [e, f]) == Count(p, log) + (if p(e) then 1 else 0) + if p(f) then 1 else 0
  {
    CountAppend(p, log, e);
    CountAppend(p, log + [e], f);
    assert log + [e] + [f] == log + [e, f];
  }

  predicate Writes(e: Entry) {
    e.FromHandler? && (e.call.Write? || e.call.WriteHeader?)
  }

  predicate Hijacks(e: Entry) {
    e == FromHandler(Hijack(true))
  }

  /** The handler has committed itself to a response. */
  predicate Commits(e: Entry) {
    Writes(e) || Hijacks(e)
  }

  predicate IsWriteHeader(e: Entry) {
    e.call.WriteHeader?
  }

  predicate Is504(e: Entry) {
    e == FromTimeout(WriteHeader(GATEWAY_TIMEOUT))
  }

  lemma {:induction false} CommittedExactly(log: seq<Entry>)
    ensures Count(Commits, log) > 0 <==> Count(Writes, log) > 0 || Count(Hijacks, log) > 0
  {
    if log != [] {
      CommittedExactly(log[..|log| - 1]);
    }
  }

  /** What the writer promises: whether it has timed out and what has reached the
      underlying writer decide everything. */
  datatype Writer = Writer(timedOut: bool, log: seq<Entry>) {

    function ReplyTo(call: Call): Reply {
      match call
      case Write(_) =>
        if timedOut then ErrHandlerTimeout else if Count(Hijacks, log) > 0 then ErrHijacked else Forwarded
      case WriteHeader(_) => if timedOut || Committed() then Dropped else Forwarded
      case Hijack(_) => if timedOut then ErrHandlerTimeout else Forwarded
      case _ => if timedOut then Dropped else Forwarded
    }

    /** One call by the handler. */
    function Handle(call: Call): Writer {
      if ReplyTo(call).Forwarded? then this.(log := log + [FromHandler(call)]) else this
    }

    /** The response can no longer be replaced by a timeout message. */
    predicate Committed() {
      Count(Commits, log) > 0
    }

    function TimeOut(body: seq<int>): Writer {
      if Committed() then this.(timedOut := true)
      else Writer(true, log + [FromTimeout(WriteHeader(GATEWAY_TIMEOUT)), FromTimeout(Write(body))])
    }
  }

  const UNUSED := Writer(false, [])

  /** The writer itself remembers three flags instead. */
  class BaseTimeoutWriter {
    var timedOut: bool
    var wroteHeader: bool
    var hijacked: bool

    /** The calls that have reached the underlying writer. */
    var w: seq<Entry>

    /** The flags sum up what has reached the underlying writer. */
    ghost predicate Valid()
      reads this
    {
      (wroteHeader <==> Count(Writes, w) > 0) && (hijacked <==> Count(Hijacks, w) > 0)
    }

    constructor ()
      ensures Valid() && State() == UNUSED
    {
      timedOut, wroteHeader, hijacked, w := false, false, false, [];
    }

    function State(): Writer
      reads this
    {
      Writer(timedOut, w)
    }

    lemma {:induction false} LogAppends(e: Entry)
      ensures Count(Writes, w + [e]) == Count(Writes, w) + if Writes(e) then 1 else 0
      ensures Count(Hijacks, w + [e]) == Count(Hijacks, w) + if Hijacks(e) then 1 else 0
      ensures Count(Commits, w) > 0 <==> Count(Writes, w) > 0 || Count(Hijacks, w) > 0
    {
      CountAppend(Writes, w, e);
      CountAppend(Hijacks, w, e);
      CommittedExactly(w);
    }

    method Header() returns (r: Reply)
      requires Valid()
      modifies this
      ensures Valid() && State() == old(State()).Handle(Call.Header) && r == old(State()).ReplyTo(Call.Header)
    {
      LogAppends(FromHandler(Call.Header));
      if timedOut {
        return Dropped;
      }
      w := w + [FromHandler(Call.Header)];
      return Forwarded;
    }

    method Write(bytes: seq<int>) returns (r: Reply)
      requires Valid()
      modifies this
      ensures Valid() && (old(timedOut) ==> unchanged(this) && r == ErrHandlerTimeout)
      ensures State() == old(State()).Handle(Call.Write(bytes)) && r == old(State()).ReplyTo(Call.Write(bytes))
    {
      LogAppends(FromHandler(Call.Write(bytes)));
      if timedOut {
        return ErrHandlerTimeout;
      }
      if hijacked {
        return ErrHijacked;
      }
      wroteHeader := true;
      w := w + [FromHandler(Call.Write(bytes))];
      return Forwarded;
    }

    method Flush() returns (r: Reply)
      requires Valid()
      modifies this
      ensures Valid() && (old(timedOut) ==> unchanged(this) && r == Dropped)
      ensures State() == old(State()).Handle(Call.Flush) && r == old(State()).ReplyTo(Call.Flush)
    {
      LogAppends(FromHandler(Call.Flush));
      if timedOut {
        return Dropped;
      }
      w := w + [FromHandler(Call.Flush)];
      return Forwarded;
    }

    method WriteHeader(code: int) returns (r: Reply)
      requires Valid()
      modifies this
      ensures Valid() && (r.Dropped? ==> unchanged(this))
      ensures State() == old(State()).Handle(Call.WriteHeader(code))
      ensures r == old(State()).ReplyTo(Call.WriteHeader(code))
    {
      LogAppends(FromHandler(Call.WriteHeader(code)));
      if timedOut || wroteHeader || hijacked {
        return Dropped;
      }
      wroteHeader := true;
      w := w + [FromHandler(Call.WriteHeader(code))];
      return Forwarded;
    }

    method CloseNotify() returns (r: Reply)
      requires Valid()
      modifies this
      ensures Valid() && State() == old(State()).Handle(Call.CloseNotify) && r == old(State()).ReplyTo(Call.CloseNotify)
    {
      LogAppends(FromHandler(Call.CloseNotify));
      if timedOut {
        return Dropped;
      }
      w := w + [FromHandler(Call.CloseNotify)];
      return Forwarded;
    }

    /** `succeeds` is the answer of the underlying hijacker. */
    method Hijack(succeeds: bool) returns (r: Reply)
      requires Valid()
      modifies this
      ensures Valid() && (old(timedOut) ==> unchanged(this) && r == ErrHandlerTimeout)
      ensures State() == old(State()).Handle(Call.Hijack(succeeds)) && r == old(State()).ReplyTo(Call.Hijack(succeeds))
    {
      LogAppends(FromHandler(Call.Hijack(succeeds)));
      if timedOut {
        return ErrHandlerTimeout;
      }
      w := w + [FromHandler(Call.Hijack(succeeds))];
      if succeeds {
        hijacked := true;
      }
      return Forwarded;
    }

    /** Answers the request, or panics because the handler already has. */
    method Timeout(body: seq<int>) returns (aborts: bool)
      requires Valid()
      modifies this
      ensures Valid() && State() == old(State()).TimeOut(body)
      ensures aborts <==> old(State()).Committed()
      ensures aborts ==> w == old(w)
    {
      CommittedExactly(w);
      CountAppend2(Writes, w, FromTimeout(Call.WriteHeader(GATEWAY_TIMEOUT)), FromTimeout(Call.Write(body)));
      CountAppend2(Hijacks, w, FromTimeout(Call.WriteHeader(GATEWAY_TIMEOUT)), FromTimeout(Call.Write(body)));
      timedOut := true;
      if !wroteHeader && !hijacked {
        w := w + [FromTimeout(Call.WriteHeader(GATEWAY_TIMEOUT)), FromTimeout(Call.Write(body))];
        return false;
      }
      return true;
    }

    method Do(call: Call) returns (r: Reply)
      requires Valid()
      modifies this
      ensures Valid() && State() == old(State()).Handle(call) && r == old(State()).ReplyTo(call)
    {
      match call
      case Header => r := Header();
      case Write(bytes) => r := Write(bytes);
      case WriteHeader(code) => r := WriteHeader(code);
      case Flush => r := Flush();
      case CloseNotify => r := CloseNotify();
      case Hijack(succeeds) => r := Hijack(succeeds);
    }
  }

  // ----- the protocol

  /** What the handler ended with: nothing, the abort sentinel, or another panic. */
  datatype Result = Nil | AbortHandler | OtherPanic

  datatype Receiver = BySelect | ByDrain

  datatype Worker = Running | Sending(result: Result) | Sent(result: Result, to: Receiver)

  /** How `ServeHTTP` ends. */
  datatype Outcome = Completed(result: Result) | TimedOut504 | Aborted | PostTimeoutPanic

  datatype Main = Selecting | PostTimeout | BeforeTimeout | Deferred(outcome: Outcome) | Exited(outcome: Outcome)

  datatype Drain = NotStarted | Waiting | Drained(result: Result)

  datatype State = State(tw: Writer, contextDone: bool, worker: Worker, main: Main, drain: Drain)

  const INITIAL := State(UNUSED, false, Running, Selecting, NotStarted)

  datatype Step =
    | HandlerCall(call: Call)
    | HandlerEnd(result: Result)
    | ContextDone
    | SelectResult
    | SelectTimeout
    | RunPostTimeoutFn(panics: bool)
    | WriteTimeout(body: seq<int>)
    | StartDrain
    | DrainReceive

  predicate Enabled(s: State, step: Step) {
    match step
    case HandlerCall(_) => s.worker.Running?
    case HandlerEnd(_) => s.worker.Running?
    case ContextDone => true
    case SelectResult => s.main.Selecting? && s.worker.Sending?
    case SelectTimeout => s.main.Selecting? && s.contextDone
    case RunPostTimeoutFn(_) => s.main.PostTimeout?
    case WriteTimeout(_) => s.main.BeforeTimeout?
    case StartDrain => s.main.Deferred?
    case DrainReceive => s.drain.Waiting? && s.worker.Sending?
  }

  function Apply(s: State, step: Step): State
    requires Enabled(s, step)
  {
    match step
    case HandlerCall(call) => s.(tw := s.tw.Handle(call))
    case HandlerEnd(result) => s.(worker := Sending(result))
    case ContextDone => s.(contextDone := true)
    case SelectResult =>
      s.(worker := Sent(s.worker.result, BySelect), main := Exited(Completed(s.worker.result)))
    case SelectTimeout => s.(main := PostTimeout)
    case RunPostTimeoutFn(panics) => s.(main := if panics then Deferred(PostTimeoutPanic) else BeforeTimeout)
    case WriteTimeout(body) =>
      s.(tw := s.tw.TimeOut(body), main := Deferred(if s.tw.Committed() then Aborted else TimedOut504))
    case StartDrain => s.(main := Exited(s.main.outcome), drain := Waiting)
    case DrainReceive => s.(worker := Sent(s.worker.result, ByDrain), drain := Drained(s.worker.result))
  }

  /** The states that a sequence of steps passes through, if all are enabled. */
  ghost predicate Run(steps: seq<Step>, ss: seq<State>) {
    && |ss| == |steps| + 1 && ss[0] == INITIAL
    && forall i | 0 <= i < |steps| :: Enabled(ss[i], steps[i]) && ss[i + 1] == Apply(ss[i], steps[i])
  }

  // ----- what every step keeps

  function Outcomes(m: Main): set<Outcome> {
    if m.Deferred? || m.Exited? then {m.outcome} else {}
  }

  ghost predicate WriterInvariant(tw: Writer, answered504: bool) {
    && (!tw.Committed() ==> Count(IsWriteHeader, tw.log) == Count(Is504, tw.log))
    && Count(IsWriteHeader, tw.log) <= 1
    && Count(Is504, tw.log) == (if answered504 then 1 else 0)
    && (answered504 ==> tw.timedOut && !tw.Committed())
  }

  ghost predicate Invariant(s: State) {
    && WriterInvariant(s.tw, TimedOut504 in Outcomes(s.main))
    && (s.tw.timedOut <==> TimedOut504 in Outcomes(s.main) || Aborted in Outcomes(s.main))
    && (Aborted in Outcomes(s.main) ==> s.tw.Committed())
    && (s.main.Deferred? ==> !s.main.outcome.Completed?)
    && (!s.main.Selecting? && !(s.main.Exited? && s.main.outcome.Completed?) ==> s.contextDone)
    // the channel
    && (s.drain.NotStarted? <==> !s.main.Exited? || s.main.outcome.Completed?)
    && (s.worker.Sent? <==> (s.main.Exited? && s.main.outcome.Completed?) || s.drain.Drained?)
    && (s.worker.Sent? && s.worker.to.BySelect? ==> s.main == Exited(Completed(s.worker.result)))
    && (s.worker.Sent? && s.worker.to.ByDrain? ==> s.drain == Drained(s.worker.result))
  }

  lemma {:induction false} HandlerCallKeepsWriter(tw: Writer, call: Call, answered504: bool)
    requires WriterInvariant(tw, answered504) && (answered504 ==> tw.timedOut)
    ensures WriterInvariant(tw.Handle(call), answered504)
  {
    var e := FromHandler(call);
    CountAppend(Commits, tw.log, e);
    CountAppend(IsWriteHeader, tw.log, e);
    CountAppend(Is504, tw.log, e);
  }

  lemma {:induction false} TimeOutKeepsWriter(tw: Writer, body: seq<int>)
    requires WriterInvariant(tw, false)
    ensures WriterInvariant(tw.TimeOut(body), !tw.Committed())
  {
    var e, f := FromTimeout(WriteHeader(GATEWAY_TIMEOUT)), FromTimeout(Write(body));
    CountAppend2(Commits, tw.log, e, f);
    CountAppend2(IsWriteHeader, tw.log, e, f);
    CountAppend2(Is504, tw.log, e, f);
  }

  lemma {:induction false} StepKeepsInvariant(s: State, step: Step)
    requires Invariant(s) && Enabled(s, step)
    ensures Invariant(Apply(s, step))
  {
    match step
    case HandlerCall(call) => HandlerCallKeepsWriter(s.tw, call, TimedOut504 in Outcomes(s.main));
    case WriteTimeout(body) => TimeOutKeepsWriter(s.tw, body);
    case _ =>
  }

  lemma {:induction false} RunKeepsInvariant(steps: seq<Step>, ss: seq<State>, i: nat)
    requires Run(steps, ss) && i < |ss|
    ensures Invariant(ss[i])
  {
    if i > 0 {
      RunKeepsInvariant(steps, ss, i - 1);
      StepKeepsInvariant(ss[i - 1], steps[i - 1]);
    }
  }

  // ----- the promises

  /** Some earlier call of the handler hijacked the connection, or began a response. */
  ghost predicate HijackedBefore(steps: seq<Step>, j: nat) {
    exists k | 0 <= k < j && k < |steps| :: steps[k] == HandlerCall(Hijack(true))
  }

  ghost predicate BegunBefore(steps: seq<Step>, j: nat) {
    exists k | 0 <= k < j && k < |steps| ::
      steps[k].HandlerCall? && (steps[k].call.Write? || steps[k].call.WriteHeader? || steps[k].call == Hijack(true))
  }

  ghost predicate TimedOutBefore(steps: seq<Step>, j: nat) {
    exists k | 0 <= k < j && k < |steps| :: steps[k].WriteTimeout?
  }

  /** What the state of a writer says about the steps so far. */
  ghost predicate Remembers(tw: Writer, steps: seq<Step>, j: nat) {
    && (tw.timedOut <==> TimedOutBefore(steps, j))
    && (!tw.timedOut ==>
          && (Count(Hijacks, tw.log) > 0 <==> HijackedBefore(steps, j))
          && (tw.Committed() <==> BegunBefore(steps, j)))
  }

  lemma {:induction false} WriterRemembers(steps: seq<Step>, ss: seq<State>, j: nat)
    requires Run(steps, ss) && j < |ss|
    ensures Remembers(ss[j].tw, steps, j)
  {
    if j > 0 {
      WriterRemembers(steps, ss, j - 1);
      assert Enabled(ss[j - 1], steps[j - 1]) && ss[j] == Apply(ss[j - 1], steps[j - 1]);
      NextRemembers(ss[j - 1], steps, j);
    }
  }

  lemma {:induction false} NextRemembers(s: State, steps: seq<Step>, j: nat)
    requires 0 < j <= |steps| && Remembers(s.tw, steps, j - 1) && Enabled(s, steps[j - 1])
    ensures Remembers(Apply(s, steps[j - 1]).tw, steps, j)
  {
    BeforeNext(steps, j);
    BegunNext(steps, j);
    WriterStep(s, steps[j - 1]);
  }

  lemma {:induction false} BeforeNext(steps: seq<Step>, j: nat)
    requires 0 < j <= |steps|
    ensures TimedOutBefore(steps, j) <==> TimedOutBefore(steps, j - 1) || steps[j - 1].WriteTimeout?
    ensures HijackedBefore(steps, j) <==> HijackedBefore(steps, j - 1) || steps[j - 1] == HandlerCall(Hijack(true))
  {
  }

  lemma {:induction false} BegunNext(steps: seq<Step>, j: nat)
    requires 0 < j <= |steps|
    ensures BegunBefore(steps, j) <==>
            || BegunBefore(steps, j - 1)
            || (steps[j - 1].HandlerCall? &&
                (steps[j - 1].call.Write? || steps[j - 1].call.WriteHeader? || steps[j - 1].call == Hijack(true)))
  {
  }

  lemma {:induction false} WriterStep(s: State, step: Step)
    requires Enabled(s, step)
    ensures var t := Apply(s, step).tw;
            && (t.timedOut <==> s.tw.timedOut || step.WriteTimeout?)
            && (!t.timedOut ==>
                  && (Count(Hijacks, t.log) > 0 <==> Count(Hijacks, s.tw.log) > 0 || step == HandlerCall(Hijack(true)))
                  && (t.Committed() <==>
                      || s.tw.Committed()
                      || (step.HandlerCall? &&
                          (step.call.Write? || step.call.WriteHeader? || step.call == Hijack(true)))))
  {
    if step.HandlerCall? {
      CountAppend(Hijacks, s.tw.log, FromHandler(step.call));
      CountAppend(Commits, s.tw.log, FromHandler(step.call));
      CommittedExactly(s.tw.log);
    }
  }

  /** Exactly what of a handler's calls reaches the underlying writer, and what it is told:
      before a timeout everything, except a write after a hijack and a header after the
      beginning of a response; after it nothing. */
  lemma {:induction false} CallReachesExactly(steps: seq<Step>, ss: seq<State>, j: nat)
    requires Run(steps, ss) && j < |steps| && steps[j].HandlerCall?
    ensures var call, r := steps[j].call, ss[j].tw.ReplyTo(steps[j].call);
            && (r == Forwarded <==>
                && !TimedOutBefore(steps, j)
                && !(call.Write? && HijackedBefore(steps, j))
                && !(call.WriteHeader? && BegunBefore(steps, j)))
            && (r == ErrHandlerTimeout <==> TimedOutBefore(steps, j) && (call.Write? || call.Hijack?))
            && (r == ErrHijacked <==> !TimedOutBefore(steps, j) && call.Write? && HijackedBefore(steps, j))
            && ss[j + 1].tw.log == ss[j].tw.log + if r == Forwarded then [FromHandler(call)] else []
  {
    WriterRemembers(steps, ss, j);
    assert Enabled(ss[j], steps[j]) && ss[j + 1] == Apply(ss[j], steps[j]);
  }

  /** No other step reaches the underlying writer, except that a timeout sends the 504 and the
      message if the handler has not begun a response. */
  lemma {:induction false} TimeoutReachesExactly(steps: seq<Step>, ss: seq<State>, j: nat)
    requires Run(steps, ss) && j < |steps| && !steps[j].HandlerCall?
    ensures ss[j + 1].tw.log ==
            ss[j].tw.log +
            if steps[j].WriteTimeout? && !BegunBefore(steps, j)
            then [FromTimeout(WriteHeader(504)), FromTimeout(Write(steps[j].body))] else []
  {
    WriterRemembers(steps, ss, j);
    RunKeepsInvariant(steps, ss, j);
    assert Enabled(ss[j], steps[j]) && ss[j + 1] == Apply(ss[j], steps[j]);
  }

  /** A run that times out before the handler has begun a response. */
  lemma {:induction false} TimesOut(body: seq<int>) returns (steps: seq<Step>, ss: seq<State>)
    ensures Run(steps, ss) && |steps| == 5 && ss[5].main == Exited(TimedOut504)
    ensures ss[5].tw.log == [FromTimeout(WriteHeader(504)), FromTimeout(Write(body))]
  {
    steps := [ContextDone, SelectTimeout, RunPostTimeoutFn(false), WriteTimeout(body), StartDrain];
    var s1 := Apply(INITIAL, steps[0]);
    var s2 := Apply(s1, steps[1]);
    var s3 := Apply(s2, steps[2]);
    assert s3.tw == UNUSED;
    var s4 := Apply(s3, steps[3]);
    ss := [INITIAL, s1, s2, s3, s4, Apply(s4, steps[4])];
  }

  lemma {:induction false} StepAfterTimeout(s: State, step: Step)
    requires Invariant(s) && Enabled(s, step) && s.tw.timedOut
    ensures Apply(s, step).tw == s.tw
  {
  }

  lemma {:induction false} NextAfterTimeout(steps: seq<Step>, ss: seq<State>, k: nat)
    requires Run(steps, ss) && k < |steps| && ss[k].tw.timedOut
    ensures ss[k + 1].tw == ss[k].tw
  {
    RunKeepsInvariant(steps, ss, k);
    assert Enabled(ss[k], steps[k]) && ss[k + 1] == Apply(ss[k], steps[k]);
    StepAfterTimeout(ss[k], steps[k]);
  }

  /** Once the writer has timed out nothing more reaches the underlying writer. */
  lemma {:induction false} SilentAfterTimeout(steps: seq<Step>, ss: seq<State>, i: nat, j: nat)
    requires Run(steps, ss) && i <= j < |ss| && ss[i].tw.timedOut
    ensures ss[j].tw == ss[i].tw
  {
    if i < j {
      SilentAfterTimeout(steps, ss, i, j - 1);
      NextAfterTimeout(steps, ss, j - 1);
    }
  }

  /** ... and the handler is told so, whatever it calls and how much later. */
  lemma {:induction false} RefusedAfterTimeout(steps: seq<Step>, ss: seq<State>, i: nat, j: nat)
    requires Run(steps, ss) && i <= j < |steps| && ss[i].tw.timedOut && steps[j].HandlerCall?
    ensures ss[j + 1] == ss[j] && ss[j].tw == ss[i].tw
    ensures var r := ss[j].tw.ReplyTo(steps[j].call);
            if steps[j].call.Write? || steps[j].call.Hijack? then r == ErrHandlerTimeout else r == Dropped
  {
    SilentAfterTimeout(steps, ss, i, j);
    assert Enabled(ss[j], steps[j]) && ss[j + 1] == Apply(ss[j], steps[j]);
  }

  lemma {:induction false} StepAfterExit(s: State, step: Step)
    requires Invariant(s) && Enabled(s, step) && s.main.Exited? && !s.main.outcome.PostTimeoutPanic?
    ensures Apply(s, step).tw == s.tw && Apply(s, step).main == s.main
  {
  }

  lemma {:induction false} NextAfterExit(steps: seq<Step>, ss: seq<State>, k: nat)
    requires Run(steps, ss) && k < |steps| && ss[k].main.Exited? && !ss[k].main.outcome.PostTimeoutPanic?
    ensures ss[k + 1].tw == ss[k].tw && ss[k + 1].main == ss[k].main
  {
    RunKeepsInvariant(steps, ss, k);
    assert Enabled(ss[k], steps[k]) && ss[k + 1] == Apply(ss[k], steps[k]);
    StepAfterExit(ss[k], steps[k]);
  }

  /** Once `ServeHTTP` has ended, nothing more reaches the underlying writer, unless the
      function that runs after a timeout panicked. */
  lemma {:induction false} SilentAfterExit(steps: seq<Step>, ss: seq<State>, i: nat, j: nat)
    requires Run(steps, ss) && i <= j < |ss| && ss[i].main.Exited? && !ss[i].main.outcome.PostTimeoutPanic?
    ensures ss[j].tw == ss[i].tw && ss[j].main == ss[i].main
  {
    if i < j {
      SilentAfterExit(steps, ss, i, j - 1);
      NextAfterExit(steps, ss, j - 1);
    }
  }

  ghost predicate CanReach(s: State, call: Call) {
    Enabled(s, HandlerCall(call)) && s.tw.ReplyTo(call).Forwarded?
  }

  /** After the end some handler call can reach the underlying writer exactly if that function
      panicked, so that the writer never timed out, and the handler still runs. */
  lemma {:induction false} LateCallExactly(steps: seq<Step>, ss: seq<State>, i: nat)
    requires Run(steps, ss) && i < |ss| && ss[i].main.Exited?
    ensures (exists call :: CanReach(ss[i], call)) <==>
            ss[i].main.outcome.PostTimeoutPanic? && ss[i].worker.Running?
  {
    RunKeepsInvariant(steps, ss, i);
    assert CanReach(ss[i], Flush) <==> ss[i].worker.Running? && !ss[i].tw.timedOut;
  }

  /** A write that reaches the underlying writer after `ServeHTTP` has ended. */
  lemma {:induction false} LateWrite(bytes: seq<int>) returns (steps: seq<Step>, ss: seq<State>)
    ensures Run(steps, ss) && |steps| == 5 && steps[4] == HandlerCall(Write(bytes))
    ensures ss[4].main == Exited(PostTimeoutPanic) && ss[5].tw.log == ss[4].tw.log + [FromHandler(Write(bytes))]
  {
    steps := [ContextDone, SelectTimeout, RunPostTimeoutFn(true), StartDrain, HandlerCall(Write(bytes))];
    var s1 := Apply(INITIAL, steps[0]);
    var s2 := Apply(s1, steps[1]);
    var s3 := Apply(s2, steps[2]);
    var s4 := Apply(s3, steps[3]);
    assert s4.tw == UNUSED;
    ss := [INITIAL, s1, s2, s3, s4, Apply(s4, steps[4])];
  }

  /** A request that times out is answered with 504 if the handler had not committed
      itself to a response before, and is aborted otherwise. */
  lemma {:induction false} TimeoutAnswer(steps: seq<Step>, ss: seq<State>, i: nat)
    requires Run(steps, ss) && i < |steps| && steps[i].WriteTimeout?
    ensures var committed := Count(Commits, ss[i].tw.log) > 0;
            && ss[i + 1].main == Deferred(if committed then Aborted else TimedOut504)
            && Count(Is504, ss[i].tw.log) == 0
            && Count(Is504, ss[i + 1].tw.log) == (if committed then 0 else 1)
            && (committed ==> ss[i + 1].tw.log == ss[i].tw.log)
  {
    RunKeepsInvariant(steps, ss, i);
    RunKeepsInvariant(steps, ss, i + 1);
    assert Enabled(ss[i], steps[i]) && ss[i + 1] == Apply(ss[i], steps[i]);
  }

  /** In no state has more than one header been written explicitly, and the 504 is
      there exactly if the request ended that way. */
  lemma {:induction false} OneHeader(steps: seq<Step>, ss: seq<State>, i: nat)
    requires Run(steps, ss) && i < |ss|
    ensures Count(IsWriteHeader, ss[i].tw.log) <= 1
    ensures Count(Is504, ss[i].tw.log) == 1 <==> TimedOut504 in Outcomes(ss[i].main)
    ensures ss[i].tw.timedOut ==> (Count(Is504, ss[i].tw.log) == 1 <==> Count(Commits, ss[i].tw.log) == 0)
  {
    RunKeepsInvariant(steps, ss, i);
  }

  predicate IsReceive(step: Step) {
    step.SelectResult? || step.DrainReceive?
  }

  function Receives(steps: seq<Step>): nat {
    if steps == [] then 0 else Receives(steps[..|steps| - 1]) + if IsReceive(steps[|steps| - 1]) then 1 else 0
  }

  lemma {:induction false} ReceivesInRun(steps: seq<Step>, ss: seq<State>, i: nat)
    requires Run(steps, ss) && i < |ss|
    ensures Receives(steps[..i]) == if ss[i].worker.Sent? then 1 else 0
  {
    if i > 0 {
      ReceivesInRun(steps, ss, i - 1);
      RunKeepsInvariant(steps, ss, i - 1);
      assert steps[..i][..i - 1] == steps[..i - 1];
      assert Enabled(ss[i - 1], steps[i - 1]) && ss[i] == Apply(ss[i - 1], steps[i - 1]);
    }
  }

  /** The steps that neither the handler nor the clock takes. */
  predicate Internal(step: Step) {
    !step.HandlerCall? && !step.HandlerEnd? && !step.ContextDone?
  }

  /** How many internal steps can be left. */
  function Left(s: State): nat {
    if s.main.Selecting? then 5
    else if s.main.PostTimeout? then 4
    else if s.main.BeforeTimeout? then 3
    else if s.main.Deferred? then 2
    else if s.drain.Waiting? then 1
    else 0
  }

  /** Every internal step brings the end closer; no other step puts it off. */
  lemma {:induction false} StepLowersLeft(s: State, step: Step)
    requires Invariant(s) && Enabled(s, step)
    ensures Internal(step) ==> Left(Apply(s, step)) < Left(s)
    ensures !Internal(step) ==> Left(Apply(s, step)) == Left(s)
  {
  }

  function InternalSteps(steps: seq<Step>): nat {
    if steps == [] then 0
    else InternalSteps(steps[..|steps| - 1]) + if Internal(steps[|steps| - 1]) then 1 else 0
  }

  lemma {:induction false} NextLowersLeft(steps: seq<Step>, ss: seq<State>, k: nat)
    requires Run(steps, ss) && k < |steps|
    ensures (if Internal(steps[k]) then 1 else 0) + Left(ss[k + 1]) <= Left(ss[k])
  {
    RunKeepsInvariant(steps, ss, k);
    assert Enabled(ss[k], steps[k]) && ss[k + 1] == Apply(ss[k], steps[k]);
    StepLowersLeft(ss[k], steps[k]);
  }

  /** In whatever order, a run takes at most as many internal steps as were left. */
  lemma {:induction false} InternalStepsBounded(steps: seq<Step>, ss: seq<State>, i: nat, j: nat)
    requires Run(steps, ss) && i <= j < |ss|
    ensures InternalSteps(steps[i..j]) + Left(ss[j]) <= Left(ss[i])
  {
    if i < j {
      InternalStepsBounded(steps, ss, i, j - 1);
      assert steps[i..j][..j - 1 - i] == steps[i..j - 1];
      NextLowersLeft(steps, ss, j - 1);
    }
  }

  /** The worker is never left blocked: while it sends, some internal step is possible. */
  lemma {:induction false} SendIsNotStuck(steps: seq<Step>, ss: seq<State>, i: nat)
    requires Run(steps, ss) && i < |ss|
    ensures ss[i].worker.Sending? ==> Left(ss[i]) > 0 && exists step | Internal(step) :: Enabled(ss[i], step)
  {
    RunKeepsInvariant(steps, ss, i);
    var step := match ss[i].main
      case Selecting => SelectResult
      case PostTimeout => RunPostTimeoutFn(false)
      case BeforeTimeout => WriteTimeout([])
      case Deferred(_) => StartDrain
      case Exited(_) => DrainReceive;
    assert ss[i].worker.Sending? ==> Internal(step) && Enabled(ss[i], step);
  }

  lemma {:induction false} StepAfterEnd(s: State, step: Step)
    requires Invariant(s) && Enabled(s, step) && !s.worker.Running?
    ensures !Apply(s, step).worker.Running? && (s.worker.Sent? ==> Apply(s, step).worker == s.worker)
  {
  }

  lemma {:induction false} NextAfterEnd(steps: seq<Step>, ss: seq<State>, k: nat)
    requires Run(steps, ss) && k < |steps| && !ss[k].worker.Running?
    ensures !ss[k + 1].worker.Running? && (ss[k].worker.Sent? ==> ss[k + 1].worker == ss[k].worker)
  {
    RunKeepsInvariant(steps, ss, k);
    assert Enabled(ss[k], steps[k]) && ss[k + 1] == Apply(ss[k], steps[k]);
    StepAfterEnd(ss[k], steps[k]);
  }

  lemma {:induction false} EndedStaysEnded(steps: seq<Step>, ss: seq<State>, i: nat, j: nat)
    requires Run(steps, ss) && i <= j < |ss| && !ss[i].worker.Running?
    ensures !ss[j].worker.Running? && (ss[i].worker.Sent? ==> ss[j].worker == ss[i].worker)
  {
    if i < j {
      EndedStaysEnded(steps, ss, i, j - 1);
      NextAfterEnd(steps, ss, j - 1);
    }
  }

  /** Once the handler has ended, its result is received, and exactly once, by the time that
      five internal steps have been taken or none is left to take, whichever steps they are. */
  lemma {:induction false} ResultIsReceived(steps: seq<Step>, ss: seq<State>, i: nat, j: nat)
    requires Run(steps, ss) && i <= j < |ss| && !ss[i].worker.Running?
    requires InternalSteps(steps[i..j]) >= 5 || forall step | Internal(step) :: !Enabled(ss[j], step)
    ensures ss[j].worker.Sent? && Receives(steps[..j]) == 1
  {
    InternalStepsBounded(steps, ss, i, j);
    EndedStaysEnded(steps, ss, i, j);
    RunKeepsInvariant(steps, ss, j);
    ReceivesInRun(steps, ss, j);
    SendIsNotStuck(steps, ss, j);
  }

  /** When nothing internal is left to do after the handler has ended, the result was
      received exactly once: by the select, which passes a panic on, or by the drain. */
  lemma {:induction false} FinalStates(steps: seq<Step>, ss: seq<State>, i: nat)
    requires Run(steps, ss) && i < |ss| && !ss[i].worker.Running?
    requires forall step | Internal(step) :: !Enabled(ss[i], step)
    ensures Receives(steps[..i]) == 1
    ensures ss[i].worker.Sent? && ss[i].main.Exited?
    ensures ss[i].worker.to.BySelect? <==> ss[i].main == Exited(Completed(ss[i].worker.result))
    ensures ss[i].worker.to.ByDrain? <==> ss[i].drain == Drained(ss[i].worker.result)
    ensures ss[i].worker.to.ByDrain? ==> ss[i].contextDone
  {
    RunKeepsInvariant(steps, ss, i);
    ResultIsReceived(steps, ss, i, i);
  }

  /** The writer with its flags does in every run what the protocol says. */
  method FollowRun(steps: seq<Step>, ghost ss: seq<State>) returns (tw: BaseTimeoutWriter)
    requires Run(steps, ss)
    ensures tw.Valid() && tw.State() == ss[|steps|].tw
  {
    tw := new BaseTimeoutWriter();
    for i := 0 to |steps|
      invariant tw.Valid() && tw.State() == ss[i].tw
      invariant fresh(tw)
    {
      assert Enabled(ss[i], steps[i]) && ss[i + 1] == Apply(ss[i], steps[i]);
      match steps[i] {
        case HandlerCall(call) =>
          var _ := tw.Do(call);
        case WriteTimeout(body) =>
          var _ := tw.Timeout(body);
        case _ =>
      }
    }
  }
}
