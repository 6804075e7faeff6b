/** The audit filter: one request passes through it, and a sink sees an event for each
stage of the request that the policy does not omit.

A handler is whatever it does to the response writer and to the audit event that the
filter shares with it, and how it ends. */
module AuditFilter {
  import opened Options

  datatype Stage = RequestReceived | ResponseStarted | ResponseComplete | Panic

  datatype Status = Status(code: int, status: string, reason: string, message: string)

  /** What the sink sees of an event. */
  datatype Record = Record(stage: Stage, status: Option<Status>)

  datatype Action =
    | Write(bytes: seq<int>)
    | WriteHeader(code: int)
    | Hijack
    | Flush
    | CloseNotify
    /** The handler logs its response in the event. */
    | SetStatus(status: Status)

  datatype Ending = Return | Panicking(reason: string)

  datatype Handler = Handler(actions: seq<Action>, ending: Ending)

  const OK := 200
  const SWITCHING_PROTOCOLS := 101
  const INTERNAL_SERVER_ERROR := 500

  const NO_STATUS := Status(0, "", "", "")
  const CONNECTION_CLOSED := Status(OK, "Success", "", "Connection closed early")

  function PanicStatus(reason: string): Status {
    Status(INTERNAL_SERVER_ERROR, "Failure", "InternalError", "APIServer panic'd: " + reason)
  }

  function ToInt32(n: int): int {
    (n + 0x8000_0000) % 0x1_0000_0000 - 0x8000_0000
  }

  // ----- what a handler should make the sink see

  /** The code that an action sends, if it begins a response.  Only a writer that can do
      more than write lets a handler hijack the connection. */
  function Code(fancy: bool, a: Action): Option<int> {
    match a
    case Write(_) => Some(OK)
    case WriteHeader(code) => Some(ToInt32(code))
    case Hijack => if fancy then Some(SWITCHING_PROTOCOLS) else None
    case _ => None
  }

  predicate Wrote(fancy: bool, actions: seq<Action>) {
    exists i | 0 <= i < |actions| :: Code(fancy, actions[i]).Some?
  }

  function FirstWrite(fancy: bool, actions: seq<Action>): (k: nat)
    ensures k <= |actions|
    ensures k < |actions| ==> Code(fancy, actions[k]).Some?
    ensures forall j | 0 <= j < k :: Code(fancy, actions[j]).None?
  {
    if actions == [] then 0
    else
      var n := |actions| - 1;
      var k := FirstWrite(fancy, actions[..n]);
      if k < n || Code(fancy, actions[n]).Some? then k else |actions|
  }

  function WithCode(status: Option<Status>, code: int): Status {
    (if status.Some? then status.value else NO_STATUS).(code := code)
  }

  /** The status in the event after some actions: the last one that the handler set, with
      the code of the first write if that came later. */
  function StatusAfter(fancy: bool, actions: seq<Action>): Option<Status> {
    if actions == [] then None
    else
      var n := |actions| - 1;
      var before := StatusAfter(fancy, actions[..n]);
      var a := actions[n];
      if a.SetStatus? then Some(a.status)
      else if FirstWrite(fancy, actions) == n then Some(WithCode(before, Code(fancy, a).value))
      else before
  }

  /** The event for the first write, with the status that the write left. */
  function Started(fancy: bool, actions: seq<Action>): seq<Record> {
    if actions == [] then []
    else
      var n := |actions| - 1;
      if FirstWrite(fancy, actions) == n then [Record(ResponseStarted, StatusAfter(fancy, actions))]
      else Started(fancy, actions[..n])
  }

  /** The end of a request whose event then has a status, or none. */
  function Finished(status: Option<Status>, longRunning: bool, ending: Ending): seq<Record> {
    match ending
    case Panicking(reason) => [Record(Panic, Some(PanicStatus(reason)))]
    case Return =>
      if status.Some? then [Record(ResponseComplete, status)]
      else
        (if longRunning then [Record(ResponseStarted, Some(CONNECTION_CLOSED))] else [])
        + [Record(ResponseComplete, Some(CONNECTION_CLOSED))]
  }

  /** All stages of an admitted request. */
  function Trail(fancy: bool, longRunning: bool, h: Handler): seq<Record> {
    [Record(RequestReceived, None)]
    + (if longRunning then Started(fancy, h.actions) else [])
    + Finished(StatusAfter(fancy, h.actions), longRunning, h.ending)
  }

  function Kept(records: seq<Record>, omitted: seq<Stage>): seq<Record> {
    if records == [] then []
    else
      var n := |records| - 1;
      Kept(records[..n], omitted) + if records[n].stage in omitted then [] else [records[n]]
  }

  /** The codes: 200 for a write, 101 for a hijack of a writer that allows it, and for a header
      the one number of 32 bits with a sign that agrees with its code in the last 32 bits. */
  lemma {:induction false} CodeExactly(fancy: bool, a: Action)
    ensures Code(fancy, a).Some? <==> a.Write? || a.WriteHeader? || (a.Hijack? && fancy)
    ensures a.Write? ==> Code(fancy, a) == Some(200)
    ensures a.Hijack? && fancy ==> Code(fancy, a) == Some(101)
    ensures a.WriteHeader? ==>
              var c := Code(fancy, a).value;
              -0x8000_0000 <= c < 0x8000_0000 && (c - a.code) % 0x1_0000_0000 == 0
  {
    if a.WriteHeader? {
      var n := a.code + 0x8000_0000;
      assert n == n / 0x1_0000_0000 * 0x1_0000_0000 + n % 0x1_0000_0000;
    }
  }

  // ----- the trail

  lemma {:induction false} StatusAppears(fancy: bool, actions: seq<Action>)
    ensures StatusAfter(fancy, actions).Some? <==>
            Wrote(fancy, actions) || exists i | 0 <= i < |actions| :: actions[i].SetStatus?
  {
    if actions != [] {
      var n := |actions| - 1;
      StatusAppears(fancy, actions[..n]);
      if Wrote(fancy, actions[..n]) {
        var i :| 0 <= i < n && Code(fancy, actions[..n][i]).Some?;
        assert Code(fancy, actions[i]).Some?;
      }
    }
  }

  lemma {:induction false} WroteExactly(fancy: bool, actions: seq<Action>)
    ensures Wrote(fancy, actions) <==>
            exists i | 0 <= i < |actions| ::
              actions[i].Write? || actions[i].WriteHeader? || (actions[i].Hijack? && fancy)
  {
    forall i | 0 <= i < |actions| {
      CodeExactly(fancy, actions[i]);
    }
  }

  lemma {:induction false} StartedMeans(fancy: bool, actions: seq<Action>)
    ensures var k := FirstWrite(fancy, actions);
            Started(fancy, actions) ==
            if k < |actions| then [Record(ResponseStarted, StatusAfter(fancy, actions[..k + 1]))] else []
  {
    if actions != [] {
      var n, k := |actions| - 1, FirstWrite(fancy, actions);
      if k == n {
        assert actions[..k + 1] == actions;
      } else {
        StartedMeans(fancy, actions[..n]);
        if k < n {
          assert actions[..n][..k + 1] == actions[..k + 1];
        }
      }
    }
  }

  /** Every trail begins with RequestReceived and ends with exactly one of ResponseComplete
      and Panic.  Between them is at most ResponseStarted, and it is there exactly for a
      long-running request whose handler began a response, or returned having neither
      begun one nor logged one. */
  lemma {:induction false} TrailShape(fancy: bool, longRunning: bool, h: Handler)
    ensures var t := Trail(fancy, longRunning, h);
            && 2 <= |t| <= 3
            && t[0] == Record(RequestReceived, None)
            && t[|t| - 1].stage == (if h.ending.Panicking? then Panic else ResponseComplete)
            && t[|t| - 1].status.Some?
            && (h.ending.Panicking? ==>
                  t[|t| - 1].status ==
                  Some(Status(500, "Failure", "InternalError", "APIServer panic'd: " + h.ending.reason)))
            && (|t| == 3 ==> t[1].stage == ResponseStarted && t[1].status.Some?)
            && (|t| == 3 <==>
                longRunning &&
                ((exists i | 0 <= i < |h.actions| ::
                    h.actions[i].Write? || h.actions[i].WriteHeader? || (h.actions[i].Hijack? && fancy)) ||
                 (h.ending.Return? && forall i | 0 <= i < |h.actions| :: !h.actions[i].SetStatus?)))
  {
    StatusAppears(fancy, h.actions);
    StartedMeans(fancy, h.actions);
    WroteExactly(fancy, h.actions);
    var k := FirstWrite(fancy, h.actions);
    if k < |h.actions| {
      StatusAppears(fancy, h.actions[..k + 1]);
      assert Code(fancy, h.actions[..k + 1][k]).Some?;
    }
  }

  ghost predicate LastSet(actions: seq<Action>, i: nat) {
    i < |actions| && actions[i].SetStatus? && forall j | i < j < |actions| :: !actions[j].SetStatus?
  }

  /** The last status that a handler logs is what the event holds, with the code of the
      response if that begins later. */
  lemma {:induction false} StatusByLastSet(fancy: bool, actions: seq<Action>, i: nat)
    requires LastSet(actions, i)
    ensures var k := FirstWrite(fancy, actions);
            StatusAfter(fancy, actions) ==
            Some(if i < k < |actions| then WithCode(Some(actions[i].status), Code(fancy, actions[k]).value)
                 else actions[i].status)
  {
    var n := |actions| - 1;
    if i < n {
      assert LastSet(actions[..n], i);
      StatusByLastSet(fancy, actions[..n], i);
    }
  }

  /** A handler that logs none leaves the code that its response began with. */
  lemma {:induction false} StatusUnset(fancy: bool, actions: seq<Action>)
    requires forall j | 0 <= j < |actions| :: !actions[j].SetStatus?
    ensures var k := FirstWrite(fancy, actions);
            StatusAfter(fancy, actions) ==
            if k < |actions| then Some(WithCode(None, Code(fancy, actions[k]).value)) else None
  {
    if actions != [] {
      StatusUnset(fancy, actions[..|actions| - 1]);
    }
  }

  /** Once a response has begun, its status changes only when the handler logs another. */
  lemma {:induction false} StatusKept(fancy: bool, actions: seq<Action>, k: nat)
    requires FirstWrite(fancy, actions) == k < |actions|
    ensures (forall j | k < j < |actions| :: !actions[j].SetStatus?) ==>
              StatusAfter(fancy, actions) == StatusAfter(fancy, actions[..k + 1])
    ensures forall i: nat | k < i && LastSet(actions, i) :: StatusAfter(fancy, actions) == Some(actions[i].status)
  {
    forall i: nat | k < i && LastSet(actions, i)
      ensures StatusAfter(fancy, actions) == Some(actions[i].status)
    {
      StatusByLastSet(fancy, actions, i);
    }
    NoneSetAfter(fancy, actions, k);
  }

  lemma {:induction false} NoneSetAfter(fancy: bool, actions: seq<Action>, k: nat)
    requires FirstWrite(fancy, actions) == k < |actions|
    ensures (forall j | k < j < |actions| :: !actions[j].SetStatus?) ==>
              StatusAfter(fancy, actions) == StatusAfter(fancy, actions[..k + 1])
  {
    var n := |actions| - 1;
    if k < n {
      NoneSetAfter(fancy, actions[..n], k);
      assert actions[..n][..k + 1] == actions[..k + 1];
    } else {
      assert actions[..k + 1] == actions;
    }
  }

  /** What ResponseComplete reports for a handler that returns: the last status that the
      handler logged, with the code that the response began with if it began after that;
      without any, that code alone, or success if no response began.  ResponseStarted, if
      the response began, reports the same unless the handler logs a status afterwards. */
  lemma {:induction false} ReportedStatus(fancy: bool, longRunning: bool, h: Handler)
    requires h.ending.Return?
    ensures var t := Trail(fancy, longRunning, h);
            var k := FirstWrite(fancy, h.actions);
            var reported := t[|t| - 1].status;
            && reported.Some?
            && (forall i: nat | LastSet(h.actions, i) ::
                  reported == Some(if i < k < |h.actions|
                                   then h.actions[i].status.(code := Code(fancy, h.actions[k]).value)
                                   else h.actions[i].status))
            && ((forall j | 0 <= j < |h.actions| :: !h.actions[j].SetStatus?) ==>
                  reported == Some(if k < |h.actions| then Status(Code(fancy, h.actions[k]).value, "", "", "")
                                   else Status(200, "Success", "", "Connection closed early")))
            && (longRunning && k < |h.actions| && (forall j | k < j < |h.actions| :: !h.actions[j].SetStatus?) ==>
                  |t| == 3 && t[1].status == reported)
  {
    FinalStatus(fancy, longRunning, h);
    forall i: nat | LastSet(h.actions, i)
      ensures var k := FirstWrite(fancy, h.actions);
              StatusAfter(fancy, h.actions) ==
              Some(if i < k < |h.actions| then WithCode(Some(h.actions[i].status), Code(fancy, h.actions[k]).value)
                   else h.actions[i].status)
    {
      StatusByLastSet(fancy, h.actions, i);
    }
    if forall j | 0 <= j < |h.actions| :: !h.actions[j].SetStatus? {
      StatusUnset(fancy, h.actions);
    }
    StartedStatus(fancy, h);
  }

  /** ResponseStarted and ResponseComplete agree unless the handler logs a status in between. */
  lemma {:induction false} StartedStatus(fancy: bool, h: Handler)
    requires h.ending.Return?
    ensures var t := Trail(fancy, true, h);
            var k := FirstWrite(fancy, h.actions);
            k < |h.actions| && (forall j | k < j < |h.actions| :: !h.actions[j].SetStatus?) ==>
              |t| == 3 && t[1].status == t[2].status
  {
    var k := FirstWrite(fancy, h.actions);
    StartedMeans(fancy, h.actions);
    if k < |h.actions| {
      NoneSetAfter(fancy, h.actions, k);
      BeginsWithCode(fancy, h.actions, k);
    }
  }

  lemma {:induction false} FinalStatus(fancy: bool, longRunning: bool, h: Handler)
    requires h.ending.Return?
    ensures var t := Trail(fancy, longRunning, h);
            var status := StatusAfter(fancy, h.actions);
            t != [] && t[|t| - 1] == Record(ResponseComplete, if status.Some? then status else Some(CONNECTION_CLOSED))
  {
  }

  lemma {:induction false} BeginsWithCode(fancy: bool, actions: seq<Action>, k: nat)
    requires FirstWrite(fancy, actions) == k < |actions|
    ensures StatusAfter(fancy, actions[..k + 1]).Some?
    ensures StatusAfter(fancy, actions[..k + 1]).value.code == Code(fancy, actions[k]).value
    ensures FirstWrite(fancy, actions[..k + 1]) == k
  {
    var upTo := actions[..k + 1];
    assert upTo[k] == actions[k];
    var first := FirstWrite(fancy, upTo);
    assert forall j | 0 <= j < k :: upTo[j] == actions[j];
    assert first == k;
    assert StatusAfter(fancy, upTo) == Some(WithCode(StatusAfter(fancy, upTo[..k]), Code(fancy, upTo[k]).value));
  }

  lemma {:induction false} KeptAppend(a: seq<Record>, b: seq<Record>, omitted: seq<Stage>)
    ensures Kept(a + b, omitted) == Kept(a, omitted) + Kept(b, omitted)
  {
    if b == [] {
      assert a + b == a;
    } else {
      var n := |b| - 1;
      assert (a + b)[..|a| + n] == a + b[..n];
      KeptAppend(a, b[..n], omitted);
    }
  }

  lemma {:induction false} KeptOne(r: Record, omitted: seq<Stage>)
    ensures Kept([r], omitted) == if r.stage in omitted then [] else [r]
  {
    assert [r][..0] == [];
    assert Kept([], omitted) == [];
  }

  /** Omission takes away all records of the omitted stages and no other. */
  lemma {:induction false} KeptExactly(records: seq<Record>, omitted: seq<Stage>, r: Record)
    ensures multiset(Kept(records, omitted))[r] == if r.stage in omitted then 0 else multiset(records)[r]
  {
    if records != [] {
      var n := |records| - 1;
      assert records == records[..n] + [records[n]];
      KeptExactly(records[..n], omitted, r);
    }
  }

  // ----- the filter

  /** Takes events and says whether it could process each. */
  class Sink {
    const answers: nat -> bool
    var log: seq<Record>

    constructor (answers: nat -> bool)
      ensures this.answers == answers && log == []
    {
      this.answers, log := answers, [];
    }

    method ProcessEvents(r: Record) returns (ok: bool)
      modifies this
      ensures log == old(log) + [r]
      ensures ok == answers(|old(log)|)
    {
      ok := answers(|log|);
      log := log + [r];
    }
  }

  class Event {
    var stage: Stage
    var responseStatus: Option<Status>

    constructor ()
      ensures stage == RequestReceived && responseStatus == None
    {
      stage, responseStatus := RequestReceived, None;
    }
  }

  method ProcessAuditEvent(sink: Sink, ev: Event, omitStages: seq<Stage>) returns (processed: bool)
    modifies sink
    ensures sink.log == old(sink.log) + Kept([Record(ev.stage, ev.responseStatus)], omitStages)
    ensures processed == (ev.stage in omitStages || sink.answers(|old(sink.log)|))
  {
    KeptOne(Record(ev.stage, ev.responseStatus), omitStages);
    for i := 0 to |omitStages|
      modifies {}
      invariant ev.stage !in omitStages[..i]
    {
      if ev.stage == omitStages[i] {
        return true;
      }
    }
    assert omitStages[..|omitStages|] == omitStages;
    processed := sink.ProcessEvents(Record(ev.stage, ev.responseStatus));
  }

  /** The calls that a response writer offers: any can be written to, and only a fancy one can
      also be flushed, hijacked and asked to notify. */
  predicate Offers(fancy: bool, a: Action) {
    match a
    case Write(_) => true
    case WriteHeader(_) => true
    case SetStatus(_) => false
    case _ => fancy
  }

  /** What a response writer has seen of a handler, and what the sink has seen. */
  datatype Watch = Watch(once: bool, status: Option<Status>, log: seq<Record>, response: seq<Action>)

  function Next(fancy: bool, longRunning: bool, omitted: seq<Stage>, w: Watch, a: Action): Watch {
    var begins := Code(fancy, a).Some? && !w.once;
    var status :=
      if a.SetStatus? then Some(a.status)
      else if begins then Some(WithCode(w.status, Code(fancy, a).value))
      else w.status;
    Watch(
      w.once || begins,
      status,
      w.log + (if begins && longRunning && ResponseStarted !in omitted then [Record(ResponseStarted, status)] else []),
      w.response + (if Offers(fancy, a) then [a] else []))
  }

  function After(fancy: bool, longRunning: bool, omitted: seq<Stage>, w: Watch, actions: seq<Action>): Watch {
    if actions == [] then w
    else
      var n := |actions| - 1;
      Next(fancy, longRunning, omitted, After(fancy, longRunning, omitted, w, actions[..n]), actions[n])
  }

  /** What there is to see of a handler as a whole. */
  function Watched(fancy: bool, longRunning: bool, omitted: seq<Stage>, log: seq<Record>, actions: seq<Action>): Watch {
    Watch(
      FirstWrite(fancy, actions) < |actions|,
      StatusAfter(fancy, actions),
      log + (if longRunning then Kept(Started(fancy, actions), omitted) else []),
      Forwarded(fancy, actions))
  }

  lemma {:induction false} NextWatched(fancy: bool, longRunning: bool, omitted: seq<Stage>, log: seq<Record>,
                                       before: seq<Action>, a: Action)
    ensures Next(fancy, longRunning, omitted, Watched(fancy, longRunning, omitted, log, before), a) ==
            Watched(fancy, longRunning, omitted, log, before + [a])
  {
    FirstWriteAppend(fancy, before, a);
    StatusAppend(fancy, before, a);
    KeptAppended(fancy, before, a, omitted);
    ForwardedAppend(fancy, before, a);
  }

  /** Watching a handler one action at a time shows what it did as a whole. */
  lemma {:induction false} AfterMeans(fancy: bool, longRunning: bool, omitted: seq<Stage>, log: seq<Record>,
                                      actions: seq<Action>)
    ensures After(fancy, longRunning, omitted, Watch(false, None, log, []), actions) ==
            Watched(fancy, longRunning, omitted, log, actions)
  {
    if actions != [] {
      var n := |actions| - 1;
      AfterMeans(fancy, longRunning, omitted, log, actions[..n]);
      NextWatched(fancy, longRunning, omitted, log, actions[..n], actions[n]);
      assert actions == actions[..n] + [actions[n]];
    }
  }

  /** Watches for the beginning of the response. */
  class AuditResponseWriter {
    const event: Event
    const sink: Sink
    const longRunning: bool
    const fancy: bool
    const omitStages: seq<Stage>
    var once: bool

    /** The calls that have reached the underlying writer. */
    var response: seq<Action>

    constructor (event: Event, sink: Sink, longRunning: bool, fancy: bool, omitStages: seq<Stage>)
      ensures this.event == event && this.sink == sink && this.longRunning == longRunning
      ensures this.fancy == fancy && this.omitStages == omitStages
      ensures !once && response == []
    {
      this.event, this.sink, this.longRunning, this.fancy := event, sink, longRunning, fancy;
      this.omitStages, once, response := omitStages, false, [];
    }

    method ProcessCode(code: int)
      modifies `once, event, sink
      ensures once
      ensures old(once) ==> unchanged(event) && unchanged(sink)
      ensures !old(once) ==>
                && event.responseStatus == Some(WithCode(old(event.responseStatus), ToInt32(code)))
                && sink.log == old(sink.log) +
                   if longRunning && ResponseStarted !in omitStages
                   then [Record(ResponseStarted, event.responseStatus)] else []
    {
      if !once {
        if event.responseStatus == None {
          event.responseStatus := Some(NO_STATUS);
        }
        event.responseStatus := Some(event.responseStatus.value.(code := ToInt32(code)));
        event.stage := ResponseStarted;
        if longRunning {
          KeptOne(Record(event.stage, event.responseStatus), omitStages);
          var _ := ProcessAuditEvent(sink, event, omitStages);
        }
        once := true;
      }
    }

    ghost function Seen(log: seq<Record>): Watch
      reads this, event
    {
      Watch(once, event.responseStatus, log, response)
    }

    /** One action of the handler. */
    method Do(a: Action)
      modifies this, event, sink
      ensures Seen(sink.log) == Next(fancy, longRunning, omitStages, old(Seen(sink.log)), a)
    {
      match a {
        case Write(_) =>
          ProcessCode(OK);
          response := response + [a];
        case WriteHeader(code) =>
          ProcessCode(code);
          response := response + [a];
        case Hijack =>
          if fancy {
            ProcessCode(SWITCHING_PROTOCOLS);
            response := response + [a];
          }
        case SetStatus(status) =>
          event.responseStatus := Some(status);
        case _ =>
          if fancy {
            response := response + [a];
          }
      }
    }

    /** The handler, up to its end. */
    method ServeHTTP(actions: seq<Action>)
      requires !once && event.responseStatus == None && response == []
      modifies this, event, sink
      ensures event.responseStatus == StatusAfter(fancy, actions)
      ensures sink.log == old(sink.log) + if longRunning then Kept(Started(fancy, actions), omitStages) else []
      ensures response == Forwarded(fancy, actions)
    {
      ghost var start := Seen(sink.log);
      for i := 0 to |actions|
        invariant Seen(sink.log) == After(fancy, longRunning, omitStages, start, actions[..i])
      {
        assert actions[..i + 1][..i] == actions[..i];
        Do(actions[i]);
      }
      assert actions[..|actions|] == actions;
      AfterMeans(fancy, longRunning, omitStages, start.log, actions);
    }
  }

  /** The calls that reach the underlying writer: all that the writer offers. */
  function Forwarded(fancy: bool, actions: seq<Action>): seq<Action> {
    if actions == [] then []
    else
      var n := |actions| - 1;
      Forwarded(fancy, actions[..n]) +
      if Offers(fancy, actions[n]) then [actions[n]] else []
  }

  lemma {:induction false} FirstWriteAppend(fancy: bool, before: seq<Action>, a: Action)
    ensures FirstWrite(fancy, before + [a]) ==
            if FirstWrite(fancy, before) < |before| || Code(fancy, a).Some? then FirstWrite(fancy, before)
            else |before| + 1
  {
    assert (before + [a])[..|before|] == before;
  }

  lemma {:induction false} StatusAppend(fancy: bool, before: seq<Action>, a: Action)
    ensures StatusAfter(fancy, before + [a]) ==
            if a.SetStatus? then Some(a.status)
            else if Code(fancy, a).Some? && FirstWrite(fancy, before) == |before|
            then Some(WithCode(StatusAfter(fancy, before), Code(fancy, a).value))
            else StatusAfter(fancy, before)
  {
    FirstWriteAppend(fancy, before, a);
    assert (before + [a])[..|before|] == before;
  }

  lemma {:induction false} StartedAppend(fancy: bool, before: seq<Action>, a: Action)
    ensures Started(fancy, before + [a]) ==
            if Code(fancy, a).Some? && FirstWrite(fancy, before) == |before|
            then [Record(ResponseStarted, StatusAfter(fancy, before + [a]))]
            else Started(fancy, before)
  {
    FirstWriteAppend(fancy, before, a);
    assert (before + [a])[..|before|] == before;
  }

  lemma {:induction false} KeptAppended(fancy: bool, before: seq<Action>, a: Action, omitted: seq<Stage>)
    ensures Kept(Started(fancy, before + [a]), omitted) ==
            Kept(Started(fancy, before), omitted) +
            if Code(fancy, a).Some? && FirstWrite(fancy, before) == |before| && ResponseStarted !in omitted
            then [Record(ResponseStarted, StatusAfter(fancy, before + [a]))]
            else []
  {
    StartedAppend(fancy, before, a);
    if Code(fancy, a).Some? && FirstWrite(fancy, before) == |before| {
      StartedMeans(fancy, before);
      assert Kept(Started(fancy, before), omitted) == [];
      KeptOne(Record(ResponseStarted, StatusAfter(fancy, before + [a])), omitted);
    }
  }

  /** The response is what the handler calls, in order: all writes and headers and, if the writer
      is fancy, the other calls. */
  lemma {:induction false} ForwardedExactly(fancy: bool, before: seq<Action>, a: Action)
    ensures Forwarded(fancy, []) == []
    ensures Forwarded(fancy, before + [a]) ==
            Forwarded(fancy, before) +
            if a.Write? || a.WriteHeader? || (fancy && (a.Hijack? || a.Flush? || a.CloseNotify?)) then [a] else []
  {
    ForwardedAppend(fancy, before, a);
  }

  lemma {:induction false} ForwardedAppend(fancy: bool, before: seq<Action>, a: Action)
    ensures Forwarded(fancy, before + [a]) ==
            Forwarded(fancy, before) + if Offers(fancy, a) then [a] else []
  {
    assert (before + [a])[..|before|] == before;
  }

  /** What came of the request: the handler ran to its end, or never ran and the filter
      answered with an internal error. */
  datatype Outcome = Ran(ending: Ending, response: seq<Action>) | InternalError

  /** How the event was created: not at all if the request's attributes are missing, and
      not for requests that the policy does not audit. */
  datatype Creation = Failed | NotAudited | Created(omitStages: seq<Stage>)

  method WithAudit(sink: Sink, creation: Creation, longRunning: bool, fancy: bool, h: Handler)
    returns (outcome: Outcome)
    modifies sink
    ensures !creation.Created? ==> sink.log == old(sink.log)
    ensures creation.Failed? ==> outcome == InternalError
    ensures creation.NotAudited? ==> outcome == Ran(h.ending, Forwarded(true, h.actions))
    ensures creation.Created? ==>
              var admitted := RequestReceived in creation.omitStages || sink.answers(|old(sink.log)|);
              && outcome == (if admitted then Ran(h.ending, Forwarded(fancy, h.actions)) else InternalError)
              && sink.log == old(sink.log) +
                 if admitted then Kept(Trail(fancy, longRunning, h), creation.omitStages)
                 else [Record(RequestReceived, None)]
  {
    if creation.Failed? {
      return InternalError;
    }
    if creation.NotAudited? {
      return Ran(h.ending, Forwarded(true, h.actions));
    }
    var ev := new Event();
    KeptOne(Record(RequestReceived, None), creation.omitStages);
    var processed := ProcessAuditEvent(sink, ev, creation.omitStages);
    if !processed {
      return InternalError;
    }
    var response := ServeAudited(sink, ev, longRunning, fancy, creation.omitStages, h);
    TrailKept(fancy, longRunning, h, creation.omitStages, old(sink.log));
    return Ran(h.ending, response);
  }

  method ServeAudited(sink: Sink, ev: Event, longRunning: bool, fancy: bool, omitStages: seq<Stage>, h: Handler)
    returns (response: seq<Action>)
    requires ev.responseStatus == None
    modifies sink, ev
    ensures response == Forwarded(fancy, h.actions)
    ensures sink.log == old(sink.log)
                        + (if longRunning then Kept(Started(fancy, h.actions), omitStages) else [])
                        + Kept(Finished(StatusAfter(fancy, h.actions), longRunning, h.ending), omitStages)
  {
    var respWriter := new AuditResponseWriter(ev, sink, longRunning, fancy, omitStages);
    respWriter.ServeHTTP(h.actions);
    Finish(sink, ev, longRunning, omitStages, h.ending);
    return respWriter.response;
  }

  lemma {:induction false} TrailKept(fancy: bool, longRunning: bool, h: Handler, omitted: seq<Stage>, log: seq<Record>)
    ensures log + Kept(Trail(fancy, longRunning, h), omitted) ==
            log
            + Kept([Record(RequestReceived, None)], omitted)
            + (if longRunning then Kept(Started(fancy, h.actions), omitted) else [])
            + Kept(Finished(StatusAfter(fancy, h.actions), longRunning, h.ending), omitted)
  {
    var received := [Record(RequestReceived, None)];
    var started := if longRunning then Started(fancy, h.actions) else [];
    KeptAppend(received + started, Finished(StatusAfter(fancy, h.actions), longRunning, h.ending), omitted);
    KeptAppend(received, started, omitted);
  }

  lemma {:induction false} FinishedKept(status: Option<Status>, longRunning: bool, omitted: seq<Stage>,
                                        log: seq<Record>)
    ensures log + Kept(Finished(status, longRunning, Return), omitted) ==
            (if status.None? && longRunning then log + Kept([Record(ResponseStarted, Some(CONNECTION_CLOSED))], omitted)
             else log)
            + Kept([Record(ResponseComplete, if status.None? then Some(CONNECTION_CLOSED) else status)], omitted)
  {
    KeptAppend([Record(ResponseStarted, Some(CONNECTION_CLOSED))],
               [Record(ResponseComplete, Some(CONNECTION_CLOSED))], omitted);
  }

  /** What is deferred until the handler is left, by return or by panic. */
  method Finish(sink: Sink, ev: Event, longRunning: bool, omitStages: seq<Stage>, ending: Ending)
    modifies sink, ev
    ensures sink.log == old(sink.log) + Kept(Finished(old(ev.responseStatus), longRunning, ending), omitStages)
  {
    if ending.Panicking? {
      ev.stage := Panic;
      ev.responseStatus := Some(PanicStatus(ending.reason));
      var _ := ProcessAuditEvent(sink, ev, omitStages);
      return;
    }
    FinishedKept(ev.responseStatus, longRunning, omitStages, sink.log);
    if ev.responseStatus == None && longRunning {
      ev.responseStatus := Some(CONNECTION_CLOSED);
      ev.stage := ResponseStarted;
      var _ := ProcessAuditEvent(sink, ev, omitStages);
    }
    ev.stage := ResponseComplete;
    if ev.responseStatus == None {
      ev.responseStatus := Some(CONNECTION_CLOSED);
    }
    var _ := ProcessAuditEvent(sink, ev, omitStages);
  }
}
