/** The filter for repeated log messages, which forgets what it has printed once the
delay has passed, compared with one that never forgets. */
module LogReductions {

  /** Any clock whose readings never decrease. */
  class Clock {
    var now: int

    constructor (now: int)
      ensures this.now == now
    {
      this.now := now;
    }

    method Read() returns (t: int)
      modifies this
      ensures old(now) <= now == t
    {
      var passed :| passed >= 0;
      now := now + passed;
      t := now;
    }
  }

  // ----- the filter that never forgets

  datatype Print = Print(message: string, time: int)

  /** A call of the filter.  `checked` is when it decided and `stored` when it had. */
  datatype Event =
    | Asked(id: string, message: string, checked: int, stored: int, printed: bool)
    | Cleared(id: string)

  type Prints = map<string, Print>

  /** A message is due unless it repeats the last one for its ID within the delay. */
  predicate Due(prints: Prints, delay: int, id: string, message: string, now: int) {
    id !in prints || prints[id].message != message || now - prints[id].time >= delay
  }

  function Apply(prints: Prints, delay: int, e: Event): Prints {
    match e
    case Cleared(id) => prints - {id}
    case Asked(id, message, checked, stored, _) =>
      if Due(prints, delay, id, message, checked) then prints[id := Print(message, stored)] else prints
  }

  function Replay(delay: int, history: seq<Event>): Prints {
    if history == [] then map[] else Apply(Replay(delay, history[..|history| - 1]), delay, history[|history| - 1])
  }

  /** The answer that the filter that never forgets would have given. */
  ghost predicate Answered(delay: int, history: seq<Event>, i: nat)
    requires i < |history|
  {
    var e := history[i];
    e.Asked? ==> e.printed == Due(Replay(delay, history[..i]), delay, e.id, e.message, e.checked)
  }

  ghost predicate AllAnswered(delay: int, history: seq<Event>) {
    forall i | 0 <= i < |history| :: Answered(delay, history, i)
  }

  /** The times of the calls follow the clock. */
  ghost predicate Timely(history: seq<Event>, now: int) {
    && (forall i | 0 <= i < |history| && history[i].Asked? :: history[i].checked <= history[i].stored <= now)
    && (forall i, j | 0 <= i < j < |history| && history[i].Asked? && history[j].Asked? ::
          history[i].stored <= history[j].checked)
  }

  /** Nothing between calls `i` and `j` is about this ID except repetitions of the message. */
  ghost predicate Uninterrupted(history: seq<Event>, i: nat, j: nat, id: string, message: string) {
    && i < j <= |history|
    && forall k | i < k < j && history[k].id == id :: history[k].Asked? && history[k].message == message
  }

  /** While nothing interrupts a printed message, it stays on record with its time or a later one. */
  lemma {:induction false} StaysOnRecord(delay: int, history: seq<Event>, now: int, i: nat, j: nat)
    requires Timely(history, now) && AllAnswered(delay, history)
    requires i < |history| && history[i].Asked? && history[i].printed
    requires Uninterrupted(history, i, j, history[i].id, history[i].message)
    ensures var prints := Replay(delay, history[..j]);
            var e := history[i];
            e.id in prints && prints[e.id].message == e.message && prints[e.id].time >= e.stored
    decreases j
  {
    assert history[..j][..j - 1] == history[..j - 1];
    assert Answered(delay, history, i);
    if i < j - 1 {
      assert Uninterrupted(history, i, j - 1, history[i].id, history[i].message);
      StaysOnRecord(delay, history, now, i, j - 1);
    }
  }

  /** Two prints of a message for the same ID, with no other message for it and no clearing
      of it between them, are at least the delay apart. */
  lemma {:induction false} PrintsApart(delay: int, history: seq<Event>, now: int, i: nat, j: nat)
    requires Timely(history, now) && AllAnswered(delay, history)
    requires i < j < |history| && history[i].Asked? && history[j].Asked?
    requires history[i].printed && history[j].printed
    requires history[j].id == history[i].id && history[j].message == history[i].message
    requires Uninterrupted(history, i, j, history[i].id, history[i].message)
    ensures history[j].checked - history[i].stored >= delay
  {
    StaysOnRecord(delay, history, now, i, j);
    assert Answered(delay, history, j);
  }

  /** What is on record for an ID was printed, and nothing has interrupted it since. */
  lemma {:induction false} OnRecordWasPrinted(delay: int, history: seq<Event>, id: string)
    requires AllAnswered(delay, history) && id in Replay(delay, history)
    ensures exists i: nat :: PrintedLast(delay, history, i, id)
  {
    var n := |history| - 1;
    var before := history[..n];
    assert Answered(delay, history, n);
    var e := history[n];
    if e.Asked? && e.printed && e.id == id {
      assert PrintedLast(delay, history, n, id);
    } else {
      forall i | 0 <= i < n
        ensures Answered(delay, before, i)
      {
        assert before[..i] == history[..i];
        assert Answered(delay, history, i);
      }
      OnRecordWasPrinted(delay, before, id);
      var i: nat :| PrintedLast(delay, before, i, id);
      assert PrintedLast(delay, history, i, id);
    }
  }

  ghost predicate PrintedLast(delay: int, history: seq<Event>, i: nat, id: string) {
    && i < |history|
    && history[i].Asked? && history[i].printed && history[i].id == id
    && id in Replay(delay, history)
    && Replay(delay, history)[id] == Print(history[i].message, history[i].stored)
    && Uninterrupted(history, i, |history|, id, history[i].message)
  }

  /** Nothing is lost: a message is withheld only if the same message was printed for its
      ID less than the delay ago, with nothing to interrupt it since. */
  lemma {:induction false} WithheldWasPrinted(delay: int, history: seq<Event>, j: nat)
    requires AllAnswered(delay, history) && j < |history| && history[j].Asked? && !history[j].printed
    ensures exists i: nat :: i < j && PrintedLast(delay, history[..j], i, history[j].id) &&
              history[i].message == history[j].message && history[j].checked - history[i].stored < delay
  {
    var before := history[..j];
    assert Answered(delay, history, j);
    forall i | 0 <= i < j
      ensures Answered(delay, before, i)
    {
      assert before[..i] == history[..i];
      assert Answered(delay, history, i);
    }
    OnRecordWasPrinted(delay, before, history[j].id);
    var i: nat :| PrintedLast(delay, before, i, history[j].id);
    assert history[i] == before[i];
  }

  // ----- the filter that forgets

  /** The two maps are what is left of the record: they have the same keys, and what they
      lack is at least the delay old. */
  ghost predicate Remembers(prints: Prints, lastError: map<string, string>, errorPrinted: map<string, int>,
                            now: int, delay: int)
  {
    && lastError.Keys == errorPrinted.Keys
    && (forall id | id in lastError :: id in prints && prints[id] == Print(lastError[id], errorPrinted[id]))
    && (forall id | id in prints && id !in lastError :: now - prints[id].time >= delay)
  }

  /** What has been forgotten would be due by now anyway. */
  lemma {:induction false} ForgottenIsDue(
    prints: Prints, lastError: map<string, string>, errorPrinted: map<string, int>,
    now: int, delay: int, id: string, message: string)
    requires Remembers(prints, lastError, errorPrinted, now, delay)
    ensures Due(prints, delay, id, message, now) <==>
            !(id in lastError && id in errorPrinted && message == lastError[id]) || now - errorPrinted[id] >= delay
  {
  }

  lemma {:induction false} RemembersNext(
    prints: Prints, lastError: map<string, string>, errorPrinted: map<string, int>,
    now: int, delay: int, e: Event, later: int)
    requires Remembers(prints, lastError, errorPrinted, now, delay)
    requires e.Asked? && e.printed == Due(prints, delay, e.id, e.message, e.checked) && now <= later
    ensures e.printed ==>
              Remembers(Apply(prints, delay, e), lastError[e.id := e.message], errorPrinted[e.id := e.stored],
                        later, delay)
    ensures !e.printed ==> Remembers(Apply(prints, delay, e), lastError, errorPrinted, later, delay)
  {
  }

  lemma {:induction false} HistoryAppend(delay: int, history: seq<Event>, now: int, e: Event, later: int)
    requires Timely(history, now) && AllAnswered(delay, history) && now <= later
    requires e.Asked? ==> now <= e.checked <= e.stored <= later
    requires e.Asked? ==> e.printed == Due(Replay(delay, history), delay, e.id, e.message, e.checked)
    ensures Timely(history + [e], later) && AllAnswered(delay, history + [e])
    ensures Replay(delay, history + [e]) == Apply(Replay(delay, history), delay, e)
  {
    var longer := history + [e];
    assert longer[..|history|] == history;
    forall i | 0 <= i < |longer|
      ensures Answered(delay, longer, i)
    {
      assert longer[..i] == history[..i];
      if i < |history| {
        assert Answered(delay, history, i);
      } else {
        assert history[..i] == history;
      }
    }
  }

  class LogReduction {
    const identicalErrorDelay: int
    const clock: Clock
    var lastError: map<string, string>
    var errorPrinted: map<string, int>

    /** The calls so far. */
    ghost var history: seq<Event>

    /** All answers so far were those of the filter that never forgets. */
    ghost predicate Valid()
      reads this, clock
    {
      && Timely(history, clock.now)
      && AllAnswered(identicalErrorDelay, history)
      && Remembers(Replay(identicalErrorDelay, history), lastError, errorPrinted, clock.now, identicalErrorDelay)
    }

    constructor (identicalErrorDelay: int, clock: Clock)
      ensures Valid() && history == []
      ensures this.identicalErrorDelay == identicalErrorDelay && this.clock == clock
    {
      this.identicalErrorDelay, this.clock := identicalErrorDelay, clock;
      lastError, errorPrinted, history := map[], map[], [];
    }

    /** Forgets all that was at least the delay old before the call, and nothing that is
        not so after it. */
    method CleanupErrorTimeouts()
      requires Valid()
      modifies `lastError, `errorPrinted, clock
      ensures Valid() && old(clock.now) <= clock.now
      ensures errorPrinted.Keys <= old(errorPrinted.Keys)
      ensures forall id | id in errorPrinted :: old(clock.now) - errorPrinted[id] < identicalErrorDelay
    {
      ghost var prints := Replay(identicalErrorDelay, history);
      var todo := errorPrinted.Keys;
      while todo != {}
        invariant Remembers(prints, lastError, errorPrinted, clock.now, identicalErrorDelay)
        invariant old(clock.now) <= clock.now
        invariant todo <= errorPrinted.Keys <= old(errorPrinted.Keys)
        invariant forall id | id in errorPrinted && id !in todo ::
                    old(clock.now) - errorPrinted[id] < identicalErrorDelay
        decreases todo
      {
        var name :| name in todo;
        var timeout := errorPrinted[name];
        var now := clock.Read();
        if now - timeout >= identicalErrorDelay {
          errorPrinted := errorPrinted - {name};
          lastError := lastError - {name};
        }
        todo := todo - {name};
      }
    }

    method ShouldMessageBePrinted(message: string, parentID: string) returns (printed: bool, ghost checked: int)
      requires Valid()
      modifies this, clock
      ensures Valid() && old(clock.now) <= checked <= clock.now
      ensures history == old(history) + [Asked(parentID, message, checked, clock.now, printed)]
    {
      CleanupErrorTimeouts();
      ghost var prints, cleaned := Replay(identicalErrorDelay, history), clock.now;
      printed := IsDue(message, parentID);
      checked := clock.now;
      ghost var kept, keptAt := lastError, errorPrinted;
      if printed {
        var now := clock.Read();
        errorPrinted := errorPrinted[parentID := now];
        lastError := lastError[parentID := message];
      }
      ghost var e := Asked(parentID, message, checked, clock.now, printed);
      RemembersNext(prints, kept, keptAt, checked, identicalErrorDelay, e, clock.now);
      HistoryAppend(identicalErrorDelay, history, cleaned, e, clock.now);
      history := history + [e];
    }

    /** The clock is read only if the message repeats the last one. */
    method IsDue(message: string, parentID: string) returns (due: bool)
      requires Valid()
      modifies clock
      ensures old(clock.now) <= clock.now
      ensures Remembers(Replay(identicalErrorDelay, history), lastError, errorPrinted, clock.now, identicalErrorDelay)
      ensures due == Due(Replay(identicalErrorDelay, history), identicalErrorDelay, parentID, message, clock.now)
    {
      ghost var prints := Replay(identicalErrorDelay, history);
      due := !(parentID in lastError && parentID in errorPrinted && message == lastError[parentID]);
      if !due {
        var now := clock.Read();
        due := now - errorPrinted[parentID] >= identicalErrorDelay;
      }
      ForgottenIsDue(prints, lastError, errorPrinted, clock.now, identicalErrorDelay, parentID, message);
    }

    method ClearID(parentID: string)
      requires Valid()
      modifies this
      ensures Valid() && history == old(history) + [Cleared(parentID)]
      ensures parentID !in lastError
    {
      lastError := lastError - {parentID};
      errorPrinted := errorPrinted - {parentID};
      HistoryAppend(identicalErrorDelay, history, clock.now, Cleared(parentID), clock.now);
      history := history + [Cleared(parentID)];
    }
  }
}
