/** The recorder of Warning headers (code 299, section 5.5.7 of RFC 7234).

Warnings are deduplicated by text.  When their texts would exceed a budget of
runes, the recorder switches for good to truncating every text, and replays what
it has recorded so far.  Texts are sequences of runes.
*/
module WarningRecording {
  import opened Options

  const TRUNCATE_AT_TOTAL_RUNES := 4 * 1024
  const TRUNCATE_ITEM_RUNES := 256

  datatype Warning = Warning(agent: string, text: string)

  /** The header value for an agent and a text, if they are acceptable. */
  type HeaderFunc = (string, string) -> Option<string>

  // ----- headers as a function of what was recorded

  function Truncated(text: string): string {
    if |text| > TRUNCATE_ITEM_RUNES then text[..TRUNCATE_ITEM_RUNES] else text
  }

  function Shown(text: string, truncating: bool): string {
    if truncating then Truncated(text) else text
  }

  function Headers(f: HeaderFunc, ws: seq<Warning>, truncating: bool): seq<string> {
    if ws == [] then []
    else
      var w := ws[|ws| - 1];
      var rest := Headers(f, ws[..|ws| - 1], truncating);
      var h := f(w.agent, Shown(w.text, truncating));
      if h.Some? then rest + [h.value] else rest
  }

  /** The runes of text in those headers. */
  function Runes(f: HeaderFunc, ws: seq<Warning>, truncating: bool): nat {
    if ws == [] then 0
    else
      var w := ws[|ws| - 1];
      var rest := Runes(f, ws[..|ws| - 1], truncating);
      if f(w.agent, Shown(w.text, truncating)).Some? then rest + |Shown(w.text, truncating)| else rest
  }

  lemma {:induction false} HeadersAppend(f: HeaderFunc, ws: seq<Warning>, w: Warning, truncating: bool)
    ensures var h := f(w.agent, Shown(w.text, truncating));
            && Headers(f, ws + [w], truncating) ==
               Headers(f, ws, truncating) + (if h.Some? then [h.value] else [])
            && Runes(f, ws + [w], truncating) ==
               Runes(f, ws, truncating) + (if h.Some? then |Shown(w.text, truncating)| else 0)
  {
    assert (ws + [w])[..|ws|] == ws;
  }

  /** Headers and runes, warning by warning: each that makes a header adds it and the runes of
      its text, which in the truncating mode is cut after 256. */
  lemma {:induction false} HeadersByWarning(f: HeaderFunc, ws: seq<Warning>, w: Warning, truncating: bool)
    ensures Headers(f, [], truncating) == [] && Runes(f, [], truncating) == 0
    ensures var shown := if truncating && |w.text| > 256 then w.text[..256] else w.text;
            var h := f(w.agent, shown);
            && Headers(f, ws + [w], truncating) == Headers(f, ws, truncating) + (if h.Some? then [h.value] else [])
            && Runes(f, ws + [w], truncating) == Runes(f, ws, truncating) + (if h.Some? then |shown| else 0)
  {
    HeadersAppend(f, ws, w, truncating);
  }

  // ----- the first warning with each text

  function Texts(ws: seq<Warning>): set<string> {
    set i | 0 <= i < |ws| :: ws[i].text
  }

  lemma {:induction false} TextsAppend(ws: seq<Warning>, w: Warning)
    ensures Texts(ws + [w]) == Texts(ws) + {w.text}
  {
    var both := ws + [w];
    assert forall i | 0 <= i < |ws| :: both[i] == ws[i];
    assert both[|ws|] == w;
  }

  ghost predicate NoDuplicateText(ws: seq<Warning>) {
    forall i, j | 0 <= i < j < |ws| :: ws[i].text != ws[j].text
  }

  /** The calls whose text is neither empty nor a repetition. */
  function FirstCalls(calls: seq<Warning>): seq<Warning> {
    if calls == [] then []
    else
      var w := calls[|calls| - 1];
      var rest := FirstCalls(calls[..|calls| - 1]);
      if w.text == "" || w.text in Texts(rest) then rest else rest + [w]
  }

  lemma {:induction false} FirstCallsAppend(calls: seq<Warning>, w: Warning)
    ensures FirstCalls(calls + [w]) ==
            FirstCalls(calls) + if w.text == "" || w.text in Texts(FirstCalls(calls)) then [] else [w]
  {
    assert (calls + [w])[..|calls|] == calls;
  }

  ghost predicate Said(calls: seq<Warning>, text: string) {
    exists i | 0 <= i < |calls| :: calls[i].text == text
  }

  lemma {:induction false} FirstCallsSaid(calls: seq<Warning>, text: string)
    ensures text in Texts(FirstCalls(calls)) <==> text != "" && Said(calls, text)
  {
    if calls != [] {
      var n := |calls| - 1;
      FirstCallsSaid(calls[..n], text);
      SaidNext(calls, text);
      FirstCallsSaid(calls[..n], calls[n].text);
      TextsAppend(FirstCalls(calls[..n]), calls[n]);
    }
  }

  lemma {:induction false} SaidNext(calls: seq<Warning>, text: string)
    requires calls != []
    ensures Said(calls, text) <==> Said(calls[..|calls| - 1], text) || calls[|calls| - 1].text == text
  {
    var n := |calls| - 1;
    if Said(calls[..n], text) {
      var i :| 0 <= i < n && calls[..n][i].text == text;
      assert calls[i].text == text;
    }
    if i :| 0 <= i < |calls| && calls[i].text == text {
      if i < n {
        assert calls[..n][i].text == text;
      }
    }
  }

  /** Of all calls, in order, those whose text is not empty and was not said before. */
  lemma {:induction false} FirstCallsExactly(calls: seq<Warning>, w: Warning)
    ensures FirstCalls([]) == []
    ensures FirstCalls(calls + [w]) == FirstCalls(calls) + if w.text == "" || Said(calls, w.text) then [] else [w]
  {
    FirstCallsAppend(calls, w);
    FirstCallsSaid(calls, w.text);
  }

  lemma {:induction false} FirstCallsDistinct(calls: seq<Warning>)
    ensures NoDuplicateText(FirstCalls(calls))
  {
    if calls != [] {
      FirstCallsDistinct(calls[..|calls| - 1]);
    }
  }

  lemma {:induction false} FirstCallsAreCalls(calls: seq<Warning>)
    ensures forall i | 0 <= i < |FirstCalls(calls)| :: FirstCalls(calls)[i] in calls
  {
    if calls != [] {
      FirstCallsAreCalls(calls[..|calls| - 1]);
    }
  }

  // ----- the contract of the callers

  predicate IsControl(c: char) {
    c < ' ' || '\U{7f}' <= c <= '\U{9f}'
  }

  /** What `Recorder.AddWarning` asks of its arguments. */
  predicate Acceptable(w: Warning) {
    && (forall i | 0 <= i < |w.agent| ::
          !IsControl(w.agent[i]) && w.agent[i] != ' ' && w.agent[i] != '"' && w.agent[i] != '\\')
    && (forall i | 0 <= i < |w.text| :: !IsControl(w.text[i]))
  }

  /** Acceptable arguments always make a header. */
  ghost predicate Honours(f: HeaderFunc) {
    forall agent, text | Acceptable(Warning(agent, text)) :: f(agent, text).Some?
  }

  ghost predicate AllAcceptable(ws: seq<Warning>) {
    forall i | 0 <= i < |ws| :: Acceptable(ws[i])
  }

  lemma {:induction false} TruncatedAcceptable(w: Warning, truncating: bool)
    requires Acceptable(w)
    ensures Acceptable(Warning(w.agent, Shown(w.text, truncating)))
  {
  }

  /** Truncating acceptable warnings does not add runes. */
  lemma {:induction false} TruncatingShrinks(f: HeaderFunc, ws: seq<Warning>)
    requires Honours(f) && AllAcceptable(ws)
    ensures Runes(f, ws, true) <= Runes(f, ws, false)
  {
    if ws != [] {
      var w := ws[|ws| - 1];
      TruncatingShrinks(f, ws[..|ws| - 1]);
      TruncatedAcceptable(w, true);
      assert f(w.agent, Shown(w.text, false)).Some?;
    }
  }

  lemma {:induction false} ReplayBudget(f: HeaderFunc, ws: seq<Warning>, w: Warning)
    ensures Honours(f) && AllAcceptable(ws + [w]) ==>
              Runes(f, ws + [w], true) <= Runes(f, ws, false) + TRUNCATE_ITEM_RUNES
  {
    if Honours(f) && AllAcceptable(ws + [w]) {
      assert forall i | 0 <= i < |ws| :: ws[i] == (ws + [w])[i];
      TruncatingShrinks(f, ws);
      HeadersAppend(f, ws, w, true);
    }
  }

  // ----- the recorder

  class Recorder {
    const newWarningHeader: HeaderFunc
    var recorded: set<string>
    var ordered: seq<Warning>
    var written: nat
    var truncating: bool

    /** The Warning headers of the response. */
    var headers: seq<string>

    ghost var calls: seq<Warning>

    predicate Full()
      reads this
    {
      written >= TRUNCATE_AT_TOTAL_RUNES && truncating
    }

    /** The headers are a function of what was recorded and of the mode. */
    ghost predicate Rendered()
      reads this
    {
      && headers == Headers(newWarningHeader, ordered, truncating)
      && written == Runes(newWarningHeader, ordered, truncating)
      && recorded == Texts(ordered)
      && (!truncating ==> written <= TRUNCATE_AT_TOTAL_RUNES)
    }

    ghost predicate WithinBudget()
      reads this
    {
      Honours(newWarningHeader) && AllAcceptable(ordered) ==>
        written <= TRUNCATE_AT_TOTAL_RUNES + TRUNCATE_ITEM_RUNES
    }

    /** Nothing new is dropped before the budget is spent. */
    ghost predicate Complete()
      reads this
    {
      ordered <= FirstCalls(calls) && (Full() || ordered == FirstCalls(calls))
    }

    ghost predicate Valid()
      reads this
    {
      Rendered() && WithinBudget() && Complete()
    }

    constructor (newWarningHeader: HeaderFunc)
      ensures Valid() && calls == [] && headers == []
    {
      this.newWarningHeader := newWarningHeader;
      recorded, ordered, written, truncating, headers := {}, [], 0, false, [];
      calls := [];
    }

    /** No text is recorded twice, and callers that keep the contract keep the budget. */
    lemma {:induction false} RecordedOnceWithinBudget()
      requires Valid()
      ensures NoDuplicateText(ordered)
      ensures Honours(newWarningHeader) && AllAcceptable(calls) ==> written <= 4096 + 256
    {
      FirstCallsDistinct(calls);
      FirstCallsAreCalls(calls);
      assert forall i | 0 <= i < |ordered| :: ordered[i] == FirstCalls(calls)[i];
    }

    method AddWarning(agent: string, text: string)
      requires Valid()
      modifies this
      ensures Valid() && calls == old(calls) + [Warning(agent, text)]
      ensures var ignored := text == "" || Said(old(calls), text) || old(written >= 4096 && truncating);
              && ordered == old(ordered) + (if ignored then [] else [Warning(agent, text)])
              && (truncating <==>
                  || old(truncating)
                  || (!ignored && newWarningHeader(agent, text).Some? && old(written) + |text| > 4096))
              && (ignored ==> headers == old(headers) && written == old(written))
    {
      ghost var w := Warning(agent, text);
      FirstCallsAppend(calls, w);
      FirstCallsSaid(calls, text);
      calls := calls + [w];
      if |text| == 0 {
        return;
      }
      if written >= TRUNCATE_AT_TOTAL_RUNES && truncating {
        return;
      }
      if text in recorded {
        return;
      }
      Record(agent, text);
    }

    method Record(agent: string, text: string)
      requires Rendered() && WithinBudget() && !Full()
      modifies this`recorded, this`ordered, this`written, this`truncating, this`headers
      ensures Rendered() && WithinBudget()
      ensures ordered == old(ordered) + [Warning(agent, text)]
      ensures truncating <==>
              || old(truncating)
              || (newWarningHeader(agent, text).Some? && old(written) + |text| > TRUNCATE_AT_TOTAL_RUNES)
    {
      TextsAppend(ordered, Warning(agent, text));
      assert written <= TRUNCATE_AT_TOTAL_RUNES;
      recorded := recorded + {text};
      ordered := ordered + [Warning(agent, text)];
      HeadersAppend(newWarningHeader, old(ordered), Warning(agent, text), truncating);

      var shown, length := text, |text|;
      if truncating && length > TRUNCATE_ITEM_RUNES {
        shown, length := text[..TRUNCATE_ITEM_RUNES], TRUNCATE_ITEM_RUNES;
      }
      var header := newWarningHeader(agent, shown);
      if header.None? {
        return;
      }
      if written + length <= TRUNCATE_AT_TOTAL_RUNES || truncating {
        written := written + length;
        headers := headers + [header.value];
        return;
      }
      ReplayBudget(newWarningHeader, old(ordered), Warning(agent, text));
      truncating := true;
      Replay();
    }

    method Replay()
      requires truncating
      modifies this`written, this`headers
      ensures headers == Headers(newWarningHeader, ordered, true)
      ensures written == Runes(newWarningHeader, ordered, true)
    {
      written := 0;
      headers := [];
      for i := 0 to |ordered|
        invariant headers == Headers(newWarningHeader, ordered[..i], true)
        invariant written == Runes(newWarningHeader, ordered[..i], true)
      {
        var w := ordered[i];
        assert ordered[..i + 1] == ordered[..i] + [w];
        HeadersAppend(newWarningHeader, ordered[..i], w, true);
        var text, length := w.text, |w.text|;
        if length > TRUNCATE_ITEM_RUNES {
          text, length := text[..TRUNCATE_ITEM_RUNES], TRUNCATE_ITEM_RUNES;
        }
        var header := newWarningHeader(w.agent, text);
        if header.Some? {
          written := written + length;
          headers := headers + [header.value];
        }
      }
      assert ordered[..|ordered|] == ordered;
    }
  }
}
