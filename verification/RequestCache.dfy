/** The streaming server's cache of requests behind single-use tokens.

Three layers: the cache itself, a class with a token map and an age-ordered
list; the map of requests that it holds (`Replay`); and a map that forgets
nothing but consumed tokens (`Remembered`).  Each is shown to answer like the next.
*/
module RequestCaching {
  import opened Options
  import opened Base64Url

  type Token = string
  type Time = int

  const MAX_TRIES := 10

  // ----- tokens

  datatype Draw = Fresh(token: Token) | RandomFailure | NoUniqueToken

  /** The random bytes needed for `n` characters at six bits each. */
  function TokenSize(n: nat): nat {
    (6 * n + 7) / 8
  }

  predicate LegalDraws(n: nat, draws: seq<Option<seq<Byte>>>) {
    forall i | 0 <= i < |draws| && draws[i].Some? :: |draws[i].value| == TokenSize(n)
  }

  /** The bytes always suffice, and are used up exactly if 4 divides `n`. */
  lemma {:induction false} TokenLength(n: nat, bs: seq<Byte>)
    requires |bs| == TokenSize(n)
    ensures |Encode(bs)| >= n
    ensures |Encode(bs)| == n <==> n % 4 == 0
    ensures 8 * |bs| >= 6 * n > 8 * |bs| - 8
  {
    EncodedLength(bs);
    var q := n / 4;
    if n % 4 == 0 {
      assert n == 4 * q && TokenSize(n) == 3 * q;
    } else if n % 4 == 1 {
      assert n == 4 * q + 1 && TokenSize(n) == 3 * q + 1;
    } else if n % 4 == 2 {
      assert n == 4 * q + 2 && TokenSize(n) == 3 * q + 2;
    } else {
      assert n == 4 * q + 3 && TokenSize(n) == 3 * q + 3;
    }
  }

  /** The first draw whose encoding is not taken, cut to `n` characters. */
  function FirstFresh(n: nat, draws: seq<Option<seq<Byte>>>, taken: set<Token>): Draw
    requires LegalDraws(n, draws)
  {
    if draws == [] then NoUniqueToken
    else if draws[0].None? then RandomFailure
    else
      TokenLength(n, draws[0].value);
      var encoded := Encode(draws[0].value);
      if encoded !in taken then Fresh(encoded[..n]) else FirstFresh(n, draws[1..], taken)
  }

  /** The check that precedes a token being issued compares the whole encoding. */
  ghost predicate CheckRejectsTaken(n: nat) {
    forall bs: seq<Byte>, taken: set<Token> |
      |bs| == TokenSize(n) && |Encode(bs)| >= n && Encode(bs)[..n] in taken && (forall t | t in taken :: |t| == n) ::
      Encode(bs) in taken
  }

  /** It rules out reissuing a token exactly if 4 divides the token length. */
  lemma {:induction false} CheckRejectsTakenExactly(n: nat)
    ensures CheckRejectsTaken(n) <==> n % 4 == 0
  {
    if n % 4 == 0 {
      forall bs: seq<Byte>, taken: set<Token> | |bs| == TokenSize(n) && |Encode(bs)| >= n && Encode(bs)[..n] in taken
        ensures Encode(bs) in taken
      {
        TokenLength(n, bs);
        assert Encode(bs)[..n] == Encode(bs);
      }
    } else {
      var bs: seq<Byte> := seq(TokenSize(n), _ => 0);
      TokenLength(n, bs);
      var taken := {Encode(bs)[..n]};
      assert Encode(bs) !in taken;
    }
  }

  lemma {:induction false} FirstFreshIsFresh(n: nat, draws: seq<Option<seq<Byte>>>, taken: set<Token>)
    requires LegalDraws(n, draws) && n % 4 == 0
    ensures var d := FirstFresh(n, draws, taken);
            d.Fresh? ==> d.token !in taken && |d.token| == n
  {
    if draws != [] && draws[0].Some? {
      TokenLength(n, draws[0].value);
      var encoded := Encode(draws[0].value);
      assert encoded[..n] == encoded;
      if encoded in taken {
        FirstFreshIsFresh(n, draws[1..], taken);
      }
    }
  }

  /** The first `i` draws have given encodings that are taken. */
  ghost predicate AllTaken(draws: seq<Option<seq<Byte>>>, i: nat, taken: set<Token>) {
    i <= |draws| && forall j | 0 <= j < i :: draws[j].Some? && Encode(draws[j].value) in taken
  }

  /** After draws that are taken, the first free one gives the token, a failure of the random
      source ends the search, and so do no more draws. */
  lemma {:induction false} FirstFreshExactly(n: nat, draws: seq<Option<seq<Byte>>>, taken: set<Token>, i: nat)
    requires LegalDraws(n, draws) && AllTaken(draws, i, taken)
    ensures var d := FirstFresh(n, draws, taken);
            if i == |draws| then d == NoUniqueToken
            else if draws[i].None? then d == RandomFailure
            else Encode(draws[i].value) !in taken ==> d.Fresh? && d.token <= Encode(draws[i].value) && |d.token| == n
  {
    if i > 0 {
      FirstFreshExactly(n, draws[1..], taken, i - 1);
    } else if draws != [] && draws[0].Some? {
      TokenLength(n, draws[0].value);
    }
  }

  // ----- what the cache holds

  datatype Slot<Request> = Slot(req: Request, expireTime: Time)

  type Contents<Request> = map<Token, Slot<Request>>

  function Live<Request>(m: Contents<Request>, now: Time): Contents<Request> {
    map t | t in m && now <= m[t].expireTime :: m[t]
  }

  function Lookup<Request>(m: Contents<Request>, token: Token, now: Time): Option<Request> {
    if token in m && now <= m[token].expireTime then Some(m[token].req) else None
  }

  // ----- histories

  datatype Event<Request> =
    | Inserted(token: Token, req: Request, gcTime: Time, time: Time)
    | InsertFailed(gcTime: Time)
    | Consumed(token: Token, time: Time, answer: Option<Request>)
  {
    function Start(): Time {
      if Consumed? then time else gcTime
    }

    function End(): Time {
      if InsertFailed? then gcTime else time
    }

    predicate About(t: Token) {
      !InsertFailed? && token == t
    }
  }

  type History<Request> = seq<Event<Request>>

  /** The contents after one more event: inserting drops what has expired. */
  function Apply<Request>(ttl: Time, m: Contents<Request>, ev: Event<Request>): Contents<Request> {
    match ev
    case Inserted(t, req, gcTime, time) => Live(m, gcTime)[t := Slot(req, time + ttl)]
    case InsertFailed(gcTime) => Live(m, gcTime)
    case Consumed(t, _, _) => m - {t}
  }

  function Replay<Request>(ttl: Time, h: History<Request>): Contents<Request> {
    if h == [] then map[] else Apply(ttl, Replay(ttl, h[..|h| - 1]), h[|h| - 1])
  }

  /** The same without garbage collection. */
  function Remembered<Request>(ttl: Time, h: History<Request>): Contents<Request> {
    if h == [] then map[]
    else
      var m := Remembered(ttl, h[..|h| - 1]);
      match h[|h| - 1]
      case Inserted(t, req, _, time) => m[t := Slot(req, time + ttl)]
      case InsertFailed(_) => m
      case Consumed(t, _, _) => m - {t}
  }

  /** The clock never goes back, up to the reading `now`. */
  ghost predicate Timely<Request>(h: History<Request>, now: Time)
    decreases |h|
  {
    h == [] ||
    var ev := h[|h| - 1];
    ev.Start() <= ev.End() <= now && Timely(h[..|h| - 1], ev.Start())
  }

  /** Every token was consumed with the answer of the cache at that moment. */
  ghost predicate Answered<Request>(ttl: Time, h: History<Request>) {
    forall i | 0 <= i < |h| && h[i].Consumed? ::
      h[i].answer == Lookup(Replay(ttl, h[..i]), h[i].token, h[i].time)
  }

  /** Garbage collection cannot be observed by consuming tokens. */
  lemma {:induction false} CollectionUnobservable<Request>(ttl: Time, h: History<Request>, now: Time)
    requires Timely(h, now)
    ensures forall t | t in Replay(ttl, h) :: t in Remembered(ttl, h) && Remembered(ttl, h)[t] == Replay(ttl, h)[t]
    ensures forall t | t in Remembered(ttl, h) && t !in Replay(ttl, h) :: Remembered(ttl, h)[t].expireTime < now
    ensures forall t :: Lookup(Replay(ttl, h), t, now) == Lookup(Remembered(ttl, h), t, now)
  {
    if h != [] {
      CollectionUnobservable(ttl, h[..|h| - 1], h[|h| - 1].Start());
    }
  }

  /** A remembered token was issued by an insertion after which nothing touched it. */
  lemma {:induction false} RememberedSource<Request>(ttl: Time, h: History<Request>, t: Token) returns (i: nat)
    requires t in Remembered(ttl, h)
    ensures i < |h| && h[i].Inserted? && h[i].token == t
    ensures Remembered(ttl, h)[t] == Slot(h[i].req, h[i].time + ttl)
    ensures forall k | i < k < |h| :: !h[k].About(t)
  {
    var n := |h| - 1;
    if h[n].About(t) {
      i := n;
    } else {
      i := RememberedSource(ttl, h[..n], t);
    }
  }

  lemma {:induction false} TimelyPrefix<Request>(h: History<Request>, now: Time, n: nat)
    requires Timely(h, now) && n < |h|
    ensures Timely(h[..n], h[n].Start())
  {
    var last := |h| - 1;
    if n < last {
      TimelyPrefix(h[..last], h[last].Start(), n);
      assert h[..last][..n] == h[..n];
    }
  }

  /** A request is only returned for the token its insertion returned, within the
      time to live, and by the first attempt to consume that token. */
  lemma {:induction false} ConsumedSource<Request>(ttl: Time, h: History<Request>, now: Time, j: nat) returns (i: nat)
    requires Timely(h, now) && Answered(ttl, h)
    requires j < |h| && h[j].Consumed? && h[j].answer.Some?
    ensures i < j && h[i].Inserted? && h[i].token == h[j].token && h[i].req == h[j].answer.value
    ensures h[j].time <= h[i].time + ttl
    ensures forall k | i < k < j :: !h[k].About(h[j].token)
  {
    TimelyPrefix(h, now, j);
    CollectionUnobservable(ttl, h[..j], h[j].time);
    i := RememberedSource(ttl, h[..j], h[j].token);
  }

  /** No insertion is answered by two consumptions. */
  lemma {:induction false} ConsumedAtMostOnce<Request>(ttl: Time, h: History<Request>, now: Time, j: nat, j': nat)
    returns (i: nat, i': nat)
    requires Timely(h, now) && Answered(ttl, h) && j < j' < |h|
    requires h[j].Consumed? && h[j].answer.Some? && h[j'].Consumed? && h[j'].answer.Some?
    ensures i < j && h[i].Inserted? && h[i].token == h[j].token && h[i].req == h[j].answer.value
    ensures i' < j' && h[i'].Inserted? && h[i'].token == h[j'].token && h[i'].req == h[j'].answer.value
    ensures i != i'
  {
    i := ConsumedSource(ttl, h, now, j);
    i' := ConsumedSource(ttl, h, now, j');
  }

  lemma {:induction false} UntouchedRemembered<Request>(ttl: Time, h: History<Request>, i: nat)
    requires i < |h| && h[i].Inserted? && forall k | i < k < |h| :: !h[k].About(h[i].token)
    ensures h[i].token in Remembered(ttl, h)
    ensures Remembered(ttl, h)[h[i].token] == Slot(h[i].req, h[i].time + ttl)
  {
    if i < |h| - 1 {
      UntouchedRemembered(ttl, h[..|h| - 1], i);
    }
  }

  /** Conversely, an inserted request that nothing has touched is returned for its
      token until its time to live is over, and not afterwards. */
  lemma {:induction false} UntouchedAnswer<Request>(ttl: Time, h: History<Request>, now: Time, i: nat)
    requires Timely(h, now)
    requires i < |h| && h[i].Inserted? && forall k | i < k < |h| :: !h[k].About(h[i].token)
    ensures Lookup(Replay(ttl, h), h[i].token, now) == if now <= h[i].time + ttl then Some(h[i].req) else None
  {
    UntouchedRemembered(ttl, h, i);
    CollectionUnobservable(ttl, h, now);
  }

  /** The tokens of insertions that nothing has touched since and that have not expired. */
  ghost function Outstanding<Request>(ttl: Time, h: History<Request>, now: Time): set<Token> {
    set i | 0 <= i < |h| && h[i].Inserted? && (forall k | i < k < |h| :: !h[k].About(h[i].token)) &&
            now <= h[i].time + ttl :: h[i].token
  }

  lemma {:induction false} TimelyLater<Request>(h: History<Request>, now: Time, later: Time)
    requires Timely(h, now) && now <= later
    ensures Timely(h, later)
  {
  }

  /** What is left after garbage collection is exactly what is outstanding. */
  lemma {:induction false} LiveIsOutstanding<Request>(ttl: Time, h: History<Request>, now: Time)
    requires Timely(h, now)
    ensures Live(Replay(ttl, h), now).Keys == Outstanding(ttl, h, now)
  {
    CollectionUnobservable(ttl, h, now);
    forall t | t in Live(Replay(ttl, h), now)
      ensures t in Outstanding(ttl, h, now)
    {
      var i := RememberedSource(ttl, h, t);
      assert h[i].token == t;
    }
    forall t | t in Outstanding(ttl, h, now)
      ensures t in Live(Replay(ttl, h), now)
    {
      var i :| 0 <= i < |h| && h[i].Inserted? && h[i].token == t && now <= h[i].time + ttl &&
        forall k | i < k < |h| :: !h[k].About(h[i].token);
      UntouchedAnswer(ttl, h, now, i);
    }
  }

  lemma {:induction false} HistoryAppend<Request>(ttl: Time, h: History<Request>, ev: Event<Request>, now: Time)
    requires Answered(ttl, h) && Timely(h, ev.Start()) && ev.Start() <= ev.End() <= now
    requires ev.Consumed? ==> ev.answer == Lookup(Replay(ttl, h), ev.token, ev.time)
    ensures Answered(ttl, h + [ev]) && Timely(h + [ev], now)
  {
    var h' := h + [ev];
    assert h'[..|h'| - 1] == h;
    forall i | 0 <= i < |h'| && h'[i].Consumed?
      ensures h'[i].answer == Lookup(Replay(ttl, h'[..i]), h'[i].token, h'[i].time)
    {
      if i < |h| {
        assert h'[..i] == h[..i] && h'[i] == h[i];
      }
    }
  }

  lemma {:induction false} ReplayAppend<Request>(ttl: Time, h: History<Request>, ev: Event<Request>)
    ensures Replay(ttl, h + [ev]) == Apply(ttl, Replay(ttl, h), ev)
  {
    assert (h + [ev])[..|h|] == h;
  }

  /** Distinct elements make a set of the same size. */
  lemma {:induction false} DistinctSize(s: seq<Token>)
    requires forall i, j | 0 <= i < j < |s| :: s[i] != s[j]
    ensures |set i | 0 <= i < |s| :: s[i]| == |s|
  {
    if s != [] {
      var n := |s| - 1;
      DistinctSize(s[..n]);
      assert (set i | 0 <= i < |s| :: s[i]) == (set i | 0 <= i < n :: s[..n][i]) + {s[n]};
    }
  }

  // ----- the cache

  datatype InsertResult = Issued(token: Token) | TooManyInFlight | NotIssued(cause: Draw)

  /** What an insertion must return, and do to the contents. */
  ghost predicate InsertDone<Request>(cfg: Config, before: Contents<Request>, after: Contents<Request>, req: Request,
                                      gcTime: Time, draws: seq<Option<seq<Byte>>>, now: Time, r: InsertResult)
    requires LegalDraws(cfg.tokenLen, draws)
  {
    InsertedInto(cfg, Live(before, gcTime), after, req, draws, now, r)
  }

  ghost predicate InsertedInto<Request>(cfg: Config, live: Contents<Request>, after: Contents<Request>, req: Request,
                                        draws: seq<Option<seq<Byte>>>, now: Time, r: InsertResult)
    requires LegalDraws(cfg.tokenLen, draws)
  {
    var d := FirstFresh(cfg.tokenLen, draws, live.Keys);
    if |live| == cfg.maxInFlight then
      r == TooManyInFlight && after == live
    else if d.Fresh? then
      && r == Issued(d.token) && d.token !in live
      && after == live[d.token := Slot(req, now + cfg.cacheTTL)]
    else
      r == NotIssued(d) && after == live
  }

  /** What an insertion answers when these tokens are outstanding: it is refused exactly if
      there are too many, and otherwise gets the first encoding that is not among them,
      unless the random source fails before that or there are no more draws. */
  ghost predicate AnswersInsert(maxInFlight: nat, out: set<Token>, draws: seq<Option<seq<Byte>>>, r: InsertResult) {
    && (r.TooManyInFlight? <==> |out| == maxInFlight)
    && (|out| != maxInFlight ==>
          forall i: nat | AllTaken(draws, i, out) ::
            if i == |draws| then r == NotIssued(NoUniqueToken)
            else if draws[i].None? then r == NotIssued(RandomFailure)
            else Encode(draws[i].value) !in out ==> r == Issued(Encode(draws[i].value)))
  }

  lemma {:induction false} InsertAnswers<Request>(cfg: Config, live: Contents<Request>, after: Contents<Request>,
                                                  req: Request, draws: seq<Option<seq<Byte>>>, now: Time,
                                                  r: InsertResult)
    requires LegalDraws(cfg.tokenLen, draws) && cfg.tokenLen % 4 == 0
    requires InsertedInto(cfg, live, after, req, draws, now, r)
    ensures AnswersInsert(cfg.maxInFlight, live.Keys, draws, r)
  {
    assert |live| == |live.Keys|;
    forall i: nat | AllTaken(draws, i, live.Keys) && |live| != cfg.maxInFlight
      ensures if i == |draws| then r == NotIssued(NoUniqueToken)
              else if draws[i].None? then r == NotIssued(RandomFailure)
              else Encode(draws[i].value) !in live.Keys ==> r == Issued(Encode(draws[i].value))
    {
      FirstFreshExactly(cfg.tokenLen, draws, live.Keys, i);
      if i < |draws| && draws[i].Some? {
        TokenLength(cfg.tokenLen, draws[i].value);
      }
    }
  }

  ghost function InsertEvent<Request>(req: Request, gcTime: Time, now: Time, r: InsertResult): Event<Request> {
    if r.Issued? then Inserted(r.token, req, gcTime, now) else InsertFailed(gcTime)
  }

  lemma {:induction false} InsertDoneApplies<Request>(
    cfg: Config, before: Contents<Request>, after: Contents<Request>, req: Request,
    gcTime: Time, draws: seq<Option<seq<Byte>>>, now: Time, r: InsertResult)
    requires LegalDraws(cfg.tokenLen, draws) && InsertDone(cfg, before, after, req, gcTime, draws, now, r)
    ensures after == Apply(cfg.cacheTTL, before, InsertEvent(req, gcTime, now, r))
  {
  }

  /** The package's settings. */
  datatype Config = Config(cacheTTL: Time, maxInFlight: nat, tokenLen: nat)

  class CacheEntry<Request> {
    const token: Token
    const req: Request
    const expireTime: Time

    constructor (token: Token, req: Request, expireTime: Time)
      ensures this.token == token && this.req == req && this.expireTime == expireTime
    {
      this.token, this.req, this.expireTime := token, req, expireTime;
    }

    ghost function ToSlot(): Slot<Request> {
      Slot(req, expireTime)
    }
  }

  ghost function Slots<Request>(tokens: map<Token, CacheEntry<Request>>): Contents<Request> {
    map t | t in tokens :: tokens[t].ToSlot()
  }

  ghost predicate Listed<Request>(ll: seq<CacheEntry<Request>>, ele: CacheEntry<Request>) {
    ele in ll
  }

  /** Map and list hold the same entries, each once. */
  ghost predicate Linked<Request>(tokens: map<Token, CacheEntry<Request>>, ll: seq<CacheEntry<Request>>) {
    && (forall t | t in tokens :: tokens[t].token == t)
    && (forall t {:trigger Listed(ll, tokens[t])} | t in tokens :: Listed(ll, tokens[t]))
    && (forall i | 0 <= i < |ll| :: ll[i].token in tokens && tokens[ll[i].token] == ll[i])
    && (forall i, j | 0 <= i < j < |ll| :: ll[i].token != ll[j].token)
  }

  /** The list is ordered by expiry, none of it later than `latest`. */
  ghost predicate AgeOrdered<Request>(ll: seq<CacheEntry<Request>>, latest: Time) {
    && (forall i, j | 0 <= i < j < |ll| :: ll[j].expireTime <= ll[i].expireTime)
    && (forall i | 0 <= i < |ll| :: ll[i].expireTime <= latest)
  }

  /** The list is as long as the map is large. */
  lemma {:induction false} LinkedSize<Request>(tokens: map<Token, CacheEntry<Request>>, ll: seq<CacheEntry<Request>>)
    requires Linked(tokens, ll)
    ensures |ll| == |Slots(tokens)|
  {
    var ts := seq(|ll|, i requires 0 <= i < |ll| => ll[i].token);
    DistinctSize(ts);
    assert (set i | 0 <= i < |ts| :: ts[i]) == Slots(tokens).Keys by {
      forall t | t in tokens
        ensures t in (set i | 0 <= i < |ts| :: ts[i])
      {
        assert Listed(ll, tokens[t]);
        var i :| 0 <= i < |ll| && ll[i] == tokens[t];
        assert ts[i] == t;
      }
    }
  }

  lemma {:induction false} LinkedEmpty<Request>(tokens: map<Token, CacheEntry<Request>>, ll: seq<CacheEntry<Request>>)
    requires Linked(tokens, ll)
    ensures ll == [] ==> tokens == map[]
  {
    if tokens != map[] {
      var t :| t in tokens;
      assert Listed(ll, tokens[t]);
    }
  }

  /** `rest` is `s` without its element at `k`. */
  ghost predicate Removed<T>(s: seq<T>, k: nat, rest: seq<T>) {
    && k < |s| && |rest| == |s| - 1
    && forall i | 0 <= i < |rest| :: rest[i] == s[if i < k then i else i + 1]
  }

  lemma {:induction false} LinkedRemove<Request>(tokens: map<Token, CacheEntry<Request>>, ll: seq<CacheEntry<Request>>,
                                                 k: nat, rest: seq<CacheEntry<Request>>)
    requires Linked(tokens, ll) && Removed(ll, k, rest)
    ensures Linked(tokens - {ll[k].token}, rest)
  {
    var gone := ll[k].token;
    forall t | t in tokens && t != gone
      ensures Listed(rest, tokens[t])
    {
      assert Listed(ll, tokens[t]);
      var i :| 0 <= i < |ll| && ll[i] == tokens[t];
      assert rest[if i < k then i else i - 1] == tokens[t];
    }
  }

  lemma {:induction false} AgeOrderedRemove<Request>(
    ll: seq<CacheEntry<Request>>, k: nat, rest: seq<CacheEntry<Request>>, latest: Time)
    requires AgeOrdered(ll, latest) && Removed(ll, k, rest)
    ensures AgeOrdered(rest, latest)
  {
  }

  lemma {:induction false} LinkedPush<Request>(tokens: map<Token, CacheEntry<Request>>, ll: seq<CacheEntry<Request>>,
                                               ele: CacheEntry<Request>)
    requires Linked(tokens, ll) && AgeOrdered(ll, ele.expireTime) && ele.token !in tokens
    ensures Linked(tokens[ele.token := ele], [ele] + ll) && AgeOrdered([ele] + ll, ele.expireTime)
  {
    var ll' := [ele] + ll;
    forall t | t in tokens
      ensures Listed(ll', tokens[t])
    {
      assert Listed(ll, tokens[t]);
      var i :| 0 <= i < |ll| && ll[i] == tokens[t];
      assert ll'[i + 1] == tokens[t];
    }
  }

  class RequestCache<Request> {
    const cfg: Config

    var tokens: map<Token, CacheEntry<Request>>

    /** From the newest entry at the front to the oldest at the back. */
    var ll: seq<CacheEntry<Request>>

    /** The last clock reading, and what has happened until then. */
    ghost var clock: Time
    ghost var history: History<Request>

    ghost predicate Shape()
      reads this
    {
      Linked(tokens, ll) && AgeOrdered(ll, clock + cfg.cacheTTL) && |ll| <= cfg.maxInFlight && cfg.tokenLen % 4 == 0
    }

    ghost predicate Valid()
      reads this
    {
      && Shape()
      && Contents() == Replay(cfg.cacheTTL, history)
      && Timely(history, clock) && Answered(cfg.cacheTTL, history)
    }

    ghost function Contents(): Contents<Request>
      reads this
    {
      Slots(tokens)
    }

    constructor (cfg: Config, ghost now: Time)
      requires cfg.tokenLen % 4 == 0
      ensures Valid() && history == [] && clock == now && this.cfg == cfg
    {
      this.cfg := cfg;
      tokens, ll := map[], [];
      clock, history := now, [];
    }

    /** Records what a call did. */
    ghost method Log(ev: Event<Request>)
      requires Shape() && Answered(cfg.cacheTTL, history)
      requires Timely(history, ev.Start()) && ev.Start() <= ev.End() <= clock
      requires ev.Consumed? ==> ev.answer == Lookup(Replay(cfg.cacheTTL, history), ev.token, ev.time)
      requires Contents() == Apply(cfg.cacheTTL, Replay(cfg.cacheTTL, history), ev)
      modifies this`history
      ensures Valid() && history == old(history) + [ev]
    {
      ReplayAppend(cfg.cacheTTL, history, ev);
      HistoryAppend(cfg.cacheTTL, history, ev, clock);
      history := history + [ev];
    }

    /** Unlinks an entry from the list. */
    method Remove(ele: CacheEntry<Request>)
      requires ele in ll
      modifies this`ll
      ensures exists k: nat | k < |old(ll)| :: old(ll)[k] == ele && Removed(old(ll), k, ll)
    {
      var k: nat :| k < |ll| && ll[k] == ele;
      ll := ll[..k] + ll[k + 1..];
      assert Removed(old(ll), k, ll);
    }

    /** Stops at the first entry from the back that is still valid, and has by
        then removed exactly the expired ones. */
    method Gc(now: Time)
      requires Shape() && clock <= now
      modifies this`tokens, this`ll
      ensures Shape()
      ensures Contents() == Live(old(Contents()), now)
    {
      while |ll| > 0
        invariant Shape()
        invariant forall t | t in tokens :: t in old(tokens) && tokens[t] == old(tokens)[t]
        invariant forall t | t in old(tokens) && t !in tokens :: old(tokens)[t].expireTime < now
        decreases |ll|
      {
        var oldest := ll[|ll| - 1];
        if !(now > oldest.expireTime) {
          NoneExpired(now);
          return;
        }
        LinkedRemove(tokens, ll, |ll| - 1, ll[..|ll| - 1]);
        AgeOrderedRemove(ll, |ll| - 1, ll[..|ll| - 1], clock + cfg.cacheTTL);
        ll := ll[..|ll| - 1];
        tokens := tokens - {oldest.token};
      }
      LinkedEmpty(tokens, ll);
    }

    /** A valid entry at the back makes every entry valid. */
    lemma {:induction false} NoneExpired(now: Time)
      requires Shape() && ll != [] && now <= ll[|ll| - 1].expireTime
      ensures forall t | t in tokens :: now <= tokens[t].expireTime
    {
      forall t | t in tokens
        ensures now <= tokens[t].expireTime
      {
        assert Listed(ll, tokens[t]);
        var i :| 0 <= i < |ll| && ll[i] == tokens[t];
      }
    }

    method UniqueToken(draws: seq<Option<seq<Byte>>>) returns (d: Draw)
      requires |draws| == MAX_TRIES && LegalDraws(cfg.tokenLen, draws)
      ensures d == FirstFresh(cfg.tokenLen, draws, tokens.Keys)
    {
      for i := 0 to MAX_TRIES
        invariant FirstFresh(cfg.tokenLen, draws, tokens.Keys) == FirstFresh(cfg.tokenLen, draws[i..], tokens.Keys)
      {
        assert draws[i..][1..] == draws[i + 1..];
        if draws[i].None? {
          return RandomFailure;
        }
        TokenLength(cfg.tokenLen, draws[i].value);
        var encoded := Encode(draws[i].value);
        var token := encoded[..cfg.tokenLen];
        if encoded !in tokens {
          return Fresh(token);
        }
      }
      return NoUniqueToken;
    }

    /** Reads the clock for the collection and again for the new entry. */
    method Insert(req: Request, gcTime: Time, draws: seq<Option<seq<Byte>>>, now: Time) returns (r: InsertResult)
      requires Valid() && clock <= gcTime <= now
      requires |draws| == 10 && LegalDraws(cfg.tokenLen, draws)
      modifies this
      ensures Valid() && clock == now && |Contents()| <= cfg.maxInFlight
      ensures AnswersInsert(cfg.maxInFlight, Outstanding(cfg.cacheTTL, old(history), gcTime), draws, r)
      ensures InsertDone(cfg, old(Contents()), Contents(), req, gcTime, draws, now, r)
      ensures history == old(history) + [InsertEvent(req, gcTime, now, r)]
    {
      TimelyLater(history, clock, gcTime);
      LiveIsOutstanding(cfg.cacheTTL, history, gcTime);
      r := InsertLocked(req, gcTime, draws, now);
      InsertAnswers(cfg, Live(old(Contents()), gcTime), Contents(), req, draws, now, r);
      LinkedSize(tokens, ll);
      InsertDoneApplies(cfg, old(Contents()), Contents(), req, gcTime, draws, now, r);
      Log(InsertEvent(req, gcTime, now, r));
    }

    method InsertLocked(req: Request, gcTime: Time, draws: seq<Option<seq<Byte>>>, now: Time)
      returns (r: InsertResult)
      requires Shape() && clock <= gcTime <= now
      requires |draws| == MAX_TRIES && LegalDraws(cfg.tokenLen, draws)
      modifies this`tokens, this`ll, this`clock
      ensures Shape() && clock == now
      ensures InsertDone(cfg, old(Contents()), Contents(), req, gcTime, draws, now, r)
    {
      Gc(gcTime);
      clock := now;
      r := InsertLive(req, draws, now);
    }

    /** The insertion after expired entries have been removed. */
    method InsertLive(req: Request, draws: seq<Option<seq<Byte>>>, now: Time) returns (r: InsertResult)
      requires Shape() && clock == now
      requires |draws| == MAX_TRIES && LegalDraws(cfg.tokenLen, draws)
      modifies this`tokens, this`ll
      ensures Shape()
      ensures InsertedInto(cfg, old(Contents()), Contents(), req, draws, now, r)
    {
      LinkedSize(tokens, ll);
      assert Contents().Keys == tokens.Keys;
      if |ll| == cfg.maxInFlight {
        return TooManyInFlight;
      }
      var d := UniqueToken(draws);
      if !d.Fresh? {
        return NotIssued(d);
      }
      FirstFreshIsFresh(cfg.tokenLen, draws, tokens.Keys);
      PushFront(d.token, req, now + cfg.cacheTTL);
      return Issued(d.token);
    }

    method PushFront(token: Token, req: Request, expireTime: Time)
      requires Shape() && expireTime == clock + cfg.cacheTTL && |ll| < cfg.maxInFlight && token !in tokens
      modifies this`tokens, this`ll
      ensures Shape()
      ensures Contents() == old(Contents())[token := Slot(req, expireTime)]
    {
      var ele := new CacheEntry(token, req, expireTime);
      LinkedPush(tokens, ll, ele);
      ll := [ele] + ll;
      tokens := tokens[token := ele];
    }

    /** Removes the token whether or not its request has expired. */
    method Consume(token: Token, now: Time) returns (r: Option<Request>)
      requires Valid() && clock <= now
      modifies this
      ensures Valid() && clock == now
      ensures r == Lookup(old(Contents()), token, now)
      ensures Contents() == old(Contents()) - {token}
      ensures history == old(history) + [Consumed(token, now, r)]
    {
      r := ConsumeLocked(token, now);
      Log(Consumed(token, now, r));
    }

    method ConsumeLocked(token: Token, now: Time) returns (r: Option<Request>)
      requires Shape() && clock <= now
      modifies this`tokens, this`ll, this`clock
      ensures Shape() && clock == now
      ensures r == Lookup(old(Contents()), token, now)
      ensures Contents() == old(Contents()) - {token}
    {
      clock := now;
      if token !in tokens {
        assert Contents() - {token} == Contents();
        return None;
      }
      var ele := tokens[token];
      assert Listed(ll, ele);
      Remove(ele);
      ghost var k: nat :| k < |old(ll)| && old(ll)[k] == ele && Removed(old(ll), k, ll);
      LinkedRemove(tokens, old(ll), k, ll);
      AgeOrderedRemove(old(ll), k, ll, clock + cfg.cacheTTL);
      tokens := tokens - {token};
      if now > ele.expireTime {
        return None;
      }
      return Some(ele.req);
    }
  }
}
