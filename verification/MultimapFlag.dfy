/** The flag that holds a map from strings to lists of strings, written as
`key:value` pairs separated by commas. */
module MultimapFlags {
  import opened Options
  import opened Strings

  datatype Pair = Pair(key: string, value: string)

  type Multimap = map<string, seq<string>>

  /** `unicode.IsSpace`. */
  predicate IsSpace(c: char) {
    || '\t' <= c <= '\r' || c == ' ' || c == '\U{85}' || c == '\U{a0}' || c == '\U{1680}'
    || '\U{2000}' <= c <= '\U{200a}' || c == '\U{2028}' || c == '\U{2029}' || c == '\U{202f}'
    || c == '\U{205f}' || c == '\U{3000}'
  }

  function TrimSpace(s: string): string {
    Trim(s, IsSpace)
  }

  // ----- parsing

  function IndexOf(s: string, c: char): (i: nat)
    ensures i <= |s| && Free(s[..i], c)
    ensures i < |s| ==> s[i] == c
  {
    if s == "" || s[0] == c then 0 else 1 + IndexOf(s[1..], c)
  }

  /** Splits at the first colon. */
  function ParsePair(s: string): Option<Pair> {
    var i := IndexOf(s, ':');
    if i == |s| then None else Some(Pair(TrimSpace(s[..i]), TrimSpace(s[i + 1..])))
  }

  function Get(m: Multimap, k: string): seq<string> {
    if k in m then m[k] else []
  }

  function Append(m: Multimap, kv: Pair): Multimap {
    m[kv.key := Get(m, kv.key) + [kv.value]]
  }

  /** Adds pairs up to the first malformed one, and says whether there was none. */
  function ParseParts(parts: seq<string>, m: Multimap): (Multimap, bool) {
    if parts == [] then (m, true)
    else if parts[0] == "" then ParseParts(parts[1..], m)
    else
      match ParsePair(parts[0])
      case None => (m, false)
      case Some(kv) => ParseParts(parts[1..], Append(m, kv))
  }

  function Parse(s: string, m: Multimap): (Multimap, bool) {
    ParseParts(Split(s, ','), m)
  }

  // ----- printing

  /** Go's order of strings. */
  predicate Less(a: string, b: string) {
    b != "" && (a == "" || a[0] < b[0] || (a[0] == b[0] && Less(a[1..], b[1..])))
  }

  /** Puts a pair behind the pairs whose key is not greater. */
  function InsertStable(s: seq<Pair>, kv: Pair): seq<Pair> {
    if s == [] || !Less(kv.key, s[|s| - 1].key) then s + [kv]
    else InsertStable(s[..|s| - 1], kv) + [s[|s| - 1]]
  }

  /** `sort.SliceStable` by key. */
  function SortStable(s: seq<Pair>): seq<Pair> {
    if s == [] then [] else InsertStable(SortStable(s[..|s| - 1]), s[|s| - 1])
  }

  function FormatPair(kv: Pair): string {
    kv.key + ":" + kv.value
  }

  function FormatPairs(kvs: seq<Pair>): seq<string> {
    seq(|kvs|, i requires 0 <= i < |kvs| => FormatPair(kvs[i]))
  }

  function Format(kvs: seq<Pair>): string {
    Join(FormatPairs(kvs), ',')
  }

  // ----- the listing of a multimap

  /** The values for one key, in order. */
  function Values(kvs: seq<Pair>, k: string): seq<string> {
    if kvs == [] then []
    else (if kvs[0].key == k then [kvs[0].value] else []) + Values(kvs[1..], k)
  }

  ghost predicate Sorted(kvs: seq<Pair>) {
    forall i, j | 0 <= i < j < |kvs| :: !Less(kvs[j].key, kvs[i].key)
  }

  /** `kvs` holds the entries of `m` in the order of their keys. */
  ghost predicate IsListing(m: Multimap, kvs: seq<Pair>) {
    Sorted(kvs) && forall k :: Values(kvs, k) == Get(m, k)
  }

  lemma {:induction false} LessTotal(a: string, b: string)
    ensures Less(a, b) || Less(b, a) || a == b
    ensures !(Less(a, b) && Less(b, a))
    ensures !Less(a, a)
  {
    if a != "" && b != "" && a[0] == b[0] {
      LessTotal(a[1..], b[1..]);
      assert a == [a[0]] + a[1..] && b == [b[0]] + b[1..];
    }
    if a != "" {
      LessIrreflexive(a);
    }
  }

  ghost predicate FirstDiffersAt(a: string, b: string, i: nat) {
    i <= |a| && i < |b| && a[..i] == b[..i] && (i == |a| || a[i] < b[i])
  }

  /** One text comes before another exactly if it is a proper beginning of it, or has a
      smaller character where they first differ. */
  lemma {:induction false} LessExactly(a: string, b: string)
    ensures Less(a, b) <==> exists i: nat :: FirstDiffersAt(a, b, i)
  {
    if a == "" || b == "" {
      assert a == "" && b != "" ==> FirstDiffersAt(a, b, 0);
    } else if a[0] != b[0] {
      assert a[0] < b[0] ==> FirstDiffersAt(a, b, 0);
      forall i: nat | 0 < i <= |a| && i < |b|
        ensures a[..i] != b[..i]
      {
        assert a[..i][0] != b[..i][0];
      }
    } else {
      LessExactly(a[1..], b[1..]);
      if i: nat :| FirstDiffersAt(a[1..], b[1..], i) {
        assert a[..i + 1] == [a[0]] + a[1..][..i] && b[..i + 1] == [b[0]] + b[1..][..i];
        assert FirstDiffersAt(a, b, i + 1);
      }
      if i: nat :| FirstDiffersAt(a, b, i) {
        assert i > 0;
        assert a[1..][..i - 1] == a[..i][1..] && b[1..][..i - 1] == b[..i][1..];
        assert FirstDiffersAt(a[1..], b[1..], i - 1);
      }
    }
  }

  lemma {:induction false} LessIrreflexive(a: string)
    ensures !Less(a, a)
  {
    if a != "" {
      LessIrreflexive(a[1..]);
    }
  }

  lemma {:induction false} LessTransitive(a: string, b: string, c: string)
    requires !Less(b, a) && !Less(c, b)
    ensures !Less(c, a)
  {
    if a != "" && b != "" && c != "" && a[0] == b[0] == c[0] {
      LessTransitive(a[1..], b[1..], c[1..]);
    }
  }

  lemma {:induction false} ValuesConcat(a: seq<Pair>, b: seq<Pair>, k: string)
    ensures Values(a + b, k) == Values(a, k) + Values(b, k)
  {
    if a == [] {
      assert a + b == b;
    } else {
      var first := if a[0].key == k then [a[0].value] else [];
      calc {
        Values(a + b, k);
      ==  { assert (a + b)[0] == a[0] && (a + b)[1..] == a[1..] + b; }
        first + Values(a[1..] + b, k);
      ==  { ValuesConcat(a[1..], b, k); }
        first + (Values(a[1..], k) + Values(b, k));
      ==  // concatenation is associative
        first + Values(a[1..], k) + Values(b, k);
      ==
        Values(a, k) + Values(b, k);
      }
    }
  }

  lemma {:induction false} InsertValues(s: seq<Pair>, kv: Pair, k: string)
    ensures Values(InsertStable(s, kv), k) == Values(s, k) + if kv.key == k then [kv.value] else []
  {
    if s == [] || !Less(kv.key, s[|s| - 1].key) {
      ValuesConcat(s, [kv], k);
    } else {
      var front, last := s[..|s| - 1], s[|s| - 1];
      InsertValues(front, kv, k);
      ValuesConcat(InsertStable(front, kv), [last], k);
      ValuesConcat(front, [last], k);
      assert s == front + [last];
      LessIrreflexive(kv.key);
    }
  }

  lemma {:induction false} InsertMembers(s: seq<Pair>, kv: Pair, i: nat)
    requires i < |InsertStable(s, kv)|
    ensures InsertStable(s, kv)[i] == kv || InsertStable(s, kv)[i] in s
  {
    if s != [] && Less(kv.key, s[|s| - 1].key) && i < |InsertStable(s[..|s| - 1], kv)| {
      InsertMembers(s[..|s| - 1], kv, i);
    }
  }

  lemma {:induction false} InsertSorted(s: seq<Pair>, kv: Pair)
    requires Sorted(s)
    ensures Sorted(InsertStable(s, kv))
  {
    var t := InsertStable(s, kv);
    if s == [] {
    } else if !Less(kv.key, s[|s| - 1].key) {
      forall i | 0 <= i < |s|
        ensures !Less(kv.key, s[i].key)
      {
        LessIrreflexive(s[i].key);
        LessTransitive(s[i].key, s[|s| - 1].key, kv.key);
      }
    } else {
      var front, last := s[..|s| - 1], s[|s| - 1];
      InsertSorted(front, kv);
      forall i | 0 <= i < |t| - 1
        ensures !Less(last.key, t[i].key)
      {
        InsertMembers(front, kv, i);
        LessTotal(kv.key, last.key);
      }
    }
  }

  lemma {:induction false} SortStableListing(s: seq<Pair>, k: string)
    ensures Sorted(SortStable(s)) && Values(SortStable(s), k) == Values(s, k)
  {
    if s != [] {
      var front, last := s[..|s| - 1], s[|s| - 1];
      SortStableListing(front, k);
      InsertSorted(SortStable(front), last);
      InsertValues(SortStable(front), last, k);
      ValuesConcat(front, [last], k);
      assert s == front + [last];
    }
  }

  lemma {:induction false} NoValues(kvs: seq<Pair>, k: string)
    requires forall i | 0 <= i < |kvs| :: kvs[i].key != k
    ensures Values(kvs, k) == []
  {
    if kvs != [] {
      NoValues(kvs[1..], k);
    }
  }

  /** The smallest key comes first. */
  lemma {:induction false} FirstKey(a: seq<Pair>, b: seq<Pair>)
    requires Sorted(a) && Sorted(b) && a != [] && forall k :: Values(a, k) == Values(b, k)
    ensures b != [] && !Less(a[0].key, b[0].key)
  {
    var k := a[0].key;
    assert Values(a, k) != [];
    if b == [] || Less(k, b[0].key) {
      forall i | 0 <= i < |b|
        ensures b[i].key != k
      {
        LessIrreflexive(b[0].key);
      }
      NoValues(b, k);
    }
  }

  /** Keys in order and values in order for each key leave no choice. */
  lemma {:induction false} SortedUnique(a: seq<Pair>, b: seq<Pair>)
    requires Sorted(a) && Sorted(b) && forall k :: Values(a, k) == Values(b, k)
    ensures a == b
  {
    if a == [] {
      if b != [] {
        FirstKey(b, a);
      }
    } else {
      FirstKey(a, b);
      FirstKey(b, a);
      LessTotal(a[0].key, b[0].key);
      var k := a[0].key;
      assert Values(a, k)[0] == a[0].value && Values(b, k)[0] == b[0].value;
      forall x
        ensures Values(a[1..], x) == Values(b[1..], x)
      {
        if x == k {
          assert Values(a[1..], x) == Values(a, x)[1..] && Values(b[1..], x) == Values(b, x)[1..];
        } else {
          assert Values(a[1..], x) == Values(a, x) && Values(b[1..], x) == Values(b, x);
        }
      }
      SortedUnique(a[1..], b[1..]);
      assert a == [a[0]] + a[1..] && b == [b[0]] + b[1..];
    }
  }

  /** A multimap has one listing, whatever order its keys are visited in. */
  lemma {:induction false} ListingUnique(m: Multimap, a: seq<Pair>, b: seq<Pair>)
    requires IsListing(m, a) && IsListing(m, b)
    ensures a == b
  {
    SortedUnique(a, b);
  }

  // ----- the round trip

  predicate KeyOk(k: string) {
    Trimmed(k, IsSpace) && Free(k, ',') && Free(k, ':')
  }

  predicate ValueOk(v: string) {
    Trimmed(v, IsSpace) && Free(v, ',')
  }

  ghost predicate Printable(m: Multimap) {
    forall k | k in m :: KeyOk(k) && m[k] != [] && forall i | 0 <= i < |m[k]| :: ValueOk(m[k][i])
  }

  /** Adds well-formed pairs one after the other. */
  ghost function AddAll(kvs: seq<Pair>, m: Multimap): Multimap {
    if kvs == [] then m else AddAll(kvs[1..], Append(m, kvs[0]))
  }

  lemma {:induction false} AddAllValues(kvs: seq<Pair>, m: Multimap, k: string)
    ensures Get(AddAll(kvs, m), k) == Get(m, k) + Values(kvs, k)
    ensures k in AddAll(kvs, m) <==> k in m || Values(kvs, k) != []
  {
    if kvs != [] {
      AddAllValues(kvs[1..], Append(m, kvs[0]), k);
    }
  }

  lemma {:induction false} IndexOfColon(k: string, v: string)
    requires Free(k, ':')
    ensures IndexOf(k + ":" + v, ':') == |k|
  {
    if k != "" {
      IndexOfColon(k[1..], v);
      assert (k + ":" + v)[1..] == k[1..] + ":" + v;
      assert k[0] in k;
    }
  }

  // ----- every text, part by part

  /** Parts are parsed one after the other, up to the first malformed one. */
  lemma {:induction false} ParseConcat(a: seq<string>, b: seq<string>, m: Multimap)
    ensures ParseParts(a + b, m) ==
            if ParseParts(a, m).1 then ParseParts(b, ParseParts(a, m).0) else ParseParts(a, m)
  {
    if a == [] {
      assert a + b == b;
    } else {
      assert (a + b)[0] == a[0] && (a + b)[1..] == a[1..] + b;
      if a[0] == "" {
        ParseConcat(a[1..], b, m);
      } else if ParsePair(a[0]).Some? {
        ParseConcat(a[1..], b, Append(m, ParsePair(a[0]).value));
      }
    }
  }

  /** Blanks, tabs and line breaks, and text that begins and ends with something visible. */
  predicate Blank(c: char) {
    c == ' ' || c == '\t' || c == '\n' || c == '\r'
  }

  predicate Visible(c: char) {
    '!' <= c <= '~'
  }

  predicate Solid(s: string) {
    s == "" || (Visible(s[0]) && Visible(s[|s| - 1]))
  }

  lemma {:induction false} TrimBlanks(before: string, s: string, after: string)
    requires All(before, Blank) && All(after, Blank) && Solid(s)
    ensures TrimSpace(before + s + after) == s
  {
    TrimUndoes(before, s, after, IsSpace);
  }

  /** An empty part adds nothing, one without a colon is malformed, and any other adds the
      value after its first colon to the key before it, both without surrounding blanks. */
  lemma {:induction false} ParseOne(m: Multimap, part: string)
    ensures part == "" ==> ParseParts([part], m) == (m, true)
    ensures part != "" && ':' !in part ==> ParseParts([part], m) == (m, false)
  {
    assert IndexOf(part, ':') < |part| ==> ':' in part;
    assert [part][1..] == [];
  }

  lemma {:induction false} ParseColon(m: Multimap, b0: string, k: string, b1: string, b2: string, v: string, b3: string)
    requires All(b0, Blank) && All(b1, Blank) && All(b2, Blank) && All(b3, Blank)
    requires Solid(k) && Solid(v) && ':' !in k
    ensures ParseParts([b0 + k + b1 + ":" + (b2 + v + b3)], m) ==
            (m[k := (if k in m then m[k] else []) + [v]], true)
  {
    var key, value := b0 + k + b1, b2 + v + b3;
    assert Free(key, ':');
    IndexOfColon(key, value);
    var part := key + ":" + value;
    assert part[..|key|] == key && part[|key| + 1..] == value;
    TrimBlanks(b0, k, b1);
    TrimBlanks(b2, v, b3);
    assert [part][1..] == [];
  }

  lemma {:induction false} ParseFormatted(kv: Pair)
    requires KeyOk(kv.key) && ValueOk(kv.value)
    ensures ParsePair(FormatPair(kv)) == Some(kv)
    ensures FormatPair(kv) != "" && Free(FormatPair(kv), ',')
  {
    var s := FormatPair(kv);
    IndexOfColon(kv.key, kv.value);
    assert s[..|kv.key|] == kv.key && s[|kv.key| + 1..] == kv.value;
    TrimTrims(kv.key, IsSpace);
    TrimTrims(kv.value, IsSpace);
  }

  ghost predicate PairsOk(kvs: seq<Pair>) {
    forall i | 0 <= i < |kvs| :: KeyOk(kvs[i].key) && ValueOk(kvs[i].value)
  }

  lemma {:induction false} ParseFormattedAll(kvs: seq<Pair>, m: Multimap)
    requires PairsOk(kvs)
    ensures ParseParts(FormatPairs(kvs), m) == (AddAll(kvs, m), true)
  {
    if kvs != [] {
      ParseFormatted(kvs[0]);
      assert FormatPairs(kvs)[1..] == FormatPairs(kvs[1..]);
      ParseFormattedAll(kvs[1..], Append(m, kvs[0]));
    }
  }

  /** The text of a listing, pair by pair. */
  lemma {:induction false} FormatAppend(kvs: seq<Pair>, kv: Pair)
    ensures Format([]) == ""
    ensures Format(kvs + [kv]) == Format(kvs) + (if kvs == [] then "" else ",") + kv.key + ":" + kv.value
  {
    var parts := FormatPairs(kvs);
    assert FormatPairs(kvs + [kv]) == parts + [FormatPair(kv)];
    JoinAppend(parts, FormatPair(kv));
    if kvs != [] {
      assert Format(kvs) + "," + FormatPair(kv) == Format(kvs) + "," + kv.key + ":" + kv.value;
    }
  }

  lemma {:induction false} JoinAppend(parts: seq<string>, last: string)
    ensures Join(parts + [last], ',') == if parts == [] then last else Join(parts, ',') + "," + last
  {
    if parts == [] {
      assert parts + [last] == [last];
    } else {
      JoinAppend(parts[1..], last);
      assert (parts + [last])[1..] == parts[1..] + [last];
      if |parts| > 1 {
        assert Join(parts + [last], ',') == parts[0] + "," + (Join(parts[1..], ',') + "," + last);
      }
    }
  }

  lemma {:induction false} ParseFormat(kvs: seq<Pair>, m: Multimap)
    requires PairsOk(kvs)
    ensures Parse(Format(kvs), m) == (AddAll(kvs, m), true)
  {
    ParseFormattedAll(kvs, m);
    var parts := FormatPairs(kvs);
    if kvs == [] {
      assert Split("", ',') == [""];
      assert ParseParts([""], m) == ParseParts([], m);
    } else {
      forall i | 0 <= i < |parts|
        ensures Free(parts[i], ',')
      {
        ParseFormatted(kvs[i]);
      }
      SplitJoin(parts, ',');
    }
  }

  lemma {:induction false} ListedValue(kvs: seq<Pair>, i: nat)
    requires i < |kvs|
    ensures kvs[i].value in Values(kvs, kvs[i].key)
  {
    if i > 0 {
      ListedValue(kvs[1..], i - 1);
    }
  }

  lemma {:induction false} PrintableListing(m: Multimap, kvs: seq<Pair>)
    requires IsListing(m, kvs) && Printable(m)
    ensures PairsOk(kvs)
  {
    forall i | 0 <= i < |kvs|
      ensures KeyOk(kvs[i].key) && ValueOk(kvs[i].value)
    {
      ListedValue(kvs, i);
      assert Values(kvs, kvs[i].key) == Get(m, kvs[i].key);
    }
  }

  lemma {:induction false} ParsedPairOk(s: string)
    requires Free(s, ',') && ParsePair(s).Some?
    ensures KeyOk(ParsePair(s).value.key) && ValueOk(ParsePair(s).value.value)
  {
    var i := IndexOf(s, ':');
    TrimTrims(s[..i], IsSpace);
    TrimTrims(s[i + 1..], IsSpace);
  }

  lemma {:induction false} AppendPrintable(m: Multimap, kv: Pair)
    requires Printable(m) && KeyOk(kv.key) && ValueOk(kv.value)
    ensures Printable(Append(m, kv))
  {
  }

  /** Whatever is parsed can be printed. */
  lemma {:induction false} ParsedIsPrintable(parts: seq<string>, m: Multimap)
    requires Printable(m) && AllFree(parts, ',')
    ensures Printable(ParseParts(parts, m).0)
  {
    if parts != [] {
      var s := parts[0];
      assert Free(s, ',');
      if s == "" {
        ParsedIsPrintable(parts[1..], m);
      } else if ParsePair(s).Some? {
        var kv := ParsePair(s).value;
        ParsedPairOk(s);
        AppendPrintable(m, kv);
        ParsedIsPrintable(parts[1..], Append(m, kv));
      }
    }
  }

  /** Parsing the text of a multimap gives the multimap back, with every list in order,
      exactly if its lists are not empty and its keys and values are trimmed and free of
      the separators. */
  lemma {:induction false} RoundTripExactly(m: Multimap, kvs: seq<Pair>)
    requires IsListing(m, kvs)
    ensures Parse(Format(kvs), map[]) == (m, true) <==> Printable(m)
  {
    if Printable(m) {
      PrintableListing(m, kvs);
      ParseFormat(kvs, map[]);
      forall k
        ensures k in AddAll(kvs, map[]) <==> k in m
        ensures Get(AddAll(kvs, map[]), k) == Get(m, k)
      {
        AddAllValues(kvs, map[], k);
      }
      SameMap(AddAll(kvs, map[]), m);
    }
    SplitIsFree(Format(kvs), ',');
    ParsedIsPrintable(Split(Format(kvs), ','), map[]);
  }

  lemma {:induction false} SameMap(a: Multimap, b: Multimap)
    requires forall k :: (k in a <==> k in b) && Get(a, k) == Get(b, k)
    ensures a == b
  {
    forall k | k in a
      ensures k in b && a[k] == b[k]
    {
      assert Get(a, k) == Get(b, k);
    }
    assert a.Keys == b.Keys;
  }

  // ----- the flag

  class ColonSeparatedMultimap {
    /** False for a nil pointer to the map. */
    const hasTarget: bool

    /** `None` is the nil map. */
    var multimap: Option<Multimap>
    var initialized: bool

    constructor (hasTarget: bool, multimap: Option<Multimap>)
      ensures this.hasTarget == hasTarget && this.multimap == multimap && !initialized
    {
      this.hasTarget, this.multimap, initialized := hasTarget, multimap, false;
    }

    function Current(): Multimap
      reads this
    {
      if multimap.Some? then multimap.value else map[]
    }

    /** The first call replaces the default; later calls, and pairs before a malformed
        one, are added. */
    method Set(value: string) returns (ok: bool)
      modifies this
      ensures !hasTarget ==> !ok && multimap == old(multimap) && initialized == old(initialized)
      ensures hasTarget ==>
                && initialized && multimap.Some?
                && (multimap.value, ok) == Parse(value, if old(initialized) then old(Current()) else map[])
    {
      if !hasTarget {
        return false;
      }
      if !initialized || multimap.None? {
        multimap, initialized := Some(map[]), true;
      }
      var parts := Split(value, ',');
      ghost var start := multimap.value;
      for i := 0 to |parts|
        invariant initialized && multimap.Some?
        invariant ParseParts(parts, start) == ParseParts(parts[i..], multimap.value)
      {
        assert parts[i..][1..] == parts[i + 1..];
        var pair := parts[i];
        if |pair| == 0 {
          continue;
        }
        var kv := ParsePair(pair);
        if kv.None? {
          return false;
        }
        multimap := Some(Append(multimap.value, kv.value));
      }
      return true;
    }

    /** The text is that of the listing, which is sorted by keys. */
    method String() returns (s: string)
      requires hasTarget
      ensures exists kvs :: IsListing(Current(), kvs) && s == Format(kvs)
    {
      var m := Current();
      var kvs := Entries(m);
      var sorted := SortStable(kvs);
      assert IsListing(m, sorted) by {
        SortStableListing(kvs, "");
        forall k
          ensures Values(sorted, k) == Get(m, k)
        {
          SortStableListing(kvs, k);
        }
      }
      s := Format(sorted);
    }

    /** Visits the keys in any order. */
    static method Entries(m: Multimap) returns (kvs: seq<Pair>)
      ensures forall k :: Values(kvs, k) == Get(m, k)
    {
      kvs := [];
      var todo := m.Keys;
      while todo != {}
        invariant todo <= m.Keys
        invariant forall k :: Values(kvs, k) == if k in todo then [] else Get(m, k)
        decreases todo
      {
        var k :| k in todo;
        kvs := AppendEntries(kvs, k, m[k]);
        todo := todo - {k};
      }
    }

    static method AppendEntries(before: seq<Pair>, k: string, vs: seq<string>) returns (kvs: seq<Pair>)
      ensures forall x :: Values(kvs, x) == Values(before, x) + if x == k then vs else []
    {
      kvs := before;
      for i := 0 to |vs|
        invariant forall x :: Values(kvs, x) == Values(before, x) + if x == k then vs[..i] else []
      {
        forall x
          ensures Values(kvs + [Pair(k, vs[i])], x) == Values(kvs, x) + if x == k then [vs[i]] else []
        {
          ValuesConcat(kvs, [Pair(k, vs[i])], x);
        }
        assert vs[..i + 1] == vs[..i] + [vs[i]];
        kvs := kvs + [Pair(k, vs[i])];
      }
      assert vs[..|vs|] == vs;
    }
  }
}
