/** The parts of Go's `strings` package that the flag and URL parsers use. */
module Strings {

  predicate Free(s: string, c: char) {
    c !in s
  }

  ghost predicate AllFree(parts: seq<string>, c: char) {
    forall i | 0 <= i < |parts| :: Free(parts[i], c)
  }

  /** `strings.Split` by one character: never empty. */
  function Split(s: string, c: char): (parts: seq<string>)
    ensures parts != []
  {
    if s == "" then [""]
    else
      var rest := Split(s[1..], c);
      if s[0] == c then [""] + rest else [[s[0]] + rest[0]] + rest[1..]
  }

  /** `strings.Join` by one character. */
  function Join(parts: seq<string>, c: char): string {
    if parts == [] then ""
    else if |parts| == 1 then parts[0]
    else parts[0] + [c] + Join(parts[1..], c)
  }

  lemma {:induction false} SplitIsFree(s: string, c: char)
    ensures AllFree(Split(s, c), c)
  {
    if s != "" {
      SplitIsFree(s[1..], c);
      assert Free(Split(s[1..], c)[0], c);
    }
  }

  lemma {:induction false} JoinSplit(s: string, c: char)
    ensures Join(Split(s, c), c) == s
  {
    if s != "" {
      JoinSplit(s[1..], c);
      var rest := Split(s[1..], c);
      if s[0] == c {
        assert ([""] + rest)[1..] == rest;
        assert s == "" + [c] + s[1..];
      } else {
        var parts := [[s[0]] + rest[0]] + rest[1..];
        assert parts[1..] == rest[1..];
        assert s == [s[0]] + s[1..];
        if |rest| > 1 {
          assert Join(parts, c) == [s[0]] + (rest[0] + [c] + Join(rest[1..], c));
        }
      }
    }
  }

  /** Text before the first separator stays in the first part. */
  lemma {:induction false} SplitPrefix(p: string, s: string, c: char)
    requires Free(p, c)
    ensures Split(p + s, c) == [p + Split(s, c)[0]] + Split(s, c)[1..]
  {
    var parts := Split(s, c);
    if p == "" {
      assert p + s == s && p + parts[0] == parts[0];
    } else {
      assert (p + s)[1..] == p[1..] + s;
      SplitPrefix(p[1..], s, c);
      assert p[0] != c;
      assert [p[0]] + (p[1..] + parts[0]) == p + parts[0];
    }
  }

  lemma {:induction false} SplitJoin(parts: seq<string>, c: char)
    requires parts != [] && AllFree(parts, c)
    ensures Split(Join(parts, c), c) == parts
  {
    if |parts| == 1 {
      SplitPrefix(parts[0], "", c);
      assert parts[0] + "" == parts[0];
    } else {
      var tail := Join(parts[1..], c);
      SplitJoin(parts[1..], c);
      assert Join(parts, c) == parts[0] + ([c] + tail);
      assert ([c] + tail)[1..] == tail;
      assert Split([c] + tail, c) == [""] + parts[1..];
      assert ([""] + parts[1..])[1..] == parts[1..];
      SplitPrefix(parts[0], [c] + tail, c);
      assert parts[0] + "" == parts[0];
    }
  }

  // ----- trimming

  function TrimLeft(s: string, p: char -> bool): string {
    if s != "" && p(s[0]) then TrimLeft(s[1..], p) else s
  }

  function TrimRight(s: string, p: char -> bool): string {
    if s != "" && p(s[|s| - 1]) then TrimRight(s[..|s| - 1], p) else s
  }

  /** `strings.TrimFunc`. */
  function Trim(s: string, p: char -> bool): string {
    TrimRight(TrimLeft(s, p), p)
  }

  predicate Trimmed(s: string, p: char -> bool) {
    s == "" || (!p(s[0]) && !p(s[|s| - 1]))
  }

  lemma {:induction false} TrimLeftTrims(s: string, p: char -> bool)
    ensures var t := TrimLeft(s, p);
            && (t == "" || !p(t[0]))
            && forall c | c in t :: c in s
  {
    if s != "" && p(s[0]) {
      TrimLeftTrims(s[1..], p);
    }
  }

  lemma {:induction false} TrimRightTrims(s: string, p: char -> bool)
    ensures var t := TrimRight(s, p);
            && (t == "" || !p(t[|t| - 1]))
            && t <= s
            && forall c | c in t :: c in s
  {
    if s != "" && p(s[|s| - 1]) {
      TrimRightTrims(s[..|s| - 1], p);
    }
  }

  ghost predicate All(s: string, p: char -> bool) {
    forall i | 0 <= i < |s| :: p(s[i])
  }

  lemma {:induction false} TrimLeftCuts(s: string, p: char -> bool) returns (before: string)
    ensures s == before + TrimLeft(s, p) && All(before, p)
  {
    before := "";
    if s != "" && p(s[0]) {
      var rest := TrimLeftCuts(s[1..], p);
      before := [s[0]] + rest;
    }
  }

  lemma {:induction false} TrimRightCuts(s: string, p: char -> bool) returns (after: string)
    ensures s == TrimRight(s, p) + after && All(after, p)
  {
    after := "";
    if s != "" && p(s[|s| - 1]) {
      var rest := TrimRightCuts(s[..|s| - 1], p);
      after := rest + [s[|s| - 1]];
      assert s == s[..|s| - 1] + [s[|s| - 1]];
    }
  }

  /** What trimming cuts off at the two ends is only what is to be cut. */
  lemma {:induction false} TrimCuts(s: string, p: char -> bool) returns (before: string, after: string)
    ensures s == before + Trim(s, p) + after && All(before, p) && All(after, p)
  {
    before := TrimLeftCuts(s, p);
    after := TrimRightCuts(TrimLeft(s, p), p);
  }

  lemma {:induction false} TrimLeftAll(before: string, s: string, p: char -> bool)
    requires All(before, p)
    ensures TrimLeft(before + s, p) == TrimLeft(s, p)
  {
    if before == "" {
      assert before + s == s;
    } else {
      assert (before + s)[1..] == before[1..] + s;
      TrimLeftAll(before[1..], s, p);
    }
  }

  lemma {:induction false} TrimRightAll(s: string, after: string, p: char -> bool)
    requires All(after, p)
    ensures TrimRight(s + after, p) == TrimRight(s, p)
  {
    if after == "" {
      assert s + after == s;
    } else {
      var n := |after| - 1;
      assert (s + after)[..|s| + n] == s + after[..n];
      TrimRightAll(s, after[..n], p);
    }
  }

  /** Whatever surrounds trimmed text and is to be cut is cut. */
  lemma {:induction false} TrimUndoes(before: string, s: string, after: string, p: char -> bool)
    requires All(before, p) && All(after, p) && Trimmed(s, p)
    ensures Trim(before + s + after, p) == s
  {
    assert before + s + after == before + (s + after);
    TrimLeftAll(before, s + after, p);
    if s == "" {
      assert s + after == after + "";
      TrimLeftAll(after, "", p);
    } else {
      TrimRightAll(s, after, p);
    }
  }

  /** Trimming keeps a part of the text that begins and ends as it should. */
  lemma {:induction false} TrimTrims(s: string, p: char -> bool)
    ensures Trimmed(Trim(s, p), p)
    ensures forall c | c in Trim(s, p) :: c in s
    ensures Trimmed(s, p) ==> Trim(s, p) == s
  {
    TrimLeftTrims(s, p);
    TrimRightTrims(TrimLeft(s, p), p);
  }
}
