/** The model gateway (qwen_client.py): the JSON repair and extraction applied
    to every model reply, the client's configuration check, the answer-area
    normalisation of `parse_math_problems_response` and the finger-tip clamp.
    The remote calls themselves are inputs: a reply is a string, and
    `json.loads` is the parameter `decode`. */
module QwenClient {
  import opened JsonValue

  // ---------------------------------------------------------------------
  // JSON text repair: `_clean_json_string`
  // ---------------------------------------------------------------------

  /** The characters `\s` matches in a Python `str` pattern (those for which
      `str.isspace()` holds). */
  predicate IsSpace(c: char) {
    var n := c as int;
    n == 0x20 || 0x09 <= n <= 0x0d || 0x1c <= n <= 0x1f || n == 0x85 || n == 0xa0
    || n == 0x1680 || 0x2000 <= n <= 0x200a || n == 0x2028 || n == 0x2029
    || n == 0x202f || n == 0x205f || n == 0x3000
  }

  /** Length of the whitespace run at the start of s. */
  function SpaceRun(s: string): (n: nat)
    ensures n <= |s|
    ensures forall i :: 0 <= i < n ==> IsSpace(s[i])
    ensures n < |s| ==> !IsSpace(s[n])
  {
    if s != [] && IsSpace(s[0]) then 1 + SpaceRun(s[1..]) else 0
  }

  /** A comma, a (possibly empty) whitespace run and then `close` start at
      the front of s: the shape `,\s*` followed by `close` matches there. */
  predicate CommaBefore(s: string, close: char) {
    |s| > 0 && s[0] == ',' && 1 + SpaceRun(s[1..]) < |s| && s[1 + SpaceRun(s[1..])] == close
  }

  /** One `re.sub(r',\s*' + close, close, s)`: scanning left to right, each
      comma followed by whitespace and then `close` is replaced by `close`;
      the scan resumes after the `close`. */
  function DropCommaBefore(s: string, close: char): (r: string)
    ensures |r| <= |s|
    decreases |s|
  {
    if s == [] then []
    else if CommaBefore(s, close) then [close] + DropCommaBefore(s[2 + SpaceRun(s[1..])..], close)
    else [s[0]] + DropCommaBefore(s[1..], close)
  }

  /** A pass changes nothing in a text without commas. */
  lemma {:induction false} DropCommaBeforeNoComma(s: string, close: char)
    requires ',' !in s
    ensures DropCommaBefore(s, close) == s
    decreases |s|
  {
    if s != [] {
      assert ',' !in s[1..];
      DropCommaBeforeNoComma(s[1..], close);
      assert s == [s[0]] + s[1..];
    }
  }

  /** A pass deletes no character other than commas and whitespace: every
      other character occurs as often afterwards as before. */
  lemma {:induction false} DropCommaBeforeCounts(s: string, close: char, c: char)
    requires close != ',' && !IsSpace(close)
    requires c != ',' && !IsSpace(c)
    ensures multiset(DropCommaBefore(s, close))[c] == multiset(s)[c]
    decreases |s|
  {
    if s == [] {
    } else if CommaBefore(s, close) {
      var k := SpaceRun(s[1..]);
      var head, rest := s[..2 + k], s[2 + k..];
      assert s == head + rest;
      CommaRunCount(s, close, c);
      DropCommaBeforeCounts(rest, close, c);
      assert DropCommaBefore(s, close) == [close] + DropCommaBefore(rest, close);
    } else {
      assert s == [s[0]] + s[1..];
      DropCommaBeforeCounts(s[1..], close, c);
      assert DropCommaBefore(s, close) == [s[0]] + DropCommaBefore(s[1..], close);
    }
  }

  /** The matched `,\s*` and `close` hold `c` only as the `close` itself. */
  lemma CommaRunCount(s: string, close: char, c: char)
    requires CommaBefore(s, close)
    requires c != ',' && !IsSpace(c)
    ensures multiset(s[..2 + SpaceRun(s[1..])])[c] == multiset([close])[c]
  {
    var k := SpaceRun(s[1..]);
    var run := s[1..1 + k];
    assert s[..2 + k] == [s[0]] + run + [close];
    assert forall i :: 0 <= i < |run| ==> run[i] != c;
    assert c !in run;
  }

  /** A pass keeps the first and the last character when they are not commas. */
  lemma DropCommaBeforeEnds(s: string, close: char)
    requires |s| > 0
    ensures s[0] != ',' ==> |DropCommaBefore(s, close)| > 0 && DropCommaBefore(s, close)[0] == s[0]
    ensures s[|s| - 1] != ',' ==>
      var r := DropCommaBefore(s, close);
      |r| > 0 && r[|r| - 1] == s[|s| - 1]
  {
    if s[0] != ',' {
      assert !CommaBefore(s, close);
    }
    if s[|s| - 1] != ',' {
      DropCommaBeforeLast(s, close);
    }
  }

  lemma {:induction false} DropCommaBeforeLast(s: string, close: char)
    requires |s| > 0 && s[|s| - 1] != ','
    ensures var r := DropCommaBefore(s, close); |r| > 0 && r[|r| - 1] == s[|s| - 1]
    decreases |s|
  {
    if CommaBefore(s, close) {
      var rest := s[2 + SpaceRun(s[1..])..];
      assert DropCommaBefore(s, close) == [close] + DropCommaBefore(rest, close);
      if rest != [] {
        assert rest[|rest| - 1] == s[|s| - 1];
        DropCommaBeforeLast(rest, close);
      } else {
        assert s[|s| - 1] == close;
      }
    } else {
      assert DropCommaBefore(s, close) == [s[0]] + DropCommaBefore(s[1..], close);
      if |s| > 1 {
        assert s[1..][|s| - 2] == s[|s| - 1];
        DropCommaBeforeLast(s[1..], close);
      }
    }
  }

  /** The number of positions of s at which `,\s*` followed by `close`
      matches, counted position by position. */
  function MatchCount(s: string, close: char): nat
    decreases |s|
  {
    if s == [] then 0 else (if CommaBefore(s, close) then 1 else 0) + MatchCount(s[1..], close)
  }

  /** Where the pattern matches nowhere, a pass changes nothing: only a
      comma followed by whitespace and `close` is ever removed. */
  lemma {:induction false} DropCommaBeforeOnlyMatches(s: string, close: char)
    requires forall i :: 0 <= i < |s| ==> !CommaBefore(s[i..], close)
    ensures DropCommaBefore(s, close) == s
    decreases |s|
  {
    if s != [] {
      assert s[0..] == s;
      forall i | 0 <= i < |s[1..]|
        ensures !CommaBefore(s[1..][i..], close)
      {
        assert s[1..][i..] == s[i + 1..];
      }
      DropCommaBeforeOnlyMatches(s[1..], close);
      assert s == [s[0]] + s[1..];
    }
  }

  /** A pass removes exactly one comma per position where the pattern
      matches. */
  lemma {:induction false} DropCommaBeforeCommas(s: string, close: char)
    requires close != ','
    ensures MatchCount(s, close) <= multiset(s)[',']
    ensures multiset(DropCommaBefore(s, close))[','] == multiset(s)[','] - MatchCount(s, close)
    decreases |s|
  {
    if s == [] {
    } else if CommaBefore(s, close) {
      var rest := s[2 + SpaceRun(s[1..])..];
      MatchHeadCommas(s, close);
      DropCommaBeforeCommas(rest, close);
      assert DropCommaBefore(s, close) == [close] + DropCommaBefore(rest, close);
    } else {
      assert s == [s[0]] + s[1..];
      DropCommaBeforeCommas(s[1..], close);
      assert DropCommaBefore(s, close) == [s[0]] + DropCommaBefore(s[1..], close);
    }
  }

  /** A match at the front holds one comma, counts one match, and the
      matches after it are those of the text after its `close`. */
  lemma MatchHeadCommas(s: string, close: char)
    requires close != ',' && CommaBefore(s, close)
    ensures var rest := s[2 + SpaceRun(s[1..])..];
      && multiset(s)[','] == 1 + multiset(rest)[',']
      && MatchCount(s, close) == 1 + MatchCount(rest, close)
  {
    var k := SpaceRun(s[1..]);
    var rest := s[2 + k..];
    var run := s[1..1 + k];
    assert s == [','] + run + [close] + rest;
    forall i | 0 <= i < |run|
      ensures run[i] != ','
    {
      assert run[i] == s[1..][i] && IsSpace(s[1..][i]);
    }
    assert ',' !in run;
    assert forall i :: 0 <= i < 1 + k ==> s[1..][i] != ',' by {
      forall i | 0 <= i < 1 + k
        ensures s[1..][i] != ','
      {
        if i < k {
          assert s[1..][i] == run[i];
        }
      }
    }
    MatchCountSkip(s[1..], close, 1 + k);
    assert s[1..][1 + k..] == rest;
  }

  /** No match can start at a character that is not a comma. */
  lemma {:induction false} MatchCountSkip(s: string, close: char, n: nat)
    requires n <= |s| && forall i :: 0 <= i < n ==> s[i] != ','
    ensures MatchCount(s, close) == MatchCount(s[n..], close)
    decreases n
  {
    if n > 0 {
      assert !CommaBefore(s, close);
      assert forall i :: 0 <= i < n - 1 ==> s[1..][i] == s[i + 1];
      assert s[1..][n - 1..] == s[n..];
      MatchCountSkip(s[1..], close, n - 1);
    }
  }

  /** Length of the whitespace run of s starting at position i. */
  function RunAt(s: string, i: nat): nat
    decreases |s| - i
  {
    if i < |s| && IsSpace(s[i]) then 1 + RunAt(s, i + 1) else 0
  }

  /** The shape `,\s*` followed by `close` matches at position i of s. */
  predicate MatchAt(s: string, close: char, i: nat) {
    i < |s| && s[i] == ',' && i + 1 + RunAt(s, i + 1) < |s| && s[i + 1 + RunAt(s, i + 1)] == close
  }

  /** Position j of s is the comma or one of the whitespace characters of a
      match. The `close` itself is not part of it: the replacement puts it
      back. */
  ghost predicate InMatch(s: string, close: char, j: nat) {
    exists i: nat :: i <= j && MatchAt(s, close, i) && j <= i + RunAt(s, i + 1)
  }

  /** The characters of s from position `from` on that lie in no match, in
      their order: what a pass is meant to leave. */
  ghost function Unmatched(s: string, close: char, from: nat): string
    requires from <= |s|
    decreases |s| - from
  {
    if from == |s| then []
    else (if InMatch(s, close, from) then [] else [s[from]]) + Unmatched(s, close, from + 1)
  }

  /** Every match starting before p has its comma and whitespace before p. */
  ghost predicate MatchesEndBefore(s: string, close: char, p: nat) {
    forall i: nat :: i < p && MatchAt(s, close, i) ==> i + RunAt(s, i + 1) < p
  }

  /** Which characters a pass removes: exactly the comma and the whitespace
      of each match of `,\s*` followed by `close`. Every other character,
      and every other comma, stays, in order. */
  lemma DropCommaBeforeRemovesMatches(s: string, close: char)
    requires close != ','
    ensures DropCommaBefore(s, close) == Unmatched(s, close, 0)
  {
    assert s[0..] == s;
    DropCommaBeforeScan(s, close, 0);
    ScanKeepsUnmatched(s, close, 0);
  }

  /** The pass on the suffix from p, followed on positions of s. */
  function ScanFrom(s: string, close: char, p: nat): string
    requires p <= |s|
    decreases |s| - p
  {
    if p == |s| then []
    else if MatchAt(s, close, p) then [close] + ScanFrom(s, close, p + 2 + RunAt(s, p + 1))
    else [s[p]] + ScanFrom(s, close, p + 1)
  }

  lemma {:induction false} DropCommaBeforeScan(s: string, close: char, p: nat)
    requires p <= |s|
    ensures DropCommaBefore(s[p..], close) == ScanFrom(s, close, p)
    decreases |s| - p
  {
    if p == |s| {
      assert s[p..] == [];
    } else if MatchAt(s, close, p) {
      DropCommaBeforeScan(s, close, p + 2 + RunAt(s, p + 1));
      ScanStepAtMatch(s, close, p);
    } else {
      DropCommaBeforeScan(s, close, p + 1);
      ScanStepAtOther(s, close, p);
    }
  }

  lemma ScanStepAtMatch(s: string, close: char, p: nat)
    requires MatchAt(s, close, p) && p + 2 + RunAt(s, p + 1) <= |s|
    requires DropCommaBefore(s[p + 2 + RunAt(s, p + 1)..], close) == ScanFrom(s, close, p + 2 + RunAt(s, p + 1))
    ensures DropCommaBefore(s[p..], close) == ScanFrom(s, close, p)
  {
    DropStepAtMatch(s, close, p);
  }

  lemma ScanStepAtOther(s: string, close: char, p: nat)
    requires p < |s| && !MatchAt(s, close, p)
    requires DropCommaBefore(s[p + 1..], close) == ScanFrom(s, close, p + 1)
    ensures DropCommaBefore(s[p..], close) == ScanFrom(s, close, p)
  {
    DropStepAtOther(s, close, p);
  }

  lemma {:induction false} ScanKeepsUnmatched(s: string, close: char, p: nat)
    requires close != ',' && p <= |s|
    requires MatchesEndBefore(s, close, p)
    ensures ScanFrom(s, close, p) == Unmatched(s, close, p)
    decreases |s| - p
  {
    if p == |s| {
    } else if MatchAt(s, close, p) {
      UnmatchedAtMatch(s, close, p);
      ScanKeepsUnmatched(s, close, p + 2 + RunAt(s, p + 1));
      KeepStepAtMatch(s, close, p);
    } else {
      UnmatchedAtOther(s, close, p);
      ScanKeepsUnmatched(s, close, p + 1);
      KeepStepAtOther(s, close, p);
    }
  }

  lemma KeepStepAtMatch(s: string, close: char, p: nat)
    requires MatchAt(s, close, p) && p + 2 + RunAt(s, p + 1) <= |s|
    requires Unmatched(s, close, p) == [close] + Unmatched(s, close, p + 2 + RunAt(s, p + 1))
    requires ScanFrom(s, close, p + 2 + RunAt(s, p + 1)) == Unmatched(s, close, p + 2 + RunAt(s, p + 1))
    ensures ScanFrom(s, close, p) == Unmatched(s, close, p)
  {
  }

  lemma KeepStepAtOther(s: string, close: char, p: nat)
    requires p < |s| && !MatchAt(s, close, p)
    requires Unmatched(s, close, p) == [s[p]] + Unmatched(s, close, p + 1)
    requires ScanFrom(s, close, p + 1) == Unmatched(s, close, p + 1)
    ensures ScanFrom(s, close, p) == Unmatched(s, close, p)
  {
  }

  lemma DropStepAtMatch(s: string, close: char, p: nat)
    requires MatchAt(s, close, p)
    ensures p + 2 + RunAt(s, p + 1) <= |s|
    ensures DropCommaBefore(s[p..], close) == [close] + DropCommaBefore(s[p + 2 + RunAt(s, p + 1)..], close)
  {
    MatchAtCommaBefore(s, close, p);
    var t := s[p..];
    assert t[2 + RunAt(s, p + 1)..] == s[p + 2 + RunAt(s, p + 1)..];
  }

  lemma DropStepAtOther(s: string, close: char, p: nat)
    requires p < |s| && !MatchAt(s, close, p)
    ensures DropCommaBefore(s[p..], close) == [s[p]] + DropCommaBefore(s[p + 1..], close)
  {
    MatchAtCommaBefore(s, close, p);
    assert s[p..][1..] == s[p + 1..];
  }

  /** The index form of the match test agrees with the one the pass uses. */
  lemma MatchAtCommaBefore(s: string, close: char, p: nat)
    requires p < |s|
    ensures RunAt(s, p + 1) == SpaceRun(s[p + 1..])
    ensures MatchAt(s, close, p) == CommaBefore(s[p..], close)
  {
    RunAtSpaceRun(s, p + 1);
    assert s[p..][1..] == s[p + 1..];
  }

  lemma {:induction false} RunAtSpaceRun(s: string, i: nat)
    requires i <= |s|
    ensures RunAt(s, i) == SpaceRun(s[i..])
    decreases |s| - i
  {
    if i < |s| {
      assert s[i..][0] == s[i] && s[i..][1..] == s[i + 1..];
      RunAtSpaceRun(s, i + 1);
    }
  }

  /** Every character of the run at i is whitespace, hence not a comma. */
  lemma {:induction false} RunAtNoComma(s: string, i: nat, j: nat)
    requires i <= j < i + RunAt(s, i)
    ensures j < |s| && IsSpace(s[j]) && s[j] != ','
    decreases j - i
  {
    if i < j {
      RunAtNoComma(s, i + 1, j);
    }
  }

  /** At a match, the comma and whitespace go and the `close` stays; the
      next match can only start after the `close`. */
  lemma UnmatchedAtMatch(s: string, close: char, p: nat)
    requires close != ','
    requires MatchesEndBefore(s, close, p) && MatchAt(s, close, p)
    ensures p + 2 + RunAt(s, p + 1) <= |s|
    ensures Unmatched(s, close, p) == [close] + Unmatched(s, close, p + 2 + RunAt(s, p + 1))
    ensures MatchesEndBefore(s, close, p + 2 + RunAt(s, p + 1))
  {
    MatchDropped(s, close, p);
    CloseKept(s, close, p);
    MatchEndsAfterClose(s, close, p);
  }

  lemma MatchDropped(s: string, close: char, p: nat)
    requires MatchAt(s, close, p)
    ensures Unmatched(s, close, p) == Unmatched(s, close, p + 1 + RunAt(s, p + 1))
  {
    MatchCovers(s, close, p);
    UnmatchedSkips(s, close, p, p + 1 + RunAt(s, p + 1));
  }

  lemma CloseKept(s: string, close: char, p: nat)
    requires close != ','
    requires MatchesEndBefore(s, close, p) && MatchAt(s, close, p)
    ensures Unmatched(s, close, p + 1 + RunAt(s, p + 1)) == [close] + Unmatched(s, close, p + 2 + RunAt(s, p + 1))
  {
    NoMatchInTail(s, close, p);
    CloseNotInMatch(s, close, p);
  }

  lemma MatchEndsAfterClose(s: string, close: char, p: nat)
    requires close != ','
    requires MatchesEndBefore(s, close, p) && MatchAt(s, close, p)
    ensures MatchesEndBefore(s, close, p + 2 + RunAt(s, p + 1))
  {
    NoMatchInTail(s, close, p);
    MatchEnds(s, close, p);
  }

  /** The comma and the whitespace of the match at p are in it. */
  lemma MatchCovers(s: string, close: char, p: nat)
    requires MatchAt(s, close, p)
    ensures forall j: nat :: p <= j < p + 1 + RunAt(s, p + 1) ==> InMatch(s, close, j)
  {
    forall j: nat | p <= j < p + 1 + RunAt(s, p + 1)
      ensures InMatch(s, close, j)
    {
      assert MatchAt(s, close, p) && j <= p + RunAt(s, p + 1);
    }
  }

  /** No match starts after the comma of the match at p, up to its `close`. */
  lemma NoMatchInTail(s: string, close: char, p: nat)
    requires close != ',' && MatchAt(s, close, p)
    ensures forall i: nat :: p < i <= p + 1 + RunAt(s, p + 1) ==> !MatchAt(s, close, i)
  {
    forall i: nat | p < i <= p + 1 + RunAt(s, p + 1)
      ensures !MatchAt(s, close, i)
    {
      if i < p + 1 + RunAt(s, p + 1) {
        RunAtNoComma(s, p + 1, i);
      }
    }
  }

  lemma CloseNotInMatch(s: string, close: char, p: nat)
    requires MatchesEndBefore(s, close, p) && MatchAt(s, close, p)
    requires forall i: nat :: p < i <= p + 1 + RunAt(s, p + 1) ==> !MatchAt(s, close, i)
    ensures !InMatch(s, close, p + 1 + RunAt(s, p + 1))
  {
  }

  lemma MatchEnds(s: string, close: char, p: nat)
    requires MatchesEndBefore(s, close, p) && MatchAt(s, close, p)
    requires forall i: nat :: p < i <= p + 1 + RunAt(s, p + 1) ==> !MatchAt(s, close, i)
    ensures MatchesEndBefore(s, close, p + 2 + RunAt(s, p + 1))
  {
  }

  /** Where no match starts, the character stays. */
  lemma UnmatchedAtOther(s: string, close: char, p: nat)
    requires p < |s|
    requires MatchesEndBefore(s, close, p) && !MatchAt(s, close, p)
    ensures Unmatched(s, close, p) == [s[p]] + Unmatched(s, close, p + 1)
    ensures MatchesEndBefore(s, close, p + 1)
  {
  }

  lemma {:induction false} UnmatchedSkips(s: string, close: char, p: nat, q: nat)
    requires p <= q <= |s|
    requires forall j: nat :: p <= j < q ==> InMatch(s, close, j)
    ensures Unmatched(s, close, p) == Unmatched(s, close, q)
    decreases q - p
  {
    if p < q {
      UnmatchedSkips(s, close, p + 1, q);
    }
  }

  /** `_clean_json_string`: the two substitutions, `}` first, then `]`. */
  function CleanJsonString(s: string): (r: string)
    ensures |r| <= |s|
  {
    DropCommaBefore(DropCommaBefore(s, '}'), ']')
  }

  /** What cleaning keeps: comma-free text is unchanged, every character
      other than commas and whitespace occurs as often as before, and a
      first or last character that is not a comma stays in place. */
  lemma CleanJsonStringKeeps(s: string)
    ensures ',' !in s ==> CleanJsonString(s) == s
    ensures forall c :: c != ',' && !IsSpace(c) ==> multiset(CleanJsonString(s))[c] == multiset(s)[c]
    ensures var r := CleanJsonString(s);
      && (|s| > 0 && s[0] != ',' ==> |r| > 0 && r[0] == s[0])
      && (|s| > 0 && s[|s| - 1] != ',' ==> |r| > 0 && r[|r| - 1] == s[|s| - 1])
  {
    var once := DropCommaBefore(s, '}');
    CleanKeepsCommaFree(s, once);
    CleanKeepsCounts(s, once);
    CleanKeepsEnds(s, once);
  }

  /** Which commas cleaning removes: none when neither pattern matches
      anywhere in the text, and otherwise exactly one per match of the
      first pass and one per match of the second pass on its result. */
  lemma CleanJsonStringCommas(s: string)
    ensures (forall i :: 0 <= i < |s| ==> !CommaBefore(s[i..], '}') && !CommaBefore(s[i..], ']')) ==>
      CleanJsonString(s) == s
    ensures multiset(CleanJsonString(s))[','] ==
      multiset(s)[','] - MatchCount(s, '}') - MatchCount(DropCommaBefore(s, '}'), ']')
  {
    var once := DropCommaBefore(s, '}');
    CleanKeepsUnmatched(s, once);
    DropCommaBeforeCommas(s, '}');
    DropCommaBeforeCommas(once, ']');
  }

  /** Which characters cleaning removes: the first pass drops the comma and
      whitespace of each `,\s*}` match, the second those of each `,\s*]`
      match in what the first pass left; nothing else is removed or moved. */
  lemma CleanJsonStringRemovesMatches(s: string)
    ensures CleanJsonString(s) == Unmatched(Unmatched(s, '}', 0), ']', 0)
  {
    DropCommaBeforeRemovesMatches(s, '}');
    DropCommaBeforeRemovesMatches(DropCommaBefore(s, '}'), ']');
  }

  lemma CleanKeepsUnmatched(s: string, once: string)
    requires once == DropCommaBefore(s, '}')
    ensures (forall i :: 0 <= i < |s| ==> !CommaBefore(s[i..], '}') && !CommaBefore(s[i..], ']')) ==>
      DropCommaBefore(once, ']') == s
  {
    if forall i :: 0 <= i < |s| ==> !CommaBefore(s[i..], '}') && !CommaBefore(s[i..], ']') {
      DropCommaBeforeOnlyMatches(s, '}');
      DropCommaBeforeOnlyMatches(s, ']');
    }
  }

  lemma CleanKeepsCommaFree(s: string, once: string)
    requires once == DropCommaBefore(s, '}')
    ensures ',' !in s ==> DropCommaBefore(once, ']') == s
  {
    if ',' !in s {
      DropCommaBeforeNoComma(s, '}');
      DropCommaBeforeNoComma(once, ']');
    }
  }

  lemma CleanKeepsCounts(s: string, once: string)
    requires once == DropCommaBefore(s, '}')
    ensures forall c :: c != ',' && !IsSpace(c) ==> multiset(DropCommaBefore(once, ']'))[c] == multiset(s)[c]
  {
    forall c | c != ',' && !IsSpace(c)
      ensures multiset(DropCommaBefore(once, ']'))[c] == multiset(s)[c]
    {
      DropCommaBeforeCounts(s, '}', c);
      DropCommaBeforeCounts(once, ']', c);
    }
  }

  lemma CleanKeepsEnds(s: string, once: string)
    requires once == DropCommaBefore(s, '}')
    ensures var r := DropCommaBefore(once, ']');
      && (|s| > 0 && s[0] != ',' ==> |r| > 0 && r[0] == s[0])
      && (|s| > 0 && s[|s| - 1] != ',' ==> |r| > 0 && r[|r| - 1] == s[|s| - 1])
  {
    if |s| > 0 {
      DropCommaBeforeEnds(s, '}');
      if |once| > 0 {
        DropCommaBeforeEnds(once, ']');
      }
    }
  }

  /** r can be obtained from s by deleting characters. */
  ghost predicate IsSubsequence(r: string, s: string)
    decreases |s|
  {
    if r == [] then true
    else if s == [] then false
    else if r[0] == s[0] then IsSubsequence(r[1..], s[1..])
    else IsSubsequence(r, s[1..])
  }

  lemma {:induction false} SubsequencePrepend(c: char, r: string, t: string)
    requires IsSubsequence(r, t)
    ensures IsSubsequence(r, [c] + t)
    decreases |t|, 1
  {
    assert ([c] + t)[1..] == t;
    if r != [] && r[0] == c {
      SubsequenceTail(r, t);
    }
  }

  lemma {:induction false} SubsequenceTail(r: string, t: string)
    requires r != [] && IsSubsequence(r, t)
    ensures IsSubsequence(r[1..], t)
    decreases |t|, 0
  {
    assert t == [t[0]] + t[1..];
    if r[0] == t[0] {
      SubsequencePrepend(t[0], r[1..], t[1..]);
    } else {
      SubsequenceTail(r, t[1..]);
      SubsequencePrepend(t[0], r[1..], t[1..]);
    }
  }

  lemma {:induction false} SubsequenceCons(c: char, r: string, t: string)
    requires IsSubsequence(r, t)
    ensures IsSubsequence([c] + r, [c] + t)
  {
    assert ([c] + r)[1..] == r;
    assert ([c] + t)[1..] == t;
  }

  lemma {:induction false} SubsequenceDrop(r: string, s: string, n: nat)
    requires n <= |s| && IsSubsequence(r, s[n..])
    ensures IsSubsequence(r, s)
    decreases n
  {
    if n > 0 {
      assert s[n - 1..] == [s[n - 1]] + s[n..];
      SubsequencePrepend(s[n - 1], r, s[n..]);
      SubsequenceDrop(r, s, n - 1);
    }
  }

  lemma {:induction false} SubsequenceTransitive(a: string, b: string, c: string)
    requires IsSubsequence(a, b) && IsSubsequence(b, c)
    ensures IsSubsequence(a, c)
    decreases |c|
  {
    if a != [] {
      if b[0] == c[0] {
        if a[0] == b[0] {
          SubsequenceTransitive(a[1..], b[1..], c[1..]);
        } else {
          SubsequenceTransitive(a, b[1..], c[1..]);
        }
      } else {
        SubsequenceTransitive(a, b, c[1..]);
        if a[0] == c[0] {
          SubsequenceTail(a, c[1..]);
        }
      }
    }
  }

  /** One substitution pass keeps every surviving character in its order. */
  lemma {:induction false} DropCommaBeforeKeepsOrder(s: string, close: char)
    ensures IsSubsequence(DropCommaBefore(s, close), s)
    decreases |s|
  {
    if s == [] {
    } else if CommaBefore(s, close) {
      var k := SpaceRun(s[1..]);
      DropCommaBeforeKeepsOrder(s[2 + k..], close);
      assert s[1 + k..] == [close] + s[2 + k..];
      SubsequenceCons(close, DropCommaBefore(s[2 + k..], close), s[2 + k..]);
      SubsequenceDrop(DropCommaBefore(s, close), s, 1 + k);
    } else {
      DropCommaBeforeKeepsOrder(s[1..], close);
      SubsequenceCons(s[0], DropCommaBefore(s[1..], close), s[1..]);
      assert [s[0]] + s[1..] == s;
    }
  }

  /** `_clean_json_string` only deletes characters: what survives keeps its
      order. With the count preservation in its contract, only commas and
      whitespace are ever deleted. */
  lemma CleanJsonStringKeepsOrder(s: string)
    ensures IsSubsequence(CleanJsonString(s), s)
  {
    var once := DropCommaBefore(s, '}');
    DropCommaBeforeKeepsOrder(s, '}');
    DropCommaBeforeKeepsOrder(once, ']');
    SubsequenceTransitive(CleanJsonString(s), once, s);
  }

  /** One pass of the cleaning can leave a new trailing comma behind, which is
      why the parsers clean a second time before their retry. */
  lemma CleanJsonStringNotIdempotent()
    ensures CleanJsonString(",,}") == ",}"
    ensures CleanJsonString(CleanJsonString(",,}")) == "}"
  {
    DropCommaBeforeClosed('}');
    DropCommaBeforeClosed(']');
    DropLoneCommaBrace();
    KeepCommaBrace();
    KeepDoubleComma();
  }

  lemma DropCommaBeforeClosed(close: char)
    ensures DropCommaBefore("}", close) == "}"
  {
    var s := "}";
    assert s[1..] == [];
    assert !CommaBefore(s, close);
  }

  lemma DropLoneCommaBrace()
    ensures DropCommaBefore(",}", '}') == "}"
  {
    var s := ",}";
    assert s[1..] == "}" && SpaceRun("}") == 0;
    assert CommaBefore(s, '}');
    assert s[2..] == [];
  }

  lemma KeepCommaBrace()
    ensures DropCommaBefore(",}", ']') == ",}"
  {
    var s := ",}";
    assert s[1..] == "}" && SpaceRun("}") == 0;
    assert !CommaBefore(s, ']');
    DropCommaBeforeClosed(']');
  }

  lemma KeepDoubleComma()
    ensures DropCommaBefore(",,}", '}') == ",}"
  {
    var s := ",,}";
    assert s[1..] == ",}" && SpaceRun(",}") == 0;
    assert !CommaBefore(s, '}');
    DropLoneCommaBrace();
  }

  // ---------------------------------------------------------------------
  // Reply to JSON object: the prefix shared by every `_parse_response`
  // ---------------------------------------------------------------------

  function FirstIndex(s: string, c: char): (r: Option<nat>)
    ensures r.None? <==> c !in s
    ensures r.Some? ==> r.value < |s| && s[r.value] == c && c !in s[..r.value]
  {
    if s == [] then None
    else if s[0] == c then Some(0)
    else
      var rest := FirstIndex(s[1..], c);
      assert s == [s[0]] + s[1..];
      if rest.None? then None
      else
        assert s[..rest.value + 1] == [s[0]] + s[1..][..rest.value];
        Some(rest.value + 1)
  }

  function LastIndex(s: string, c: char): (r: Option<nat>)
    ensures r.None? <==> c !in s
    ensures r.Some? ==> r.value < |s| && s[r.value] == c && c !in s[r.value + 1..]
  {
    if s == [] then None
    else if s[|s| - 1] == c then Some(|s| - 1)
    else
      var rest := LastIndex(s[..|s| - 1], c);
      assert s == s[..|s| - 1] + [s[|s| - 1]];
      if rest.None? then None
      else
        assert s[rest.value + 1..] == s[..|s| - 1][rest.value + 1..] + [s[|s| - 1]];
        Some(rest.value)
  }

  /** `re.search(r'\{.*\}', s, re.DOTALL)`: the match runs from the first `{`
      to the last `}`, and exists exactly when some `}` follows some `{`. */
  function JsonSpan(s: string): (r: Option<(nat, nat)>)
    ensures r.Some? ==> r.value.0 < r.value.1 < |s|
    ensures r.Some? ==> s[r.value.0] == '{' && '{' !in s[..r.value.0]
    ensures r.Some? ==> s[r.value.1] == '}' && '}' !in s[r.value.1 + 1..]
  {
    var first := FirstIndex(s, '{');
    var last := LastIndex(s, '}');
    if first.Some? && last.Some? && first.value < last.value then
      Some((first.value, last.value))
    else None
  }

  /** The search finds nothing exactly when no `}` follows any `{`. */
  lemma JsonSpanNone(s: string)
    ensures JsonSpan(s).None? <==> forall i, j :: 0 <= i < j < |s| && s[i] == '{' ==> s[j] != '}'
  {
    var first := FirstIndex(s, '{');
    var last := LastIndex(s, '}');
    if JsonSpan(s).None? {
      assert first.None? ==> forall i :: 0 <= i < |s| ==> s[i] != '{';
      assert last.None? ==> forall j :: 0 <= j < |s| ==> s[j] != '}';
      assert first.Some? ==> forall i :: 0 <= i < first.value ==> s[i] != '{' by {
        if first.Some? {
          forall i | 0 <= i < first.value
            ensures s[i] != '{'
          {
            assert s[..first.value][i] == s[i];
          }
        }
      }
      assert last.Some? ==> forall j :: last.value < j < |s| ==> s[j] != '}' by {
        if last.Some? {
          forall j | last.value < j < |s|
            ensures s[j] != '}'
          {
            assert s[last.value + 1..][j - last.value - 1] == s[j];
          }
        }
      }
    }
  }

  /** The reply-to-object step each parser performs (qwen_client.py:250-270,
      and the same code in both agents' `_parse_response`): an empty reply or
      one without a `{...}` span gives `None`; otherwise the cleaned span is
      decoded, and on a decoding error it is cleaned once more and decoded
      again, a second error giving `None`. */
  function ExtractJson(response: string, decode: string -> Option<Obj>): (r: Option<Obj>)
    ensures response == [] ==> r.None?
    ensures JsonSpan(response).None? ==> r.None?
    ensures JsonSpan(response).Some? ==>
      var text := CleanJsonString(response[JsonSpan(response).value.0..JsonSpan(response).value.1 + 1]);
      && (decode(text).Some? ==> r == decode(text))
      && (decode(text).None? ==> r == decode(CleanJsonString(text)))
  {
    if response == [] then None
    else match JsonSpan(response)
      case None => None
      case Some((i, j)) =>
        var text := CleanJsonString(response[i..j + 1]);
        match decode(text)
        case Some(data) => Some(data)
        case None => decode(CleanJsonString(text))
  }

  /** The text handed to `json.loads` starts with `{` and ends with `}`:
      cleaning never touches the braces that delimit the span. */
  lemma ExtractedTextIsBraced(response: string)
    requires JsonSpan(response).Some?
    ensures var (i, j) := JsonSpan(response).value;
      var text := CleanJsonString(response[i..j + 1]);
      |text| >= 2 && text[0] == '{' && text[|text| - 1] == '}'
  {
    var (i, j) := JsonSpan(response).value;
    var span := response[i..j + 1];
    assert span[0] == '{' && span[|span| - 1] == '}';
    CleanJsonStringKeeps(span);
  }

  /** `str.strip()`: drop leading and trailing whitespace. */
  function Strip(s: string): (r: string)
    ensures |r| <= |s|
    ensures r == [] || (!IsSpace(r[0]) && !IsSpace(r[|r| - 1]))
    ensures forall i :: 0 <= i < |s| && !IsSpace(s[i]) ==> r != []
    decreases |s|
  {
    if s == [] then []
    else if IsSpace(s[0]) then Strip(s[1..])
    else if IsSpace(s[|s| - 1]) then Strip(s[..|s| - 1])
    else s
  }

  predicate AllSpace(t: string) {
    forall k :: 0 <= k < |t| ==> IsSpace(t[k])
  }

  /** The stripped text is the slice `s[i..j]` of the input, with only
      whitespace cut off either end. */
  lemma {:induction false} StripTrims(s: string) returns (i: nat, j: nat)
    ensures i <= j <= |s| && Strip(s) == s[i..j]
    ensures AllSpace(s[..i]) && AllSpace(s[j..])
    decreases |s|
  {
    if s == [] {
      i, j := 0, 0;
    } else if IsSpace(s[0]) {
      var i', j' := StripTrims(s[1..]);
      StripFrontSlice(s, i', j');
      StripFrontSpaces(s, i', j');
      i, j := i' + 1, j' + 1;
    } else if IsSpace(s[|s| - 1]) {
      i, j := StripTrims(s[..|s| - 1]);
      StripBackSlice(s, i, j);
      StripBackSpaces(s, i, j);
    } else {
      i, j := 0, |s|;
      assert s[..0] == [] && s[|s|..] == [] && s[0..|s|] == s;
    }
  }

  lemma StripFrontSlice(s: string, i: nat, j: nat)
    requires |s| > 0 && IsSpace(s[0])
    requires i <= j <= |s| - 1 && Strip(s[1..]) == s[1..][i..j]
    ensures Strip(s) == s[i + 1..j + 1]
  {
    assert s[1..][i..j] == s[i + 1..j + 1];
  }

  lemma StripFrontSpaces(s: string, i: nat, j: nat)
    requires |s| > 0 && IsSpace(s[0]) && i <= j <= |s| - 1
    requires AllSpace(s[1..][..i]) && AllSpace(s[1..][j..])
    ensures AllSpace(s[..i + 1]) && AllSpace(s[j + 1..])
  {
    assert s[..i + 1] == [s[0]] + s[1..][..i];
    assert s[j + 1..] == s[1..][j..];
  }

  lemma StripBackSlice(s: string, i: nat, j: nat)
    requires |s| > 0 && !IsSpace(s[0]) && IsSpace(s[|s| - 1])
    requires i <= j <= |s| - 1 && Strip(s[..|s| - 1]) == s[..|s| - 1][i..j]
    ensures Strip(s) == s[i..j]
  {
    assert s[..|s| - 1][i..j] == s[i..j];
  }

  lemma StripBackSpaces(s: string, i: nat, j: nat)
    requires |s| > 0 && IsSpace(s[|s| - 1]) && i <= j <= |s| - 1
    requires AllSpace(s[..|s| - 1][..i]) && AllSpace(s[..|s| - 1][j..])
    ensures AllSpace(s[..i]) && AllSpace(s[j..])
  {
    assert s[..i] == s[..|s| - 1][..i];
    assert s[j..] == s[..|s| - 1][j..] + [s[|s| - 1]];
  }

  // ---------------------------------------------------------------------
  // Client configuration: `QwenClient.__init__`
  // ---------------------------------------------------------------------

  const BaseUrl := "https://dashscope.aliyuncs.com/compatible-mode/v1"
  const ImageQuality := 75
  const ImageMaxSize := 1280
  const DefaultModel := "qwen-vl-max"
  const PlaceholderKey := "your-api-key-here"

  datatype ClientConfig = ClientConfig(
    apiKey: string, baseUrl: string, model: string, imageQuality: int, imageMaxSize: int)

  /** The constructor either yields a configured client or raises the
      `ValueError` saying the API key is not set. */
  datatype ClientResult = Configured(config: ClientConfig) | KeyNotSet

  /** `QwenClient(api_key, base_url, model, image_quality, image_max_size)`,
      with `envKey` the value read from DASHSCOPE_API_KEY (`""` when unset).
      Python's `or` picks the argument when it is a non-empty string. */
  function NewClient(apiKey: Option<string>, baseUrl: Option<string>, model: Option<string>,
                     imageQuality: Option<int>, imageMaxSize: Option<int>, envKey: string): (r: ClientResult)
    ensures var key := if apiKey.Some? && apiKey.value != "" then apiKey.value else envKey;
      (r.KeyNotSet? <==> key == "" || key == PlaceholderKey) &&
      (r.Configured? ==> r.config.apiKey == key)
    ensures r.Configured? ==> r.config.apiKey != "" && r.config.apiKey != PlaceholderKey
    ensures r.Configured? ==> r.config.model == (if model.Some? then model.value else DefaultModel)
    ensures r.Configured? ==> r.config.baseUrl == (if baseUrl.Some? && baseUrl.value != "" then baseUrl.value else BaseUrl)
    ensures r.Configured? && imageQuality.None? ==> r.config.imageQuality == ImageQuality
    ensures r.Configured? && imageQuality.Some? ==> r.config.imageQuality == imageQuality.value
    ensures r.Configured? && imageMaxSize.None? ==> r.config.imageMaxSize == ImageMaxSize
    ensures r.Configured? && imageMaxSize.Some? ==> r.config.imageMaxSize == imageMaxSize.value
  {
    var key := if apiKey.Some? && apiKey.value != "" then apiKey.value else envKey;
    var url := if baseUrl.Some? && baseUrl.value != "" then baseUrl.value else BaseUrl;
    var quality := if imageQuality.Some? then imageQuality.value else ImageQuality;
    var maxSize := if imageMaxSize.Some? then imageMaxSize.value else ImageMaxSize;
    var name := if model.Some? then model.value else DefaultModel;
    if key == "" || key == PlaceholderKey then KeyNotSet
    else Configured(ClientConfig(key, url, name, quality, maxSize))
  }

  // ---------------------------------------------------------------------
  // Exercise detection: `parse_math_problems_response`
  // ---------------------------------------------------------------------

  /** Python `float(v)` on a decoded value: numbers convert, strings are
      parsed by `parseFloat` (`None` where Python raises `ValueError`), and
      `None`, lists and dicts raise `TypeError`. */
  function ToFloat(v: Json, parseFloat: string -> Option<real>): (r: Option<real>)
    ensures Numeric(v).Some? ==> r == Numeric(v)
    ensures v.JStr? ==> r == parseFloat(v.s)
    ensures v.JNull? || v.JArr? || v.JObj? ==> r.None?
  {
    match v
    case JStr(t) => parseFloat(t)
    case _ => Numeric(v)
  }

  /** `get_single_value(v)` of the legacy format: the first element of a
      list (0.0 for an empty one), otherwise the value itself, as a float. */
  function SingleValue(v: Json, parseFloat: string -> Option<real>): (r: Option<real>)
    ensures v.JArr? && v.items == [] ==> r == Some(0.0)
    ensures v.JArr? && v.items != [] ==> r == ToFloat(v.items[0], parseFloat)
    ensures !v.JArr? ==> r == ToFloat(v, parseFloat)
  {
    if v.JArr? then
      if v.items == [] then Some(0.0) else ToFloat(v.items[0], parseFloat)
    else ToFloat(v, parseFloat)
  }

  /** Where an entry's answer area comes from: a list of at least two
      numbers, or the legacy `x`/`y`/`width`/`height` fields. */
  datatype BoxChoice = Listed(items: seq<Json>) | Legacy

  /** A list with at least two elements. */
  predicate IsPairList(j: Json) {
    j.JArr? && |j.items| >= 2
  }

  /** The answer-area fallback chain: `answer_area_bbox` when it is a list of
      two or more, else `bbox_2d` when it is (the source's `>= 4` and `>= 2`
      branches take the same list), else the legacy fields. The list handed
      on always has at least two elements, so the `continue` after the chain
      never runs. */
  function ChooseBox(problem: Obj): (c: BoxChoice)
    ensures c.Listed? ==> |c.items| >= 2
    ensures IsPairList(Get(problem, "answer_area_bbox")) ==>
      c == Listed(Get(problem, "answer_area_bbox").items)
    ensures !IsPairList(Get(problem, "answer_area_bbox")) && IsPairList(Get(problem, "bbox_2d")) ==>
      c == Listed(Get(problem, "bbox_2d").items)
    ensures c.Legacy? <==>
      !IsPairList(Get(problem, "answer_area_bbox")) && !IsPairList(Get(problem, "bbox_2d"))
  {
    var area := GetOr(problem, "answer_area_bbox", JArr([]));
    var box2d := GetOr(problem, "bbox_2d", JArr([]));
    if IsPairList(area) then Listed(area.items)
    else if IsPairList(box2d) then Listed(box2d.items)
    else Legacy
  }

  /** An answer area in normalised coordinates (fractions of the frame). */
  datatype Corners = Corners(xMin: real, yMin: real, xMax: real, yMax: real)

  function MinReal(a: real, b: real): (r: real)
    ensures r <= a && r <= b && (r == a || r == b)
  {
    if a <= b then a else b
  }

  /** A top-left corner alone stands for an area 0.8 of the frame wide and
      0.1 high, cut off at the frame's far edge (`min(v + d, 1.0)`). */
  function DefaultExtent(xMin: real, yMin: real): (c: Corners)
    ensures c.xMin == xMin && c.yMin == yMin
    ensures c.xMax <= 1.0 && c.xMax <= xMin + 0.8 && (c.xMax == 1.0 || c.xMax == xMin + 0.8)
    ensures c.yMax <= 1.0 && c.yMax <= yMin + 0.1 && (c.yMax == 1.0 || c.yMax == yMin + 0.1)
  {
    Corners(xMin, yMin, MinReal(xMin + 0.8, 1.0), MinReal(yMin + 0.1, 1.0))
  }

  /** The corners `float()` reads from a list: four numbers give the full
      box, two give a corner with the default extent; `None` when a
      conversion raises. */
  function ListCorners(items: seq<Json>, parseFloat: string -> Option<real>): (r: Option<Corners>)
    requires |items| >= 2
    ensures r.Some? ==> Some(r.value.xMin) == ToFloat(items[0], parseFloat)
    ensures r.Some? ==> Some(r.value.yMin) == ToFloat(items[1], parseFloat)
    ensures r.Some? && |items| >= 4 ==>
      Some(r.value.xMax) == ToFloat(items[2], parseFloat) && Some(r.value.yMax) == ToFloat(items[3], parseFloat)
    ensures r.Some? && |items| < 4 ==> r.value == DefaultExtent(r.value.xMin, r.value.yMin)
    ensures r.None? <==> (ToFloat(items[0], parseFloat).None? || ToFloat(items[1], parseFloat).None?
      || (|items| >= 4 && (ToFloat(items[2], parseFloat).None? || ToFloat(items[3], parseFloat).None?)))
  {
    var x0 := ToFloat(items[0], parseFloat);
    var y0 := ToFloat(items[1], parseFloat);
    if x0.None? || y0.None? then None
    else if |items| >= 4 then
      var x1 := ToFloat(items[2], parseFloat);
      var y1 := ToFloat(items[3], parseFloat);
      if x1.None? || y1.None? then None
      else Some(Corners(x0.value, y0.value, x1.value, y1.value))
    else Some(DefaultExtent(x0.value, y0.value))
  }

  /** The legacy format: `x`, `y`, `width` and `height` (each 0 when absent)
      give the full box when both extents are positive, and otherwise only a
      corner with the default extent. */
  function LegacyCorners(problem: Obj, parseFloat: string -> Option<real>): (r: Option<Corners>)
    ensures r.None? <==>
      SingleValue(GetOr(problem, "x", JInt(0)), parseFloat).None? ||
      SingleValue(GetOr(problem, "y", JInt(0)), parseFloat).None? ||
      SingleValue(GetOr(problem, "width", JInt(0)), parseFloat).None? ||
      SingleValue(GetOr(problem, "height", JInt(0)), parseFloat).None?
    ensures r.Some? ==>
      var wn := SingleValue(GetOr(problem, "width", JInt(0)), parseFloat).value;
      var hn := SingleValue(GetOr(problem, "height", JInt(0)), parseFloat).value;
      Some(r.value.xMin) == SingleValue(GetOr(problem, "x", JInt(0)), parseFloat) &&
      Some(r.value.yMin) == SingleValue(GetOr(problem, "y", JInt(0)), parseFloat) &&
      (wn > 0.0 && hn > 0.0 ==> r.value.xMax - r.value.xMin == wn && r.value.yMax - r.value.yMin == hn) &&
      (!(wn > 0.0 && hn > 0.0) ==> r.value == DefaultExtent(r.value.xMin, r.value.yMin))
  {
    var x := SingleValue(GetOr(problem, "x", JInt(0)), parseFloat);
    var y := SingleValue(GetOr(problem, "y", JInt(0)), parseFloat);
    var wn := SingleValue(GetOr(problem, "width", JInt(0)), parseFloat);
    var hn := SingleValue(GetOr(problem, "height", JInt(0)), parseFloat);
    if x.None? || y.None? || wn.None? || hn.None? then None
    else if wn.value > 0.0 && hn.value > 0.0 then
      Some(Corners(x.value, y.value, x.value + wn.value, y.value + hn.value))
    else Some(DefaultExtent(x.value, y.value))
  }

  /** The normalised answer area of one entry, from the list or the legacy
      fields the fallback chain chose. */
  function NormalizedArea(problem: Obj, parseFloat: string -> Option<real>): Option<Corners>
  {
    match ChooseBox(problem)
    case Listed(items) => ListCorners(items, parseFloat)
    case Legacy => LegacyCorners(problem, parseFloat)
  }

  /** An answer area in pixels. */
  datatype PixelRect = PixelRect(x: int, y: int, width: int, height: int)

  /** The pixel conversion and clamps: corners scale by the frame size and
      truncate (`int(v * size)`), the width and height are taken before the
      corner is clamped into the frame, and then kept at least 20 by 10 and
      within the frame's remainder where that leaves room. */
  function ToPixels(c: Corners, w: int, h: int): (r: PixelRect)
    ensures w >= 1 ==> 0 <= r.x < w
    ensures h >= 1 ==> 0 <= r.y < h
    ensures r.width >= 20 && r.height >= 10
    ensures w - r.x >= 20 ==> r.x + r.width <= w
    ensures h - r.y >= 10 ==> r.y + r.height <= h
    ensures var x0 := Trunc(c.xMin * w as real); var aw := Trunc(c.xMax * w as real) - x0;
      0 <= x0 < w && 20 <= aw <= w - x0 ==> r.x == x0 && r.width == aw
    ensures var y0 := Trunc(c.yMin * h as real); var ah := Trunc(c.yMax * h as real) - y0;
      0 <= y0 < h && 10 <= ah <= h - y0 ==> r.y == y0 && r.height == ah
  {
    var x0 := Trunc(c.xMin * w as real);
    var y0 := Trunc(c.yMin * h as real);
    var aw := Trunc(c.xMax * w as real) - x0;
    var ah := Trunc(c.yMax * h as real) - y0;
    var x := Clamp(x0, 0, w - 1);
    var y := Clamp(y0, 0, h - 1);
    PixelRect(x, y, Clamp(aw, 20, w - x), Clamp(ah, 10, h - y))
  }

  /** The question mark's anchor for a question box with left `q0`, right
      `q2` and bottom `q3`: the centre of the bottom edge, in pixels. */
  function BottomCentre(q0: real, q2: real, q3: real, w: int, h: int): (r: (int, int))
    ensures w >= 0 && 0.0 <= q0 <= 1.0 && 0.0 <= q2 <= 1.0 ==> 0 <= r.0 <= w
    ensures h >= 0 && 0.0 <= q3 <= 1.0 ==> 0 <= r.1 <= h
    ensures w >= 0 && q0 <= q2 ==> Trunc(q0 * w as real) <= r.0 <= Trunc(q2 * w as real)
  {
    var m := (q0 + q2) / 2.0;
    ScaleUnit(m, w);
    ScaleUnit(q3, h);
    ScaleBetween(q0, m, q2, w);
    (Trunc(m * w as real), Trunc(q3 * h as real))
  }

  /** The anchor of the question mark: the centre of the question box's
      bottom edge in pixels, or the pair `None` when `question_bbox` is not a
      list of four or more; `None` overall when a conversion raises. */
  function QuestionAnchor(problem: Obj, w: int, h: int, parseFloat: string -> Option<real>):
    (r: Option<(Option<int>, Option<int>)>)
    ensures r.Some? ==> (r.value.0.Some? <==> r.value.1.Some?)
    ensures var q := Get(problem, "question_bbox");
      !(q.JArr? && |q.items| >= 4) ==> r == Some((None, None))
    ensures var q := Get(problem, "question_bbox");
      q.JArr? && |q.items| >= 4 ==>
      (r.None? <==> exists i :: 0 <= i < 4 && ToFloat(q.items[i], parseFloat).None?)
    ensures r.Some? && r.value.0.Some? ==>
      var q := Get(problem, "question_bbox").items;
      (r.value.0.value, r.value.1.value) ==
        BottomCentre(ToFloat(q[0], parseFloat).value, ToFloat(q[2], parseFloat).value,
                     ToFloat(q[3], parseFloat).value, w, h)
  {
    var q := GetOr(problem, "question_bbox", JArr([]));
    if q.JArr? && |q.items| >= 4 then
      var q0 := ToFloat(q.items[0], parseFloat);
      var q1 := ToFloat(q.items[1], parseFloat);
      var q2 := ToFloat(q.items[2], parseFloat);
      var q3 := ToFloat(q.items[3], parseFloat);
      if q0.None? || q1.None? || q2.None? || q3.None? then None
      else
        var (x, y) := BottomCentre(q0.value, q2.value, q3.value, w, h);
        Some((Some(x), Some(y)))
    else Some((None, None))
  }

  const Blank := "空白"
  const Correct := "正确"
  const Wrong := "错误"

  /** `answer_status`, defaulting to blank, and replaced by blank when it is
      not one of the three known labels. */
  function AnswerStatus(problem: Obj): (r: string)
    ensures r == Blank || r == Correct || r == Wrong
    ensures var v := Get(problem, "answer_status");
      v.JStr? && (v.s == Blank || v.s == Correct || v.s == Wrong) ==> r == v.s
    ensures var v := Get(problem, "answer_status");
      !(v.JStr? && (v.s == Blank || v.s == Correct || v.s == Wrong)) ==> r == Blank
  {
    var v := GetOr(problem, "answer_status", JStr(Blank));
    if v.JStr? && (v.s == Correct || v.s == Wrong) then v.s else Blank
  }

  /** One element of the returned `problems` list. */
  datatype MathProblem = MathProblem(
    x: int, y: int, width: int, height: int, text: Json,
    answerStatus: string, answerText: Json, errorReason: Json,
    questionX: Option<int>, questionY: Option<int>)

  /** What the parser returns when the reply decodes: `found` and the list. */
  datatype Detection = Detection(found: bool, problems: seq<MathProblem>)

  /** The conditions every parsed entry meets in a frame at least one pixel
      each way. */
  predicate WellFormed(p: MathProblem, w: int, h: int) {
    (p.answerStatus == Blank || p.answerStatus == Correct || p.answerStatus == Wrong)
    && p.width >= 20 && p.height >= 10
    && (w >= 1 ==> 0 <= p.x < w) && (h >= 1 ==> 0 <= p.y < h)
    && (p.questionX.Some? <==> p.questionY.Some?)
  }

  /** One dict entry of `problems`; `None` when a conversion raises, which
      the source's `try` turns into a `None` result for the whole reply. */
  function ParseEntry(problem: Obj, w: int, h: int, parseFloat: string -> Option<real>): (r: Option<MathProblem>)
    ensures r.None? <==>
      NormalizedArea(problem, parseFloat).None? || QuestionAnchor(problem, w, h, parseFloat).None?
    ensures ChooseBox(problem).Listed? ==>
      (r.None? <==> ListCorners(ChooseBox(problem).items, parseFloat).None? ||
                    QuestionAnchor(problem, w, h, parseFloat).None?)
    ensures ChooseBox(problem).Legacy? ==>
      (r.None? <==> LegacyCorners(problem, parseFloat).None? || QuestionAnchor(problem, w, h, parseFloat).None?)
    ensures r.Some? ==> WellFormed(r.value, w, h)
    ensures r.Some? ==>
      var px := ToPixels(NormalizedArea(problem, parseFloat).value, w, h);
      var anchor := QuestionAnchor(problem, w, h, parseFloat).value;
      && r.value.x == px.x && r.value.y == px.y && r.value.width == px.width && r.value.height == px.height
      && r.value.questionX == anchor.0 && r.value.questionY == anchor.1
      && r.value.answerStatus == AnswerStatus(problem)
      && r.value.text == GetOr(problem, "text", JStr(""))
      && r.value.answerText == GetOr(problem, "answer_text", JStr(""))
      && r.value.errorReason == GetOr(problem, "error_reason", JStr(""))
  {
    match NormalizedArea(problem, parseFloat)
    case None => None
    case Some(area) =>
      var px := ToPixels(area, w, h);
      match QuestionAnchor(problem, w, h, parseFloat)
      case None => None
      case Some((qx, qy)) =>
        Some(MathProblem(px.x, px.y, px.width, px.height, GetOr(problem, "text", JStr("")),
                         AnswerStatus(problem), GetOr(problem, "answer_text", JStr("")),
                         GetOr(problem, "error_reason", JStr("")), qx, qy))
  }

  /** Number of dict entries in a list. */
  function CountObjects(items: seq<Json>): (n: nat)
    ensures n <= |items|
  {
    if items == [] then 0
    else CountObjects(items[..|items| - 1]) + (if items[|items| - 1].JObj? then 1 else 0)
  }

  /** The dict entries of a list, in order. */
  function DictEntries(items: seq<Json>): (r: seq<Obj>)
    ensures |r| == CountObjects(items)
    ensures forall m :: m in r <==> JObj(m) in items
  {
    if items == [] then []
    else
      var init := items[..|items| - 1];
      var last := items[|items| - 1];
      assert items == init + [last];
      DictEntries(init) + (if last.JObj? then [last.fields] else [])
  }

  /** An entry that makes its conversion raise. */
  predicate Fails(item: Json, w: int, h: int, parseFloat: string -> Option<real>) {
    item.JObj? && ParseEntry(item.fields, w, h, parseFloat).None?
  }

  /** The loop over `problems`: non-dict entries are skipped, every dict is
      parsed, and one that raises fails the whole list. */
  function ParseProblems(items: seq<Json>, w: int, h: int, parseFloat: string -> Option<real>):
    (r: Option<seq<MathProblem>>)
    ensures r.None? <==> exists i :: 0 <= i < |items| && Fails(items[i], w, h, parseFloat)
    ensures r.Some? ==> |r.value| == CountObjects(items)
    ensures r.Some? ==> forall k :: 0 <= k < |r.value| ==> WellFormed(r.value[k], w, h)
    ensures r.Some? ==> forall k :: 0 <= k < |r.value| ==>
      Some(r.value[k]) == ParseEntry(DictEntries(items)[k], w, h, parseFloat)
    decreases |items|
  {
    if items == [] then Some([])
    else
      var init := items[..|items| - 1];
      var last := items[|items| - 1];
      assert forall i :: 0 <= i < |init| ==> init[i] == items[i];
      match ParseProblems(init, w, h, parseFloat)
      case None => None
      case Some(done) =>
        if !last.JObj? then Some(done)
        else match ParseEntry(last.fields, w, h, parseFloat)
          case None => None
          case Some(p) => Some(done + [p])
  }

  /** One entry that raises makes the whole list fail. */
  lemma {:induction false} PrefixFailure(items: seq<Json>, i: nat, w: int, h: int,
                                         parseFloat: string -> Option<real>)
    requires i <= |items|
    requires ParseProblems(items[..i], w, h, parseFloat).None?
    ensures ParseProblems(items, w, h, parseFloat).None?
  {
    var k :| 0 <= k < i && Fails(items[..i][k], w, h, parseFloat);
    assert items[..i][k] == items[k];
  }

  /** `parse_math_problems_response` for a frame w pixels wide and h high:
      `None` for an empty or undecodable reply and for an entry whose
      conversion raises; not found when `found` is falsy or `problems` is not
      a list; otherwise the parsed entries, found exactly when there is one. */
  function MathProblemsResult(response: string, w: int, h: int,
                              decode: string -> Option<Obj>, parseFloat: string -> Option<real>):
    (r: Option<Detection>)
    ensures ExtractJson(response, decode).None? ==> r.None?
    ensures r.Some? ==> (r.value.found <==> r.value.problems != [])
    ensures r.Some? ==> forall k :: 0 <= k < |r.value.problems| ==> WellFormed(r.value.problems[k], w, h)
    ensures ExtractJson(response, decode).Some? ==>
      var data := ExtractJson(response, decode).value;
      var list := GetOr(data, "problems", JArr([]));
      && (!Truthy(Get(data, "found")) || !list.JArr? ==> r == Some(Detection(false, [])))
      && (Truthy(Get(data, "found")) && list.JArr? ==>
            (r.None? <==> exists i :: 0 <= i < |list.items| && Fails(list.items[i], w, h, parseFloat))
            && (r.Some? ==> |r.value.problems| == CountObjects(list.items))
            && (r.Some? ==> forall k :: 0 <= k < |r.value.problems| ==>
                  Some(r.value.problems[k]) == ParseEntry(DictEntries(list.items)[k], w, h, parseFloat)))
  {
    match ExtractJson(response, decode)
    case None => None
    case Some(data) =>
      var list := GetOr(data, "problems", JArr([]));
      if !Truthy(Get(data, "found")) || !list.JArr? then Some(Detection(false, []))
      else match ParseProblems(list.items, w, h, parseFloat)
        case None => None
        case Some(ps) => Some(Detection(|ps| > 0, ps))
  }

  /** The parser as the source writes it: a loop appending each parsed dict
      entry and returning early when a conversion raises. */
  method ParseMathProblemsResponse(response: string, w: int, h: int,
                                   decode: string -> Option<Obj>, parseFloat: string -> Option<real>)
    returns (r: Option<Detection>)
    ensures r == MathProblemsResult(response, w, h, decode, parseFloat)
  {
    var extracted := ExtractJson(response, decode);
    if extracted.None? {
      return None;
    }
    var data := extracted.value;
    if !Truthy(Get(data, "found")) {
      return Some(Detection(false, []));
    }
    var list := GetOr(data, "problems", JArr([]));
    if !list.JArr? {
      return Some(Detection(false, []));
    }
    var parsed := ParseList(list.items, w, h, parseFloat);
    if parsed.None? {
      return None;
    }
    return Some(Detection(|parsed.value| > 0, parsed.value));
  }

  /** The source's loop over `problems`: each dict entry is parsed and
      appended, other entries are skipped, and a conversion that raises
      ends the loop. */
  method ParseList(items: seq<Json>, w: int, h: int, parseFloat: string -> Option<real>)
    returns (r: Option<seq<MathProblem>>)
    ensures r == ParseProblems(items, w, h, parseFloat)
  {
    var parsed: seq<MathProblem> := [];
    var i := 0;
    while i < |items|
      invariant 0 <= i <= |items|
      invariant ParseProblems(items[..i], w, h, parseFloat) == Some(parsed)
    {
      ParseProblemsStep(items, i, w, h, parseFloat);
      var item := items[i];
      if item.JObj? {
        var p := ParseEntry(item.fields, w, h, parseFloat);
        if p.None? {
          PrefixFailure(items, i + 1, w, h, parseFloat);
          return None;
        }
        parsed := parsed + [p.value];
      }
      i := i + 1;
    }
    assert items[..i] == items;
    return Some(parsed);
  }

  /** Parsing one more entry of the list. */
  lemma ParseProblemsStep(items: seq<Json>, i: nat, w: int, h: int, parseFloat: string -> Option<real>)
    requires i < |items|
    ensures var before := ParseProblems(items[..i], w, h, parseFloat);
      var after := ParseProblems(items[..i + 1], w, h, parseFloat);
      && (before.Some? && !items[i].JObj? ==> after == before)
      && (before.Some? && items[i].JObj? && ParseEntry(items[i].fields, w, h, parseFloat).Some? ==>
            after == Some(before.value + [ParseEntry(items[i].fields, w, h, parseFloat).value]))
  {
    assert items[..i + 1][..i] == items[..i];
    assert items[..i + 1][i] == items[i];
  }

  // ---------------------------------------------------------------------
  // Finger tip: the clamp in `detect_finger_tip`
  // ---------------------------------------------------------------------

  /** `max(0.0, min(1.0, v))`. */
  function ClampUnit(v: real): (r: real)
    ensures 0.0 <= r <= 1.0
    ensures 0.0 <= v <= 1.0 ==> r == v
    ensures v < 0.0 ==> r == 0.0
    ensures v > 1.0 ==> r == 1.0
  {
    var m := if 1.0 < v then 1.0 else v;
    if 0.0 > m then 0.0 else m
  }

  /** The finger tip returned for the two numbers found in the reply (`None`
      when no coordinate pair was found): each coordinate is clamped into
      [0, 1]; coordinates already inside stay as they are. */
  function FingerTip(found: Option<(real, real)>): (r: Option<(real, real)>)
    ensures r.None? <==> found.None?
    ensures r.Some? ==> 0.0 <= r.value.0 <= 1.0 && 0.0 <= r.value.1 <= 1.0
    ensures r.Some? && 0.0 <= found.value.0 <= 1.0 ==> r.value.0 == found.value.0
    ensures r.Some? && 0.0 <= found.value.1 <= 1.0 ==> r.value.1 == found.value.1
  {
    match found
    case None => None
    case Some((x, y)) => Some((ClampUnit(x), ClampUnit(y)))
  }
}
