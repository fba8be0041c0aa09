/**
 * Ticket extraction: the lodash chain that turns the git log into the list of
 * ticket keys, `split('\n')`, keep the lines matching `/GCW-\d+/`, take the
 * first match of each, then `uniq`.
 */
module Extraction {
  import opened Wrappers
  import opened Lines
  import opened Seqs

  /** Length of the hard-coded ticket prefix `GCW-` of the pattern `GCW-\d+`. */
  const PrefixLength: nat := 4

  /** The prefix `GCW-` starts at position `i` of `s`, compared character by character. */
  predicate PrefixAt(s: string, i: int)
  {
    0 <= i && i + PrefixLength <= |s| &&
    s[i] == 'G' && s[i + 1] == 'C' && s[i + 2] == 'W' && s[i + 3] == '-'
  }

  /** `\d` in a JavaScript regular expression: an ASCII decimal digit. */
  predicate IsDigit(c: char)
  {
    '0' <= c <= '9'
  }

  /** A ticket key: the prefix followed by one or more digits. */
  predicate IsTicket(t: string)
  {
    |t| > PrefixLength && PrefixAt(t, 0) &&
    forall k :: PrefixLength <= k < |t| ==> IsDigit(t[k])
  }

  /** `/GCW-\d+/` matches at position `i` of `line` (not anchored to a word boundary). */
  predicate MatchAt(line: string, i: int)
  {
    PrefixAt(line, i) && i + PrefixLength < |line| && IsDigit(line[i + PrefixLength])
  }

  /** Some stretch of the line is a ticket key: what the pattern's test looks for. */
  predicate ContainsTicket(line: string)
  {
    exists i, j | 0 <= i < j <= |line| :: IsTicket(line[i..j])
  }

  /** `/GCW-\d+/.test(line)`: true exactly when the line contains a ticket key. */
  predicate HasMatch(line: string)
    ensures HasMatch(line) <==> ContainsTicket(line)
  {
    MatchIffTicketInside(line);
    exists i | 0 <= i < |line| :: MatchAt(line, i)
  }

  /** A match position starts a ticket key inside the line, and every ticket key inside it starts one. */
  lemma MatchIffTicketInside(line: string)
    ensures (exists i | 0 <= i < |line| :: MatchAt(line, i)) <==> ContainsTicket(line)
  {
    if i :| 0 <= i < |line| && MatchAt(line, i) {
      var t := line[i..i + PrefixLength + 1];
      assert t[PrefixLength] == line[i + PrefixLength];
      assert IsTicket(t);
    }
    if i, j :| 0 <= i < j <= |line| && IsTicket(line[i..j]) {
      var t := line[i..j];
      assert t[PrefixLength] == line[i + PrefixLength];
      assert MatchAt(line, i);
    }
  }

  /** `i` is the leftmost position where the pattern matches. */
  predicate Leftmost(line: string, i: int)
  {
    MatchAt(line, i) && forall j :: 0 <= j < i ==> !MatchAt(line, j)
  }

  /** `t` occurs at `i` and is not followed by another digit: the greedy `\d+` took them all. */
  predicate MaximalAt(line: string, i: nat, t: string)
  {
    i + |t| <= |line| && line[i..i + |t|] == t &&
    (i + |t| == |line| || !IsDigit(line[i + |t|]))
  }

  /** The length of the run of digits that starts at `j`. */
  function DigitRun(line: string, j: nat): (n: nat)
    requires j <= |line|
    ensures j + n <= |line|
    ensures forall k :: j <= k < j + n ==> IsDigit(line[k])
    ensures j + n == |line| || !IsDigit(line[j + n])
    decreases |line| - j
  {
    if j < |line| && IsDigit(line[j]) then 1 + DigitRun(line, j + 1) else 0
  }

  /** The regular-expression engine's scan: try each start position from `from` on, leftmost first. */
  function Search(line: string, from: nat): (r: Option<nat>)
    ensures r.Some? ==> from <= r.value && MatchAt(line, r.value) &&
                        forall j :: from <= j < r.value ==> !MatchAt(line, j)
    ensures r.None? ==> forall j :: from <= j ==> !MatchAt(line, j)
    decreases |line| - from
  {
    if from + PrefixLength >= |line| then None
    else if MatchAt(line, from) then Some(from)
    else Search(line, from + 1)
  }

  /**
   * `/(GCW-\d+)/.exec(line)[1]`: the leftmost match with every digit that
   * follows it, or None where `exec` returns null. FirstMatchSpec states
   * what this means.
   */
  function FirstMatch(line: string): (r: Option<string>)
    ensures r.Some? ==> |r.value| > PrefixLength && PrefixAt(r.value, 0)
  {
    match Search(line, 0)
    case None => None
    case Some(i) => Some(line[i..i + PrefixLength + DigitRun(line, i + PrefixLength)])
  }

  /**
   * The regular expression's test and exec agree, and the match is the
   * leftmost occurrence of the prefix followed by a digit, extended over all
   * the digits that follow: a well-formed ticket key.
   */
  lemma FirstMatchSpec(line: string)
    ensures FirstMatch(line).None? <==> !HasMatch(line)
    ensures FirstMatch(line).Some? ==> IsTicket(FirstMatch(line).value)
    ensures FirstMatch(line).Some? ==>
      exists i :: Leftmost(line, i) && MaximalAt(line, i, FirstMatch(line).value)
  {
    match Search(line, 0)
    case None =>
    case Some(i) =>
      var t := FirstMatch(line).value;
      assert forall k :: PrefixLength <= k < |t| ==> t[k] == line[i + k];
      assert Leftmost(line, i) && MaximalAt(line, i, t);
  }

  /** `.filter(str => /GCW-\d+/.test(str))`. */
  function KeepMatching(lines: seq<string>): (r: seq<string>)
    ensures |r| <= |lines|
    ensures forall i :: 0 <= i < |r| ==> HasMatch(r[i]) && r[i] in lines
    ensures forall i :: 0 <= i < |lines| && HasMatch(lines[i]) ==> lines[i] in r
  {
    if lines == [] then []
    else (if HasMatch(lines[0]) then [lines[0]] else []) + KeepMatching(lines[1..])
  }

  /** `.map(str => /(GCW-\d+)/.exec(str)[1])` over lines already known to match. */
  function MatchTexts(lines: seq<string>): (r: seq<string>)
    requires forall i :: 0 <= i < |lines| ==> HasMatch(lines[i])
    ensures |r| == |lines|
    ensures forall i :: 0 <= i < |lines| ==> FirstMatch(lines[i]) == Some(r[i])
  {
    assert forall i :: 0 <= i < |lines| ==> FirstMatch(lines[i]).Some? by {
      forall i | 0 <= i < |lines| ensures FirstMatch(lines[i]).Some? {
        FirstMatchSpec(lines[i]);
      }
    }
    seq(|lines|, i requires 0 <= i < |lines| => FirstMatch(lines[i]).value)
  }

  /** The first match of each matching line, before `uniq`. */
  function Matches(lines: seq<string>): (r: seq<string>)
    ensures |r| <= |lines|
    ensures forall i :: 0 <= i < |r| ==>
      exists k :: 0 <= k < |lines| && FirstMatch(lines[k]) == Some(r[i])
  {
    MatchTexts(KeepMatching(lines))
  }

  /** The whole chain, lines 59-64: the tickets named in the git log. */
  function Extract(log: string): (r: seq<string>)
    ensures NoDuplicates(r)
    ensures forall i :: 0 <= i < |r| ==> r[i] in Matches(Split(log))
  {
    Uniq(Matches(Split(log)))
  }

  /** `FirstMatch` of every line, matching or not, in line order. */
  function FirstMatches(lines: seq<string>): (r: seq<Option<string>>)
    ensures |r| == |lines| && forall q :: 0 <= q < |lines| ==> r[q] == FirstMatch(lines[q])
  {
    seq(|lines|, q requires 0 <= q < |lines| => FirstMatch(lines[q]))
  }

  // ---------------------------------------------------------------------
  // The first match on a line
  // ---------------------------------------------------------------------

  /** Two runs of digits over the same text from the same place have the same length. */
  lemma {:induction false} DigitRunExtend(a: string, b: string, j: nat)
    requires j <= |a|
    requires b == [] || !IsDigit(b[0])
    ensures DigitRun(a + b, j) == DigitRun(a, j)
    decreases |a| - j
  {
    if j < |a| {
      DigitRunExtend(a, b, j + 1);
    } else if b != [] {
      assert (a + b)[j] == b[0];
    }
  }

  /**
   * Everything after the first match of a line is ignored, further ticket
   * keys included: appending text that does not start with a digit does not
   * change which ticket the line yields.
   */
  lemma LaterTextIgnored(a: string, b: string)
    requires HasMatch(a)
    requires b == [] || !IsDigit(b[0])
    ensures FirstMatch(a + b) == FirstMatch(a)
  {
    assert Search(a, 0).Some? by {
      var k :| 0 <= k < |a| && MatchAt(a, k);
    }
    var i := Search(a, 0).value;
    LeftmostSurvivesAppend(a, b, i);
    DigitRunExtend(a, b, i + PrefixLength);
    var e := i + PrefixLength + DigitRun(a, i + PrefixLength);
    assert FirstMatch(a) == Some(a[i..e]);
    assert FirstMatch(a + b) == Some((a + b)[i..e]);
    assert (a + b)[i..e] == a[i..e];
  }

  /** Appending text keeps the leftmost match where it was. */
  lemma LeftmostSurvivesAppend(a: string, b: string, i: nat)
    requires Search(a, 0) == Some(i)
    ensures Search(a + b, 0) == Some(i)
  {
    var c := a + b;
    assert MatchAt(c, i) by {
      assert c[i] == a[i] && c[i + 1] == a[i + 1] && c[i + 2] == a[i + 2] && c[i + 3] == a[i + 3];
      assert c[i + PrefixLength] == a[i + PrefixLength];
    }
    forall j | 0 <= j < i
      ensures !MatchAt(c, j)
    {
      assert !MatchAt(a, j);
      assert c[j] == a[j] && c[j + 1] == a[j + 1] && c[j + 2] == a[j + 2] && c[j + 3] == a[j + 3];
      assert c[j + PrefixLength] == a[j + PrefixLength];
    }
    SearchFindsLeftmost(c, 0, i);
  }

  /** The scan returns the leftmost match position at or after `from`. */
  lemma {:induction false} SearchFindsLeftmost(line: string, from: nat, i: nat)
    requires from <= i && MatchAt(line, i)
    requires forall j :: from <= j < i ==> !MatchAt(line, j)
    ensures Search(line, from) == Some(i)
    decreases i - from
  {
    if from < i {
      SearchFindsLeftmost(line, from + 1, i);
    }
  }

  /** A ticket key contains no newline, so every rendered ticket stays on its own line. */
  lemma TicketHasNoNewline(t: string)
    requires IsTicket(t)
    ensures Newline !in t && ']' !in t
  {
    forall k | 0 <= k < |t|
      ensures t[k] != Newline && t[k] != ']'
    {
    }
  }

  // ---------------------------------------------------------------------
  // The extracted list
  // ---------------------------------------------------------------------

  /** The map over matching lines distributes over concatenation. */
  lemma MatchTextsAppend(a: seq<string>, b: seq<string>)
    requires forall i :: 0 <= i < |a| ==> HasMatch(a[i])
    requires forall i :: 0 <= i < |b| ==> HasMatch(b[i])
    ensures forall i :: 0 <= i < |a + b| ==> HasMatch((a + b)[i])
    ensures MatchTexts(a + b) == MatchTexts(a) + MatchTexts(b)
  {
    var ab := a + b;
    assert forall i :: 0 <= i < |ab| ==> HasMatch(ab[i]) by {
      forall i | 0 <= i < |ab| ensures HasMatch(ab[i]) {
        if i < |a| { assert ab[i] == a[i]; } else { assert ab[i] == b[i - |a|]; }
      }
    }
    var ms, front, rest := MatchTexts(ab), MatchTexts(a), MatchTexts(b);
    forall k | 0 <= k < |ms|
      ensures ms[k] == (front + rest)[k]
    {
      if k < |a| { assert ab[k] == a[k]; } else { assert ab[k] == b[k - |a|]; }
    }
  }

  /** The filter unfolds one line at a time. */
  lemma KeepMatchingCons(lines: seq<string>)
    requires lines != []
    ensures KeepMatching(lines) == (if HasMatch(lines[0]) then [lines[0]] else []) + KeepMatching(lines[1..])
  {
  }

  /** Matches unfolds one line at a time: a matching line adds its first match, any other line nothing. */
  lemma MatchesCons(lines: seq<string>)
    requires lines != []
    ensures Matches(lines) ==
            (match FirstMatch(lines[0]) case Some(t) => [t] case None => []) + Matches(lines[1..])
  {
    var rest := KeepMatching(lines[1..]);
    KeepMatchingCons(lines);
    FirstMatchSpec(lines[0]);
    if HasMatch(lines[0]) {
      MatchTextsAppend([lines[0]], rest);
      assert MatchTexts([lines[0]]) == [FirstMatch(lines[0]).value];
    } else {
      assert KeepMatching(lines) == rest;
    }
  }

  /** The chain's filter and map together keep the first match of every line that has one. */
  lemma {:induction false} MatchesAreSomes(lines: seq<string>)
    ensures Matches(lines) == Somes(FirstMatches(lines))
  {
    if lines != [] {
      MatchesCons(lines);
      MatchesAreSomes(lines[1..]);
      var opts := FirstMatches(lines);
      assert opts[0] == FirstMatch(lines[0]);
      assert opts[1..] == FirstMatches(lines[1..]);
    }
  }

  /** Extraction never yields the same ticket twice (line 63). */
  lemma ExtractNoDuplicates(log: string)
    ensures NoDuplicates(Extract(log))
  {
  }

  /**
   * Soundness and completeness: a key is extracted exactly when it is the
   * first match of some line of the log.
   */
  lemma ExtractMembership(log: string, t: string)
    ensures t in Extract(log) <==> Some(t) in FirstMatches(Split(log))
  {
    var ms := Matches(Split(log));
    assert Extract(log) == Uniq(ms);
    MatchesAreSomes(Split(log));
    SomesMembership(FirstMatches(Split(log)), t);
  }

  /** Tickets come out in the order in which they first appear across the log's lines. */
  lemma ExtractOrder(log: string)
    ensures forall i :: 0 <= i < |Extract(log)| ==> Some(Extract(log)[i]) in FirstMatches(Split(log))
    ensures forall i, j :: 0 <= i < j < |Extract(log)| ==>
      IndexOf(FirstMatches(Split(log)), Some(Extract(log)[i])) <
      IndexOf(FirstMatches(Split(log)), Some(Extract(log)[j]))
  {
    var opts := FirstMatches(Split(log));
    MatchesAreSomes(Split(log));
    assert Extract(log) == Uniq(Somes(opts));
    UniqSomesOrder(opts);
  }

  /** A log in which no line matches yields no tickets at all (line 61). */
  lemma NoMatchingLineNoTickets(log: string)
    requires forall q :: 0 <= q < |Split(log)| ==> !HasMatch(Split(log)[q])
    ensures Extract(log) == []
  {
    if Extract(log) != [] {
      ExtractMembership(log, Extract(log)[0]);
    }
  }

  /** Every extracted ticket is a key of the form GCW-<digits>. */
  lemma ExtractWellFormed(log: string)
    ensures forall i :: 0 <= i < |Extract(log)| ==> IsTicket(Extract(log)[i])
  {
    var opts := FirstMatches(Split(log));
    forall i | 0 <= i < |Extract(log)|
      ensures IsTicket(Extract(log)[i])
    {
      ExtractMembership(log, Extract(log)[i]);
      var q :| 0 <= q < |opts| && opts[q] == Some(Extract(log)[i]);
      FirstMatchSpec(Split(log)[q]);
    }
  }
}
