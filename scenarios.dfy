/** Small concrete inputs run through the extraction chain. */
module Scenarios {
  import opened Wrappers
  import opened Lines
  import opened Seqs
  import opened Extraction

  /** A line's first match, once its leftmost match position and digit run are known. */
  lemma FirstMatchFrom(line: string, i: nat, n: nat)
    requires MatchAt(line, i) && forall j :: 0 <= j < i ==> !MatchAt(line, j)
    requires DigitRun(line, i + PrefixLength) == n
    ensures FirstMatch(line) == Some(line[i..i + PrefixLength + n])
  {
    SearchFindsLeftmost(line, 0, i);
  }

  /** The pattern is not anchored to a word: a key glued to other text still matches. */
  lemma UnanchoredMatch()
    ensures FirstMatch("xGCW-1") == Some("GCW-1")
  {
    var l := "xGCW-1";
    assert DigitRun(l, 6) == 0;
    FirstMatchFrom(l, 1, 1);
    assert l[1..6] == "GCW-1";
  }

  /** Of two keys on one line only the first is taken, with all of its digits. */
  lemma TwoKeysOneLine()
    ensures FirstMatch("GCW-12 GCW-3") == Some("GCW-12")
  {
    var l := "GCW-12 GCW-3";
    assert DigitRun(l, 6) == 0;
    assert DigitRun(l, 4) == 2;
    FirstMatchFrom(l, 0, 2);
    assert l[0..6] == "GCW-12";
  }

  /** A prefix with no digit after it is no match. */
  lemma PrefixWithoutDigits()
    ensures FirstMatch("GCW-x") == None
  {
    var l := "GCW-x";
    assert forall j :: 0 <= j ==> !MatchAt(l, j);
    FirstMatchSpec(l);
  }

  lemma SingleKeyLine()
    ensures FirstMatch("GCW-7") == Some("GCW-7")
  {
    var l := "GCW-7";
    assert DigitRun(l, 5) == 0;
    FirstMatchFrom(l, 0, 1);
    assert l[0..5] == l;
  }

  lemma TwoLineLog(log: string)
    requires log == "GCW-7\nGCW-7"
    ensures Split(log) == ["GCW-7", "GCW-7"]
  {
    var l := "GCW-7";
    assert log == l + [Newline] + l;
    SplitAtNewline(l, l);
    SplitPrefix(l, "");
    assert l + "" == l;
  }

  lemma TwoLineMatches(log: string)
    requires log == "GCW-7\nGCW-7"
    ensures Matches(Split(log)) == ["GCW-7", "GCW-7"]
  {
    var l := "GCW-7";
    MatchesAreSomes(Split(log));
    TwoLineLog(log);
    SingleKeyLine();
    var opts := FirstMatches([l, l]);
    assert opts == [Some(l), Some(l)];
    assert Somes(opts) == [l] + Somes(opts[1..]);
    assert Somes(opts[1..]) == [l] + Somes([]);
  }

  /** `_.uniq` of one value twice keeps it once. */
  lemma UniqOfPair<T>(x: T)
    ensures Uniq([x, x]) == [x]
  {
    var s := [x, x];
    assert s[..1] == [x];
    assert Uniq(s[..1]) == [x];
  }

  /** A ticket named by two commits is listed once. */
  lemma RepeatedTicketListedOnce(log: string)
    requires log == "GCW-7\nGCW-7"
    ensures Extract(log) == ["GCW-7"]
  {
    TwoLineMatches(log);
    UniqOfPair("GCW-7");
  }
}
