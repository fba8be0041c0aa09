/**
 * JavaScript's `String.prototype.split('\n')` and `Array.prototype.join('\n')`,
 * which cut the git log into lines and glue the rendered ticket list together.
 */
module Lines {

  const Newline: char := '\n'

  /**
   * `s.split('\n')`: the pieces between consecutive newlines. There is always
   * at least one piece: the empty text gives `[""]`, and a trailing newline
   * gives a trailing empty piece.
   */
  function Split(s: string): (r: seq<string>)
    ensures |r| >= 1
    ensures forall i :: 0 <= i < |r| ==> Newline !in r[i]
  {
    if s == [] then [""]
    else
      var rest := Split(s[1..]);
      if s[0] == Newline then [""] + rest
      else
        assert Newline !in [s[0]] + rest[0];
        [[s[0]] + rest[0]] + rest[1..]
  }

  /** `lines.join('\n')`: the empty list joins to the empty text. */
  function Join(lines: seq<string>): (r: string)
    ensures |lines| == 0 ==> r == ""
    ensures |lines| > 0 ==> lines[0] <= r
    ensures |lines| > 1 ==> lines[0] + [Newline] <= r
  {
    if |lines| == 0 then ""
    else if |lines| == 1 then lines[0]
    else lines[0] + [Newline] + Join(lines[1..])
  }

  /** Joining the pieces of a split gives the text back, whatever the text. */
  lemma {:induction false} JoinSplit(s: string)
    ensures Join(Split(s)) == s
  {
    if s != [] {
      var rest := Split(s[1..]);
      JoinSplit(s[1..]);
      if s[0] == Newline {
        assert Split(s) == [""] + rest;
        assert Join(Split(s)) == "" + [Newline] + Join(rest);
      } else {
        var r := [[s[0]] + rest[0]] + rest[1..];
        assert Split(s) == r;
        if |rest| == 1 {
          assert Join(r) == [s[0]] + rest[0];
        } else {
          assert Join(r) == [s[0]] + rest[0] + [Newline] + Join(rest[1..]);
          assert Join(rest) == rest[0] + [Newline] + Join(rest[1..]);
        }
        assert s == [s[0]] + s[1..];
      }
    }
  }

  /** A newline-free prefix is glued onto the first piece of what follows it. */
  lemma {:induction false} SplitPrefix(a: string, b: string)
    requires Newline !in a
    ensures Split(a + b) == [a + Split(b)[0]] + Split(b)[1..]
  {
    if a == [] {
      assert a + b == b;
      var sb := Split(b);
      assert a + sb[0] == sb[0];
      assert sb == [sb[0]] + sb[1..];
    } else {
      SplitPrefix(a[1..], b);
      assert (a + b)[1..] == a[1..] + b;
      assert (a + b)[0] == a[0];
      assert [a[0]] + (a[1..] + Split(b)[0]) == a + Split(b)[0];
    }
  }

  /** A newline ends the piece before it: `(a + "\n" + b).split('\n')` is `[a, ...b.split('\n')]`. */
  lemma SplitAtNewline(a: string, b: string)
    requires Newline !in a
    ensures Split(a + [Newline] + b) == [a] + Split(b)
  {
    var nb := [Newline] + b;
    assert a + [Newline] + b == a + nb;
    assert nb[1..] == b;
    assert Split(nb) == [""] + Split(b);
    SplitPrefix(a, nb);
    assert a + "" == a;
    assert ([""] + Split(b))[1..] == Split(b);
  }

  /**
   * Split undoes Join on any non-empty list of newline-free lines; it cannot on
   * the empty list, which joins to "" and splits back to `[""]`.
   */
  lemma {:induction false} SplitJoin(lines: seq<string>)
    requires |lines| >= 1
    requires forall i :: 0 <= i < |lines| ==> Newline !in lines[i]
    ensures Split(Join(lines)) == lines
  {
    if |lines| == 1 {
      SplitPrefix(lines[0], "");
      assert lines[0] + "" == lines[0];
    } else {
      SplitJoin(lines[1..]);
      SplitAtNewline(lines[0], Join(lines[1..]));
      assert lines == [lines[0]] + lines[1..];
    }
  }

  /** A trailing newline adds one empty piece after the others. */
  lemma {:induction false} SplitTrailingNewline(s: string)
    ensures Split(s + [Newline]) == Split(s) + [""]
  {
    if s == [] {
      assert s + [Newline] == [Newline];
      assert [Newline][1..] == [];
    } else {
      SplitTrailingNewline(s[1..]);
      assert (s + [Newline])[1..] == s[1..] + [Newline];
      var rest := Split(s[1..]);
      if s[0] != Newline {
        assert (rest + [""])[1..] == rest[1..] + [""];
      }
    }
  }
}
