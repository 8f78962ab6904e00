/** Go's strings.Split(s, "\n") and strings.Join(lines, "\n"), the two
    library calls applyPatch uses to move between text and lines. */
module Lines {

  /** strings.Split(s, "\n"): the pieces between newlines. Splitting never
      yields an empty slice: "" splits into [""]. */
  function Split(s: string): (lines: seq<string>)
    ensures |lines| >= 1
    ensures forall i :: 0 <= i < |lines| ==> '\n' !in lines[i]
    decreases |s|
  {
    if s == [] then [""]
    else
      var rest := Split(s[1..]);
      if s[0] == '\n' then [""] + rest
      else [[s[0]] + rest[0]] + rest[1..]
  }

  /** strings.Join(lines, "\n"). */
  function Join(lines: seq<string>): string
  {
    if |lines| == 0 then ""
    else if |lines| == 1 then lines[0]
    else lines[0] + "\n" + Join(lines[1..])
  }

  /** Joining the pieces of a split gives back the text. */
  lemma {:induction false} JoinSplit(s: string)
    ensures Join(Split(s)) == s
    decreases |s|
  {
    if s != [] {
      var rest := Split(s[1..]);
      JoinSplit(s[1..]);
      if s[0] == '\n' {
        assert ([""] + rest)[1..] == rest;
      } else if |rest| > 1 {
        var head := [s[0]] + rest[0];
        assert ([head] + rest[1..])[1..] == rest[1..];
        assert Join(rest) == rest[0] + "\n" + Join(rest[1..]);
      }
      assert s == [s[0]] + s[1..];
    }
  }

  /** A text without a newline is one line. */
  lemma {:induction false} SplitLine(s: string)
    requires '\n' !in s
    ensures Split(s) == [s]
    decreases |s|
  {
    if s != [] {
      SplitLine(s[1..]);
      assert s == [s[0]] + s[1..];
    }
  }

  /** A text splits into one line exactly when it holds no newline. */
  lemma SplitIsOneLine(s: string)
    ensures |Split(s)| == 1 <==> '\n' !in s
  {
    if '\n' !in s {
      SplitLine(s);
    } else {
      JoinSplit(s);
    }
  }

  /** Splitting a line, a newline and more text. */
  lemma {:induction false} SplitAfterLine(line: string, t: string)
    requires '\n' !in line
    ensures Split(line + "\n" + t) == [line] + Split(t)
    decreases |line|
  {
    if line == [] {
      assert line + "\n" + t == ['\n'] + t;
      assert (['\n'] + t)[1..] == t;
    } else {
      var s := line + "\n" + t;
      assert s[1..] == line[1..] + "\n" + t;
      SplitAfterLine(line[1..], t);
      assert [s[0]] + line[1..] == line;
    }
  }

  /** Splitting the join of newline-free lines gives back the lines. */
  lemma {:induction false} SplitJoin(lines: seq<string>)
    requires |lines| >= 1
    requires forall i :: 0 <= i < |lines| ==> '\n' !in lines[i]
    ensures Split(Join(lines)) == lines
    decreases |lines|
  {
    if |lines| == 1 {
      SplitLine(lines[0]);
    } else {
      SplitJoin(lines[1..]);
      SplitAfterLine(lines[0], Join(lines[1..]));
      assert [lines[0]] + lines[1..] == lines;
    }
  }
}
