/** applyPatch and fileDiffVirtualFileContent: rebuilding a file's new content
    from its old content and the hunks of its unified diff. */
module PatchApply {
  import opened Base
  import opened Lines

  /** One hunk of a file diff: the 1-based line of the original file where it
      starts (0 for a file that did not exist) and its body, one marked line
      per line. */
  datatype Hunk = Hunk(origStartLine: nat, body: string)

  /** A file diff as the diff reader yields it. */
  datatype FileDiff = FileDiff(origName: string, newName: string, hunks: seq<Hunk>)

  /** How applyPatch treats one line of a hunk body: an empty line is skipped,
      a `-` line removes an original line, a `+` line adds its text, and any
      other line keeps the original line under the cursor. */
  datatype LineKind = Skipped | Removed | Added(text: string) | Kept

  function KindOf(line: string): LineKind
  {
    if line == "" then Skipped
    else if line[0] == '-' then Removed
    else if line[0] == '+' then Added(line[1..])
    else Kept
  }

  predicate Consumes(k: LineKind) { k.Removed? || k.Kept? }
  predicate Emits(k: LineKind) { k.Added? || k.Kept? }
  predicate IsRemoval(k: LineKind) { k.Removed? }
  predicate IsAddition(k: LineKind) { k.Added? }

  /** The number of hunk lines whose kind satisfies `p`. */
  function CountOf(lines: seq<string>, p: LineKind -> bool): nat
    decreases |lines|
  {
    if lines == [] then 0
    else CountOf(lines[..|lines| - 1], p) + (if p(KindOf(lines[|lines| - 1])) then 1 else 0)
  }

  /** The number of hunk lines whose kind satisfies `p`, over all hunks. */
  function HunksCountOf(hunks: seq<Hunk>, p: LineKind -> bool): nat
    decreases |hunks|
  {
    if hunks == [] then 0
    else HunksCountOf(hunks[..|hunks| - 1], p) + CountOf(Split(hunks[|hunks| - 1].body), p)
  }

  /** What applyPatch carries from line to line: the 1-based cursor `lastLine`
      into the original lines, and the new lines emitted so far. */
  datatype Walk = Walk(lastLine: int, out: seq<string>)

  const Start := Walk(1, [])

  // The walk below mirrors applyPatch step by step. `None` stands for the
  // runtime panic Go raises when a slice or an index leaves the original
  // lines; `Applicable` says that never happens.

  function StepLine(orig: seq<string>, w: Walk, line: string): Option<Walk>
  {
    match KindOf(line)
    case Skipped => Some(w)
    case Removed => Some(Walk(w.lastLine + 1, w.out))
    case Added(text) => Some(Walk(w.lastLine, w.out + [text]))
    case Kept =>
      if 1 <= w.lastLine <= |orig| then Some(Walk(w.lastLine + 1, w.out + [orig[w.lastLine - 1]]))
      else None
  }

  function StepLines(orig: seq<string>, w: Walk, lines: seq<string>): Option<Walk>
    decreases |lines|
  {
    if lines == [] then Some(w)
    else match StepLines(orig, w, lines[..|lines| - 1])
      case None => None
      case Some(w') => StepLine(orig, w', lines[|lines| - 1])
  }

  /** Copies the hole between the cursor and a hunk's start, moving the cursor there. */
  function OpenHole(orig: seq<string>, w: Walk, start: nat): Option<Walk>
  {
    if start == 0 || start == w.lastLine then Some(w)
    else if 1 <= w.lastLine <= start <= |orig| + 1 then
      Some(Walk(start, w.out + orig[w.lastLine - 1 .. start - 1]))
    else None
  }

  function StepHunk(orig: seq<string>, w: Walk, h: Hunk): Option<Walk>
  {
    match OpenHole(orig, w, h.origStartLine)
    case None => None
    case Some(w') => StepLines(orig, w', Split(h.body))
  }

  function StepHunks(orig: seq<string>, w: Walk, hunks: seq<Hunk>): Option<Walk>
    decreases |hunks|
  {
    if hunks == [] then Some(w)
    else match StepHunks(orig, w, hunks[..|hunks| - 1])
      case None => None
      case Some(w') => StepHunk(orig, w', hunks[|hunks| - 1])
  }

  /** The original lines after the last hunk, appended only when the line
      count differs from the cursor. */
  function Remainder(orig: seq<string>, w: Walk): Option<seq<string>>
  {
    if |orig| > 0 && |orig| != w.lastLine then
      if 1 <= w.lastLine <= |orig| + 1 then Some(w.out + orig[w.lastLine - 1..]) else None
    else Some(w.out)
  }

  /** The new content's lines, or None where applyPatch would panic. */
  function PatchedLines(content: string, hunks: seq<Hunk>): Option<seq<string>>
  {
    var orig := Split(content);
    match StepHunks(orig, Start, hunks)
    case None => None
    case Some(w) => Remainder(orig, w)
  }

  /** The hunks fit the content: ascending, inside the original lines. */
  predicate Applicable(content: string, hunks: seq<Hunk>)
  {
    PatchedLines(content, hunks).Some?
  }

  function Patched(content: string, hunks: seq<Hunk>): string
    requires Applicable(content, hunks)
  {
    Join(PatchedLines(content, hunks).value)
  }

  /** applyPatch: the line-cursor walk over the hunks. */
  method ApplyPatch(fileContent: string, fileDiff: FileDiff) returns (r: string)
    requires Applicable(fileContent, fileDiff.hunks)
    ensures r == Patched(fileContent, fileDiff.hunks)
  {
    var contentLines := Split(fileContent);
    var newContentLines: seq<string> := [];
    var lastLine := 1;
    var hunks := fileDiff.hunks;
    // The hunks come in ascending order of original start line (the requires).
    for i := 0 to |hunks|
      invariant StepHunks(contentLines, Start, hunks[..i]) == Some(Walk(lastLine, newContentLines))
    {
      var hunk := hunks[i];
      ghost var before := Walk(lastLine, newContentLines);
      ghost var after := StepHunk(contentLines, before, hunk);
      assert after.Some? && StepHunks(contentLines, Start, hunks[..i + 1]) == after by {
        StepHunksPrefix(contentLines, Start, hunks, i + 1);
        assert hunks[..i + 1][..i] == hunks[..i];
      }
      ghost var entered := OpenHole(contentLines, before, hunk.origStartLine).value;
      assert StepLines(contentLines, entered, Split(hunk.body)) == after;
      // Copy the original lines between the cursor and the hunk's start.
      if hunk.origStartLine != 0 && hunk.origStartLine != lastLine {
        var originalLines := contentLines[lastLine - 1 .. hunk.origStartLine - 1];
        newContentLines := newContentLines + originalLines;
        lastLine := lastLine + |originalLines|;
      }
      assert Walk(lastLine, newContentLines) == entered;
      var hunkLines := Split(hunk.body);
      lastLine, newContentLines := WalkHunkLines(contentLines, hunkLines, lastLine, newContentLines);
    }
    ghost var remainder := Remainder(contentLines, Walk(lastLine, newContentLines));
    assert remainder == PatchedLines(fileContent, hunks) by {
      assert hunks[..|hunks|] == hunks;
    }
    // The original lines after the cursor, unless the cursor equals the line count.
    if |contentLines| > 0 && |contentLines| != lastLine {
      newContentLines := newContentLines + contentLines[lastLine - 1..];
    }
    assert Some(newContentLines) == remainder;
    r := Join(newContentLines);
  }

  /** The inner loop of applyPatch: one hunk's lines, from the cursor
      `lastLine` and the lines emitted so far. */
  method WalkHunkLines(contentLines: seq<string>, hunkLines: seq<string>, lastLine: int, newContentLines: seq<string>)
    returns (lastLine': int, newContentLines': seq<string>)
    requires StepLines(contentLines, Walk(lastLine, newContentLines), hunkLines).Some?
    ensures StepLines(contentLines, Walk(lastLine, newContentLines), hunkLines) == Some(Walk(lastLine', newContentLines'))
  {
    ghost var entered := Walk(lastLine, newContentLines);
    lastLine', newContentLines' := lastLine, newContentLines;
    for j := 0 to |hunkLines|
      invariant StepLines(contentLines, entered, hunkLines[..j]) == Some(Walk(lastLine', newContentLines'))
    {
      var line := hunkLines[j];
      ghost var current := Walk(lastLine', newContentLines');
      assert StepLine(contentLines, current, line).Some? by {
        StepLinesPrefix(contentLines, entered, hunkLines, j + 1);
        assert hunkLines[..j + 1][..j] == hunkLines[..j];
      }
      if line == "" {
        // An empty hunk line emits and consumes nothing.
      } else if line[0] == '-' {
        lastLine' := lastLine' + 1;
      } else if line[0] == '+' {
        newContentLines' := newContentLines' + [line[1..]];
      } else {
        newContentLines' := newContentLines' + [contentLines[lastLine' - 1]];
        lastLine' := lastLine' + 1;
      }
      assert hunkLines[..j + 1][..j] == hunkLines[..j];
    }
    assert hunkLines[..|hunkLines|] == hunkLines;
  }

  lemma {:induction false} StepHunksPrefix(orig: seq<string>, w: Walk, hunks: seq<Hunk>, i: nat)
    requires i <= |hunks|
    requires StepHunks(orig, w, hunks).Some?
    ensures StepHunks(orig, w, hunks[..i]).Some?
    decreases |hunks|
  {
    if i < |hunks| {
      assert hunks[..|hunks| - 1][..i] == hunks[..i];
      StepHunksPrefix(orig, w, hunks[..|hunks| - 1], i);
    } else {
      assert hunks[..i] == hunks;
    }
  }

  lemma {:induction false} StepLinesPrefix(orig: seq<string>, w: Walk, lines: seq<string>, i: nat)
    requires i <= |lines|
    requires StepLines(orig, w, lines).Some?
    ensures StepLines(orig, w, lines[..i]).Some?
    decreases |lines|
  {
    if i < |lines| {
      assert lines[..|lines| - 1][..i] == lines[..i];
      StepLinesPrefix(orig, w, lines[..|lines| - 1], i);
    } else {
      assert lines[..i] == lines;
    }
  }

  lemma {:induction false} StepLinesCounts(orig: seq<string>, w: Walk, lines: seq<string>)
    requires StepLines(orig, w, lines).Some?
    ensures var w' := StepLines(orig, w, lines).value;
      && w'.lastLine == w.lastLine + CountOf(lines, Consumes)
      && |w'.out| == |w.out| + CountOf(lines, Emits)
      && w'.out[..|w.out|] == w.out
    decreases |lines|
  {
    if lines != [] {
      var init := lines[..|lines| - 1];
      StepLinesCounts(orig, w, init);
      var wm := StepLines(orig, w, init).value;
      var w' := StepLines(orig, w, lines).value;
      assert w'.out[..|wm.out|] == wm.out;
      assert w'.out[..|w.out|] == wm.out[..|w.out|];
    }
  }

  /** Inside a hunk, a context line emits the ORIGINAL line under the cursor,
      not the hunk's text: the k-th hunk line, when it is a context line,
      becomes the new line after those emitted by the lines before it, and
      copies the original line after those consumed by the lines before it. */
  lemma {:induction false} KeptLinesEmitOriginal(orig: seq<string>, w: Walk, lines: seq<string>)
    requires StepLines(orig, w, lines).Some?
    ensures var w' := StepLines(orig, w, lines).value;
      forall k :: 0 <= k < |lines| && KindOf(lines[k]).Kept? ==>
        && |w.out| + CountOf(lines[..k], Emits) < |w'.out|
        && 0 <= w.lastLine - 1 + CountOf(lines[..k], Consumes) < |orig|
        && w'.out[|w.out| + CountOf(lines[..k], Emits)] == orig[w.lastLine - 1 + CountOf(lines[..k], Consumes)]
    decreases |lines|
  {
    if lines != [] {
      var n := |lines|;
      var init := lines[..n - 1];
      StepLinesCounts(orig, w, init);
      var wm := StepLines(orig, w, init).value;
      var w' := StepLines(orig, w, lines).value;
      assert w' == StepLine(orig, wm, lines[n - 1]).value;
      assert |wm.out| <= |w'.out| && w'.out[..|wm.out|] == wm.out;
      forall k | 0 <= k < n && KindOf(lines[k]).Kept?
        ensures |w.out| + CountOf(lines[..k], Emits) < |w'.out|
        ensures 0 <= w.lastLine - 1 + CountOf(lines[..k], Consumes) < |orig|
        ensures w'.out[|w.out| + CountOf(lines[..k], Emits)] == orig[w.lastLine - 1 + CountOf(lines[..k], Consumes)]
      {
        if k < n - 1 {
          KeptLinesEmitOriginal(orig, w, init);
          assert lines[..k] == init[..k] && lines[k] == init[k];
          var i := |w.out| + CountOf(lines[..k], Emits);
          assert w'.out[i] == w'.out[..|wm.out|][i];
        } else {
          assert lines[..k] == init;
          assert KindOf(lines[n - 1]).Kept?;
          assert 1 <= wm.lastLine <= |orig|;
          assert w'.out == wm.out + [orig[wm.lastLine - 1]];
        }
      }
    }
  }

  /** Inside a hunk, a `+` line emits its text without the marker, after the
      new lines emitted by the hunk lines before it. */
  lemma {:induction false} AddedLinesEmitText(orig: seq<string>, w: Walk, lines: seq<string>)
    requires StepLines(orig, w, lines).Some?
    ensures var w' := StepLines(orig, w, lines).value;
      forall k :: 0 <= k < |lines| && KindOf(lines[k]).Added? ==>
        && |w.out| + CountOf(lines[..k], Emits) < |w'.out|
        && w'.out[|w.out| + CountOf(lines[..k], Emits)] == KindOf(lines[k]).text
    decreases |lines|
  {
    if lines != [] {
      var n := |lines|;
      var init := lines[..n - 1];
      StepLinesCounts(orig, w, init);
      var wm := StepLines(orig, w, init).value;
      var w' := StepLines(orig, w, lines).value;
      assert w' == StepLine(orig, wm, lines[n - 1]).value;
      assert |wm.out| <= |w'.out| && w'.out[..|wm.out|] == wm.out;
      forall k | 0 <= k < n && KindOf(lines[k]).Added?
        ensures |w.out| + CountOf(lines[..k], Emits) < |w'.out|
        ensures w'.out[|w.out| + CountOf(lines[..k], Emits)] == KindOf(lines[k]).text
      {
        if k < n - 1 {
          AddedLinesEmitText(orig, w, init);
          assert lines[..k] == init[..k] && lines[k] == init[k];
          var i := |w.out| + CountOf(lines[..k], Emits);
          assert w'.out[i] == w'.out[..|wm.out|][i];
        } else {
          assert lines[..k] == init;
        }
      }
    }
  }

  /** applyPatch indexes the original lines only at context lines: the walk
      through a hunk's lines succeeds exactly when every context line finds
      the cursor inside the original lines. */
  lemma {:induction false} StepLinesDefined(orig: seq<string>, w: Walk, lines: seq<string>)
    ensures StepLines(orig, w, lines).Some? <==>
      forall k :: 0 <= k < |lines| && KindOf(lines[k]).Kept? ==>
        1 <= w.lastLine + CountOf(lines[..k], Consumes) <= |orig|
    decreases |lines|
  {
    if lines != [] {
      var n := |lines|;
      var init := lines[..n - 1];
      StepLinesDefined(orig, w, init);
      assert lines[..n - 1] == init;
      forall k | 0 <= k < n - 1
        ensures lines[..k] == init[..k] && lines[k] == init[k]
      {
      }
      if StepLines(orig, w, init).Some? {
        StepLinesCounts(orig, w, init);
      }
    }
  }

  /** Before a hunk, the original lines from the cursor up to the hunk's start
      are copied verbatim and the cursor moves to the start. */
  lemma HoleCopiedVerbatim(orig: seq<string>, w: Walk, h: Hunk)
    requires h.origStartLine != 0 && h.origStartLine != w.lastLine
    requires StepHunk(orig, w, h).Some?
    ensures 1 <= w.lastLine < h.origStartLine <= |orig| + 1
    ensures StepHunk(orig, w, h)
         == StepLines(orig, Walk(h.origStartLine, w.out + orig[w.lastLine - 1 .. h.origStartLine - 1]), Split(h.body))
  {
  }

  /** With no hunks the content comes back unchanged when it is empty or holds
      a newline, but a single line without a newline is dropped: the cursor
      already equals the line count, so the remainder is not appended. */
  lemma NoHunks(content: string)
    ensures Applicable(content, [])
    ensures Patched(content, []) == if '\n' in content then content else ""
    ensures Patched(content, []) == content <==> content == "" || '\n' in content
  {
    var orig := Split(content);
    SplitIsOneLine(content);
    JoinSplit(content);
    assert StepHunks(orig, Start, []) == Some(Start);
    assert orig[0..] == orig;
    assert PatchedLines(content, []) == Remainder(orig, Start);
    if '\n' in content {
      assert Start.out + orig[Start.lastLine - 1..] == orig;
      assert PatchedLines(content, []) == Some(orig);
    } else {
      assert PatchedLines(content, []) == Some([]);
    }
  }

  lemma {:induction false} CountBalance(lines: seq<string>)
    ensures CountOf(lines, Emits) + CountOf(lines, IsRemoval)
         == CountOf(lines, Consumes) + CountOf(lines, IsAddition)
    decreases |lines|
  {
    if lines != [] {
      CountBalance(lines[..|lines| - 1]);
    }
  }

  lemma {:induction false} StepHunksBalance(orig: seq<string>, w: Walk, hunks: seq<Hunk>)
    requires StepHunks(orig, w, hunks).Some?
    ensures var w' := StepHunks(orig, w, hunks).value;
      |w'.out| - |w.out| + HunksCountOf(hunks, IsRemoval)
        == w'.lastLine - w.lastLine + HunksCountOf(hunks, IsAddition)
    decreases |hunks|
  {
    if hunks != [] {
      var init := hunks[..|hunks| - 1];
      var h := hunks[|hunks| - 1];
      StepHunksBalance(orig, w, init);
      var wm := StepHunks(orig, w, init).value;
      var entered := OpenHole(orig, wm, h.origStartLine).value;
      assert |entered.out| - |wm.out| == entered.lastLine - wm.lastLine;
      StepLinesCounts(orig, entered, Split(h.body));
      CountBalance(Split(h.body));
    }
  }

  /** Line bookkeeping of a whole patch: the new content has the original
      lines, minus the `-` lines, plus the `+` lines, minus one more when the
      cursor ends on the last original line (that line is then dropped). */
  lemma LineCountBalance(content: string, hunks: seq<Hunk>)
    requires Applicable(content, hunks)
    ensures var orig := Split(content);
      var dropped := if StepHunks(orig, Start, hunks).value.lastLine == |orig| then 1 else 0;
      |PatchedLines(content, hunks).value| + HunksCountOf(hunks, IsRemoval) + dropped
        == |orig| + HunksCountOf(hunks, IsAddition)
  {
    StepHunksBalance(Split(content), Start, hunks);
  }

  /** Every hunk starts at line 0 and its body only adds lines: the diff of a
      file that did not exist. */
  predicate AddsOnly(hunks: seq<Hunk>)
  {
    forall i :: 0 <= i < |hunks| ==>
      && hunks[i].origStartLine == 0
      && forall line :: line in Split(hunks[i].body) ==> KindOf(line).Added? || KindOf(line).Skipped?
  }

  /** The texts of the `+` lines, markers removed, in order. */
  function AddedTexts(lines: seq<string>): seq<string>
    decreases |lines|
  {
    if lines == [] then []
    else
      var k := KindOf(lines[|lines| - 1]);
      AddedTexts(lines[..|lines| - 1]) + (if k.Added? then [k.text] else [])
  }

  function HunksAddedTexts(hunks: seq<Hunk>): seq<string>
    decreases |hunks|
  {
    if hunks == [] then []
    else HunksAddedTexts(hunks[..|hunks| - 1]) + AddedTexts(Split(hunks[|hunks| - 1].body))
  }

  lemma {:induction false} AddOnlyLines(orig: seq<string>, w: Walk, lines: seq<string>)
    requires forall line :: line in lines ==> KindOf(line).Added? || KindOf(line).Skipped?
    ensures StepLines(orig, w, lines) == Some(Walk(w.lastLine, w.out + AddedTexts(lines)))
    decreases |lines|
  {
    if lines != [] {
      var init := lines[..|lines| - 1];
      assert forall line :: line in init ==> line in lines;
      AddOnlyLines(orig, w, init);
      var last := lines[|lines| - 1];
      assert last in lines;
      var k := KindOf(last);
      if k.Added? {
        assert w.out + AddedTexts(init) + [k.text] == w.out + AddedTexts(lines);
      } else {
        assert AddedTexts(init) == AddedTexts(lines);
      }
    } else {
      assert w.out + AddedTexts(lines) == w.out;
    }
  }

  lemma {:induction false} AddOnlyHunks(orig: seq<string>, w: Walk, hunks: seq<Hunk>)
    requires AddsOnly(hunks)
    ensures StepHunks(orig, w, hunks) == Some(Walk(w.lastLine, w.out + HunksAddedTexts(hunks)))
    decreases |hunks|
  {
    if hunks != [] {
      var init := hunks[..|hunks| - 1];
      var h := hunks[|hunks| - 1];
      assert AddsOnly(init) by {
        forall i | 0 <= i < |init| ensures init[i] == hunks[i] { }
      }
      AddOnlyHunks(orig, w, init);
      var wm := Walk(w.lastLine, w.out + HunksAddedTexts(init));
      assert h == hunks[|hunks| - 1];
      assert h.origStartLine == 0;
      assert OpenHole(orig, wm, h.origStartLine) == Some(wm);
      AddOnlyLines(orig, wm, Split(h.body));
      assert wm.out + AddedTexts(Split(h.body)) == w.out + HunksAddedTexts(hunks);
    } else {
      assert w.out + HunksAddedTexts(hunks) == w.out;
    }
  }

  /** A new file's content is exactly its added lines, joined by newlines. */
  lemma NewFileFromAdditions(hunks: seq<Hunk>)
    requires AddsOnly(hunks)
    ensures Applicable("", hunks)
    ensures Patched("", hunks) == Join(HunksAddedTexts(hunks))
  {
    var orig := Split("");
    assert orig == [""];
    AddOnlyHunks(orig, Start, hunks);
    assert Start.out + HunksAddedTexts(hunks) == HunksAddedTexts(hunks);
    assert Remainder(orig, Walk(1, HunksAddedTexts(hunks))) == Some(HunksAddedTexts(hunks));
  }

  /** What the content function of a patch preview returns: the patch applied
      to the old file's content, to "" when there is no old file, and "" when
      loading the old content fails (that error is dropped). */
  function NewContent(oldFile: Option<Result<string>>, hunks: seq<Hunk>): string
    requires ContentApplicable(oldFile, hunks)
  {
    match oldFile
    case None => Patched("", hunks)
    case Some(Err(_)) => ""
    case Some(Ok(s)) => Patched(s, hunks)
  }

  predicate ContentApplicable(oldFile: Option<Result<string>>, hunks: seq<Hunk>)
  {
    match oldFile
    case None => Applicable("", hunks)
    case Some(Err(_)) => true
    case Some(Ok(s)) => Applicable(s, hunks)
  }

  /** fileDiffVirtualFileContent's closure: the new content of one file diff,
      computed on the first call and returned from then on. */
  class VirtualFileContent {
    const fileDiff: FileDiff
    /** None when the diff has no old file; otherwise what loading the old
        file's content yields. */
    const oldFile: Option<Result<string>>
    var once: bool
    var newContent: string
    var err: Option<Error>

    ghost predicate Valid()
      reads this
    {
      && ContentApplicable(oldFile, fileDiff.hunks)
      && err.None?
      && newContent == (if once then NewContent(oldFile, fileDiff.hunks) else "")
    }

    constructor (fileDiff: FileDiff, oldFile: Option<Result<string>>)
      requires ContentApplicable(oldFile, fileDiff.hunks)
      ensures Valid() && !once
      ensures this.fileDiff == fileDiff && this.oldFile == oldFile
    {
      this.fileDiff := fileDiff;
      this.oldFile := oldFile;
      once := false;
      newContent := "";
      err := None;
    }

    method Content() returns (content: string, e: Option<Error>)
      requires Valid()
      modifies this
      ensures Valid() && once
      ensures content == NewContent(oldFile, fileDiff.hunks) && e.None?
      ensures old(once) ==> unchanged(this)
    {
      if !once {
        once := true;
        var oldContent := "";
        var loadFailed := false;
        match oldFile {
          case None =>
          case Some(loaded) =>
            match loaded {
              // The inner error shadows the closure's: it is not reported.
              case Err(_) => loadFailed := true;
              case Ok(s) => oldContent := s;
            }
        }
        if !loadFailed {
          newContent := ApplyPatch(oldContent, fileDiff);
        }
      }
      content, e := newContent, err;
    }
  }
}
