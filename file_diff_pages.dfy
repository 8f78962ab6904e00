/** fileDiffConnectionCompute: a once-only read of a patch's file diffs, far
    enough to serve one page, with a one-record look-ahead for hasNextPage. */
module FileDiffPages {
  import opened Base
  import opened PatchApply

  /** One ReadFile call of the multi-file diff reader: a file diff or a parse
      error. A stream of them is followed by EOF. */
  datatype ReadResult = Record(fileDiff: FileDiff) | ReadError(error: Error)

  /** FileDiffsConnectionArgs: how many file diffs the page holds, after which
      cursor (a decimal, hex, octal or binary integer as text). */
  datatype FileDiffsConnectionArgs = FileDiffsConnectionArgs(first: Option<Int32>, after: Option<string>)

  /** What the computation returns: (fileDiffs, afterIdx, hasNextPage, err). */
  datatype Page = Page(fileDiffs: seq<FileDiff>, afterIdx: Int32, hasNextPage: bool, err: Option<Error>)

  /** The closure's variables before anything is computed. */
  const EmptyPage := Page([], 0, false, None)

  /** How many records the reader yields before its first error or EOF. */
  function ReadableCount(stream: seq<ReadResult>): (k: nat)
    ensures k <= |stream|
    ensures forall i :: 0 <= i < k ==> stream[i].Record?
    ensures k < |stream| ==> stream[k].ReadError?
    decreases |stream|
  {
    if stream == [] || stream[0].ReadError? then 0
    else 1 + ReadableCount(stream[1..])
  }

  function FileDiffsOf(records: seq<ReadResult>): seq<FileDiff>
    requires forall i :: 0 <= i < |records| ==> records[i].Record?
  {
    seq(|records|, i requires 0 <= i < |records| => records[i].fileDiff)
  }

  /** Every file diff the reader yields before its first error or EOF. */
  function Readable(stream: seq<ReadResult>): seq<FileDiff>
  {
    FileDiffsOf(stream[..ReadableCount(stream)])
  }

  /** The offset `After` stands for: 0 when absent, negative values clamped to
      0, and None when strconv.ParseInt(after, 0, 32) reports an error
      (`parseInt` gives ParseInt's outcome). */
  function CursorOf(after: Option<string>, parseInt: string -> Option<Int32>): Option<Int32>
  {
    match after
    case None => Some(0)
    case Some(text) =>
      match parseInt(text)
      case None => None
      case Some(v) => Some(if v < 0 then 0 else v)
  }

  /** after + first, in int32 arithmetic: it wraps around. */
  function TotalAmount(afterIdx: Int32, first: Option<Int32>): Int32
  {
    if first.None? then afterIdx else Wrap32(afterIdx + first.value)
  }

  /** The page a first call computes, stated over the whole stream rather than
      as a read loop: the first n = after+first records when n >= 1 and that
      many are readable, with hasNextPage when one more is; otherwise every
      readable record. The error is the reader's first error when reading, or
      the look-ahead, reaches it. An unparsable cursor gives the empty page
      with no error. */
  function PageOf(stream: seq<ReadResult>, args: FileDiffsConnectionArgs, parseInt: string -> Option<Int32>): Page
  {
    match CursorOf(args.after, parseInt)
    case None => EmptyPage
    case Some(a) =>
      var n := TotalAmount(a, args.first);
      var k := ReadableCount(stream);
      if 1 <= n <= k then
        Page(FileDiffsOf(stream[..n]), a, n < k, if n == k < |stream| then Some(stream[k].error) else None)
      else
        Page(FileDiffsOf(stream[..k]), a, false, if k < |stream| then Some(stream[k].error) else None)
  }

  /** The body of the once-guarded function: the read loop, on the closure's
      variables as they start out (all zero). */
  method ReadPage(stream: seq<ReadResult>, args: FileDiffsConnectionArgs, parseInt: string -> Option<Int32>)
    returns (page: Page)
    ensures page == PageOf(stream, args, parseInt)
  {
    var fileDiffs: seq<FileDiff> := [];
    var afterIdx: Int32 := 0;
    var hasNextPage := false;
    var err: Option<Error> := None;
    if args.after.Some? {
      var parsedIdx := parseInt(args.after.value);
      if parsedIdx.None? {
        // The parse error lands in a shadowing variable: nothing is reported.
        return Page(fileDiffs, afterIdx, hasNextPage, err);
      }
      var idx := parsedIdx.value;
      if idx < 0 {
        idx := 0;
      }
      afterIdx := idx;
    }
    var totalAmount := afterIdx;
    if args.first.Some? {
      totalAmount := Wrap32(totalAmount + args.first.value);
    }
    ghost var k := ReadableCount(stream);
    var read := 0;  // how far the reader has advanced
    while true
      invariant 0 <= read <= k
      invariant fileDiffs == FileDiffsOf(stream[..read])
      invariant totalAmount < 1 || read < totalAmount
      invariant err.None? && !hasNextPage
      decreases |stream| - read
    {
      if read == |stream| {
        // The reader is exhausted.
        err := None;
        break;
      }
      var next := stream[read];
      read := read + 1;
      if next.ReadError? {
        err := Some(next.error);
        return Page(fileDiffs, afterIdx, hasNextPage, err);
      }
      fileDiffs := fileDiffs + [next.fileDiff];
      assert stream[..read] == stream[..read - 1] + [next];
      if |fileDiffs| == totalAmount {
        // One more read decides whether a next page exists.
        if read == |stream| {
          err := None;
        } else if stream[read].ReadError? {
          err := Some(stream[read].error);
          return Page(fileDiffs, afterIdx, hasNextPage, err);
        } else {
          hasNextPage := true;
        }
        break;
      }
    }
    page := Page(fileDiffs, afterIdx, hasNextPage, err);
  }

  /** The file diffs of a page are the first ones the reader yields: a prefix
      of everything readable before the first error. */
  lemma PageIsReadablePrefix(stream: seq<ReadResult>, args: FileDiffsConnectionArgs, parseInt: string -> Option<Int32>)
    ensures var p := PageOf(stream, args, parseInt);
      |p.fileDiffs| <= |Readable(stream)| && p.fileDiffs == Readable(stream)[..|p.fileDiffs|]
  {
  }

  /** hasNextPage holds exactly when the page stops at after+first >= 1 records
      and at least one more record is readable. */
  lemma HasNextPageIff(stream: seq<ReadResult>, args: FileDiffsConnectionArgs, parseInt: string -> Option<Int32>)
    ensures PageOf(stream, args, parseInt).hasNextPage <==>
      && CursorOf(args.after, parseInt).Some?
      && 1 <= TotalAmount(CursorOf(args.after, parseInt).value, args.first) < ReadableCount(stream)
  {
  }

  /** A page reports an error exactly when reading, or the look-ahead, reaches
      the reader's first error; the partial prefix read before it is kept. */
  lemma ErrorIff(stream: seq<ReadResult>, args: FileDiffsConnectionArgs, parseInt: string -> Option<Int32>)
    ensures var p := PageOf(stream, args, parseInt);
      var k := ReadableCount(stream);
      && (p.err.Some? <==>
            && CursorOf(args.after, parseInt).Some?
            && k < |stream|
            && !(1 <= TotalAmount(CursorOf(args.after, parseInt).value, args.first) < k))
      && (p.err.Some? ==> p.err == Some(stream[k].error) && p.fileDiffs == Readable(stream))
  {
  }

  /** When after+first is not positive (0, or wrapped around below 0), the
      read runs to EOF or the first error and there is never a next page. */
  lemma NonPositiveTotalReadsAll(stream: seq<ReadResult>, args: FileDiffsConnectionArgs, parseInt: string -> Option<Int32>)
    requires CursorOf(args.after, parseInt).Some?
    requires TotalAmount(CursorOf(args.after, parseInt).value, args.first) < 1
    ensures PageOf(stream, args, parseInt).fileDiffs == Readable(stream)
    ensures !PageOf(stream, args, parseInt).hasNextPage
  {
  }

  /** Two pages over the same stream agree on what they share: the smaller
      total's file diffs are a prefix of the larger's. */
  lemma PagesNest(stream: seq<ReadResult>, args1: FileDiffsConnectionArgs, args2: FileDiffsConnectionArgs, parseInt: string -> Option<Int32>)
    requires CursorOf(args1.after, parseInt).Some? && CursorOf(args2.after, parseInt).Some?
    requires 1 <= TotalAmount(CursorOf(args1.after, parseInt).value, args1.first)
               <= TotalAmount(CursorOf(args2.after, parseInt).value, args2.first)
    ensures var p1 := PageOf(stream, args1, parseInt);
      var p2 := PageOf(stream, args2, parseInt);
      |p1.fileDiffs| <= |p2.fileDiffs| && p1.fileDiffs == p2.fileDiffs[..|p1.fileDiffs|]
  {
  }

  /** The closure fileDiffConnectionCompute returns: its captured variables,
      filled in by the first call only (sync.Once, modelled as a flag). */
  class FileDiffConnection {
    /** The patch's diff, as the reader yields it. */
    const stream: seq<ReadResult>
    const parseInt: string -> Option<Int32>
    var once: bool
    var fileDiffs: seq<FileDiff>
    var afterIdx: Int32
    var hasNextPage: bool
    var err: Option<Error>

    function Cached(): Page
      reads this
    {
      Page(fileDiffs, afterIdx, hasNextPage, err)
    }

    ghost predicate Valid()
      reads this
    {
      !once ==> Cached() == EmptyPage
    }

    constructor (stream: seq<ReadResult>, parseInt: string -> Option<Int32>)
      ensures Valid() && !once
      ensures this.stream == stream && this.parseInt == parseInt
    {
      this.stream := stream;
      this.parseInt := parseInt;
      once := false;
      fileDiffs, afterIdx, hasNextPage, err := [], 0, false, None;
    }

    /** One call of the closure: the first computes from its own arguments,
        every later call returns the first call's results. */
    method Compute(args: FileDiffsConnectionArgs) returns (page: Page)
      requires Valid()
      modifies this
      ensures Valid() && once
      ensures page == Cached()
      ensures old(once) ==> page == old(Cached())
      ensures !old(once) ==> page == PageOf(stream, args, parseInt)
    {
      if !once {
        once := true;
        var computed := ReadPage(stream, args, parseInt);
        fileDiffs, afterIdx, hasNextPage, err := computed.fileDiffs, computed.afterIdx, computed.hasNextPage, computed.err;
      }
      page := Cached();
    }
  }

  /** Several calls of one closure, with whatever arguments: every call gets
      the page the first call's arguments determine, read error included. */
  method PaginateRepeatedly(stream: seq<ReadResult>, parseInt: string -> Option<Int32>, calls: seq<FileDiffsConnectionArgs>)
    returns (pages: seq<Page>)
    ensures |pages| == |calls|
    ensures forall i :: 0 <= i < |pages| ==> pages[i] == PageOf(stream, calls[0], parseInt)
  {
    var connection := new FileDiffConnection(stream, parseInt);
    pages := [];
    for i := 0 to |calls|
      invariant |pages| == i
      invariant connection.stream == stream && connection.parseInt == parseInt
      invariant connection.Valid() && connection.once == (i > 0)
      invariant i > 0 ==> connection.Cached() == PageOf(stream, calls[0], parseInt)
      invariant forall j :: 0 <= j < i ==> pages[j] == PageOf(stream, calls[0], parseInt)
    {
      var page := connection.Compute(calls[i]);
      pages := pages + [page];
    }
  }
}
