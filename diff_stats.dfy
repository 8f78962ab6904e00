/** patchSetDiffStat: the diff stat of a patch set as the viewer sees it, the
    sum over the patches whose repository the viewer may access. */
module DiffStats {
  import opened Base
  import opened Entities

  /** The repository ids of the patches, in order (the argument of GetByIDs):
      the reference for the loop that collects them. */
  function RepoIDsOf(patches: seq<Patch>): seq<int>
  {
    seq(|patches|, i requires 0 <= i < |patches| => patches[i].repoID)
  }

  /** The ids of the repositories the lookup returned. */
  function IDsOf(repos: seq<Repo>): set<int>
  {
    set r | r in repos :: r.id
  }

  predicate Visible(p: Patch, accessible: set<int>)
  {
    p.repoID in accessible
  }

  /** The running total of the visible patches' stats, left to right; the first
      visible patch without a stat stops it. */
  function Tally(patches: seq<Patch>, accessible: set<int>): Result<DiffStat>
  {
    if patches == [] then Ok(ZeroStat)
    else
      var p := patches[|patches| - 1];
      match Tally(patches[..|patches| - 1], accessible)
      case Err(e) => Err(e)
      case Ok(t) =>
        if !Visible(p, accessible) then Ok(t)
        else if p.diffStat.None? then Err(NoDiffStat(p.id))
        else Ok(AddStat(t, p.diffStat.value))
  }

  /** The whole computation over the store's and the lookup's outcomes. */
  function DiffStatOf(listed: Result<seq<Patch>>, getByIDs: seq<int> -> Result<seq<Repo>>): Result<DiffStat>
  {
    match listed
    case Err(e) => Err(e)
    case Ok(patches) =>
      match getByIDs(RepoIDsOf(patches))
      case Err(e) => Err(e)
      case Ok(repos) => Tally(patches, IDsOf(repos))
  }

  /** `listed` is what Store.ListPatches returned for the options (with NoDiff
      set); `getByIDs` stands for db.Repos.GetByIDs, which returns only the
      repositories the viewer may access. */
  method PatchSetDiffStat(listed: Result<seq<Patch>>, getByIDs: seq<int> -> Result<seq<Repo>>)
    returns (r: Result<DiffStat>)
    ensures r == DiffStatOf(listed, getByIDs)
  {
    if listed.Err? {
      return Err(listed.error);
    }
    var patches := listed.value;

    var repoIDs: seq<int> := [];
    for i := 0 to |patches|
      invariant repoIDs == RepoIDsOf(patches[..i])
    {
      repoIDs := repoIDs + [patches[i].repoID];
    }
    assert patches[..|patches|] == patches;

    var found := getByIDs(repoIDs);
    if found.Err? {
      return Err(found.error);
    }
    var accessibleRepos := found.value;

    var accessible: set<int> := {};
    for i := 0 to |accessibleRepos|
      invariant accessible == IDsOf(accessibleRepos[..i])
    {
      assert accessibleRepos[..i + 1] == accessibleRepos[..i] + [accessibleRepos[i]];
      accessible := accessible + {accessibleRepos[i].id};
    }
    assert accessibleRepos[..|accessibleRepos|] == accessibleRepos;

    var total := ZeroStat;
    for i := 0 to |patches|
      invariant Tally(patches[..i], accessible) == Ok(total)
    {
      var p := patches[i];
      assert patches[..i + 1][..i] == patches[..i];
      if p.repoID !in accessible {
        continue;
      }
      if p.diffStat.None? {
        TallyStopsAtError(patches, i + 1, accessible);
        return Err(NoDiffStat(p.id));
      }
      total := AddStat(total, p.diffStat.value);
    }
    r := Ok(total);
  }

  /** Once a prefix has failed, the whole tally fails with the same error. */
  lemma {:induction false} TallyStopsAtError(patches: seq<Patch>, i: nat, accessible: set<int>)
    requires i <= |patches|
    requires Tally(patches[..i], accessible).Err?
    ensures Tally(patches, accessible) == Tally(patches[..i], accessible)
    decreases |patches| - i
  {
    if i < |patches| {
      assert patches[..i + 1][..i] == patches[..i];
      TallyStopsAtError(patches, i + 1, accessible);
    } else {
      assert patches[..i] == patches;
    }
  }

  /** The tally succeeds exactly when every visible patch has its stat;
      invisible patches are skipped whether or not they have one. */
  lemma {:induction false} TallyOkIff(patches: seq<Patch>, accessible: set<int>)
    ensures Tally(patches, accessible).Ok? <==>
      forall i :: 0 <= i < |patches| && Visible(patches[i], accessible) ==> patches[i].diffStat.Some?
  {
    if patches != [] {
      var n := |patches| - 1;
      TallyOkIff(patches[..n], accessible);
      assert forall i :: 0 <= i < n ==> patches[..n][i] == patches[i];
    }
  }

  /** A failed tally names the first visible patch without a stat. */
  lemma {:induction false} TallyErrorIsFirstMissing(patches: seq<Patch>, accessible: set<int>)
    requires Tally(patches, accessible).Err?
    ensures exists i ::
              && 0 <= i < |patches|
              && Visible(patches[i], accessible) && patches[i].diffStat.None?
              && (forall j :: 0 <= j < i && Visible(patches[j], accessible) ==> patches[j].diffStat.Some?)
              && Tally(patches, accessible).error == NoDiffStat(patches[i].id)
  {
    var n := |patches| - 1;
    var prefix := patches[..n];
    assert forall j :: 0 <= j < n ==> prefix[j] == patches[j];
    if Tally(prefix, accessible).Err? {
      TallyErrorIsFirstMissing(prefix, accessible);
      var i :| 0 <= i < |prefix|
        && Visible(prefix[i], accessible) && prefix[i].diffStat.None?
        && (forall j :: 0 <= j < i && Visible(prefix[j], accessible) ==> prefix[j].diffStat.Some?)
        && Tally(prefix, accessible).error == NoDiffStat(prefix[i].id);
      assert patches[i] == prefix[i];
    } else {
      TallyOkIff(prefix, accessible);
      assert Visible(patches[n], accessible) && patches[n].diffStat.None?;
    }
  }

  lemma AddZeroStat(x: DiffStat)
    ensures AddStat(x, ZeroStat) == x
  {
  }

  lemma AddStatAssociative(x: DiffStat, y: DiffStat, z: DiffStat)
    ensures AddStat(AddStat(x, y), z) == AddStat(x, AddStat(y, z))
  {
  }

  /** Totals add up: the tally of two runs of patches is the sum of their tallies. */
  lemma {:induction false} TallyAppend(a: seq<Patch>, b: seq<Patch>, accessible: set<int>)
    requires Tally(a, accessible).Ok? && Tally(b, accessible).Ok?
    ensures Tally(a + b, accessible) == Ok(AddStat(Tally(a, accessible).value, Tally(b, accessible).value))
    decreases |b|
  {
    if b == [] {
      assert a + b == a;
      AddZeroStat(Tally(a, accessible).value);
    } else {
      var n := |b| - 1;
      var last := b[n];
      assert (a + b)[..|a + b| - 1] == a + b[..n];
      assert (a + b)[|a + b| - 1] == last;
      var tb := Tally(b[..n], accessible);
      assert tb.Ok?;
      TallyAppend(a, b[..n], accessible);
      var ta := Tally(a, accessible).value;
      assert Tally(a + b[..n], accessible) == Ok(AddStat(ta, tb.value));
      if Visible(last, accessible) {
        var s := last.diffStat.value;
        assert Tally(b, accessible) == Ok(AddStat(tb.value, s));
        assert Tally(a + b, accessible) == Ok(AddStat(AddStat(ta, tb.value), s));
        AddStatAssociative(ta, tb.value, s);
      } else {
        assert Tally(b, accessible) == tb;
        assert Tally(a + b, accessible) == Ok(AddStat(ta, tb.value));
      }
    }
  }

  /** With no visible patch the stat is zero, whatever the patches hold. */
  lemma {:induction false} NothingVisibleIsZero(patches: seq<Patch>, accessible: set<int>)
    requires forall i :: 0 <= i < |patches| ==> !Visible(patches[i], accessible)
    ensures Tally(patches, accessible) == Ok(ZeroStat)
  {
    if patches != [] {
      var n := |patches| - 1;
      assert forall i :: 0 <= i < n ==> patches[..n][i] == patches[i];
      NothingVisibleIsZero(patches[..n], accessible);
    }
  }

  /** The patches of repositories the viewer may not access have no influence
      at all: two patch sets that differ only in those give the same result. */
  lemma {:induction false} HiddenPatchesDoNotMatter(ps: seq<Patch>, qs: seq<Patch>, accessible: set<int>)
    requires |ps| == |qs|
    requires forall i :: 0 <= i < |ps| ==> ps[i].repoID == qs[i].repoID
    requires forall i :: 0 <= i < |ps| && Visible(ps[i], accessible) ==> ps[i] == qs[i]
    ensures Tally(ps, accessible) == Tally(qs, accessible)
  {
    if ps != [] {
      var n := |ps| - 1;
      assert forall i :: 0 <= i < n ==> ps[..n][i] == ps[i] && qs[..n][i] == qs[i];
      HiddenPatchesDoNotMatter(ps[..n], qs[..n], accessible);
    }
  }

  /** The same, for the whole computation: the lookup sees the same repository
      ids, so hidden patches change nothing. */
  lemma HiddenPatchesDoNotMatterOverall(ps: seq<Patch>, qs: seq<Patch>, getByIDs: seq<int> -> Result<seq<Repo>>)
    requires |ps| == |qs|
    requires forall i :: 0 <= i < |ps| ==> ps[i].repoID == qs[i].repoID
    requires getByIDs(RepoIDsOf(ps)).Ok?
    requires forall i :: 0 <= i < |ps| && Visible(ps[i], IDsOf(getByIDs(RepoIDsOf(ps)).value)) ==> ps[i] == qs[i]
    ensures DiffStatOf(Ok(ps), getByIDs) == DiffStatOf(Ok(qs), getByIDs)
  {
    assert RepoIDsOf(ps) == RepoIDsOf(qs);
    HiddenPatchesDoNotMatter(ps, qs, IDsOf(getByIDs(RepoIDsOf(ps)).value));
  }
}
