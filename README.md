# Campaign resolvers: patch application, file-diff pages, diff stats and request decisions

This project models two parts of the GraphQL resolvers of Sourcegraph
campaigns.

- The diff logic of `patch_sets.go`:
  - `applyPatch` rebuilds a file's new content from its old content and the
    hunks of its unified diff. It walks a line cursor over the hunks: it
    copies the original lines between hunks, drops `-` lines, emits `+` lines
    and re-emits the original line under the cursor for context lines.
  - `fileDiffVirtualFileContent` is the once-computed new content of a
    previewed file.
  - `fileDiffConnectionCompute` is a once-computed read of a patch's file
    diffs, far enough for one page, with a one-record look-ahead that decides
    `hasNextPage`.
  - `patchSetDiffStat` adds up the diff stats of the patches whose repository
    the viewer may access.
- The decision logic of `resolver.go`:
  - read access (`allowReadAccess`) and campaign administration rights
    (`currentUserCanAdministerCampaign`);
  - the guard chains of the `ChangesetByID` and `CampaignByID` queries, with
    the full and the hidden changeset;
  - the guards of the `CreateCampaign`, `DeleteCampaign`, `CloseCampaign` and
    `SyncChangeset` mutations;
  - the building of listing options in `parseCampaignState`,
    `listChangesetOptsFromArgs` and the `Campaigns` query.

Everything the resolvers ask of a collaborator is a parameter that holds the
answer the resolver sees. This covers the store, the repository table, the
services, the current user, the configuration, the diff reader, ID
unmarshalling and `strconv.ParseInt`.

The project has seven files:

- `base.dfy`: modules `Base` (Option, Result, the resolvers' errors, Go's
  int32) and `Entities` (the records the resolvers read).
- `lines.dfy`: `strings.Split`/`strings.Join` on `"\n"`.
- `patch_apply.dfy`: `applyPatch` and `fileDiffVirtualFileContent`.
- `file_diff_pages.dfy`: `fileDiffConnectionCompute`.
- `diff_stats.dfy`: `patchSetDiffStat`.
- `resolver.dfy` and `list_options.dfy`: the decision logic of `resolver.go`.

The imperative functions of `patch_sets.go` are methods with loops. Each is
proved against a specification function: `ApplyPatch` against `Patched`,
`ReadPage` against `PageOf`, and `PatchSetDiffStat` against `DiffStatOf`.
Lemmas then state what the source promises about those functions. The two
`sync.Once` closures are classes whose `once` flag and cached fields are set
by the first call only. A slice expression that would panic in Go makes the
specification function return `None`. The methods require that it does not
happen; `applyPatch` itself documents that it expects its hunks in
ascending order of original line.

Where the code and the design description of the system disagree, the model
follows the code:

- With no hunks, single-line content without a newline comes back as `""`.
  The remaining original lines are appended only when the line count differs
  from the cursor, not always.
- An unparsable `after` cursor gives an empty page with no error. It is not
  clamped to zero: the parse error is assigned to a shadowing variable and
  the closure returns early.
- A page holds the first `after + first` file diffs, not a window that starts
  at `after`. Every later call of the same closure returns the first call's
  page, whatever its own arguments.
- The queries answer a zero id with no node and no error. Only the mutations
  reject it (`ErrIDIsZero`).

## Model

| member | source | states |
|---|---|---|
| Base.Wrap32 | enterprise/internal/campaigns/resolvers/patch_sets.go:107-110 | int32 addition: the result is congruent to the exact sum modulo 2^32 and equals it when it is in range |
| Lines.Split | enterprise/internal/campaigns/resolvers/patch_sets.go:171 | splitting on newlines never gives an empty slice, and no piece holds a newline |
| Lines.JoinSplit | enterprise/internal/campaigns/resolvers/patch_sets.go:171-201 | joining the pieces of a split with newlines gives back the text |
| Lines.SplitIsOneLine | enterprise/internal/campaigns/resolvers/patch_sets.go:171-173 | a text splits into exactly one line if and only if it holds no newline |
| Lines.SplitJoin | enterprise/internal/campaigns/resolvers/patch_sets.go:182 | splitting the join of newline-free lines gives back those lines |
| PatchApply.ApplyPatch | enterprise/internal/campaigns/resolvers/patch_sets.go:170-202 | for hunks in ascending order and within the content, the result is the joined output of the line-cursor walk (`Patched`) |
| PatchApply.WalkHunkLines | enterprise/internal/campaigns/resolvers/patch_sets.go:182-195 | the inner loop over a hunk's lines ends with the cursor and output of the walk over those lines |
| PatchApply.StepLinesCounts | enterprise/internal/campaigns/resolvers/patch_sets.go:183-195 | within a hunk the cursor advances once per `-` and context line, the output grows once per `+` and context line, and earlier output is kept |
| PatchApply.KeptLinesEmitOriginal | enterprise/internal/campaigns/resolvers/patch_sets.go:191-193 | a context line emits the original line under the cursor, not the hunk text, at the position given by the lines before it |
| PatchApply.AddedLinesEmitText | enterprise/internal/campaigns/resolvers/patch_sets.go:189-190 | a `+` line emits its text without the marker, at the position given by the lines before it |
| PatchApply.StepLinesDefined | enterprise/internal/campaigns/resolvers/patch_sets.go:191-193 | the walk through a hunk is defined exactly when every context line finds the cursor inside the original lines |
| PatchApply.HoleCopiedVerbatim | enterprise/internal/campaigns/resolvers/patch_sets.go:176-181 | before a hunk that starts elsewhere than at the cursor, the original lines from the cursor to the hunk's start are copied verbatim and the cursor moves to the start |
| PatchApply.NoHunks | enterprise/internal/campaigns/resolvers/patch_sets.go:171-201 | with no hunks the content comes back unchanged exactly when it is empty or holds a newline; otherwise the result is `""` |
| PatchApply.CountBalance | enterprise/internal/campaigns/resolvers/patch_sets.go:183-195 | in a hunk, emitted plus removed lines equal consumed plus added lines |
| PatchApply.StepHunksBalance | enterprise/internal/campaigns/resolvers/patch_sets.go:175-196 | over all hunks, output growth plus `-` lines equals cursor advance plus `+` lines |
| PatchApply.LineCountBalance | enterprise/internal/campaigns/resolvers/patch_sets.go:170-202 | the new content has the original line count minus `-` lines plus `+` lines, minus one more when the cursor ends on the last original line |
| PatchApply.AddOnlyLines | enterprise/internal/campaigns/resolvers/patch_sets.go:183-195 | a hunk of only `+` and empty lines leaves the cursor alone and appends its added texts in order |
| PatchApply.AddOnlyHunks | enterprise/internal/campaigns/resolvers/patch_sets.go:175-196 | hunks that start at line 0 and only add lines append all their added texts in order |
| PatchApply.NewFileFromAdditions | enterprise/internal/campaigns/resolvers/patch_sets.go:170-202 | a new file's diff applied to `""` gives exactly its added lines joined by newlines |
| PatchApply.VirtualFileContent.constructor | enterprise/internal/campaigns/resolvers/patch_sets.go:148-153 | the closure starts uncomputed, with empty content and no error |
| PatchApply.VirtualFileContent.Content | enterprise/internal/campaigns/resolvers/patch_sets.go:154-167 | returns the patch applied to the old content (to `""` without an old file), or `""` with a nil error when loading fails; later calls change nothing |
| FileDiffPages.ReadableCount | enterprise/internal/campaigns/resolvers/patch_sets.go:113-122 | counts the records before the reader's first error or EOF: all of them are records, and the next one, if any, is an error |
| FileDiffPages.ReadPage | enterprise/internal/campaigns/resolvers/patch_sets.go:96-138 | the read loop computes `PageOf`: cursor parsing and clamping, the int32 total, the stop after exactly that many records, the look-ahead, and the first read error |
| FileDiffPages.PageIsReadablePrefix | enterprise/internal/campaigns/resolvers/patch_sets.go:112-137 | a page's file diffs are a prefix, in reader order, of the records before the first error |
| FileDiffPages.HasNextPageIff | enterprise/internal/campaigns/resolvers/patch_sets.go:124-135 | `hasNextPage` holds exactly when the cursor parses, `after+first` is at least 1, and more than that many records are readable |
| FileDiffPages.ErrorIff | enterprise/internal/campaigns/resolvers/patch_sets.go:115-129 | an error is reported exactly when reading or the look-ahead reaches the first error; it is that error, and the prefix read before it is kept |
| FileDiffPages.NonPositiveTotalReadsAll | enterprise/internal/campaigns/resolvers/patch_sets.go:107-124 | when `after+first` is 0 or wraps below 1, reading runs to EOF or the first error and there is no next page |
| FileDiffPages.PagesNest | enterprise/internal/campaigns/resolvers/patch_sets.go:107-137 | over one stream, the page for a smaller total is a prefix of the page for a larger one |
| FileDiffPages.FileDiffConnection.constructor | enterprise/internal/campaigns/resolvers/patch_sets.go:88-94 | the closure's variables start at their zero values, uncomputed |
| FileDiffPages.FileDiffConnection.Compute | enterprise/internal/campaigns/resolvers/patch_sets.go:95-140 | the first call computes the page from its own arguments; every later call returns the cached page unchanged |
| FileDiffPages.PaginateRepeatedly | enterprise/internal/campaigns/resolvers/patch_sets.go:95-139 | every call of one closure returns the page of the first call's arguments, read error included |
| DiffStats.PatchSetDiffStat | enterprise/internal/campaigns/resolvers/patch_sets.go:43-85 | the loops compute `DiffStatOf`: store and lookup errors unchanged, then the tally of the accessible patches |
| DiffStats.TallyStopsAtError | enterprise/internal/campaigns/resolvers/patch_sets.go:76-79 | once an accessible patch without a stat is met, the result is that error whatever follows |
| DiffStats.TallyOkIff | enterprise/internal/campaigns/resolvers/patch_sets.go:68-84 | the stat is computed exactly when every accessible patch has one; inaccessible patches are skipped even without a stat |
| DiffStats.TallyErrorIsFirstMissing | enterprise/internal/campaigns/resolvers/patch_sets.go:76-79 | a failure is `patch %d has no diff stat` for the first accessible patch without a stat |
| DiffStats.TallyAppend | enterprise/internal/campaigns/resolvers/patch_sets.go:68-84 | the total over two runs of patches is the componentwise sum of their totals |
| DiffStats.NothingVisibleIsZero | enterprise/internal/campaigns/resolvers/patch_sets.go:68-84 | with no accessible patch the result is the zero stat |
| DiffStats.HiddenPatchesDoNotMatter | enterprise/internal/campaigns/resolvers/patch_sets.go:71-74 | patches in inaccessible repositories have no influence on the tally |
| DiffStats.HiddenPatchesDoNotMatterOverall | enterprise/internal/campaigns/resolvers/patch_sets.go:56-74 | the same for the whole computation, lookup included |
| Resolver.AllowReadAccess | enterprise/internal/campaigns/resolvers/resolver.go:35-46 | access is allowed exactly when read access is enabled or the viewer is a site admin; otherwise the site-admin check's error |
| Resolver.ChangesetByID | enterprise/internal/campaigns/resolvers/resolver.go:48-93 | access check first; no node and no error exactly for id 0 or no such changeset; the hidden node exactly when the repository lookup says not found; the full node, with the changeset and repository found, exactly when both lookups succeed; any other store or lookup error comes back unchanged |
| Resolver.CampaignByID | enterprise/internal/campaigns/resolvers/resolver.go:95-119 | access check first; no node and no error exactly for id 0 or no such campaign; otherwise the store's campaign or error |
| Resolver.CreateCampaign | enterprise/internal/campaigns/resolvers/resolver.go:121-138 | always an error: not authenticated without a user, ErrMustBeSiteAdmin exactly for a non-admin, "not implemented" exactly for an admin |
| Resolver.DeleteCampaign | enterprise/internal/campaigns/resolvers/resolver.go:201-221 | an id error or a zero id is rejected before the service; otherwise a non-nil response together with the service's error |
| Resolver.CloseCampaign | enterprise/internal/campaigns/resolvers/resolver.go:304-328 | an id error comes back wrapped, a zero id is rejected before the service, and a service error comes back wrapped; otherwise the closed campaign |
| Resolver.SyncChangeset | enterprise/internal/campaigns/resolvers/resolver.go:330-353 | an id error or a zero id is rejected before the service; a response exactly when the sync is enqueued without error |
| Resolver.ZeroIDQueriesVersusMutations | enterprise/internal/campaigns/resolvers/resolver.go:59-344 | for id 0 the queries give no node and no error, while the mutations fail with ErrIDIsZero, whatever the store or service would say |
| Resolver.CurrentUserCanAdministerCampaign | enterprise/internal/campaigns/resolvers/resolver.go:369-379 | true exactly when the check passes; insufficient authorization is `(false, nil)`; any other error is passed on with false |
| ListOptions.ParseCampaignState | enterprise/internal/campaigns/resolvers/resolver.go:355-367 | no error exactly for an absent state, "OPEN" or "CLOSED", and the state then maps back to its argument; any other string gives the any state and `unknown state` |
| ListOptions.ParseStateArgument | enterprise/internal/campaigns/resolvers/resolver.go:355-367 | every campaign state parses back from its argument |
| ListOptions.LowerCaseStateIsUnknown | enterprise/internal/campaigns/resolvers/resolver.go:359-366 | the match is case-sensitive: "open" and "closed" are unknown states |
| ListOptions.ListChangesetOptsFromArgs | enterprise/internal/campaigns/resolvers/resolver.go:260-302 | nil args give empty options, safe and no error; `First` becomes the limit; the first invalid filter in the order state, review state, check state decides the error, with safe false and the options built so far; on success, safe exactly when no review-state or check-state filter is given |
| ListOptions.Campaigns | enterprise/internal/campaigns/resolvers/resolver.go:223-253 | access check, then state parsing; a connection exactly when every guard passes and the site-admin check gives nil or ErrMustBeSiteAdmin; no connection and no error exactly when it gives another error, which can only happen with read access enabled; state and limit from the arguments; only-for-author set to the viewer exactly for a non-admin who asks for what they can administer |

## Left out

- Tracing spans (`trace.New`, `SetError`, `Finish`) are left out: they only observe.
- GraphQL ID marshalling and unmarshalling (`relay`) is left out. Each unmarshalled id is a parameter of type `Result<int>`.
- The store, `db.Repos.Get`/`GetByIDs`, `db.Users`, the campaign service, `conf.CampaignsReadAccessEnabled` and the backend authorization checks are parameters that hold the outcome the resolver sees. What they do is not part of this model.
- go-diff's multi-file diff reader is a sequence of records and errors, ended by EOF. Diff syntax and parsing are not part of this model.
- `strconv.ParseInt(after, 0, 32)` is a parameter giving the parsed int32 or failure. Its text syntax is not part of this model.
- The `Valid()` methods of the changeset state enums are parameters (`EnumValidity`); the enums are defined in files that are not part of this model.
- `DiffStat.AddStat` is defined in a file that is not part of this model. It is modelled as componentwise addition.
- The thread safety of `sync.Once` is left out. Each closure is a sequential object with a `once` flag and cached fields.
- `previewNewFile` is left out: it only wraps the content function in a file resolver.
- The unimplemented mutations (`ApplyCampaign`, `MoveCampaign`, `CreateCampaignSpec`, `CreateChangesetSpec`, `ComputeCampaignDelta`), the commented-out body of `CreateCampaign` and the stubs of `campaign_spec.go` are left out. They return "not implemented" or are not live code.
- The resolvers that the queries return are left out. The model returns what they are built from: the changeset and its repository, the campaign, or the listing options.
- PatchApply.ApplyPatch: the cursor is an unbounded integer, not int32, because the wrap-around would need a file of more than 2^31 lines. The method requires hunks in ascending order that stay within the content; where Go would panic on a slice, the model's specification function is undefined.
- PatchApply.Hunk: the original start line is a natural number. A negative `OrigStartLine` from the diff parser is not modelled.
- PatchApply.VirtualFileContent.Content: requires that the hunks apply to the old content, where `applyPatch` would otherwise panic.
- DiffStats.PatchSetDiffStat: the counts of a diff stat are unbounded naturals, so the int32 overflow of a very large total is not modelled.
- ListOptions.Campaigns: the site-admin check is one value of the viewer, read both by allowReadAccess and by the query's own check, so the two calls of backend.CheckCurrentUserIsSiteAdmin are assumed to give the same answer within one request; the claim that the swallowed authorization error needs read access enabled rests on that.
- ListOptions.Campaigns: returns the options of the connection it would build, not the connection resolver itself.
