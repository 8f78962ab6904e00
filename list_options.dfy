/** Turning the arguments of the campaign and changeset listings into store
    options: parseCampaignState, listChangesetOptsFromArgs and the option
    building of the Campaigns query. */
module ListOptions {
  import opened Base
  import opened Entities
  import opened Resolver

  /** parseCampaignState: absent means any state; otherwise exactly "OPEN" or
      "CLOSED" (case-sensitive), anything else is an error that still comes
      with the any-state value. */
  function ParseCampaignState(s: Option<string>): (r: (CampaignState, Option<Error>))
    ensures r.1.None? <==> s.None? || s.value == "OPEN" || s.value == "CLOSED"
    ensures r.1.None? ==> StateArgument(r.0) == s
    ensures r.1.Some? ==> r == (CampaignStateAny, Some(UnknownState(s.value)))
  {
    if s.None? then (CampaignStateAny, None)
    else if s.value == "OPEN" then (CampaignStateOpen, None)
    else if s.value == "CLOSED" then (CampaignStateClosed, None)
    else (CampaignStateAny, Some(UnknownState(s.value)))
  }

  /** The argument that asks for a campaign state. */
  function StateArgument(state: CampaignState): Option<string>
  {
    match state
    case CampaignStateAny => None
    case CampaignStateOpen => Some("OPEN")
    case CampaignStateClosed => Some("CLOSED")
  }

  /** Every state is reachable, and parses back to itself. */
  lemma ParseStateArgument(state: CampaignState)
    ensures ParseCampaignState(StateArgument(state)) == (state, None)
  {
  }

  /** The match is case-sensitive. */
  lemma LowerCaseStateIsUnknown()
    ensures ParseCampaignState(Some("open")) == (CampaignStateAny, Some(UnknownState("open")))
    ensures ParseCampaignState(Some("closed")) == (CampaignStateAny, Some(UnknownState("closed")))
  {
  }

  /** ListChangesetsArgs; the enum filters are the raw strings given. */
  datatype ListChangesetsArgs = ListChangesetsArgs(
    first: Option<Int32>,
    state: Option<string>,
    reviewState: Option<string>,
    checkState: Option<string>)

  /** The Valid() methods of ChangesetState, ChangesetReviewState and
      ChangesetCheckState. */
  datatype EnumValidity = EnumValidity(
    state: string -> bool,
    reviewState: string -> bool,
    checkState: string -> bool)

  /** The fields of ListChangesetsOpts the arguments set. */
  datatype ListChangesetsOpts = ListChangesetsOpts(
    limit: int,
    externalState: Option<string>,
    externalReviewState: Option<string>,
    externalCheckState: Option<string>)

  const NoChangesetsOpts := ListChangesetsOpts(0, None, None, None)

  /** An absent filter, or one its Valid() accepts. */
  predicate Acceptable(filter: Option<string>, valid: string -> bool)
  {
    filter.None? || valid(filter.value)
  }

  /** listChangesetOptsFromArgs. The filters are checked in the order state,
      review state, check state; the first invalid one decides the error, and
      the options built up to that point are returned with it. `optsSafe`
      says whether the listing may include hidden changesets. */
  method ListChangesetOptsFromArgs(args: Option<ListChangesetsArgs>, valid: EnumValidity)
    returns (opts: ListChangesetsOpts, optsSafe: bool, err: Option<Error>)
    ensures args.None? ==> opts == NoChangesetsOpts && optsSafe && err.None?
    ensures args.Some? ==> opts.limit == (if args.value.first.Some? then args.value.first.value else 0)
    ensures err.None? <==>
      || args.None?
      || (&& Acceptable(args.value.state, valid.state)
          && Acceptable(args.value.reviewState, valid.reviewState)
          && Acceptable(args.value.checkState, valid.checkState))
    // only the first invalid filter is reported
    ensures err == Some(ChangesetStateNotValid) <==>
      args.Some? && !Acceptable(args.value.state, valid.state)
    ensures err == Some(ChangesetReviewStateNotValid) <==>
      && args.Some? && Acceptable(args.value.state, valid.state)
      && !Acceptable(args.value.reviewState, valid.reviewState)
    ensures err == Some(ChangesetCheckStateNotValid) <==>
      && args.Some? && Acceptable(args.value.state, valid.state)
      && Acceptable(args.value.reviewState, valid.reviewState)
      && !Acceptable(args.value.checkState, valid.checkState)
    // safe exactly when no review-state or check-state filter is given
    ensures err.None? ==> (optsSafe <==> args.None? || (args.value.reviewState.None? && args.value.checkState.None?))
    ensures err.Some? ==> !optsSafe
    // a filter is set once it has been checked
    ensures args.Some? ==>
      opts.externalState == (if Acceptable(args.value.state, valid.state) then args.value.state else None)
    ensures args.Some? ==>
      opts.externalReviewState ==
        (if Acceptable(args.value.state, valid.state) && Acceptable(args.value.reviewState, valid.reviewState)
         then args.value.reviewState else None)
    ensures args.Some? ==>
      opts.externalCheckState == (if err.None? then args.value.checkState else None)
  {
    opts := NoChangesetsOpts;
    if args.None? {
      return opts, true, None;
    }
    var a := args.value;

    var safe := true;

    if a.first.Some? {
      opts := opts.(limit := a.first.value);
    }

    if a.state.Some? {
      if !valid.state(a.state.value) {
        return opts, false, Some(ChangesetStateNotValid);
      }
      opts := opts.(externalState := a.state);
      // The hidden changeset shows its state, so this filter is safe.
    }
    if a.reviewState.Some? {
      if !valid.reviewState(a.reviewState.value) {
        return opts, false, Some(ChangesetReviewStateNotValid);
      }
      opts := opts.(externalReviewState := a.reviewState);
      // Filtering hidden changesets by review state would leak it.
      safe := false;
    }
    if a.checkState.Some? {
      if !valid.checkState(a.checkState.value) {
        return opts, false, Some(ChangesetCheckStateNotValid);
      }
      opts := opts.(externalCheckState := a.checkState);
      // Filtering hidden changesets by check state would leak it.
      safe := false;
    }

    return opts, safe, None;
  }

  /** ListCampaignArgs. */
  datatype ListCampaignArgs = ListCampaignArgs(first: Option<Int32>, state: Option<string>, viewerCanAdminister: Option<bool>)

  /** The fields of ListCampaignsOpts the query sets; an `onlyForAuthor` of 0
      lists every author's campaigns. */
  datatype ListCampaignsOpts = ListCampaignsOpts(limit: int, state: CampaignState, onlyForAuthor: int)

  /** The Campaigns query, up to the options of the connection it returns
      (None for a nil connection). The site-admin check is asked twice, once
      through allowReadAccess and once directly, and gives the same answer
      both times. An authorization error other than ErrMustBeSiteAdmin
      returns the (nil) parse error in its place: no connection, no error. */
  method Campaigns(v: Viewer, args: ListCampaignArgs) returns (conn: Option<ListCampaignsOpts>, err: Option<Error>)
    ensures AllowReadAccess(v).Some? ==> conn.None? && err == AllowReadAccess(v)
    ensures AllowReadAccess(v).None? && ParseCampaignState(args.state).1.Some? ==>
      conn.None? && err == ParseCampaignState(args.state).1
    ensures !(conn.Some? && err.Some?)
    // the swallowed authorization error
    ensures conn.None? && err.None? <==>
      && AllowReadAccess(v).None? && ParseCampaignState(args.state).1.None?
      && v.siteAdminCheck.Some? && v.siteAdminCheck != Some(MustBeSiteAdmin)
    // a connection exactly when every guard passes
    ensures conn.Some? <==>
      && AllowReadAccess(v).None? && ParseCampaignState(args.state).1.None?
      && (v.siteAdminCheck.None? || v.siteAdminCheck == Some(MustBeSiteAdmin))
    // the swallowed error only reaches a viewer let in by enabled read access
    ensures conn.None? && err.None? ==> v.readAccessEnabled
    ensures conn.Some? ==>
      && conn.value.state == ParseCampaignState(args.state).0
      && conn.value.limit == (if args.first.Some? then args.first.value else 0)
    // listing only the viewer's own campaigns: a non-admin asking for what they can administer
    ensures conn.Some? ==>
      conn.value.onlyForAuthor == (if v.siteAdminCheck == Some(MustBeSiteAdmin) && args.viewerCanAdminister == Some(true) then v.uid else 0)
  {
    var denied := AllowReadAccess(v);
    if denied.Some? {
      return None, denied;
    }
    var opts := ListCampaignsOpts(0, CampaignStateAny, 0);
    var (state, parseErr) := ParseCampaignState(args.state);
    if parseErr.Some? {
      return None, parseErr;
    }
    opts := opts.(state := state);
    if args.first.Some? {
      opts := opts.(limit := args.first.value);
    }
    var authErr := v.siteAdminCheck;
    if authErr.Some? && authErr != Some(MustBeSiteAdmin) {
      return None, parseErr;
    }
    var isSiteAdmin := authErr != Some(MustBeSiteAdmin);
    if !isSiteAdmin {
      if args.viewerCanAdminister == Some(true) {
        opts := opts.(onlyForAuthor := v.uid);
      }
    }
    return Some(opts), None;
  }
}
