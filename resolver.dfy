/** The decision logic of the campaigns GraphQL resolver: who may read, what a
    query for a node returns, and the guards of the mutations. The
    configuration, the current user and every store, repository or service
    call are parameters holding the outcome the resolver sees. */
module Resolver {
  import opened Base
  import opened Entities

  /** What the request context tells the resolver about its viewer. */
  datatype Viewer = Viewer(
    readAccessEnabled: bool,       // conf.CampaignsReadAccessEnabled()
    siteAdminCheck: Option<Error>, // backend.CheckCurrentUserIsSiteAdmin: None when the viewer is a site admin
    uid: int)                      // actor.FromContext(ctx).UID

  /** allowReadAccess: site admins may always read; everybody may when read
      access is enabled. */
  function AllowReadAccess(v: Viewer): (denied: Option<Error>)
    ensures denied.None? <==> v.readAccessEnabled || v.siteAdminCheck.None?
    ensures denied.Some? ==> denied == v.siteAdminCheck
  {
    if v.readAccessEnabled then None
    else if v.siteAdminCheck.Some? then v.siteAdminCheck
    else None
  }

  /** errcode.IsNotFound. */
  predicate IsNotFound(e: Error)
  {
    e.NotFound?
  }

  /** The two implementations of the Changeset interface: the full one, with
      the repository the viewer may see, and the hidden one, which shows only
      what is safe to show about a changeset in a repository the viewer may
      not see (ToExternalChangeset / ToHiddenExternalChangeset). */
  datatype ChangesetNode = Full(changeset: Changeset, repo: Repo) | Hidden(changeset: Changeset)

  /** ChangesetByID. `id` is the outcome of unmarshalling the GraphQL id,
      `getChangeset` the store's GetChangeset by id and `getRepo` db.Repos.Get,
      which reports not-found for repositories the viewer may not access. */
  function ChangesetByID(v: Viewer, id: Result<int>, getChangeset: int -> Result<Changeset>, getRepo: int -> Result<Repo>)
    : (r: Result<Option<ChangesetNode>>)
    // the read-access check comes before anything else
    ensures AllowReadAccess(v).Some? ==> r == Err(AllowReadAccess(v).value)
    ensures AllowReadAccess(v).None? && id.Err? ==> r == Err(id.error)
    // no node and no error: a zero id, or no such changeset
    ensures r == Ok(None) <==>
      && AllowReadAccess(v).None? && id.Ok?
      && (id.value == 0 || getChangeset(id.value) == Err(NoResults))
    // the full node only with the repository the lookup let through
    ensures r.Ok? && r.value.Some? && r.value.value.Full? ==>
      && AllowReadAccess(v).None? && id.Ok? && id.value != 0
      && getChangeset(id.value) == Ok(r.value.value.changeset)
      && getRepo(r.value.value.changeset.repoID) == Ok(r.value.value.repo)
    // the hidden node exactly when the repository lookup says not found
    ensures (r.Ok? && r.value.Some? && r.value.value.Hidden?) <==>
      && AllowReadAccess(v).None? && id.Ok? && id.value != 0
      && getChangeset(id.value).Ok?
      && getRepo(getChangeset(id.value).value.repoID).Err?
      && IsNotFound(getRepo(getChangeset(id.value).value.repoID).error)
    ensures r.Ok? && r.value.Some? ==> getChangeset(id.value) == Ok(r.value.value.changeset)
    // changeset and repository both found: the full node
    ensures
      && AllowReadAccess(v).None? && id.Ok? && id.value != 0
      && getChangeset(id.value).Ok?
      && getRepo(getChangeset(id.value).value.repoID).Ok?
      ==> r == Ok(Some(Full(getChangeset(id.value).value, getRepo(getChangeset(id.value).value.repoID).value)))
    // any other store error comes back unchanged
    ensures
      && AllowReadAccess(v).None? && id.Ok? && id.value != 0
      && getChangeset(id.value).Err? && getChangeset(id.value).error != NoResults
      ==> r == Err(getChangeset(id.value).error)
    // any other repository lookup error comes back unchanged
    ensures
      && AllowReadAccess(v).None? && id.Ok? && id.value != 0
      && getChangeset(id.value).Ok?
      && getRepo(getChangeset(id.value).value.repoID).Err?
      && !IsNotFound(getRepo(getChangeset(id.value).value.repoID).error)
      ==> r == Err(getRepo(getChangeset(id.value).value.repoID).error)
  {
    var denied := AllowReadAccess(v);
    if denied.Some? then Err(denied.value)
    else if id.Err? then Err(id.error)
    else if id.value == 0 then Ok(None)
    else
      match getChangeset(id.value)
      case Err(e) => if e == NoResults then Ok(None) else Err(e)
      case Ok(changeset) =>
        match getRepo(changeset.repoID)
        case Err(e) => if IsNotFound(e) then Ok(Some(Hidden(changeset))) else Err(e)
        case Ok(repo) => Ok(Some(Full(changeset, repo)))
  }

  /** CampaignByID: the same chain as ChangesetByID, without a hidden case. */
  function CampaignByID(v: Viewer, id: Result<int>, getCampaign: int -> Result<Campaign>): (r: Result<Option<Campaign>>)
    ensures AllowReadAccess(v).Some? ==> r == Err(AllowReadAccess(v).value)
    ensures AllowReadAccess(v).None? && id.Err? ==> r == Err(id.error)
    ensures r == Ok(None) <==>
      && AllowReadAccess(v).None? && id.Ok?
      && (id.value == 0 || getCampaign(id.value) == Err(NoResults))
    ensures r.Ok? && r.value.Some? ==>
      && AllowReadAccess(v).None? && id.Ok? && id.value != 0
      && getCampaign(id.value) == Ok(r.value.value)
    ensures r.Err? && AllowReadAccess(v).None? && id.Ok? ==>
      getCampaign(id.value) == Err(r.error) && r.error != NoResults
  {
    var denied := AllowReadAccess(v);
    if denied.Some? then Err(denied.value)
    else if id.Err? then Err(id.error)
    else if id.value == 0 then Ok(None)
    else
      match getCampaign(id.value)
      case Err(e) => if e == NoResults then Ok(None) else Err(e)
      case Ok(campaign) => Ok(Some(campaign))
  }

  /** CreateCampaign: `user` is db.Users.GetByCurrentAuthUser's outcome. Only a
      site admin gets past the guards, and then the mutation is not
      implemented: it never creates anything. */
  function CreateCampaign(user: Result<User>): (r: Result<Campaign>)
    ensures r.Err?
    ensures user.Err? ==> r.error == NotAuthenticated(user.error)
    ensures r.error == MustBeSiteAdmin <==> user.Ok? && !user.value.siteAdmin
    ensures r.error == NotImplemented <==> user.Ok? && user.value.siteAdmin
  {
    if user.Err? then Err(NotAuthenticated(user.error))
    else if !user.value.siteAdmin then Err(MustBeSiteAdmin)
    else Err(NotImplemented)
  }

  /** What DeleteCampaign and SyncChangeset return: whether the EmptyResponse
      is non-nil, and the error. */
  datatype MutationReply = MutationReply(responded: bool, err: Option<Error>)

  /** DeleteCampaign: `deleteCampaign` is the service's DeleteCampaign, which
      checks the viewer's authorization itself. A zero id is rejected before
      the service is called; once called, the response is non-nil even when
      the service fails. */
  function DeleteCampaign(id: Result<int>, deleteCampaign: int -> Option<Error>): (r: MutationReply)
    ensures id.Err? ==> r == MutationReply(false, Some(id.error))
    ensures id == Ok(0) ==> r == MutationReply(false, Some(IDIsZero))
    ensures r.responded <==> id.Ok? && id.value != 0
    ensures r.responded ==> r.err == deleteCampaign(id.value)
  {
    if id.Err? then MutationReply(false, Some(id.error))
    else if id.value == 0 then MutationReply(false, Some(IDIsZero))
    else MutationReply(true, deleteCampaign(id.value))
  }

  /** CloseCampaign: `closeCampaign` is the service's CloseCampaign, given the
      id and whether to close the changesets too. Its errors and the
      unmarshalling error come back wrapped with context. */
  function CloseCampaign(id: Result<int>, closeChangesets: bool, closeCampaign: (int, bool) -> Result<Campaign>)
    : (r: Result<Campaign>)
    ensures id.Err? ==> r == Err(Wrapped("unmarshaling campaign id", id.error))
    ensures id == Ok(0) ==> r == Err(IDIsZero)
    ensures r.Ok? <==> id.Ok? && id.value != 0 && closeCampaign(id.value, closeChangesets).Ok?
    ensures r.Ok? ==> r == closeCampaign(id.value, closeChangesets)
    ensures id.Ok? && id.value != 0 && closeCampaign(id.value, closeChangesets).Err? ==>
      r == Err(Wrapped("closing campaign", closeCampaign(id.value, closeChangesets).error))
  {
    if id.Err? then Err(Wrapped("unmarshaling campaign id", id.error))
    else if id.value == 0 then Err(IDIsZero)
    else
      match closeCampaign(id.value, closeChangesets)
      case Err(e) => Err(Wrapped("closing campaign", e))
      case Ok(campaign) => Ok(campaign)
  }

  /** SyncChangeset: `enqueueSync` is the service's EnqueueChangesetSync,
      which checks the viewer's authorization itself. */
  function SyncChangeset(id: Result<int>, enqueueSync: int -> Option<Error>): (r: MutationReply)
    ensures id.Err? ==> r == MutationReply(false, Some(id.error))
    ensures id == Ok(0) ==> r == MutationReply(false, Some(IDIsZero))
    ensures r.responded <==> r.err.None?
    ensures r.responded <==> id.Ok? && id.value != 0 && enqueueSync(id.value).None?
    ensures id.Ok? && id.value != 0 && enqueueSync(id.value).Some? ==> r.err == enqueueSync(id.value)
  {
    if id.Err? then MutationReply(false, Some(id.error))
    else if id.value == 0 then MutationReply(false, Some(IDIsZero))
    else
      var err := enqueueSync(id.value);
      if err.Some? then MutationReply(false, err) else MutationReply(true, None)
  }

  /** The queries treat the zero id as "no such node" and answer without an
      error, where the mutations reject it with ErrIDIsZero; neither asks the
      store or the service. */
  lemma ZeroIDQueriesVersusMutations(
    v: Viewer,
    getChangeset: int -> Result<Changeset>, getRepo: int -> Result<Repo>, getCampaign: int -> Result<Campaign>,
    deleteCampaign: int -> Option<Error>, closeChangesets: bool, closeCampaign: (int, bool) -> Result<Campaign>,
    enqueueSync: int -> Option<Error>)
    requires AllowReadAccess(v).None?
    ensures ChangesetByID(v, Ok(0), getChangeset, getRepo) == Ok(None)
    ensures CampaignByID(v, Ok(0), getCampaign) == Ok(None)
    ensures DeleteCampaign(Ok(0), deleteCampaign).err == Some(IDIsZero)
    ensures CloseCampaign(Ok(0), closeChangesets, closeCampaign) == Err(IDIsZero)
    ensures SyncChangeset(Ok(0), enqueueSync).err == Some(IDIsZero)
  {
  }

  /** currentUserCanAdministerCampaign: `checkSiteAdminOrSameUser` is
      backend.CheckSiteAdminOrSameUser for a user id. Lacking authorization
      is an answer (false), not an error; other errors are passed on. */
  function CurrentUserCanAdministerCampaign(c: Campaign, checkSiteAdminOrSameUser: int -> Option<Error>)
    : (r: (bool, Option<Error>))
    ensures r.0 <==> checkSiteAdminOrSameUser(c.authorID).None?
    ensures r.1.Some? <==>
      checkSiteAdminOrSameUser(c.authorID).Some? && !checkSiteAdminOrSameUser(c.authorID).value.InsufficientAuthorization?
    ensures r.1.Some? ==> r.1 == checkSiteAdminOrSameUser(c.authorID)
    ensures !(r.0 && r.1.Some?)
  {
    match checkSiteAdminOrSameUser(c.authorID)
    case None => (true, None)
    case Some(err) =>
      if err.InsufficientAuthorization? then (false, None) else (false, Some(err))
  }
}
