/** Shared vocabulary: optional values, the errors the resolvers return, and Go's int32. */
module Base {

  datatype Option<+T> = None | Some(value: T)

  /** The errors the campaign resolvers produce or pass on. Errors that come
      from collaborators outside the model (the store, the repository table,
      the diff reader, authentication) are `Failed`, `NotFound` or
      `InsufficientAuthorization`, told apart by an opaque code. */
  datatype Error =
    | Failed(code: nat)                       // any collaborator error the resolver only passes on
    | NoResults                               // ee.ErrNoResults: the store found nothing
    | NotFound(code: nat)                     // an error errcode.IsNotFound recognises
    | MustBeSiteAdmin                         // backend.ErrMustBeSiteAdmin
    | InsufficientAuthorization(code: nat)    // a *backend.InsufficientAuthorizationError
    | NotAuthenticated(cause: Error)          // errors.Wrapf(err, "%v", backend.ErrNotAuthenticated)
    | IDIsZero                                // ErrIDIsZero, "invalid node id"
    | NotImplemented                          // "TODO: not implemented"
    | ChangesetStateNotValid
    | ChangesetReviewStateNotValid
    | ChangesetCheckStateNotValid
    | UnknownState(state: string)             // "unknown state %q"
    | NoDiffStat(patchID: int)                // "patch %d has no diff stat"
    | Wrapped(context: string, cause: Error)  // errors.Wrap(cause, context)

  /** A value or the error that stopped its computation. */
  datatype Result<+T> = Ok(value: T) | Err(error: Error)

  const Int32Modulus: int := 0x1_0000_0000

  /** Go's int32. */
  type Int32 = x: int | -0x8000_0000 <= x < 0x8000_0000

  /** Two's-complement wrap-around of an int into int32, as Go's int32 arithmetic does. */
  function Wrap32(x: int): (r: Int32)
    ensures (r - x) % Int32Modulus == 0
    ensures -0x8000_0000 <= x < 0x8000_0000 ==> r == x
  {
    (x + 0x8000_0000) % Int32Modulus - 0x8000_0000
  }
}

/** The records of the campaigns package that the resolvers read. Only the
    fields the modelled code looks at are kept. */
module Entities {
  import opened Base

  /** A repository row as db.Repos returns it to a viewer who may see it. */
  datatype Repo = Repo(id: int, name: string)

  /** Added, changed and deleted line counts of a diff. */
  datatype DiffStat = DiffStat(added: nat, changed: nat, deleted: nat)

  const ZeroStat := DiffStat(0, 0, 0)

  /** DiffStat.AddStat: componentwise addition. */
  function AddStat(a: DiffStat, b: DiffStat): (r: DiffStat)
  {
    DiffStat(a.added + b.added, a.changed + b.changed, a.deleted + b.deleted)
  }

  /** A patch of a patch set: its repository and, once computed, its diff stat
      (Patch.DiffStat() reports ok only when all three counts are present). */
  datatype Patch = Patch(id: int, repoID: int, diffStat: Option<DiffStat>)

  /** A changeset row; the resolvers only route on its id and repository. */
  datatype Changeset = Changeset(id: int, repoID: int, externalState: string)

  /** A campaign row; the resolvers only look at its id and author. */
  datatype Campaign = Campaign(id: int, name: string, authorID: int)

  /** The user row of the current request. */
  datatype User = User(id: int, siteAdmin: bool)

  /** campaigns.CampaignState as listing filter. */
  datatype CampaignState = CampaignStateAny | CampaignStateOpen | CampaignStateClosed
}
