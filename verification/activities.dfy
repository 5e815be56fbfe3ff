/**
 * Activity records as the tray builds them from sync events, and the three
 * lists of a user's activity list model they are routed to. The list model
 * itself is not part of this model: its three add operations are appends to
 * three separate sequences.
 */
module Activities {
  import opened Accounts

  /** Where a record came from: a folder-level sync result or one synced file. */
  datatype ActivityType = SyncResultType | SyncFileItemType

  /** Outcome of one file in a sync run, as the sync engine reports it. */
  datatype SyncFileItemStatus =
    | NoStatus
    | FatalError
    | NormalError
    | SoftError
    | Success
    | Conflict
    | FileIgnored
    | Restoration
    | DetailError
    | BlacklistedError

  /** A record's status: the sync-result error status, or a mirrored file status. */
  datatype ActivityStatus = SyncResultError | ItemStatus(itemStatus: SyncFileItemStatus)

  /** Category of a folder-level sync error. */
  datatype ErrorCategory = Normal | InsufficientRemoteStorage

  datatype ActivityLink = ActivityLink(labelText: string, link: string, verb: string, isPrimary: bool)

  datatype Activity = Activity(
    kind: ActivityType,
    status: ActivityStatus,
    subject: string,
    message: string,
    link: string,
    accName: string,
    file: string,
    folder: string,
    links: seq<ActivityLink>)

  /** The three lists records are routed to. */
  datatype Feed = Feed(errors: seq<Activity>, syncItems: seq<Activity>, ignored: seq<Activity>)

  const EmptyFeed := Feed([], [], [])

  function Size(f: Feed): nat
  {
    |f.errors| + |f.syncItems| + |f.ignored|
  }

  /** A sync folder as the folder manager knows it: its owning account and its paths. */
  datatype Folder = Folder(account: AccountId, shortGuiLocalPath: string, path: string)

  /** The folder manager's lookup from folder alias to folder. */
  type Folders = map<string, Folder>

  /** One completed file of a sync run. */
  datatype SyncFileItem = SyncFileItem(
    file: string,
    originalFile: string,
    status: SyncFileItemStatus,
    errorString: string)

  const RetryAllUploads := "Retry all uploads"
  const Synced := "Synced"

  /** The folder with this alias exists and belongs to the account. */
  predicate OwnedBy(folders: Folders, alias: string, id: AccountId)
  {
    alias in folders && folders[alias].account == id
  }

  /** Every record in the feed names a folder that belongs to the account. */
  predicate FeedOwnedBy(f: Feed, folders: Folders, id: AccountId)
  {
    && (forall a :: a in f.errors ==> OwnedBy(folders, a.folder, id))
    && (forall a :: a in f.syncItems ==> OwnedBy(folders, a.folder, id))
    && (forall a :: a in f.ignored ==> OwnedBy(folders, a.folder, id))
  }
}
