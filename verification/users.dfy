/**
 * One account as the tray shows it (the `User` class): the account it wraps,
 * whether it is flagged as the current user, and its activity lists. The
 * derived display fields and the two sync-event slots live here.
 */
module Users {
  import opened Wrappers
  import opened Strings
  import opened Accounts
  import opened Avatars
  import opened Activities

  datatype User = User(account: Account, isCurrentUser: bool, feed: Feed)

  /** A freshly constructed user: it owns a new, empty activity list model. */
  function NewUser(account: Account, isCurrent: bool): (r: User)
    ensures r.account == account && r.isCurrentUser == isCurrent && r.feed == EmptyFeed
    ensures Size(r.feed) == 0
  {
    User(account, isCurrent, EmptyFeed)
  }

  /** Sets the current-user flag and nothing else. */
  function SetCurrentUser(u: User, isCurrent: bool): (r: User)
    ensures r.isCurrentUser == isCurrent
    ensures r.account == u.account && r.feed == u.feed
  {
    u.(isCurrentUser := isCurrent)
  }

  /** The name shown for the user: the server-side display name, or the login name while that is empty. */
  function Name(u: User): (n: string)
    ensures u.account.davDisplayName != [] ==> n == u.account.davDisplayName
    ensures u.account.davDisplayName == [] ==> n == u.account.credentialsUser
    ensures n == [] <==> u.account.davDisplayName == [] && u.account.credentialsUser == []
  {
    if u.account.davDisplayName == "" then u.account.credentialsUser else u.account.davDisplayName
  }

  /** The server URL, with both schemes removed wherever they occur when `shortened`. */
  function Server(u: User, shortened: bool): (s: string)
    ensures !shortened ==> s == u.account.url
    ensures shortened ==> |s| <= |u.account.url|
  {
    if shortened then Shorten(u.account.url) else u.account.url
  }

  /** Shortening removes a leading scheme from a URL whose host part mentions no scheme, and leaves a scheme-free URL alone. */
  lemma ServerShortening(u: User, h: string)
    requires !Contains(h, Https) && !Contains(h, Http)
    ensures u.account.url == Https + h ==> Server(u, true) == h
    ensures u.account.url == Http + h ==> Server(u, true) == h
    ensures u.account.url == h ==> Server(u, true) == h
  {
    ShortenStripsLeadingScheme(h);
    ShortenWithoutScheme(h);
  }

  function IsConnected(u: User): (b: bool)
    ensures b <==> u.account.status == Connected
  {
    u.account.status == Connected
  }

  /** The user's avatar: the fetched circular image, or the placeholder themed for the background. */
  function Avatar(u: User, whiteBg: bool): (img: Image)
    ensures u.account.avatar.Some? ==> img == Fetched(u.account.avatar.value)
    ensures u.account.avatar.None? ==> img == PlaceholderWith(if whiteBg then BlackUserGlyph else WhiteUserGlyph)
  {
    Resolve(u.account.avatar, whiteBg)
  }

  // ---------------------------------------------------------------------
  // Activity ingestion

  /** The three lists of the activity list model. */
  datatype Channel = ErrorList | SyncList | IgnoredList

  function List(f: Feed, ch: Channel): seq<Activity>
  {
    match ch
    case ErrorList => f.errors
    case SyncList => f.syncItems
    case IgnoredList => f.ignored
  }

  function Append(f: Feed, ch: Channel, a: Activity): Feed
  {
    match ch
    case ErrorList => f.(errors := f.errors + [a])
    case SyncList => f.(syncItems := f.syncItems + [a])
    case IgnoredList => f.(ignored := f.ignored + [a])
  }

  /** `after` is `before` with exactly one record, `a`, appended to list `ch`. */
  predicate AppendedTo(before: Feed, after: Feed, ch: Channel, a: Activity)
  {
    && List(after, ch) == List(before, ch) + [a]
    && forall c :: c != ch ==> List(after, c) == List(before, c)
  }

  lemma AppendSpec(f: Feed, ch: Channel, a: Activity)
    ensures AppendedTo(f, Append(f, ch, a), ch, a)
    ensures Size(Append(f, ch, a)) == Size(f) + 1
  {
  }

  /** The record a folder-level sync error becomes. */
  function ErrorActivity(u: User, alias: string, folder: Folder, message: string, category: ErrorCategory): Activity
  {
    Activity(
      SyncResultType, SyncResultError, message,
      folder.shortGuiLocalPath, folder.shortGuiLocalPath,
      u.account.displayName, "", alias,
      if category == InsufficientRemoteStorage
      then [ActivityLink(RetryAllUploads, folder.path, "", true)]
      else [])
  }

  /**
   * A folder-level sync error. Events for an unknown folder or for a folder
   * of another account are dropped; otherwise exactly one record goes to the
   * error list, carrying a single primary "Retry all uploads" link exactly
   * when the remote storage is full.
   */
  function SlotAddError(u: User, folders: Folders, alias: string, message: string, category: ErrorCategory): (r: User)
    ensures !OwnedBy(folders, alias, u.account.id) ==> r == u
    ensures r.account == u.account && r.isCurrentUser == u.isCurrentUser
    ensures OwnedBy(folders, alias, u.account.id) ==>
      exists a :: AppendedTo(u.feed, r.feed, ErrorList, a)
        && a.kind == SyncResultType && a.status == SyncResultError
        && a.subject == message
        && a.message == a.link == folders[alias].shortGuiLocalPath
        && a.accName == u.account.displayName && a.folder == alias && a.file == ""
        && (|a.links| == 1 <==> category == InsufficientRemoteStorage)
        && (|a.links| == 0 <==> category != InsufficientRemoteStorage)
        && (a.links != [] ==> a.links[0] == ActivityLink(RetryAllUploads, folders[alias].path, "", true))
  {
    if alias !in folders then u
    else if folders[alias].account != u.account.id then u
    else
      var a := ErrorActivity(u, alias, folders[alias], message, category);
      AppendSpec(u.feed, ErrorList, a);
      u.(feed := Append(u.feed, ErrorList, a))
  }

  /** The list a completed item is routed to. */
  function ChannelOf(status: SyncFileItemStatus): Channel
  {
    if status == NoStatus || status == Success then SyncList
    else if status == FileIgnored then IgnoredList
    else ErrorList
  }

  /** The record a completed item becomes. */
  function ItemActivity(u: User, alias: string, item: SyncFileItem): Activity
  {
    var base := Activity(
      SyncFileItemType, ItemStatus(item.status), "", item.originalFile,
      u.account.url, u.account.displayName, item.file, alias, []);
    if item.status == NoStatus || item.status == Success then
      base.(message := Synced + " " + item.originalFile)
    else
      base.(subject := item.errorString)
  }

  /** The fields every record built from a completed item carries. */
  predicate ItemRecord(a: Activity, u: User, alias: string, item: SyncFileItem)
  {
    && a.kind == SyncFileItemType
    && a.status == ItemStatus(item.status)
    && a.link == u.account.url
    && a.accName == u.account.displayName
    && a.file == item.file
    && a.folder == alias
    && a.links == []
  }

  /**
   * One completed file. Events for an unknown folder or for a folder of
   * another account are dropped; otherwise exactly one record is appended:
   * to the sync list with message "Synced <original file>" on success or no
   * status, to the ignored list for an ignored file, and to the error list
   * otherwise, the latter two with the item's error string as subject.
   */
  function SlotItemCompleted(u: User, folders: Folders, alias: string, item: SyncFileItem): (r: User)
    ensures !OwnedBy(folders, alias, u.account.id) ==> r == u
    ensures r.account == u.account && r.isCurrentUser == u.isCurrentUser
    ensures OwnedBy(folders, alias, u.account.id) ==> Size(r.feed) == Size(u.feed) + 1
    ensures OwnedBy(folders, alias, u.account.id) && (item.status == NoStatus || item.status == Success) ==>
      exists a :: AppendedTo(u.feed, r.feed, SyncList, a) && ItemRecord(a, u, alias, item)
        && a.message == "Synced " + item.originalFile && a.subject == ""
    ensures OwnedBy(folders, alias, u.account.id) && item.status == FileIgnored ==>
      exists a :: AppendedTo(u.feed, r.feed, IgnoredList, a) && ItemRecord(a, u, alias, item)
        && a.message == item.originalFile && a.subject == item.errorString
    ensures OwnedBy(folders, alias, u.account.id) && item.status !in {NoStatus, Success, FileIgnored} ==>
      exists a :: AppendedTo(u.feed, r.feed, ErrorList, a) && ItemRecord(a, u, alias, item)
        && a.message == item.originalFile && a.subject == item.errorString
  {
    if alias !in folders then u
    else if folders[alias].account != u.account.id then u
    else
      var a := ItemActivity(u, alias, item);
      var ch := ChannelOf(item.status);
      AppendSpec(u.feed, ch, a);
      u.(feed := Append(u.feed, ch, a))
  }

  /** The ingestion slots only ever add records for folders of the user's own account. */
  lemma SlotsKeepFeedOwned(u: User, folders: Folders, alias: string, message: string, category: ErrorCategory, item: SyncFileItem)
    requires FeedOwnedBy(u.feed, folders, u.account.id)
    ensures FeedOwnedBy(SlotAddError(u, folders, alias, message, category).feed, folders, u.account.id)
    ensures FeedOwnedBy(SlotItemCompleted(u, folders, alias, item).feed, folders, u.account.id)
  {
  }
}
