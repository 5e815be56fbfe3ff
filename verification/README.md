# Tray account registry and activity routing, modelled in Dafny

This project models the core of the desktop client's tray user model
(`src/gui/tray/UserModel.cpp`): the registry of connected accounts shown in
the tray (`UserModel`), the per-account view of one account (`User`), the
routing of sync-engine events into each account's activity lists, and the
decision between a fetched avatar and a placeholder glyph.

The model is functional. A registry is a value
`Registry(users, currentUserId, init, log)`: the ordered users, the current
index (0 after construction), the one-shot "first build selects the first
user" flag, and an append-only log of what the operations emitted —
row insertions and removals, `refreshCurrentUserGui`, `newUserSelected` —
and of what they asked the account collaborators to do: reset certificates,
sign in, sign out, delete the account, save, fetch more activities. Each
operation is a pure function that returns the next registry.

The source indexes its user list without bounds checks. Each such access
out of range (`_users[id]`, `_users[_currentUserId]`, `_users.first()` on an
empty list) is modelled as `Err(OutOfRange(i))`. None of them is a
precondition.

Behaviour kept exactly as the code has it:

- `removeAccount` does not renumber `_currentUserId` after `removeAt`.
  Removing the current first user of two leaves one user and a current
  index of 1 (`RegistryProperties.RemoveLeavesStaleIndex`). "The current
  index is within the list" is therefore not an invariant of the model.
- `buildUserList` flags the first user but leaves `_currentUserId` alone.
- `server(true)` uses `QString::replace`. That call removes every
  non-overlapping occurrence of `"https://"` in the text, left to right,
  and then every occurrence of `"http://"`, so a scheme inside a query
  string goes too. Text joined around a removed occurrence is not
  rescanned (`Strings.RemoveAllDoesNotRescan`).
- The scheme check for the Talk link looks at `server + "/apps/spreed"`,
  not at `server` alone.
- A removal ends with `refreshCurrentUserGui` after the row is removed; no
  selection-changed notification follows it. When the current user is
  removed, `newUserSelected` comes earlier, from the switch to another
  user.
- Nothing keeps the current index addressing a user while users exist.
  With three users, removing the current first one leaves the index on
  the old third user while the old second user is flagged
  (`RegistryProperties.RemoveMisdirectsIndex`).

`UserModel.h` is not part of this model. The model assumes its defaults:
`server(bool shortened = true)`, `avatar(bool whiteBg = false)`,
`addUser(..., isCurrent = false)` and `_init = true`.

## Model

| member | source | states |
|---|---|---|
| Strings.RemoveAll | src/gui/tray/UserModel.cpp:159-160 | Replacing a non-empty pattern by nothing never lengthens the text, and a leading occurrence shortens it by at least the pattern's length |
| Strings.RemoveAllAbsent | src/gui/tray/UserModel.cpp:159-160 | Text that does not contain the pattern comes back unchanged |
| Strings.RemoveAllFirstOccurrence | src/gui/tray/UserModel.cpp:159-160 | At the first occurrence of the pattern the text splits: everything before it is kept, the occurrence is dropped and removal resumes right after it. With RemoveAllAbsent this fixes the result for every text |
| Strings.RemoveAllAfterCleanPrefix | src/gui/tray/UserModel.cpp:159-160 | A prefix in which no occurrence starts is copied through unchanged, and removal carries on in the rest |
| Strings.RemoveAllDoesNotRescan | src/gui/tray/UserModel.cpp:159 | Removing "https://" from "hthttps://tps://" leaves "https://": the joined text is not searched again |
| Accounts.Shorten | src/gui/tray/UserModel.cpp:159-160 | Shortening never lengthens the URL, and a leading "https://" takes at least eight characters off |
| Accounts.ShortenStripsLeadingScheme | src/gui/tray/UserModel.cpp:155-163 | A URL with one leading "https://" or "http://" and no scheme in the rest shortens to the rest |
| Accounts.ShortenWithoutScheme | src/gui/tray/UserModel.cpp:158-161 | A URL that mentions neither scheme is unchanged by shortening |
| Accounts.ShortenExamples | src/gui/tray/UserModel.cpp:155-163 | "https://cloud.example.com" and "http://cloud.example.com" both shorten to "cloud.example.com" |
| Accounts.ShortenRemovesInnerScheme | src/gui/tray/UserModel.cpp:159-160 | For any two parts that mention neither scheme, "https://" + a + "http://" + h shortens to a + h: a second scheme inside the URL (a query string) is removed as well as the leading one |
| Avatars.GlyphFor | src/gui/tray/UserModel.cpp:173 | The glyph is inverted: a white-background request gets the black glyph and any other request gets the white one |
| Avatars.Resolve | src/gui/tray/UserModel.cpp:165-180 | The fetched circular image is used when there is one; otherwise the result is a 128x128 placeholder whose glyph contrasts with the requested background |
| Avatars.PlaceholderProperties | src/gui/tray/UserModel.cpp:165-180 | The two background choices give different images exactly when nothing was fetched; the no-user image equals the default-background placeholder |
| Users.NewUser | src/gui/tray/UserModel.cpp:14-19 | A new user wraps the given account with the given current-user flag and starts with empty activity lists, holding no records |
| Users.SetCurrentUser | src/gui/tray/UserModel.cpp:105-108 | Only the current-user flag changes; the account and the activity lists are untouched |
| Users.Name | src/gui/tray/UserModel.cpp:145-153 | The server display name when it is non-empty, the login name otherwise; the name is empty only when both are empty |
| Users.Server | src/gui/tray/UserModel.cpp:155-163 | Unshortened, the URL is returned as is; shortened, the result is never longer than the URL |
| Users.ServerShortening | src/gui/tray/UserModel.cpp:155-163 | Shortening a user's URL drops a leading scheme in front of a scheme-free host part and leaves a scheme-free URL alone |
| Users.IsConnected | src/gui/tray/UserModel.cpp:197-200 | Connected exactly when the account reports the Connected state |
| Users.Avatar | src/gui/tray/UserModel.cpp:165-180 | A user's avatar is the fetched image if any, else the placeholder with the black glyph on white and the white glyph otherwise |
| Users.SlotAddError | src/gui/tray/UserModel.cpp:26-58 | An error for an unknown or foreign folder is dropped. Otherwise exactly one record is appended to the error list, with subject = message, message = link = the short local path, the account's display name, the folder alias and an empty file name. It has one primary "Retry all uploads" link to the folder path exactly when the category is InsufficientRemoteStorage, and no links otherwise |
| Users.SlotItemCompleted | src/gui/tray/UserModel.cpp:60-98 | A completed item for an unknown or foreign folder is dropped. Otherwise the lists grow by exactly one record, with link = the account URL and the item's status. Success or no status gives "Synced <original file>" in the sync list. FileIgnored puts the error string as subject in the ignored list. Any other status puts the error string as subject in the error list |
| Users.SlotsKeepFeedOwned | src/gui/tray/UserModel.cpp:26-98 | A user's lists only ever hold records of folders that belong to its own account |
| UserModel.ContainsUser | src/gui/tray/UserModel.cpp:309-315 | The duplicate scan answers true exactly when some user already wraps the account |
| UserModel.AddUser | src/gui/tray/UserModel.cpp:307-325 | A known account leaves the registry unchanged. A new one is appended as the last user and announced as an inserted row at the old count. If it is to be current it becomes the current index. Afterwards the account is always present |
| UserModel.AddUserKeepsAccountsUnique | src/gui/tray/UserModel.cpp:307-325 | Adding never makes two users wrap the same account |
| UserModel.AddAll | src/gui/tray/UserModel.cpp:235-238 | The build loop keeps existing users as a prefix and leaves the current index and the flag alone. Every user it adds comes from the accounts, is unflagged and has empty lists |
| UserModel.AddAllAppendsFirstSightings | src/gui/tray/UserModel.cpp:235-238 | The users the loop appends wrap, in order, exactly the accounts whose id is neither already listed nor taken by an earlier account of the input |
| UserModel.AddAllAnnouncesRows | src/gui/tray/UserModel.cpp:235-238 | The loop's log is the earlier log followed by one inserted-row notification per appended user, for rows old count, old count + 1, … in order |
| UserModel.AddAllCoversAccounts | src/gui/tray/UserModel.cpp:235-238 | After the build loop every account has a user, and distinct accounts stay distinct |
| UserModel.MarkFirstCurrent | src/gui/tray/UserModel.cpp:239-242 | The first user is flagged; every row keeps its account and lists |
| UserModel.BuildUserList | src/gui/tray/UserModel.cpp:233-243 | A build fails only when it is the first build and both the list and the accounts are empty. It consumes the one-shot flag and never moves the current index. It adds every account. The first build flags the first user. A later build keeps the existing users exactly and flags no user it adds, row 0 of an emptied list included. Row by row, the result wraps the same accounts and holds the same lists as the build loop's result, so the loop's order carries over |
| UserModel.SwitchCurrentUser | src/gui/tray/UserModel.cpp:355-362 | The switch fails when the old or new index is out of range. Otherwise the target is flagged and becomes current, and the old current user is unflagged if it differs. Every other user is unchanged, and refresh then selection-changed are emitted |
| UserModel.Login | src/gui/tray/UserModel.cpp:364-367 | The user's certificates are reset, then sign-in is requested, then a refresh; the list is unchanged |
| UserModel.Logout | src/gui/tray/UserModel.cpp:369-373 | Sign-out of the user's account is requested, then a refresh; the list is unchanged |
| UserModel.RemoveRow | src/gui/tray/UserModel.cpp:396-403 | Earlier users are kept and later users shift down by one. Sign-out, deletion, save, row-removed and refresh are logged in that order. The current index is not renumbered |
| UserModel.RemoveAccount | src/gui/tray/UserModel.cpp:375-404 | An index out of range fails. An unconfirmed removal changes nothing. A confirmed removal switches first to user 1 (if the index is 0) or to user 0, but only when the removed user is current and others remain. It then removes exactly that row, keeps earlier users and shifts later ones down |
| UserModel.CurrentUserName | src/gui/tray/UserModel.cpp:280-287 | "No users" without users; else the current user's name, or an error when the index is stale |
| UserModel.CurrentUserServer | src/gui/tray/UserModel.cpp:289-296 | "" without users; else the current user's shortened URL, or an error when the index is stale |
| UserModel.CurrentServerHasTalk | src/gui/tray/UserModel.cpp:298-305 | false without users; else the current account's Talk capability, or an error when the index is stale |
| UserModel.CurrentUserAvatar | src/gui/tray/UserModel.cpp:260-273 | The white-glyph placeholder without users; else the current user's default avatar. Any placeholder it returns is 128x128 with the white glyph |
| UserModel.AvatarById | src/gui/tray/UserModel.cpp:275-278 | Out of range fails. A fetched image is returned as is; without one the result is the 128x128 placeholder with the black glyph, for a white background |
| UserModel.IsUserConnected | src/gui/tray/UserModel.cpp:255-258 | Out of range fails; otherwise whether that account is Connected |
| UserModel.CurrentActivityModel | src/gui/tray/UserModel.cpp:446-449 | The current user's activity lists, or an error when the index addresses no user |
| UserModel.CurrentUserHasActivities | src/gui/tray/UserModel.cpp:451-454 | The current account's activities capability, or an error when the index addresses no user |
| UserModel.FetchCurrentActivityModel | src/gui/tray/UserModel.cpp:456-461 | A stale index fails. A disconnected current user changes nothing. A connected one gets exactly one fetch-more request logged, and the list is unchanged |
| UserModel.WithScheme | src/gui/tray/UserModel.cpp:348-351 | The result always contains a scheme. A URL that already contains one is kept, and any other URL gets "https://" in front |
| UserModel.TalkUrl | src/gui/tray/UserModel.cpp:339-342 | The Talk link always contains a scheme. It is the server URL plus "/apps/spreed" when that text already contains "http://" or "https://", and otherwise the same text with "https://" in front |
| UserModel.TalkUrlKeepsLeadingScheme | src/gui/tray/UserModel.cpp:339-342 | A server URL that starts with either scheme only gets the Talk path appended |
| UserModel.OpenCurrentAccountTalk | src/gui/tray/UserModel.cpp:337-344 | For a current user in range, the opened URL contains a scheme. It is the account's URL plus the Talk path when that text contains either scheme, and otherwise the same text with "https://" in front |
| UserModel.OpenCurrentAccountServer | src/gui/tray/UserModel.cpp:346-353 | For a current user in range, the opened URL contains a scheme. It is the account's URL when that URL contains either scheme, and otherwise the URL with "https://" in front |
| UserModel.Data | src/gui/tray/UserModel.cpp:412-432 | A row outside the list gives an empty value. In range, the value is empty exactly for an unknown role. The name role gives the user's name, the server role the shortened URL, the avatar role the default-background avatar, the current-user role the flag, the connected role the connection state and the id role the row number |
| UserModel.DeliverError | src/gui/tray/UserModel.cpp:20-23 | A sync error reaches every user's error slot; nothing else in the registry changes |
| UserModel.DeliverItemCompleted | src/gui/tray/UserModel.cpp:20-21 | A completed item reaches every user's item slot; nothing else in the registry changes |
| RegistryProperties.SwitchMakesSoleCurrent | src/gui/tray/UserModel.cpp:355-362 | If only the current user was flagged, then after a switch exactly the target is flagged |
| RegistryProperties.SwitchTwice | src/gui/tray/UserModel.cpp:355-362 | After switching to i and then to j, exactly user j is flagged and current |
| RegistryProperties.InitialBuildSelectsFirst | src/gui/tray/UserModel.cpp:220-243 | The first build of a new registry from at least one account leaves user 0, which wraps the first account, as the only flagged user and the current index. Accounts are distinct and the one-shot flag is consumed |
| RegistryProperties.BuildAgainMarksNoOne | src/gui/tray/UserModel.cpp:239-242 | For any registry whose one-shot flag is consumed, whether by a build or a build followed by removals, a build succeeds, keeps every existing user, leaves the current index, and flags no new user |
| RegistryProperties.RebuildAfterRemovalFlagsNoOne | src/gui/tray/UserModel.cpp:228-242 | Building from one account, removing that user and building again when another account is added leaves one user for the new account, unflagged: nobody is current |
| RegistryProperties.RemoveDropsOnlyThatAccount | src/gui/tray/UserModel.cpp:396-401 | If accounts were distinct, a confirmed removal drops exactly the removed account, keeps every other account and keeps accounts distinct |
| RegistryProperties.RemoveCurrentKeepsAFlaggedUser | src/gui/tray/UserModel.cpp:392-401 | Removing the current user while others remain leaves the first remaining user flagged, and that user is the one switched to |
| RegistryProperties.RemoveLeavesStaleIndex | src/gui/tray/UserModel.cpp:392-401 | Removing the current first user of two leaves one user and current index 1. The current-name accessor and any later switch then index outside the list |
| RegistryProperties.RemoveMisdirectsIndex | src/gui/tray/UserModel.cpp:392-401 | Removing the current first user of three flags the old second user but leaves index 1 on the old third one: the current-name accessor reports the third user's name, and switching to row 1 leaves two users flagged |
| RegistryProperties.AddThenRemove | src/gui/tray/UserModel.cpp:375-404 | Adding a new account, current or not, and removing its row restores the user count, and the account is gone |
| RegistryProperties.UnroutableErrorIsDropped | src/gui/tray/UserModel.cpp:26-32 | An error for a folder that is unknown or whose account no user wraps leaves the registry unchanged |
| RegistryProperties.UnroutableItemIsDropped | src/gui/tray/UserModel.cpp:60-68 | A completed item for a folder that is unknown or whose account no user wraps leaves the registry unchanged |
| RegistryProperties.ItemReachesOnlyItsOwner | src/gui/tray/UserModel.cpp:60-98 | If accounts are distinct, only the owning user's lists change, and the registry gains exactly one record |
| RegistryProperties.ErrorReachesOnlyItsOwner | src/gui/tray/UserModel.cpp:26-58 | If accounts are distinct, only the owning user's error list grows, by one, and the registry gains exactly one record |
| RegistryProperties.CurrentAccessorsMatchData | src/gui/tray/UserModel.cpp:412-432 | While the current index is in range, the name, server and avatar accessors agree with the list data for that row, and the id role gives the index |
| RegistryProperties.EmptyRegistryDefaults | src/gui/tray/UserModel.cpp:260-305 | Without users the accessors give "No users", "", false and the white-glyph placeholder, and every row's data is empty |

## Left out

- `src/libsync/iconjob.h` declares an icon-fetch job with no logic. The avatar is the account's `avatar()` after `AvatarJob::makeCircularAvatar` (`src/gui/tray/UserModel.cpp` line 167), an input here (`Account.avatar`): present or absent.
- The confirmation dialog of `removeAccount` is the `confirmed` input of `RemoveAccount`. Its text and buttons are not modelled.
- `openLocalFolder`, `openCurrentAccountLocalFolder` and `getFolder` are I/O. `getFolder` also has no return value when no folder matches. The two URL-opening operations are modelled only up to the URL they would hand to the desktop.
- Image pixels, the circular crop and SVG rendering are left out. An image is either a fetched handle or a description of the placeholder: its size and its glyph.
- `ImageProvider::requestImage` is left out: it parses the image id with `toInt` and dispatches to the two avatar accessors, which are modelled.
- Qt signal/slot wiring is modelled only as `DeliverError` and `DeliverItemCompleted`, which fan one event out to every user. The singleton `instance()`, the `accountAdded` connection and `roleNames()` are left out.
- Timestamps from the clock are not modelled, and records carry no date. Logging is not modelled.
- `tr()` localisation is not modelled: "Synced", "Retry all uploads" and "No users" are constants.
- The `fetchMore` paging and the sign-in and sign-out effects of the account state are left out. They appear only as requests in the event log.
- The connection status, the capability flags and the display names can change asynchronously. Each registry holds one snapshot of them.
- `ActivityListModel` is not part of this model. Its `addErrorToActivityList`, `addSyncFileItemToActivityList` and `addIgnoredFileToList` are appends to three separate lists.
- `numUsers`, `currentUserId`, `currentUserIndex`, `isCurrentUser`, `serverHasTalk`, `hasActivities`, `account` and `getActivityModel` read a field. They are the registry's and user's fields themselves.
- Users.Server: the contract bounds the length of the shortened URL only. Its exact value follows from `Strings.RemoveAllFirstOccurrence` and `Strings.RemoveAllAbsent`, and is spelled out for URLs with one leading scheme, for scheme-free URLs and for one inner scheme.
