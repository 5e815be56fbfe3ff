/**
 * Properties that relate several registry operations: the selection
 * discipline, the effect of removals, the one-shot first build, the fan-out
 * of sync events to users, and agreement between the current-user accessors
 * and the list model data.
 */
module RegistryProperties {
  import opened Wrappers
  import opened Accounts
  import opened Avatars
  import opened Activities
  import opened Users
  import opened UserModel

  /** Only the user at the current index may carry the current-user flag. */
  predicate AtMostCurrentFlagged(s: Registry)
  {
    forall k :: 0 <= k < |s.users| && s.users[k].isCurrentUser ==> k == s.currentUserId
  }

  /** Exactly user `id` carries the current-user flag. */
  predicate SoleCurrent(users: seq<User>, id: int)
  {
    forall k :: 0 <= k < |users| ==> (users[k].isCurrentUser <==> k == id)
  }

  // ---------------------------------------------------------------------
  // Selection

  /** From a state where no stray user is flagged, switching leaves exactly the chosen user flagged. */
  lemma SwitchMakesSoleCurrent(s: Registry, id: int)
    requires AtMostCurrentFlagged(s)
    requires ValidIndex(s, s.currentUserId) && ValidIndex(s, id)
    ensures SwitchCurrentUser(s, id).Ok?
    ensures SoleCurrent(SwitchCurrentUser(s, id).value.users, id)
    ensures AtMostCurrentFlagged(SwitchCurrentUser(s, id).value)
  {
    var r := SwitchCurrentUser(s, id).value;
    forall k | 0 <= k < |r.users|
      ensures r.users[k].isCurrentUser <==> k == id
    {
      if k != id && k != s.currentUserId {
        assert r.users[k] == s.users[k];
      }
    }
  }

  /** Two switches in a row leave exactly the second target flagged and current. */
  lemma SwitchTwice(s: Registry, i: int, j: int)
    requires AtMostCurrentFlagged(s)
    requires ValidIndex(s, s.currentUserId) && ValidIndex(s, i) && ValidIndex(s, j)
    ensures SwitchCurrentUser(s, i).Ok?
    ensures SwitchCurrentUser(SwitchCurrentUser(s, i).value, j).Ok?
    ensures var r := SwitchCurrentUser(SwitchCurrentUser(s, i).value, j).value;
      SoleCurrent(r.users, j) && r.currentUserId == j
  {
    SwitchMakesSoleCurrent(s, i);
    var t := SwitchCurrentUser(s, i).value;
    SwitchMakesSoleCurrent(t, j);
  }

  // ---------------------------------------------------------------------
  // First build

  /**
   * The first build from the freshly constructed registry, with at least one
   * account, selects the first user consistently: it is flagged, it is the
   * current index, nobody else is flagged and no account appears twice.
   */
  lemma {:induction false} InitialBuildSelectsFirst(accounts: seq<Account>)
    requires |accounts| > 0
    ensures BuildUserList(Initial, accounts).Ok?
    ensures var r := BuildUserList(Initial, accounts).value;
      && |r.users| > 0
      && r.currentUserId == 0
      && SoleCurrent(r.users, 0)
      && UniqueAccounts(r.users)
      && !r.init
      && r.users[0].account == accounts[0]
  {
    var r := BuildUserList(Initial, accounts).value;
    var added := AddAll(Initial, accounts);
    AddAllCoversAccounts(Initial, accounts);
    assert HasAccount(added.users, accounts[0].id);
    forall k | 0 <= k < |r.users|
      ensures r.users[k].isCurrentUser <==> k == 0
    {
      if k > 0 {
        assert !r.users[k].isCurrentUser;
      }
    }
  }

  /**
   * Once the one-shot flag is consumed, by a build or otherwise followed by
   * removals, a build keeps every existing user, leaves the current index
   * and flags no user it adds, even when the list had become empty.
   */
  lemma BuildAgainMarksNoOne(t: Registry, later: seq<Account>)
    requires !t.init
    ensures BuildUserList(t, later).Ok?
    ensures var r := BuildUserList(t, later).value;
      && r.users[..|t.users|] == t.users
      && r.currentUserId == t.currentUserId
      && (forall k :: |t.users| <= k < |r.users| ==> !r.users[k].isCurrentUser)
  {
  }

  /** A build, a removal of its only user, and a second build: the new first row is not flagged. */
  lemma RebuildAfterRemovalFlagsNoOne(a: Account, b: Account)
    ensures BuildUserList(Initial, [a]).Ok?
    ensures var t := BuildUserList(Initial, [a]).value;
      && RemoveAccount(t, 0, true).Ok?
      && var e := RemoveAccount(t, 0, true).value;
      && |e.users| == 0 && !e.init
      && BuildUserList(e, [b]).Ok?
      && var r := BuildUserList(e, [b]).value;
      && |r.users| == 1 && r.users[0].account == b && !r.users[0].isCurrentUser
  {
    InitialBuildSelectsFirst([a]);
    AddAllAppendsFirstSightings(Initial, [a]);
    assert AddAll(Initial, [a]).users[0..] == AddAll(Initial, [a]).users;
    var t := BuildUserList(Initial, [a]).value;
    RemoveOnlyUser(t);
    BuildIntoEmpty(RemoveAccount(t, 0, true).value, b);
  }

  /** Removing the only user empties the list; no switch happens. */
  lemma RemoveOnlyUser(t: Registry)
    requires |t.users| == 1
    ensures RemoveAccount(t, 0, true).Ok?
    ensures var e := RemoveAccount(t, 0, true).value; |e.users| == 0 && e.init == t.init
  {
  }

  /** A build after the flag is consumed, into an empty list, adds one unflagged user for one account. */
  lemma BuildIntoEmpty(e: Registry, b: Account)
    requires |e.users| == 0 && !e.init
    ensures BuildUserList(e, [b]).Ok?
    ensures var r := BuildUserList(e, [b]).value;
      |r.users| == 1 && r.users[0].account == b && !r.users[0].isCurrentUser
  {
    AddAllAppendsFirstSightings(e, [b]);
    assert AddAll(e, [b]).users[0..] == AddAll(e, [b]).users;
    assert AccountsOf(BuildUserList(e, [b]).value.users)[0] == b;
  }

  // ---------------------------------------------------------------------
  // Removal

  /** A confirmed removal drops exactly the removed account; every other account stays. */
  lemma RemoveDropsOnlyThatAccount(s: Registry, id: int)
    requires UniqueAccounts(s.users)
    requires RemoveAccount(s, id, true).Ok?
    ensures var r := RemoveAccount(s, id, true).value;
      && UniqueAccounts(r.users)
      && !HasAccount(r.users, s.users[id].account.id)
      && forall k :: 0 <= k < |s.users| && k != id ==> HasAccount(r.users, s.users[k].account.id)
  {
    DropOneAccount(s.users, RemoveAccount(s, id, true).value.users, id);
  }

  /** A list that is `us` without row `id` holds exactly the other accounts of `us`, still distinct. */
  lemma DropOneAccount(us: seq<User>, rs: seq<User>, id: int)
    requires 0 <= id < |us| && |rs| == |us| - 1 && UniqueAccounts(us)
    requires forall k :: 0 <= k < id ==> rs[k].account == us[k].account
    requires forall k :: id < k < |us| ==> rs[k - 1].account == us[k].account
    ensures UniqueAccounts(rs)
    ensures !HasAccount(rs, us[id].account.id)
    ensures forall k :: 0 <= k < |us| && k != id ==> HasAccount(rs, us[k].account.id)
  {
    forall i, j | 0 <= i < j < |rs|
      ensures rs[i].account.id != rs[j].account.id
    {
      var i' := if i < id then i else i + 1;
      var j' := if j < id then j else j + 1;
      assert rs[i].account == us[i'].account;
      assert rs[j].account == us[j'].account;
    }
    forall k | 0 <= k < |rs|
      ensures rs[k].account.id != us[id].account.id
    {
      var k' := if k < id then k else k + 1;
      assert rs[k].account == us[k'].account;
    }
    forall k | 0 <= k < |us| && k != id
      ensures HasAccount(rs, us[k].account.id)
    {
      var k' := if k < id then k else k - 1;
      assert rs[k'].account == us[k].account;
    }
  }

  /**
   * Removing the current user while others remain hands the selection on:
   * the first remaining user is flagged, and it is the one the removal
   * switched to.
   */
  lemma RemoveCurrentKeepsAFlaggedUser(s: Registry, id: int)
    requires ValidIndex(s, id) && ValidIndex(s, s.currentUserId)
    requires s.users[id].isCurrentUser && |s.users| > 1
    ensures RemoveAccount(s, id, true).Ok?
    ensures var r := RemoveAccount(s, id, true).value;
      && |r.users| == |s.users| - 1 > 0
      && r.users[0].isCurrentUser
      && r.users[0].account == s.users[Successor(id)].account
  {
    var t := SwitchCurrentUser(s, Successor(id)).value;
    assert t.users[Successor(id)].isCurrentUser;
  }

  /**
   * The current index is not renumbered by a removal: removing the current
   * first user of two leaves one user while the index still says 1, so the
   * current-user accessors then read outside the list.
   */
  lemma RemoveLeavesStaleIndex(u0: User, u1: User)
    requires u0.isCurrentUser
    ensures var s := Registry([u0, u1], 0, false, []);
      && RemoveAccount(s, 0, true).Ok?
      && var r := RemoveAccount(s, 0, true).value;
      && |r.users| == 1
      && r.currentUserId == 1
      && r.users[0].account == u1.account && r.users[0].isCurrentUser
      && CurrentUserName(r).Err?
      && SwitchCurrentUser(r, 0).Err?
  {
    var s := Registry([u0, u1], 0, false, []);
    var t := SwitchCurrentUser(s, 1).value;
    assert t.users[1].isCurrentUser;
  }

  /**
   * With three users the stale index points at the wrong user: after the
   * current first user is removed, the first remaining user is flagged but
   * the index 1 names the old third user, whose name the accessors report.
   * Selecting row 1 then leaves two users flagged.
   */
  lemma RemoveMisdirectsIndex(u0: User, u1: User, u2: User)
    requires u0.isCurrentUser && !u1.isCurrentUser && !u2.isCurrentUser
    ensures var s := Registry([u0, u1, u2], 0, false, []);
      && RemoveAccount(s, 0, true).Ok?
      && var r := RemoveAccount(s, 0, true).value;
      && |r.users| == 2
      && r.currentUserId == 1
      && r.users[0].account == u1.account && r.users[0].isCurrentUser
      && r.users[1].account == u2.account && !r.users[1].isCurrentUser
      && CurrentUserName(r) == Ok(Name(u2))
      && SwitchCurrentUser(r, 1).Ok?
      && var t := SwitchCurrentUser(r, 1).value;
      && t.users[0].isCurrentUser && t.users[1].isCurrentUser
      && !SoleCurrent(t.users, 1)
  {
    var s := Registry([u0, u1, u2], 0, false, []);
    var w := SwitchCurrentUser(s, 1).value;
    assert w.users[1].isCurrentUser && !w.users[2].isCurrentUser;
  }

  /** Adding a new account and then removing its row gives back the original number of users, without the account. */
  lemma AddThenRemove(s: Registry, account: Account, isCurrent: bool)
    requires UniqueAccounts(s.users)
    requires !HasAccount(s.users, account.id)
    ensures var t := AddUser(s, account, isCurrent);
      && RemoveAccount(t, |s.users|, true).Ok?
      && var r := RemoveAccount(t, |s.users|, true).value;
      && |r.users| == |s.users|
      && !HasAccount(r.users, account.id)
  {
    var t := AddUser(s, account, isCurrent);
    AddUserKeepsAccountsUnique(s, account, isCurrent);
    assert t.users[|s.users|].account == account;
    RemoveDropsOnlyThatAccount(t, |s.users|);
  }

  // ---------------------------------------------------------------------
  // Sync event fan-out

  /** Number of activity records held by all users. */
  function TotalActivities(users: seq<User>): nat
  {
    if users == [] then 0 else TotalActivities(users[..|users| - 1]) + Size(users[|users| - 1].feed)
  }

  /** Replacing one user changes the total by the difference of that user's record counts. */
  lemma {:induction false} TotalAfterUpdate(users: seq<User>, k: int, u: User)
    requires 0 <= k < |users|
    ensures TotalActivities(users[k := u]) + Size(users[k].feed) == TotalActivities(users) + Size(u.feed)
    decreases |users|
  {
    var n := |users| - 1;
    var updated := users[k := u];
    if k < n {
      assert updated[..n] == users[..n][k := u];
      TotalAfterUpdate(users[..n], k, u);
    } else {
      assert updated[..n] == users[..n];
    }
  }

  /** An event is for some user when its folder exists and belongs to that user's account. */
  predicate Routable(s: Registry, folders: Folders, alias: string)
  {
    alias in folders && HasAccount(s.users, folders[alias].account)
  }

  /** An error for an unknown folder, or for a folder of an account no user wraps, changes no user. */
  lemma UnroutableErrorIsDropped(s: Registry, folders: Folders, alias: string, message: string, category: ErrorCategory)
    requires !Routable(s, folders, alias)
    ensures DeliverError(s, folders, alias, message, category) == s
  {
    var r := DeliverError(s, folders, alias, message, category);
    forall k | 0 <= k < |s.users|
      ensures r.users[k] == s.users[k]
    {
      assert !OwnedBy(folders, alias, s.users[k].account.id);
    }
  }

  /** A completed item for an unknown folder, or for a folder of an account no user wraps, changes no user. */
  lemma UnroutableItemIsDropped(s: Registry, folders: Folders, alias: string, item: SyncFileItem)
    requires !Routable(s, folders, alias)
    ensures DeliverItemCompleted(s, folders, alias, item) == s
  {
    var r := DeliverItemCompleted(s, folders, alias, item);
    forall k | 0 <= k < |s.users|
      ensures r.users[k] == s.users[k]
    {
      assert !OwnedBy(folders, alias, s.users[k].account.id);
    }
  }

  /**
   * With distinct accounts, a completed item for a folder of user `k` lands
   * in user `k`'s lists only, and the registry as a whole gains exactly one
   * record.
   */
  lemma ItemReachesOnlyItsOwner(s: Registry, folders: Folders, alias: string, item: SyncFileItem, k: int)
    requires UniqueAccounts(s.users)
    requires ValidIndex(s, k) && OwnedBy(folders, alias, s.users[k].account.id)
    ensures var r := DeliverItemCompleted(s, folders, alias, item);
      && (forall j :: 0 <= j < |s.users| && j != k ==> r.users[j] == s.users[j])
      && Size(r.users[k].feed) == Size(s.users[k].feed) + 1
      && TotalActivities(r.users) == TotalActivities(s.users) + 1
  {
    var r := DeliverItemCompleted(s, folders, alias, item);
    forall j | 0 <= j < |s.users| && j != k
      ensures r.users[j] == s.users[j]
    {
      assert !OwnedBy(folders, alias, s.users[j].account.id);
    }
    assert r.users == s.users[k := r.users[k]];
    TotalAfterUpdate(s.users, k, r.users[k]);
  }

  /** The same for a folder-level error: only the owner's error list grows, by one record. */
  lemma ErrorReachesOnlyItsOwner(s: Registry, folders: Folders, alias: string, message: string, category: ErrorCategory, k: int)
    requires UniqueAccounts(s.users)
    requires ValidIndex(s, k) && OwnedBy(folders, alias, s.users[k].account.id)
    ensures var r := DeliverError(s, folders, alias, message, category);
      && (forall j :: 0 <= j < |s.users| && j != k ==> r.users[j] == s.users[j])
      && |r.users[k].feed.errors| == |s.users[k].feed.errors| + 1
      && TotalActivities(r.users) == TotalActivities(s.users) + 1
  {
    var r := DeliverError(s, folders, alias, message, category);
    forall j | 0 <= j < |s.users| && j != k
      ensures r.users[j] == s.users[j]
    {
      assert !OwnedBy(folders, alias, s.users[j].account.id);
    }
    var a :| AppendedTo(s.users[k].feed, r.users[k].feed, ErrorList, a);
    assert List(r.users[k].feed, SyncList) == List(s.users[k].feed, SyncList);
    assert List(r.users[k].feed, IgnoredList) == List(s.users[k].feed, IgnoredList);
    assert r.users == s.users[k := r.users[k]];
    TotalAfterUpdate(s.users, k, r.users[k]);
  }

  // ---------------------------------------------------------------------
  // Accessors and list data

  /**
   * While the current index addresses a user, the current-user accessors
   * report what the list model data reports for that row.
   */
  lemma CurrentAccessorsMatchData(s: Registry)
    requires ValidIndex(s, s.currentUserId)
    ensures CurrentUserName(s) == Ok(Data(s, s.currentUserId, NameRole).text)
    ensures Data(s, s.currentUserId, NameRole).Text?
    ensures CurrentUserServer(s) == Ok(Data(s, s.currentUserId, ServerRole).text)
    ensures Data(s, s.currentUserId, ServerRole).Text?
    ensures CurrentUserAvatar(s) == Ok(Data(s, s.currentUserId, AvatarRole).image)
    ensures Data(s, s.currentUserId, AvatarRole).Picture?
    ensures Data(s, s.currentUserId, IdRole) == Number(s.currentUserId)
  {
  }

  /** Without users every current-user accessor gives its default and every row is empty. */
  lemma EmptyRegistryDefaults(s: Registry, row: int, role: Role)
    requires |s.users| == 0
    ensures CurrentUserName(s) == Ok("No users")
    ensures CurrentUserServer(s) == Ok("")
    ensures CurrentServerHasTalk(s) == Ok(false)
    ensures CurrentUserAvatar(s) == Ok(PlaceholderWith(WhiteUserGlyph))
    ensures Data(s, row, role) == Invalid
  {
  }
}
