/**
 * The tray's account registry (`UserModel`): the ordered list of users, the
 * index of the current user and the one-shot flag that makes the first user
 * current on the first build. Every operation is a pure transition that
 * returns the next registry, whose event log has the notifications it
 * emitted and the requests it made of the account collaborators appended.
 * Indexing the list out of range, which the source does not guard against,
 * is an `OutOfRange` error.
 */
module UserModel {
  import opened Wrappers
  import opened Strings
  import opened Accounts
  import opened Avatars
  import opened Activities
  import opened Users

  /** Notifications to observers and requests to account collaborators, in emission order. */
  datatype Event =
    | RowsInserted(row: nat)
    | RowsRemoved(row: nat)
    | RefreshCurrentUserGui
    | NewUserSelected
    | CertificatesReset(account: AccountId)
    | SignInRequested(account: AccountId)
    | SignOutRequested(account: AccountId)
    | AccountDeleted(account: AccountId)
    | AccountsSaved
    | FetchMoreRequested(account: AccountId)

  datatype Registry = Registry(users: seq<User>, currentUserId: nat, init: bool, log: seq<Event>)

  datatype Error = OutOfRange(index: int)

  /** The registry as constructed: no users, current index 0, first build still pending. */
  const Initial := Registry([], 0, true, [])

  predicate ValidIndex(s: Registry, i: int)
  {
    0 <= i < |s.users|
  }

  /** No two users wrap the same account. */
  predicate UniqueAccounts(users: seq<User>)
  {
    forall i, j :: 0 <= i < j < |users| ==> users[i].account.id != users[j].account.id
  }

  /** Some user wraps the account. */
  predicate HasAccount(users: seq<User>, id: AccountId)
  {
    exists k :: 0 <= k < |users| && users[k].account.id == id
  }

  /** The duplicate scan of `addUser`: whether any user already wraps the account. */
  function ContainsUser(users: seq<User>, id: AccountId): (b: bool)
    ensures b <==> HasAccount(users, id)
  {
    if users == [] then false
    else
      var last := users[|users| - 1];
      assert forall k :: 0 <= k < |users| - 1 ==> users[..|users| - 1][k] == users[k];
      ContainsUser(users[..|users| - 1], id) || last.account.id == id
  }

  // ---------------------------------------------------------------------
  // Structural operations

  /**
   * Adds a user for the account unless one already wraps it. A new user goes
   * at the end, announced as an inserted row; when `isCurrent` it becomes
   * the current index (its flag is set by the constructor).
   */
  function AddUser(s: Registry, account: Account, isCurrent: bool): (r: Registry)
    ensures HasAccount(s.users, account.id) ==> r == s
    ensures !HasAccount(s.users, account.id) ==>
      && r.users == s.users + [NewUser(account, isCurrent)]
      && r.log == s.log + [RowsInserted(|s.users|)]
      && r.init == s.init
      && r.currentUserId == (if isCurrent then |r.users| - 1 else s.currentUserId)
    ensures HasAccount(r.users, account.id)
  {
    if ContainsUser(s.users, account.id) then s
    else
      var users := s.users + [NewUser(account, isCurrent)];
      assert users[|users| - 1].account.id == account.id;
      s.(users := users,
         currentUserId := if isCurrent then |users| - 1 else s.currentUserId,
         log := s.log + [RowsInserted(|s.users|)])
  }

  /** Adding a user keeps the accounts of the list distinct. */
  lemma AddUserKeepsAccountsUnique(s: Registry, account: Account, isCurrent: bool)
    ensures UniqueAccounts(s.users) ==> UniqueAccounts(AddUser(s, account, isCurrent).users)
  {
    var r := AddUser(s, account, isCurrent);
    if UniqueAccounts(s.users) && !HasAccount(s.users, account.id) {
      forall i, j | 0 <= i < j < |r.users|
        ensures r.users[i].account.id != r.users[j].account.id
      {
        if j == |s.users| {
          assert r.users[i] == s.users[i];
        }
      }
    }
  }

  /**
   * The loop of `buildUserList`: every account in order, added as a
   * non-current user. Users already present and the current index are left
   * alone; each new user is unflagged and has an empty activity list.
   */
  function AddAll(s: Registry, accounts: seq<Account>): (r: Registry)
    ensures |s.users| <= |r.users|
    ensures r.users[..|s.users|] == s.users
    ensures r.currentUserId == s.currentUserId && r.init == s.init
    ensures forall k :: |s.users| <= k < |r.users| ==> !r.users[k].isCurrentUser && r.users[k].feed == EmptyFeed
    ensures forall k :: |s.users| <= k < |r.users| ==> r.users[k].account in accounts
    decreases |accounts|
  {
    if accounts == [] then s
    else
      var s1 := AddUser(s, accounts[0], false);
      var r := AddAll(s1, accounts[1..]);
      assert r.users[..|s.users|] == r.users[..|s1.users|][..|s.users|];
      assert forall k :: |s.users| <= k < |s1.users| ==> r.users[k] == s1.users[k];
      r
  }

  /** The accounts the users of a list wrap, in list order. */
  function AccountsOf(users: seq<User>): (r: seq<Account>)
    ensures |r| == |users|
    ensures forall k :: 0 <= k < |users| ==> r[k] == users[k].account
  {
    seq(|users|, k requires 0 <= k < |users| => users[k].account)
  }

  /** The account ids a list of users wraps. */
  function IdsOf(users: seq<User>): (r: set<AccountId>)
    ensures forall id :: id in r <==> HasAccount(users, id)
  {
    set k | 0 <= k < |users| :: users[k].account.id
  }

  /**
   * Reference definition of what the loop adds: the accounts of `accounts`,
   * in their order, whose id is neither in `known` nor taken by an earlier
   * account of the sequence.
   */
  function FirstSightings(known: set<AccountId>, accounts: seq<Account>): (r: seq<Account>)
    ensures |r| <= |accounts|
    decreases |accounts|
  {
    if accounts == [] then []
    else if accounts[0].id in known then FirstSightings(known, accounts[1..])
    else [accounts[0]] + FirstSightings(known + {accounts[0].id}, accounts[1..])
  }

  /** A newly added account joins the ids of the list. */
  lemma AddUserIds(s: Registry, a: Account)
    requires !HasAccount(s.users, a.id)
    ensures IdsOf(AddUser(s, a, false).users) == IdsOf(s.users) + {a.id}
  {
    var s1 := AddUser(s, a, false);
    forall id
      ensures HasAccount(s1.users, id) <==> HasAccount(s.users, id) || id == a.id
    {
      if HasAccount(s1.users, id) && id != a.id {
        var k :| 0 <= k < |s1.users| && s1.users[k].account.id == id;
        assert s.users[k] == s1.users[k];
      }
      if HasAccount(s.users, id) {
        var k :| 0 <= k < |s.users| && s.users[k].account.id == id;
        assert s1.users[k] == s.users[k];
      }
      assert s1.users[|s.users|].account == a;
    }
  }

  /** The row announcements of `n` rows appended after row `first - 1`. */
  function RowAnnouncements(first: nat, n: nat): (r: seq<Event>)
    ensures |r| == n
    ensures forall k :: 0 <= k < n ==> r[k] == RowsInserted(first + k)
    decreases n
  {
    if n == 0 then [] else [RowsInserted(first)] + RowAnnouncements(first + 1, n - 1)
  }

  /** The loop announces each appended row once, in order, after everything logged before. */
  lemma {:induction false} AddAllAnnouncesRows(s: Registry, accounts: seq<Account>)
    ensures var r := AddAll(s, accounts);
      r.log == s.log + RowAnnouncements(|s.users|, |r.users| - |s.users|)
    decreases |accounts|
  {
    if accounts == [] {
      assert AddAll(s, accounts) == s;
      assert RowAnnouncements(|s.users|, 0) == [];
      assert s.log + [] == s.log;
    } else {
      var s1 := AddUser(s, accounts[0], false);
      var r := AddAll(s1, accounts[1..]);
      assert AddAll(s, accounts) == r;
      AddAllAnnouncesRows(s1, accounts[1..]);
      if HasAccount(s.users, accounts[0].id) {
        assert s1 == s;
      } else {
        AnnouncementsStep(s, s1, r);
      }
    }
  }

  /** Announcing row `|s.users|` and then the rows after it announces them all. */
  lemma AnnouncementsStep(s: Registry, s1: Registry, r: Registry)
    requires s1.log == s.log + [RowsInserted(|s.users|)] && |s1.users| == |s.users| + 1 <= |r.users|
    requires r.log == s1.log + RowAnnouncements(|s1.users|, |r.users| - |s1.users|)
    ensures r.log == s.log + RowAnnouncements(|s.users|, |r.users| - |s.users|)
  {
  }

  /** The accounts of a suffix are its first user's account followed by the rest. */
  lemma AccountsOfFrom(us: seq<User>, n: nat)
    requires n < |us|
    ensures AccountsOf(us[n..]) == [us[n].account] + AccountsOf(us[n + 1..])
  {
    assert us[n..][1..] == us[n + 1..];
  }

  /** The users the loop appends wrap exactly the first sightings of new accounts, in order. */
  lemma {:induction false} AddAllAppendsFirstSightings(s: Registry, accounts: seq<Account>)
    ensures AccountsOf(AddAll(s, accounts).users[|s.users|..]) == FirstSightings(IdsOf(s.users), accounts)
    decreases |accounts|
  {
    var r := AddAll(s, accounts);
    if accounts == [] {
      assert r.users[|s.users|..] == [];
    } else {
      var a := accounts[0];
      var s1 := AddUser(s, a, false);
      AddAllAppendsFirstSightings(s1, accounts[1..]);
      if a.id !in IdsOf(s.users) {
        AddUserIds(s, a);
        assert r.users[..|s1.users|][|s.users|] == s1.users[|s.users|] == NewUser(a, false);
        AccountsOfFrom(r.users, |s.users|);
      }
    }
  }

  /** After the loop every account is present, and distinct accounts stay distinct. */
  lemma {:induction false} AddAllCoversAccounts(s: Registry, accounts: seq<Account>)
    ensures forall a :: a in accounts ==> HasAccount(AddAll(s, accounts).users, a.id)
    ensures UniqueAccounts(s.users) ==> UniqueAccounts(AddAll(s, accounts).users)
    decreases |accounts|
  {
    if accounts != [] {
      var s1 := AddUser(s, accounts[0], false);
      var r := AddAll(s1, accounts[1..]);
      AddUserKeepsAccountsUnique(s, accounts[0], false);
      AddAllCoversAccounts(s1, accounts[1..]);
      assert HasAccount(r.users, accounts[0].id) by {
        var k :| 0 <= k < |s1.users| && s1.users[k].account.id == accounts[0].id;
        assert r.users[..|s1.users|][k] == s1.users[k];
      }
    }
  }

  /** Flags the first user as current; the list is otherwise unchanged. */
  function MarkFirstCurrent(t: Registry): (r: Registry)
    requires |t.users| > 0
    ensures |r.users| == |t.users| && r.users[0].isCurrentUser
    ensures forall k :: 0 < k < |t.users| ==> r.users[k] == t.users[k]
    ensures forall k :: 0 <= k < |t.users| ==> r.users[k].account == t.users[k].account && r.users[k].feed == t.users[k].feed
    ensures forall id :: HasAccount(t.users, id) ==> HasAccount(r.users, id)
    ensures UniqueAccounts(t.users) ==> UniqueAccounts(r.users)
    ensures AccountsOf(r.users) == AccountsOf(t.users)
    ensures r.currentUserId == t.currentUserId && r.init == t.init && r.log == t.log
  {
    var users := t.users[0 := SetCurrentUser(t.users[0], true)];
    assert forall k :: 0 <= k < |users| ==> users[k].account == t.users[k].account;
    t.(users := users)
  }

  /**
   * Adds every account of the account manager, then, on the first build
   * only, flags the first user as current and consumes the one-shot flag.
   * The current index is not touched. The first build of an empty list
   * reads the first element of an empty list: an error.
   */
  function BuildUserList(s: Registry, accounts: seq<Account>): (r: Result<Registry, Error>)
    ensures r.Err? <==> s.init && |s.users| == 0 && |accounts| == 0
    ensures r.Ok? ==> !r.value.init && r.value.currentUserId == s.currentUserId && r.value.log == AddAll(s, accounts).log
    ensures r.Ok? ==> |r.value.users| == |AddAll(s, accounts).users| >= |s.users|
    ensures r.Ok? ==> forall a :: a in accounts ==> HasAccount(r.value.users, a.id)
    ensures r.Ok? && UniqueAccounts(s.users) ==> UniqueAccounts(r.value.users)
    ensures r.Ok? && s.init ==> r.value.users[0].isCurrentUser
    ensures r.Ok? && !s.init ==> r.value.users[..|s.users|] == s.users
    ensures r.Ok? ==> forall k :: 0 < k < |s.users| ==> r.value.users[k] == s.users[k]
    ensures r.Ok? ==> forall k :: 0 < k < |r.value.users| && |s.users| <= k ==> !r.value.users[k].isCurrentUser
    ensures r.Ok? && !s.init ==> forall k :: |s.users| <= k < |r.value.users| ==> !r.value.users[k].isCurrentUser
    ensures r.Ok? ==> AccountsOf(r.value.users) == AccountsOf(AddAll(s, accounts).users)
    ensures r.Ok? ==> forall k :: 0 <= k < |r.value.users| ==> r.value.users[k].feed == AddAll(s, accounts).users[k].feed
  {
    var added := AddAll(s, accounts);
    AddAllCoversAccounts(s, accounts);
    if !added.init then Ok(added)
    else if |added.users| == 0 then Err(OutOfRange(0))
    else Ok(MarkFirstCurrent(added).(init := false))
  }

  /**
   * Makes user `id` current: the previous current user is unflagged, then
   * user `id` is flagged, then the index moves, then the refresh and
   * selection notifications go out. Both the old and the new index must
   * address a user.
   */
  function SwitchCurrentUser(s: Registry, id: int): (r: Result<Registry, Error>)
    ensures r.Err? <==> !ValidIndex(s, s.currentUserId) || !ValidIndex(s, id)
    ensures r.Ok? ==>
      && |r.value.users| == |s.users|
      && r.value.users[id].isCurrentUser
      && r.value.currentUserId == id
      && (s.currentUserId != id ==> !r.value.users[s.currentUserId].isCurrentUser)
      && (forall k :: 0 <= k < |s.users| && k != id && k != s.currentUserId ==> r.value.users[k] == s.users[k])
      && (forall k :: 0 <= k < |s.users| ==> r.value.users[k].account == s.users[k].account && r.value.users[k].feed == s.users[k].feed)
      && r.value.init == s.init
      && r.value.log == s.log + [RefreshCurrentUserGui, NewUserSelected]
  {
    if !ValidIndex(s, s.currentUserId) then Err(OutOfRange(s.currentUserId))
    else if !ValidIndex(s, id) then Err(OutOfRange(id))
    else
      var cleared := s.users[s.currentUserId := SetCurrentUser(s.users[s.currentUserId], false)];
      var users := cleared[id := SetCurrentUser(cleared[id], true)];
      Ok(s.(users := users, currentUserId := id, log := s.log + [RefreshCurrentUserGui, NewUserSelected]))
  }

  /** Asks user `id`'s account to forget rejected certificates and sign in, then refreshes. */
  function Login(s: Registry, id: int): (r: Result<Registry, Error>)
    ensures r.Err? <==> !ValidIndex(s, id)
    ensures r.Ok? ==> r.value.users == s.users && r.value.currentUserId == s.currentUserId && r.value.init == s.init
    ensures r.Ok? ==> r.value.log == s.log + [CertificatesReset(s.users[id].account.id), SignInRequested(s.users[id].account.id), RefreshCurrentUserGui]
  {
    if !ValidIndex(s, id) then Err(OutOfRange(id))
    else
      var a := s.users[id].account.id;
      Ok(s.(log := s.log + [CertificatesReset(a), SignInRequested(a), RefreshCurrentUserGui]))
  }

  /** Asks user `id`'s account to sign out, then refreshes. */
  function Logout(s: Registry, id: int): (r: Result<Registry, Error>)
    ensures r.Err? <==> !ValidIndex(s, id)
    ensures r.Ok? ==> r.value.users == s.users && r.value.currentUserId == s.currentUserId && r.value.init == s.init
    ensures r.Ok? ==> r.value.log == s.log + [SignOutRequested(s.users[id].account.id), RefreshCurrentUserGui]
  {
    if !ValidIndex(s, id) then Err(OutOfRange(id))
    else
      var a := s.users[id].account.id;
      Ok(s.(log := s.log + [SignOutRequested(a), RefreshCurrentUserGui]))
  }

  /** The user that becomes current when the current user `id` is removed. */
  function Successor(id: int): nat
  {
    if id == 0 then 1 else 0
  }

  /** Whether removing user `id` first moves the selection away from it. */
  predicate RemovalSwitches(s: Registry, id: int)
    requires ValidIndex(s, id)
  {
    s.users[id].isCurrentUser && |s.users| > 1
  }

  /**
   * The part of a confirmed removal after the selection moved: sign-out and
   * deletion requests for the account, then the row goes and every later
   * user shifts down by one. The current index stays as it was.
   */
  function RemoveRow(t: Registry, id: int): (r: Registry)
    requires ValidIndex(t, id)
    ensures |r.users| == |t.users| - 1
    ensures r.users == t.users[..id] + t.users[id + 1..]
    ensures forall k :: 0 <= k < id ==> r.users[k] == t.users[k]
    ensures forall k :: id < k < |t.users| ==> r.users[k - 1] == t.users[k]
    ensures r.currentUserId == t.currentUserId && r.init == t.init
    ensures r.log == t.log + [SignOutRequested(t.users[id].account.id), AccountDeleted(t.users[id].account.id),
                              AccountsSaved, RowsRemoved(id), RefreshCurrentUserGui]
  {
    var a := t.users[id].account.id;
    t.(users := t.users[..id] + t.users[id + 1..],
       log := t.log + [SignOutRequested(a), AccountDeleted(a), AccountsSaved, RowsRemoved(id), RefreshCurrentUserGui])
  }

  /**
   * Removes user `id` once the user confirmed. If that user is current and
   * others remain, the selection first moves to user 1 (when `id` is 0) or
   * user 0. The account is then signed out and deleted from the account
   * manager, which saves, and the row is removed: later users shift down by
   * one. The current index is NOT renumbered. Unconfirmed, nothing changes
   * (the confirmation dialog already read user `id`'s name, so `id` must
   * still address a user).
   */
  function RemoveAccount(s: Registry, id: int, confirmed: bool): (r: Result<Registry, Error>)
    ensures r.Err? <==> !ValidIndex(s, id) || (confirmed && RemovalSwitches(s, id) && !ValidIndex(s, s.currentUserId))
    ensures r.Ok? && !confirmed ==> r.value == s
    ensures r.Ok? && confirmed && !RemovalSwitches(s, id) ==> r.value == RemoveRow(s, id)
    ensures r.Ok? && confirmed && RemovalSwitches(s, id) ==>
      && SwitchCurrentUser(s, Successor(id)).Ok?
      && r.value == RemoveRow(SwitchCurrentUser(s, Successor(id)).value, id)
    ensures r.Ok? && confirmed ==>
      && |r.value.users| == |s.users| - 1
      && r.value.init == s.init
      && r.value.currentUserId == (if RemovalSwitches(s, id) then Successor(id) else s.currentUserId)
      && (forall k :: 0 <= k < id ==> r.value.users[k].account == s.users[k].account && r.value.users[k].feed == s.users[k].feed)
      && (forall k :: id < k < |s.users| ==> r.value.users[k - 1].account == s.users[k].account && r.value.users[k - 1].feed == s.users[k].feed)
  {
    if !ValidIndex(s, id) then Err(OutOfRange(id))
    else if !confirmed then Ok(s)
    else if !RemovalSwitches(s, id) then Ok(RemoveRow(s, id))
    else
      match SwitchCurrentUser(s, Successor(id))
      case Err(e) => Err(e)
      case Ok(t) => Ok(RemoveRow(t, id))
  }

  // ---------------------------------------------------------------------
  // Queries

  /** The user at the current index; an error if the index addresses no user. */
  function CurrentUser(s: Registry): (r: Result<User, Error>)
    ensures r.Ok? <==> ValidIndex(s, s.currentUserId)
    ensures r.Ok? ==> r.value == s.users[s.currentUserId]
  {
    if ValidIndex(s, s.currentUserId) then Ok(s.users[s.currentUserId]) else Err(OutOfRange(s.currentUserId))
  }

  /** Name of the current user, "No users" without users. */
  function CurrentUserName(s: Registry): (r: Result<string, Error>)
    ensures |s.users| == 0 ==> r == Ok("No users")
    ensures |s.users| > 0 ==> r == (if ValidIndex(s, s.currentUserId) then Ok(Name(s.users[s.currentUserId])) else Err(OutOfRange(s.currentUserId)))
  {
    if |s.users| >= 1 then
      match CurrentUser(s)
      case Ok(u) => Ok(Name(u))
      case Err(e) => Err(e)
    else Ok("No users")
  }

  /** Shortened server URL of the current user, empty without users. */
  function CurrentUserServer(s: Registry): (r: Result<string, Error>)
    ensures |s.users| == 0 ==> r == Ok("")
    ensures |s.users| > 0 ==> r == (if ValidIndex(s, s.currentUserId) then Ok(Server(s.users[s.currentUserId], true)) else Err(OutOfRange(s.currentUserId)))
  {
    if |s.users| >= 1 then
      match CurrentUser(s)
      case Ok(u) => Ok(Server(u, true))
      case Err(e) => Err(e)
    else Ok("")
  }

  /** Whether the current user's server offers Talk, false without users. */
  function CurrentServerHasTalk(s: Registry): (r: Result<bool, Error>)
    ensures |s.users| == 0 ==> r == Ok(false)
    ensures |s.users| > 0 ==> r == (if ValidIndex(s, s.currentUserId) then Ok(s.users[s.currentUserId].account.hasTalk) else Err(OutOfRange(s.currentUserId)))
  {
    if |s.users| >= 1 then
      match CurrentUser(s)
      case Ok(u) => Ok(u.account.hasTalk)
      case Err(e) => Err(e)
    else Ok(false)
  }

  /** Avatar of the current user on the default background, the white user glyph without users. */
  function CurrentUserAvatar(s: Registry): (r: Result<Image, Error>)
    ensures |s.users| == 0 ==> r == Ok(NoUserImage)
    ensures |s.users| > 0 ==> r == (if ValidIndex(s, s.currentUserId) then Ok(Avatar(s.users[s.currentUserId], false)) else Err(OutOfRange(s.currentUserId)))
    ensures r.Ok? && r.value.Placeholder? ==> r.value.glyph == WhiteUserGlyph && r.value.width == r.value.height == 128
  {
    if |s.users| >= 1 then
      match CurrentUser(s)
      case Ok(u) => Ok(Avatar(u, false))
      case Err(e) => Err(e)
    else Ok(NoUserImage)
  }

  /** Avatar of user `id` on a white background. */
  function AvatarById(s: Registry, id: int): (r: Result<Image, Error>)
    ensures r.Err? <==> !ValidIndex(s, id)
    ensures r.Ok? && r.value.Placeholder? ==> r.value.glyph == BlackUserGlyph && r.value.width == r.value.height == 128
    ensures r.Ok? && s.users[id].account.avatar.Some? ==> r.value == Fetched(s.users[id].account.avatar.value)
    ensures r.Ok? && s.users[id].account.avatar.None? ==> r.value == PlaceholderWith(BlackUserGlyph)
  {
    if ValidIndex(s, id) then Ok(Avatar(s.users[id], true)) else Err(OutOfRange(id))
  }

  function IsUserConnected(s: Registry, id: int): (r: Result<bool, Error>)
    ensures r.Err? <==> !ValidIndex(s, id)
    ensures r.Ok? ==> (r.value <==> s.users[id].account.status == Connected)
  {
    if ValidIndex(s, id) then Ok(IsConnected(s.users[id])) else Err(OutOfRange(id))
  }

  /** The activity lists of the current user. */
  function CurrentActivityModel(s: Registry): (r: Result<Feed, Error>)
    ensures r.Ok? <==> ValidIndex(s, s.currentUserId)
    ensures r.Ok? ==> r.value == s.users[s.currentUserId].feed
  {
    match CurrentUser(s)
    case Ok(u) => Ok(u.feed)
    case Err(e) => Err(e)
  }

  function CurrentUserHasActivities(s: Registry): (r: Result<bool, Error>)
    ensures r.Ok? <==> ValidIndex(s, s.currentUserId)
    ensures r.Ok? ==> r.value == s.users[s.currentUserId].account.hasActivities
  {
    match CurrentUser(s)
    case Ok(u) => Ok(u.account.hasActivities)
    case Err(e) => Err(e)
  }

  /** Asks for the next page of server activities of the current user, only while it is connected. */
  function FetchCurrentActivityModel(s: Registry): (r: Result<Registry, Error>)
    ensures r.Ok? <==> ValidIndex(s, s.currentUserId)
    ensures r.Ok? ==> r.value.users == s.users && r.value.currentUserId == s.currentUserId && r.value.init == s.init
    ensures r.Ok? && s.users[s.currentUserId].account.status != Connected ==> r.value == s
    ensures r.Ok? && s.users[s.currentUserId].account.status == Connected ==>
      r.value.log == s.log + [FetchMoreRequested(s.users[s.currentUserId].account.id)]
  {
    match CurrentUser(s)
    case Ok(u) =>
      if IsConnected(u) then Ok(s.(log := s.log + [FetchMoreRequested(u.account.id)])) else Ok(s)
    case Err(e) => Err(e)
  }

  // ---------------------------------------------------------------------
  // Web links of the current account

  const TalkPath := "/apps/spreed"

  /** `url`, with "https://" put in front when it mentions neither scheme. */
  function WithScheme(url: string): (r: string)
    ensures Contains(r, Http) || Contains(r, Https)
    ensures Contains(url, Http) || Contains(url, Https) ==> r == url
    ensures !(Contains(url, Http) || Contains(url, Https)) ==> r == Https + url
  {
    if !(Contains(url, Http) || Contains(url, Https)) then
      assert OccursAt(Https + url, Https, 0);
      Https + url
    else url
  }

  /** The Talk web app of a server: its path appended, and a scheme put in front when the result has none. */
  function TalkUrl(server: string): (r: string)
    ensures Contains(r, Http) || Contains(r, Https)
    ensures Contains(server + TalkPath, Http) || Contains(server + TalkPath, Https) ==> r == server + TalkPath
    ensures !(Contains(server + TalkPath, Http) || Contains(server + TalkPath, Https)) ==> r == Https + server + TalkPath
  {
    WithScheme(server + TalkPath)
  }

  /** A server URL that already starts with a scheme gets only the path appended. */
  lemma TalkUrlKeepsLeadingScheme(server: string)
    requires OccursAt(server, Https, 0) || OccursAt(server, Http, 0)
    ensures TalkUrl(server) == server + TalkPath
  {
    var u := server + TalkPath;
    if OccursAt(server, Https, 0) {
      assert u[..|Https|] == server[..|Https|];
      assert OccursAt(u, Https, 0);
    } else {
      assert u[..|Http|] == server[..|Http|];
      assert OccursAt(u, Http, 0);
    }
  }

  /** The URL that opening the current account's Talk app would hand to the desktop. */
  function OpenCurrentAccountTalk(s: Registry): (r: Result<string, Error>)
    ensures r.Ok? <==> ValidIndex(s, s.currentUserId)
    ensures r.Ok? ==> Contains(r.value, Http) || Contains(r.value, Https)
    ensures r.Ok? ==> (var url := s.users[s.currentUserId].account.url;
      && (Contains(url + TalkPath, Http) || Contains(url + TalkPath, Https) ==> r.value == url + TalkPath)
      && (!(Contains(url + TalkPath, Http) || Contains(url + TalkPath, Https)) ==> r.value == Https + url + TalkPath))
  {
    match CurrentUser(s)
    case Ok(u) => Ok(TalkUrl(Server(u, false)))
    case Err(e) => Err(e)
  }

  /** The URL that opening the current account's server would hand to the desktop. */
  function OpenCurrentAccountServer(s: Registry): (r: Result<string, Error>)
    ensures r.Ok? <==> ValidIndex(s, s.currentUserId)
    ensures r.Ok? ==> Contains(r.value, Http) || Contains(r.value, Https)
    ensures r.Ok? ==> (var url := s.users[s.currentUserId].account.url;
      && (Contains(url, Http) || Contains(url, Https) ==> r.value == url)
      && (!(Contains(url, Http) || Contains(url, Https)) ==> r.value == Https + url))
  {
    match CurrentUser(s)
    case Ok(u) => Ok(WithScheme(Server(u, false)))
    case Err(e) => Err(e)
  }

  // ---------------------------------------------------------------------
  // List model data

  /** The roles an observer can ask a row for; any other role number is `OtherRole`. */
  datatype Role = NameRole | ServerRole | AvatarRole | IsCurrentUserRole | IsConnectedRole | IdRole | OtherRole(code: int)

  /** A role's answer; `Invalid` is the empty answer. */
  datatype Variant = Invalid | Text(text: string) | Picture(image: Image) | Flag(flag: bool) | Number(number: int)

  /** The value of `role` for row `row`: empty for a row outside the list or an unknown role. */
  function Data(s: Registry, row: int, role: Role): (v: Variant)
    ensures !ValidIndex(s, row) ==> v == Invalid
    ensures ValidIndex(s, row) ==> (v == Invalid <==> role.OtherRole?)
    ensures ValidIndex(s, row) && role == IdRole ==> v == Number(row)
    ensures ValidIndex(s, row) && role == NameRole ==> v == Text(Name(s.users[row]))
    ensures ValidIndex(s, row) && role == ServerRole ==> v == Text(Server(s.users[row], true))
    ensures ValidIndex(s, row) && role == AvatarRole ==> v == Picture(Avatar(s.users[row], false))
    ensures ValidIndex(s, row) && role == IsCurrentUserRole ==> v == Flag(s.users[row].isCurrentUser)
    ensures ValidIndex(s, row) && role == IsConnectedRole ==> v == Flag(IsConnected(s.users[row]))
  {
    if row < 0 || row >= |s.users| then Invalid
    else
      var u := s.users[row];
      match role
      case NameRole => Text(Name(u))
      case ServerRole => Text(Server(u, true))
      case AvatarRole => Picture(Avatar(u, false))
      case IsCurrentUserRole => Flag(u.isCurrentUser)
      case IsConnectedRole => Flag(IsConnected(u))
      case IdRole => Number(row)
      case OtherRole(_) => Invalid
  }

  // ---------------------------------------------------------------------
  // Sync events reach every user

  /** A folder-level sync error, delivered to every user's slot. */
  function DeliverError(s: Registry, folders: Folders, alias: string, message: string, category: ErrorCategory): (r: Registry)
    ensures |r.users| == |s.users| && r.currentUserId == s.currentUserId && r.init == s.init && r.log == s.log
    ensures forall k :: 0 <= k < |s.users| ==> r.users[k] == SlotAddError(s.users[k], folders, alias, message, category)
  {
    s.(users := seq(|s.users|, k requires 0 <= k < |s.users| => SlotAddError(s.users[k], folders, alias, message, category)))
  }

  /** A completed file, delivered to every user's slot. */
  function DeliverItemCompleted(s: Registry, folders: Folders, alias: string, item: SyncFileItem): (r: Registry)
    ensures |r.users| == |s.users| && r.currentUserId == s.currentUserId && r.init == s.init && r.log == s.log
    ensures forall k :: 0 <= k < |s.users| ==> r.users[k] == SlotItemCompleted(s.users[k], folders, alias, item)
  {
    s.(users := seq(|s.users|, k requires 0 <= k < |s.users| => SlotItemCompleted(s.users[k], folders, alias, item)))
  }
}
