/**
 * core/api/__init__.py: account and list operations over the store, each raising
 * one of the ListkyError exceptions (modelled as Err) before it changes anything.
 */
module Api {
  import opened Wrappers
  import opened Database
  import opened Ranking
  import Strings
  import Auth
  import Privacy

  /** Why a plain `ListkyError` was raised. */
  datatype Invalid = BadUsername | BadPin | BadSlug | BadTitle | BadContent | DuplicateList

  /** `ListkyError` and its subclasses. `UnauthorizedError` is declared but never raised here. */
  datatype ApiError =
    | ListkyError(reason: Invalid)
    | UserAlreadyExistsError
    | InvalidCredentialsError
    | RateLimitError
    | ListNotFoundError
    | UnauthorizedError

  /** The title and content limits shared by create_list and update_list. */
  predicate ValidTitle(title: string) { 1 <= |title| <= 200 }

  predicate ValidContent(content: string) { 1 <= |content| <= 10000 }

  /**
   * `create_user`: lower-cases the name, validates name and PIN, refuses a taken name,
   * and inserts the user with a zero failure count. `gensalt` is bcrypt's random salt.
   */
  method CreateUser(db: Store, username: string, pin: string, clientIp: string, now: Time, gensalt: nat)
    returns (r: Result<string, ApiError>)
    requires db.Valid()
    modifies db`users
    ensures db.Valid()
    ensures var name := Strings.Lower(username);
            && (!Auth.IsValidUsername(name) ==> r == Err(ListkyError(BadUsername)))
            && (Auth.IsValidUsername(name) && !Auth.IsValidPin(pin) ==> r == Err(ListkyError(BadPin)))
            && (Auth.IsValidUsername(name) && Auth.IsValidPin(pin) && name in old(db.users) ==>
                  r == Err(UserAlreadyExistsError))
            && ((Auth.IsValidUsername(name) && Auth.IsValidPin(pin) && name !in old(db.users)) ==> r.Ok?)
            && (r.Err? ==> db.users == old(db.users))
            && (r.Ok? ==>
                  && r.value == name && name !in old(db.users)
                  && Auth.IsValidUsername(name) && Auth.IsValidPin(pin)
                  && db.users == old(db.users)[name := User(Auth.HashPin(pin, gensalt), now,
                                                            Some(Privacy.HashIp(clientIp)), 0, None)])
  {
    var name := Strings.Lower(username);
    if !Auth.IsValidUsername(name) {
      return Err(ListkyError(BadUsername));
    }
    if !Auth.IsValidPin(pin) {
      return Err(ListkyError(BadPin));
    }
    if name in db.users {
      return Err(UserAlreadyExistsError);
    }
    var pinHash := Auth.HashPin(pin, gensalt);
    var ipHash := Privacy.HashIp(clientIp);
    Strings.LowerIdempotent(username);
    db.users := db.users[name := User(pinHash, now, Some(ipHash), 0, None)];
    r := Ok(name);
  }

  /** The exception `authenticate_user` raises for each outcome of a login attempt. */
  function LoginResult(outcome: Auth.LoginOutcome, name: string): Result<string, ApiError>
  {
    match outcome
    case Authenticated => Ok(name)
    case RateLimited => Err(RateLimitError)
    case BadCredentials => Err(InvalidCredentialsError)
  }

  /**
   * `authenticate_user`: one step of the login transition on the lower-cased name
   * (no format validation here).
   */
  method AuthenticateUser(db: Store, username: string, pin: string, clientIp: string, now: Time)
    returns (r: Result<string, ApiError>)
    requires db.Valid()
    modifies db`users
    ensures db.Valid()
    ensures var step := Auth.Login(old(db.users), Strings.Lower(username), pin,
                                   Privacy.HashIp(clientIp), now);
            r == LoginResult(step.0, Strings.Lower(username)) && db.users == step.1
  {
    var name := Strings.Lower(username);
    if !Auth.CheckRateLimit(db.users, name, now) {
      return Err(RateLimitError);
    }
    if name !in db.users || !Auth.VerifyPin(pin, db.users[name].pinHash) {
      db.users := Auth.RecordFailure(db.users, name, now);
      return Err(InvalidCredentialsError);
    }
    var ipHash := Privacy.HashIp(clientIp);
    db.users := Auth.RecordSuccess(db.users, name, ipHash);
    r := Ok(name);
  }

  datatype UserInfo = UserInfo(username: string, createdAt: Time)

  /** `get_user_info`: the stored name and creation time, or None for an unknown user. */
  function GetUserInfo(db: Store, username: string): (info: Option<UserInfo>)
    reads db
    ensures info.Some? <==> Strings.Lower(username) in db.users
    ensures info.Some? ==>
              info.value == UserInfo(Strings.Lower(username), db.users[Strings.Lower(username)].createdAt)
  {
    var name := Strings.Lower(username);
    if name in db.users then Some(UserInfo(name, db.users[name].createdAt)) else None
  }

  /**
   * `create_list`: validates slug, title and content, refuses a second list with the
   * same (username, slug), and inserts the row under the next AUTOINCREMENT id.
   * The owner need not exist: the foreign key is not enforced.
   */
  method CreateList(db: Store, username: string, slug: string, title: string, content: string,
                    isPublic: bool, now: Time)
    returns (r: Result<nat, ApiError>)
    requires db.Valid()
    modifies db`lists, db`nextId
    ensures db.Valid()
    ensures var key := ListKey(Strings.Lower(username), slug);
            && (!Auth.IsValidSlug(slug) ==> r == Err(ListkyError(BadSlug)))
            && (Auth.IsValidSlug(slug) && !ValidTitle(title) ==> r == Err(ListkyError(BadTitle)))
            && (Auth.IsValidSlug(slug) && ValidTitle(title) && !ValidContent(content) ==>
                  r == Err(ListkyError(BadContent)))
            && (Auth.IsValidSlug(slug) && ValidTitle(title) && ValidContent(content) && key in old(db.lists) ==>
                  r == Err(ListkyError(DuplicateList)))
            && ((Auth.IsValidSlug(slug) && ValidTitle(title) && ValidContent(content) &&
                 key !in old(db.lists)) ==> r.Ok?)
            && (r.Err? ==> db.lists == old(db.lists) && db.nextId == old(db.nextId))
            && (r.Ok? ==>
                  && Auth.IsValidSlug(slug) && ValidTitle(title) && ValidContent(content)
                  && key !in old(db.lists) && r.value == old(db.nextId)
                  && db.lists == old(db.lists)[key := ListRow(old(db.nextId), title, content, isPublic, now, now)]
                  && db.nextId == old(db.nextId) + 1)
  {
    var name := Strings.Lower(username);
    if !Auth.IsValidSlug(slug) {
      return Err(ListkyError(BadSlug));
    }
    if !ValidTitle(title) {
      return Err(ListkyError(BadTitle));
    }
    if !ValidContent(content) {
      return Err(ListkyError(BadContent));
    }
    var key := ListKey(name, slug);
    if key in db.lists {
      return Err(ListkyError(DuplicateList));
    }
    var id := db.nextId;
    Strings.LowerIdempotent(username);
    db.lists := db.lists[key := ListRow(id, title, content, isPublic, now, now)];
    db.nextId := db.nextId + 1;
    r := Ok(id);
  }

  /** The dictionary `get_list` returns; `username` and `slug` echo the arguments. */
  datatype ListRecord = ListRecord(
    id: nat, username: string, slug: string, title: string, content: string,
    isPublic: bool, createdAt: Time, updatedAt: Time)

  /** `get_list`: the list stored under the lower-cased name and the slug, if any. */
  function GetList(db: Store, username: string, slug: string): (rec: Option<ListRecord>)
    reads db
    ensures rec.Some? <==> ListKey(Strings.Lower(username), slug) in db.lists
    ensures rec.Some? ==>
              var row := db.lists[ListKey(Strings.Lower(username), slug)];
              rec.value == ListRecord(row.id, username, slug, row.title, row.content,
                                      row.isPublic, row.createdAt, row.updatedAt)
  {
    var key := ListKey(Strings.Lower(username), slug);
    if key !in db.lists then None
    else
      var row := db.lists[key];
      Some(ListRecord(row.id, username, slug, row.title, row.content, row.isPublic,
                      row.createdAt, row.updatedAt))
  }

  /**
   * `update_list`: validates title and content, then rewrites title, content,
   * visibility and updated_at of the one matching list; no match is ListNotFoundError.
   */
  method UpdateList(db: Store, username: string, slug: string, title: string, content: string,
                    isPublic: bool, now: Time)
    returns (r: Result<(), ApiError>)
    requires db.Valid()
    modifies db`lists
    ensures db.Valid()
    ensures var key := ListKey(Strings.Lower(username), slug);
            && (!ValidTitle(title) ==> r == Err(ListkyError(BadTitle)))
            && (ValidTitle(title) && !ValidContent(content) ==> r == Err(ListkyError(BadContent)))
            && (ValidTitle(title) && ValidContent(content) && key !in old(db.lists) ==>
                  r == Err(ListNotFoundError))
            && ((ValidTitle(title) && ValidContent(content) && key in old(db.lists)) ==> r.Ok?)
            && (r.Err? ==> db.lists == old(db.lists))
            && (r.Ok? ==>
                  && key in old(db.lists)
                  && db.lists == old(db.lists)[key := old(db.lists)[key].(title := title, content := content,
                                                                          isPublic := isPublic, updatedAt := now)])
  {
    var name := Strings.Lower(username);
    if !ValidTitle(title) {
      return Err(ListkyError(BadTitle));
    }
    if !ValidContent(content) {
      return Err(ListkyError(BadContent));
    }
    var key := ListKey(name, slug);
    if key !in db.lists {
      return Err(ListNotFoundError);
    }
    db.lists := db.lists[key := db.lists[key].(title := title, content := content,
                                               isPublic := isPublic, updatedAt := now)];
    r := Ok(());
  }

  /**
   * `delete_list`: removes exactly the (username, slug) row. The list's views stay in
   * `views`: nothing cascades.
   */
  method DeleteList(db: Store, username: string, slug: string) returns (r: Result<(), ApiError>)
    requires db.Valid()
    modifies db`lists
    ensures db.Valid()
    ensures var key := ListKey(Strings.Lower(username), slug);
            && (key !in old(db.lists) ==> r == Err(ListNotFoundError) && db.lists == old(db.lists))
            && (key in old(db.lists) ==> r == Ok(()) && db.lists == old(db.lists) - {key})
    ensures db.views == old(db.views)
  {
    var key := ListKey(Strings.Lower(username), slug);
    if key !in db.lists {
      return Err(ListNotFoundError);
    }
    db.lists := db.lists - {key};
    r := Ok(());
  }

  /** One entry of `get_user_lists`; `username` echoes the argument. */
  datatype ListSummary = ListSummary(
    username: string, slug: string, title: string, isPublic: bool, createdAt: Time, updatedAt: Time)

  function ByUpdatedAt(s: ListSummary): Rank
  {
    Rank(s.updatedAt, 0)
  }

  /** The rows the WHERE clause of `get_user_lists` selects. */
  ghost function UserListRows(lists: map<ListKey, ListRow>, username: string, includePrivate: bool)
    : set<ListSummary>
  {
    set k | k in lists && k.username == Strings.Lower(username) && (includePrivate || lists[k].isPublic) ::
      ListSummary(username, k.slug, lists[k].title, lists[k].isPublic, lists[k].createdAt, lists[k].updatedAt)
  }

  /** `get_user_lists`: that user's lists (public ones only unless asked), newest update first. */
  ghost function GetUserLists(db: Store, username: string, includePrivate: bool): (r: seq<ListSummary>)
    reads db
    ensures IsTopK(r, UserListRows(db.lists, username, includePrivate), ByUpdatedAt, -1)
  {
    TopK(UserListRows(db.lists, username, includePrivate), ByUpdatedAt, -1)
  }

  /**
   * The summaries returned are exactly those of the user's lists (only the public ones
   * without include_private), ordered by updated_at descending.
   */
  lemma UserListsExact(db: Store, username: string, includePrivate: bool, k: ListKey)
    ensures var r := GetUserLists(db, username, includePrivate);
            && (forall i, j :: 0 <= i < j < |r| ==> r[i].updatedAt >= r[j].updatedAt)
            && (forall i :: 0 <= i < |r| ==>
                  var key := ListKey(Strings.Lower(username), r[i].slug);
                  key in db.lists && (includePrivate || db.lists[key].isPublic) &&
                  r[i].title == db.lists[key].title)
            && (k in db.lists && k.username == Strings.Lower(username) &&
                (includePrivate || db.lists[k].isPublic) ==>
                  exists i :: 0 <= i < |r| && r[i].slug == k.slug)
  {
    var r := GetUserLists(db, username, includePrivate);
    var cands := UserListRows(db.lists, username, includePrivate);
    forall i | 0 <= i < |r|
      ensures var key := ListKey(Strings.Lower(username), r[i].slug);
              key in db.lists && (includePrivate || db.lists[key].isPublic) &&
              r[i].title == db.lists[key].title
    {
      assert r[i] in cands;
    }
    if k in db.lists && k.username == Strings.Lower(username) && (includePrivate || db.lists[k].isPublic) {
      var s := ListSummary(username, k.slug, db.lists[k].title, db.lists[k].isPublic,
                           db.lists[k].createdAt, db.lists[k].updatedAt);
      assert s in cands;
      AllReturned(r, cands, ByUpdatedAt, -1);
      var i :| 0 <= i < |r| && r[i] == s;
    }
  }

  /**
   * `record_list_view`: a missing or private list records nothing and answers False;
   * otherwise the answer is that of `track_list_view` on the list's id.
   */
  method RecordListView(db: Store, username: string, slug: string, req: Privacy.Request, today: Day,
                        storageFails: bool)
    returns (ok: bool)
    requires db.Valid()
    modifies db`views
    ensures db.Valid()
    ensures var key := ListKey(Strings.Lower(username), slug);
            && (ok <==> key in db.lists && db.lists[key].isPublic &&
                        Privacy.GetClientIp(req).Some? && !storageFails)
            && (ok ==> db.views == Privacy.InsertOrIgnore(old(db.views),
                                     View(db.lists[key].id, today, Privacy.HashIp(Privacy.GetClientIp(req).value))))
            && (!ok ==> db.views == old(db.views))
  {
    var rec := GetList(db, username, slug);
    if rec.None? || !rec.value.isPublic {
      return false;
    }
    ok := Privacy.TrackListView(db, rec.value.id, req, today, storageFails);
  }
}
