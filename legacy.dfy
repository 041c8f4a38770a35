/**
 * main_old.py: the earlier single-file application. Its handlers validate, check the
 * session, and change the same tables as core/api, with their own session table and
 * a trending query of their own on the home page. Pages and redirects are not
 * modelled; each handler's error outcome is.
 */
module LegacyApp {
  import opened Wrappers
  import opened Database
  import opened Ranking
  import Strings
  import Auth
  import Privacy

  /** The HTTPException each handler raises, by cause (status code in the comment). */
  datatype Failure =
    | InvalidUsername      // 400
    | InvalidPinFormat     // 400
    | PinMismatch          // 400
    | UsernameTaken        // 400
    | TooManyAttempts      // 429
    | InvalidCredentials   // 401
    | InvalidInput         // 400
    | AuthRequired         // 401
    | SlugTaken            // 400
    | ListNotFound         // 404
    | NoClientAddress      // 500: get_client_ip without header and without peer

  /** `bool(form_value)` for an optional checkbox field. */
  predicate Checked(field: Option<string>)
  {
    field.Some? && field.value != ""
  }

  /**
   * `signup`: validates the name as typed, the PIN and its confirmation, refuses a
   * taken lower-cased name, and stores the user under the lower-cased name.
   */
  method Signup(db: Store, req: Privacy.Request, username: string, pin: string, pinConfirm: string,
                now: Time, gensalt: nat)
    returns (r: Result<(), Failure>)
    requires db.Valid()
    modifies db`users
    ensures db.Valid()
    ensures var name := Strings.Lower(username);
            && (!Auth.IsValidUsername(username) ==> r == Err(InvalidUsername))
            && (Auth.IsValidUsername(username) && !Auth.IsValidPin(pin) ==> r == Err(InvalidPinFormat))
            && (Auth.IsValidUsername(username) && Auth.IsValidPin(pin) && pin != pinConfirm ==>
                  r == Err(PinMismatch))
            && ((Auth.IsValidUsername(username) && Auth.IsValidPin(pin) && pin == pinConfirm &&
                 name in old(db.users)) ==> r == Err(UsernameTaken))
            && ((Auth.IsValidUsername(username) && Auth.IsValidPin(pin) && pin == pinConfirm &&
                 name !in old(db.users)) ==>
                  (r.Ok? <==> Privacy.GetClientIp(req).Some?) &&
                  (Privacy.GetClientIp(req).None? ==> r == Err(NoClientAddress)))
            && (r.Err? ==> db.users == old(db.users))
            && (r.Ok? ==>
                  && Auth.IsValidUsername(name) && name !in old(db.users)
                  && Privacy.GetClientIp(req).Some?
                  && db.users == old(db.users)[name := User(Auth.HashPin(pin, gensalt), now,
                                                            Some(Privacy.HashIp(Privacy.GetClientIp(req).value)),
                                                            0, None)])
  {
    if !Auth.IsValidUsername(username) {
      return Err(InvalidUsername);
    }
    if !Auth.IsValidPin(pin) {
      return Err(InvalidPinFormat);
    }
    if pin != pinConfirm {
      return Err(PinMismatch);
    }
    var name := Strings.Lower(username);
    if name in db.users {
      return Err(UsernameTaken);
    }
    var pinHash := Auth.HashPin(pin, gensalt);
    var ip := Privacy.GetClientIp(req);
    if ip.None? {
      return Err(NoClientAddress);
    }
    Auth.LowerKeepsUsernameValidity(username);
    Strings.LowerIdempotent(username);
    db.users := db.users[name := User(pinHash, now, Some(Privacy.HashIp(ip.value)), 0, None)];
    r := Ok(());
  }

  /**
   * The address hash a successful login stores. Without a client address `login`
   * raises before hashing, and Login's contract then keeps the old tables, so the
   * `HashIp("")` placeholder on that path never reaches any state.
   */
  function ClientIpHash(req: Privacy.Request): Digest
  {
    match Privacy.GetClientIp(req)
    case Some(ip) => Privacy.HashIp(ip)
    case None => Privacy.HashIp("")
  }

  /**
   * `login`: lower-cases and strips the name, validates both fields, then takes one
   * step of the login transition; success also opens a 24-hour session under `token`
   * and answers with it.
   */
  method Login(db: Store, sessions: Auth.SessionTable, req: Privacy.Request, username: string, pin: string,
               now: Time, token: string)
    returns (r: Result<string, Failure>)
    requires db.Valid()
    modifies db`users, sessions
    ensures db.Valid()
    ensures var name := Strings.Strip(Strings.Lower(username));
            var step := Auth.Login(old(db.users), name, pin, ClientIpHash(req), now);
            && (!Auth.IsValidUsername(name) ==> r == Err(InvalidUsername))
            && (Auth.IsValidUsername(name) && !Auth.IsValidPin(pin) ==> r == Err(InvalidPinFormat))
            && (Auth.IsValidUsername(name) && Auth.IsValidPin(pin) ==>
                  && (step.0 == Auth.RateLimited ==> r == Err(TooManyAttempts))
                  && (step.0 == Auth.BadCredentials ==> r == Err(InvalidCredentials) && db.users == step.1)
                  && (step.0 == Auth.Authenticated && Privacy.GetClientIp(req).None? ==>
                        r == Err(NoClientAddress))
                  && (step.0 == Auth.Authenticated && Privacy.GetClientIp(req).Some? ==>
                        && r == Ok(token) && db.users == step.1
                        && sessions.sessions == old(sessions.sessions)[token := Auth.Session(name, now + Auth.SESSION_SECONDS)]))
            && (r.Err? ==> sessions.sessions == old(sessions.sessions))
            && (r.Err? && r.error != InvalidCredentials ==> db.users == old(db.users))
  {
    var name := Strings.Strip(Strings.Lower(username));
    if !Auth.IsValidUsername(name) {
      return Err(InvalidUsername);
    }
    if !Auth.IsValidPin(pin) {
      return Err(InvalidPinFormat);
    }
    if !Auth.CheckRateLimit(db.users, name, now) {
      return Err(TooManyAttempts);
    }
    if name !in db.users || !Auth.VerifyPin(pin, db.users[name].pinHash) {
      db.users := Auth.RecordFailure(db.users, name, now);
      return Err(InvalidCredentials);
    }
    var ip := Privacy.GetClientIp(req);
    if ip.None? {
      return Err(NoClientAddress);
    }
    db.users := Auth.RecordSuccess(db.users, name, Privacy.HashIp(ip.value));
    var t := sessions.CreateSession(name, token, now);
    r := Ok(t);
  }

  /** `logout`: clears the caller's session token, if the cookie carries one. */
  method Logout(sessions: Auth.SessionTable, cookie: Option<string>)
    modifies sessions
    ensures cookie.Some? && cookie.value != "" ==> sessions.sessions == old(sessions.sessions) - {cookie.value}
    ensures cookie.None? || cookie.value == "" ==> sessions.sessions == old(sessions.sessions)
  {
    if cookie.Some? && cookie.value != "" {
      sessions.ClearSession(cookie.value);
    }
  }

  /** What `view_list` renders: a notice for a private list, the list otherwise. */
  datatype ListPage = PrivateNotice | PublicPage(title: string, content: string)

  /**
   * `view_list`: invalid or unknown addresses are 404; a private list is shown as a
   * notice without recording a view; a public one records (list_id, today, ip hash),
   * ignoring a duplicate or a storage error.
   */
  method ViewList(db: Store, username: string, slug: string, req: Privacy.Request, today: Day,
                  storageFails: bool)
    returns (r: Result<ListPage, Failure>)
    requires db.Valid()
    modifies db`views
    ensures db.Valid()
    ensures var key := ListKey(Strings.Lower(username), slug);
            && (!Auth.IsValidUsername(key.username) || !Auth.IsValidSlug(slug) || key !in db.lists ==>
                  r == Err(ListNotFound) && db.views == old(db.views))
            && (Auth.IsValidUsername(key.username) && Auth.IsValidSlug(slug) && key in db.lists ==>
                  var row := db.lists[key];
                  && (!row.isPublic ==> r == Ok(PrivateNotice) && db.views == old(db.views))
                  && (row.isPublic && Privacy.GetClientIp(req).None? ==>
                        r == Err(NoClientAddress) && db.views == old(db.views))
                  && (row.isPublic && Privacy.GetClientIp(req).Some? ==>
                        && r == Ok(PublicPage(row.title, row.content))
                        && db.views == (if storageFails then old(db.views)
                                        else Privacy.InsertOrIgnore(old(db.views),
                                               View(row.id, today, Privacy.HashIp(Privacy.GetClientIp(req).value))))))
  {
    var name := Strings.Lower(username);
    if !Auth.IsValidUsername(name) || !Auth.IsValidSlug(slug) {
      return Err(ListNotFound);
    }
    var key := ListKey(name, slug);
    if key !in db.lists {
      return Err(ListNotFound);
    }
    var row := db.lists[key];
    if !row.isPublic {
      return Ok(PrivateNotice);
    }
    var ip := Privacy.GetClientIp(req);
    if ip.None? {
      return Err(NoClientAddress);
    }
    if !storageFails {
      db.views := Privacy.InsertOrIgnore(db.views, View(row.id, today, Privacy.HashIp(ip.value)));
    }
    r := Ok(PublicPage(row.title, row.content));
  }

  /**
   * The common prologue of the owner-only handlers: the session cookie must name the
   * user in the path. The lookup may evict an expired token.
   */
  method RequireOwner(sessions: Auth.SessionTable, cookie: Option<string>, name: string, now: Time)
    returns (ok: bool)
    modifies sessions
    ensures ok <==> Auth.SessionUser(old(sessions.sessions), cookie, now) == Some(name)
    ensures sessions.sessions == Auth.AfterLookup(old(sessions.sessions), cookie, now)
  {
    var current := sessions.GetSessionUser(cookie, now);
    ok := current == Some(name);
  }

  /**
   * `create_list` (POST /{username}/create): validates name and slug, requires the
   * owner's session, refuses a taken slug, and stores the stripped title and content.
   * There are no length limits here.
   */
  method CreateList(db: Store, sessions: Auth.SessionTable, cookie: Option<string>, username: string,
                    slug: string, title: string, content: string, isPublic: Option<string>, now: Time)
    returns (r: Result<(), Failure>)
    requires db.Valid()
    modifies db`lists, db`nextId, sessions
    ensures db.Valid()
    ensures var key := ListKey(Strings.Lower(username), slug);
            var owner := Auth.SessionUser(old(sessions.sessions), cookie, now) == Some(key.username);
            var valid := Auth.IsValidUsername(key.username) && Auth.IsValidSlug(slug);
            && (!valid ==> r == Err(InvalidInput) && sessions.sessions == old(sessions.sessions))
            && (valid ==> sessions.sessions == Auth.AfterLookup(old(sessions.sessions), cookie, now))
            && (valid && !owner ==> r == Err(AuthRequired))
            && (valid && owner && key in old(db.lists) ==> r == Err(SlugTaken))
            && (valid && owner && key !in old(db.lists) ==> r.Ok?)
            && (r.Err? ==> db.lists == old(db.lists) && db.nextId == old(db.nextId))
            && (r.Ok? ==>
                  && valid && owner && key !in old(db.lists)
                  && db.lists == old(db.lists)[key := ListRow(old(db.nextId), Strings.Strip(title),
                                                              Strings.Strip(content), Checked(isPublic), now, now)]
                  && db.nextId == old(db.nextId) + 1)
  {
    var name := Strings.Lower(username);
    if !Auth.IsValidUsername(name) || !Auth.IsValidSlug(slug) {
      return Err(InvalidInput);
    }
    var owner := RequireOwner(sessions, cookie, name, now);
    if !owner {
      return Err(AuthRequired);
    }
    var key := ListKey(name, slug);
    if key in db.lists {
      return Err(SlugTaken);
    }
    Strings.LowerIdempotent(username);
    db.lists := db.lists[key := ListRow(db.nextId, Strings.Strip(title), Strings.Strip(content),
                                        Checked(isPublic), now, now)];
    db.nextId := db.nextId + 1;
    r := Ok(());
  }

  /**
   * `update_list` (POST /{username}/{slug}/update): validates, requires the owner's
   * session, and rewrites the stripped title and content, the visibility and
   * updated_at of that one list; no such list is 404.
   */
  method UpdateList(db: Store, sessions: Auth.SessionTable, cookie: Option<string>, username: string,
                    slug: string, title: string, content: string, isPublic: Option<string>, now: Time)
    returns (r: Result<(), Failure>)
    requires db.Valid()
    modifies db`lists, sessions
    ensures db.Valid()
    ensures var key := ListKey(Strings.Lower(username), slug);
            var owner := Auth.SessionUser(old(sessions.sessions), cookie, now) == Some(key.username);
            var valid := Auth.IsValidUsername(key.username) && Auth.IsValidSlug(slug);
            && (!valid ==> r == Err(InvalidInput) && sessions.sessions == old(sessions.sessions))
            && (valid ==> sessions.sessions == Auth.AfterLookup(old(sessions.sessions), cookie, now))
            && (valid && !owner ==> r == Err(AuthRequired))
            && (valid && owner && key !in old(db.lists) ==> r == Err(ListNotFound))
            && (valid && owner && key in old(db.lists) ==> r.Ok?)
            && (r.Err? ==> db.lists == old(db.lists))
            && (r.Ok? ==>
                  && valid && owner && key in old(db.lists)
                  && db.lists == old(db.lists)[key := old(db.lists)[key].(title := Strings.Strip(title),
                                                                          content := Strings.Strip(content),
                                                                          isPublic := Checked(isPublic),
                                                                          updatedAt := now)])
  {
    var name := Strings.Lower(username);
    if !Auth.IsValidUsername(name) || !Auth.IsValidSlug(slug) {
      return Err(InvalidInput);
    }
    var owner := RequireOwner(sessions, cookie, name, now);
    if !owner {
      return Err(AuthRequired);
    }
    var key := ListKey(name, slug);
    if key !in db.lists {
      return Err(ListNotFound);
    }
    db.lists := db.lists[key := db.lists[key].(title := Strings.Strip(title), content := Strings.Strip(content),
                                               isPublic := Checked(isPublic), updatedAt := now)];
    r := Ok(());
  }

  /**
   * `delete_list` (POST /{username}/{slug}/delete): validates, requires the owner's
   * session, and removes that one list; no such list is 404. Its views are not
   * deleted: the schema declares no cascade.
   */
  method DeleteList(db: Store, sessions: Auth.SessionTable, cookie: Option<string>, username: string,
                    slug: string, now: Time)
    returns (r: Result<(), Failure>)
    requires db.Valid()
    modifies db`lists, sessions
    ensures db.Valid()
    ensures var key := ListKey(Strings.Lower(username), slug);
            var owner := Auth.SessionUser(old(sessions.sessions), cookie, now) == Some(key.username);
            var valid := Auth.IsValidUsername(key.username) && Auth.IsValidSlug(slug);
            && (!valid ==> r == Err(InvalidInput) && sessions.sessions == old(sessions.sessions))
            && (valid ==> sessions.sessions == Auth.AfterLookup(old(sessions.sessions), cookie, now))
            && (valid && !owner ==> r == Err(AuthRequired))
            && (valid && owner && key !in old(db.lists) ==> r == Err(ListNotFound))
            && (valid && owner && key in old(db.lists) ==> r.Ok?)
            && (r.Err? ==> db.lists == old(db.lists))
            && (r.Ok? ==> valid && owner && key in old(db.lists) && db.lists == old(db.lists) - {key})
    ensures db.views == old(db.views)
  {
    var name := Strings.Lower(username);
    if !Auth.IsValidUsername(name) || !Auth.IsValidSlug(slug) {
      return Err(InvalidInput);
    }
    var owner := RequireOwner(sessions, cookie, name, now);
    if !owner {
      return Err(AuthRequired);
    }
    var key := ListKey(name, slug);
    if key !in db.lists {
      return Err(ListNotFound);
    }
    db.lists := db.lists - {key};
    r := Ok(());
  }

  // ---------------------------------------------------------------------------
  // The home page's trending query.
  // ---------------------------------------------------------------------------

  /** The home page's window and row count. */
  const HOME_DAYS: nat := 7
  const HOME_LIMIT: nat := 10

  /** Sort key of the home query: view count, then created_at, both descending. */
  function HomeRank(lists: map<ListKey, ListRow>, views: set<View>, cutoff: Day, k: ListKey): Rank
  {
    if k in lists then Rank(Privacy.ViewCount(views, lists[k].id, cutoff), lists[k].createdAt)
    else Rank(0, 0)
  }

  /** The groups of the LEFT JOIN: every public list, viewed or not. */
  ghost function PublicKeys(lists: map<ListKey, ListRow>): set<ListKey>
  {
    set k | k in lists && lists[k].isPublic
  }

  /** The lists the home page shows, in display order. */
  ghost function HomeTrendingKeys(db: Store, today: Day): (r: seq<ListKey>)
    reads db
    ensures var lists, views := db.lists, db.views;
            IsTopK(r, PublicKeys(lists), k => HomeRank(lists, views, today - HOME_DAYS, k), HOME_LIMIT)
  {
    var lists, views := db.lists, db.views;
    TopK(PublicKeys(lists), k => HomeRank(lists, views, today - HOME_DAYS, k), HOME_LIMIT)
  }

  /** The home page's trending rows (username, slug, title, view count). */
  ghost function HomeTrending(db: Store, today: Day): (r: seq<Privacy.TrendingRow>)
    reads db
    ensures |r| == |HomeTrendingKeys(db, today)|
  {
    var keys := HomeTrendingKeys(db, today);
    seq(|keys|, i requires 0 <= i < |keys| reads db =>
      var k := keys[i];
      Privacy.TrendingRow(k.username, k.slug,
                          if k in db.lists then db.lists[k].title else "",
                          HomeRank(db.lists, db.views, today - HOME_DAYS, k).primary))
  }

  /**
   * The home query shows public lists only, at most ten, by view count and then by
   * creation time, newest first; unlike `get_trending_lists` it also shows lists with
   * no views at all: when there are at most ten public lists, all of them appear.
   */
  lemma HomeTrendingShape(db: Store, today: Day, k: ListKey)
    ensures var keys := HomeTrendingKeys(db, today);
            var rows := HomeTrending(db, today);
            var cutoff := today - HOME_DAYS;
            && |rows| <= HOME_LIMIT
            && (forall i :: 0 <= i < |keys| ==>
                  && keys[i] in db.lists && db.lists[keys[i]].isPublic
                  && rows[i] == Privacy.TrendingRow(keys[i].username, keys[i].slug, db.lists[keys[i]].title,
                                                    Privacy.ViewCount(db.views, db.lists[keys[i]].id, cutoff)))
            && (forall i, j :: 0 <= i < j < |keys| ==>
                  rows[i].viewCount > rows[j].viewCount ||
                  (rows[i].viewCount == rows[j].viewCount &&
                   db.lists[keys[i]].createdAt >= db.lists[keys[j]].createdAt))
            && (k in db.lists && db.lists[k].isPublic && |PublicKeys(db.lists)| <= HOME_LIMIT ==> k in keys)
  {
    var keys := HomeTrendingKeys(db, today);
    var lists, views := db.lists, db.views;
    var rank := k => HomeRank(lists, views, today - HOME_DAYS, k);
    forall i | 0 <= i < |keys| ensures keys[i] in db.lists && db.lists[keys[i]].isPublic {
      assert keys[i] in PublicKeys(db.lists);
    }
    if k in db.lists && db.lists[k].isPublic && |PublicKeys(db.lists)| <= HOME_LIMIT {
      assert k in PublicKeys(db.lists);
      AllReturned(keys, PublicKeys(lists), rank, HOME_LIMIT);
    }
  }

  /** A public list nobody viewed can be on the home page, but never in `get_trending_lists`. */
  lemma UnviewedListOnlyOnHome(db: Store, today: Day, k: ListKey)
    requires k in db.lists && db.lists[k].isPublic
    requires Privacy.ViewCount(db.views, db.lists[k].id, today - HOME_DAYS) == 0
    requires |PublicKeys(db.lists)| <= HOME_LIMIT
    ensures k in HomeTrendingKeys(db, today)
    ensures forall i :: 0 <= i < |Privacy.GetTrendingLists(db, today, HOME_DAYS, HOME_LIMIT)| ==>
              var row := Privacy.GetTrendingLists(db, today, HOME_DAYS, HOME_LIMIT)[i];
              row.username != k.username || row.slug != k.slug
  {
    HomeTrendingShape(db, today, k);
    Privacy.TrendingExcludes(db, today, HOME_DAYS, HOME_LIMIT, k);
  }
}
