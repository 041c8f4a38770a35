/**
 * The three SQLite tables of core/database.py as Dafny values, and the store that
 * holds them. Column types follow the DDL; timestamps are integer seconds and
 * view dates integer day numbers.
 */
module Database {
  import opened Wrappers
  import Strings

  /** A point on the server clock, in seconds. */
  type Time = int

  /** A calendar day (the `view_date` column), as a day number. */
  type Day = int

  /** A salted SHA-256 hex digest, represented by the string that was hashed. */
  datatype Digest = Sha256Hex(preimage: string)

  /** A bcrypt digest: the hashed secret and the random salt `gensalt()` drew for it. */
  datatype PinHash = Bcrypt(secret: string, gensalt: nat)

  /** A row of `users`, keyed by `username`. */
  datatype User = User(
    pinHash: PinHash,
    createdAt: Time,
    lastIpHash: Option<Digest>,
    failedAttempts: nat,
    lastFail: Option<Time>)

  /** How handlers address a list: `/{username}/{slug}`. */
  datatype ListKey = ListKey(username: string, slug: string)

  /** The remaining columns of a row of `lists`. */
  datatype ListRow = ListRow(
    id: nat,
    title: string,
    content: string,
    isPublic: bool,
    createdAt: Time,
    updatedAt: Time)

  /** A row of `views`; the whole row is the primary key. */
  datatype View = View(listId: nat, day: Day, ipHash: Digest)

  /**
   * The database. `lists` is keyed by (username, slug): the DDL declares no such
   * constraint, the application keeps it by checking before every insert.
   * `nextId` is the AUTOINCREMENT counter, so ids are never reused.
   */
  class Store {
    var users: map<string, User>
    var lists: map<ListKey, ListRow>
    var views: set<View>
    var nextId: nat

    ghost predicate Valid()
      reads this
    {
      && (forall u :: u in users ==> Strings.Lower(u) == u)
      && (forall k :: k in lists ==> Strings.Lower(k.username) == k.username)
      && (forall k :: k in lists ==> lists[k].id < nextId)
      && (forall k1, k2 :: k1 in lists && k2 in lists && lists[k1].id == lists[k2].id ==> k1 == k2)
    }

    /** `init_db` on an empty file. */
    constructor ()
      ensures Valid()
      ensures users == map[] && lists == map[] && views == {} && nextId == 1
    {
      users, lists, views, nextId := map[], map[], {}, 1;
    }
  }
}
