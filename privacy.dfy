/**
 * core/privacy.py: salted IP hashing, client address extraction, the deduplicated
 * view log and the trending query over it.
 */
module Privacy {
  import opened Wrappers
  import opened Database
  import opened Ranking
  import Strings
  import Auth

  /** `hash_ip`: SHA-256 of ip + PIN_SALT (the digest is represented by its input). */
  function HashIp(ip: string): Digest
  {
    Sha256Hex(ip + Auth.PIN_SALT)
  }

  /** The same address always hashes alike, and distinct addresses never collide in the model. */
  lemma HashIpDeterministic(a: string, b: string)
    ensures HashIp(a) == HashIp(b) <==> a == b
  {
    if HashIp(a) == HashIp(b) {
      assert |a| == |b|;
      assert a == (a + Auth.PIN_SALT)[..|a|];
    }
  }

  /**
   * What the handlers read from a request: the X-Forwarded-For header, if sent, and
   * the peer address (`request.client` may be None).
   */
  datatype Request = Request(forwardedFor: Option<string>, peerHost: Option<string>)

  /**
   * `get_client_ip`: the first comma-separated entry of a non-empty X-Forwarded-For,
   * stripped of whitespace; otherwise the peer host. None stands for the
   * AttributeError raised when there is no header and no peer.
   */
  function GetClientIp(req: Request): (ip: Option<string>)
    ensures req.forwardedFor.Some? && req.forwardedFor.value != "" ==>
              ip.Some? &&
              (forall k :: 0 <= k < |ip.value| ==> ip.value[k] != ',') &&
              (ip.value != [] ==> !Strings.IsSpace(ip.value[0]) &&
                                  !Strings.IsSpace(ip.value[|ip.value| - 1]))
    ensures req.forwardedFor.Some? && req.forwardedFor.value != "" ==>
              ip == Some(Strings.Strip(Strings.BeforeFirst(req.forwardedFor.value, ',')))
    ensures !(req.forwardedFor.Some? && req.forwardedFor.value != "") ==> ip == req.peerHost
  {
    match req.forwardedFor
    case Some(f) =>
      if f != "" then
        var first := Strings.BeforeFirst(f, ',');
        var r := Strings.Strip(first);
        assert r == first[Strings.LeadingSpaces(first)..Strings.LeadingSpaces(first) + |r|];
        assert forall k :: 0 <= k < |r| ==> r[k] == first[Strings.LeadingSpaces(first) + k];
        Some(r)
      else req.peerHost
    case None => req.peerHost
  }

  /**
   * Behind a proxy chain "client, proxy1, ..." the client entry is returned, with the
   * whitespace around it removed.
   */
  lemma ClientIpIsFirstHop(client: string, pad: string, rest: string, peer: Option<string>)
    requires forall k :: 0 <= k < |client| ==> client[k] != ','
    requires client != [] && !Strings.IsSpace(client[0]) && !Strings.IsSpace(client[|client| - 1])
    requires forall k :: 0 <= k < |pad| ==> Strings.IsSpace(pad[k])
    ensures GetClientIp(Request(Some(pad + client + pad + "," + rest), peer)) == Some(client)
  {
    var middle := pad + client + pad;
    assert pad + client + pad + "," + rest == middle + [','] + rest;
    assert forall k :: 0 <= k < |middle| ==> middle[k] != ',' by {
      forall k | 0 <= k < |middle| ensures middle[k] != ',' {
        if k < |pad| { assert middle[k] == pad[k]; }
        else if k < |pad| + |client| { assert middle[k] == client[k - |pad|]; }
        else { assert middle[k] == pad[k - |pad| - |client|]; }
      }
    }
    Strings.BeforeFirstOf(middle, ',', rest);
    StripPadded(pad, client);
  }

  lemma {:induction false} StripPadded(pad: string, core: string)
    requires core != [] && !Strings.IsSpace(core[0]) && !Strings.IsSpace(core[|core| - 1])
    requires forall k :: 0 <= k < |pad| ==> Strings.IsSpace(pad[k])
    ensures Strings.Strip(pad + core + pad) == core
  {
    var s := pad + core + pad;
    var r := Strings.Strip(s);
    var lead := Strings.LeadingSpaces(s);
    assert lead == |pad| by {
      assert s[|pad|] == core[0];
    }
    assert |r| == |core| by {
      assert s[|pad| + |core| - 1] == core[|core| - 1];
    }
    assert s[|pad|..|pad| + |core|] == core;
  }

  // ---------------------------------------------------------------------------
  // The view log.
  // ---------------------------------------------------------------------------

  /** INSERT OR IGNORE into `views`: the whole row is the key, so a repeat changes nothing. */
  function InsertOrIgnore(views: set<View>, v: View): (after: set<View>)
    ensures v in after && views <= after && after - views <= {v}
  {
    views + {v}
  }

  /** Recording the same view twice is the same as recording it once. */
  lemma InsertOrIgnoreIdempotent(views: set<View>, v: View)
    ensures InsertOrIgnore(InsertOrIgnore(views, v), v) == InsertOrIgnore(views, v)
  {
  }

  /**
   * `track_list_view`: records (list_id, today, hash of the client ip). It answers True
   * for a fresh row and for an ignored duplicate alike; any exception (no client
   * address, a storage failure) is swallowed and answered with False.
   */
  method TrackListView(db: Store, listId: nat, req: Request, today: Day, storageFails: bool)
    returns (ok: bool)
    modifies db`views
    ensures ok <==> GetClientIp(req).Some? && !storageFails
    ensures ok ==> db.views == InsertOrIgnore(old(db.views), View(listId, today, HashIp(GetClientIp(req).value)))
    ensures !ok ==> db.views == old(db.views)
  {
    var ip := GetClientIp(req);
    if ip.None? {
      return false;
    }
    if storageFails {
      return false;
    }
    db.views := InsertOrIgnore(db.views, View(listId, today, HashIp(ip.value)));
    ok := true;
  }

  /** The distinct visitor hashes of a list in the window starting at day `cutoff`. */
  function WindowVisitors(views: set<View>, listId: nat, cutoff: Day): set<Digest>
  {
    set v | v in views && v.listId == listId && v.day >= cutoff :: v.ipHash
  }

  /** COUNT(DISTINCT ip_hash) of a list over the window. */
  function ViewCount(views: set<View>, listId: nat, cutoff: Day): nat
  {
    |WindowVisitors(views, listId, cutoff)|
  }

  /**
   * A visitor already counted in the window is not counted again, whatever day the
   * new view is on: one address viewing on several days counts once.
   */
  lemma RevisitNotCounted(views: set<View>, listId: nat, cutoff: Day, seen: View, day: Day)
    requires seen in views && seen.listId == listId && seen.day >= cutoff
    ensures ViewCount(views + {View(listId, day, seen.ipHash)}, listId, cutoff) ==
            ViewCount(views, listId, cutoff)
  {
    assert WindowVisitors(views + {View(listId, day, seen.ipHash)}, listId, cutoff) ==
           WindowVisitors(views, listId, cutoff);
  }

  /** A visitor new to the window adds exactly one to the count. */
  lemma NewVisitorCounted(views: set<View>, listId: nat, cutoff: Day, v: View)
    requires v.listId == listId && v.day >= cutoff
    requires forall w :: w in views && w.listId == listId && w.day >= cutoff ==> w.ipHash != v.ipHash
    ensures ViewCount(views + {v}, listId, cutoff) == ViewCount(views, listId, cutoff) + 1
  {
    var before := WindowVisitors(views, listId, cutoff);
    assert WindowVisitors(views + {v}, listId, cutoff) == before + {v.ipHash};
    assert v.ipHash !in before;
  }

  /** Views of other lists, or from before the window, do not move the count. */
  lemma OtherViewsNotCounted(views: set<View>, listId: nat, cutoff: Day, v: View)
    requires v.listId != listId || v.day < cutoff
    ensures ViewCount(views + {v}, listId, cutoff) == ViewCount(views, listId, cutoff)
  {
    assert WindowVisitors(views + {v}, listId, cutoff) == WindowVisitors(views, listId, cutoff);
  }

  // ---------------------------------------------------------------------------
  // Trending.
  // ---------------------------------------------------------------------------

  /** A result row: username, slug, title, view_count. */
  datatype TrendingRow = TrendingRow(username: string, slug: string, title: string, viewCount: nat)

  function ByViewCount(r: TrendingRow): Rank
  {
    Rank(r.viewCount, 0)
  }

  /** The groups the inner JOIN produces: public lists with a view in the window. */
  ghost function TrendingCandidates(lists: map<ListKey, ListRow>, views: set<View>, cutoff: Day)
    : set<TrendingRow>
  {
    set k | k in lists && lists[k].isPublic && ViewCount(views, lists[k].id, cutoff) > 0 ::
      TrendingRow(k.username, k.slug, lists[k].title, ViewCount(views, lists[k].id, cutoff))
  }

  /**
   * `get_trending_lists(days, limit)`: public lists viewed since `today - days`,
   * by distinct visitors, most viewed first (ties in any order), at most `limit` rows.
   */
  ghost function GetTrendingLists(db: Store, today: Day, days: nat, limit: int): (r: seq<TrendingRow>)
    reads db
    ensures IsTopK(r, TrendingCandidates(db.lists, db.views, today - days), ByViewCount, limit)
  {
    TopK(TrendingCandidates(db.lists, db.views, today - days), ByViewCount, limit)
  }

  /**
   * Every trending row is a public list of the store, viewed at least once in the
   * window, carrying its distinct-visitor count; the rows are in non-increasing count
   * order and there are at most `limit` of them.
   */
  lemma TrendingRowsAreViewedPublicLists(db: Store, today: Day, days: nat, limit: int)
    ensures var r := GetTrendingLists(db, today, days, limit);
            && (limit >= 0 ==> |r| <= limit)
            && (forall i, j :: 0 <= i < j < |r| ==> r[i].viewCount >= r[j].viewCount)
            && (forall i :: 0 <= i < |r| ==>
                  var k := ListKey(r[i].username, r[i].slug);
                  k in db.lists && db.lists[k].isPublic && r[i].title == db.lists[k].title &&
                  r[i].viewCount == ViewCount(db.views, db.lists[k].id, today - days) > 0)
  {
    var r := GetTrendingLists(db, today, days, limit);
    var cands := TrendingCandidates(db.lists, db.views, today - days);
    forall i | 0 <= i < |r|
      ensures var k := ListKey(r[i].username, r[i].slug);
              k in db.lists && db.lists[k].isPublic && r[i].title == db.lists[k].title &&
              r[i].viewCount == ViewCount(db.views, db.lists[k].id, today - days) > 0
    {
      assert r[i] in cands;
    }
  }

  /** A private list, or a public one without views in the window, is never trending. */
  lemma TrendingExcludes(db: Store, today: Day, days: nat, limit: int, k: ListKey)
    requires k in db.lists
    requires !db.lists[k].isPublic || ViewCount(db.views, db.lists[k].id, today - days) == 0
    ensures forall i :: 0 <= i < |GetTrendingLists(db, today, days, limit)| ==>
              var row := GetTrendingLists(db, today, days, limit)[i];
              row.username != k.username || row.slug != k.slug
  {
    TrendingRowsAreViewedPublicLists(db, today, days, limit);
  }

  /**
   * A public list with views in the window is either returned or outranked by every
   * returned row, and then the result is full.
   */
  lemma TrendingComplete(db: Store, today: Day, days: nat, limit: int, k: ListKey)
    requires k in db.lists && db.lists[k].isPublic
    requires ViewCount(db.views, db.lists[k].id, today - days) > 0
    ensures var r := GetTrendingLists(db, today, days, limit);
            var row := TrendingRow(k.username, k.slug, db.lists[k].title,
                                   ViewCount(db.views, db.lists[k].id, today - days));
            row in r ||
            (0 <= limit == |r| && forall i :: 0 <= i < |r| ==> r[i].viewCount >= row.viewCount)
  {
    var cands := TrendingCandidates(db.lists, db.views, today - days);
    var row := TrendingRow(k.username, k.slug, db.lists[k].title,
                           ViewCount(db.views, db.lists[k].id, today - days));
    assert row in cands;
    var r := GetTrendingLists(db, today, days, limit);
    if row !in r {
      if limit < 0 || |cands| <= limit {
        AllReturned(r, cands, ByViewCount, limit);
      }
    }
  }
}
