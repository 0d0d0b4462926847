/** Following `nextAfter` from page to page while the store may change in between. */
module RetrievalWalk {
  import opened Arithmetic
  import opened Text
  import opened Records
  import opened Listing
  import opened RetrievalPage

  /**
   `pages` is a complete walk: page k is drawn from `stores[k]` above the cursor page k-1
   returned, and only the last page has no cursor.
   */
  ghost predicate Walk(pages: seq<Page>, stores: seq<Rows>, after: string, limit: nat)
  {
    && |pages| == |stores| >= 1
    && IsPage(pages[0], stores[0], after, limit)
    && if pages[0].nextAfter == "" then |pages| == 1
       else Walk(pages[1..], stores[1..], pages[0].nextAfter, limit)
  }

  /** Everything the walk returned, in order. */
  function Visited(pages: seq<Page>): seq<RecordEnvelope>
  {
    if pages == [] then [] else pages[0].records + Visited(pages[1..])
  }

  lemma {:induction false} PageBounds(p: Page, rows: Rows, after: string, limit: nat)
    requires IsPage(p, rows, after, limit) && limit >= 1
    ensures Ascending(p.records)
    ensures forall i | 0 <= i < |p.records| :: Less(after, p.records[i].recordID)
    ensures p.nextAfter != "" ==> |p.records| == limit && p.records[limit - 1].recordID == p.nextAfter
    ensures p.nextAfter != "" ==>
              forall i | 0 <= i < |p.records| :: i == limit - 1 || Less(p.records[i].recordID, p.nextAfter)
  {
    WindowSize(p.records, Above(rows, after), limit);
  }

  lemma {:induction false} JoinAscending(a: seq<RecordEnvelope>, b: seq<RecordEnvelope>, mid: string)
    requires Ascending(a) && Ascending(b)
    requires forall i | 0 <= i < |a| :: a[i].recordID == mid || Less(a[i].recordID, mid)
    requires forall i | 0 <= i < |b| :: Less(mid, b[i].recordID)
    ensures Ascending(a + b)
  {
    forall i, j | 0 <= i < |a| && 0 <= j < |b|
      ensures Less(a[i].recordID, b[j].recordID)
    {
      if a[i].recordID != mid {
        LessTransitive(a[i].recordID, mid, b[j].recordID);
      }
    }
    var all := a + b;
    forall i, j | 0 <= i < j < |all|
      ensures Less(all[i].recordID, all[j].recordID)
    {
      if i < |a| <= j {
        assert all[i] == a[i] && all[j] == b[j - |a|];
      }
    }
  }

  /** Identifiers come in strictly ascending order, so no record is returned twice. */
  lemma {:induction false} WalkAscends(pages: seq<Page>, stores: seq<Rows>, after: string, limit: nat)
    requires limit >= 1 && Walk(pages, stores, after, limit)
    ensures Ascending(Visited(pages))
    ensures forall i | 0 <= i < |Visited(pages)| :: Less(after, Visited(pages)[i].recordID)
  {
    hide Less, IsPage, Ascending;
    var p := pages[0];
    PageBounds(p, stores[0], after, limit);
    if p.nextAfter == "" {
      assert Visited(pages[1..]) == [];
      assert Visited(pages) == p.records;
    } else {
      WalkAscends(pages[1..], stores[1..], p.nextAfter, limit);
      JoinAscending(p.records, Visited(pages[1..]), p.nextAfter);
      forall i | 0 <= i < |Visited(pages)|
        ensures Less(after, Visited(pages)[i].recordID)
      {
        if i >= |p.records| {
          LessTransitive(after, p.nextAfter, Visited(pages[1..])[i - |p.records|].recordID);
        }
      }
    }
  }

  /** A row that a page leaves out is above the cursor the page returns. */
  lemma {:induction false} MissedIsBehind(p: Page, rows: Rows, after: string, limit: nat, id: string)
    requires limit >= 1 && IsPage(p, rows, after, limit) && id in Above(rows, after) && !Visits(p.records, id)
    ensures p.nextAfter != "" && Less(p.nextAfter, id)
  {
    hide Less;
    WindowSize(p.records, Above(rows, after), limit);
    OneMore(p.records, Above(rows, after), id);
    PageBounds(p, rows, after, limit);
    LessNotEmpty(after, p.records[limit - 1].recordID);
  }

  /** A record present in the store at every page of the walk is returned, whatever else changes. */
  lemma {:induction false} WalkMissesNothing(pages: seq<Page>, stores: seq<Rows>, after: string, limit: nat, id: string)
    requires limit >= 1 && Walk(pages, stores, after, limit) && Less(after, id)
    requires forall k | 0 <= k < |stores| :: id in stores[k]
    ensures Visits(Visited(pages), id)
  {
    hide Less, IsPage;
    var p, above := pages[0], Above(stores[0], after);
    assert id in above;
    if Visits(p.records, id) {
      var i :| 0 <= i < |p.records| && p.records[i].recordID == id;
      assert Visited(pages)[i].recordID == id;
    } else {
      MissedIsBehind(p, stores[0], after, limit, id);
      WalkMissesNothing(pages[1..], stores[1..], p.nextAfter, limit, id);
      var i :| 0 <= i < |Visited(pages[1..])| && Visited(pages[1..])[i].recordID == id;
      assert Visited(pages)[|p.records| + i].recordID == id;
    }
  }

  lemma {:induction false} OneMore(w: seq<RecordEnvelope>, rows: Rows, id: string)
    requires Ascending(w) && id in rows && !Visits(w, id)
    requires forall i | 0 <= i < |w| :: w[i].recordID in rows
    ensures |rows| > |w|
  {
    DistinctIDs(w);
    assert IDs(w) + {id} <= rows.Keys;
    SubsetSize(IDs(w) + {id}, rows.Keys);
  }

  lemma {:induction false} SubsetSize(a: set<string>, b: set<string>)
    requires a <= b
    ensures |a| <= |b|
  {
    assert b == a + (b - a);
  }

  function CeilDiv(n: nat, d: nat): nat
    requires d >= 1
  {
    (n + d - 1) / d
  }

  lemma {:induction false} CeilDivNext(n: nat, d: nat)
    requires d >= 1 && n > d
    ensures CeilDiv(n, d) == 1 + CeilDiv(n - d, d)
  {
    DivPlusOne(n - 1, d);
  }

  /** A row above a page's cursor was above the old cursor too, and is not on the page. */
  lemma {:induction false} RestIsUnvisited(p: Page, rows: Rows, after: string, limit: nat, id: string)
    requires limit >= 1 && IsPage(p, rows, after, limit) && p.nextAfter != "" && id in Above(rows, p.nextAfter)
    ensures id in Above(rows, after) && id !in IDs(p.records)
  {
    hide Less, IsPage;
    PageBounds(p, rows, after, limit);
    LessTransitive(after, p.nextAfter, id);
    if id in IDs(p.records) {
      var i :| 0 <= i < |p.records| && p.records[i].recordID == id;
      LessIrreflexive(p.nextAfter);
      if i < limit - 1 {
        LessAsymmetric(id, p.nextAfter);
      }
    }
  }

  /** And every row above the old cursor that is not on the page is above the new one. */
  lemma {:induction false} UnvisitedIsRest(p: Page, rows: Rows, after: string, limit: nat, id: string)
    requires limit >= 1 && IsPage(p, rows, after, limit) && id in Above(rows, after) && id !in IDs(p.records)
    ensures id in Above(rows, p.nextAfter)
  {
    hide Less, IsPage;
    assert !Visits(p.records, id);
    MissedIsBehind(p, rows, after, limit, id);
  }

  lemma {:induction false} PageIDs(p: Page, rows: Rows, after: string, limit: nat)
    requires limit >= 1 && IsPage(p, rows, after, limit) && p.nextAfter != ""
    ensures IDs(p.records) <= Above(rows, after).Keys && |IDs(p.records)| == limit
  {
    hide Less;
    PageBounds(p, rows, after, limit);
    DistinctIDs(p.records);
  }

  /** The rows above a full page's cursor are the rows above the old cursor minus that page. */
  lemma {:induction false} RowsAfterPage(p: Page, rows: Rows, after: string, limit: nat)
    requires limit >= 1 && IsPage(p, rows, after, limit) && p.nextAfter != ""
    ensures Above(rows, p.nextAfter).Keys == Above(rows, after).Keys - IDs(p.records)
    ensures |Above(rows, p.nextAfter)| == |Above(rows, after)| - limit
  {
    hide Less, IsPage, Above, IDs;
    var (all, rest, page) := (Above(rows, after).Keys, Above(rows, p.nextAfter).Keys, IDs(p.records));
    forall id | id in rest
      ensures id in all - page
    {
      RestIsUnvisited(p, rows, after, limit, id);
    }
    forall id | id in all - page
      ensures id in rest
    {
      UnvisitedIsRest(p, rows, after, limit, id);
    }
    PageIDs(p, rows, after, limit);
    assert rest == all - page && all == rest + page;
  }

  /** `w` lists all of `rows`, in order. */
  ghost predicate ListsAll(w: seq<RecordEnvelope>, rows: Rows)
  {
    IsWindow(w, rows, |rows|)
  }

  lemma {:induction false} ListedID(w: seq<RecordEnvelope>, rows: Rows, id: string)
    requires ListsAll(w, rows) && id in rows
    ensures Visits(w, id)
  {
    hide Less;
    WindowSize(w, rows, |rows|);
    if !Visits(w, id) {
      OneMore(w, rows, id);
    }
  }

  lemma {:induction false} VisitsJoined(a: seq<RecordEnvelope>, b: seq<RecordEnvelope>, id: string)
    requires Visits(a, id) || Visits(b, id)
    ensures Visits(a + b, id)
  {
    if Visits(a, id) {
      var i :| 0 <= i < |a| && a[i].recordID == id;
      assert (a + b)[i] == a[i];
    } else {
      var i :| 0 <= i < |b| && b[i].recordID == id;
      assert (a + b)[|a| + i] == b[i];
    }
  }

  lemma {:induction false} JoinVisitsAll(a: seq<RecordEnvelope>, b: seq<RecordEnvelope>, all: Rows, rest: Rows)
    requires ListsAll(b, rest) && rest.Keys == all.Keys - IDs(a)
    ensures forall id | id in all :: Visits(a + b, id)
  {
    hide ListsAll;
    forall id | id in all
      ensures Visits(a + b, id)
    {
      if id in IDs(a) {
        assert Visits(a, id);
      } else {
        ListedID(b, rest, id);
      }
      VisitsJoined(a, b, id);
    }
  }

  /** A page followed by a listing of the rows behind it is a listing of both. */
  lemma {:induction false} JoinListings(a: seq<RecordEnvelope>, b: seq<RecordEnvelope>, all: Rows, rest: Rows,
                                        limit: nat)
    requires IsWindow(a, all, limit) && ListsAll(b, rest) && Ascending(a + b)
    requires rest.Keys == all.Keys - IDs(a) && forall id | id in rest :: rest[id] == all[id]
    ensures ListsAll(a + b, all)
  {
    hide Less, Visits, Ascending;
    JoinVisitsAll(a, b, all, rest);
    JoinDrawsFrom(a, b, all, rest);
    JoinSize(a, b, all, rest, limit);
  }

  lemma {:induction false} JoinSize(a: seq<RecordEnvelope>, b: seq<RecordEnvelope>, all: Rows, rest: Rows, limit: nat)
    requires IsWindow(a, all, limit) && ListsAll(b, rest) && rest.Keys == all.Keys - IDs(a)
    ensures |a + b| == |all|
  {
    hide Less, Visits;
    WindowSize(b, rest, |rest|);
    DistinctIDs(a);
    assert all.Keys == rest.Keys + IDs(a);
  }

  lemma {:induction false} JoinDrawsFrom(a: seq<RecordEnvelope>, b: seq<RecordEnvelope>, all: Rows, rest: Rows)
    requires forall i | 0 <= i < |a| :: a[i].recordID in all && all[a[i].recordID] == a[i]
    requires forall i | 0 <= i < |b| :: b[i].recordID in rest && rest[b[i].recordID] == b[i]
    requires forall id | id in rest :: id in all && rest[id] == all[id]
    ensures forall i | 0 <= i < |a + b| :: (a + b)[i].recordID in all && all[(a + b)[i].recordID] == (a + b)[i]
  {
    forall i | 0 <= i < |a + b|
      ensures (a + b)[i].recordID in all && all[(a + b)[i].recordID] == (a + b)[i]
    {
      assert (a + b)[i] == if i < |a| then a[i] else b[i - |a|];
    }
  }

  lemma {:induction false} WholePageListsAll(p: Page, rows: Rows, after: string, limit: nat)
    requires limit >= 1 && IsPage(p, rows, after, limit) && p.nextAfter == ""
    ensures |Above(rows, after)| <= limit && ListsAll(p.records, Above(rows, after))
  {
    hide Less;
    var all := Above(rows, after);
    WindowSize(p.records, all, limit);
    if |all| > limit {
      LessNotEmpty(after, p.records[|p.records| - 1].recordID);
    }
    forall id | id in all && !Visits(p.records, id)
      ensures false
    {
      OneMore(p.records, all, id);
    }
  }

  /**
   On an unchanged store the walk takes max(1, ceil(n / limit)) pages and returns exactly the
   n rows above the starting cursor, in order.
   */
  lemma {:induction false} WalkOfUnchangedStore(pages: seq<Page>, stores: seq<Rows>, rows: Rows, after: string,
                                                limit: nat)
    requires limit >= 1 && Walk(pages, stores, after, limit)
    requires forall k | 0 <= k < |stores| :: stores[k] == rows
    ensures |pages| == (if |Above(rows, after)| == 0 then 1 else CeilDiv(|Above(rows, after)|, limit))
    ensures ListsAll(Visited(pages), Above(rows, after))
  {
    hide Less, IsPage, ListsAll, CeilDiv, Above;
    var p, all := pages[0], Above(rows, after);
    if p.nextAfter == "" {
      assert pages[1..] == [] && Visited(pages) == p.records;
      WholePageListsAll(p, rows, after, limit);
      if |all| > 0 {
        CeilDivSmall(|all|, limit);
      }
    } else {
      var rest := Above(rows, p.nextAfter);
      RowsAfterPage(p, rows, after, limit);
      WalkOfUnchangedStore(pages[1..], stores[1..], rows, p.nextAfter, limit);
      FullPage(p, rows, after, limit);
      CeilDivNext(|all|, limit);
      WalkAscends(pages, stores, after, limit);
      AboveIsSubmap(rows, after, p.nextAfter);
      JoinListings(p.records, Visited(pages[1..]), all, rest, limit);
    }
  }

  lemma {:induction false} FullPage(p: Page, rows: Rows, after: string, limit: nat)
    requires IsPage(p, rows, after, limit) && p.nextAfter != ""
    ensures |Above(rows, after)| > limit && IsWindow(p.records, Above(rows, after), limit)
  {
  }

  lemma {:induction false} AboveIsSubmap(rows: Rows, after: string, later: string)
    ensures forall id | id in Above(rows, later) && id in Above(rows, after) ::
              Above(rows, later)[id] == Above(rows, after)[id]
  {
  }

  lemma {:induction false} CeilDivSmall(n: nat, d: nat)
    requires 1 <= n <= d
    ensures CeilDiv(n, d) == 1
  {
    QuotientUnique(n + d - 1, d, 1, n - 1);
  }

  function Unchanged(rows: Rows, n: nat): seq<Rows>
  {
    seq(n, _ => rows)
  }

  /** A complete walk over a store that nobody changes. */
  ghost predicate WalksOver(pages: seq<Page>, rows: Rows, after: string, limit: nat)
  {
    Walk(pages, Unchanged(rows, |pages|), after, limit)
  }

  /** The walk ends: every page with a cursor leaves fewer rows, so a complete walk exists from every cursor. */
  lemma {:induction false} WalkEnds(rows: Rows, after: string, limit: nat)
    requires limit >= 1 && forall id | id in rows :: rows[id].recordID == id
    ensures exists pages :: WalksOver(pages, rows, after, limit)
    decreases |Above(rows, after)|
  {
    hide Less, IsPage, IsWindow;
    var w := WindowExists(Above(rows, after), limit + 1);
    PageFromWindow(w, rows, after, limit);
    var p := if |w| <= limit then Page(w, "") else Page(w[..limit], w[limit - 1].recordID);
    if p.nextAfter == "" {
      assert Walk([p], Unchanged(rows, 1), after, limit);
      assert WalksOver([p], rows, after, limit);
    } else {
      RowsAfterPage(p, rows, after, limit);
      WalkEnds(rows, p.nextAfter, limit);
      var rest :| WalksOver(rest, rows, p.nextAfter, limit);
      var (pages, stores) := ([p] + rest, Unchanged(rows, |rest| + 1));
      assert pages[1..] == rest && stores[1..] == Unchanged(rows, |rest|);
      assert Walk(pages, stores, after, limit);
      assert WalksOver(pages, rows, after, limit);
    }
  }

  /** So a client that follows the cursors of a stored file gets all its rows, in order, in ceil(n / limit) pages. */
  lemma {:induction false} FileIsWalked(file: StoreFile, limit: nat)
    requires limit >= 1
    ensures exists pages :: WalksOver(pages, RowsOf(file), "", limit)
    ensures forall pages | WalksOver(pages, RowsOf(file), "", limit) ::
              && ListsAll(Visited(pages), Above(RowsOf(file), ""))
              && |pages| == var n := |Above(RowsOf(file), "")|; if n == 0 then 1 else CeilDiv(n, limit)
  {
    hide ListsAll, CeilDiv, Walk;
    if file.JsonObject? {
      LatestKeyed(file.items, "");
    }
    WalkEnds(RowsOf(file), "", limit);
    forall pages | WalksOver(pages, RowsOf(file), "", limit)
      ensures ListsAll(Visited(pages), Above(RowsOf(file), ""))
      ensures |pages| == var n := |Above(RowsOf(file), "")|; if n == 0 then 1 else CeilDiv(n, limit)
    {
      WalkOfUnchangedStore(pages, Unchanged(RowsOf(file), |pages|), RowsOf(file), "", limit);
    }
  }
}
