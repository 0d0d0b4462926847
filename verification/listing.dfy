/** Record lists in ascending identifier order, and bounded windows of a set of rows. */
module Listing {
  import opened Text
  import opened Records

  /** Rows by identifier. */
  type Rows = map<string, RecordEnvelope>

  ghost predicate Ascending(w: seq<RecordEnvelope>)
  {
    forall i, j | 0 <= i < j < |w| :: Less(w[i].recordID, w[j].recordID)
  }

  ghost predicate Visits(w: seq<RecordEnvelope>, id: string)
  {
    exists i :: 0 <= i < |w| && w[i].recordID == id
  }

  /** `w` lists the smallest identifiers of `rows`, at most `limit` of them, in order. */
  ghost predicate IsWindow(w: seq<RecordEnvelope>, rows: Rows, limit: nat)
  {
    && |w| <= limit
    && Ascending(w)
    && (forall i | 0 <= i < |w| :: w[i].recordID in rows && rows[w[i].recordID] == w[i])
    && (forall id | id in rows :: Visits(w, id) || (|w| == limit && forall i | 0 <= i < |w| :: Less(w[i].recordID, id)))
  }

  /** The rows above an exclusive cursor. */
  function Above(rows: Rows, after: string): Rows
  {
    map id | id in rows && Less(after, id) :: rows[id]
  }

  function IDs(w: seq<RecordEnvelope>): set<string>
  {
    set i | 0 <= i < |w| :: w[i].recordID
  }

  lemma {:induction false} IDsOfInit(w: seq<RecordEnvelope>)
    requires w != []
    ensures IDs(w) == IDs(w[..|w| - 1]) + {w[|w| - 1].recordID}
  {
    var init, last := w[..|w| - 1], w[|w| - 1];
    forall id | id in IDs(w)
      ensures id in IDs(init) + {last.recordID}
    {
      var i :| 0 <= i < |w| && w[i].recordID == id;
      assert i < |init| ==> init[i] == w[i];
    }
    forall i | 0 <= i < |init|
      ensures init[i].recordID in IDs(w)
    {
      assert w[i] == init[i];
    }
  }

  lemma {:induction false} DistinctIDs(w: seq<RecordEnvelope>)
    requires Ascending(w)
    ensures |IDs(w)| == |w|
  {
    hide Less;
    if w != [] {
      var init, last := w[..|w| - 1], w[|w| - 1];
      DistinctIDs(init);
      IDsOfInit(w);
      LessIrreflexive(last.recordID);
      assert last.recordID !in IDs(init);
    }
  }

  /** A window holds `limit` rows, or all of them when there are fewer. */
  lemma {:induction false} WindowSize(w: seq<RecordEnvelope>, rows: Rows, limit: nat)
    requires IsWindow(w, rows, limit)
    ensures |w| == if |rows| <= limit then |rows| else limit
  {
    DistinctIDs(w);
    assert IDs(w) <= rows.Keys;
    assert rows.Keys == IDs(w) + (rows.Keys - IDs(w));
    assert |rows.Keys| == |IDs(w)| + |rows.Keys - IDs(w)|;
    if |w| < limit {
      assert rows.Keys <= IDs(w);
    } else if rows.Keys - IDs(w) == {} {
      assert |rows| == limit;
    }
  }

  lemma {:induction false} NoSmaller(a: seq<RecordEnvelope>, b: seq<RecordEnvelope>, rows: Rows, m: nat, n: nat, k: nat)
    requires IsWindow(a, rows, m) && IsWindow(b, rows, n) && k < |a| && k < |b|
    requires forall i | 0 <= i < k :: a[i] == b[i]
    ensures !Less(a[k].recordID, b[k].recordID)
  {
    var id := a[k].recordID;
    if Visits(b, id) {
      var i :| 0 <= i < |b| && b[i].recordID == id;
      if i < k {
        LessIrreflexive(id);
      } else if i > k {
        LessAsymmetric(b[k].recordID, id);
      } else {
        LessIrreflexive(id);
      }
    } else {
      LessAsymmetric(b[k].recordID, id);
    }
  }

  /** Windows of the same rows are prefixes of one another: the listing order is unique. */
  lemma {:induction false} WindowsArePrefixes(a: seq<RecordEnvelope>, b: seq<RecordEnvelope>, rows: Rows, m: nat,
                                              n: nat, k: nat)
    requires IsWindow(a, rows, m) && IsWindow(b, rows, n) && k <= |a| && k <= |b|
    ensures a[..k] == b[..k]
  {
    hide Less, Visits;
    if k > 0 {
      WindowsArePrefixes(a, b, rows, m, n, k - 1);
      forall i | 0 <= i < k - 1
        ensures a[i] == b[i]
      {
        assert a[..k - 1][i] == b[..k - 1][i];
      }
      NoSmaller(a, b, rows, m, n, k - 1);
      NoSmaller(b, a, rows, n, m, k - 1);
      LessTotal(a[k - 1].recordID, b[k - 1].recordID);
    }
  }

  /** Puts `c` in its place, over an entry with the same identifier if there is one. */
  function Inserted(w: seq<RecordEnvelope>, c: RecordEnvelope): seq<RecordEnvelope>
  {
    if w == [] then [c]
    else if w[0].recordID == c.recordID then [c] + w[1..]
    else if Less(c.recordID, w[0].recordID) then [c] + w
    else [w[0]] + Inserted(w[1..], c)
  }

  /** Insertion followed by truncation to `limit` entries. */
  function Retained(w: seq<RecordEnvelope>, c: RecordEnvelope, limit: nat): seq<RecordEnvelope>
  {
    var all := Inserted(w, c);
    if |all| > limit then all[..limit] else all
  }

  /** Insertion described by the position a search finds. */
  lemma {:induction false} InsertedAt(w: seq<RecordEnvelope>, c: RecordEnvelope, p: nat)
    requires Ascending(w) && p <= |w|
    requires forall i | 0 <= i < p :: Less(w[i].recordID, c.recordID)
    requires forall i | p <= i < |w| :: !Less(w[i].recordID, c.recordID)
    ensures Inserted(w, c) == if p < |w| && w[p].recordID == c.recordID then w[p := c] else w[..p] + [c] + w[p..]
  {
    if w != [] {
      if p == 0 {
        LessTotal(w[0].recordID, c.recordID);
        if w[0].recordID == c.recordID {
          assert w[0 := c] == [c] + w[1..];
        }
      } else {
        LessIrreflexive(c.recordID);
        LessAsymmetric(w[0].recordID, c.recordID);
        InsertedAt(w[1..], c, p - 1);
        if p < |w| && w[p].recordID == c.recordID {
          assert w[p := c] == [w[0]] + w[1..][p - 1 := c];
        } else {
          assert w[..p] == [w[0]] + w[1..][..p - 1];
          assert w[1..][p - 1..] == w[p..];
        }
      }
    }
  }

  /** The three outcomes of retaining `c` at the position a search finds. */
  lemma {:induction false} RetainedAt(w: seq<RecordEnvelope>, c: RecordEnvelope, limit: nat, p: nat)
    requires Ascending(w) && p <= |w| <= limit
    requires forall i | 0 <= i < p :: Less(w[i].recordID, c.recordID)
    requires forall i | p <= i < |w| :: !Less(w[i].recordID, c.recordID)
    ensures Retained(w, c, limit) ==
            if p < |w| && w[p].recordID == c.recordID then w[p := c]
            else if |w| == limit && p == |w| then w
            else if |w| == limit then (w[..p] + [c] + w[p..])[..limit]
            else w[..p] + [c] + w[p..]
  {
    hide Inserted, Less;
    InsertedAt(w, c, p);
    if p == |w| {
      assert (w[..p] + [c] + w[p..])[..|w|] == w;
    }
  }

  lemma {:induction false} SplitPoint(w: seq<RecordEnvelope>, id: string) returns (p: nat)
    requires Ascending(w)
    ensures p <= |w|
    ensures forall i | 0 <= i < p :: Less(w[i].recordID, id)
    ensures forall i | p <= i < |w| :: !Less(w[i].recordID, id)
  {
    p := 0;
    while p < |w| && Less(w[p].recordID, id)
      invariant p <= |w|
      invariant forall i | 0 <= i < p :: Less(w[i].recordID, id)
    {
      p := p + 1;
    }
    forall i | p <= i < |w|
      ensures !Less(w[i].recordID, id)
    {
      if i > p && Less(w[i].recordID, id) {
        LessTransitive(w[p].recordID, w[i].recordID, id);
      }
    }
  }

  /** The untruncated insertion is a one larger window, with `c` as the row of its identifier. */
  lemma {:induction false} InsertedIsWindow(w: seq<RecordEnvelope>, rows: Rows, limit: nat, c: RecordEnvelope, p: nat)
    requires IsWindow(w, rows, limit) && p <= |w|
    requires forall i | 0 <= i < p :: Less(w[i].recordID, c.recordID)
    requires forall i | p <= i < |w| :: Less(c.recordID, w[i].recordID)
    ensures Ascending(w[..p] + [c] + w[p..])
    ensures forall i | 0 <= i < |w| + 1 ::
              var e := (w[..p] + [c] + w[p..])[i];
              e.recordID in rows[c.recordID := c] && rows[c.recordID := c][e.recordID] == e
    ensures forall id | Visits(w, id) || id == c.recordID :: Visits(w[..p] + [c] + w[p..], id)
  {
    hide Less;
    var all := w[..p] + [c] + w[p..];
    LessIrreflexive(c.recordID);
    assert all[p] == c;
    forall id | Visits(w, id)
      ensures Visits(all, id)
    {
      var i :| 0 <= i < |w| && w[i].recordID == id;
      assert all[if i < p then i else i + 1] == w[i];
    }
    forall i, j | 0 <= i < j < |all|
      ensures Less(all[i].recordID, all[j].recordID)
    {
      if i < p < j {
        LessTransitive(w[i].recordID, c.recordID, w[j - 1].recordID);
      }
    }
  }

  lemma {:induction false} ReplacedIsWindow(w: seq<RecordEnvelope>, rows: Rows, limit: nat, c: RecordEnvelope, p: nat)
    requires IsWindow(w, rows, limit) && p < |w| && w[p].recordID == c.recordID
    ensures IsWindow(w[p := c], rows[c.recordID := c], limit)
  {
    var out := w[p := c];
    forall id | Visits(w, id)
      ensures Visits(out, id)
    {
      var i :| 0 <= i < |w| && w[i].recordID == id;
      assert out[i].recordID == id;
    }
    LessIrreflexive(c.recordID);
    forall i | 0 <= i < |out|
      ensures out[i].recordID in rows[c.recordID := c] && rows[c.recordID := c][out[i].recordID] == out[i]
    {
      if i < p {
        assert Less(w[i].recordID, w[p].recordID);
      } else if i > p {
        assert Less(w[p].recordID, w[i].recordID);
      }
    }
  }

  /** Cutting a list of rows down to `limit` keeps a window, if it lost none of the smaller ones. */
  lemma {:induction false} TruncatedIsWindow(all: seq<RecordEnvelope>, rows: Rows, limit: nat)
    requires |all| == limit + 1 && Ascending(all)
    requires forall i | 0 <= i < |all| :: all[i].recordID in rows && rows[all[i].recordID] == all[i]
    requires forall id | id in rows && !Visits(all, id) :: forall i | 0 <= i < limit :: Less(all[i].recordID, id)
    ensures IsWindow(all[..limit], rows, limit)
  {
    var w := all[..limit];
    forall id | id in rows && !Visits(w, id)
      ensures forall i | 0 <= i < |w| :: Less(w[i].recordID, id)
    {
      assert forall i | 0 <= i < limit :: w[i] == all[i];
    }
  }

  lemma {:induction false} AboveSplit(w: seq<RecordEnvelope>, id: string, p: nat)
    requires Ascending(w) && p <= |w| && (p < |w| ==> w[p].recordID != id)
    requires forall i | p <= i < |w| :: !Less(w[i].recordID, id)
    ensures forall i | p <= i < |w| :: Less(id, w[i].recordID)
  {
    forall i | p <= i < |w|
      ensures Less(id, w[i].recordID)
    {
      LessTotal(id, w[i].recordID);
    }
  }

  lemma {:induction false} InsertKeepsWindow(w: seq<RecordEnvelope>, rows: Rows, limit: nat, c: RecordEnvelope, p: nat)
    requires IsWindow(w, rows, limit) && p <= |w|
    requires forall i | 0 <= i < p :: Less(w[i].recordID, c.recordID)
    requires forall i | p <= i < |w| :: Less(c.recordID, w[i].recordID)
    ensures var all := w[..p] + [c] + w[p..];
            IsWindow(if |all| > limit then all[..limit] else all, rows[c.recordID := c], limit)
  {
    hide Less, Visits;
    InsertedIsWindow(w, rows, limit, c, p);
    var all, more := w[..p] + [c] + w[p..], rows[c.recordID := c];
    if |w| == limit {
      forall x | x in more && !Visits(all, x)
        ensures forall i | 0 <= i < limit :: Less(all[i].recordID, x)
      {
        assert x in rows && !Visits(w, x);
        if p < limit {
          LessTransitive(c.recordID, w[p].recordID, x);
        }
      }
      TruncatedIsWindow(all, more, limit);
    }
  }

  /** One retained candidate turns the window of the rows so far into the window of one row more. */
  lemma {:induction false} RetainKeepsWindow(w: seq<RecordEnvelope>, rows: Rows, limit: nat, c: RecordEnvelope)
    requires IsWindow(w, rows, limit)
    ensures IsWindow(Retained(w, c, limit), rows[c.recordID := c], limit)
  {
    hide Inserted, Less, Visits;
    var p := SplitPoint(w, c.recordID);
    InsertedAt(w, c, p);
    if p < |w| && w[p].recordID == c.recordID {
      ReplacedIsWindow(w, rows, limit, c, p);
    } else {
      AboveSplit(w, c.recordID, p);
      InsertKeepsWindow(w, rows, limit, c, p);
    }
  }

  /** Every set of rows has a window of every size. */
  lemma {:induction false} WindowExists(rows: Rows, limit: nat) returns (w: seq<RecordEnvelope>)
    requires forall id | id in rows :: rows[id].recordID == id
    ensures IsWindow(w, rows, limit)
    decreases |rows|
  {
    if rows == map[] {
      w := [];
    } else {
      var id :| id in rows;
      var fewer := rows - {id};
      assert fewer.Keys == rows.Keys - {id};
      w := WindowExists(fewer, limit);
      RetainKeepsWindow(w, fewer, limit, rows[id]);
      assert fewer[id := rows[id]] == rows;
      w := Retained(w, rows[id], limit);
    }
  }
}
