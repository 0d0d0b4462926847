/** One validated retrieval page: a streaming scan that keeps a bounded, sorted, in-place window. */
module RetrievalPage {
  import opened Outcomes
  import opened Text
  import opened Records
  import opened Listing

  /** One member of the persisted JSON object, or the point where decoding fails. */
  datatype Item = Row(key: string, envelope: RecordEnvelope) | Undecodable

  /** The store file as the decoder meets it; `cleanEnd` says the object closes and nothing follows. */
  datatype StoreFile = Missing | Unopenable | EmptyFile | NotJsonObject | JsonObject(items: seq<Item>, cleanEnd: bool)

  datatype PageError =
    | InvalidPageSize
    | CannotOpen
    | MalformedStore
    | KeyMismatch
    | RowRefused(reason: RecordError)

  /** Why a member stops the scan, if it does. */
  function Fault(item: Item, capability: Capability): Outcome<PageError>
  {
    match item
    case Undecodable => Fail(MalformedStore)
    case Row(key, envelope) =>
      if key != envelope.recordID then Fail(KeyMismatch)
      else match ValidateRecord(envelope, capability)
        case Fail(e) => Fail(RowRefused(e))
        case Pass => Pass
  }

  ghost predicate Sound(items: seq<Item>, capability: Capability)
  {
    forall i | 0 <= i < |items| :: Fault(items[i], capability).Pass?
  }

  /** The rows above the cursor; a repeated key keeps its last occurrence. */
  function Latest(items: seq<Item>, after: string): Rows
  {
    if items == [] then map[]
    else
      var rows := Latest(items[..|items| - 1], after);
      match items[|items| - 1]
      case Undecodable => rows
      case Row(_, e) => if Less(after, e.recordID) then rows[e.recordID := e] else rows
  }

  /** The candidates slice: the first `count` slots, with room for one entry over the limit. */
  class CandidateWindow {
    const limit: nat
    const slots: array<RecordEnvelope>
    var count: nat

    constructor (limit: nat)
      ensures Valid() && this.limit == limit && Contents() == [] && fresh(slots)
    {
      this.limit := limit;
      slots := new RecordEnvelope[limit + 1];
      count := 0;
    }

    ghost predicate Valid()
      reads this
    {
      slots.Length == limit + 1 && count <= limit
    }

    ghost function Contents(): seq<RecordEnvelope>
      reads this, slots
      requires Valid()
    {
      slots[..count]
    }

    /** `sort.Search`: the first slot whose identifier is not below `id`. */
    method Search(id: string) returns (p: nat)
      requires Valid() && Ascending(Contents())
      ensures p <= count
      ensures forall k | 0 <= k < p :: Less(slots[k].recordID, id)
      ensures forall k | p <= k < count :: !Less(slots[k].recordID, id)
    {
      ghost var w := Contents();
      var i, j := 0, count;
      while i < j
        invariant 0 <= i <= j <= count
        invariant forall k | 0 <= k < i :: Less(w[k].recordID, id)
        invariant forall k | j <= k < count :: !Less(w[k].recordID, id)
      {
        var h := (i + j) / 2;
        assert slots[h] == w[h];
        if Less(slots[h].recordID, id) {
          BelowSplit(w, h, id);
          i := h + 1;
        } else {
          FromSplit(w, h, id);
          j := h;
        }
      }
      p := i;
      assert forall k | 0 <= k < count :: slots[k] == w[k];
    }

    method Retain(candidate: RecordEnvelope)
      requires Valid() && Ascending(Contents())
      modifies this`count, slots
      ensures Valid() && Contents() == Retained(old(Contents()), candidate, limit)
    {
      hide Less, Ascending, Retained;
      ghost var w := Contents();
      var p := Search(candidate.recordID);
      assert forall k | 0 <= k < count :: slots[k] == w[k];
      RetainedAt(w, candidate, limit, p);
      if p < count && slots[p].recordID == candidate.recordID {
        slots[p] := candidate;
        assert Contents() == w[p := candidate];
        return;
      }
      if count >= limit && p == count {
        return;
      }
      InsertAt(p, candidate);
      assert slots[..count + 1] == w[..p] + [candidate] + w[p..];
      if count + 1 > limit {
        assert slots[..limit] == slots[..count + 1][..limit];
      } else {
        count := count + 1;
      }
    }

    /** Shifts the entries from `p` one slot up, into the spare slot, and fills the gap. */
    method InsertAt(p: nat, candidate: RecordEnvelope)
      requires Valid() && p <= count
      modifies slots
      ensures Valid() && slots[p] == candidate
      ensures forall m | 0 <= m < p :: slots[m] == old(slots[m])
      ensures forall m | p < m <= count :: slots[m] == old(slots[m - 1])
    {
      hide Less;
      ghost var w := Contents();
      var k := count;
      while k > p
        invariant p <= k <= count
        invariant forall m | 0 <= m < k :: slots[m] == w[m]
        invariant forall m | k < m <= count :: slots[m] == w[m - 1]
      {
        slots[k] := slots[k - 1];
        k := k - 1;
      }
      slots[p] := candidate;
    }
  }

  lemma {:induction false} BelowSplit(w: seq<RecordEnvelope>, h: nat, id: string)
    requires Ascending(w) && h < |w| && Less(w[h].recordID, id)
    ensures forall k | 0 <= k <= h :: Less(w[k].recordID, id)
  {
    forall k | 0 <= k < h
      ensures Less(w[k].recordID, id)
    {
      LessTransitive(w[k].recordID, w[h].recordID, id);
    }
  }

  lemma {:induction false} FromSplit(w: seq<RecordEnvelope>, h: nat, id: string)
    requires Ascending(w) && h < |w| && !Less(w[h].recordID, id)
    ensures forall k | h <= k < |w| :: !Less(w[k].recordID, id)
  {
    forall k | h < k < |w|
      ensures !Less(w[k].recordID, id)
    {
      if Less(w[k].recordID, id) {
        LessTransitive(w[h].recordID, w[k].recordID, id);
      }
    }
  }

  datatype Page = Page(records: seq<RecordEnvelope>, nextAfter: string)

  /** Filter, sort, take: the first `limit` rows above the cursor, and a cursor iff more remain. */
  ghost predicate IsPage(p: Page, rows: Rows, after: string, limit: nat)
  {
    && IsWindow(p.records, Above(rows, after), limit)
    && (if |Above(rows, after)| > limit then p.records != [] && p.nextAfter == p.records[|p.records| - 1].recordID
        else p.nextAfter == "")
  }

  /** The first member at which the scan fails, if any; otherwise the end of the object decides. */
  function ScanFault(items: seq<Item>, cleanEnd: bool, capability: Capability): Outcome<PageError>
  {
    if items == [] then (if cleanEnd then Pass else Fail(MalformedStore))
    else match Fault(items[0], capability)
      case Fail(e) => Fail(e)
      case Pass => ScanFault(items[1..], cleanEnd, capability)
  }

  /** The rows a page is drawn from. */
  function RowsOf(file: StoreFile): Rows
  {
    match file
    case JsonObject(items, _) => Latest(items, "")
    case _ => map[]
  }

  lemma {:induction false} LatestAbove(items: seq<Item>, after: string)
    ensures Latest(items, after) == Above(Latest(items, ""), after)
  {
    if items != [] {
      LatestAbove(items[..|items| - 1], after);
      match items[|items| - 1]
      case Undecodable =>
      case Row(_, e) =>
        if Less(after, e.recordID) {
          assert e.recordID != "";
        }
    }
  }

  lemma {:induction false} ScanSplits(items: seq<Item>, cleanEnd: bool, capability: Capability, i: nat)
    requires i <= |items| && Sound(items[..i], capability)
    ensures ScanFault(items, cleanEnd, capability) == ScanFault(items[i..], cleanEnd, capability)
  {
    hide Fault;
    if i > 0 {
      assert items[..i][0] == items[0];
      assert items[1..][..i - 1] == items[..i][1..];
      ScanSplits(items[1..], cleanEnd, capability, i - 1);
      assert items[1..][i - 1..] == items[i..];
    } else {
      assert items[0..] == items;
    }
  }

  lemma {:induction false} LatestKeyed(items: seq<Item>, after: string)
    ensures forall id | id in Latest(items, after) :: Latest(items, after)[id].recordID == id
  {
    if items != [] {
      LatestKeyed(items[..|items| - 1], after);
    }
  }

  /** The decoding loop: retains every sound row above the cursor, up to the first fault. */
  method ScanObject(items: seq<Item>, cleanEnd: bool, capability: Capability, after: string, candidateLimit: nat)
    returns (fault: Outcome<PageError>, candidates: seq<RecordEnvelope>)
    ensures fault == ScanFault(items, cleanEnd, capability)
    ensures fault.Pass? ==> IsWindow(candidates, Latest(items, after), candidateLimit)
  {
    hide ValidateRecord;
    hide IsWindow, Fault, Less, Retained;
    var window := new CandidateWindow(candidateLimit);
    NothingIsWindow(after, candidateLimit);
    for i := 0 to |items|
      invariant window.Valid() && window.limit == candidateLimit && fresh(window.slots)
      invariant Sound(items[..i], capability)
      invariant IsWindow(window.Contents(), Latest(items[..i], after), candidateLimit)
    {
      assert items[..i + 1][..i] == items[..i];
      ScanSplits(items, cleanEnd, capability, i);
      match Fault(items[i], capability) {
        case Fail(e) => return Fail(e), [];
        case Pass =>
      }
      assert Sound(items[..i + 1], capability);
      var envelope := FaultlessRow(items[i], capability);
      if Less(after, envelope.recordID) {
        WindowAscends(window.Contents(), Latest(items[..i], after), candidateLimit);
        RetainKeepsWindow(window.Contents(), Latest(items[..i], after), candidateLimit, envelope);
        window.Retain(envelope);
      }
    }
    assert items[..|items|] == items;
    ScanSplits(items, cleanEnd, capability, |items|);
    if !cleanEnd {
      return Fail(MalformedStore), [];
    }
    return Pass, window.slots[..window.count];
  }

  method ValidatedPersistedPage(file: StoreFile, capability: Capability, after: string, limit: int)
    returns (r: Result<Page, PageError>)
    ensures limit < 1 ==> r == Failure(InvalidPageSize)
    ensures limit >= 1 && file.Unopenable? ==> r == Failure(CannotOpen)
    ensures limit >= 1 && file.NotJsonObject? ==> r == Failure(MalformedStore)
    ensures limit >= 1 && file.JsonObject? ==>
              match ScanFault(file.items, file.cleanEnd, capability)
              case Fail(e) => r == Failure(e)
              case Pass => r.Success?
    ensures limit >= 1 && (file.Missing? || file.EmptyFile?) ==> r.Success?
    ensures r.Success? ==> limit >= 1 && IsPage(r.value, RowsOf(file), after, limit)
  {
    hide IsWindow, IsPage, ScanFault, Latest;
    if limit < 1 {
      return Failure(InvalidPageSize);
    }
    match file {
      case Missing =>
        NothingIsPage(after, limit);
        return Success(Page([], ""));
      case EmptyFile =>
        NothingIsPage(after, limit);
        return Success(Page([], ""));
      case Unopenable => return Failure(CannotOpen);
      case NotJsonObject => return Failure(MalformedStore);
      case JsonObject(items, cleanEnd) =>
        var fault, candidates := ScanObject(items, cleanEnd, capability, after, limit + 1);
        if fault.Fail? {
          return Failure(fault.error);
        }
        LatestAbove(items, after);
        PageFromWindow(candidates, Latest(items, ""), after, limit);
        if |candidates| <= limit {
          return Success(Page(candidates, ""));
        }
        var page := candidates[..limit];
        return Success(Page(page, page[|page| - 1].recordID));
    }
  }

  /** The envelope of a member that does not stop the scan. */
  function FaultlessRow(item: Item, capability: Capability): (e: RecordEnvelope)
    requires Fault(item, capability).Pass?
    ensures item == Row(e.recordID, e)
  {
    item.envelope
  }

  lemma {:induction false} WindowAscends(w: seq<RecordEnvelope>, rows: Rows, limit: nat)
    requires IsWindow(w, rows, limit)
    ensures Ascending(w)
  {
  }

  lemma {:induction false} NothingIsWindow(after: string, limit: nat)
    ensures IsWindow([], Latest([], after), limit)
  {
  }

  lemma {:induction false} NothingIsPage(after: string, limit: nat)
    ensures IsPage(Page([], ""), map[], after, limit)
  {
    assert Above(map[], after) == map[];
  }

  /** A window below its limit is a window of any smaller limit it fits. */
  lemma {:induction false} UnfilledWindow(w: seq<RecordEnvelope>, rows: Rows, limit: nat, less: nat)
    requires IsWindow(w, rows, limit) && |w| <= less < limit
    ensures IsWindow(w, rows, less)
  {
    hide Less, Visits;
  }

  lemma {:induction false} WindowTake(w: seq<RecordEnvelope>, rows: Rows, limit: nat, less: nat)
    requires IsWindow(w, rows, limit) && less < |w|
    ensures IsWindow(w[..less], rows, less)
  {
    hide Less;
    var page := w[..less];
    forall id | id in rows && !Visits(page, id)
      ensures forall i | 0 <= i < less :: Less(page[i].recordID, id)
    {
      assert forall i | 0 <= i < less :: page[i] == w[i];
    }
  }

  /** Of a window one larger than the page, the first `limit` entries are the page. */
  lemma {:induction false} PageFromWindow(w: seq<RecordEnvelope>, rows: Rows, after: string, limit: nat)
    requires limit >= 1 && IsWindow(w, Above(rows, after), limit + 1)
    ensures |w| <= limit ==> IsPage(Page(w, ""), rows, after, limit)
    ensures |w| > limit ==> IsPage(Page(w[..limit], w[limit - 1].recordID), rows, after, limit)
  {
    hide IsWindow, Above;
    WindowSize(w, Above(rows, after), limit + 1);
    if |w| > limit {
      WindowTake(w, Above(rows, after), limit + 1, limit);
    } else {
      UnfilledWindow(w, Above(rows, after), limit + 1, limit);
    }
  }

  /** A member that a scan lets pass: a row under its own identifier that the capability covers. */
  ghost predicate Presentable(item: Item, capability: Capability)
  {
    item.Row? && item.key == item.envelope.recordID && Plausible(item.envelope) && Covers(capability, item.envelope)
  }

  lemma {:induction false} FaultIff(item: Item, capability: Capability)
    ensures Fault(item, capability).Pass? <==> Presentable(item, capability)
    ensures Fault(item, capability) == Fail(MalformedStore) <==> item == Undecodable
    ensures Fault(item, capability) == Fail(KeyMismatch) <==> item.Row? && item.key != item.envelope.recordID
  {
    hide ValidateRecord, Plausible;
    if item.Row? {
      ValidatesIff(item.envelope, capability);
    }
  }

  /** The first member that is not presentable decides; without one the end of the object does. */
  lemma {:induction false} FirstFaultDecides(items: seq<Item>, cleanEnd: bool, capability: Capability, i: nat)
    requires i <= |items| && forall j | 0 <= j < i :: Presentable(items[j], capability)
    requires i < |items| ==> !Presentable(items[i], capability)
    ensures i < |items| ==>
              && ScanFault(items, cleanEnd, capability) == Fault(items[i], capability)
              && Fault(items[i], capability).Fail?
    ensures i == |items| ==> ScanFault(items, cleanEnd, capability) == if cleanEnd then Pass else Fail(MalformedStore)
  {
    hide Fault, Presentable;
    if items != [] {
      FaultIff(items[0], capability);
      if i > 0 {
        assert forall j | 0 <= j < |items| - 1 :: items[1..][j] == items[j + 1];
        FirstFaultDecides(items[1..], cleanEnd, capability, i - 1);
      }
    }
  }

  /** Of a repeated key the last row counts, and only if it is above the cursor. */
  lemma {:induction false} LastRowCounts(items: seq<Item>, after: string, id: string, i: nat)
    requires i < |items| && items[i].Row? && items[i].envelope.recordID == id
    requires forall j | i < j < |items| :: items[j].Row? ==> items[j].envelope.recordID != id
    ensures id in Latest(items, after) <==> Less(after, id)
    ensures id in Latest(items, after) ==> Latest(items, after)[id] == items[i].envelope
  {
    hide Less;
    var n := |items| - 1;
    if i < n {
      LastRowCounts(items[..n], after, id, i);
    } else {
      LatestIsAbove(items[..n], after);
    }
  }

  lemma {:induction false} LatestIsAbove(items: seq<Item>, after: string)
    ensures forall id | id in Latest(items, after) ::
              Less(after, id) && exists i :: 0 <= i < |items| && items[i].Row? && items[i].envelope.recordID == id
  {
    hide Less;
    if items != [] {
      var n := |items| - 1;
      LatestIsAbove(items[..n], after);
      forall id | id in Latest(items, after)
        ensures Less(after, id) && exists i :: 0 <= i < |items| && items[i].Row? && items[i].envelope.recordID == id
      {
        if id in Latest(items[..n], after) {
          var i :| 0 <= i < n && items[..n][i].Row? && items[..n][i].envelope.recordID == id;
          assert items[i] == items[..n][i];
        } else {
          assert items[n].Row? && items[n].envelope.recordID == id;
        }
      }
    }
  }
}
