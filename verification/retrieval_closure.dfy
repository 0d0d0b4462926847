/** Which stores that ingestion and compaction can build pass the whole-store check of retrieval. */
module RetrievalClosure {
  import opened Text
  import opened Records
  import opened Policy
  import opened Conflict
  import opened SearchHistory
  import opened Convergence
  import opened Receipts
  import opened Compaction
  import opened Listing
  import opened RetrievalPage

  /** What may happen to the store between two retrievals. */
  datatype StoreOp =
    | Submit(s: Submission)
    | Collect(scheme: DigestScheme, q: CompactionRequest, receipts: set<ObservationReceipt>)

  ghost function TableAfter(ops: seq<StoreOp>): Table
  {
    if ops == [] then map[]
    else
      var before := TableAfter(ops[..|ops| - 1]);
      match ops[|ops| - 1]
      case Submit(s) => Accept(before, s).0
      case Collect(scheme, q, receipts) => Compact(scheme, before, q, receipts).0
  }

  /** Retrieval checks every row with its read capability, opened for writing and deleting. */
  function RetrievalCapability(c: Capability): Capability
  {
    c.(write := true, delete := true)
  }

  /** Known when a record is submitted: it will come back from the file in a servable state. */
  predicate Servable(record: RecordEnvelope, c: Capability)
  {
    record.schemaVersion == c.schemaVersion && (record.deleted || !PayloadEmpty(record.payload))
  }

  /** A landed record passes the retrieval check after its round trip exactly when it was servable. */
  lemma {:induction false} LandedValidatesIff(s: Submission, c: Capability)
    requires Lands(s) && c.dataset == Dataset
    ensures ValidateRecord(ReadBack(s.record), RetrievalCapability(c)).Pass? <==> Servable(s.record, c)
  {
    hide Blank, ByteLen;
    FirstForFinds(s.peer.negotiated, s.record.dataset);
  }

  lemma {:induction false} FirstForFinds(negotiated: seq<Capability>, dataset: string)
    ensures FirstFor(negotiated, dataset).Some? ==> FirstFor(negotiated, dataset).value.dataset == dataset
  {
    if negotiated != [] {
      FirstForFinds(negotiated[1..], dataset);
    }
  }

  /** The row `id` stems from a landed submission of the run. */
  ghost predicate Stems(ops: seq<StoreOp>, table: Table, id: string)
    requires id in table
  {
    exists i :: 0 <= i < |ops| && ops[i].Submit? && Lands(ops[i].s) && ops[i].s.record.recordID == id
                && table[id].envelope == ReadBack(ops[i].s.record)
  }

  lemma {:induction false} RowsStem(ops: seq<StoreOp>)
    ensures forall id | id in TableAfter(ops) :: Stems(ops, TableAfter(ops), id)
  {
    hide Lands, Compact, Merged;
    if ops != [] {
      var n := |ops| - 1;
      var earlier, before, after := ops[..n], TableAfter(ops[..n]), TableAfter(ops);
      RowsStem(earlier);
      forall id | id in after
        ensures Stems(ops, after, id)
      {
        match ops[n] {
          case Submit(s) =>
            AcceptChangesOneRow(before, s, id);
          case Collect(scheme, q, receipts) =>
            CompactKeepsRows(scheme, before, q, receipts);
        }
        if id in before && after[id] == before[id] {
          var i :| 0 <= i < |earlier| && earlier[i].Submit? && Lands(earlier[i].s)
                   && earlier[i].s.record.recordID == id && before[id].envelope == ReadBack(earlier[i].s.record);
          assert ops[i] == earlier[i];
        }
      }
    }
  }

  lemma {:induction false} AcceptChangesOneRow(table: Table, s: Submission, id: string)
    requires id in Accept(table, s).0
    ensures var after := Accept(table, s).0;
            || (id in table && after[id] == table[id])
            || (Lands(s) && s.record.recordID == id && after[id].envelope == ReadBack(s.record))
  {
    hide Policy.AuthorizeRecord;
    hide Lands;
    AcceptIsMerge(table, s);
  }

  lemma {:induction false} CompactKeepsRows(scheme: DigestScheme, table: Table, q: CompactionRequest,
                                            receipts: set<ObservationReceipt>)
    ensures forall id | id in Compact(scheme, table, q, receipts).0 ::
              id in table && Compact(scheme, table, q, receipts).0[id] == table[id]
  {
    hide Removable, Candidate;
  }

  /** The file text of a table: one member per row, in any order. */
  ghost predicate Serializes(items: seq<Item>, table: Table)
  {
    && (forall i | 0 <= i < |items| ::
          items[i].Row? && items[i].key in table && items[i].envelope == table[items[i].key].envelope)
    && (forall id | id in table :: exists i :: 0 <= i < |items| && items[i] == Row(id, table[id].envelope))
  }

  /** Keys are the identifiers of their rows, and retrieval can name each of them as a cursor. */
  ghost predicate Keyed(table: Table)
  {
    forall id | id in table :: table[id].envelope.recordID == id && id != "" && ByteLen(id) <= MaxRecordIDBytes
  }

  lemma {:induction false} LandedIDs(s: Submission)
    requires Lands(s)
    ensures s.record.recordID != "" && ByteLen(s.record.recordID) <= MaxRecordIDBytes
  {
    hide ByteLen, FirstFor;
    assert Blank("");
  }

  lemma {:induction false} ReachableIsKeyed(ops: seq<StoreOp>)
    ensures Keyed(TableAfter(ops))
  {
    hide Lands;
    hide TableAfter, ByteLen;
    RowsStem(ops);
    forall id | id in TableAfter(ops)
      ensures TableAfter(ops)[id].envelope.recordID == id && id != "" && ByteLen(id) <= MaxRecordIDBytes
    {
      var i :| 0 <= i < |ops| && ops[i].Submit? && Lands(ops[i].s) && ops[i].s.record.recordID == id
               && TableAfter(ops)[id].envelope == ReadBack(ops[i].s.record);
      LandedIDs(ops[i].s);
    }
  }

  /** A scan succeeds exactly when no member faults and the object ends cleanly. */
  lemma {:induction false} ScanPassesIff(items: seq<Item>, cleanEnd: bool, c: Capability)
    ensures ScanFault(items, cleanEnd, c).Pass? <==> cleanEnd && forall i | 0 <= i < |items| :: Fault(items[i], c).Pass?
  {
    hide Fault;
    if items != [] {
      ScanPassesIff(items[1..], cleanEnd, c);
      assert forall i | 1 <= i < |items| :: items[i] == items[1..][i - 1];
      assert forall i | 0 <= i < |items[1..]| :: items[1..][i] == items[i + 1];
    }
  }

  /** Every row of the store comes from a submission that was servable under this capability. */
  ghost predicate AllServable(ops: seq<StoreOp>, c: Capability)
  {
    forall id | id in TableAfter(ops) :: Servable(TableAfter(ops)[id].envelope, c)
  }

  lemma {:induction false} ServableSurvivesReadBack(record: RecordEnvelope, c: Capability)
    ensures Servable(ReadBack(record), c) == Servable(record, c)
  {
  }

  /**
   After any run of submissions and compactions, retrieval's scan of the whole store succeeds
   exactly when every row is servable: one live record stored with an empty payload, or one
   with another schema version, makes every page of the dataset fail.
   */
  lemma {:induction false} RetrievalServesIffAllServable(ops: seq<StoreOp>, items: seq<Item>, c: Capability)
    requires Serializes(items, TableAfter(ops)) && c.dataset == Dataset
    ensures ScanFault(items, true, RetrievalCapability(c)).Pass? <==> AllServable(ops, c)
  {
    hide Lands;
    hide TableAfter, ValidateRecord, Servable;
    var table, open := TableAfter(ops), RetrievalCapability(c);
    RowsStem(ops);
    ReachableIsKeyed(ops);
    ScanPassesIff(items, true, open);
    forall id | id in table
      ensures Fault(Row(id, table[id].envelope), open).Pass? <==> Servable(table[id].envelope, c)
    {
      var i :| 0 <= i < |ops| && ops[i].Submit? && Lands(ops[i].s) && ops[i].s.record.recordID == id
               && table[id].envelope == ReadBack(ops[i].s.record);
      LandedValidatesIff(ops[i].s, c);
      ServableSurvivesReadBack(ops[i].s.record, c);
    }
    forall i | 0 <= i < |items|
      ensures items[i] == Row(items[i].key, table[items[i].key].envelope)
    {
    }
    if ScanFault(items, true, open).Pass? {
      forall id | id in table
        ensures Servable(table[id].envelope, c)
      {
        var i :| 0 <= i < |items| && items[i] == Row(id, table[id].envelope);
        assert Fault(items[i], open).Pass?;
      }
    }
  }

  /** Servable submissions are enough: no run of them can build a store that retrieval refuses. */
  lemma {:induction false} ServableSubmissionsServe(ops: seq<StoreOp>, c: Capability)
    requires forall op | op in ops :: op.Submit? && Lands(op.s) ==> Servable(op.s.record, c)
    ensures AllServable(ops, c)
  {
    hide Lands;
    hide TableAfter, Servable;
    RowsStem(ops);
    forall id | id in TableAfter(ops)
      ensures Servable(TableAfter(ops)[id].envelope, c)
    {
      var i :| 0 <= i < |ops| && ops[i].Submit? && Lands(ops[i].s) && ops[i].s.record.recordID == id
               && TableAfter(ops)[id].envelope == ReadBack(ops[i].s.record);
      assert ops[i] in ops;
      ServableSurvivesReadBack(ops[i].s.record, c);
    }
  }

  /** Event `i` put its record into the store. */
  ghost predicate Stored(ops: seq<StoreOp>, i: nat)
    requires i < |ops|
  {
    && ops[i].Submit? && Lands(ops[i].s)
    && var (after, r) := (TableAfter(ops[..i + 1]), ops[i].s.record);
       r.recordID in after && after[r.recordID].envelope == ReadBack(r)
  }

  /** The first record of its identifier is always stored when it lands. */
  lemma {:induction false} FirstOfItsKindIsStored(ops: seq<StoreOp>, i: nat)
    requires i < |ops| && ops[i].Submit? && Lands(ops[i].s) && ops[i].s.record.recordID !in TableAfter(ops[..i])
    ensures Stored(ops, i)
  {
    hide Lands, Accept;
    assert ops[..i + 1][..i] == ops[..i];
    AcceptIsMerge(TableAfter(ops[..i]), ops[i].s);
  }

  /** No later landed submission of the same record outranks that of event `i`. */
  ghost predicate Unchallenged(ops: seq<StoreOp>, i: nat)
    requires i < |ops| && ops[i].Submit?
  {
    forall k | i < k < |ops| && ops[k].Submit? && Lands(ops[k].s)
        && ops[k].s.record.recordID == ops[i].s.record.recordID ::
      !Outranks(ops[k].s.record, ops[i].s.record)
  }

  /** A live row stays through any submissions and compactions until a record that outranks it lands. */
  lemma {:induction false} LiveRowStays(ops: seq<StoreOp>, i: nat)
    requires i < |ops| && Stored(ops, i) && !ops[i].s.record.deleted && Unchallenged(ops, i)
    ensures var (table, r) := (TableAfter(ops), ops[i].s.record);
            r.recordID in table && table[r.recordID].envelope == ReadBack(r)
  {
    hide Lands, Outranks, Compact, Accept;
    var n := |ops| - 1;
    if i == n {
      assert ops[..n + 1] == ops;
    } else {
      assert ops[..n][..i + 1] == ops[..i + 1];
      LiveRowStays(ops[..n], i);
      var (before, r) := (TableAfter(ops[..n]), ops[i].s.record);
      match ops[n] {
        case Submit(s) =>
          AcceptIsMerge(before, s);
          SameRank(s.record, r);
        case Collect(scheme, q, receipts) => CompactKeepsLive(scheme, before, q, receipts, r.recordID);
      }
    }
  }

  lemma {:induction false} SameRank(a: RecordEnvelope, b: RecordEnvelope)
    ensures Outranks(ReadBack(a), ReadBack(b)) == Outranks(a, b)
  {
    hide Below;
  }

  lemma {:induction false} CompactKeepsLive(scheme: DigestScheme, table: Table, q: CompactionRequest,
                                            receipts: set<ObservationReceipt>, id: string)
    requires id in table && !table[id].envelope.deleted
    ensures var after := Compact(scheme, table, q, receipts).0; id in after && after[id] == table[id]
  {
    hide Confirmed;
  }

  /**
   Accepted by the store, yet fatal for retrieval: once a live record with an empty payload map
   is stored, every scan fails until a record that outranks it lands.
   */
  lemma {:induction false} EmptyPayloadBlocksRetrieval(ops: seq<StoreOp>, i: nat, items: seq<Item>, c: Capability)
    requires i < |ops| && Stored(ops, i) && Unchallenged(ops, i)
    requires !ops[i].s.record.deleted && ops[i].s.record.payload == Fields(map[]) && c.dataset == Dataset
    requires Serializes(items, TableAfter(ops))
    ensures ScanFault(items, true, RetrievalCapability(c)).Fail?
  {
    hide Lands, TableAfter, ScanFault;
    LiveRowStays(ops, i);
    RetrievalServesIffAllServable(ops, items, c);
    assert !Servable(TableAfter(ops)[ops[i].s.record.recordID].envelope, c);
  }

  /** It takes one submission: from any store without the record, the very next scan already fails. */
  lemma {:induction false} EmptyPayloadStrikesAtOnce(ops: seq<StoreOp>, s: Submission, items: seq<Item>, c: Capability)
    requires Lands(s) && !s.record.deleted && s.record.payload == Fields(map[]) && c.dataset == Dataset
    requires s.record.recordID !in TableAfter(ops) && Serializes(items, TableAfter(ops + [Submit(s)]))
    ensures ScanFault(items, true, RetrievalCapability(c)).Fail?
  {
    hide Lands, TableAfter, ScanFault;
    var all := ops + [Submit(s)];
    assert all[..|ops|] == ops;
    FirstOfItsKindIsStored(all, |ops|);
    EmptyPayloadBlocksRetrieval(all, |ops|, items, c);
  }

  function Envelopes(table: Table): Rows
  {
    map id | id in table :: table[id].envelope
  }

  /** Some member is keyed `id`. */
  ghost predicate Listed(items: seq<Item>, id: string)
  {
    exists i :: 0 <= i < |items| && items[i].Row? && items[i].key == id
  }

  lemma {:induction false} ListedNext(items: seq<Item>, id: string)
    requires items != [] && items[|items| - 1].Row?
    ensures Listed(items, id) <==> Listed(items[..|items| - 1], id) || items[|items| - 1].key == id
  {
    var init := items[..|items| - 1];
    if Listed(items, id) {
      var i :| 0 <= i < |items| && items[i].Row? && items[i].key == id;
      assert i < |init| ==> init[i] == items[i];
    }
    if Listed(init, id) {
      var i :| 0 <= i < |init| && init[i].Row? && init[i].key == id;
      assert items[i] == init[i];
    }
  }

  /** Every member is a row of the table under its own key. */
  ghost predicate DrawnFrom(items: seq<Item>, table: Table)
  {
    forall i | 0 <= i < |items| ::
      items[i].Row? && items[i].key in table && items[i].envelope == table[items[i].key].envelope
  }

  lemma {:induction false} LatestOfPart(items: seq<Item>, table: Table)
    requires Keyed(table) && DrawnFrom(items, table)
    ensures forall id :: id in Latest(items, "") <==> id in table && Listed(items, id)
    ensures forall id | id in Latest(items, "") :: Latest(items, "")[id] == table[id].envelope
  {
    hide ByteLen, Listed;
    if items == [] {
      assert forall id :: !Listed(items, id) by {
        NoneListed();
      }
    } else {
      var (init, last) := (items[..|items| - 1], items[|items| - 1]);
      LatestOfPart(init, table);
      assert last.key in table && Less("", last.envelope.recordID);
      assert Latest(items, "") == Latest(init, "")[last.key := last.envelope];
      forall id
        ensures Listed(items, id) <==> Listed(init, id) || last.key == id
      {
        ListedNext(items, id);
      }
    }
  }

  lemma {:induction false} NoneListed()
    ensures forall id :: !Listed([], id)
  {
  }

  /** Pages are drawn from the store's own rows, and every cursor they return is accepted by retrieval. */
  lemma {:induction false} PagesShowTheStore(ops: seq<StoreOp>, items: seq<Item>, p: Page, after: string, limit: nat)
    requires Serializes(items, TableAfter(ops))
    requires limit >= 1 && IsPage(p, RowsOf(JsonObject(items, true)), after, limit)
    ensures RowsOf(JsonObject(items, true)) == Envelopes(TableAfter(ops))
    ensures ByteLen(p.nextAfter) <= MaxRecordIDBytes
  {
    hide TableAfter, Less;
    SerializedRows(ops, items);
    ReachableIsKeyed(ops);
    if p.nextAfter != "" {
      assert p.records[|p.records| - 1].recordID in TableAfter(ops);
    }
  }

  lemma {:induction false} SerializedRows(ops: seq<StoreOp>, items: seq<Item>)
    requires Serializes(items, TableAfter(ops))
    ensures Latest(items, "") == Envelopes(TableAfter(ops))
  {
    hide TableAfter, Latest, ByteLen;
    var table := TableAfter(ops);
    ReachableIsKeyed(ops);
    LatestOfPart(items, table);
    forall id | id in table
      ensures Listed(items, id)
    {
      var i :| 0 <= i < |items| && items[i] == Row(id, table[id].envelope);
      assert items[i].key == id;
    }
  }
}
