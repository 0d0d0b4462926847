/** Replicas that land the same records agree, whatever the order and the duplicates. */
module Convergence {
  import opened Records
  import opened Conflict
  import opened Policy
  import opened SearchHistory

  /** The table after a whole run of submissions against an empty store. */
  function Play(run: seq<Submission>): Table
  {
    if run == [] then map[] else Accept(Play(run[..|run| - 1]), run[|run| - 1]).0
  }

  /** A submission the store merges: right dataset, authorised, and no file error. */
  predicate Lands(s: Submission)
  {
    s.record.dataset == Dataset && Authorization(s).Success? && s.disk == Disk(true, true)
  }

  /** The landed records of a run, as they read back from the file. */
  function Landed(run: seq<Submission>): set<RecordEnvelope>
  {
    set i | 0 <= i < |run| && Lands(run[i]) :: ReadBack(run[i].record)
  }

  /** `r` is ranked highest among the records with its identifier. */
  ghost predicate IsWinner(r: RecordEnvelope, records: set<RecordEnvelope>)
  {
    r in records && forall q | q in records && q.recordID == r.recordID :: !Outranks(q, r)
  }

  /** Every record's identifier is present, and every row holds a winner. */
  ghost predicate HoldsWinners(table: Table, records: set<RecordEnvelope>)
  {
    && (forall r | r in records :: r.recordID in table)
    && (forall id | id in table :: table[id].envelope.recordID == id && IsWinner(table[id].envelope, records))
  }

  /** Last-writer-wins merge of one record into a table. */
  function Merged(table: Table, r: RecordEnvelope, evidence: AcceptanceEvidence): Table
  {
    if r.recordID in table && !Outranks(r, table[r.recordID].envelope) then table
    else table[r.recordID := PersistedRecord(r, evidence)]
  }

  /** A landed submission is one merge; any other leaves the table alone. */
  lemma {:induction false} AcceptIsMerge(table: Table, s: Submission)
    ensures Lands(s) ==> Accept(table, s).0 == Merged(table, ReadBack(s.record), Authorization(s).value)
    ensures !Lands(s) ==> Accept(table, s).0 == table
  {
    hide Policy.AuthorizeRecord;
    if s.record.recordID in table {
      ResolutionFollowsRank(table[s.record.recordID].envelope, s.record);
    }
  }

  lemma {:induction false} LandedExtends(run: seq<Submission>, s: Submission)
    ensures Landed(run + [s]) == Landed(run) + if Lands(s) then {ReadBack(s.record)} else {}
  {
    hide Lands;
    var all := run + [s];
    forall r | r in Landed(run)
      ensures r in Landed(all)
    {
      var i :| 0 <= i < |run| && Lands(run[i]) && ReadBack(run[i].record) == r;
      assert all[i] == run[i];
    }
    if Lands(s) {
      assert all[|run|] == s;
    }
  }

  lemma {:induction false} WinnerStays(w: RecordEnvelope, r: RecordEnvelope, records: set<RecordEnvelope>)
    requires IsWinner(w, records) && (w.recordID == r.recordID ==> !Outranks(r, w))
    ensures IsWinner(w, records + {r})
  {
  }

  lemma {:induction false} WinnerReplaced(w: RecordEnvelope, r: RecordEnvelope, records: set<RecordEnvelope>)
    requires IsWinner(w, records) && w.recordID == r.recordID && Outranks(r, w)
    ensures IsWinner(r, records + {r})
  {
    forall q | q in records + {r} && q.recordID == r.recordID
      ensures !Outranks(q, r)
    {
      BelowTotal(RankOf(r), RankOf(r));
      if Outranks(q, r) {
        BelowTransitive(RankOf(w), RankOf(r), RankOf(q));
      }
    }
  }

  lemma {:induction false} FirstOfItsKindWins(r: RecordEnvelope, records: set<RecordEnvelope>)
    requires forall q | q in records :: q.recordID != r.recordID
    ensures IsWinner(r, records + {r})
  {
    BelowTotal(RankOf(r), RankOf(r));
  }

  lemma {:induction false} MergeKeepsWinners(table: Table, records: set<RecordEnvelope>, r: RecordEnvelope,
                                             evidence: AcceptanceEvidence)
    requires HoldsWinners(table, records)
    ensures HoldsWinners(Merged(table, r, evidence), records + {r})
  {
    hide Outranks;
    var after, more := Merged(table, r, evidence), records + {r};
    forall id | id in after
      ensures after[id].envelope.recordID == id && IsWinner(after[id].envelope, more)
    {
      if id != r.recordID || (id in table && !Outranks(r, table[id].envelope)) {
        WinnerStays(table[id].envelope, r, records);
      } else if id in table {
        WinnerReplaced(table[id].envelope, r, records);
      } else {
        FirstOfItsKindWins(r, records);
      }
    }
  }

  lemma {:induction false} SubmissionKeepsWinners(table: Table, records: set<RecordEnvelope>, s: Submission)
    requires HoldsWinners(table, records)
    ensures HoldsWinners(Accept(table, s).0, records + if Lands(s) then {ReadBack(s.record)} else {})
  {
    hide Policy.AuthorizeRecord;
    hide HoldsWinners;
    AcceptIsMerge(table, s);
    if Lands(s) {
      MergeKeepsWinners(table, records, ReadBack(s.record), Authorization(s).value);
    } else {
      assert records + {} == records;
    }
  }

  /** The final table holds exactly the highest ranked landed record under every identifier. */
  lemma {:induction false} MaximumWins(run: seq<Submission>)
    ensures HoldsWinners(Play(run), Landed(run))
  {
    hide Lands;
    if run != [] {
      var before, s := run[..|run| - 1], run[|run| - 1];
      MaximumWins(before);
      LandedExtends(before, s);
      assert before + [s] == run;
      SubmissionKeepsWinners(Play(before), Landed(before), s);
    }
  }

  /** Two replicas that landed the same records agree on identifiers and ranks. */
  lemma {:induction false} ReplicasAgree(left: seq<Submission>, right: seq<Submission>)
    requires Landed(left) == Landed(right)
    ensures Play(left).Keys == Play(right).Keys
    ensures forall id | id in Play(left) :: RankOf(Play(left)[id].envelope) == RankOf(Play(right)[id].envelope)
  {
    hide Lands, Accept, Below;
    MaximumWins(left);
    MaximumWins(right);
    forall id | id in Play(left)
      ensures RankOf(Play(left)[id].envelope) == RankOf(Play(right)[id].envelope)
    {
      BelowTotal(RankOf(Play(left)[id].envelope), RankOf(Play(right)[id].envelope));
    }
  }

  /** Identifier and rank single out one record. */
  ghost predicate RankDetermines(records: set<RecordEnvelope>)
  {
    forall a, b | a in records && b in records && a.recordID == b.recordID && RankOf(a) == RankOf(b) :: a == b
  }

  /** Whole envelopes agree too when rank determines the record. */
  lemma {:induction false} EnvelopesAgree(left: seq<Submission>, right: seq<Submission>)
    requires Landed(left) == Landed(right) && RankDetermines(Landed(left))
    ensures forall id | id in Play(left) :: id in Play(right) && Play(left)[id].envelope == Play(right)[id].envelope
  {
    hide Lands, Accept, Outranks;
    MaximumWins(left);
    MaximumWins(right);
    ReplicasAgree(left, right);
  }

  /**
   That hypothesis is exact: two landed submissions leave the same envelopes in both orders
   exactly when rank determines the record among them.
   */
  lemma {:induction false} OrdersAgreeIff(a: Submission, b: Submission)
    requires Lands(a) && Lands(b)
    ensures Landed([a, b]) == Landed([b, a]) == {ReadBack(a.record), ReadBack(b.record)}
    ensures (forall id | id in Play([a, b]) ::
               id in Play([b, a]) && Play([a, b])[id].envelope == Play([b, a])[id].envelope)
       <==> RankDetermines({ReadBack(a.record), ReadBack(b.record)})
  {
    hide Lands, Outranks, Accept, Play, Landed, RankDetermines;
    LandedPair(a, b);
    LandedPair(b, a);
    if RankDetermines({ReadBack(a.record), ReadBack(b.record)}) {
      EnvelopesAgree([a, b], [b, a]);
    } else {
      NotDetermined(a.record, b.record);
      FirstOfTiedStays(a, b);
      FirstOfTiedStays(b, a);
      assert a.record.recordID in Play([a, b]);
    }
  }

  lemma {:induction false} LandedPair(a: Submission, b: Submission)
    requires Lands(a) && Lands(b)
    ensures Landed([a, b]) == {ReadBack(a.record), ReadBack(b.record)}
  {
    hide Lands;
    LandedExtends([], a);
    LandedExtends([a], b);
    assert [] + [a] == [a] && [a] + [b] == [a, b];
  }

  lemma {:induction false} NotDetermined(a: RecordEnvelope, b: RecordEnvelope)
    requires !RankDetermines({ReadBack(a), ReadBack(b)})
    ensures a.recordID == b.recordID && RankOf(a) == RankOf(b) && ReadBack(a) != ReadBack(b)
  {
  }

  lemma {:induction false} FirstOfTiedStays(a: Submission, b: Submission)
    requires Lands(a) && Lands(b) && a.record.recordID == b.record.recordID
    requires RankOf(a.record) == RankOf(b.record)
    ensures a.record.recordID in Play([a, b]) && Play([a, b])[a.record.recordID].envelope == ReadBack(a.record)
  {
    hide Policy.AuthorizeRecord;
    hide Accept, Below;
    assert [a][..0] == [] && [a, b][..1] == [a];
    assert Play([a]) == Accept(Play([]), a).0;
    assert Play([a, b]) == Accept(Play([a]), b).0;
    AcceptIsMerge(map[], a);
    AcceptIsMerge(Play([a]), b);
    BelowTotal(RankOf(a.record), RankOf(b.record));
  }

  /** A success means that the file holds a row at least as high, whose evidence is the answer. */
  lemma {:induction false} SuccessIsHeld(table: Table, s: Submission)
    requires Accept(table, s).1.Success?
    ensures var (after, r) := Accept(table, s);
            && s.record.recordID in after
            && !Outranks(s.record, after[s.record.recordID].envelope)
            && after[s.record.recordID].evidence == r.value
  {
    hide Policy.AuthorizeRecord, ReadBack;
    ResolveReadBack(s.record);
    BelowTotal(RankOf(s.record), RankOf(s.record));
    if s.record.recordID in table {
      ResolutionFollowsRank(table[s.record.recordID].envelope, s.record);
    }
  }

  lemma {:induction false} ResolveReadBack(r: RecordEnvelope)
    ensures RankOf(ReadBack(r)) == RankOf(r)
  {
  }

  /**
   What it takes to change the store: an entitled search.history record, working files, and a
   rank above the present row.  The new row is the record, as it reads back, with its evidence.
   */
  lemma {:induction false} StoreChangesIff(table: Table, s: Submission)
    ensures Accept(table, s).0 != table
       <==> && s.record.dataset == "search.history" && Entitled(s.record, s.peer, s.privacy, s.trust)
            && s.disk.readable && s.disk.writable
            && (s.record.recordID in table ==> Outranks(s.record, table[s.record.recordID].envelope))
    ensures Accept(table, s).0 != table ==>
              Accept(table, s).0
              == table[s.record.recordID := PersistedRecord(ReadBack(s.record), Authorization(s).value)]
  {
    hide Policy.AuthorizeRecord, Entitled, Outranks;
    AuthorizedIff(s.record, s.peer, s.privacy, s.trust, s.now);
    if Accept(table, s).0 == table && s.record.recordID in table {
      BelowTotal(RankOf(s.record), RankOf(s.record));
      RankOutranks(s.record, s.record);
      ResolveReadBack(s.record);
    }
    if s.record.recordID in table {
      ResolutionFollowsRank(table[s.record.recordID].envelope, s.record);
      RankOutranks(s.record, table[s.record.recordID].envelope);
    }
  }

  lemma {:induction false} RankOutranks(a: RecordEnvelope, b: RecordEnvelope)
    ensures Outranks(a, b) <==> Below(RankOf(b), RankOf(a))
    ensures Outranks(a, b) ==> RankOf(a) != RankOf(b)
  {
    BelowTotal(RankOf(a), RankOf(b));
  }
}
