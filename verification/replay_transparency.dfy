/** When ingesting behind the replay guard leaves the same store as ingesting without it. */
module ReplayTransparency {
  import opened Records
  import opened Conflict
  import opened SearchHistory
  import opened Convergence
  import opened Replay
  import opened Ingest
  import opened ReplicationRuns

  /** A run of requests, each of which the guard could save its mark for. */
  function IngestAll(setup: Setup, run: seq<Request>): Node
  {
    if run == [] then EmptyNode else IngestStep(setup, IngestAll(setup, run[..|run| - 1]), run[|run| - 1]).0
  }

  function Unguarded(setup: Setup): Setup
  {
    setup.(guarded := false)
  }

  function KeyOfRequest(q: Request): ReplayKey
  {
    KeyOf(q.peer.deviceID, q.record)
  }

  ghost predicate MarksSave(run: seq<Request>)
  {
    forall q | q in run :: q.guardWritable
  }

  lemma {:induction false} IngestNext(setup: Setup, run: seq<Request>, n: nat)
    requires n < |run|
    ensures IngestAll(setup, run[..n + 1]) == IngestStep(setup, IngestAll(setup, run[..n]), run[n]).0
  {
    assert run[..n + 1][..n] == run[..n];
  }

  /** An earlier presented request carried the same key at this revision or a later one. */
  ghost predicate SeenBefore(run: seq<Request>, n: nat, key: ReplayKey, revision: Revision)
    requires n <= |run|
  {
    exists i :: 0 <= i < n && Presented(run[i]) && KeyOfRequest(run[i]) == key && revision <= run[i].record.revision
  }

  lemma {:induction false} IngestGuards(setup: Setup, node: Node, q: Request)
    requires setup.guarded && q.guardWritable
    ensures var after := IngestStep(setup, node, q).0;
            && (!Presented(q) ==> after == node)
            && (Presented(q) ==>
                 after.marks == if MarkCovers(node.marks, KeyOfRequest(q), q.record.revision) then node.marks
                                else node.marks[KeyOfRequest(q) := q.record.revision])
  {
    hide SearchHistory.Accept;
  }

  /** The marks answer exactly which revisions were presented before, accepted or not. */
  lemma {:induction false} MarksRememberPresented(setup: Setup, run: seq<Request>, n: nat, key: ReplayKey,
                                                  revision: Revision)
    requires setup.guarded && n <= |run| && MarksSave(run)
    ensures MarkCovers(IngestAll(setup, run[..n]).marks, key, revision) <==> SeenBefore(run, n, key, revision)
  {
    hide IngestStep, Presented;
    if n > 0 {
      MarksRememberPresented(setup, run, n - 1, key, revision);
      var q := run[n - 1];
      MarksRememberPresented(setup, run, n - 1, key, q.record.revision);
      IngestNext(setup, run, n - 1);
      IngestGuards(setup, IngestAll(setup, run[..n - 1]), q);
      if Presented(q) && KeyOfRequest(q) == key && revision <= q.record.revision {
        assert SeenBefore(run, n, key, revision);
      }
      if SeenBefore(run, n - 1, key, revision) {
        var i :| 0 <= i < n - 1 && Presented(run[i]) && KeyOfRequest(run[i]) == key
            && revision <= run[i].record.revision;
        assert SeenBefore(run, n, key, revision);
      }
    }
  }

  /** The table's row for `r` is at least as high in rank. */
  predicate Dominates(table: Table, r: RecordEnvelope)
  {
    r.recordID in table && !Outranks(r, table[r.recordID].envelope)
  }

  lemma {:induction false} MergeDominates(table: Table, r: RecordEnvelope, evidence: Policy.AcceptanceEvidence)
    ensures Dominates(Merged(table, r, evidence), r)
    ensures forall e | Dominates(table, e) :: Dominates(Merged(table, r, evidence), e)
  {
    BelowTotal(RankOf(r), RankOf(r));
    forall e | Dominates(table, e)
      ensures Dominates(Merged(table, r, evidence), e)
    {
      if e.recordID == r.recordID && Outranks(r, table[e.recordID].envelope) && Outranks(e, r) {
        BelowTransitive(RankOf(table[e.recordID].envelope), RankOf(r), RankOf(e));
      }
    }
  }

  lemma {:induction false} UnguardedIngestMerges(setup: Setup, node: Node, q: Request)
    requires !setup.guarded
    ensures var after := IngestStep(setup, node, q).0;
            if Presented(q) && q.privacy.Some? && q.trust.Some? && setup.history && Lands(SubmissionOf(q)) then
              after.table == Merged(node.table, ReadBack(q.record), Authorization(SubmissionOf(q)).value)
            else after.table == node.table
  {
    hide Policy.AuthorizeRecord;
    hide Outranks;
    if q.privacy.Some? && q.trust.Some? {
      AcceptIsMerge(node.table, SubmissionOf(q));
    }
  }

  lemma {:induction false} AuthorisedIsDominated(setup: Setup, run: seq<Request>, i: nat, n: nat)
    requires !setup.guarded && setup.history && i < n <= |run|
    requires Presented(run[i]) && Authorised(run[i])
    ensures Dominates(IngestAll(setup, run[..n]).table, run[i].record)
    decreases n
  {
    hide IngestStep, Presented, Lands, Merged, Outranks;
    IngestNext(setup, run, n - 1);
    var before, q := IngestAll(setup, run[..n - 1]), run[n - 1];
    UnguardedIngestMerges(setup, before, q);
    if Presented(q) && q.privacy.Some? && q.trust.Some? && Lands(SubmissionOf(q)) {
      LandsIsAuthorised(SubmissionOf(q));
      MergeDominates(before.table, ReadBack(q.record), Authorization(SubmissionOf(q)).value);
    }
    if i < n - 1 {
      AuthorisedIsDominated(setup, run, i, n - 1);
    } else {
      SameRankDominates(IngestAll(setup, run[..n]).table, run[i].record);
    }
  }

  lemma {:induction false} LandsIsAuthorised(s: Submission)
    requires Lands(s)
    ensures Authorization(s).Success?
  {
  }

  lemma {:induction false} SameRankDominates(table: Table, r: RecordEnvelope)
    ensures Dominates(table, ReadBack(r)) == Dominates(table, r)
  {
  }

  /** No earlier authorised request for the same record ranks at least as high. */
  ghost predicate OutranksEarlier(run: seq<Request>, j: nat)
    requires j < |run|
  {
    forall i | 0 <= i < j && Presented(run[i]) && Authorised(run[i])
        && run[i].record.recordID == run[j].record.recordID ::
      Outranks(run[j].record, run[i].record)
  }

  /**
   Request `j` is authorised and would win, but an earlier request, authorised or not, carried
   its key at this revision or a later one.
   */
  ghost predicate Shadowed(setup: Setup, run: seq<Request>, j: nat)
  {
    && j < |run| && setup.history && Presented(run[j]) && Authorised(run[j]) && OutranksEarlier(run, j)
    && SeenBefore(run, j, KeyOfRequest(run[j]), run[j].record.revision)
  }

  /** The store part of an ingest depends only on the store, once the guard lets the request through. */
  lemma {:induction false} StorePartAgrees(setup: Setup, g: Node, u: Node, q: Request)
    requires setup.guarded && q.guardWritable && g.table == u.table
    ensures var (guarded, free) := (IngestStep(setup, g, q).0.table, IngestStep(Unguarded(setup), u, q).0.table);
            && (Presented(q) && MarkCovers(g.marks, KeyOfRequest(q), q.record.revision) ==> guarded == g.table)
            && (!Presented(q) ==> guarded == g.table && free == u.table)
            && (!MarkCovers(g.marks, KeyOfRequest(q), q.record.revision) ==> guarded == free)
  {
    hide SearchHistory.Accept;
  }

  /** Request `j` changes the unguarded store. */
  ghost predicate Changes(setup: Setup, run: seq<Request>, j: nat)
    requires j < |run|
  {
    IngestAll(Unguarded(setup), run[..j + 1]).table != IngestAll(Unguarded(setup), run[..j]).table
  }

  lemma {:induction false} UnguardedRowStems(setup: Setup, run: seq<Request>, n: nat, id: string)
    requires !setup.guarded && setup.history && n <= |run| && id in IngestAll(setup, run[..n]).table
    ensures exists i :: 0 <= i < n && Presented(run[i]) && Authorised(run[i]) && run[i].record.recordID == id
                        && IngestAll(setup, run[..n]).table[id].envelope == ReadBack(run[i].record)
  {
    hide IngestStep, Presented, Lands, Outranks;
    if n > 0 {
      IngestNext(setup, run, n - 1);
      UnguardedIngestMerges(setup, IngestAll(setup, run[..n - 1]), run[n - 1]);
      var before := IngestAll(setup, run[..n - 1]).table;
      if id in before && before[id] == IngestAll(setup, run[..n]).table[id] {
        UnguardedRowStems(setup, run, n - 1, id);
      } else {
        assert Authorised(run[n - 1]);
      }
    }
  }

  /** A request changes the unguarded store exactly when it is authorised and outranks every earlier authorised one. */
  lemma {:induction false} ChangesIffWins(setup: Setup, run: seq<Request>, j: nat)
    requires j < |run|
    ensures Changes(setup, run, j)
       <==> setup.history && Presented(run[j]) && Authorised(run[j]) && OutranksEarlier(run, j)
  {
    hide IngestStep, Presented, Lands, Outranks, Merged, OutranksEarlier;
    var (q, u) := (run[j], Unguarded(setup));
    var before := IngestAll(u, run[..j]);
    IngestNext(u, run, j);
    UnguardedIngestMerges(u, before, q);
    if setup.history && Presented(q) && Authorised(q) {
      LandsIsAuthorised(SubmissionOf(q));
      MergeChangesIff(before.table, ReadBack(q.record), Authorization(SubmissionOf(q)).value);
      SameRankDominates(before.table, q.record);
      WinsIff(u, run, j);
    }
  }

  lemma {:induction false} MergeChangesIff(table: Table, r: RecordEnvelope, evidence: Policy.AcceptanceEvidence)
    ensures Merged(table, r, evidence) != table <==> !Dominates(table, r)
  {
    BelowTotal(RankOf(r), RankOf(r));
    if r.recordID in table && Outranks(r, table[r.recordID].envelope) {
      assert Merged(table, r, evidence)[r.recordID].envelope == r;
    }
  }

  lemma {:induction false} WinsIff(setup: Setup, run: seq<Request>, j: nat)
    requires !setup.guarded && setup.history && j < |run|
    ensures !Dominates(IngestAll(setup, run[..j]).table, run[j].record) <==> OutranksEarlier(run, j)
  {
    hide IngestAll, Presented, Authorised;
    var (table, r) := (IngestAll(setup, run[..j]).table, run[j].record);
    if Dominates(table, r) {
      UnguardedRowStems(setup, run, j, r.recordID);
    } else {
      forall i | 0 <= i < j && Presented(run[i]) && Authorised(run[i]) && run[i].record.recordID == r.recordID
        ensures Outranks(r, run[i].record)
      {
        AuthorisedIsDominated(setup, run, i, j);
        var row := table[r.recordID].envelope;
        BelowTotal(RankOf(run[i].record), RankOf(row));
        if Below(RankOf(run[i].record), RankOf(row)) {
          BelowTransitive(RankOf(run[i].record), RankOf(row), RankOf(r));
        }
      }
    }
  }

  ghost predicate StoresAgree(setup: Setup, run: seq<Request>, n: nat)
    requires n <= |run|
  {
    IngestAll(setup, run[..n]).table == IngestAll(Unguarded(setup), run[..n]).table
  }

  lemma {:induction false} AgreementStep(setup: Setup, run: seq<Request>, n: nat)
    requires setup.guarded && MarksSave(run) && n < |run| && StoresAgree(setup, run, n)
    ensures StoresAgree(setup, run, n + 1) <==> !Shadowed(setup, run, n)
  {
    hide IngestStep, Presented, Authorised, SeenBefore, OutranksEarlier;
    ChangesIffWins(setup, run, n);
    var q := run[n];
    var g, u := IngestAll(setup, run[..n]), IngestAll(Unguarded(setup), run[..n]);
    IngestNext(setup, run, n);
    IngestNext(Unguarded(setup), run, n);
    StorePartAgrees(setup, g, u, q);
    MarksRememberPresented(setup, run, n, KeyOfRequest(q), q.record.revision);
  }

  lemma {:induction false} AgreeUpTo(setup: Setup, run: seq<Request>, n: nat)
    requires setup.guarded && MarksSave(run) && n <= |run|
    requires forall j | 0 <= j < n :: !Shadowed(setup, run, j)
    ensures StoresAgree(setup, run, n)
  {
    hide IngestStep, Shadowed;
    if n > 0 {
      AgreeUpTo(setup, run, n - 1);
      AgreementStep(setup, run, n - 1);
    }
  }

  /** The guarded and the unguarded store agree throughout a run exactly when no request is shadowed. */
  lemma {:induction false} GuardTransparentIffNothingShadowed(setup: Setup, run: seq<Request>)
    requires setup.guarded && MarksSave(run)
    ensures (forall n | 0 <= n <= |run| :: StoresAgree(setup, run, n)) <==>
              (forall j | 0 <= j < |run| :: !Shadowed(setup, run, j))
  {
    hide IngestStep, Shadowed, StoresAgree;
    if forall j | 0 <= j < |run| :: !Shadowed(setup, run, j) {
      forall n | 0 <= n <= |run|
        ensures StoresAgree(setup, run, n)
      {
        AgreeUpTo(setup, run, n);
      }
    }
    if forall n | 0 <= n <= |run| :: StoresAgree(setup, run, n) {
      forall j | 0 <= j < |run|
        ensures !Shadowed(setup, run, j)
      {
        assert StoresAgree(setup, run, j) && StoresAgree(setup, run, j + 1);
        AgreementStep(setup, run, j);
      }
    }
  }

  /** Device, dataset, identifier and revision determine the record. */
  ghost predicate RevisionDetermines(run: seq<Request>)
  {
    forall a, b | a in run && b in run && KeyOfRequest(a) == KeyOfRequest(b)
        && a.record.revision == b.record.revision ::
      a.record == b.record
  }

  /**
   With authorised records whose revision determines them and with saves succeeding, everything
   the guard rejects would have lost anyway: both stores are equal after every request.
   */
  lemma {:induction false} GuardIsTransparent(setup: Setup, run: seq<Request>)
    requires setup.guarded && MarksSave(run) && RevisionDetermines(run)
    requires forall q | q in run && Presented(q) :: Authorised(q)
    ensures forall n | 0 <= n <= |run| :: StoresAgree(setup, run, n)
  {
    hide IngestStep, Presented, Authorised, StoresAgree, Shadowed;
    forall j | 0 <= j < |run|
      ensures !Shadowed(setup, run, j)
    {
      NothingIsShadowed(setup, run, j);
    }
    GuardTransparentIffNothingShadowed(setup, run);
  }

  lemma {:induction false} NothingIsShadowed(setup: Setup, run: seq<Request>, j: nat)
    requires RevisionDetermines(run) && j < |run|
    requires forall q | q in run && Presented(q) :: Authorised(q)
    ensures !Shadowed(setup, run, j)
  {
    hide Presented, Authorised;
    var q := run[j];
    if Presented(q) && SeenBefore(run, j, KeyOfRequest(q), q.record.revision) {
      var i :| 0 <= i < j && Presented(run[i]) && KeyOfRequest(run[i]) == KeyOfRequest(q)
               && q.record.revision <= run[i].record.revision;
      assert run[i] in run && q in run;
      BelowTotal(RankOf(q.record), RankOf(run[i].record));
    }
  }

  lemma {:induction false} AuthorisedFacts(q: Request)
    requires Authorised(q)
    ensures q.privacy.Some? && q.trust.Some? && Lands(SubmissionOf(q)) && Authorization(SubmissionOf(q)).Success?
  {
  }

  /**
   The guard advances before policy is asked.  A signed request that policy refuses therefore
   keeps out an authorised one of the same or a lower revision, which the unguarded store takes.
   */
  lemma {:induction false} RefusedRequestShadows(setup: Setup, refused: Request, good: Request)
    requires setup.guarded && setup.history && refused.guardWritable && good.guardWritable
    requires Presented(refused) && !Authorised(refused)
    requires Presented(good) && Authorised(good) && KeyOfRequest(good) == KeyOfRequest(refused)
    requires good.record.revision <= refused.record.revision
    ensures good.record.recordID in IngestAll(Unguarded(setup), [refused, good]).table
    ensures IngestAll(setup, [refused, good]).table == map[]
  {
    hide IngestStep, Presented, Authorised, Outranks;
    var run, u := [refused, good], Unguarded(setup);
    IngestNext(u, run, 0);
    IngestNext(u, run, 1);
    IngestNext(setup, run, 0);
    IngestNext(setup, run, 1);
    assert run[..2] == run;
    UnguardedIngestMerges(u, EmptyNode, refused);
    RefusedFacts(refused);
    UnguardedIngestMerges(u, IngestAll(u, run[..1]), good);
    AuthorisedFacts(good);
    StorePartAgrees(setup, EmptyNode, EmptyNode, refused);
    MarksRememberPresented(setup, run, 1, KeyOfRequest(good), good.record.revision);
    assert SeenBefore(run, 1, KeyOfRequest(good), good.record.revision) by {
      assert run[0] == refused;
    }
    StorePartAgrees(setup, IngestAll(setup, run[..1]), IngestAll(setup, run[..1]), good);
  }

  lemma {:induction false} RefusedFacts(q: Request)
    requires !Authorised(q)
    ensures q.privacy.None? || q.trust.None? || !Lands(SubmissionOf(q))
  {
  }
}
