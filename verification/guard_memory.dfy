/** Exactly which revisions a persistent replay guard still knows, over runs with failures and restarts. */
module GuardMemory {
  import opened Outcomes
  import opened Records
  import opened SearchHistory
  import opened Convergence
  import opened Replay
  import opened Receipts
  import opened Compaction
  import opened Ingest
  import opened ReplicationRuns

  /** What the guard says to event `k`, if the event gets as far as the guard. */
  ghost function GuardSays(setup: Setup, run: seq<Event>, k: nat): Option<Verdict>
    requires k < |run|
  {
    if run[k].Ingested? && Presented(run[k].q) then Some(GuardStep(setup, After(setup, run[..k]), run[k].q).1) else None
  }

  function KeyAt(e: Event): ReplayKey
    requires e.Ingested?
  {
    KeyOf(e.q.peer.deviceID, e.q.record)
  }

  /** The guard accepted event `k` and saved its mark. */
  ghost predicate Marked(setup: Setup, run: seq<Event>, k: nat)
  {
    k < |run| && GuardSays(setup, run, k) == Some(Accepted)
  }

  /** Event `k` lost the mark of `key`: its own could not be saved. */
  ghost predicate Lost(setup: Setup, run: seq<Event>, k: nat, key: ReplayKey)
  {
    k < |run| && GuardSays(setup, run, k) == Some(SaveFailed) && KeyAt(run[k]) == key
  }

  /** The file was not rewritten by events `f + 1`, ..., `s - 1`. */
  ghost predicate FileUntouched(setup: Setup, run: seq<Event>, f: nat, s: nat)
  {
    forall k | f < k < s :: !Marked(setup, run, k)
  }

  /** After losing a mark at `f`, a restart before `n` read it back before the file was rewritten. */
  ghost predicate Healed(setup: Setup, run: seq<Event>, f: nat, n: nat)
    requires n <= |run|
  {
    exists s :: f < s < n && run[s].Restarted? && FileUntouched(setup, run, f, s)
  }

  /** Event `i` marked `key` at `revision` or later. */
  ghost predicate MarkedAt(setup: Setup, run: seq<Event>, i: nat, key: ReplayKey, revision: Revision)
  {
    Marked(setup, run, i) && KeyAt(run[i]) == key && revision <= run[i].q.record.revision
  }

  /** An accepted request is remembered while every later loss of its key has been healed. */
  ghost predicate Remembered(setup: Setup, run: seq<Event>, n: nat, key: ReplayKey, revision: Revision)
    requires n <= |run|
  {
    exists i :: 0 <= i < n && MarkedAt(setup, run, i, key, revision)
                && forall f | i < f < n && Lost(setup, run, f, key) :: Healed(setup, run, f, n)
  }

  /** The same of the file: a loss that a restart would still heal does not count. */
  ghost predicate OnFile(setup: Setup, run: seq<Event>, n: nat, key: ReplayKey, revision: Revision)
    requires n <= |run|
  {
    exists i :: 0 <= i < n && MarkedAt(setup, run, i, key, revision)
                && forall f | i < f < n && Lost(setup, run, f, key) ::
                     Healed(setup, run, f, n) || FileUntouched(setup, run, f, n)
  }

  /** Marks and file after one more event. */
  lemma {:induction false} EventMovesMarks(setup: Setup, run: seq<Event>, n: nat)
    requires Durable(setup) && n < |run|
    ensures var (before, after, v) := (After(setup, run[..n]), After(setup, run[..n + 1]), GuardSays(setup, run, n));
            if run[n].Restarted? then after.marks == after.saved == before.saved
            else if v == Some(Accepted) then
              && !MarkCovers(before.marks, KeyAt(run[n]), run[n].q.record.revision)
              && after.marks == after.saved == before.marks[KeyAt(run[n]) := run[n].q.record.revision]
            else if v == Some(SaveFailed) then
              after.marks == before.marks - {KeyAt(run[n])} && after.saved == before.saved
            else after.marks == before.marks && after.saved == before.saved
  {
    hide IngestStep;
    AfterNext(setup, run, n);
    if run[n].Ingested? {
      IngestMarksBeforeReceipts(setup, After(setup, run[..n]), run[n].q);
    }
  }

  /** Healing by one more event: only a restart heals, and only while the file is untouched. */
  lemma {:induction false} HealedNext(setup: Setup, run: seq<Event>, f: nat, n: nat)
    requires f < n < |run|
    ensures Healed(setup, run, f, n + 1)
       <==> Healed(setup, run, f, n) || (run[n].Restarted? && FileUntouched(setup, run, f, n))
  {
    hide FileUntouched;
    if Healed(setup, run, f, n + 1) {
      var s :| f < s < n + 1 && run[s].Restarted? && FileUntouched(setup, run, f, s);
      assert s < n ==> Healed(setup, run, f, n);
    }
    if Healed(setup, run, f, n) {
      var s :| f < s < n && run[s].Restarted? && FileUntouched(setup, run, f, s);
    }
  }

  lemma {:induction false} UntouchedNext(setup: Setup, run: seq<Event>, f: nat, n: nat)
    requires f < n < |run|
    ensures FileUntouched(setup, run, f, n + 1) <==> FileUntouched(setup, run, f, n) && !Marked(setup, run, n)
  {
    hide Marked;
  }

  /** How both memories change when event `n` is none of the guard's business or a refused replay. */
  ghost predicate Idle(setup: Setup, run: seq<Event>, n: nat)
    requires n < |run|
  {
    !run[n].Restarted? && GuardSays(setup, run, n) != Some(Accepted) && GuardSays(setup, run, n) != Some(SaveFailed)
  }

  lemma {:induction false} IdleKeeps(setup: Setup, run: seq<Event>, n: nat, key: ReplayKey, revision: Revision)
    requires n < |run| && Idle(setup, run, n)
    ensures Remembered(setup, run, n + 1, key, revision) <==> Remembered(setup, run, n, key, revision)
    ensures OnFile(setup, run, n + 1, key, revision) <==> OnFile(setup, run, n, key, revision)
  {
    hide GuardSays, FileUntouched, Healed;
    forall f: nat | f < n
      ensures Healed(setup, run, f, n + 1) <==> Healed(setup, run, f, n)
      ensures FileUntouched(setup, run, f, n + 1) <==> FileUntouched(setup, run, f, n)
    {
      HealedNext(setup, run, f, n);
      UntouchedNext(setup, run, f, n);
    }
    assert !Marked(setup, run, n) && !Lost(setup, run, n, key);
  }

  lemma {:induction false} RestartKeeps(setup: Setup, run: seq<Event>, n: nat, key: ReplayKey, revision: Revision)
    requires n < |run| && run[n].Restarted?
    ensures Remembered(setup, run, n + 1, key, revision) <==> OnFile(setup, run, n, key, revision)
    ensures OnFile(setup, run, n + 1, key, revision) <==> OnFile(setup, run, n, key, revision)
  {
    hide FileUntouched, Healed;
    assert !Marked(setup, run, n) && !Lost(setup, run, n, key);
    forall f: nat | f < n
      ensures Healed(setup, run, f, n + 1) <==> Healed(setup, run, f, n) || FileUntouched(setup, run, f, n)
      ensures FileUntouched(setup, run, f, n + 1) <==> FileUntouched(setup, run, f, n)
    {
      HealedNext(setup, run, f, n);
      UntouchedNext(setup, run, f, n);
    }
  }

  lemma {:induction false} MarkKeeps(setup: Setup, run: seq<Event>, n: nat, key: ReplayKey, revision: Revision)
    requires n < |run| && Marked(setup, run, n)
    ensures Remembered(setup, run, n + 1, key, revision)
       <==> MarkedAt(setup, run, n, key, revision) || Remembered(setup, run, n, key, revision)
    ensures OnFile(setup, run, n + 1, key, revision) <==> Remembered(setup, run, n + 1, key, revision)
  {
    hide FileUntouched, Healed;
    assert !run[n].Restarted? && !Lost(setup, run, n, key);
    forall f: nat | f < n
      ensures Healed(setup, run, f, n + 1) <==> Healed(setup, run, f, n)
      ensures !FileUntouched(setup, run, f, n + 1)
    {
      HealedNext(setup, run, f, n);
      UntouchedNext(setup, run, f, n);
    }
  }

  lemma {:induction false} LossKeeps(setup: Setup, run: seq<Event>, n: nat, key: ReplayKey, revision: Revision)
    requires n < |run| && GuardSays(setup, run, n) == Some(SaveFailed)
    ensures Remembered(setup, run, n + 1, key, revision)
       <==> KeyAt(run[n]) != key && Remembered(setup, run, n, key, revision)
    ensures OnFile(setup, run, n + 1, key, revision) <==> OnFile(setup, run, n, key, revision)
  {
    hide Healed;
    assert !run[n].Restarted? && !Marked(setup, run, n);
    assert FileUntouched(setup, run, n, n + 1) && !Healed(setup, run, n, n + 1) by {
      NotHealedAtOnce(setup, run, n);
    }
    forall f: nat | f < n
      ensures Healed(setup, run, f, n + 1) <==> Healed(setup, run, f, n)
      ensures FileUntouched(setup, run, f, n + 1) <==> FileUntouched(setup, run, f, n)
    {
      HealedNext(setup, run, f, n);
      UntouchedNext(setup, run, f, n);
    }
    assert Lost(setup, run, n, key) <==> KeyAt(run[n]) == key;
  }

  lemma {:induction false} NotHealedAtOnce(setup: Setup, run: seq<Event>, n: nat)
    requires n < |run|
    ensures !Healed(setup, run, n, n + 1)
  {
  }

  /**
   The marks cover a revision exactly when some accepted request of its key carried that
   revision or a later one, and every later loss of the key's mark was followed by a restart
   that came before the guard's file was rewritten.  The file covers it under the same
   condition, except for losses that a restart would still heal.
   */
  lemma {:induction false} MarksRemember(setup: Setup, run: seq<Event>, n: nat, key: ReplayKey, revision: Revision)
    requires Durable(setup) && n <= |run|
    ensures MarkCovers(After(setup, run[..n]).marks, key, revision) <==> Remembered(setup, run, n, key, revision)
    ensures MarkCovers(After(setup, run[..n]).saved, key, revision) <==> OnFile(setup, run, n, key, revision)
  {
    hide Step, GuardSays, Remembered, OnFile;
    if n == 0 {
      NothingRemembered(setup, run, key, revision);
    } else {
      var k := n - 1;
      MarksRemember(setup, run, k, key, revision);
      EventMovesMarks(setup, run, k);
      if run[k].Restarted? {
        RestartKeeps(setup, run, k, key, revision);
      } else if GuardSays(setup, run, k) == Some(Accepted) {
        MarkKeeps(setup, run, k, key, revision);
      } else if GuardSays(setup, run, k) == Some(SaveFailed) {
        LossKeeps(setup, run, k, key, revision);
      } else {
        IdleKeeps(setup, run, k, key, revision);
      }
    }
  }

  lemma {:induction false} NothingRemembered(setup: Setup, run: seq<Event>, key: ReplayKey, revision: Revision)
    ensures !Remembered(setup, run, 0, key, revision) && !OnFile(setup, run, 0, key, revision)
  {
  }

  /** Every receipt was written behind an accepted and saved mark of its key at its revision. */
  lemma {:induction false} ReceiptsStem(setup: Setup, run: seq<Event>, n: nat, r: ObservationReceipt)
    requires Durable(setup) && n <= |run| && r in After(setup, run[..n]).receipts
    ensures exists i :: 0 <= i < n && MarkedAt(setup, run, i, ReceiptKey(r), r.revision)
  {
    hide IngestStep, Compact;
    if n > 0 {
      AfterNext(setup, run, n - 1);
      var before, e := After(setup, run[..n - 1]), run[n - 1];
      if r in before.receipts {
        ReceiptsStem(setup, run, n - 1, r);
      } else {
        IngestMarksBeforeReceipts(setup, before, e.q);
        assert MarkedAt(setup, run, n - 1, ReceiptKey(r), r.revision);
      }
    }
  }

  /** What one ingest does to the table. */
  lemma {:induction false} IngestStores(setup: Setup, node: Node, q: Request)
    requires Durable(setup) && setup.history
    ensures IngestStep(setup, node, q).0.table
         == if Presented(q) && Authorised(q) && q.guardWritable
               && !MarkCovers(node.marks, KeyOf(q.peer.deviceID, q.record), q.record.revision)
            then Merged(node.table, ReadBack(q.record), Authorization(SubmissionOf(q)).value)
            else node.table
  {
    hide Policy.AuthorizeRecord, Conflict.Outranks;
    if q.privacy.Some? && q.trust.Some? {
      AcceptIsMerge(node.table, SubmissionOf(q));
    }
  }

  /**
   The exact effect of an ingest in a run with failures and restarts: the record is merged into
   the store if it is signed, authorised and the guard's file is writable, unless its key and
   revision are still remembered; in every other case the store stays as it is.
   */
  lemma {:induction false} StoredUnlessRemembered(setup: Setup, run: seq<Event>, j: nat)
    requires Durable(setup) && setup.history && j < |run| && run[j].Ingested?
    ensures After(setup, run[..j + 1]).table
         == var q := run[j].q;
            if Presented(q) && Authorised(q) && q.guardWritable
                && !Remembered(setup, run, j, KeyAt(run[j]), q.record.revision) then
              Merged(After(setup, run[..j]).table, ReadBack(q.record), Authorization(SubmissionOf(q)).value)
            else After(setup, run[..j]).table
  {
    hide IngestStep, Presented, Authorised, Merged, Remembered;
    AfterNext(setup, run, j);
    IngestStores(setup, After(setup, run[..j]), run[j].q);
    MarksRemember(setup, run, j, KeyAt(run[j]), run[j].q.record.revision);
  }
}
