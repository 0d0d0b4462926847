/** Observation receipts, the receipt log, and when a tombstone counts as observed by everyone. */
module Receipts {
  import opened Outcomes
  import opened Text
  import opened Records

  datatype ObservationReceipt = ObservationReceipt(
    dataset: string,
    recordID: string,
    revision: Revision,
    recordDigest: string,
    observerDevice: string,
    observedAt: Time)

  /** SHA-256 in hexadecimal, and the RFC 3339 text of an instant. */
  datatype DigestScheme = DigestScheme(hash: string -> string, stamp: Time -> string)

  /** The text a record digest covers: neither the revision nor the tombstone flag is part of it. */
  function DigestText(scheme: DigestScheme, record: RecordEnvelope): string
  {
    record.dataset + "\n" + record.recordID + "\n" + scheme.stamp(record.updatedAt) + "\n" + record.originDevice
  }

  function RecordDigest(scheme: DigestScheme, record: RecordEnvelope): string
  {
    scheme.hash(DigestText(scheme, record))
  }

  function NewObservationReceipt(scheme: DigestScheme, record: RecordEnvelope, observer: string, observedAt: Time)
    : Option<ObservationReceipt>
  {
    if Blank(observer) || record.recordID == "" || record.revision == 0 then None
    else Some(ObservationReceipt(record.dataset, record.recordID, record.revision, RecordDigest(scheme, record),
                                 observer, observedAt))
  }

  predicate Matches(scheme: DigestScheme, record: RecordEnvelope, receipt: ObservationReceipt)
  {
    && receipt.dataset == record.dataset
    && receipt.recordID == record.recordID
    && receipt.revision == record.revision
    && receipt.recordDigest == RecordDigest(scheme, record)
  }

  function Elements(receipts: seq<ObservationReceipt>): set<ObservationReceipt>
  {
    set r | r in receipts
  }

  /** Some receipt shows that `peer` observed exactly this revision and digest. */
  ghost predicate Observed(scheme: DigestScheme, record: RecordEnvelope, peer: string,
                           receipts: set<ObservationReceipt>)
  {
    exists receipt :: receipt in receipts && Matches(scheme, record, receipt) && receipt.observerDevice == peer
  }

  ghost predicate Confirmed(scheme: DigestScheme, record: RecordEnvelope, requiredPeers: seq<string>,
                            receipts: set<ObservationReceipt>)
  {
    record.deleted && requiredPeers != []
    && forall peer | peer in requiredPeers :: Observed(scheme, record, peer, receipts)
  }

  method ConvergenceConfirmed(scheme: DigestScheme, record: RecordEnvelope, requiredPeers: seq<string>,
                              receipts: seq<ObservationReceipt>) returns (ok: bool)
    ensures ok == Confirmed(scheme, record, requiredPeers, Elements(receipts))
  {
    ghost var all := Elements(receipts);
    if !record.deleted || |requiredPeers| == 0 {
      return false;
    }
    var seen: set<string> := {};
    for i := 0 to |receipts|
      invariant forall peer :: peer in seen <==> Observed(scheme, record, peer, Elements(receipts[..i]))
    {
      assert receipts[..i + 1] == receipts[..i] + [receipts[i]];
      assert Elements(receipts[..i + 1]) == Elements(receipts[..i]) + {receipts[i]};
      if Matches(scheme, record, receipts[i]) {
        seen := seen + {receipts[i].observerDevice};
      }
    }
    assert receipts[..|receipts|] == receipts;
    for i := 0 to |requiredPeers|
      invariant forall peer | peer in requiredPeers[..i] :: Observed(scheme, record, peer, all)
    {
      if requiredPeers[i] !in seen {
        return false;
      }
    }
    return true;
  }

  /**
   Matching receipts name the signed origin: `\n` separates the digest's fields, and a time
   stamp has none, so equal digest texts for one identifier have equal origins.
   */
  lemma {:induction false} SameTextSameOrigin(scheme: DigestScheme, a: RecordEnvelope, b: RecordEnvelope)
    requires '\n' !in scheme.stamp(a.updatedAt) && '\n' !in scheme.stamp(b.updatedAt)
    requires a.dataset == b.dataset && a.recordID == b.recordID
    requires DigestText(scheme, a) == DigestText(scheme, b)
    ensures a.originDevice == b.originDevice && scheme.stamp(a.updatedAt) == scheme.stamp(b.updatedAt)
  {
    var head := a.dataset + "\n" + a.recordID + "\n";
    var left, right := scheme.stamp(a.updatedAt), scheme.stamp(b.updatedAt);
    assert DigestText(scheme, a) == head + (left + "\n" + a.originDevice);
    assert DigestText(scheme, b) == head + (right + "\n" + b.originDevice);
    assert left + "\n" + a.originDevice == DigestText(scheme, a)[|head|..];
    assert right + "\n" + b.originDevice == DigestText(scheme, b)[|head|..];
    SplitAtFirstNewline(left, a.originDevice, right, b.originDevice);
  }

  lemma {:induction false} SplitAtFirstNewline(a: string, x: string, b: string, y: string)
    requires '\n' !in a && '\n' !in b && a + "\n" + x == b + "\n" + y
    ensures a == b && x == y
  {
    var s := a + "\n" + x;
    assert s[|a|] == '\n' && s[|b|] == '\n';
    assert a == s[..|a|] && b == s[..|b|];
    assert x == s[|a| + 1..] && y == s[|b| + 1..];
  }

  predicate SameReceipt(a: ObservationReceipt, b: ObservationReceipt)
  {
    && a.dataset == b.dataset
    && a.recordID == b.recordID
    && a.revision == b.revision
    && a.recordDigest == b.recordDigest
    && a.observerDevice == b.observerDevice
  }

  /** The log's order: time, then record, then observer. */
  predicate Before(a: ObservationReceipt, b: ObservationReceipt)
  {
    if a.observedAt != b.observedAt then a.observedAt < b.observedAt
    else if a.recordID != b.recordID then Less(a.recordID, b.recordID)
    else Less(a.observerDevice, b.observerDevice)
  }

  lemma {:induction false} BeforeTransitive(a: ObservationReceipt, b: ObservationReceipt, c: ObservationReceipt)
    requires !Before(b, a) && !Before(c, b)
    ensures !Before(c, a)
  {
    LessTotal(a.recordID, b.recordID);
    LessTotal(b.recordID, c.recordID);
    LessTotal(a.observerDevice, b.observerDevice);
    LessTotal(b.observerDevice, c.observerDevice);
    if Before(c, a) {
      if a.observedAt == b.observedAt == c.observedAt {
        if a.recordID == b.recordID == c.recordID {
          LessChain(a.observerDevice, b.observerDevice, c.observerDevice);
        } else {
          LessChain(a.recordID, b.recordID, c.recordID);
          LessIrreflexive(a.recordID);
        }
      }
    }
  }

  lemma {:induction false} LessChain(a: string, b: string, c: string)
    ensures !Less(b, a) && !Less(c, b) ==> !Less(c, a)
    ensures !Less(b, a) && !Less(c, b) && (a != b || b != c) ==> a != c
  {
    LessTotal(a, b);
    LessTotal(b, c);
    LessIrreflexive(a);
    if Less(a, b) && Less(b, c) {
      LessTransitive(a, b, c);
      LessAsymmetric(a, c);
    }
    if Less(a, b) {
      LessAsymmetric(a, b);
    }
  }

  ghost predicate Ordered(receipts: seq<ObservationReceipt>)
  {
    forall i, j | 0 <= i < j < |receipts| :: !Before(receipts[j], receipts[i])
  }

  /** Places one receipt into an ordered log. */
  method Insert(receipts: seq<ObservationReceipt>, receipt: ObservationReceipt) returns (log: seq<ObservationReceipt>)
    requires Ordered(receipts)
    ensures Ordered(log) && multiset(log) == multiset(receipts) + multiset{receipt}
  {
    hide Before;
    var p := |receipts|;
    while p > 0 && Before(receipt, receipts[p - 1])
      invariant 0 <= p <= |receipts|
      invariant forall j | p <= j < |receipts| :: Before(receipt, receipts[j])
    {
      p := p - 1;
    }
    log := receipts[..p] + [receipt] + receipts[p..];
    assert receipts == receipts[..p] + receipts[p..];
    InsertionKeepsOrder(receipts, receipt, p);
  }

  lemma {:induction false} InsertionKeepsOrder(receipts: seq<ObservationReceipt>, receipt: ObservationReceipt, p: nat)
    requires Ordered(receipts) && p <= |receipts|
    requires p > 0 ==> !Before(receipt, receipts[p - 1])
    requires forall j | p <= j < |receipts| :: Before(receipt, receipts[j])
    ensures Ordered(receipts[..p] + [receipt] + receipts[p..])
  {
    hide Before;
    var log := receipts[..p] + [receipt] + receipts[p..];
    forall i | 0 <= i < p
      ensures !Before(receipt, receipts[i])
    {
      if i < p - 1 {
        BeforeTransitive(receipts[i], receipts[p - 1], receipt);
      }
    }
    forall j | p <= j < |receipts|
      ensures !Before(receipts[j], receipt)
    {
      BeforeAsymmetric(receipt, receipts[j]);
    }
    forall i, j | 0 <= i < j < |log|
      ensures !Before(log[j], log[i])
    {
      var a, b := if i <= p then i else i - 1, if j <= p then j else j - 1;
      assert (i == p || log[i] == receipts[a]) && (j == p || log[j] == receipts[b]);
    }
  }

  lemma {:induction false} BeforeAsymmetric(a: ObservationReceipt, b: ObservationReceipt)
    requires Before(a, b)
    ensures !Before(b, a)
  {
    if a.observedAt == b.observedAt {
      if a.recordID != b.recordID {
        LessAsymmetric(a.recordID, b.recordID);
      } else {
        LessAsymmetric(a.observerDevice, b.observerDevice);
      }
    }
  }

  /** `sort.Slice` by the log's order. */
  method SortReceipts(receipts: seq<ObservationReceipt>) returns (log: seq<ObservationReceipt>)
    ensures Ordered(log) && multiset(log) == multiset(receipts)
  {
    log := [];
    for i := 0 to |receipts|
      invariant Ordered(log) && multiset(log) == multiset(receipts[..i])
    {
      assert receipts[..i + 1] == receipts[..i] + [receipts[i]];
      log := Insert(log, receipts[i]);
    }
    assert receipts[..|receipts|] == receipts;
  }

  datatype ReceiptError = InvalidReceipt | LogUnreadable | LogUnwritable

  predicate WellFormed(r: ObservationReceipt)
  {
    && r.dataset != "" && r.recordID != "" && r.revision != 0
    && r.recordDigest != "" && r.observerDevice != "" && r.observedAt != ZeroTime
  }

  /** The receipts held after one `Append`, and its answer. */
  function Appended(held: set<ObservationReceipt>, receipt: ObservationReceipt, readable: bool, writable: bool)
    : (set<ObservationReceipt>, Outcome<ReceiptError>)
  {
    if !WellFormed(receipt) then (held, Fail(InvalidReceipt))
    else if !readable then (held, Fail(LogUnreadable))
    else if exists r | r in held :: SameReceipt(r, receipt) then (held, Pass)
    else if !writable then (held, Fail(LogUnwritable))
    else (held + {receipt}, Pass)
  }

  class ReceiptStore {
    var file: seq<ObservationReceipt>

    constructor ()
      ensures file == []
    {
      file := [];
    }

    ghost function Held(): set<ObservationReceipt>
      reads this
    {
      Elements(file)
    }

    method Append(receipt: ObservationReceipt, readable: bool, writable: bool) returns (r: Outcome<ReceiptError>)
      modifies this
      ensures (Held(), r) == Appended(old(Held()), receipt, readable, writable)
      ensures if Held() == old(Held()) then file == old(file)
              else Ordered(file) && receipt !in old(file) && multiset(file) == multiset(old(file)) + multiset{receipt}
    {
      if !WellFormed(receipt) {
        return Fail(InvalidReceipt);
      }
      if !readable {
        return Fail(LogUnreadable);
      }
      for i := 0 to |file|
        invariant forall k | 0 <= k < i :: !SameReceipt(file[k], receipt)
      {
        if SameReceipt(file[i], receipt) {
          assert file[i] in Held();
          return Pass;
        }
      }
      assert forall x | x in Held() :: !SameReceipt(x, receipt);
      assert SameReceipt(receipt, receipt) && receipt !in file;
      if !writable {
        return Fail(LogUnwritable);
      }
      var log := SortReceipts(file + [receipt]);
      SameElements(log, file + [receipt]);
      file := log;
      assert Held() == old(Held()) + {receipt};
      return Pass;
    }

    method ForRecord(dataset: string, recordID: string) returns (out: seq<ObservationReceipt>)
      ensures forall r :: r in out <==> r in file && r.dataset == dataset && r.recordID == recordID
    {
      out := [];
      for i := 0 to |file|
        invariant forall r :: r in out <==> r in file[..i] && r.dataset == dataset && r.recordID == recordID
      {
        if file[i].dataset == dataset && file[i].recordID == recordID {
          out := out + [file[i]];
        }
      }
    }
  }

  lemma {:induction false} SameElements(a: seq<ObservationReceipt>, b: seq<ObservationReceipt>)
    requires multiset(a) == multiset(b)
    ensures Elements(a) == Elements(b)
  {
    forall r
      ensures r in a <==> r in b
    {
      assert r in a <==> r in multiset(a);
      assert r in b <==> r in multiset(b);
    }
  }

  /** No two receipts of one observation: same record, revision, digest and observer. */
  ghost predicate NoDuplicates(receipts: set<ObservationReceipt>)
  {
    forall a, b | a in receipts && b in receipts
      && a.dataset == b.dataset && a.recordID == b.recordID && a.revision == b.revision
      && a.recordDigest == b.recordDigest && a.observerDevice == b.observerDevice :: a == b
  }

  /** Nothing is missing in a receipt. */
  predicate Complete(r: ObservationReceipt)
  {
    && |r.dataset| > 0 && |r.recordID| > 0 && r.revision >= 1
    && |r.recordDigest| > 0 && |r.observerDevice| > 0 && r.observedAt != 0
  }

  /** When the log changes, by what, and when the answer is a success. */
  lemma {:induction false} AppendIff(held: set<ObservationReceipt>, receipt: ObservationReceipt, readable: bool,
                                     writable: bool)
    requires NoDuplicates(held)
    ensures var (after, r) := Appended(held, receipt, readable, writable);
            && NoDuplicates(after)
            && (r.Pass? <==>
                  && Complete(receipt) && readable
                  && (writable || !NoDuplicates(held + {receipt}) || receipt in held))
            && (after != held <==>
                  && Complete(receipt) && readable && writable
                  && receipt !in held && NoDuplicates(held + {receipt}))
            && (after != held ==> after == held + {receipt})
  {
    if exists r :: r in held && SameReceipt(r, receipt) {
      var r :| r in held && SameReceipt(r, receipt);
      assert r in held + {receipt} && receipt in held + {receipt};
      if r == receipt {
        assert held + {receipt} == held;
      }
    }
  }

  /** What a log in order looks like: by time, then by record, then by observer. */
  lemma {:induction false} OrderOfLog(log: seq<ObservationReceipt>, i: nat, j: nat)
    requires Ordered(log) && i < j < |log|
    ensures log[i].observedAt <= log[j].observedAt
    ensures log[i].observedAt == log[j].observedAt ==>
              log[i].recordID == log[j].recordID || Less(log[i].recordID, log[j].recordID)
    ensures log[i].observedAt == log[j].observedAt && log[i].recordID == log[j].recordID ==>
              log[i].observerDevice == log[j].observerDevice || Less(log[i].observerDevice, log[j].observerDevice)
  {
    LessTotal(log[i].recordID, log[j].recordID);
    LessTotal(log[i].observerDevice, log[j].observerDevice);
    assert !Before(log[j], log[i]);
  }

  /** A receipt is made of the record's own fields, unless observer, identifier or revision are missing. */
  lemma {:induction false} ReceiptOf(scheme: DigestScheme, record: RecordEnvelope, observer: string, at: Time)
    ensures var r := NewObservationReceipt(scheme, record, observer, at);
            && (r.None? <==>
                  || (forall k | 0 <= k < |observer| :: IsSpace(observer[k]))
                  || |record.recordID| == 0 || record.revision < 1)
            && (r.Some? ==>
                 && r.value.dataset == record.dataset && r.value.recordID == record.recordID
                 && r.value.revision == record.revision && r.value.observerDevice == observer
                 && r.value.observedAt == at
                 && r.value.recordDigest
                    == scheme.hash(record.dataset + "\n" + record.recordID + "\n" + scheme.stamp(record.updatedAt)
                                   + "\n" + record.originDevice))
  {
    hide IsSpace, Blank;
    BlankIffAllSpaces(observer);
  }
}
