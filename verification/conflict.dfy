/** Deterministic conflict resolution between two versions of one record. */
module Conflict {
  import opened Records
  import opened Text

  datatype Resolution = Local | Remote | Converged

  function ResolveConflict(local: RecordEnvelope, remote: RecordEnvelope): Resolution
  {
    if local.revision != remote.revision then
      if remote.revision > local.revision then Remote else Local
    else if local.updatedAt != remote.updatedAt then
      if remote.updatedAt > local.updatedAt then Remote else Local
    else if local.deleted != remote.deleted then
      if remote.deleted then Remote else Local
    else
      var left := TrimSpace(local.originDevice);
      var right := TrimSpace(remote.originDevice);
      if left != right then
        if Less(left, right) then Remote else Local
      else Converged
  }

  /** The four levels a record is ranked by: revision, time, tombstone, trimmed origin. */
  datatype Rank = Rank(revision: int, updatedAt: int, deleted: bool, origin: string)

  function RankOf(r: RecordEnvelope): Rank
  {
    Rank(r.revision, r.updatedAt, r.deleted, TrimSpace(r.originDevice))
  }

  /** Lexicographic order on ranks, the reference the cascade is compared with. */
  predicate Below(a: Rank, b: Rank)
  {
    || a.revision < b.revision
    || (a.revision == b.revision && a.updatedAt < b.updatedAt)
    || (a.revision == b.revision && a.updatedAt == b.updatedAt && !a.deleted && b.deleted)
    || (a.revision == b.revision && a.updatedAt == b.updatedAt && a.deleted == b.deleted && Less(a.origin, b.origin))
  }

  /** `b` replaces `a` when both are stored under one identifier. */
  predicate Outranks(b: RecordEnvelope, a: RecordEnvelope)
  {
    Below(RankOf(a), RankOf(b))
  }

  lemma {:induction false} ResolutionFollowsRank(local: RecordEnvelope, remote: RecordEnvelope)
    ensures ResolveConflict(local, remote) == Remote <==> Below(RankOf(local), RankOf(remote))
    ensures ResolveConflict(local, remote) == Local <==> Below(RankOf(remote), RankOf(local))
    ensures ResolveConflict(local, remote) == Converged <==> RankOf(local) == RankOf(remote)
  {
    var left, right := TrimSpace(local.originDevice), TrimSpace(remote.originDevice);
    LessTotal(left, right);
    LessIrreflexive(left);
    if Less(left, right) {
      LessAsymmetric(left, right);
    } else if Less(right, left) {
      LessAsymmetric(right, left);
    }
  }

  lemma {:induction false} ResolutionMirrors(a: RecordEnvelope, b: RecordEnvelope)
    ensures ResolveConflict(a, b) == Remote <==> ResolveConflict(b, a) == Local
    ensures ResolveConflict(a, b) == Converged <==> ResolveConflict(b, a) == Converged
  {
    ResolutionFollowsRank(a, b);
    ResolutionFollowsRank(b, a);
  }

  lemma {:induction false} BelowTransitive(a: Rank, b: Rank, c: Rank)
    requires Below(a, b) && Below(b, c)
    ensures Below(a, c)
  {
    if Less(a.origin, b.origin) && Less(b.origin, c.origin) {
      LessTransitive(a.origin, b.origin, c.origin);
    }
  }

  lemma {:induction false} BelowTotal(a: Rank, b: Rank)
    ensures Below(a, b) || a == b || Below(b, a)
    ensures !(Below(a, b) && Below(b, a)) && !Below(a, a)
  {
    LessTotal(a.origin, b.origin);
    LessIrreflexive(a.origin);
    if Less(a.origin, b.origin) {
      LessAsymmetric(a.origin, b.origin);
    }
  }

  /** "Not replaced by" is a total preorder: it is total, and it chains. */
  lemma {:induction false} KeepsIsTotalPreorder(a: RecordEnvelope, b: RecordEnvelope, c: RecordEnvelope)
    ensures ResolveConflict(a, b) != Remote || ResolveConflict(b, a) != Remote
    ensures ResolveConflict(a, b) != Remote && ResolveConflict(b, c) != Remote ==> ResolveConflict(a, c) != Remote
  {
    ResolutionFollowsRank(a, b);
    ResolutionFollowsRank(b, a);
    ResolutionFollowsRank(b, c);
    ResolutionFollowsRank(a, c);
    BelowTotal(RankOf(a), RankOf(b));
    BelowTotal(RankOf(b), RankOf(c));
    if Below(RankOf(a), RankOf(c)) {
      if Below(RankOf(b), RankOf(a)) {
        BelowTransitive(RankOf(b), RankOf(a), RankOf(c));
      }
    }
  }
}
