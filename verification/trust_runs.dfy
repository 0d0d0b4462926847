/** Whole runs of authorizations and revocations. */
module TrustRuns {
  import opened Outcomes
  import opened Records
  import opened TrustedDevices

  datatype TrustOp =
    | Authorize(accountID: string, pairing: VerifiedPairing, now: Time, disk: Disk)
    | Revoke(accountID: string, deviceID: string, now: Time, disk: Disk)

  function Step(keys: KeyScheme, devices: Registry, op: TrustOp): Registry
  {
    match op
    case Authorize(a, p, now, disk) => Authorized(keys, devices, a, p, now, disk).0
    case Revoke(a, d, now, disk) => Revoked(keys, devices, a, d, now, disk).0
  }

  function After(keys: KeyScheme, run: seq<TrustOp>): Registry
  {
    if run == [] then [] else Step(keys, After(keys, run[..|run| - 1]), run[|run| - 1])
  }

  lemma {:induction false} AfterNext(keys: KeyScheme, run: seq<TrustOp>, n: nat)
    requires n < |run|
    ensures After(keys, run[..n + 1]) == Step(keys, After(keys, run[..n]), run[n])
  {
    assert run[..n + 1][..n] == run[..n];
  }

  predicate About(op: TrustOp, accountID: string, deviceID: string)
  {
    match op
    case Authorize(a, p, _, _) => a == accountID && p.deviceID == deviceID
    case Revoke(a, d, _, _) => a == accountID && d == deviceID
  }

  /** At most one entry per account and device. */
  ghost predicate Unique(devices: Registry)
  {
    forall i, j | 0 <= i < j < |devices| :: !Names(devices[j], devices[i].accountID, devices[i].deviceID)
  }

  lemma {:induction false} StepKeepsUnique(keys: KeyScheme, devices: Registry, op: TrustOp)
    requires Unique(devices)
    ensures Unique(Step(keys, devices, op))
  {
    hide Loads, ValidDeviceID;
    match op {
      case Authorize(a, p, _, _) => IndexFinds(devices, a, p.deviceID);
      case Revoke(a, d, _, _) => IndexFinds(devices, a, d);
    }
  }

  /** In every run each pair has at most one entry. */
  lemma {:induction false} PairsStayUnique(keys: KeyScheme, run: seq<TrustOp>)
    ensures Unique(After(keys, run))
  {
    hide Step, Unique;
    if run == [] {
      NobodyIsUnique();
    } else {
      PairsStayUnique(keys, run[..|run| - 1]);
      StepKeepsUnique(keys, After(keys, run[..|run| - 1]), run[|run| - 1]);
    }
  }

  lemma {:induction false} NobodyIsUnique()
    ensures Unique([])
  {
  }

  lemma {:induction false} LookupAt(devices: Registry, accountID: string, deviceID: string, i: nat)
    requires Unique(devices) && i < |devices| && Names(devices[i], accountID, deviceID)
    ensures IndexOf(devices, accountID, deviceID) == i
  {
    IndexIsFirst(devices, accountID, deviceID, i);
  }

  lemma {:induction false} LookupNone(devices: Registry, accountID: string, deviceID: string)
    requires forall i | 0 <= i < |devices| :: !Names(devices[i], accountID, deviceID)
    ensures Lookup(devices, accountID, deviceID) == None
  {
    IndexIsFirst(devices, accountID, deviceID, |devices|);
  }

  /** Replacing or appending an entry of one pair leaves every other pair's entry alone. */
  lemma {:induction false} OtherPairsKeep(devices: Registry, after: Registry, a: string, d: string, accountID: string,
                                          deviceID: string)
    requires Unique(devices) && Unique(after) && (a != accountID || d != deviceID)
    requires (|after| == |devices| || |after| == |devices| + 1)
    requires forall i | 0 <= i < |devices| ::
               after[i] == devices[i] || (Names(devices[i], a, d) && Names(after[i], a, d))
    requires |after| == |devices| + 1 ==> Names(after[|devices|], a, d)
    ensures Lookup(after, accountID, deviceID) == Lookup(devices, accountID, deviceID)
  {
    IndexFinds(devices, accountID, deviceID);
    var i := IndexOf(devices, accountID, deviceID);
    if i < |devices| {
      LookupAt(after, accountID, deviceID, i);
    } else {
      LookupNone(after, accountID, deviceID);
    }
  }

  /** An operation never changes what is recorded about any other pair. */
  lemma {:induction false} OthersUntouched(keys: KeyScheme, devices: Registry, op: TrustOp, accountID: string,
                                           deviceID: string)
    requires Unique(devices) && !About(op, accountID, deviceID)
    ensures Lookup(Step(keys, devices, op), accountID, deviceID) == Lookup(devices, accountID, deviceID)
  {
    hide Loads, ValidDeviceID, Lookup;
    StepKeepsUnique(keys, devices, op);
    var (a, d) := match op case Authorize(a, p, _, _) => (a, p.deviceID) case Revoke(a, d, _, _) => (a, d);
    IndexFinds(devices, a, d);
    OtherPairsKeep(devices, Step(keys, devices, op), a, d, accountID, deviceID);
  }

  /** The key a pair is currently trusted with. */
  function ActiveKey(devices: Registry, accountID: string, deviceID: string): Option<(string, string)>
  {
    match Lookup(devices, accountID, deviceID)
    case None => None
    case Some(d) => if d.revokedAt.Some? then None else Some((d.publicKey, d.fingerprint))
  }

  /** Only a revocation of the pair itself can take an active key away. */
  lemma {:induction false} ActiveKeyHolds(keys: KeyScheme, devices: Registry, op: TrustOp, accountID: string,
                                          deviceID: string)
    requires Unique(devices) && ActiveKey(devices, accountID, deviceID).Some?
    requires !(op.Revoke? && About(op, accountID, deviceID))
    ensures ActiveKey(Step(keys, devices, op), accountID, deviceID) == ActiveKey(devices, accountID, deviceID)
  {
    hide Loads, ValidDeviceID;
    if About(op, accountID, deviceID) {
      IndexFinds(devices, accountID, deviceID);
    } else {
      OthersUntouched(keys, devices, op, accountID, deviceID);
    }
  }

  /** While nobody revokes the pair, its key stays; so a changed or vanished key implies a revocation in between. */
  lemma {:induction false} KeyChangesOnlyAcrossRevoke(keys: KeyScheme, run: seq<TrustOp>, i: nat, j: nat,
                                                      accountID: string, deviceID: string)
    requires i <= j <= |run|
    requires ActiveKey(After(keys, run[..i]), accountID, deviceID).Some?
    requires ActiveKey(After(keys, run[..j]), accountID, deviceID)
          != ActiveKey(After(keys, run[..i]), accountID, deviceID)
    ensures exists k :: i <= k < j && run[k].Revoke? && About(run[k], accountID, deviceID)
    decreases j
  {
    hide Step, ActiveKey, Unique;
    if i < j {
      AfterNext(keys, run, j - 1);
      var before := After(keys, run[..j - 1]);
      if ActiveKey(before, accountID, deviceID) == ActiveKey(After(keys, run[..i]), accountID, deviceID) {
        if !(run[j - 1].Revoke? && About(run[j - 1], accountID, deviceID)) {
          PairsStayUnique(keys, run[..j - 1]);
          ActiveKeyHolds(keys, before, run[j - 1], accountID, deviceID);
        }
      } else {
        KeyChangesOnlyAcrossRevoke(keys, run, i, j - 1, accountID, deviceID);
      }
    }
  }

  /** Operation `k` is an authorization of the pair with this fingerprint, answered with success. */
  predicate Grants(keys: KeyScheme, run: seq<TrustOp>, k: nat, accountID: string, deviceID: string, fingerprint: string)
  {
    && k < |run| && run[k].Authorize? && About(run[k], accountID, deviceID) && run[k].pairing.fingerprint == fingerprint
    && Authorized(keys, After(keys, run[..k]), run[k].accountID, run[k].pairing, run[k].now, run[k].disk).1.Success?
  }

  /** Operation `k` is a revocation of the pair, answered with success. */
  predicate Withdraws(keys: KeyScheme, run: seq<TrustOp>, k: nat, accountID: string, deviceID: string)
  {
    && k < |run| && run[k].Revoke? && About(run[k], accountID, deviceID)
    && Revoked(keys, After(keys, run[..k]), run[k].accountID, run[k].deviceID, run[k].now, run[k].disk).1.Success?
  }

  ghost predicate Undisturbed(keys: KeyScheme, run: seq<TrustOp>, k: nat, j: nat, accountID: string, deviceID: string)
  {
    forall m | k < m < j :: !Withdraws(keys, run, m, accountID, deviceID)
  }

  /** What one operation does to the active key of a pair. */
  lemma {:induction false} ActiveKeyMoves(keys: KeyScheme, run: seq<TrustOp>, k: nat, accountID: string,
                                          deviceID: string)
    requires k < |run|
    ensures var (before, after) := (ActiveKey(After(keys, run[..k]), accountID, deviceID),
                                    ActiveKey(After(keys, run[..k + 1]), accountID, deviceID));
            if Withdraws(keys, run, k, accountID, deviceID) then after == None
            else if run[k].Authorize? && Grants(keys, run, k, accountID, deviceID, run[k].pairing.fingerprint) then
              && after == Some((run[k].pairing.publicKey, run[k].pairing.fingerprint))
              && (before.Some? ==> before == after)
            else after == before
  {
    hide Loads, ValidDeviceID, After;
    var devices := After(keys, run[..k]);
    AfterNext(keys, run, k);
    PairsStayUnique(keys, run[..k]);
    if About(run[k], accountID, deviceID) {
      IndexFinds(devices, accountID, deviceID);
      var i := IndexOf(devices, accountID, deviceID);
      var after := Step(keys, devices, run[k]);
      StepKeepsUnique(keys, devices, run[k]);
      if i < |after| && Names(after[i], accountID, deviceID) {
        LookupAt(after, accountID, deviceID, i);
      }
    } else {
      OthersUntouched(keys, devices, run[k], accountID, deviceID);
    }
  }

  /**
   A pair is active with a key of this fingerprint exactly when some authorization with it was
   answered with success and no revocation of the pair has been since.
   */
  lemma {:induction false} ActiveIffGranted(keys: KeyScheme, run: seq<TrustOp>, j: nat, accountID: string,
                                            deviceID: string, fingerprint: string)
    requires j <= |run|
    ensures (var key := ActiveKey(After(keys, run[..j]), accountID, deviceID); key.Some? && key.value.1 == fingerprint)
       <==> exists k :: 0 <= k < j && Grants(keys, run, k, accountID, deviceID, fingerprint)
                        && Undisturbed(keys, run, k, j, accountID, deviceID)
  {
    hide After, ActiveKey, Grants, Withdraws;
    if j == 0 {
      NoneActive(accountID, deviceID, keys, run);
    } else {
      var n := j - 1;
      ActiveIffGranted(keys, run, n, accountID, deviceID, fingerprint);
      ActiveKeyMoves(keys, run, n, accountID, deviceID);
      GrantsAuthorize(keys, run, n, accountID, deviceID, fingerprint);
      forall k: nat | k < n
        ensures Undisturbed(keys, run, k, j, accountID, deviceID)
           <==> Undisturbed(keys, run, k, n, accountID, deviceID) && !Withdraws(keys, run, n, accountID, deviceID)
      {
        assert !Withdraws(keys, run, n, accountID, deviceID) || !Undisturbed(keys, run, k, j, accountID, deviceID);
      }
      assert Undisturbed(keys, run, n, j, accountID, deviceID);
    }
  }

  lemma {:induction false} GrantsAuthorize(keys: KeyScheme, run: seq<TrustOp>, k: nat, accountID: string,
                                           deviceID: string, fingerprint: string)
    requires k < |run|
    ensures Grants(keys, run, k, accountID, deviceID, fingerprint) ==>
              && run[k].Authorize? && run[k].pairing.fingerprint == fingerprint
              && !Withdraws(keys, run, k, accountID, deviceID)
  {
  }

  lemma {:induction false} NoneActive(accountID: string, deviceID: string, keys: KeyScheme, run: seq<TrustOp>)
    ensures ActiveKey(After(keys, run[..0]), accountID, deviceID) == None
  {
  }

  /** The pairing came out of a verified challenge. */
  predicate Genuine(keys: KeyScheme, p: VerifiedPairing)
  {
    && ValidDeviceID(p.deviceID) && keys.decode(p.publicKey).Some?
    && keys.fingerprintOf(keys.decode(p.publicKey).value) == p.fingerprint
  }

  /**
   A registry that loads keeps loading after an authorization of a genuine pairing exactly when
   the time is not zero or a guard of the call keeps it from writing: a missing argument, a file
   error, or an active entry of the pair.  A zero time is written and then refused.
   */
  lemma {:induction false} ZeroTimeBreaksRegistry(keys: KeyScheme, devices: Registry, accountID: string,
                                                  p: VerifiedPairing, now: Time, disk: Disk)
    requires Loads(keys, devices) && Genuine(keys, p)
    ensures Loads(keys, Authorized(keys, devices, accountID, p, now, disk).0)
       <==> || now != ZeroTime
            || accountID == "" || p.publicKey == "" || p.fingerprint == ""
            || !disk.readable || !disk.writable
            || ActiveKey(devices, accountID, p.deviceID).Some?
  {
    assert p.deviceID != "";
    hide ValidDeviceID;
    var after := Authorized(keys, devices, accountID, p, now, disk).0;
    var i := IndexOf(devices, accountID, p.deviceID);
    if after != devices {
      assert after[i] == DeviceFromPairing(accountID, p, now);
      assert ValidDevice(keys, after[i]) <==> now != ZeroTime && accountID != "";
    }
  }
}
