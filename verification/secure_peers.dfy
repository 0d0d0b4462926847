/** Checkpoints that run peer operations only while the exact device and key are still trusted. */
module SecurePeers {
  import opened Outcomes
  import opened Records
  import opened TrustedDevices
  import opened TrustRuns
  import opened Peers

  const MaxOperationSequence := 64

  datatype Factory = Factory(accountID: string, store: TrustedDeviceStore?)

  datatype CheckError = FactoryUnavailable | TrustNotCurrent | RegistryFailed(reason: TrustError)

  /** The exact account, device and bound key are trusted by this registry. */
  predicate Current(keys: KeyScheme, devices: Registry, accountID: string, deviceID: string, fingerprint: string,
                    readable: bool)
  {
    Trusted(keys, devices, accountID, deviceID, fingerprint, readable) == Success(true)
  }

  /** A checkpoint passes for this device and bound key. */
  ghost predicate PassesAs(f: Factory, deviceID: string, fingerprint: string, devices: Registry, readable: bool)
  {
    && f.accountID != "" && f.store != null && deviceID != "" && fingerprint != ""
    && Current(f.store.keys, devices, f.accountID, deviceID, fingerprint, readable)
  }

  /** The checkpoint would pass: a bound peer whose exact device and key the registry trusts. */
  ghost predicate Passes(f: Factory, peer: PeerConn?, devices: Registry, readable: bool)
    reads peer
  {
    peer != null && PassesAs(f, peer.deviceID, peer.fingerprint, devices, readable)
  }

  /** Why a checkpoint refuses; of a missing store the registry does not matter. */
  ghost predicate Refuses(f: Factory, peer: PeerConn?, devices: Registry, readable: bool, error: CheckError)
    reads peer
  {
    var equipped := f.accountID != "" && f.store != null;
    match error
    case FactoryUnavailable => !equipped
    case TrustNotCurrent =>
      && equipped
      && (peer == null
          || Trusted(f.store.keys, devices, f.accountID, peer.deviceID, peer.fingerprint, readable) == Success(false))
    case RegistryFailed(reason) =>
      && equipped && peer != null
      && Trusted(f.store.keys, devices, f.accountID, peer.deviceID, peer.fingerprint, readable) == Failure(reason)
  }

  function Held(f: Factory): Registry
    reads f.store
  {
    if f.store == null then [] else f.store.devices
  }

  ghost predicate Closed(peer: PeerConn?)
    reads peer
  {
    peer == null || peer.closed || !peer.connected
  }

  /** Closes the peer on every answer but yes.  A peer closed earlier can still pass. */
  method RevalidatePeer(f: Factory, peer: PeerConn?, readable: bool) returns (r: Outcome<CheckError>)
    modifies peer
    ensures peer != null ==> peer.fingerprint == old(peer.fingerprint)
    ensures r.Pass? <==> f.store != null && Passes(f, peer, f.store.devices, readable)
    ensures r.Fail? ==> Refuses(f, peer, Held(f), readable, r.error) && Closed(peer)
    ensures peer != null ==> peer.closed == if r.Pass? then old(peer.closed) else old(peer.closed) || peer.connected
  {
    hide Current, Trusted;
    if peer == null {
      return Fail(if f.accountID == "" || f.store == null then FactoryUnavailable else TrustNotCurrent);
    }
    r := RevalidateConnection(f, peer, readable);
  }

  /** The checkpoint of a peer that is there. */
  method RevalidateConnection(f: Factory, peer: PeerConn, readable: bool) returns (r: Outcome<CheckError>)
    modifies peer`closed
    ensures r.Pass? <==> f.store != null && PassesAs(f, peer.deviceID, peer.fingerprint, f.store.devices, readable)
    ensures r.Fail? ==> Refuses(f, peer, Held(f), readable, r.error) && Closed(peer)
    ensures peer.closed == if r.Pass? then old(peer.closed) else old(peer.closed) || peer.connected
  {
    hide Loads, Lookup;
    if f.accountID == "" || f.store == null {
      peer.Close();
      return Fail(FactoryUnavailable);
    }
    if peer.deviceID == "" || peer.fingerprint == "" {
      peer.Close();
      return Fail(TrustNotCurrent);
    }
    var trusted := f.store.IsTrusted(f.accountID, peer.deviceID, peer.fingerprint, readable);
    if trusted.Failure? {
      peer.Close();
      return Fail(RegistryFailed(trusted.error));
    }
    if !trusted.value {
      peer.Close();
      return Fail(TrustNotCurrent);
    }
    return Pass;
  }

  /** One step of a sequence: what the registry holds when its turn comes, and how its callback ends. */
  datatype Operation = Operation(registry: Registry, readable: bool, succeeds: bool, closesPeer: bool)

  datatype SequenceResult = SequenceInvalid | OperationRequired | AllRan | StepFailed | TrustLost(reason: CheckError)

  /**
   Runs the steps in order, each behind its own check; between two steps other parties may
   replace the registry by any other.  `ran` counts the callbacks that were invoked.
   */
  method RunOperationSequenceWithCurrentTrust(f: Factory, peer: PeerConn?, operations: seq<Option<Operation>>)
    returns (r: SequenceResult, ran: nat)
    modifies peer, f.store
    ensures peer != null ==> peer.fingerprint == old(peer.fingerprint)
    ensures r.SequenceInvalid? <==> |operations| == 0 || |operations| > MaxOperationSequence
    ensures r.OperationRequired? <==> 0 < |operations| <= MaxOperationSequence && None in operations
    ensures r.SequenceInvalid? || r.OperationRequired? ==>
              && ran == 0 && (peer != null ==> peer.closed == old(peer.closed))
    ensures ran <= |operations|
    ensures forall i | 0 <= i < ran ::
              operations[i].Some? && Passes(f, peer, operations[i].value.registry, operations[i].value.readable)
    ensures forall i | 0 <= i < ran - 1 :: operations[i].value.succeeds
    ensures r == AllRan ==> ran == |operations| && operations[ran - 1].value.succeeds
    ensures r == StepFailed ==> ran > 0 && !operations[ran - 1].value.succeeds
    ensures r.TrustLost? ==>
              && ran < |operations| && (ran > 0 ==> operations[ran - 1].value.succeeds)
              && operations[ran].Some?
              && !Passes(f, peer, operations[ran].value.registry, operations[ran].value.readable)
              && Refuses(f, peer, operations[ran].value.registry, operations[ran].value.readable, r.reason)
              && Closed(peer)
    ensures peer != null ==>
              peer.closed == (old(peer.closed) || (r.TrustLost? && peer.connected)
                              || exists i :: 0 <= i < ran && operations[i].value.closesPeer)
    ensures f.store != null ==>
              f.store.devices == if r.TrustLost? then operations[ran].value.registry
                                 else if ran > 0 then operations[ran - 1].value.registry
                                 else old(f.store.devices)
  {
    hide Current, Trusted;
    ran := 0;
    if |operations| == 0 || |operations| > MaxOperationSequence {
      return SequenceInvalid, 0;
    }
    for i := 0 to |operations|
      invariant peer != null ==> peer.closed == old(peer.closed) && peer.fingerprint == old(peer.fingerprint)
      invariant forall k | 0 <= k < i :: operations[k].Some?
    {
      if operations[i].None? {
        return OperationRequired, 0;
      }
    }
    while ran < |operations|
      invariant ran <= |operations|
      invariant forall i | 0 <= i < ran ::
                  operations[i].value.succeeds
                      && Passes(f, peer, operations[i].value.registry, operations[i].value.readable)
      invariant peer != null ==>
                  && peer.fingerprint == old(peer.fingerprint)
                  && peer.closed == (old(peer.closed) || exists i :: 0 <= i < ran && operations[i].value.closesPeer)
      invariant f.store != null ==>
                  f.store.devices == if ran > 0 then operations[ran - 1].value.registry else old(f.store.devices)
    {
      var operation := operations[ran].value;
      if f.store != null {
        f.store.devices := operation.registry;
      }
      var check := RevalidatePeer(f, peer, operation.readable);
      if check.Fail? {
        return TrustLost(check.error), ran;
      }
      ran := ran + 1;
      if operation.closesPeer {
        peer.closed := true;
      }
      if !operation.succeeds {
        return StepFailed, ran;
      }
    }
    return AllRan, ran;
  }

  /**
   What one checkpoint asks, in the fields of the peer and the registry: the entry of the account
   and device is active and carries the key the connection is bound to.  A registry that cannot be
   read or does not load is reported as such, and only when there is something to look up.
   */
  lemma {:induction false} CheckIff(f: Factory, peer: PeerConn?, devices: Registry, readable: bool)
    ensures Passes(f, peer, devices, readable)
       <==> && peer != null && f.store != null
            && |f.accountID| > 0 && Grouped(peer.deviceID) && |peer.fingerprint| > 0
            && readable && AllWholesome(f.store.keys, devices)
            && exists i: nat :: IsEntry(devices, f.accountID, peer.deviceID, i)
                                && devices[i].revokedAt == None && devices[i].fingerprint == peer.fingerprint
    ensures Refuses(f, peer, devices, readable, FactoryUnavailable) <==> |f.accountID| == 0 || f.store == null
    ensures forall e :: Refuses(f, peer, devices, readable, RegistryFailed(e)) <==>
              && f.store != null && |f.accountID| > 0
              && peer != null && Grouped(peer.deviceID) && |peer.fingerprint| > 0
              && if readable then e == InvalidStore && !AllWholesome(f.store.keys, devices) else e == StoreUnreadable
  {
    hide Trusted, AllWholesome, IsEntry;
    if peer != null && f.store != null {
      TrustIff(f.store.keys, devices, f.accountID, peer.deviceID, peer.fingerprint, readable);
    }
  }

  /**
   Losing trust is always somebody's revocation: between a passed and a failed check of readable
   registries of one run, the very pair was revoked.
   */
  lemma {:induction false} TrustLostByRevocation(keys: KeyScheme, run: seq<TrustOp>, i: nat, j: nat, accountID: string,
                                                 deviceID: string, fingerprint: string)
    requires i <= j <= |run|
    requires Current(keys, After(keys, run[..i]), accountID, deviceID, fingerprint, true)
    requires Trusted(keys, After(keys, run[..j]), accountID, deviceID, fingerprint, true) == Success(false)
    ensures exists k :: i <= k < j && run[k].Revoke? && About(run[k], accountID, deviceID)
  {
    hide Loads, ValidDeviceID, Lookup, After;
    KeyChangesOnlyAcrossRevoke(keys, run, i, j, accountID, deviceID);
  }

  /**
   When a check passes, whatever checks before it said or did: exactly when the registry can be
   read and loads, and the pair was authorized with the bound key and not revoked since.
   */
  lemma {:induction false} PassesIff(keys: KeyScheme, run: seq<TrustOp>, j: nat, accountID: string, deviceID: string,
                                     fingerprint: string, readable: bool)
    requires j <= |run|
    ensures Current(keys, After(keys, run[..j]), accountID, deviceID, fingerprint, readable)
       <==> && accountID != "" && ValidDeviceID(deviceID) && fingerprint != ""
            && readable && Loads(keys, After(keys, run[..j]))
            && exists k :: 0 <= k < j && Grants(keys, run, k, accountID, deviceID, fingerprint)
                           && Undisturbed(keys, run, k, j, accountID, deviceID)
  {
    hide Loads, ValidDeviceID, Lookup, After, Grants, Withdraws;
    ActiveIffGranted(keys, run, j, accountID, deviceID, fingerprint);
  }

  /**
   After a check that said no at moment `i`, the authorization must have come in between.  A
   check that failed because the registry could not be read asks for nothing of the kind.
   */
  lemma {:induction false} PassesAgainIff(keys: KeyScheme, run: seq<TrustOp>, i: nat, j: nat, accountID: string,
                                          deviceID: string, fingerprint: string, readable: bool)
    requires i <= j <= |run|
    requires Trusted(keys, After(keys, run[..i]), accountID, deviceID, fingerprint, true) == Success(false)
    ensures Current(keys, After(keys, run[..j]), accountID, deviceID, fingerprint, readable)
       <==> && accountID != "" && ValidDeviceID(deviceID) && fingerprint != ""
            && readable && Loads(keys, After(keys, run[..j]))
            && exists k :: i <= k < j && Grants(keys, run, k, accountID, deviceID, fingerprint)
                           && Undisturbed(keys, run, k, j, accountID, deviceID)
  {
    hide Loads, ValidDeviceID, Lookup, After, Grants, Withdraws;
    PassesIff(keys, run, i, accountID, deviceID, fingerprint, true);
    PassesIff(keys, run, j, accountID, deviceID, fingerprint, readable);
    if k: nat :|
      k < j && Grants(keys, run, k, accountID, deviceID, fingerprint)
          && Undisturbed(keys, run, k, j, accountID, deviceID)
    {
      assert k < i ==> Undisturbed(keys, run, k, i, accountID, deviceID);
    }
  }

  /** A registry that does not load never loads again, so after such a failure no check passes any more. */
  lemma {:induction false} UnloadableStays(keys: KeyScheme, run: seq<TrustOp>, i: nat, j: nat)
    requires i <= j <= |run| && !Loads(keys, After(keys, run[..i]))
    ensures After(keys, run[..j]) == After(keys, run[..i])
    decreases j
  {
    hide Loads, ValidDeviceID, Lookup, After, IndexOf, Saved;
    if i < j {
      UnloadableStays(keys, run, i, j - 1);
      AfterNext(keys, run, j - 1);
    }
  }

  /**
   The closed flag does not matter to a check: a peer closed because its device was revoked
   passes once the same pairing is authorized again, and a step is run with the closed peer.
   */
  method ClosedPeerRunsAgain(f: Factory, peer: PeerConn, p: VerifiedPairing, times: (Time, Time, Time))
    returns (first: Outcome<CheckError>, second: Outcome<CheckError>, last: SequenceResult, ran: nat)
    requires f.accountID != "" && f.store != null && f.store.devices == []
    requires Genuine(f.store.keys, p) && p.publicKey != "" && p.fingerprint != ""
    requires times.0 != ZeroTime && times.2 != ZeroTime
    requires peer.connected && !peer.closed && peer.deviceID == p.deviceID && peer.fingerprint == p.fingerprint
    modifies peer, f.store
    ensures first.Pass? && second.Fail? && peer.closed
    ensures last == AllRan && ran == 1
  {
    assert p.deviceID != "";
    hide ValidDeviceID;
    var works := Disk(true, true);
    var granted := f.store.Authorize(f.accountID, p, times.0, works);
    assert f.store.devices == [DeviceFromPairing(f.accountID, p, times.0)];
    first := RevalidatePeer(f, peer, true);
    var revoked := f.store.Revoke(f.accountID, p.deviceID, times.1, works);
    assert f.store.devices == [DeviceFromPairing(f.accountID, p, times.0).(revokedAt := Some(times.1))];
    second := RevalidatePeer(f, peer, true);
    granted := f.store.Authorize(f.accountID, p, times.2, works);
    assert f.store.devices == [DeviceFromPairing(f.accountID, p, times.2)];
    var step := Operation(f.store.devices, true, true, false);
    last, ran := RunOperationSequenceWithCurrentTrust(f, peer, [Some(step)]);
    assert [Some(step)][0].value == step;
  }

  /**
   Nor is an authorization always needed: a peer closed because the registry could not be read
   passes the next check as soon as it can, with the registry as it was.
   */
  method UnreadableRegistryClosesPeer(f: Factory, peer: PeerConn)
    returns (check: Outcome<CheckError>, last: SequenceResult, ran: nat)
    requires peer.connected && !peer.closed && f.store != null && Passes(f, peer, f.store.devices, true)
    modifies peer, f.store
    ensures check.Fail? && peer.closed && f.store.devices == old(f.store.devices)
    ensures last == AllRan && ran == 1
  {
    hide Loads, ValidDeviceID, Lookup;
    check := RevalidatePeer(f, peer, false);
    var step := Operation(f.store.devices, true, true, false);
    last, ran := RunOperationSequenceWithCurrentTrust(f, peer, [Some(step)]);
    assert [Some(step)][0].value == step;
  }
}
