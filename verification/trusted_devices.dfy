/** The durable registry of authorized devices. */
module TrustedDevices {
  import opened Outcomes
  import opened Records
  import opened Streams
  import opened Text

  datatype TrustedDevice = TrustedDevice(
    accountID: string,
    deviceID: string,
    publicKey: string,
    fingerprint: string,
    authorizedAt: Time,
    revokedAt: Option<Time>)

  /** A pairing whose one-time challenge was answered. */
  datatype VerifiedPairing = VerifiedPairing(deviceID: string, publicKey: string, fingerprint: string)

  /** Base64 decoding to a 32-byte key, and the fingerprint of a key. */
  datatype KeyScheme = KeyScheme(decode: string -> Option<Bytes>, fingerprintOf: Bytes -> string)

  type Registry = seq<TrustedDevice>

  datatype TrustError = InvalidStore | KeyMismatch | NotFound | StoreUnreadable | StoreUnwritable

  predicate ValidDeviceID(id: string)
  {
    |id| == 36 && forall i | 0 <= i < 36 ::
      if i in {8, 13, 18, 23} then id[i] == '-' else '0' <= id[i] <= '9' || 'a' <= id[i] <= 'f'
  }

  predicate ValidDevice(keys: KeyScheme, d: TrustedDevice)
  {
    && d.accountID != "" && ValidDeviceID(d.deviceID) && d.authorizedAt != ZeroTime
    && keys.decode(d.publicKey).Some?
    && keys.fingerprintOf(keys.decode(d.publicKey).value) == d.fingerprint
  }

  /** What `load` accepts: one malformed device makes the whole registry unusable. */
  predicate Loads(keys: KeyScheme, devices: Registry)
  {
    forall i | 0 <= i < |devices| :: ValidDevice(keys, devices[i])
  }

  predicate Names(d: TrustedDevice, accountID: string, deviceID: string)
  {
    d.accountID == accountID && d.deviceID == deviceID
  }

  /** The index of the first entry of a pair, or the length when there is none. */
  function IndexOf(devices: Registry, accountID: string, deviceID: string): (i: nat)
    ensures i <= |devices|
  {
    if devices == [] || Names(devices[0], accountID, deviceID) then 0
    else 1 + IndexOf(devices[1..], accountID, deviceID)
  }

  lemma {:induction false} IndexIsFirst(devices: Registry, accountID: string, deviceID: string, i: nat)
    requires i <= |devices| && forall k | 0 <= k < i :: !Names(devices[k], accountID, deviceID)
    requires i < |devices| ==> Names(devices[i], accountID, deviceID)
    ensures IndexOf(devices, accountID, deviceID) == i
  {
    if i > 0 {
      IndexIsFirst(devices[1..], accountID, deviceID, i - 1);
    }
  }

  lemma {:induction false} IndexFinds(devices: Registry, accountID: string, deviceID: string)
    ensures var i := IndexOf(devices, accountID, deviceID);
            && (forall k | 0 <= k < i :: !Names(devices[k], accountID, deviceID))
            && (i < |devices| ==> Names(devices[i], accountID, deviceID))
  {
    if devices != [] && !Names(devices[0], accountID, deviceID) {
      IndexFinds(devices[1..], accountID, deviceID);
    }
  }

  /** The registry's entry for a pair. */
  function Lookup(devices: Registry, accountID: string, deviceID: string): Option<TrustedDevice>
  {
    var i := IndexOf(devices, accountID, deviceID);
    if i < |devices| then Some(devices[i]) else None
  }

  function DeviceFromPairing(accountID: string, p: VerifiedPairing, now: Time): TrustedDevice
  {
    TrustedDevice(accountID, p.deviceID, p.publicKey, p.fingerprint, now, None)
  }

  datatype Disk = Disk(readable: bool, writable: bool)

  type Answer = Result<TrustedDevice, TrustError>

  /** Registry and answer after one write of `after`. */
  function Saved(before: Registry, after: Registry, disk: Disk, d: TrustedDevice): (Registry, Answer)
  {
    if disk.writable then (after, Success(d)) else (before, Failure(StoreUnwritable))
  }

  /** Registry and answer after one `Authorize`. */
  function Authorized(keys: KeyScheme, devices: Registry, accountID: string, p: VerifiedPairing, now: Time, disk: Disk)
    : (Registry, Answer)
  {
    if accountID == "" || p.deviceID == "" || p.publicKey == "" || p.fingerprint == "" then
      (devices, Failure(InvalidStore))
    else if !disk.readable then (devices, Failure(StoreUnreadable))
    else if !Loads(keys, devices) then (devices, Failure(InvalidStore))
    else
      var i, added := IndexOf(devices, accountID, p.deviceID), DeviceFromPairing(accountID, p, now);
      if i == |devices| then Saved(devices, devices + [added], disk, added)
      else if devices[i].revokedAt.Some? then Saved(devices, devices[i := added], disk, added)
      else if devices[i].fingerprint != p.fingerprint || devices[i].publicKey != p.publicKey then
        (devices, Failure(KeyMismatch))
      else (devices, Success(devices[i]))
  }

  /** Registry and answer after one `Revoke`. */
  function Revoked(keys: KeyScheme, devices: Registry, accountID: string, deviceID: string, now: Time, disk: Disk)
    : (Registry, Answer)
  {
    if accountID == "" || !ValidDeviceID(deviceID) then (devices, Failure(NotFound))
    else if !disk.readable then (devices, Failure(StoreUnreadable))
    else if !Loads(keys, devices) then (devices, Failure(InvalidStore))
    else
      var i := IndexOf(devices, accountID, deviceID);
      if i == |devices| then (devices, Failure(NotFound))
      else if devices[i].revokedAt.Some? then (devices, Success(devices[i]))
      else
        var gone := devices[i].(revokedAt := Some(now));
        Saved(devices, devices[i := gone], disk, gone)
  }

  /** The device a pair currently resolves to. */
  function Resolved(keys: KeyScheme, devices: Registry, accountID: string, deviceID: string, readable: bool): Answer
  {
    if accountID == "" || !ValidDeviceID(deviceID) then Failure(NotFound)
    else if !readable then Failure(StoreUnreadable)
    else if !Loads(keys, devices) then Failure(InvalidStore)
    else match Lookup(devices, accountID, deviceID)
      case None => Failure(NotFound)
      case Some(d) => if d.revokedAt.Some? then Failure(NotFound) else Success(d)
  }

  function Trusted(keys: KeyScheme, devices: Registry, accountID: string, deviceID: string, fingerprint: string,
                   readable: bool)
    : Result<bool, TrustError>
  {
    if accountID == "" || !ValidDeviceID(deviceID) || fingerprint == "" then Success(false)
    else if !readable then Failure(StoreUnreadable)
    else if !Loads(keys, devices) then Failure(InvalidStore)
    else match Lookup(devices, accountID, deviceID)
      case None => Success(false)
      case Some(d) => Success(d.revokedAt.None? && d.fingerprint == fingerprint)
  }

  class TrustedDeviceStore {
    const keys: KeyScheme
    var devices: Registry

    constructor (keys: KeyScheme)
      ensures this.keys == keys && devices == []
    {
      this.keys, devices := keys, [];
    }

    /** `loadLocked`: every entry is validated before any is used. */
    method Load(readable: bool) returns (r: Result<Registry, TrustError>)
      ensures r == if !readable then Failure(StoreUnreadable)
                   else if Loads(keys, devices) then Success(devices)
                   else Failure(InvalidStore)
    {
      if !readable {
        return Failure(StoreUnreadable);
      }
      for i := 0 to |devices|
        invariant forall k | 0 <= k < i :: ValidDevice(keys, devices[k])
      {
        if !ValidDevice(keys, devices[i]) {
          return Failure(InvalidStore);
        }
      }
      return Success(devices);
    }

    method Authorize(accountID: string, p: VerifiedPairing, now: Time, disk: Disk) returns (r: Answer)
      modifies this
      ensures (devices, r) == Authorized(keys, old(devices), accountID, p, now, disk)
    {
      hide Loads, ValidDevice;
      if accountID == "" || p.deviceID == "" || p.publicKey == "" || p.fingerprint == "" {
        return Failure(InvalidStore);
      }
      var loaded := Load(disk.readable);
      if loaded.Failure? {
        return Failure(loaded.error);
      }
      var state := loaded.value;
      for i := 0 to |state|
        invariant devices == old(devices)
        invariant forall k | 0 <= k < i :: !Names(state[k], accountID, p.deviceID)
      {
        var existing := state[i];
        if existing.accountID != accountID || existing.deviceID != p.deviceID {
          continue;
        }
        IndexIsFirst(state, accountID, p.deviceID, i);
        if existing.revokedAt.None? {
          if existing.fingerprint != p.fingerprint || existing.publicKey != p.publicKey {
            return Failure(KeyMismatch);
          }
          return Success(existing);
        }
        var replacement := DeviceFromPairing(accountID, p, now);
        if !disk.writable {
          return Failure(StoreUnwritable);
        }
        devices := state[i := replacement];
        return Success(replacement);
      }
      IndexIsFirst(state, accountID, p.deviceID, |state|);
      var device := DeviceFromPairing(accountID, p, now);
      if !disk.writable {
        return Failure(StoreUnwritable);
      }
      devices := state + [device];
      return Success(device);
    }

    method Revoke(accountID: string, deviceID: string, now: Time, disk: Disk) returns (r: Answer)
      modifies this
      ensures (devices, r) == Revoked(keys, old(devices), accountID, deviceID, now, disk)
    {
      hide Loads, ValidDevice, ValidDeviceID;
      if accountID == "" || !ValidDeviceID(deviceID) {
        return Failure(NotFound);
      }
      var loaded := Load(disk.readable);
      if loaded.Failure? {
        return Failure(loaded.error);
      }
      var state := loaded.value;
      for i := 0 to |state|
        invariant devices == old(devices)
        invariant forall k | 0 <= k < i :: !Names(state[k], accountID, deviceID)
      {
        var device := state[i];
        if device.accountID != accountID || device.deviceID != deviceID {
          continue;
        }
        IndexIsFirst(state, accountID, deviceID, i);
        if device.revokedAt.Some? {
          return Success(device);
        }
        device := device.(revokedAt := Some(now));
        if !disk.writable {
          return Failure(StoreUnwritable);
        }
        devices := state[i := device];
        return Success(device);
      }
      IndexIsFirst(state, accountID, deviceID, |state|);
      return Failure(NotFound);
    }

    method Resolve(accountID: string, deviceID: string, readable: bool) returns (r: Answer)
      ensures r == Resolved(keys, devices, accountID, deviceID, readable)
    {
      hide ValidDeviceID;
      if accountID == "" || !ValidDeviceID(deviceID) {
        return Failure(NotFound);
      }
      var loaded := Load(readable);
      if loaded.Failure? {
        return Failure(loaded.error);
      }
      for i := 0 to |loaded.value|
        invariant forall k | 0 <= k < i :: !Names(loaded.value[k], accountID, deviceID)
      {
        var device := loaded.value[i];
        if device.accountID != accountID || device.deviceID != deviceID {
          continue;
        }
        IndexIsFirst(loaded.value, accountID, deviceID, i);
        if device.revokedAt.Some? {
          return Failure(NotFound);
        }
        if !ValidDevice(keys, device) {
          return Failure(InvalidStore);
        }
        return Success(device);
      }
      IndexIsFirst(loaded.value, accountID, deviceID, |loaded.value|);
      return Failure(NotFound);
    }

    method IsTrusted(accountID: string, deviceID: string, fingerprint: string, readable: bool)
      returns (r: Result<bool, TrustError>)
      ensures r == Trusted(keys, devices, accountID, deviceID, fingerprint, readable)
    {
      hide Loads, ValidDevice, ValidDeviceID;
      if accountID == "" || !ValidDeviceID(deviceID) || fingerprint == "" {
        return Success(false);
      }
      var loaded := Load(readable);
      if loaded.Failure? {
        return Failure(loaded.error);
      }
      for i := 0 to |loaded.value|
        invariant forall k | 0 <= k < i :: !Names(loaded.value[k], accountID, deviceID)
      {
        var device := loaded.value[i];
        if device.accountID == accountID && device.deviceID == deviceID {
          IndexIsFirst(loaded.value, accountID, deviceID, i);
          return Success(device.revokedAt.None? && device.fingerprint == fingerprint);
        }
      }
      IndexIsFirst(loaded.value, accountID, deviceID, |loaded.value|);
      return Success(false);
    }
  }

  /** `IsTrusted` answers yes exactly for the fingerprint of the device `Resolve` returns. */
  lemma {:induction false} TrustedIffResolved(keys: KeyScheme, devices: Registry, accountID: string, deviceID: string,
                                              fingerprint: string, readable: bool)
    requires fingerprint != ""
    ensures Trusted(keys, devices, accountID, deviceID, fingerprint, readable) == Success(true)
       <==> (var r := Resolved(keys, devices, accountID, deviceID, readable);
             r.Success? && r.value.fingerprint == fingerprint
             && keys.decode(r.value.publicKey).Some?
                && keys.fingerprintOf(keys.decode(r.value.publicKey).value) == fingerprint)
  {
    hide ValidDeviceID;
    IndexFinds(devices, accountID, deviceID);
  }

  /** Five groups of 8, 4, 4, 4 and 12 lowercase hexadecimal digits, joined by hyphens. */
  ghost predicate Grouped(id: string)
  {
    && |id| == 36 && id[8] == id[13] == id[18] == id[23] == '-'
    && forall c | c in id[..8] + id[9..13] + id[14..18] + id[19..23] + id[24..] :: c in "0123456789abcdef"
  }

  lemma {:induction false} DeviceIDIff(id: string)
    ensures ValidDeviceID(id) <==> Grouped(id)
  {
    if |id| == 36 {
      var digits := id[..8] + id[9..13] + id[14..18] + id[19..23] + id[24..];
      if ValidDeviceID(id) {
        forall c | c in digits
          ensures c in "0123456789abcdef"
        {
          assert '0' <= c <= '9' || 'a' <= c <= 'f';
          HexDigit(c);
        }
      }
      if Grouped(id) {
        forall i | 0 <= i < 36 && i !in {8, 13, 18, 23}
          ensures '0' <= id[i] <= '9' || 'a' <= id[i] <= 'f'
        {
          var k := i - (if i < 8 then 0 else if i < 13 then 1 else if i < 18 then 2 else if i < 23 then 3 else 4);
          assert digits[k] == id[i];
          HexRange(id[i]);
        }
      }
    }
  }

  /** An entry the store can use: named, dated, and with the fingerprint of its own key. */
  ghost predicate Wholesome(keys: KeyScheme, d: TrustedDevice)
  {
    && |d.accountID| > 0 && Grouped(d.deviceID) && d.authorizedAt != 0
    && exists key :: keys.decode(d.publicKey) == Some(key) && keys.fingerprintOf(key) == d.fingerprint
  }

  ghost predicate AllWholesome(keys: KeyScheme, devices: Registry)
  {
    forall d | d in devices :: Wholesome(keys, d)
  }

  lemma {:induction false} LoadsIff(keys: KeyScheme, devices: Registry)
    ensures Loads(keys, devices) <==> AllWholesome(keys, devices)
  {
    hide ValidDeviceID, Grouped;
    forall d
      ensures ValidDevice(keys, d) <==> Wholesome(keys, d)
    {
      DeviceIDIff(d.deviceID);
      if keys.decode(d.publicKey).Some? {
        assert keys.decode(d.publicKey) == Some(keys.decode(d.publicKey).value);
      }
    }
  }

  /** The first entry of a pair. */
  ghost predicate IsEntry(devices: Registry, accountID: string, deviceID: string, i: nat)
  {
    && i < |devices| && devices[i].accountID == accountID && devices[i].deviceID == deviceID
    && forall j | 0 <= j < i :: devices[j].accountID != accountID || devices[j].deviceID != deviceID
  }

  lemma {:induction false} EntryIff(devices: Registry, accountID: string, deviceID: string, i: nat)
    ensures IsEntry(devices, accountID, deviceID, i) <==> i < |devices| && i == IndexOf(devices, accountID, deviceID)
  {
    IndexFinds(devices, accountID, deviceID);
    if IsEntry(devices, accountID, deviceID, i) {
      IndexIsFirst(devices, accountID, deviceID, i);
    }
  }

  /** When a key is trusted, and why a question stays without an answer. */
  lemma {:induction false} TrustIff(keys: KeyScheme, devices: Registry, accountID: string, deviceID: string,
                                    fingerprint: string, readable: bool)
    ensures var r := Trusted(keys, devices, accountID, deviceID, fingerprint, readable);
            var asked := |accountID| > 0 && Grouped(deviceID) && |fingerprint| > 0;
            && (r == Success(true)
                <==> && asked && readable && AllWholesome(keys, devices)
                     && exists i: nat :: IsEntry(devices, accountID, deviceID, i)
                                         && devices[i].revokedAt == None && devices[i].fingerprint == fingerprint)
            && (r == Failure(StoreUnreadable) <==> asked && !readable)
            && (r == Failure(InvalidStore) <==> asked && readable && !AllWholesome(keys, devices))
            && (r.Failure? ==> r.error == StoreUnreadable || r.error == InvalidStore)
  {
    hide ValidDeviceID, Grouped, Loads, AllWholesome, IsEntry;
    DeviceIDIff(deviceID);
    LoadsIff(keys, devices);
    forall i: nat
      ensures IsEntry(devices, accountID, deviceID, i) <==> i < |devices| && i == IndexOf(devices, accountID, deviceID)
    {
      EntryIff(devices, accountID, deviceID, i);
    }
  }

  /** `Resolve` returns exactly the active entry of the pair. */
  lemma {:induction false} ResolveIff(keys: KeyScheme, devices: Registry, accountID: string, deviceID: string,
                                      readable: bool, d: TrustedDevice)
    ensures Resolved(keys, devices, accountID, deviceID, readable) == Success(d)
       <==> && |accountID| > 0 && Grouped(deviceID) && readable && AllWholesome(keys, devices) && d.revokedAt == None
            && exists i: nat :: IsEntry(devices, accountID, deviceID, i) && devices[i] == d
  {
    hide ValidDeviceID, Grouped, Loads, AllWholesome, IsEntry;
    DeviceIDIff(deviceID);
    LoadsIff(keys, devices);
    forall i: nat
      ensures IsEntry(devices, accountID, deviceID, i) <==> i < |devices| && i == IndexOf(devices, accountID, deviceID)
    {
      EntryIff(devices, accountID, deviceID, i);
    }
  }

  /**
   An authorization: a pair without an entry gets one, a revoked entry is replaced, an active one
   is confirmed if its key is the same; in every other case nothing changes and there is no success.
   */
  lemma {:induction false} AuthorizeEffect(keys: KeyScheme, devices: Registry, accountID: string, p: VerifiedPairing,
                                           now: Time, disk: Disk, i: nat)
    requires i == |devices| ==> forall d | d in devices :: d.accountID != accountID || d.deviceID != p.deviceID
    requires i < |devices| ==> IsEntry(devices, accountID, p.deviceID, i)
    requires i <= |devices|
    ensures var (after, r) := Authorized(keys, devices, accountID, p, now, disk);
            var entry := TrustedDevice(accountID, p.deviceID, p.publicKey, p.fingerprint, now, None);
            var open := |accountID| > 0 && |p.deviceID| > 0 && |p.publicKey| > 0 && |p.fingerprint| > 0
                        && disk.readable && AllWholesome(keys, devices);
            var same := i < |devices| && devices[i].revokedAt == None;
            && (r.Success? <==>
                  && open
                  && if same then devices[i].fingerprint == p.fingerprint && devices[i].publicKey == p.publicKey
                     else disk.writable)
            && (r.Success? ==> r.value == if same then devices[i] else entry)
            && after == (if !r.Success? || same then devices
                         else if i < |devices| then devices[i := entry] else devices + [entry])
  {
    hide Loads, AllWholesome;
    LoadsIff(keys, devices);
    if i < |devices| {
      EntryIff(devices, accountID, p.deviceID, i);
    } else {
      IndexIsFirst(devices, accountID, p.deviceID, |devices|);
    }
  }

  /** A revocation: an active entry gets the time of the call, a revoked one keeps its own, and nothing else changes. */
  lemma {:induction false} RevokeEffect(keys: KeyScheme, devices: Registry, accountID: string, deviceID: string,
                                        now: Time, disk: Disk, i: nat)
    requires i == |devices| ==> forall d | d in devices :: d.accountID != accountID || d.deviceID != deviceID
    requires i < |devices| ==> IsEntry(devices, accountID, deviceID, i)
    requires i <= |devices|
    ensures var (after, r) := Revoked(keys, devices, accountID, deviceID, now, disk);
            var active := i < |devices| && devices[i].revokedAt == None;
            && (r.Success? <==> && |accountID| > 0 && Grouped(deviceID) && disk.readable && AllWholesome(keys, devices)
                                && i < |devices| && (active ==> disk.writable))
            && (r.Success? ==> r.value == if active then devices[i].(revokedAt := Some(now)) else devices[i])
            && after == (if r.Success? && active then devices[i := devices[i].(revokedAt := Some(now))] else devices)
  {
    hide Loads, AllWholesome, ValidDeviceID, Grouped;
    LoadsIff(keys, devices);
    DeviceIDIff(deviceID);
    if i < |devices| {
      EntryIff(devices, accountID, deviceID, i);
    } else {
      IndexIsFirst(devices, accountID, deviceID, |devices|);
    }
  }
}
