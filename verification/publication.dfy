/** Publishing verified staged bytes into a directory without ever overwriting a file. */
module Publication {
  import opened Outcomes
  import opened Streams
  import opened Manifests
  import opened PayloadProtocol

  /** A directory: file contents by leaf name. */
  type Files = map<string, Bytes>

  class Directory {
    var files: Files

    constructor ()
      ensures files == map[]
    {
      files := map[];
    }
  }

  /** The decisions of the application and the answers of the file system during one call. */
  datatype Conditions = Conditions(
    rootUnchanged: bool,
    authorized: bool,
    tempName: string,
    secured: bool,
    writable: bool,
    synced: bool,
    linkable: bool,
    tempRemovable: bool)

  datatype PublishError =
    | OfferRefused
    | ReceiptRefused
    | RootChanged
    | NotAuthorized
    | NoTempFile
    | NotSecured
    | VerificationFailed
    | NotSynced
    | DestinationExists
    | LinkFailed

  /** Published, possibly with the temporary file left behind, or refused. */
  datatype PublishResult = Published(cleanedUp: bool) | NotPublished(error: PublishError)

  /** The directory after one call, given the staged bytes: unchanged, or one more file. */
  function FilesAfter(files: Files, m: Manifest, staged: Bytes, c: Conditions, r: PublishResult,
                      left: Option<Bytes>): Files
  {
    var base := if r.Published? then files[m.filename := staged] else files;
    match left
    case None => base
    case Some(bytes) => base[c.tempName := bytes]
  }

  /** One call of a run: what it was given, how it ended and what it left behind. */
  datatype Call = Call(m: Manifest, staged: Bytes, c: Conditions, r: PublishResult, left: Option<Bytes>)

  predicate VerifiedBy(hash: Hasher, m: Manifest, p: Bytes)
  {
    Valid(hash, m) && Matches(hash, m, p)
  }

  /** What the contract of `Publish` says about a call on a directory. */
  predicate Admissible(hash: Hasher, files: Files, call: Call)
  {
    && (call.r.Published? ==>
         VerifiedBy(hash, call.m, call.staged) && call.m.filename !in files)
    && (call.left.Some? ==> call.c.tempName !in files && (call.r.Published? ==> call.c.tempName != call.m.filename))
    && (call.c.tempRemovable ==> call.left == None)
  }

  function AfterCall(files: Files, call: Call): Files
  {
    FilesAfter(files, call.m, call.staged, call.c, call.r, call.left)
  }

  method Publish(d: Directory, hash: Hasher, offer: PayloadOffer, receipt: PayloadReceipt, staged: ByteReader,
                 c: Conditions)
    returns (r: PublishResult, ghost left: Option<Bytes>)
    modifies d, staged
    ensures var call := Call(offer.manifest, old(staged.remaining), c, r, left);
            Admissible(hash, old(d.files), call) && d.files == AfterCall(old(d.files), call)
    ensures r.Published? <==>
              && ValidOffer(hash, offer) && ReceiptFor(receipt, offer) && c.rootUnchanged && c.authorized
              && c.tempName !in old(d.files) && c.secured && (c.writable || old(staged.remaining) == [])
              && staged.end == EndOfFile && Matches(hash, offer.manifest, old(staged.remaining))
              && c.synced && c.linkable
              && offer.manifest.filename !in old(d.files) && offer.manifest.filename != c.tempName
    ensures r == Published(true) ==> left == None
    ensures r == Published(false) ==> left == Some(old(staged.remaining))
    ensures r == NotPublished(DestinationExists) ==>
              offer.manifest.filename in old(d.files) || offer.manifest.filename == c.tempName
  {
    hide Valid, Matches, ReceiptFor;
    left := None;
    if !ValidOffer(hash, offer) {
      return NotPublished(OfferRefused), None;
    }
    if !ReceiptFor(receipt, offer) {
      return NotPublished(ReceiptRefused), None;
    }
    if !c.rootUnchanged {
      return NotPublished(RootChanged), None;
    }
    if !c.authorized {
      return NotPublished(NotAuthorized), None;
    }
    if c.tempName in d.files {
      return NotPublished(NoTempFile), None;
    }
    ghost var files := d.files;
    d.files := d.files[c.tempName := []];
    var failure := FillAndLink(d, hash, offer.manifest, staged, c, files);
    left := RemoveTemp(d, c);
    r := if failure.None? then Published(c.tempRemovable) else NotPublished(failure.value);
  }

  /** From the empty temporary file to the link under the final name. */
  method FillAndLink(d: Directory, hash: Hasher, m: Manifest, staged: ByteReader, c: Conditions, ghost files: Files)
    returns (failure: Option<PublishError>)
    requires c.tempName !in files && d.files == files[c.tempName := []]
    modifies d, staged
    ensures c.tempName in d.files
    ensures failure.Some? ==> d.files == files[c.tempName := d.files[c.tempName]]
    ensures failure.None? <==>
              && c.secured && (c.writable || old(staged.remaining) == [])
              && VerifiedBy(hash, m, old(staged.remaining)) && staged.end == EndOfFile
              && c.synced && c.linkable && m.filename !in files && m.filename != c.tempName
    ensures failure.None? ==>
              d.files == files[c.tempName := old(staged.remaining)][m.filename := old(staged.remaining)]
    ensures failure == Some(DestinationExists) ==> m.filename in files || m.filename == c.tempName
  {
    hide Valid, Matches;
    if !c.secured {
      return Some(NotSecured);
    }
    var copied: Bytes, ok := CopyVerified(hash, m, staged, c.writable);
    d.files := d.files[c.tempName := copied];
    if !ok {
      return Some(VerificationFailed);
    }
    if !c.synced {
      return Some(NotSynced);
    }
    if m.filename in d.files {
      return Some(DestinationExists);
    }
    if !c.linkable {
      return Some(LinkFailed);
    }
    d.files := d.files[m.filename := d.files[c.tempName]];
    return None;
  }

  /** `VerifyPayload` over a tee: the bytes the verification consumed are the bytes that were copied. */
  method CopyVerified(hash: Hasher, m: Manifest, staged: ByteReader, writable: bool) returns (copied: Bytes, ok: bool)
    modifies staged
    ensures ok <==>
              && (writable || old(staged.remaining) == [])
              && Valid(hash, m) && staged.end == EndOfFile && Matches(hash, m, old(staged.remaining))
    ensures copied + staged.remaining == old(staged.remaining)
    ensures ok ==> copied == old(staged.remaining)
  {
    hide Valid, Matches;
    var data := staged.remaining;
    if !writable && data != [] {
      var n: nat :| n <= |data|;
      staged.remaining := data[n..];
      return data[..n], false;
    }
    ok := VerifyPayload(hash, m, staged);
    copied := data[..|data| - |staged.remaining|];
    assert data == data[..|data| - |staged.remaining|] + data[|data| - |staged.remaining|..];
  }

  /** The clean-up of the temporary file, which may fail and then leaves its bytes behind. */
  method RemoveTemp(d: Directory, c: Conditions) returns (ghost left: Option<Bytes>)
    requires c.tempName in d.files
    modifies d
    ensures d.files == if c.tempRemovable then old(d.files) - {c.tempName} else old(d.files)
    ensures left == if c.tempRemovable then None else Some(old(d.files)[c.tempName])
  {
    left := if c.tempRemovable then None else Some(d.files[c.tempName]);
    if c.tempRemovable {
      d.files := d.files - {c.tempName};
    }
  }

  /** A run of calls, each admissible where it starts, from `files` to `result`. */
  ghost predicate Run(hash: Hasher, files: Files, calls: seq<Call>, result: Files)
    decreases |calls|
  {
    if calls == [] then result == files
    else Admissible(hash, files, calls[0]) && Run(hash, AfterCall(files, calls[0]), calls[1..], result)
  }

  /** A file once present keeps its bytes through any run of publications. */
  lemma {:induction false} FilesAreForever(hash: Hasher, files: Files, calls: seq<Call>, result: Files, name: string)
    requires Run(hash, files, calls, result) && name in files
    ensures name in result && result[name] == files[name]
    decreases |calls|
  {
    hide VerifiedBy;
    if calls != [] {
      FilesAreForever(hash, AfterCall(files, calls[0]), calls[1..], result, name);
    }
  }

  /** Call `i` of the run put `name` there: verified under its manifest, or as a temporary file left behind. */
  ghost predicate PutBy(hash: Hasher, calls: seq<Call>, i: nat, name: string, bytes: Bytes)
    requires i < |calls|
  {
    || (calls[i].r.Published? && calls[i].m.filename == name && VerifiedBy(hash, calls[i].m, bytes))
    || (calls[i].left == Some(bytes) && calls[i].c.tempName == name && !calls[i].c.tempRemovable)
  }

  /**
   Every new file of a run was put there by one of its calls: published with bytes that match
   the manifest of that call, or left behind because its temporary file could not be removed.
   */
  lemma {:induction false} NewFilesAreVerified(hash: Hasher, files: Files, calls: seq<Call>, result: Files,
                                               name: string)
    requires Run(hash, files, calls, result) && name in result && name !in files
    ensures exists i :: 0 <= i < |calls| && PutBy(hash, calls, i, name, result[name])
    decreases |calls|
  {
    hide VerifiedBy;
    var after := AfterCall(files, calls[0]);
    if name in after {
      FilesAreForever(hash, after, calls[1..], result, name);
      assert PutBy(hash, calls, 0, name, result[name]);
    } else {
      NewFilesAreVerified(hash, after, calls[1..], result, name);
      var i :| 0 <= i < |calls[1..]| && PutBy(hash, calls[1..], i, name, result[name]);
      assert calls[i + 1] == calls[1..][i];
      assert PutBy(hash, calls, i + 1, name, result[name]);
    }
  }

  /** The directory grows by exactly one file per success and one per failed clean-up. */
  lemma {:induction false} OneFilePerSuccess(hash: Hasher, files: Files, calls: seq<Call>, result: Files)
    requires Run(hash, files, calls, result)
    ensures |result| == |files| + Successes(calls) + Leftovers(calls)
    decreases |calls|
  {
    hide VerifiedBy;
    if calls != [] {
      OneFilePerSuccess(hash, AfterCall(files, calls[0]), calls[1..], result);
    }
  }

  function Leftovers(calls: seq<Call>): nat
  {
    if calls == [] then 0 else (if calls[0].left.Some? then 1 else 0) + Leftovers(calls[1..])
  }

  function Successes(calls: seq<Call>): nat
  {
    if calls == [] then 0 else (if calls[0].r.Published? then 1 else 0) + Successes(calls[1..])
  }

  /** A file published under the manifest of a payload is that payload, unless the hash collides. */
  lemma {:induction false} PublishedIsPayload(hash: Hasher, filename: string, payload: Bytes, chunkSize: nat,
                                              file: Bytes)
    requires ValidFilename(filename) && ValidChunkSize(chunkSize) && |payload| <= MaxInt64
    requires Matches(hash, ManifestOf(hash, filename, payload, chunkSize), file)
    ensures file == payload || Collides(hash, file, payload)
  {
    hide Valid, Matches;
    ManifestRoundTrip(hash, filename, payload, file, chunkSize);
  }
}
