/** One connection to a peer: a write-once key binding and a closed flag that never clears. */
module Peers {
  import opened Text
  import opened Streams

  class PeerConn {
    const connected: bool
    const input: ByteReader
    const output: ByteWriter
    const deviceID: string
    var fingerprint: string
    var closed: bool

    constructor (connected: bool, input: ByteReader, output: ByteWriter, deviceID: string)
      ensures this.connected == connected && this.input == input && this.output == output && this.deviceID == deviceID
      ensures fingerprint == "" && !closed
    {
      this.connected, this.input, this.output, this.deviceID := connected, input, output, deviceID;
      fingerprint, closed := "", false;
    }

    /** What a payload transfer asks of a peer before it starts. */
    predicate Trusted()
      reads this
    {
      connected && !closed && deviceID != "" && fingerprint != ""
    }

    /** Binds the trimmed fingerprint of an authenticated open peer, once: a bound value never changes. */
    method BindAuthenticatedKeyFingerprint(value: string) returns (ok: bool)
      modifies this`fingerprint
      ensures ok <==> connected && !closed && deviceID != "" && !Blank(value)
                      && (old(fingerprint) == "" || old(fingerprint) == TrimSpace(value))
      ensures fingerprint == if ok then TrimSpace(value) else old(fingerprint)
      ensures old(fingerprint) != "" ==> fingerprint == old(fingerprint)
    {
      if !connected || closed || deviceID == "" {
        return false;
      }
      var trimmed := TrimSpace(value);
      if trimmed == "" {
        return false;
      }
      if fingerprint != "" {
        return fingerprint == trimmed;
      }
      fingerprint := trimmed;
      return true;
    }

    /** `Close`: idempotent, and without effect on a peer that has no connection. */
    method Close()
      modifies this`closed
      ensures closed == (old(closed) || connected)
    {
      if connected {
        closed := true;
      }
    }
  }
}
