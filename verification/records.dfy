/** Record envelopes, negotiated capabilities and the record invariant. */
module Records {
  import opened Outcomes
  import opened Text

  const MaxRecordIDBytes := 512

  /** Go's `uint64`. */
  type Revision = n: int | 0 <= n < 0x1_0000_0000_0000_0000

  /** An instant in nanoseconds; `ZeroTime` is Go's zero `time.Time`. */
  type Time = int

  const ZeroTime: Time := 0

  /** Go's `map[string]any` payload: nil, or a map from field name to JSON text. */
  datatype Payload = NilPayload | Fields(entries: map<string, string>)

  datatype RecordEnvelope = RecordEnvelope(
    dataset: string,
    schemaVersion: int,
    recordID: string,
    revision: Revision,
    updatedAt: Time,
    originDevice: string,
    deleted: bool,
    payload: Payload)

  datatype Capability = Capability(
    dataset: string,
    schemaVersion: int,
    read: bool,
    write: bool,
    delete: bool)

  datatype RecordError = UnknownDataset | SchemaNotNegotiated | InvalidRecord

  predicate PayloadEmpty(p: Payload)
  {
    p.NilPayload? || p.entries == map[]
  }

  function ValidateRecord(record: RecordEnvelope, capability: Capability): Outcome<RecordError>
  {
    if Blank(record.dataset) || record.dataset != capability.dataset then Fail(UnknownDataset)
    else if record.schemaVersion < 1 || record.schemaVersion != capability.schemaVersion then
      Fail(SchemaNotNegotiated)
    else if Blank(record.recordID) || ByteLen(record.recordID) > MaxRecordIDBytes || record.revision == 0
            || record.updatedAt == ZeroTime || Blank(record.originDevice) then Fail(InvalidRecord)
    else if record.deleted then
      if !capability.delete || !PayloadEmpty(record.payload) then Fail(InvalidRecord) else Pass
    else
      if !capability.write || record.payload.NilPayload? then Fail(InvalidRecord) else Pass
  }

  /**
   What a record becomes after one JSON save and load.  The payload field is `omitempty`, so
   an empty map is not written and comes back as nil.
   */
  function ReadBack(record: RecordEnvelope): RecordEnvelope
  {
    if PayloadEmpty(record.payload) then record.(payload := NilPayload) else record
  }

  /** What a record must be in itself. */
  ghost predicate Plausible(r: RecordEnvelope)
  {
    && r.schemaVersion >= 1 && r.revision > 0 && r.updatedAt != 0
    && (exists k :: 0 <= k < |r.dataset| && !IsSpace(r.dataset[k]))
    && (exists k :: 0 <= k < |r.recordID| && !IsSpace(r.recordID[k])) && ByteLen(r.recordID) <= 512
    && (exists k :: 0 <= k < |r.originDevice| && !IsSpace(r.originDevice[k]))
    && (if r.deleted then r.payload == NilPayload || r.payload == Fields(map[]) else r.payload != NilPayload)
  }

  /** The capability covers the record: its dataset and schema, with the right its kind of change needs. */
  predicate Covers(c: Capability, r: RecordEnvelope)
  {
    c.dataset == r.dataset && c.schemaVersion == r.schemaVersion && if r.deleted then c.delete else c.write
  }

  /** Validation accepts exactly the plausible records that the capability covers. */
  lemma {:induction false} ValidatesIff(record: RecordEnvelope, capability: Capability)
    ensures ValidateRecord(record, capability).Pass? <==> Plausible(record) && Covers(capability, record)
  {
    hide IsSpace, Blank, ByteLen;
    BlankIffAllSpaces(record.dataset);
    BlankIffAllSpaces(record.recordID);
    BlankIffAllSpaces(record.originDevice);
  }
}
