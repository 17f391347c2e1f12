# go-gtp5gnl: a verified model of its codec, its rule calls and its trace decoder

go-gtp5gnl is the Go client library with which a 5G user plane function
programs the `gtp5g` kernel module over generic netlink. It installs, updates,
removes and reads back the forwarding rules of a PFCP session. These are
Packet Detection Rules (PDR), Forwarding Action Rules (FAR), QoS Enforcement
Rules (QER), Usage Reporting Rules (URR) and Buffering Action Rules (BAR). It
also fetches usage reports and the module's version. The repository also ships
a Python tool, `netlink_decoder.py`, that reads strace output of the same
netlink traffic. It turns the message header fields and the attribute bytes
back into named, nested dictionaries and prints them.

This project models in Dafny the parts of both that compute.

- **Object ids** (`oid.go`): an `OID` is a list of 64-bit words. One word is
  the rule id alone (the legacy form). Two or more words are the SEID
  followed by the rule id.
- **Attribute decoders** (`attr_*.go`). Each one walks a buffer of netlink
  attributes (a 4-byte header: length and type, then the payload padded to 4
  bytes). It switches on the masked type and fills in a rule record. Nested
  groups are decoded by nested decoders.
- **Rule calls** (`pdr.go`, `far.go`, `qer.go`, `urr.go`, `bar.go`,
  `report.go`, `version.go`). These take the request each call builds (flags,
  command, attributes in order) and how the call treats the responses.
- **Attribute parser** of the trace decoder (`parse_attributes`), its value
  decoding (`decode_value`), its display (`format_attrs`) and its two small
  header parsers (`parse_nlm_flags`, `parse_nlmsg_type`).

Layout, one module per file:

| file | module | models |
|---|---|---|
| wire.dfy | Wire | fixed-width integers, little-endian reads and writes, Go `int` ↔ `uint64`, `Result`/`Option`, the error kinds |
| nla.dfy | Nla | the netlink attribute header and walk the decoders share, and a well-formed attribute's encoding |
| oid.dfy | Oid | `OID.SEID`, `OID.ID`, `OID.Equal` |
| attr_bar.dfy … attr_ver.dfy | BarAttr, FarAttr, PdrAttr, QerAttr, ReportAttr, UrrAttr, VersionAttr | one decoder per `Decode…` function of the `attr_*.go` files |
| rpc.dfy | Rpc | requests as values, the keyed request prologue, how responses are read |
| bar.dfy … version.dfy | BarOps, FarOps, PdrOps, QerOps, UrrOps, ReportOps, VersionOps | the calls of `bar.go` … `version.go` |
| bits.dfy | Bits | Python's `\|` and `&` on non-negative integers |
| text.dfy | Text | `str(n)`, `bytes.hex`, `strip`, `split`, `join`, digit parsing |
| pydict.dfy | PyDict | insertion-ordered dictionaries with unique keys, assignment and `update` |
| trace_value.dfy | TraceValue | `decode_value` |
| trace_parse.dfy | TraceParse | the attribute tables and `parse_attributes` |
| trace_format.dfy | TraceFormat | `format_attrs` |
| trace_flags.dfy | TraceFlags | `NLM_FLAGS`, `parse_nlm_flags`, `parse_nlmsg_type` |
| trace_examples.dfy | TraceExamples | a selection of the cases of `test_netlink_decoder.py`, proved about the model |

How the model is built:

- **Decoders.** Each decoder has three parts:
  - a step function `XStep`, which is the Go `switch` for one attribute;
  - a specification `XSpec(b) = Scan(b, EmptyX, XStep)`;
  - a method `DecodeX`, whose `while` loop re-slices the buffer as the Go
    loop does and which is proved to return `XSpec(b)`.

  A lemma `XDecodes` then states the meaning declaratively: decoding succeeds
  exactly when the attribute walk reaches the end of the buffer and every
  attribute can be read. The record is then `XView` of the attributes, where
  each field is the last attribute of its type, or the list of all of them.
- **Go faults.** A Go panic becomes an explicit error, so the model is total:
  - `OutOfRange` stands for an index or slice outside the buffer, or
    `native.UintN` on too few bytes;
  - `NoProgress` stands for an attribute of length 0, on which the Go loop
    would never advance;
  - `ShortHeader` stands for the error of `nl.DecodeAttrHdr`.
- **Rule calls.** The connection `Client.Do` is a parameter `Transport`: a
  function from a request to an error or a list of response messages. Every
  call method returns the request it handed to the transport (`sent`), or
  `None` when it returned before sending.

## Model

| member | source | states |
|---|---|---|
| Wire.Le16Put16 | attr_pdr.go:44 | a 16-bit value written little-endian reads back, whatever follows it |
| Wire.Le32Put32 | attr_pdr.go:46 | a 32-bit value written little-endian reads back, whatever follows it |
| Wire.Le64Put64 | attr_pdr.go:67 | a 64-bit value written little-endian reads back, whatever follows it |
| Wire.ToInt | oid.go:19-21 | `int(x)` of a `uint64` is the signed word congruent to it modulo 2^64 |
| Wire.ToU64 | far.go:24 | `uint64(id)` of an `int` loses nothing: the `int` of the word it gives is the id again |
| Wire.ToU64ToInt | oid.go:19-21 | converting a word to `int` and back gives the word again |
| Wire.ToIntLow32 | far.go:46 | the conversion to `int` keeps the low 32 bits the id attribute is cut to |
| Nla.DecodeAttrHdr | attr_bar.go:24-27 | the header decodes exactly when at least 4 bytes are left, and otherwise fails with the header error |
| Nla.Scan | attr_bar.go:23-43 | definition, no contract of its own: the walk every decoder shares, a step per attribute until the buffer is used up or a step fails; its meaning is stated by Nla.ScanView, Nla.ScanAccepts and Nla.ScanEncoded |
| Nla.Attrs | attr_bar.go:23-43 | definition, no contract of its own: the attributes the walk reads, in order; Nla.WalkTiles states that they cover the buffer |
| Nla.MaskedTypeFlags | attr_bar.go:29 | the masked type drops the nested and byte-order flags and keeps the 14-bit type |
| Nla.Align | attr_bar.go:42 | the aligned length is the least multiple of 4 not below the length |
| Nla.Payload | attr_pdr.go:44 | `b[n:attrLen]` exists exactly when 4 ≤ length ≤ buffer, and it is the bytes between header and length |
| Nla.Advance | attr_bar.go:42 | `b[hdr.Len.Align():]` exists exactly when the length is non-zero and the aligned attribute fits, and it is strictly shorter than the buffer |
| Nla.WalkTiles | attr_bar.go:23-43 | when the walk reaches the end, the aligned attributes cover the buffer exactly |
| Nla.ScanView | attr_bar.go:23-43 | a decoder whose step extends a view of the attributes read so far computes that view of all of them |
| Nla.ScanAccepts | attr_bar.go:23-44 | a decoder whose step fails depending only on the attribute succeeds exactly when the walk completes and every attribute is accepted |
| Nla.Last | attr_pdr.go:45-47 | the field of an optional attribute: it is absent only when no attribute of that type can be read |
| Nla.Every | attr_pdr.go:60-62 | the list of a repeated attribute never holds more values than there are attributes |
| Nla.LastSnoc | attr_pdr.go:45-47 | a later attribute of the type overrides the earlier ones |
| Nla.EverySnoc | attr_pdr.go:60-62 | each further attribute of the type appends its value |
| Nla.ConcatSnoc | attr_far.go:48-54 | each further list attribute appends its whole list |
| Nla.EveryCount | attr_pdr.go:60-65 | when every attribute of the type can be read, there are exactly as many values as attributes of that type |
| Nla.Uint16List | attr_far.go:49-54 | the only way reading a list of 16-bit ids fails is the out-of-range fault of `native.Uint16` |
| Nla.Uint16ListShape | attr_far.go:49-54 | the list exists exactly for an even length, and it holds one little-endian id per two bytes |
| Nla.DecodeUint16s | attr_far.go:49-54 | the inner loop `d = d[2:]` appends exactly the id list of the bytes, and fails with the out-of-range fault on an odd byte count |
| Nla.Padding | attr_bar.go:42 | the padding brings the length up to the next multiple of 4, with zero bytes |
| Nla.EncodeAttr | attr_bar.go:24-42 | an encoded attribute takes exactly its aligned length |
| Nla.EncodeAttrReads | attr_bar.go:24-42 | an encoded attribute's header reads back its length and type, its payload is the bytes given, and the walk resumes exactly at what follows |
| Nla.ScanEncoded | attr_bar.go:23-43 | a walk over an encoded attribute applies the step to that attribute, then goes on after its padding or stops with the step's error |
| Oid.Equal | oid.go:25-37 | the loop answers true exactly when both OIDs have the same length and the same words |
| Oid.SeidImpliesId | oid.go:5-23 | an OID with a SEID also has an id, and that id is the second word |
| Oid.OnlyTwoWordsAddress | oid.go:5-23 | SEID and id depend on the first two words only |
| Oid.ExtraWordsBreakEquality | oid.go:5-37 | a word appended to an OID of two or more words changes neither its SEID nor its id, yet the two OIDs are not equal |
| Oid.LegacyOid | far.go:23-25 | the legacy one-word OID names the id given and no SEID |
| Oid.SessionOid | oid.go:5-23 | the session OID `[seid, uint64(id), ...]` gives back that SEID and that id, whatever words follow |
| BarAttr.DecodeBAR | attr_bar.go:21-45 | the loop returns the BAR specification: the first error of the walk, or the record of its attributes |
| BarAttr.BarViewSteps | attr_bar.go:29-41 | each BAR attribute turns the record of the attributes before it into the record including it |
| BarAttr.BarFailsByAttr | attr_bar.go:29-41 | whether a BAR attribute can be read does not depend on the record so far |
| BarAttr.BarStep | attr_bar.go:29-41 | definition, no contract of its own: the `switch` case for one attribute; `BarSpec` is the walk with this step and `BarView` the record of a list of attributes; their meaning is stated by BarAttr.BarViewSteps, BarAttr.BarFailsByAttr and BarAttr.BarDecodes |
| BarAttr.BarDecodes | attr_bar.go:21-45 | decoding succeeds exactly when the walk completes and every attribute can be read, and each field is then its type's last attribute |
| BarAttr.BarIdOnly | attr_bar.go:30-31 | a buffer holding only a BAR id decodes to that id with no optional field set |
| FarAttr.DecodeHeaderCreation | attr_far.go:122-144 | the loop returns the outer header creation specification |
| FarAttr.HeaderCreationViewSteps | attr_far.go:130-140 | each attribute extends the record of those before it |
| FarAttr.HeaderCreationStep | attr_far.go:130-140 | definition, no contract of its own: the `switch` case for one attribute; `HeaderCreationSpec` is the walk with this step and `HeaderCreationView` the record of a list of attributes; their meaning is stated by FarAttr.HeaderCreationViewSteps, FarAttr.HeaderCreationFailsByAttr and FarAttr.HeaderCreationDecodes |
| FarAttr.HeaderCreationDecodes | attr_far.go:122-144 | success exactly when the walk completes and every attribute is readable, and the record is each type's last value |
| FarAttr.HeaderCreationFailsByAttr | attr_far.go:130-140 | whether an attribute can be read does not depend on the record so far |
| FarAttr.DecodeForwardParam | attr_far.go:82-106 | the loop returns the forwarding parameter specification, failing with a nested header creation error |
| FarAttr.ForwardParamViewSteps | attr_far.go:90-102 | each attribute extends the record of those before it |
| FarAttr.ForwardParamStep | attr_far.go:90-102 | definition, no contract of its own: the `switch` case for one attribute; `ForwardParamSpec` is the walk with this step and `ForwardParamView` the record of a list of attributes; their meaning is stated by FarAttr.ForwardParamViewSteps, FarAttr.ForwardParamFailsByAttr and FarAttr.ForwardParamDecodes |
| FarAttr.ForwardParamDecodes | attr_far.go:82-106 | success exactly when the walk completes and every attribute is readable, nested group included, and the record is each type's last value |
| FarAttr.ForwardParamFailsByAttr | attr_far.go:90-102 | whether an attribute can be read does not depend on the record so far |
| FarAttr.DecodeFAR | attr_far.go:29-67 | the loop returns the FAR specification, PDR id lists concatenated in order |
| FarAttr.FarStepView | attr_far.go:37-63 | one attribute extends the FAR of the attributes before it |
| FarAttr.FarViewSteps | attr_far.go:37-63 | every attribute extends the FAR of the attributes before it |
| FarAttr.FarFailsByAttr | attr_far.go:37-63 | whether an attribute can be read does not depend on the FAR so far |
| FarAttr.FarStep | attr_far.go:37-63 | definition, no contract of its own: the `switch` case for one attribute; `FarSpec` is the walk with this step and `FarView` the record of a list of attributes; their meaning is stated by FarAttr.FarViewSteps, FarAttr.FarFailsByAttr and FarAttr.FarDecodes |
| FarAttr.FarDecodes | attr_far.go:29-67 | success exactly when the walk completes and every attribute is readable, and the FAR is then the view of its attributes |
| PdrAttr.PortWord | attr_pdr.go:263-270 | one port word gives its high half, then its low half only when the two differ |
| PdrAttr.PortWordPack | attr_pdr.go:263-270 | every one- or two-port entry is the decoding of some word |
| PdrAttr.PortWords | attr_pdr.go:262-272 | the `n += 4` loop fails only by reading past the buffer |
| PdrAttr.PortWordsOk | attr_pdr.go:262-272 | the port loop succeeds exactly when there is nothing to read, or the bytes fit in the buffer and are whole words |
| PdrAttr.PortWordsShape | attr_pdr.go:262-272 | one entry per word, each the decoding of that word read little-endian |
| PdrAttr.DecodePorts | attr_pdr.go:261-272 | the method's loop returns that list of entries |
| PdrAttr.DecodeFlowDesc | attr_pdr.go:234-291 | the loop returns the flow description specification |
| PdrAttr.FlowDescStepView | attr_pdr.go:242-287 | one attribute extends the flow description of those before it |
| PdrAttr.FlowDescViewSteps | attr_pdr.go:242-287 | every attribute extends the flow description of those before it |
| PdrAttr.FlowDescViewEmpty | attr_pdr.go:235 | no attributes give the zero flow description |
| PdrAttr.FlowDescFailsByAttr | attr_pdr.go:242-287 | whether an attribute can be read does not depend on the record so far |
| PdrAttr.FlowDescStep | attr_pdr.go:242-287 | definition, no contract of its own: the `switch` case for one attribute; `FlowDescSpec` is the walk with this step and `FlowDescView` the record of a list of attributes; their meaning is stated by PdrAttr.FlowDescViewSteps, PdrAttr.FlowDescFailsByAttr and PdrAttr.FlowDescDecodes |
| PdrAttr.FlowDescDecodes | attr_pdr.go:234-291 | success exactly when the walk completes and every attribute is readable; port lists are then concatenated in order |
| PdrAttr.DecodeSDFFilter | attr_pdr.go:166-199 | the loop returns the SDF filter specification |
| PdrAttr.SdfFilterStepView | attr_pdr.go:174-195 | one attribute extends the filter of those before it |
| PdrAttr.SdfFilterViewSteps | attr_pdr.go:174-195 | every attribute extends the filter of those before it |
| PdrAttr.SdfFilterFailsByAttr | attr_pdr.go:174-195 | whether an attribute can be read does not depend on the record so far |
| PdrAttr.SdfFilterStep | attr_pdr.go:174-195 | definition, no contract of its own: the `switch` case for one attribute; `SdfFilterSpec` is the walk with this step and `SdfFilterView` the record of a list of attributes; their meaning is stated by PdrAttr.SdfFilterViewSteps, PdrAttr.SdfFilterFailsByAttr and PdrAttr.SdfFilterDecodes |
| PdrAttr.SdfFilterDecodes | attr_pdr.go:166-199 | success exactly when the walk completes and every attribute is readable, nested flow description included |
| PdrAttr.DecodeFTEID | attr_pdr.go:130-148 | the loop returns the F-TEID specification |
| PdrAttr.FteidViewSteps | attr_pdr.go:138-144 | every attribute extends the F-TEID of those before it |
| PdrAttr.FteidStep | attr_pdr.go:138-144 | definition, no contract of its own: the `switch` case for one attribute; `FteidSpec` is the walk with this step and `FteidView` the record of a list of attributes; their meaning is stated by PdrAttr.FteidViewSteps, PdrAttr.FteidFailsByAttr and PdrAttr.FteidDecodes |
| PdrAttr.FteidDecodes | attr_pdr.go:130-148 | success exactly when the walk completes and every attribute is readable |
| PdrAttr.FteidFailsByAttr | attr_pdr.go:138-144 | whether an attribute can be read does not depend on the record so far |
| PdrAttr.DecodePDI | attr_pdr.go:90-118 | the loop returns the PDI specification, failing with a nested F-TEID or SDF filter error |
| PdrAttr.PdiViewSteps | attr_pdr.go:98-114 | every attribute extends the PDI of those before it |
| PdrAttr.PdiStep | attr_pdr.go:98-114 | definition, no contract of its own: the `switch` case for one attribute; `PdiSpec` is the walk with this step and `PdiView` the record of a list of attributes; their meaning is stated by PdrAttr.PdiViewSteps, PdrAttr.PdiFailsByAttr and PdrAttr.PdiDecodes |
| PdrAttr.PdiDecodes | attr_pdr.go:90-118 | success exactly when the walk completes and every attribute is readable |
| PdrAttr.PdiFailsByAttr | attr_pdr.go:98-114 | whether an attribute can be read does not depend on the record so far |
| PdrAttr.DecodePDR | attr_pdr.go:34-75 | the loop returns the PDR specification, unknown types skipped |
| PdrAttr.PdrStepView | attr_pdr.go:42-71 | one attribute extends the PDR of those before it |
| PdrAttr.PdrViewSteps | attr_pdr.go:42-71 | every attribute extends the PDR of those before it |
| PdrAttr.PdrFailsByAttr | attr_pdr.go:42-71 | whether an attribute can be read does not depend on the record so far |
| PdrAttr.PdrStep | attr_pdr.go:42-71 | definition, no contract of its own: the `switch` case for one attribute; `PdrSpec` is the walk with this step and `PdrView` the record of a list of attributes; their meaning is stated by PdrAttr.PdrViewSteps, PdrAttr.PdrFailsByAttr and PdrAttr.PdrDecodes |
| PdrAttr.PdrDecodes | attr_pdr.go:34-75 | success exactly when the walk completes and every attribute is readable, and the PDR is then the view of its attributes |
| PdrAttr.PdrIdCounts | attr_pdr.go:60-65 | a decoded PDR has exactly one QER id per QER id attribute and one URR id per URR id attribute |
| QerAttr.Kbps | attr_qer.go:120-121 | `high<<8 + low` is below 2^40, with `high` as quotient and `low` as remainder by 256 |
| QerAttr.DecodeBitRate | attr_qer.go:99-124 | the loop returns the bit rate specification, rates computed after the loop |
| QerAttr.BitRatePartsSteps | attr_qer.go:107-116 | every attribute extends the rate parts of those before it |
| QerAttr.BitRateFailsByAttr | attr_qer.go:107-116 | whether an attribute can be read does not depend on the parts so far |
| QerAttr.BitRateScanAccepts | attr_qer.go:99-118 | the walk of a rate group succeeds exactly when it completes and each attribute is readable |
| QerAttr.BitRateScanParts | attr_qer.go:99-118 | a successful walk leaves the parts of the attributes: each part is its type's last value |
| QerAttr.BitRateStep | attr_qer.go:107-116 | definition, no contract of its own: the `switch` case for one attribute; `BitRateSpec` is the walk with this step and `BitRateView` the record of a list of attributes; their meaning is stated by QerAttr.BitRatePartsSteps, QerAttr.BitRateFailsByAttr and QerAttr.BitRateDecodes |
| QerAttr.BitRateDecodes | attr_qer.go:99-124 | success exactly when the walk completes and every attribute is readable; the record is the view, and each kbps field agrees with its high and low parts |
| QerAttr.DecodeQER | attr_qer.go:34-81 | the loop returns the QER specification, MBR and GBR decoded by the same group decoder |
| QerAttr.QerStepView | attr_qer.go:42-77 | one attribute extends the QER of those before it |
| QerAttr.QerViewSteps | attr_qer.go:42-77 | every attribute extends the QER of those before it |
| QerAttr.QerFailsByAttr | attr_qer.go:42-77 | whether an attribute can be read does not depend on the record so far |
| QerAttr.QerStep | attr_qer.go:42-77 | definition, no contract of its own: the `switch` case for one attribute; `QerSpec` is the walk with this step and `QerView` the record of a list of attributes; their meaning is stated by QerAttr.QerViewSteps, QerAttr.QerFailsByAttr and QerAttr.QerDecodes |
| QerAttr.QerDecodes | attr_qer.go:34-81 | success exactly when the walk completes and every attribute is readable, and the QER is the view of its attributes |
| QerAttr.QerRatesConsistent | attr_qer.go:120-121 | in every decoded QER, MBR and GBR kbps agree with their high and low parts |
| QerAttr.LastRatesAgree | attr_qer.go:47-58 | the last rate group read is consistent |
| ReportAttr.DecodeVolumeMeasurement | attr_report.go:69-117 | the loop returns the volume measurement specification, reading each counter from the rest of the buffer |
| ReportAttr.VolumeMeasurementStepView | attr_report.go:77-112 | one attribute extends the measurement of those before it |
| ReportAttr.VolumeMeasurementViewSteps | attr_report.go:77-112 | every attribute extends the measurement of those before it |
| ReportAttr.VolumeMeasurementViewEmpty | attr_report.go:70 | no attributes give the zero measurement |
| ReportAttr.VolumeMeasurementFailsByAttr | attr_report.go:77-112 | whether an attribute can be read does not depend on the record so far |
| ReportAttr.VolumeMeasurementAccepts | attr_report.go:69-117 | decoding succeeds exactly when the walk completes and every attribute is readable |
| ReportAttr.VolumeMeasurementViewed | attr_report.go:69-117 | a successful decoding is the view of the attributes |
| ReportAttr.VolumeMeasurementStep | attr_report.go:77-113 | definition, no contract of its own: the `switch` case for one attribute; `VolumeMeasurementSpec` is the walk with this step and `VolumeMeasurementView` the record of a list of attributes; their meaning is stated by ReportAttr.VolumeMeasurementViewSteps, ReportAttr.VolumeMeasurementFailsByAttr and ReportAttr.VolumeMeasurementDecodes |
| ReportAttr.VolumeMeasurementDecodes | attr_report.go:69-117 | both together: success exactly when the walk completes and every read succeeds, and then the view |
| ReportAttr.DecodeReport | attr_report.go:119-154 | the loop returns the usage report specification |
| ReportAttr.ReportViewSteps | attr_report.go:126-148 | every attribute extends the report of those before it |
| ReportAttr.ReportFailsByAttr | attr_report.go:126-148 | whether an attribute can be read does not depend on the report so far |
| ReportAttr.ReportStep | attr_report.go:126-150 | definition, no contract of its own: the `switch` case for one attribute; `ReportSpec` is the walk with this step and `ReportView` the record of a list of attributes; their meaning is stated by ReportAttr.ReportViewSteps, ReportAttr.ReportFailsByAttr and ReportAttr.ReportDecodes |
| ReportAttr.ReportDecodes | attr_report.go:119-154 | success exactly when the walk completes and every attribute is readable, and the report is the view of its attributes |
| ReportAttr.ReportLeavesMeasurementZero | attr_report.go:138-147 | with the measurement case commented out, a decoded report never has a measurement or a query reference |
| ReportAttr.TailAgreesWithPayload | attr_report.go:128 | where the attribute's own payload has 4 bytes, reading from the rest of the buffer gives the same number |
| ReportAttr.TailReadsPastAttribute | attr_report.go:128 | a 2-byte URR id attribute is still read as 4 bytes, taking 2 bytes past its end |
| UrrAttr.DecodeVolume | attr_urr.go:102-156 | the loop returns the volume specification (threshold and quota share it) |
| UrrAttr.VolumeViewSteps | attr_urr.go:110-124 | every attribute extends the volume of those before it |
| UrrAttr.VolumeFailsByAttr | attr_urr.go:110-124 | whether an attribute can be read does not depend on the record so far |
| UrrAttr.VolumeStep | attr_urr.go:111-124 | definition, no contract of its own: the `switch` case for one attribute; `VolumeSpec` is the walk with this step and `VolumeView` the record of a list of attributes; their meaning is stated by UrrAttr.VolumeViewSteps, UrrAttr.VolumeFailsByAttr and UrrAttr.VolumeDecodes |
| UrrAttr.VolumeDecodes | attr_urr.go:102-156 | success exactly when the walk completes and every attribute is readable |
| UrrAttr.DecodeURR | attr_urr.go:59-100 | the loop returns the URR specification |
| UrrAttr.UrrStepView | attr_urr.go:67-95 | one attribute extends the URR of those before it |
| UrrAttr.UrrViewSteps | attr_urr.go:67-95 | every attribute extends the URR of those before it |
| UrrAttr.UrrFailsByAttr | attr_urr.go:67-95 | whether an attribute can be read does not depend on the record so far |
| UrrAttr.UrrAccepts | attr_urr.go:59-100 | decoding succeeds exactly when the walk completes and every attribute is readable |
| UrrAttr.UrrViewEmpty | attr_urr.go:60 | no attributes give the zero URR |
| UrrAttr.UrrViewed | attr_urr.go:59-100 | a successful decoding is the view of the attributes |
| UrrAttr.UrrStep | attr_urr.go:67-96 | definition, no contract of its own: the `switch` case for one attribute; `UrrSpec` is the walk with this step and `UrrView` the record of a list of attributes; their meaning is stated by UrrAttr.UrrViewSteps, UrrAttr.UrrFailsByAttr and UrrAttr.UrrDecodes |
| UrrAttr.UrrDecodes | attr_urr.go:59-100 | both together |
| UrrAttr.UrrSeidPresent | attr_urr.go:80-82 | a decoded URR has a SEID exactly when the buffer holds a SEID attribute |
| UrrAttr.LastPresent | attr_urr.go:80-82 | when every attribute of a type is readable, a last value exists exactly when such an attribute exists |
| VersionAttr.LeadingNuls | attr_ver.go:15 | the number of NUL bytes at the front, and the byte after them is not NUL |
| VersionAttr.TrailingNuls | attr_ver.go:15 | the number of NUL bytes at the back, and the byte before them is not NUL |
| VersionAttr.TrimSlice | attr_ver.go:15 | `bytes.Trim` is a slice of the input, and only NUL bytes lie outside it |
| VersionAttr.TrimEnds | attr_ver.go:15 | a non-empty trimmed text neither starts nor ends with NUL, and it is empty exactly for an all-NUL input |
| VersionAttr.TrimIdempotent | attr_ver.go:15 | trimming twice is trimming once |
| VersionAttr.NoNulEnds | attr_ver.go:15 | a text without NUL at either end is left as it is |
| VersionAttr.DecodeVersion | attr_ver.go:9-18 | decoding fails exactly on a buffer too short for a header |
| VersionAttr.VersionRoundTrip | attr_ver.go:9-18 | a version text in a NUL-terminated attribute decodes back to the text |
| VersionAttr.NulPadded | attr_ver.go:15 | any number of NUL bytes after a version text is removed |
| VersionAttr.TrailingCount | attr_ver.go:15 | the trailing NUL count after a text not ending in NUL is the number appended |
| Rpc.IdValue | far.go:44-47 | `nl.AttrU8/16/32(id)` keeps the low 8, 16 or 32 bits: the attribute value is congruent to the id modulo 2^8, 2^16 or 2^32, and is the id itself when the id fits |
| Rpc.NewKeyedRequest | far.go:27-62 | the shared prologue builds the prepared request: nothing for an empty OID, otherwise LINK, id, SEID when present, then the caller's attributes |
| Rpc.KeyAttrs | far.go:35-62 | definition, no contract of its own: LINK, the id attribute and the SEID attribute when the OID has one; Rpc.PreparedShape and Rpc.SeidAttrIff state its shape |
| Rpc.Prepared | far.go:27-62 | definition, no contract of its own: the request of a keyed call, or none for an OID without an id; Rpc.NewKeyedRequest computes it and Rpc.PreparedShape states its shape |
| Rpc.PreparedShape | far.go:35-62 | a request exists exactly for a non-empty OID; it carries the flags and command, LINK first, the id second, the SEID third exactly for two or more words, then the caller's attributes unchanged |
| Rpc.SeidAttrIff | far.go:52-61 | the call adds a SEID attribute exactly when the OID has two or more words, and it holds the first word |
| Rpc.LegacyPrepared | far.go:23-25 | the legacy form sends LINK, the id cut to the width, the caller's attributes, and never a SEID |
| Rpc.IdWraps | pdr.go:49 | ids that differ by a multiple of 2^8, 2^16 or 2^32 give the same id attribute of that width |
| Rpc.Body | far.go:205 | the body after the generic netlink header exists exactly when the message holds the 4-byte header, and header plus body is the message |
| Rpc.Call | far.go:66-67 | the method returns the acknowledgement outcome of the prepared request |
| Rpc.Acked | far.go:35-67 | definition, no contract of its own: what Create, Update and Remove return; Rpc.AckedCases states its cases |
| Rpc.AckedCases | far.go:35-67 | no request is the invalid-oid error; otherwise success exactly when the transport succeeds, with its error passed on unchanged |
| Rpc.FirstDecoded | far.go:198-209 | definition, no contract of its own: what a Get returns; Rpc.FirstDecodedCases and Rpc.OnlyFirstCounts state its meaning |
| Rpc.FirstDecodedOrNone | urr.go:109-120 | definition, no contract of its own: the Get that accepts no response; Rpc.OrNoneAgrees relates it to Rpc.FirstDecoded |
| Rpc.OrNoneAgrees | urr.go:109-120 | with at least one response, the variant that tolerates none agrees with the strict one |
| Rpc.FirstDecodedCases | far.go:198-209 | a transport error is passed on, no response is the given missing error, and otherwise the result is the first body after the header decoded |
| Rpc.OnlyFirstCounts | far.go:202-209 | two transports whose first responses agree give the same result, whatever else they send |
| Rpc.PrefixedEmpty | far.go:223-231 | `var fars []FAR` starts empty: an empty prefix changes no result, and a result is its own prefix before nothing |
| Rpc.DecodeEach | far.go:223-231 | definition, no contract of its own: the dump loop over the responses; Rpc.DecodeEachStep, Rpc.DecodeEachAllOrNothing and Rpc.DecodeEachFirstError state its meaning |
| Rpc.AllDecoded | far.go:212-232 | definition, no contract of its own: what a `GetXAll` returns, the transport error or Rpc.DecodeEach of the responses |
| Rpc.DecodeEachStep | far.go:224-230 | the dump loop's invariant: moving a decoded response from the rest to the accumulated list leaves the result unchanged |
| Rpc.DecodeEachAllOrNothing | far.go:224-231 | a dump decodes exactly when every response has a body that decodes, and then one value per response in order |
| Rpc.DecodeEachFirstError | far.go:224-228 | the first response that fails decides the error of the whole dump |
| BarOps.CreateBAROID | bar.go:20-61 | `EXCL`+`ACK` with the add command: the request holds LINK, `BAR_ID` as u8 from the OID's id word, `BAR_SEID` from its first word exactly when it has two or more, then the caller's attributes; an empty OID is refused before anything is sent; the transport's error is passed on, success otherwise |
| BarOps.UpdateBAROID | bar.go:67-108 | `REPLACE`+`ACK` with the add command and the same key and caller attributes as Create; an empty OID is refused; the transport's error is passed on, success otherwise |
| BarOps.RemoveBAROID | bar.go:114-151 | `EXCL`+`ACK` with the delete command and the key alone; an empty OID is refused; the transport's error is passed on, success otherwise |
| BarOps.GetBAROID | bar.go:157-203 | `ACK` with the get command and the key alone; an empty OID is refused; no response is the not-found error, otherwise the body of the first response decoded as a BAR |
| BarOps.CreateBAR | bar.go:16-18 | the legacy form sends LINK, the id cut to u8, the caller's attributes, and no SEID |
| BarOps.UpdateBAR | bar.go:63-65 | the legacy form of Update: LINK, the id cut to u8, the caller's attributes |
| BarOps.RemoveBAR | bar.go:110-112 | the legacy form of Remove: LINK and the id cut to u8 only |
| BarOps.GetBAR | bar.go:153-155 | the legacy form of Get: LINK and the id only, the first response decoded |
| BarOps.GetBARAll | bar.go:205-225 | `DUMP` with no attributes: the transport's error, or every response decoded in order, failing with the first response that does not decode |
| FarOps.CreateFAROID | far.go:27-68 | `EXCL`+`ACK` with the add command: the request holds LINK, `FAR_ID` as u32 from the OID's id word, `FAR_SEID` from its first word exactly when it has two or more, then the caller's attributes; an empty OID is refused before anything is sent; the transport's error is passed on, success otherwise |
| FarOps.UpdateFAROID | far.go:74-115 | `REPLACE`+`ACK` with the add command and the same key and caller attributes as Create; an empty OID is refused; the transport's error is passed on, success otherwise |
| FarOps.RemoveFAROID | far.go:121-158 | `EXCL`+`ACK` with the delete command and the key alone; an empty OID is refused; the transport's error is passed on, success otherwise |
| FarOps.GetFAROID | far.go:164-210 | `ACK` with the get command and the key alone; an empty OID is refused; no response is the not-found error, otherwise the body of the first response decoded as a FAR |
| FarOps.CreateFAR | far.go:23-25 | the legacy form sends LINK, the id cut to u32, the caller's attributes, and no SEID |
| FarOps.UpdateFAR | far.go:70-72 | the legacy form of Update: LINK, the id cut to u32, the caller's attributes |
| FarOps.RemoveFAR | far.go:117-119 | the legacy form of Remove: LINK and the id cut to u32 only |
| FarOps.GetFAR | far.go:160-162 | the legacy form of Get: LINK and the id only, the first response decoded |
| FarOps.GetFARAll | far.go:212-232 | `DUMP` with no attributes: the transport's error, or every response decoded in order, failing with the first response that does not decode |
| PdrOps.CreatePDROID | pdr.go:30-71 | `EXCL`+`ACK` with the add command: the request holds LINK, `PDR_ID` as u16 from the OID's id word, `PDR_SEID` from its first word exactly when it has two or more, then the caller's attributes; an empty OID is refused before anything is sent; the transport's error is passed on, success otherwise |
| PdrOps.UpdatePDROID | pdr.go:77-118 | `REPLACE`+`ACK` with the add command and the same key and caller attributes as Create; an empty OID is refused; the transport's error is passed on, success otherwise |
| PdrOps.RemovePDROID | pdr.go:124-161 | `EXCL`+`ACK` with the delete command and the key alone; an empty OID is refused; the transport's error is passed on, success otherwise |
| PdrOps.GetPDROID | pdr.go:167-213 | `ACK` with the get command and the key alone; an empty OID is refused; no response is the not-found error, otherwise the body of the first response decoded as a PDR |
| PdrOps.CreatePDR | pdr.go:26-28 | the legacy form sends LINK, the id cut to u16, the caller's attributes, and no SEID |
| PdrOps.UpdatePDR | pdr.go:73-75 | the legacy form of Update: LINK, the id cut to u16, the caller's attributes |
| PdrOps.RemovePDR | pdr.go:120-122 | the legacy form of Remove: LINK and the id cut to u16 only |
| PdrOps.GetPDR | pdr.go:163-165 | the legacy form of Get: LINK and the id only, the first response decoded |
| PdrOps.GetPDRAll | pdr.go:215-235 | `DUMP` with no attributes: the transport's error, or every response decoded in order, failing with the first response that does not decode |
| QerOps.CreateQEROID | qer.go:34-75 | `EXCL`+`ACK` with the add command: the request holds LINK, `QER_ID` as u32 from the OID's id word, `QER_SEID` from its first word exactly when it has two or more, then the caller's attributes; an empty OID is refused before anything is sent; the transport's error is passed on, success otherwise |
| QerOps.UpdateQEROID | qer.go:81-122 | `REPLACE`+`ACK` with the add command and the same key and caller attributes as Create; an empty OID is refused; the transport's error is passed on, success otherwise |
| QerOps.RemoveQEROID | qer.go:128-165 | `EXCL`+`ACK` with the delete command and the key alone; an empty OID is refused; the transport's error is passed on, success otherwise |
| QerOps.GetQEROID | qer.go:171-217 | `ACK` with the get command and the key alone; an empty OID is refused; no response is the not-found error, otherwise the body of the first response decoded as a QER |
| QerOps.CreateQER | qer.go:30-32 | the legacy form sends LINK, the id cut to u32, the caller's attributes, and no SEID |
| QerOps.UpdateQER | qer.go:77-79 | the legacy form of Update: LINK, the id cut to u32, the caller's attributes |
| QerOps.RemoveQER | qer.go:124-126 | the legacy form of Remove: LINK and the id cut to u32 only |
| QerOps.GetQER | qer.go:167-169 | the legacy form of Get: LINK and the id only, the first response decoded |
| QerOps.GetQERAll | qer.go:219-239 | `DUMP` with no attributes: the transport's error, or every response decoded in order, failing with the first response that does not decode |
| UrrOps.CreateURROID | urr.go:23-64 | `EXCL`+`ACK` with the add command: the request holds LINK, `URR_ID` as u32 from the OID's id word, `URR_SEID` from its first word exactly when it has two or more, then the caller's attributes; an empty OID is refused before anything is sent; the transport's error is passed on, success otherwise |
| UrrOps.UpdateURROID | urr.go:70-121 | `REPLACE`+`ACK` with the add command, the same attributes; no response is success with no reports, otherwise the reports of the first response or their decoding error |
| UrrOps.RemoveURROID | urr.go:127-174 | `EXCL`+`ACK` with the delete command and no caller attributes; no response is the "no usage report" error, otherwise the reports of the first response |
| UrrOps.GetURROID | urr.go:180-226 | `ACK` with the get command and the key alone; an empty OID is refused; no response is the not-found error, otherwise the body of the first response decoded as a URR |
| UrrOps.CreateURR | urr.go:19-21 | the legacy form sends LINK, the id cut to u32, the caller's attributes, and no SEID |
| UrrOps.UpdateURR | urr.go:66-68 | the legacy form of Update: the same request without SEID, the same treatment of the reports |
| UrrOps.RemoveURR | urr.go:123-125 | the legacy form of Remove: LINK and the id only, the same treatment of the reports |
| UrrOps.GetURR | urr.go:176-178 | the legacy form of Get: LINK and the id only, the first response decoded |
| UrrOps.GetURRAll | urr.go:228-248 | `DUMP` with no attributes: the transport's error, or every response decoded in order, failing with the first response that does not decode |
| ReportOps.GetReportOID | report.go:15-61 | `ACK` with the report command: LINK, URR_ID as u32, URR_SEID exactly for an OID of two or more words; an empty OID is refused; no response is success with nothing, otherwise the first body decoded as a usage report |
| ReportOps.GetReportAsWritten | report.go:11-13 | `GetReport(urrid, seid)` as written sends LINK, `seid` as the URR id and `urrid` as the SEID |
| ReportOps.SwappedKey | report.go:11-13 | the OID `{urrid, seid}` prepares the request with `seid` in the id attribute and `urrid` in the SEID attribute |
| ReportOps.SwapExample | report.go:11-13 | for urrid 1 and SEID 2 the id attribute holds 2 and the SEID attribute holds 1 |
| ReportOps.GetReportFixed | report.go:11-61 | the evidently intended call: `urrid` in the URR id attribute and `seid` in the SEID attribute |
| VersionOps.GetVersion | version.go:11-31 | `ACK` with the version command and no attributes; the result is the transport's error, "invalid Version" for other than one response, or the version decoded from the single body |
| VersionOps.VersionOf | version.go:19-30 | definition, no contract of its own: what `GetVersion` makes of the responses; VersionOps.VersionCases and VersionOps.VersionAnswered state its cases |
| VersionOps.VersionCases | version.go:19-30 | a transport error is passed on unchanged, a count other than one is "invalid Version", and a single response decodes exactly when it holds both headers |
| VersionOps.VersionAnswered | version.go:26-30 | a single response holding a NUL-terminated version attribute yields that version |
| Bits.Pow2 | netlink-decoder/netlink_decoder.py:462 | a power of two is positive (the masks `0x3FFF` and `0xFFFF` are `2^k - 1`) |
| Bits.Or | netlink-decoder/netlink_decoder.py:556-560 | Python's `\|` on non-negative integers is at least each operand |
| Bits.And | netlink-decoder/netlink_decoder.py:462 | Python's `&` on non-negative integers is at most each operand |
| Bits.ZeroBits | netlink-decoder/netlink_decoder.py:552 | `total = 0` has no bit set |
| Bits.OrBit | netlink-decoder/netlink_decoder.py:556-560 | a bit of `a \| b` is set exactly when it is set in `a` or in `b` |
| Bits.AndBit | netlink-decoder/netlink_decoder.py:462 | a bit of `a & b` is set exactly when it is set in both |
| Bits.BitsDetermine | netlink-decoder/netlink_decoder.py:552-563 | two naturals with the same bits are equal |
| Bits.OrLaws | netlink-decoder/netlink_decoder.py:552-563 | `\|` is commutative, associative, idempotent and has 0 as its unit, so the order of the flag parts does not matter |
| Bits.AndLowBits | netlink-decoder/netlink_decoder.py:462 | masking with `2^k - 1` keeps the remainder modulo `2^k` |
| Text.HexDigitValue | netlink-decoder/netlink_decoder.py:549 | a hex digit's value is below 16, and below 10 exactly for a decimal digit |
| Text.DigitChar | netlink-decoder/netlink_decoder.py:414 | the digit written for a value below 16 reads back as that value |
| Text.Decimal | netlink-decoder/netlink_decoder.py:368 | `str(n)` is a non-empty run of decimal digits without a leading zero |
| Text.DecimalRoundTrip | netlink-decoder/netlink_decoder.py:546-547 | `int(str(n)) == n` |
| Text.DecimalInjective | netlink-decoder/netlink_decoder.py:368 | different numbers print differently |
| Text.Hex | netlink-decoder/netlink_decoder.py:414 | `data.hex()` holds two hex digits per byte |
| Text.HexValue | netlink-decoder/netlink_decoder.py:414 | `int(data.hex(), 16)` is the bytes read as a big-endian number |
| Text.Leading | netlink-decoder/netlink_decoder.py:582 | the longest prefix of characters a test accepts: all of them pass, the next one fails |
| Text.Trailing | netlink-decoder/netlink_decoder.py:408 | the longest suffix a test accepts, in the same sense |
| Text.TrimSlice | netlink-decoder/netlink_decoder.py:543 | `strip` is the slice between the leading and the trailing run of dropped characters, and what it keeps neither begins nor ends with one |
| Text.TrimClean | netlink-decoder/netlink_decoder.py:554 | a text that neither begins nor ends with a dropped character is unchanged by `strip` |
| Text.StripIdempotent | netlink-decoder/netlink_decoder.py:543 | `s.strip().strip() == s.strip()` |
| Text.RStripNul | netlink-decoder/netlink_decoder.py:408 | `rstrip('\x00')` is a prefix that does not end in NUL, and only NULs were removed |
| Text.Split | netlink-decoder/netlink_decoder.py:553 | `split('\|')` gives at least one part, none holding the separator |
| Text.JoinSplit | netlink-decoder/netlink_decoder.py:553 | joining the parts of a split with the separator gives back the text |
| Text.SplitNone | netlink-decoder/netlink_decoder.py:553 | a text without the separator splits into itself alone |
| Text.JoinConcat | netlink-decoder/netlink_decoder.py:508 | joining two non-empty lists puts one separator between their joins |
| Text.SplitFirst | netlink-decoder/netlink_decoder.py:553 | splitting at the first separator gives the part before it, then the split of the rest |
| Text.SplitJoin | netlink-decoder/netlink_decoder.py:371 | splitting a join of separator-free parts gives back the parts |
| Text.LeadingPrefix | netlink-decoder/netlink_decoder.py:582 | the accepted run of `a + b` is `a` when `a` passes and `b` starts with a failing character |
| Text.MissingChar | netlink-decoder/netlink_decoder.py:581 | a text lacking one character of a pattern does not contain the pattern |
| PyDict.Get | netlink-decoder/netlink_decoder.py:463 | `dict.get` finds a key exactly when it is present, and then the value stored under it |
| PyDict.PutGet | netlink-decoder/netlink_decoder.py:479 | after `d[k] = v` the key `k` holds `v` and every other key keeps its value |
| PyDict.PutKeys | netlink-decoder/netlink_decoder.py:486 | assignment replaces in place for a present key, appends for a new one, keeps the key order, and keeps keys unique |
| PyDict.MergeGet | netlink-decoder/netlink_decoder.py:469 | after `d.update(e)` a key of `e` holds its value in `e`, every other key its value in `d` |
| PyDict.MergeUnique | netlink-decoder/netlink_decoder.py:469 | `update` keeps keys unique |
| PyDict.MergeIntoEmpty | netlink-decoder/netlink_decoder.py:469 | updating an empty dictionary copies the other |
| PyDict.MergeAppends | netlink-decoder/netlink_decoder.py:469 | updating with only new keys appends them in order |
| PyDict.HasKeys | netlink-decoder/netlink_decoder.py:463 | a key is present exactly when it is in the key set |
| PyDict.KeysConcat | netlink-decoder/netlink_decoder.py:469 | the keys of two entry lists in a row are the union of their keys |
| PyDict.KeysOne | netlink-decoder/netlink_decoder.py:486 | one entry has its key alone |
| PyDict.PutKeySet | netlink-decoder/netlink_decoder.py:486 | assignment adds exactly its key to the key set |
| PyDict.MergeKeySet | netlink-decoder/netlink_decoder.py:469 | `update` yields the union of the key sets |
| TraceValue.MaskIsDotted | netlink-decoder/netlink_decoder.py:351-355 | a mask is shown as its four bytes in network order, dotted |
| TraceValue.DecodeValue | netlink-decoder/netlink_decoder.py:302-414 | definition, no contract of its own: `decode_value`, rule by rule; TraceValue.DecodedRange, TraceValue.PortRanges, TraceValue.DecodeEmpty, TraceValue.ShortFallback, TraceValue.UnknownFallback and TraceValue.FallbackReadsBack state its meaning |
| TraceValue.WordBytes | netlink-decoder/netlink_decoder.py:353-354 | shifting and masking a big-endian word gives back each of its bytes |
| TraceValue.PortEntries | netlink-decoder/netlink_decoder.py:361-370 | one entry per whole 32-bit word, a shorter tail ignored |
| TraceValue.PortWordHalves | netlink-decoder/netlink_decoder.py:364-370 | entry `k` is the range between the low and the high little-endian half of word `k` |
| TraceValue.PortStep | netlink-decoder/netlink_decoder.py:362-370 | a step of the loop adds the entry of the word at `i` and moves four bytes on |
| TraceValue.PortRanges | netlink-decoder/netlink_decoder.py:358-371 | the loop yields `(none)` for no whole word, else the entries joined by commas |
| TraceValue.DecodeIgnoring | netlink-decoder/netlink_decoder.py:408 | `decode('utf-8', errors='ignore')` of ASCII text keeps only characters below 0x80 and never lengthens |
| TraceValue.AddressTestRedundant | netlink-decoder/netlink_decoder.py:309 | a name holding `ADDR_IPV4` holds `IPV4`, so the second test never decides |
| TraceValue.DecodedRange | netlink-decoder/netlink_decoder.py:302-414 | every number decoded is below `2^64`, and no rule yields a dictionary |
| TraceValue.DecodeEmpty | netlink-decoder/netlink_decoder.py:358-360 | empty data gives `(none)` for a port, the empty text for a string and `(empty)` for every other name |
| TraceValue.ShortFallback | netlink-decoder/netlink_decoder.py:327-414 | data shorter than the width its name's rule reads (4 bytes for a volume or 32-bit name, 2 for the PDR id or a 16-bit name, 1 for an 8-bit name) falls through to `"0x" + data.hex()`, or `(empty)` when there is none |
| TraceValue.UnknownFallback | netlink-decoder/netlink_decoder.py:302-414 | a name with no tag and in no group falls back to hex at every length |
| TraceValue.FallbackReadsBack | netlink-decoder/netlink_decoder.py:414 | the fallback is `0x` and two hex digits per byte, reading back as the bytes in big-endian order |
| TraceParse.TypeId | netlink-decoder/netlink_decoder.py:462 | the type id is below `0x4000` |
| TraceParse.MaskType | netlink-decoder/netlink_decoder.py:462 | `nla_type & 0x3FFF` is the type without its two flag bits |
| TraceParse.Walk | netlink-decoder/netlink_decoder.py:447-489 | definition, no contract of its own: the `while offset < len(data)` loop; TraceParse.WalkSkips, WalkStops, WalkStep, WalkStores, WalkUnique, WalkKeys and WalkEncoded state its meaning |
| TraceParse.Stored | netlink-decoder/netlink_decoder.py:466-486 | definition, no contract of its own: what one attribute adds to the dictionary; TraceParse.Store, StoredUnique, StoredKeys and StoredGet state its meaning |
| TraceParse.Parse | netlink-decoder/netlink_decoder.py:447-491 | definition, no contract of its own: the dictionary of the walk; TraceParse.ParseWith and ParseEncoded state its meaning |
| TraceParse.Attributes | netlink-decoder/netlink_decoder.py:416-491 | definition, no contract of its own: `parse_attributes`; TraceParse.ParseAttributes computes it and TraceParse.AttributesNamed states its keys |
| TraceParse.WalkSkips | netlink-decoder/netlink_decoder.py:455-457 | a zero length moves the walk four bytes on and stores nothing |
| TraceParse.WalkStops | netlink-decoder/netlink_decoder.py:447-459 | the walk ends at the end of data, before a partial header, or at a length below 4 or past the data |
| TraceParse.WalkStep | netlink-decoder/netlink_decoder.py:461-489 | an attribute that fits is stored and the walk goes on after its padding |
| TraceParse.WalkStores | netlink-decoder/netlink_decoder.py:485-489 | the same step read at `offset` of the whole data |
| TraceParse.ParseAttributes | netlink-decoder/netlink_decoder.py:416-491 | the loop computes the walk of the data with the module's nested mapping table |
| TraceParse.ParseWith | netlink-decoder/netlink_decoder.py:447-491 | the loop computes the walk of the data for a given mapping and nested table |
| TraceParse.StoreAt | netlink-decoder/netlink_decoder.py:452-489 | one pass of the loop stores the attribute at `offset` and advances `offset` by its aligned length |
| TraceParse.Store | netlink-decoder/netlink_decoder.py:466-486 | container, nested or regular attribute: the dictionary after one attribute |
| TraceParse.StoredUnique | netlink-decoder/netlink_decoder.py:469-486 | storing one attribute keeps keys unique |
| TraceParse.WalkUnique | netlink-decoder/netlink_decoder.py:447-489 | the parsed dictionary has unique keys |
| TraceParse.NamedForms | netlink-decoder/netlink_decoder.py:463 | a key is a name of the mapping or `UNKNOWN_ATTR_<n>` for an id the mapping lacks |
| TraceParse.StoredKeys | netlink-decoder/netlink_decoder.py:463-486 | one attribute adds only such names |
| TraceParse.WalkKeys | netlink-decoder/netlink_decoder.py:447-489 | the walk adds only such names |
| TraceParse.AttributesNamed | netlink-decoder/netlink_decoder.py:416-491 | every key of the parsed dictionary is such a name, and keys are unique |
| TraceParse.StoredGet | netlink-decoder/netlink_decoder.py:466-486 | a type-0 container answers for the names it holds; a nested name holds the parse with its sub-mapping; any other name holds its decoded value; every other key keeps its value |
| TraceParse.WalkEncoded | netlink-decoder/netlink_decoder.py:452-489 | an encoded attribute followed by more data is stored with its type id and payload, then the rest is walked |
| TraceParse.WalkZeroLength | netlink-decoder/netlink_decoder.py:455-457 | a zero-length header is skipped |
| TraceParse.WalkBadLength | netlink-decoder/netlink_decoder.py:458-459 | a length below 4 or past the data stops the walk |
| TraceParse.ParseEncoded | netlink-decoder/netlink_decoder.py:447-489 | parsing well-formed encoded attributes stores each of them in the order they were sent |
| TraceFormat.Indent | netlink-decoder/netlink_decoder.py:499 | the prefix is two spaces per level |
| TraceFormat.Format | netlink-decoder/netlink_decoder.py:493-508 | definition, no contract of its own: `format_attrs`; TraceFormat.FormatFlat and TraceFormat.DisplayLines state its meaning |
| TraceFormat.Lines | netlink-decoder/netlink_decoder.py:498-507 | at least one line per entry |
| TraceFormat.Flat | netlink-decoder/netlink_decoder.py:495-507 | the display has at least one line |
| TraceFormat.FlatEntries | netlink-decoder/netlink_decoder.py:498-507 | at least one line per entry, nested groups spelled out |
| TraceFormat.FormatFlat | netlink-decoder/netlink_decoder.py:493-508 | `format_attrs` is its flat lines joined by newlines |
| TraceFormat.LinesFlat | netlink-decoder/netlink_decoder.py:500-508 | a nested group's joined display equals its lines spelled out |
| TraceFormat.DecimalSingleLine | netlink-decoder/netlink_decoder.py:507 | a number prints without a newline |
| TraceFormat.IndentSingleLine | netlink-decoder/netlink_decoder.py:499 | the prefix holds no newline |
| TraceFormat.FlatSingleLine | netlink-decoder/netlink_decoder.py:493-508 | without newlines in keys or texts, no display line holds one |
| TraceFormat.FlatEntriesSingleLine | netlink-decoder/netlink_decoder.py:498-507 | the same for the entry lines |
| TraceFormat.DisplayLines | netlink-decoder/netlink_decoder.py:493-508 | without newlines in keys or texts, splitting the display at newlines gives exactly its lines |
| TraceFlags.Grouped | netlink-decoder/netlink_decoder.py:549 | the digits `int(s, 16)` reads after `0x` are hex digits, no more than the text, non-empty for non-empty text |
| TraceFlags.GroupedPlain | netlink-decoder/netlink_decoder.py:549 | hex digits without underscores are read as they are |
| TraceFlags.HexInt | netlink-decoder/netlink_decoder.py:548-549 | definition, no contract of its own: `int(s, 16)` of a `0x` text; TraceFlags.HexFlags and FlagsHex state its value |
| TraceFlags.PartValue | netlink-decoder/netlink_decoder.py:554-560 | definition, no contract of its own: the value of one stripped part; TraceFlags.NamePart states it for a flag name |
| TraceFlags.OrAll | netlink-decoder/netlink_decoder.py:552-563 | definition, no contract of its own: `total \|= v` over the parts; TraceFlags.OrAllSome, OrAllBits and OrAllRaises state its meaning |
| TraceFlags.Flags | netlink-decoder/netlink_decoder.py:534-563 | definition, no contract of its own: `parse_nlm_flags`; TraceFlags.ParseNlmFlags computes it and FlagsDecimal, FlagsHex, SymbolicFlags and FlagsTwoNames state its cases |
| TraceFlags.FlagsOf | netlink-decoder/netlink_decoder.py:546-563 | definition, no contract of its own: `parse_nlm_flags` once the text is stripped; TraceFlags.SymbolicFlags states its symbolic case |
| TraceFlags.OrAllRaises | netlink-decoder/netlink_decoder.py:552-563 | once a part raises `ValueError`, the whole parse raises |
| TraceFlags.ParseNlmFlags | netlink-decoder/netlink_decoder.py:534-563 | the method computes `parse_nlm_flags`: a decimal text, a `0x` number, or the or of the parts' values, None standing for `ValueError` |
| TraceFlags.OrParts | netlink-decoder/netlink_decoder.py:552-563 | the `for part in ...split('\|')` loop returns the or of the stripped parts' values in order, and `ValueError` as soon as one part raises |
| TraceFlags.OrAllSome | netlink-decoder/netlink_decoder.py:552-563 | the or of the parts succeeds exactly when every part does |
| TraceFlags.OrAllBits | netlink-decoder/netlink_decoder.py:552-563 | a bit of the total is set exactly when some part's value has it |
| TraceFlags.SymbolicFlags | netlink-decoder/netlink_decoder.py:551-563 | symbolic flags raise exactly when a part does, and a bit of the result is set exactly when some part has it |
| TraceFlags.NamePart | netlink-decoder/netlink_decoder.py:555-556 | a flag name is its table value, an unknown name 0 |
| TraceFlags.TwoNamesText | netlink-decoder/netlink_decoder.py:543-553 | two names joined by `\|` are neither decimal nor hex and split back into the two names |
| TraceFlags.FlagsTwoNames | netlink-decoder/netlink_decoder.py:534-563 | `A\|B` is the or of the two names' values |
| TraceFlags.StripHex | netlink-decoder/netlink_decoder.py:543 | a `0x` number is unchanged by `strip` |
| TraceFlags.StripDigits | netlink-decoder/netlink_decoder.py:543 | digits and `x` are unchanged by `strip` |
| TraceFlags.FlagsDecimal | netlink-decoder/netlink_decoder.py:546-547 | `parse_nlm_flags(str(n)) == n` |
| TraceFlags.FlagsHex | netlink-decoder/netlink_decoder.py:548-549 | `0x` and hex digits give their value |
| TraceFlags.HexFlags | netlink-decoder/netlink_decoder.py:548-549 | the same once stripped |
| TraceFlags.FlagsBytes | netlink-decoder/netlink_decoder.py:548-549 | `0x` and the hex of some bytes give the bytes as a big-endian number |
| TraceFlags.MsgTypeSymbolic | netlink-decoder/netlink_decoder.py:565-597 | any type text other than `NLMSG_OVERRUN` that does not start with a digit is 0 |
| TraceFlags.LeadingNumber | netlink-decoder/netlink_decoder.py:582-585 | definition, no contract of its own: the number `re.match(r'(0x[0-9a-fA-F]+\|\d+)')` finds; TraceFlags.LeadingDecimal and LeadingHex state its value |
| TraceFlags.MsgType | netlink-decoder/netlink_decoder.py:565-597 | definition, no contract of its own: `parse_nlmsg_type`; TraceFlags.MsgTypeDecimal, MsgTypeHex, MsgTypeSymbolic, MsgTypeComment and MsgTypeHexComment state its cases |
| TraceFlags.MsgTypeOf | netlink-decoder/netlink_decoder.py:577-597 | definition, no contract of its own: `parse_nlmsg_type` once the text is stripped; TraceFlags.CommentRule and HexMsgType state its cases |
| TraceFlags.LeadingDecimal | netlink-decoder/netlink_decoder.py:582 | the leading number of `str(n)` followed by text that does not continue it is `n` |
| TraceFlags.MsgTypeDecimal | netlink-decoder/netlink_decoder.py:594-595 | `parse_nlmsg_type(str(n)) == n` |
| TraceFlags.MsgTypeHex | netlink-decoder/netlink_decoder.py:588-591 | `0x` and hex digits give their value |
| TraceFlags.HexMsgType | netlink-decoder/netlink_decoder.py:588-591 | the same once stripped |
| TraceFlags.MsgTypeBytes | netlink-decoder/netlink_decoder.py:588-591 | `0x` and the hex of some bytes give the bytes as a big-endian number |
| TraceFlags.MsgTypeComment | netlink-decoder/netlink_decoder.py:580-585 | a decimal followed by ` /* NLMSG_??? */` or ` /* GENERIC_FAMILY_??? */` is read as that decimal |
| TraceFlags.CommentRule | netlink-decoder/netlink_decoder.py:577-597 | a stripped type other than `NLMSG_OVERRUN` that contains `NLMSG_???` or `GENERIC_FAMILY_???` is the number `re.match` finds at its start, and 0 when it starts with none |
| TraceFlags.LeadingHex | netlink-decoder/netlink_decoder.py:582-584 | `0x`, hex digits and then a character that is not one: the number found is exactly those digits read in base 16 |
| TraceFlags.MsgTypeHexComment | netlink-decoder/netlink_decoder.py:580-585 | `0x` and hex digits followed by ` /* NLMSG_??? */` or ` /* GENERIC_FAMILY_??? */` is read as their hex value |
| TraceExamples.RoleAddress | netlink-decoder/test_netlink_decoder.py:39-44 | `GTP5G_PDR_ROLE_ADDR_IPV4` with bytes 192, 168, 1, 1 decodes to `192.168.1.1` |
| TraceExamples.GateStatus | netlink-decoder/test_netlink_decoder.py:57-62 | `GTP5G_QER_GATE` with the byte 3 decodes to 3 |
| TraceExamples.PdrId | netlink-decoder/test_netlink_decoder.py:74-79 | `GTP5G_PDR_ID` with the little-endian bytes of 1234 decodes to 1234 |
| TraceExamples.Teid | netlink-decoder/test_netlink_decoder.py:91-101 | `GTP5G_F_TEID_I_TEID` with the little-endian bytes of `0x12345678` decodes to that number |
| TraceExamples.Seid | netlink-decoder/test_netlink_decoder.py:113-118 | `GTP5G_PDR_SEID` with the little-endian bytes of `0x123456789ABCDEF0` decodes to that number |
| TraceExamples.OneWord | netlink-decoder/netlink_decoder.py:362-370 | a single port word shows the range between its two little-endian halves |
| TraceExamples.SinglePort | netlink-decoder/test_netlink_decoder.py:137-142 | a port word whose halves are both 80 shows `80` |
| TraceExamples.PortRange | netlink-decoder/test_netlink_decoder.py:144-147 | a port word with halves 1024 and 2048 shows `1024-2048` |
| TraceExamples.NoPorts | netlink-decoder/test_netlink_decoder.py:149-151 | no port data shows `(none)` |
| TraceExamples.MaskClassC | netlink-decoder/test_netlink_decoder.py:153-158 | the mask bytes 255, 255, 255, 0 show `255.255.255.0` |
| TraceExamples.MaskClassB | netlink-decoder/test_netlink_decoder.py:160-163 | the mask bytes 255, 255, 0, 0 show `255.255.0.0` |
| TraceExamples.HexFallback | netlink-decoder/test_netlink_decoder.py:165-169 | an unlisted name with bytes DE AD BE EF shows `0xdeadbeef` |
| TraceExamples.PathText | netlink-decoder/test_netlink_decoder.py:125-135 | the text bytes of `/tmp` followed by NUL decode to `/tmp` |
| TraceExamples.EmptyLink | netlink-decoder/test_netlink_decoder.py:171-174 | `GTP5G_LINK` with no data shows `(empty)` |
| TraceExamples.ShortFarId | netlink-decoder/test_netlink_decoder.py:176-182 | `GTP5G_FAR_ID` with two bytes falls back to `0x0102` |
| TraceExamples.ParseEmpty | netlink-decoder/test_netlink_decoder.py:247-250 | no data parses to the empty dictionary |
| TraceExamples.ParseOne | netlink-decoder/test_netlink_decoder.py:252-257 | one encoded attribute parses to what that attribute stores |
| TraceExamples.ParseTwo | netlink-decoder/test_netlink_decoder.py:266-277 | two encoded attributes are stored in their order |
| TraceExamples.U32Rule | netlink-decoder/netlink_decoder.py:333-348 | a 32-bit name that no earlier rule claims reads four little-endian bytes |
| TraceExamples.ParseNamed | netlink-decoder/test_netlink_decoder.py:252-264 | one named attribute that is neither a container nor a nested group parses to its name and decoded value |
| TraceExamples.StoredPlain | netlink-decoder/netlink_decoder.py:485-486 | a regular attribute stores its decoded value under its name |
| TraceExamples.LinkStored | netlink-decoder/test_netlink_decoder.py:252-257 | type 1 with a 32-bit value stores that value as `GTP5G_LINK` |
| TraceExamples.NetNsStored | netlink-decoder/test_netlink_decoder.py:266-277 | type 2 with a 32-bit value stores that value as `GTP5G_NET_NS_FD` |
| TraceExamples.LinkNetNsStored | netlink-decoder/test_netlink_decoder.py:266-277 | link then namespace give the dictionary of both, in that order |
| TraceExamples.PdrIdRule | netlink-decoder/netlink_decoder.py:374-376 | the PDR id name reads two little-endian bytes |
| TraceExamples.PdrIdValue | netlink-decoder/test_netlink_decoder.py:259-264 | the PDR id decodes back to the 16-bit value written |
| TraceExamples.PdrIdLayout | netlink-decoder/test_netlink_decoder.py:259-262 | a PDR id attribute is length 6, type 3, the id and two bytes of padding |
| TraceExamples.StoredUnknown | netlink-decoder/netlink_decoder.py:463 | a type the table lacks is stored under `UNKNOWN_ATTR_<type>`, whatever its payload |
| TraceExamples.UnknownStored | netlink-decoder/test_netlink_decoder.py:317-322 | type 99 under the common table is stored as `UNKNOWN_ATTR_99` |
| TraceExamples.StoredContainer | netlink-decoder/netlink_decoder.py:475-479 | a nested name stores the dictionary its payload parses to under its sub-mapping |
| TraceExamples.U8Rule | netlink-decoder/netlink_decoder.py:389-402 | an 8-bit name that no earlier rule claims reads one byte |
| TraceExamples.SrcIntfValue | netlink-decoder/test_netlink_decoder.py:301-315 | a source interface is its one byte |
| TraceExamples.ParseSrcIntf | netlink-decoder/test_netlink_decoder.py:301-315 | a source interface attribute of length 5 parses with the PDI table to that interface alone |
| TraceExamples.PdiStored | netlink-decoder/test_netlink_decoder.py:286-299 | a PDI attribute whose type carries the nested flag is stored as the dictionary of the source interface inside it |
| TraceExamples.FlagsFive | netlink-decoder/test_netlink_decoder.py:188-190 | `parse_nlm_flags("5") == 5` |
| TraceExamples.FlagsHexFive | netlink-decoder/test_netlink_decoder.py:188-191 | `parse_nlm_flags("0x05") == 5` |
| TraceExamples.FlagsDump | netlink-decoder/test_netlink_decoder.py:188-192 | `parse_nlm_flags("0x300") == 0x300` |
| TraceExamples.FlagsRequestAck | netlink-decoder/test_netlink_decoder.py:200-203 | `parse_nlm_flags("NLM_F_REQUEST\|NLM_F_ACK") == 5` |
| TraceExamples.TypeDecimal | netlink-decoder/test_netlink_decoder.py:222-224 | `parse_nlmsg_type("31") == 31` |
| TraceExamples.TypeHex | netlink-decoder/test_netlink_decoder.py:222-225 | `parse_nlmsg_type("0x1f") == 31` |
| TraceExamples.TypeOverrun | netlink-decoder/test_netlink_decoder.py:235-237 | `parse_nlmsg_type("NLMSG_OVERRUN") == 4` |
| TraceExamples.TypeUnknown | netlink-decoder/test_netlink_decoder.py:239-241 | `parse_nlmsg_type("UNKNOWN_TYPE") == 0` |
| TraceExamples.TypeComment | netlink-decoder/test_netlink_decoder.py:227-233 | `0x1f /* NLMSG_??? */` and `31 /* GENERIC_FAMILY_??? */` are both 31 |
| TraceExamples.TypeCommentDocumented | netlink-decoder/netlink_decoder.py:569 | `0x7 /* NLMSG_??? */`, the documented example, is 7 |
| TraceExamples.FormatEmpty | netlink-decoder/test_netlink_decoder.py:328-331 | an empty dictionary displays as `  (empty)` |
| TraceExamples.FlatCons | netlink-decoder/netlink_decoder.py:500-507 | the lines of the entries are those of the first entry followed by those of the rest |
| TraceExamples.FlatLine | netlink-decoder/netlink_decoder.py:506-507 | a simple entry is one `key: value` line at its level |
| TraceExamples.FlatGroup | netlink-decoder/netlink_decoder.py:501-504 | a nested entry is its `key:` line, then the lines of its dictionary one level deeper |
| TraceExamples.FlatSimple | netlink-decoder/test_netlink_decoder.py:333-338 | link 5 and FAR id 1 display as the two lines `  GTP5G_LINK: 5` and `  GTP5G_FAR_ID: 1` |
| TraceExamples.FlatNested | netlink-decoder/test_netlink_decoder.py:340-351 | the nested PDI group displays as its `GTP5G_PDR_PDI:` line and then its two entries indented one level deeper |

## Left out

- The connection: `client.go` (`Client.Do`, the socket, sequence numbers, the family id) is not part of this model. The model replaces it with the `Transport` parameter, so concurrency, timeouts and the kernel's replies are inputs.
- `link.go`, `linkcmd/` and the command-line tools under `cmd/` are not part of this model. The URR commands of `cmd/gogtp5g-tunnel/cmd_urr.go` call the QER functions (lines 39, 80, 108, 145, 182, 215). That defect is in the tool, not in the library calls modelled here, and it is not modelled.
- The `*_test.go` files are not modelled. They send requests to a live kernel module.
- `endian.go`: the host byte order is fixed as little-endian, which is what `native` is on the platforms the module runs on.
- `nl.NewRequest` and `req.Append` are library code. The model builds the request as a value, and appending never fails.
- `nl.DecodeAttrString` is library code. `FarAttr` keeps the forwarding policy as the payload bytes, not as the converted Go string.
- `DecodeAllUSAReports` is not in the shown files. The Update and Remove calls of `UrrOps` take it as the parameter `decodeReports`.
- Go slicing up to a slice's capacity is not modelled. A read past the current length of the buffer is the out-of-range fault, even where Go would read on into spare capacity.
- `ReportOps.GetReportOID`: `report.go:11-60` declares `[]USAReport` but returns the `*USAReport` of `DecodeReport`, so the file does not type-check as given. The model returns the single decoded report as an `Option`.
- `Nla.Align` is computed on unbounded integers. Whether go-nl's 16-bit `Align` wraps for lengths from `0xFFFD` is library behaviour that is not shown.
- `log` and `fmt` output of the Go code, and every `print` of the trace decoder, are not modelled. That includes the warning of `decode_value`'s `except` branch (netlink-decoder/netlink_decoder.py:410-411). No read in `decode_value` can raise once its length test has passed, so that branch is never taken in the model.
- `process_line`, `get_gtp5g_family_id`, `GTP5G_CMDS` and the script's main loop of the trace decoder are not modelled. They read strace text, run `genl` and print.
- `TraceValue.DecodeIgnoring`: UTF-8 decoding is modelled for ASCII only. Every byte below `0x80` is kept, every other byte is dropped, and multi-byte sequences are not decoded.
- `Text.IsDigit` is the ASCII class `0`-`9`. Python's `str.isdigit` and the `\d` of `re` accept further Unicode digits. `Text.IsSpace` is the whole set of characters `str.isspace` accepts.
- `TraceFlags.Grouped`: `int(s, 16)` is modelled for the `0x` forms the decoder passes it: hex digits with single underscores between them. Leading and trailing whitespace never reach it, because the text has been stripped.
- The attribute numbers of the trace decoder's tables are modelled as written, even where they differ from the Go constants. For a FAR the script has SEID 7 and BAR id 8 (netlink-decoder/netlink_decoder.py:73-74), while Go has `FAR_UL_OR_DL` 7, `FAR_SEID` 8 and `FAR_BAR_ID` 9 (attr_far.go:14-16). For a usage report the script has volume measurement 6 and query URR reference 7 (netlink-decoder/netlink_decoder.py:125-126), while Go has the reverse (attr_report.go:13-14).
- `DecodeGBR` has the same body as `DecodeMBR`, so both are modelled by `QerAttr.DecodeBitRate`. `decodeVolumeQuota` has the same body as `decodeVolumeThreshold`, so both are modelled by `UrrAttr.DecodeVolume`.

## Findings

| source | as written | input that shows it | evidently intended | confidence | as-written member | corrected member |
|---|---|---|---|---|---|---|
| report.go:11-13 | `GetReport(c, link, urrid, seid)` builds `OID{urrid, seid}`, and an OID holds the SEID first, so the query sends `seid` as the URR id and `urrid` as the SEID | URR 1 of session 2: the request carries URR id 2 and SEID 1 | `OID{seid, urrid}`, naming URR `urrid` of session `seid` | not executed | ReportOps.GetReportAsWritten | ReportOps.GetReportFixed |
