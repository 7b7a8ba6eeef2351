/** The decision logic of the `GET /detect_cloud_tampering` handler in app.py:
    the local-validity gate, indexing both sides by block id, and the
    difference list. The GET request to the mirror is not modelled: its
    outcome is a parameter. Fields are compared as raw strings. */
module Reconcile {
  import opened Wrappers
  import opened Ledger
  import OD = OrderedDict

  /** A row of the mirror's dump: its `block_id` as `int()` parses it (`None`
      when that raises), and its other members as their `str()` text. */
  datatype CloudRow = CloudRow(blockId: Option<int>, fields: map<string, string>)

  /** One entry of the difference list. */
  datatype Finding =
    | MissingInCloud(blockId: int)
    | DataMismatch(blockId: int, field: Field, blockValue: string, cloudValue: string)
    | ExtraInCloud(blockId: int)

  /** The fields compared per block, in order. */
  const ComparedFields: seq<Field> :=
    [PatientId, ClinicName, Diagnosis, Treatment, Tanggal, Doctor, PrevHash, CurrentHash]

  /** `str(d.get(field, ""))`: an absent member reads as the empty string. */
  function Lookup(fields: map<string, string>, f: Field): string {
    if FieldName(f) in fields then fields[FieldName(f)] else ""
  }

  /** `chain_map`: the local dictionaries indexed by `block_id`. */
  function ChainMap(blocks: seq<Projection>): (d: OD.Dict<int, Projection>)
    ensures OD.Valid(d)
  {
    if |blocks| == 0 then OD.Empty()
    else
      var last := blocks[|blocks| - 1];
      OD.Put(ChainMap(blocks[..|blocks| - 1]), last.blockId, last)
  }

  /** `cloud_map`: the mirror's rows indexed by parsed `block_id`, skipping
      rows whose id does not parse. */
  function CloudMap(rows: seq<CloudRow>): (d: OD.Dict<int, CloudRow>)
    ensures OD.Valid(d)
  {
    if |rows| == 0 then OD.Empty()
    else
      var prev := CloudMap(rows[..|rows| - 1]);
      var last := rows[|rows| - 1];
      match last.blockId
      case None => prev
      case Some(k) => OD.Put(prev, k, last)
  }

  /** One `data_mismatch` per field of `fs`, in order, whose values differ. */
  function FieldMismatches(id: int, local: Projection, cloud: CloudRow, fs: seq<Field>): seq<Finding> {
    if |fs| == 0 then []
    else
      var a := Lookup(local.fields, fs[0]);
      var c := Lookup(cloud.fields, fs[0]);
      (if a != c then [DataMismatch(id, fs[0], a, c)] else [])
      + FieldMismatches(id, local, cloud, fs[1..])
  }

  /** The findings for one local block. */
  function BlockFindings(id: int, local: Projection, cloud: map<int, CloudRow>): seq<Finding> {
    if id == 0 then []
    else if id !in cloud then [MissingInCloud(id)]
    else FieldMismatches(id, local, cloud[id], ComparedFields)
  }

  /** The first loop: every local block id in `chain_map` order. */
  function LocalFindings(ids: seq<int>, local: map<int, Projection>, cloud: map<int, CloudRow>): seq<Finding>
    requires forall k :: k in ids ==> k in local
  {
    if |ids| == 0 then []
    else BlockFindings(ids[0], local[ids[0]], cloud) + LocalFindings(ids[1..], local, cloud)
  }

  /** The second loop: every mirror block id in `cloud_map` order. */
  function ExtraFindings(ids: seq<int>, local: map<int, Projection>): seq<Finding> {
    if |ids| == 0 then []
    else
      (if ids[0] !in local && ids[0] != 0 then [ExtraInCloud(ids[0])] else [])
      + ExtraFindings(ids[1..], local)
  }

  /** The difference list between the local dictionaries and the mirror's rows. */
  function Differences(blocks: seq<Projection>, rows: seq<CloudRow>): seq<Finding> {
    var L := ChainMap(blocks);
    var C := CloudMap(rows);
    LocalFindings(L.keys, L.entries, C.entries) + ExtraFindings(C.keys, L.entries)
  }

  /** The outcome of the GET to the mirror: the parsed rows, or `None` when
      the body is not JSON. */
  datatype FetchOutcome =
    | FetchRaised(message: string)
    | FetchReply(statusCode: int, text: string, rows: Option<seq<CloudRow>>)

  datatype TamperReport =
    | LocalInvalid(detail: Verdict)
    | FetchFailed
    | Report(tampered: bool, differences: seq<Finding>)

  /** The HTTP status each report is answered with. */
  function ReportStatus(r: TamperReport): int {
    match r
    case LocalInvalid(_) => 400
    case FetchFailed => 500
    case Report(_, _) => 200
  }

  /** The mirror's dump was received and parsed. */
  predicate Fetched(fetch: FetchOutcome) {
    fetch.FetchReply? && fetch.statusCode == 200 && fetch.rows.Some?
  }

  /** The handler: no comparison against an invalid local chain, no findings
      without a parsed dump, and `tampered` exactly when some difference was
      found. */
  function DetectCloudTampering(H: Hasher, chain: Chain, fetch: FetchOutcome): (r: TamperReport)
    ensures r.LocalInvalid? <==> !ChainValid(H, chain)
    ensures r.LocalInvalid? ==> !r.detail.Valid? && r.detail == IsChainValid(H, chain)
    ensures r.FetchFailed? <==> ChainValid(H, chain) && !Fetched(fetch)
    ensures r.Report? ==> Fetched(fetch)
    ensures r.Report? ==> r.differences == Differences(ToListOfDicts(chain), fetch.rows.value)
    ensures r.Report? ==> (r.tampered <==> |r.differences| > 0)
    ensures ReportStatus(r) == 400 <==> !ChainValid(H, chain)
    ensures ReportStatus(r) == 500 <==> ChainValid(H, chain) && !Fetched(fetch)
    ensures ReportStatus(r) == 200 <==> ChainValid(H, chain) && Fetched(fetch)
  {
    var verdict := IsChainValid(H, chain);
    if !verdict.Valid? then LocalInvalid(verdict)
    else if !Fetched(fetch) then FetchFailed
    else
      var d := Differences(ToListOfDicts(chain), fetch.rows.value);
      Report(|d| > 0, d)
  }
}
