/** The decision logic of the `POST /add_data` handler in app.py: required-field
    validation, the `tanggal` default, the append to the local chain, the
    classification of the mirror's reply and the response status. The HTTP
    framework and the outgoing request are not modelled: the decoded body, the
    clock reading and the mirror's reply are parameters. */
module AddData {
  import opened Wrappers
  import opened Ledger
  import Text

  /** A decoded JSON member: `null`, or any other value by its `str()` text. */
  datatype Value = Null | Str(s: string)

  /** A decoded JSON object. */
  type Request = map<string, Value>

  /** What `request.get_json(silent=True)` returns for a body that parses to
      something other than `null`. Array items are kept by their `str()` text,
      which is "patient_id" only for that very string. */
  datatype Body =
    | ObjectBody(fields: Request)
    | ArrayBody(items: seq<Value>)
    | TextBody(text: string)
    | ScalarBody

  /** The first check of the field loop, `field not in data or data[field] ...`,
      raises `TypeError` on a body that is not an object: at once on a number
      or boolean, where `in` is undefined, and on an array or string as soon
      as `in` holds, because the body cannot be indexed by a string. */
  predicate LookupRaises(b: Body) {
    match b
    case ObjectBody(_) => false
    case ArrayBody(items) => Str(RequiredFields[0]) in items
    case TextBody(t) => Text.Contains(t, RequiredFields[0])
    case ScalarBody => true
  }

  /** The fields a request must fill, in the order they are checked. */
  const RequiredFields: seq<string> :=
    ["patient_id", "clinic_name", "diagnosis", "treatment", "doctor"]

  /** The field is present, not `null`, and not blank once stripped. */
  predicate Filled(data: Request, field: string) {
    field in data && data[field].Str? && Text.Strip(data[field].s) != ""
  }

  /** The request holds the text `v` under `field`. */
  predicate Carries(data: Request, field: string, v: string) {
    field in data && data[field] == Str(v)
  }

  /** Position of the first field of `fields`, from position `i` on, that
      `data` does not fill. */
  function FirstUnfilled(data: Request, fields: seq<string>, i: nat): (r: Option<nat>)
    requires i <= |fields|
    decreases |fields| - i
    ensures r.None? <==> forall j :: i <= j < |fields| ==> Filled(data, fields[j])
    ensures r.Some? ==> i <= r.value < |fields| && !Filled(data, fields[r.value])
    ensures r.Some? ==> forall j :: i <= j < r.value ==> Filled(data, fields[j])
  {
    if i == |fields| then None
    else if !Filled(data, fields[i]) then Some(i)
    else FirstUnfilled(data, fields, i + 1)
  }

  /** The request's `tanggal` is truthy: present, not `null`, not empty. */
  predicate TanggalGiven(data: Request) {
    "tanggal" in data && data["tanggal"].Str? && data["tanggal"].s != ""
  }

  /** The date stored in the block: the request's own `tanggal` when it is
      truthy, passed through without stripping, otherwise the clock reading. */
  function ResolveTanggal(data: Request, now: string): (t: string)
    ensures TanggalGiven(data) ==> Carries(data, "tanggal", t)
    ensures !TanggalGiven(data) ==> t == now
  {
    if TanggalGiven(data) then data["tanggal"].s else now
  }

  /** The body of the mirror's reply, as `resp.json()` sees it. */
  datatype ReplyBody =
    | Unparsable
    | Object(members: map<string, Value>)
    | NonObject

  /** The outcome of the POST to the mirror. */
  datatype PostOutcome =
    | PostRaised(message: string)
    | PostReply(statusCode: int, text: string, body: ReplyBody)

  /** The error captured in `sync_error`. */
  datatype SyncError =
    | RaisedError(message: string)
    | RejectedBody(reply: map<string, Value>)
    | HttpError(text: string)

  /** The sync fields of the response. */
  datatype Sync = Sync(
    ok: bool,
    statusCode: Option<int>,
    responseText: Option<string>,
    error: Option<SyncError>)

  /** The mirror accepted the block: HTTP 200, and the body is not a JSON
      object whose `status` member is anything but the string "success". An
      unparsable body counts as accepted, and so does a body that parses to
      something other than an object, because `js.get` then raises inside the
      same `try` that catches the parse failure. */
  predicate Accepted(post: PostOutcome) {
    && post.PostReply?
    && post.statusCode == 200
    && (post.body.Object? ==> "status" in post.body.members && post.body.members["status"] == Str("success"))
  }

  /** The `try` block around the mirror POST: exactly one of success and a
      captured error, with the reply's status and text kept when there was one. */
  function ClassifySync(post: PostOutcome): (s: Sync)
    ensures s.ok <==> Accepted(post)
    ensures s.ok <==> s.error.None?
    ensures post.PostRaised? ==> s.statusCode.None? && s.responseText.None?
    ensures post.PostReply? ==> s.statusCode == Some(post.statusCode) && s.responseText == Some(post.text)
  {
    match post
    case PostRaised(msg) => Sync(false, None, None, Some(RaisedError(msg)))
    case PostReply(code, text, body) =>
      if code == 200 then
        match body
        case Unparsable => Sync(true, Some(code), Some(text), None)
        case NonObject => Sync(true, Some(code), Some(text), None)
        case Object(js) =>
          if "status" in js && js["status"] == Str("success") then Sync(true, Some(code), Some(text), None)
          else Sync(false, Some(code), Some(text), Some(RejectedBody(js)))
      else Sync(false, Some(code), Some(text), Some(HttpError(text)))
  }

  /** The status policy once the block is appended: 201 when the sync
      succeeded or no error was captured, else 500. */
  function SyncStatus(s: Sync): int {
    if s.ok || s.error.None? then 201 else 500
  }

  /** For every reply the classifier can produce, the answer is 500 exactly
      when the sync did not succeed. */
  lemma SyncStatusIs500IffFailed(post: PostOutcome)
    ensures SyncStatus(ClassifySync(post)) == 500 <==> !Accepted(post)
    ensures SyncStatus(ClassifySync(post)) in {201, 500}
  {
  }

  /** The handler's answer; `Raised` is the uncaught `TypeError`, which the
      framework answers with 500. */
  datatype AddResponse =
    | NotJson
    | MissingField(field: string)
    | Raised
    | Added(block: Projection, sync: Sync)

  function StatusCode(r: AddResponse): int {
    match r
    case NotJson => 415
    case MissingField(_) => 400
    case Raised => 500
    case Added(_, s) => SyncStatus(s)
  }

  /** The handler past its body checks, for a body that is a JSON object:
      the field loop, the append and the sync. */
  function AddRecord(H: Hasher, chain: Chain, data: Request, now: string, post: PostOutcome)
    : (r: (Chain, AddResponse))
    requires |chain| > 0
    ensures r.1.MissingField? || r.1.Added?
    ensures r.1.MissingField? ==>
      exists i :: 0 <= i < |RequiredFields| && r.1.field == RequiredFields[i]
        && !Filled(data, RequiredFields[i])
        && forall j :: 0 <= j < i ==> Filled(data, RequiredFields[j])
    ensures r.1.Added? <==> forall i :: 0 <= i < |RequiredFields| ==> Filled(data, RequiredFields[i])
    ensures !r.1.Added? ==> r.0 == chain
    ensures r.1.Added? ==>
      && |r.0| == |chain| + 1
      && r.0[..|chain|] == chain
      && r.0[|chain|].prevHash == chain[|chain| - 1].currentHash
      && r.0[|chain|].blockId == chain[|chain| - 1].blockId + 1
      && Sealed(H, r.0[|chain|])
      && r.1.block == ToDict(r.0[|chain|])
      && Carries(data, "patient_id", r.0[|chain|].patientId)
      && Carries(data, "clinic_name", r.0[|chain|].clinicName)
      && Carries(data, "diagnosis", r.0[|chain|].diagnosis)
      && Carries(data, "treatment", r.0[|chain|].treatment)
      && Carries(data, "doctor", r.0[|chain|].doctor)
      && r.0[|chain|].tanggal == ResolveTanggal(data, now)
      && r.1.sync == ClassifySync(post)
  {
    match FirstUnfilled(data, RequiredFields, 0)
    case Some(i) => (chain, MissingField(RequiredFields[i]))
    case None =>
      assert Filled(data, RequiredFields[0]) && Filled(data, RequiredFields[1])
          && Filled(data, RequiredFields[2]) && Filled(data, RequiredFields[3])
          && Filled(data, RequiredFields[4]);
      var e := Entry(data["patient_id"].s, data["clinic_name"].s, data["diagnosis"].s,
                     data["treatment"].s, ResolveTanggal(data, now), data["doctor"].s);
      var (c, b) := AddBlock(H, chain, e);
      (c, Added(ToDict(b), ClassifySync(post)))
  }

  /** The handler: `body` is the decoded JSON body (`None` when the request
      is not JSON or is JSON `null`), `now` the formatted clock reading and
      `post` the mirror's reply to the appended block. Returns the new chain
      and the response. */
  function HandleAddData(H: Hasher, chain: Chain, body: Option<Body>, now: string, post: PostOutcome)
    : (r: (Chain, AddResponse))
    requires |chain| > 0
    ensures r.1.NotJson? <==> body.None?
    ensures r.1.Raised? <==> body.Some? && LookupRaises(body.value)
    ensures r.1.MissingField? && !body.value.ObjectBody? ==> r.1.field == RequiredFields[0]
    ensures body.Some? && body.value.ObjectBody? ==> r == AddRecord(H, chain, body.value.fields, now, post)
    ensures !r.1.Added? ==> r.0 == chain
    ensures r.1.Added? ==> body.Some? && body.value.ObjectBody?
    ensures StatusCode(r.1) == 500 <==> r.1.Raised? || (r.1.Added? && !Accepted(post))
  {
    match body
    case None => (chain, NotJson)
    case Some(b) =>
      if LookupRaises(b) then (chain, Raised)
      else if !b.ObjectBody? then (chain, MissingField(RequiredFields[0]))
      else AddRecord(H, chain, b.fields, now, post)
  }
}
