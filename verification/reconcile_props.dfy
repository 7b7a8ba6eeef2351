/** Properties of the tampering check: how both sides are indexed, exactly
    which findings the difference list holds, that none repeats, and that a
    faithful mirror is reported untampered. */
module ReconcileProps {
  import opened Wrappers
  import opened Ledger
  import OD = OrderedDict
  import opened Reconcile

  // ---------------------------------------------------------------------
  // Indexing
  // ---------------------------------------------------------------------

  /** The local block ids. */
  ghost function LocalIds(blocks: seq<Projection>): set<int> {
    set i | 0 <= i < |blocks| :: blocks[i].blockId
  }

  /** The mirror's block ids that parse. */
  ghost function ParsedIds(rows: seq<CloudRow>): set<int> {
    set i | 0 <= i < |rows| && rows[i].blockId.Some? :: rows[i].blockId.value
  }

  /** No later local dictionary has the same id as the one at `i`. */
  ghost predicate LastBlock(blocks: seq<Projection>, i: int) {
    0 <= i < |blocks| && forall j :: i < j < |blocks| ==> blocks[j].blockId != blocks[i].blockId
  }

  /** The row at `i` has a parsed id and no later row has the same one. */
  ghost predicate LastRow(rows: seq<CloudRow>, i: int) {
    && 0 <= i < |rows|
    && rows[i].blockId.Some?
    && forall j :: i < j < |rows| ==> rows[j].blockId != rows[i].blockId
  }

  /** `chain_map` holds exactly the local ids. */
  lemma {:induction false} ChainMapKeys(blocks: seq<Projection>)
    ensures ChainMap(blocks).entries.Keys == LocalIds(blocks)
  {
    if |blocks| > 0 {
      var n := |blocks| - 1;
      var pre := blocks[..n];
      ChainMapKeys(pre);
      assert ChainMap(blocks).entries.Keys == ChainMap(pre).entries.Keys + {blocks[n].blockId};
      forall k | k in LocalIds(blocks) ensures k in LocalIds(pre) + {blocks[n].blockId} {
        var i :| 0 <= i < |blocks| && blocks[i].blockId == k;
        if i < n { assert pre[i] == blocks[i]; }
      }
      forall k | k in LocalIds(pre) ensures k in LocalIds(blocks) {
        var i :| 0 <= i < |pre| && pre[i].blockId == k;
        assert blocks[i] == pre[i];
      }
    }
  }

  /** Each local id maps to the last dictionary that carries it. */
  lemma {:induction false} ChainMapLastWins(blocks: seq<Projection>)
    ensures forall i :: LastBlock(blocks, i) ==>
      blocks[i].blockId in ChainMap(blocks).entries && ChainMap(blocks).entries[blocks[i].blockId] == blocks[i]
  {
    if |blocks| > 0 {
      var n := |blocks| - 1;
      var pre := blocks[..n];
      ChainMapLastWins(pre);
      assert ChainMap(blocks).entries == ChainMap(pre).entries[blocks[n].blockId := blocks[n]];
      forall i | LastBlock(blocks, i)
        ensures blocks[i].blockId in ChainMap(blocks).entries
          && ChainMap(blocks).entries[blocks[i].blockId] == blocks[i]
      {
        if i < n {
          assert pre[i] == blocks[i];
          assert LastBlock(pre, i);
        }
      }
    }
  }

  /** `cloud_map` holds exactly the ids that parse: rows whose id does not
      parse are ignored. */
  lemma {:induction false} CloudMapKeys(rows: seq<CloudRow>)
    ensures CloudMap(rows).entries.Keys == ParsedIds(rows)
  {
    if |rows| > 0 {
      var n := |rows| - 1;
      var pre := rows[..n];
      CloudMapKeys(pre);
      var extra: set<int> := if rows[n].blockId.Some? then {rows[n].blockId.value} else {};
      assert CloudMap(rows).entries.Keys == CloudMap(pre).entries.Keys + extra;
      forall k | k in ParsedIds(rows) ensures k in ParsedIds(pre) + extra {
        var i :| 0 <= i < |rows| && rows[i].blockId.Some? && rows[i].blockId.value == k;
        if i < n { assert pre[i] == rows[i]; }
      }
      forall k | k in ParsedIds(pre) ensures k in ParsedIds(rows) {
        var i :| 0 <= i < |pre| && pre[i].blockId.Some? && pre[i].blockId.value == k;
        assert rows[i] == pre[i];
      }
    }
  }

  /** For a repeated id the later row wins. */
  lemma {:induction false} CloudMapLastWins(rows: seq<CloudRow>)
    ensures forall i :: LastRow(rows, i) ==>
      rows[i].blockId.value in CloudMap(rows).entries && CloudMap(rows).entries[rows[i].blockId.value] == rows[i]
  {
    if |rows| > 0 {
      var n := |rows| - 1;
      var pre := rows[..n];
      CloudMapLastWins(pre);
      forall i | LastRow(rows, i)
        ensures rows[i].blockId.value in CloudMap(rows).entries
          && CloudMap(rows).entries[rows[i].blockId.value] == rows[i]
      {
        if i < n {
          assert pre[i] == rows[i];
          assert LastRow(pre, i);
        }
      }
    }
  }

  // ---------------------------------------------------------------------
  // Which findings the list holds
  // ---------------------------------------------------------------------

  /** A finding the first loop must report, given both indexes. */
  ghost predicate LocalExpected(local: map<int, Projection>, cloud: map<int, CloudRow>, x: Finding) {
    match x
    case MissingInCloud(k) => k in local && k != 0 && k !in cloud
    case DataMismatch(k, f, a, c) =>
      && k in local && k != 0 && k in cloud
      && a == Lookup(local[k].fields, f)
      && c == Lookup(cloud[k].fields, f)
      && a != c
    case ExtraInCloud(_) => false
  }

  /** A finding the second loop must report. */
  ghost predicate ExtraExpected(local: map<int, Projection>, cloud: map<int, CloudRow>, x: Finding) {
    x.ExtraInCloud? && x.blockId in cloud && x.blockId !in local && x.blockId != 0
  }

  /** A finding the whole comparison must report. */
  ghost predicate Expected(local: map<int, Projection>, cloud: map<int, CloudRow>, x: Finding) {
    LocalExpected(local, cloud, x) || ExtraExpected(local, cloud, x)
  }

  lemma AllFieldsCompared(f: Field)
    ensures f in ComparedFields
  {
    match f
    case PatientId => assert ComparedFields[0] == f;
    case ClinicName => assert ComparedFields[1] == f;
    case Diagnosis => assert ComparedFields[2] == f;
    case Treatment => assert ComparedFields[3] == f;
    case Tanggal => assert ComparedFields[4] == f;
    case Doctor => assert ComparedFields[5] == f;
    case PrevHash => assert ComparedFields[6] == f;
    case CurrentHash => assert ComparedFields[7] == f;
  }

  /** The per-field loop reports exactly the fields of `fs` whose string
      values differ, with both values. */
  lemma {:induction false} FieldMismatchesMembers(id: int, p: Projection, row: CloudRow, fs: seq<Field>)
    ensures forall x :: x in FieldMismatches(id, p, row, fs) <==>
      && x.DataMismatch? && x.blockId == id && x.field in fs
      && x.blockValue == Lookup(p.fields, x.field)
      && x.cloudValue == Lookup(row.fields, x.field)
      && x.blockValue != x.cloudValue
  {
    if |fs| > 0 {
      FieldMismatchesMembers(id, p, row, fs[1..]);
      forall f | f in fs ensures f == fs[0] || f in fs[1..] {
        var i :| 0 <= i < |fs| && fs[i] == f;
        if i > 0 { assert fs[1..][i - 1] == f; }
      }
    }
  }

  /** The findings for one local block are exactly those expected with its id. */
  lemma BlockFindingsMembers(k: int, local: map<int, Projection>, cloud: map<int, CloudRow>)
    requires k in local
    ensures forall x :: x in BlockFindings(k, local[k], cloud) <==> x.blockId == k && LocalExpected(local, cloud, x)
  {
    if k != 0 && k in cloud {
      FieldMismatchesMembers(k, local[k], cloud[k], ComparedFields);
      forall x: Finding | x.blockId == k && LocalExpected(local, cloud, x)
        ensures x in BlockFindings(k, local[k], cloud)
      {
        AllFieldsCompared(x.field);
      }
    }
  }

  /** The first loop reports exactly the expected local findings for the ids
      it walks. */
  lemma {:induction false} LocalFindingsMembers(ids: seq<int>, local: map<int, Projection>, cloud: map<int, CloudRow>)
    requires forall k :: k in ids ==> k in local
    ensures forall x :: x in LocalFindings(ids, local, cloud) <==> x.blockId in ids && LocalExpected(local, cloud, x)
  {
    if |ids| > 0 {
      BlockFindingsMembers(ids[0], local, cloud);
      LocalFindingsMembers(ids[1..], local, cloud);
      forall k | k in ids ensures k == ids[0] || k in ids[1..] {
        var i :| 0 <= i < |ids| && ids[i] == k;
        if i > 0 { assert ids[1..][i - 1] == k; }
      }
    }
  }

  /** The second loop reports exactly the ids it walks that are neither
      local nor 0. */
  lemma {:induction false} ExtraFindingsMembers(ids: seq<int>, local: map<int, Projection>)
    ensures forall x :: x in ExtraFindings(ids, local) <==>
      x.ExtraInCloud? && x.blockId in ids && x.blockId !in local && x.blockId != 0
  {
    if |ids| > 0 {
      ExtraFindingsMembers(ids[1..], local);
      forall k | k in ids ensures k == ids[0] || k in ids[1..] {
        var i :| 0 <= i < |ids| && ids[i] == k;
        if i > 0 { assert ids[1..][i - 1] == k; }
      }
    }
  }

  // ---------------------------------------------------------------------
  // No finding is reported twice
  // ---------------------------------------------------------------------

  /** What identifies a finding: its kind, its block id and, for a mismatch,
      the field. */
  datatype Key = MissingKey(id: int) | MismatchKey(id: int, field: Field) | ExtraKey(id: int)

  function KeyOf(x: Finding): Key {
    match x
    case MissingInCloud(k) => MissingKey(k)
    case DataMismatch(k, f, _, _) => MismatchKey(k, f)
    case ExtraInCloud(k) => ExtraKey(k)
  }

  ghost predicate Distinct(d: seq<Finding>) {
    forall i, j :: 0 <= i < j < |d| ==> KeyOf(d[i]) != KeyOf(d[j])
  }

  ghost predicate NoDuplicates<T>(s: seq<T>) {
    forall i, j :: 0 <= i < j < |s| ==> s[i] != s[j]
  }

  lemma DistinctConcat(a: seq<Finding>, b: seq<Finding>)
    requires Distinct(a) && Distinct(b)
    requires forall x, y :: x in a && y in b ==> KeyOf(x) != KeyOf(y)
    ensures Distinct(a + b)
  {
    var c := a + b;
    forall i, j | 0 <= i < j < |c|
      ensures KeyOf(c[i]) != KeyOf(c[j])
    {
      if j < |a| {
        assert c[i] == a[i] && c[j] == a[j];
      } else if i >= |a| {
        assert c[i] == b[i - |a|] && c[j] == b[j - |a|];
      } else {
        assert c[i] == a[i] && c[j] == b[j - |a|];
        assert c[i] in a && c[j] in b;
      }
    }
  }

  lemma {:induction false} FieldMismatchesDistinct(id: int, p: Projection, row: CloudRow, fs: seq<Field>)
    requires NoDuplicates(fs)
    ensures Distinct(FieldMismatches(id, p, row, fs))
  {
    if |fs| > 0 {
      var tail := fs[1..];
      FieldMismatchesDistinct(id, p, row, tail);
      FieldMismatchesMembers(id, p, row, tail);
      var a := Lookup(p.fields, fs[0]);
      var c := Lookup(row.fields, fs[0]);
      var head: seq<Finding> := if a != c then [DataMismatch(id, fs[0], a, c)] else [];
      forall x, y | x in head && y in FieldMismatches(id, p, row, tail)
        ensures KeyOf(x) != KeyOf(y)
      {
        var j :| 0 <= j < |tail| && tail[j] == y.field;
        assert fs[j + 1] == y.field;
      }
      DistinctConcat(head, FieldMismatches(id, p, row, tail));
    }
  }

  lemma ComparedFieldsDistinct()
    ensures NoDuplicates(ComparedFields)
  {
  }

  lemma BlockFindingsDistinct(k: int, p: Projection, cloud: map<int, CloudRow>)
    ensures Distinct(BlockFindings(k, p, cloud))
  {
    if k != 0 && k in cloud {
      ComparedFieldsDistinct();
      FieldMismatchesDistinct(k, p, cloud[k], ComparedFields);
    }
  }

  lemma {:induction false} LocalFindingsDistinct(ids: seq<int>, local: map<int, Projection>, cloud: map<int, CloudRow>)
    requires forall k :: k in ids ==> k in local
    requires NoDuplicates(ids)
    ensures Distinct(LocalFindings(ids, local, cloud))
  {
    if |ids| > 0 {
      var tail := ids[1..];
      LocalFindingsDistinct(tail, local, cloud);
      LocalFindingsMembers(tail, local, cloud);
      BlockFindingsMembers(ids[0], local, cloud);
      BlockFindingsDistinct(ids[0], local[ids[0]], cloud);
      forall x, y | x in BlockFindings(ids[0], local[ids[0]], cloud) && y in LocalFindings(tail, local, cloud)
        ensures KeyOf(x) != KeyOf(y)
      {
        var j :| 0 <= j < |tail| && tail[j] == y.blockId;
        assert ids[j + 1] == y.blockId;
      }
      DistinctConcat(BlockFindings(ids[0], local[ids[0]], cloud), LocalFindings(tail, local, cloud));
    }
  }

  lemma {:induction false} ExtraFindingsDistinct(ids: seq<int>, local: map<int, Projection>)
    requires NoDuplicates(ids)
    ensures Distinct(ExtraFindings(ids, local))
  {
    if |ids| > 0 {
      var tail := ids[1..];
      ExtraFindingsDistinct(tail, local);
      ExtraFindingsMembers(tail, local);
      var head: seq<Finding> := if ids[0] !in local && ids[0] != 0 then [ExtraInCloud(ids[0])] else [];
      forall x, y | x in head && y in ExtraFindings(tail, local)
        ensures KeyOf(x) != KeyOf(y)
      {
        var j :| 0 <= j < |tail| && tail[j] == y.blockId;
        assert ids[j + 1] == y.blockId;
      }
      DistinctConcat(head, ExtraFindings(tail, local));
    }
  }

  // ---------------------------------------------------------------------
  // The difference list
  // ---------------------------------------------------------------------

  /** The difference list holds exactly the expected findings: one
      `missing_in_cloud` per local id other than 0 that the mirror lacks,
      one `data_mismatch` per differing field of a local id other than 0
      that the mirror has, one `extra_in_cloud` per mirror id other than 0
      that is not local. Block id 0 never occurs. */
  lemma DifferencesMembers(blocks: seq<Projection>, rows: seq<CloudRow>)
    ensures forall x :: x in Differences(blocks, rows) <==>
      Expected(ChainMap(blocks).entries, CloudMap(rows).entries, x)
    ensures forall x :: x in Differences(blocks, rows) ==> x.blockId != 0
  {
    var L := ChainMap(blocks);
    var C := CloudMap(rows);
    assert forall k :: k in L.keys ==> k in L.entries;
    assert forall k :: k in C.keys ==> k in C.entries;
    LocalFindingsMembers(L.keys, L.entries, C.entries);
    ExtraFindingsMembers(C.keys, L.entries);
  }

  /** No finding (kind, block id, field) occurs twice in the difference
      list, so each expected finding occurs exactly once. */
  lemma DifferencesDistinct(blocks: seq<Projection>, rows: seq<CloudRow>)
    ensures Distinct(Differences(blocks, rows))
  {
    var L := ChainMap(blocks);
    var C := CloudMap(rows);
    assert forall k :: k in L.keys ==> k in L.entries;
    LocalFindingsMembers(L.keys, L.entries, C.entries);
    ExtraFindingsMembers(C.keys, L.entries);
    LocalFindingsDistinct(L.keys, L.entries, C.entries);
    ExtraFindingsDistinct(C.keys, L.entries);
    DistinctConcat(LocalFindings(L.keys, L.entries, C.entries), ExtraFindings(C.keys, L.entries));
  }

  /** A local block the mirror lacks is reported once as missing and never
      field by field. */
  lemma MissingBlockReportedOnce(blocks: seq<Projection>, rows: seq<CloudRow>, k: int)
    requires k in LocalIds(blocks) && k != 0 && k !in ParsedIds(rows)
    ensures MissingInCloud(k) in Differences(blocks, rows)
    ensures forall x :: x in Differences(blocks, rows) && x.blockId == k ==> x == MissingInCloud(k)
  {
    ChainMapKeys(blocks);
    CloudMapKeys(rows);
    DifferencesMembers(blocks, rows);
    assert Expected(ChainMap(blocks).entries, CloudMap(rows).entries, MissingInCloud(k));
  }

  /** A parsed mirror id that is neither local nor 0 is reported as extra. */
  lemma ExtraBlockReported(blocks: seq<Projection>, rows: seq<CloudRow>, k: int)
    requires k in ParsedIds(rows) && k !in LocalIds(blocks) && k != 0
    ensures ExtraInCloud(k) in Differences(blocks, rows)
    ensures forall x :: x in Differences(blocks, rows) && x.blockId == k ==> x == ExtraInCloud(k)
  {
    ChainMapKeys(blocks);
    CloudMapKeys(rows);
    DifferencesMembers(blocks, rows);
    assert Expected(ChainMap(blocks).entries, CloudMap(rows).entries, ExtraInCloud(k));
  }

  /** For a local block and the mirror row that both index under the same id
      (other than 0), a field yields a `data_mismatch` exactly when its two
      string values differ, and then exactly one, carrying both values. */
  lemma FieldDifferenceReported(blocks: seq<Projection>, rows: seq<CloudRow>, i: int, j: int, f: Field)
    requires LastBlock(blocks, i) && LastRow(rows, j)
    requires rows[j].blockId == Some(blocks[i].blockId) && blocks[i].blockId != 0
    ensures Lookup(blocks[i].fields, f) != Lookup(rows[j].fields, f) ==>
      DataMismatch(blocks[i].blockId, f, Lookup(blocks[i].fields, f), Lookup(rows[j].fields, f))
        in Differences(blocks, rows)
    ensures forall x :: x in Differences(blocks, rows) && KeyOf(x) == MismatchKey(blocks[i].blockId, f) ==>
      x == DataMismatch(blocks[i].blockId, f, Lookup(blocks[i].fields, f), Lookup(rows[j].fields, f))
      && Lookup(blocks[i].fields, f) != Lookup(rows[j].fields, f)
  {
    var k := blocks[i].blockId;
    var L := ChainMap(blocks).entries;
    var C := CloudMap(rows).entries;
    var a := Lookup(blocks[i].fields, f);
    var c := Lookup(rows[j].fields, f);
    ChainMapLastWins(blocks);
    CloudMapLastWins(rows);
    assert k in L && L[k] == blocks[i];
    assert k in C && C[k] == rows[j];
    DifferencesMembers(blocks, rows);
    if a != c {
      assert Expected(L, C, DataMismatch(k, f, a, c));
    }
    forall x | x in Differences(blocks, rows) && KeyOf(x) == MismatchKey(k, f)
      ensures x == DataMismatch(k, f, a, c) && a != c
    {
      assert LocalExpected(L, C, x);
    }
  }

  // ---------------------------------------------------------------------
  // A faithful mirror
  // ---------------------------------------------------------------------

  /** The rows a mirror holds when it stored every local dictionary as sent. */
  function Mirror(blocks: seq<Projection>): (rows: seq<CloudRow>)
    ensures |rows| == |blocks|
    ensures forall i :: 0 <= i < |blocks| ==> rows[i] == CloudRow(Some(blocks[i].blockId), blocks[i].fields)
  {
    seq(|blocks|, i requires 0 <= i < |blocks| => CloudRow(Some(blocks[i].blockId), blocks[i].fields))
  }

  /** Indexing a faithful mirror yields the same ids, in the same order, with
      the same field values as indexing the local dictionaries. */
  lemma {:induction false} MirrorIndexesAlike(blocks: seq<Projection>)
    ensures CloudMap(Mirror(blocks)).keys == ChainMap(blocks).keys
    ensures CloudMap(Mirror(blocks)).entries.Keys == ChainMap(blocks).entries.Keys
    ensures forall k :: k in ChainMap(blocks).entries ==>
      CloudMap(Mirror(blocks)).entries[k].fields == ChainMap(blocks).entries[k].fields
  {
    if |blocks| > 0 {
      var n := |blocks| - 1;
      var pre := blocks[..n];
      MirrorIndexesAlike(pre);
      assert Mirror(blocks)[..n] == Mirror(pre);
    }
  }

  lemma {:induction false} SameFieldsNoMismatch(id: int, p: Projection, row: CloudRow, fs: seq<Field>)
    requires row.fields == p.fields
    ensures FieldMismatches(id, p, row, fs) == []
  {
    if |fs| > 0 {
      SameFieldsNoMismatch(id, p, row, fs[1..]);
    }
  }

  lemma {:induction false} MatchedIdsNoLocalFindings(ids: seq<int>, local: map<int, Projection>, cloud: map<int, CloudRow>)
    requires forall k :: k in ids ==> k in local && k in cloud && cloud[k].fields == local[k].fields
    ensures LocalFindings(ids, local, cloud) == []
  {
    if |ids| > 0 {
      var k := ids[0];
      SameFieldsNoMismatch(k, local[k], cloud[k], ComparedFields);
      MatchedIdsNoLocalFindings(ids[1..], local, cloud);
    }
  }

  lemma {:induction false} LocalIdsNoExtraFindings(ids: seq<int>, local: map<int, Projection>)
    requires forall k :: k in ids ==> k in local
    ensures ExtraFindings(ids, local) == []
  {
    if |ids| > 0 {
      LocalIdsNoExtraFindings(ids[1..], local);
    }
  }

  /** Comparing the local dictionaries with a faithful mirror finds nothing. */
  lemma MirrorHasNoDifferences(blocks: seq<Projection>)
    ensures Differences(blocks, Mirror(blocks)) == []
  {
    var L := ChainMap(blocks);
    var C := CloudMap(Mirror(blocks));
    MirrorIndexesAlike(blocks);
    assert forall k :: k in L.keys ==> k in L.entries;
    MatchedIdsNoLocalFindings(L.keys, L.entries, C.entries);
    LocalIdsNoExtraFindings(C.keys, L.entries);
  }

  /** The handler reports a valid chain whose mirror dump equals its own
      dictionaries as untampered, with an empty difference list. */
  lemma FaithfulMirrorNotTampered(H: Hasher, chain: Chain, text: string)
    requires ChainValid(H, chain)
    ensures DetectCloudTampering(H, chain, FetchReply(200, text, Some(Mirror(ToListOfDicts(chain)))))
            == Report(false, [])
  {
    MirrorHasNoDifferences(ToListOfDicts(chain));
  }
}
