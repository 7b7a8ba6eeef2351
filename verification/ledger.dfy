/** The hash-chained ledger of blockchain.py: blocks sealed by a content hash
    at construction, and the append-only chain that links each block to the
    hash of its predecessor. */
module Ledger {

  /** The eight fields a block's hash covers: every field except the stored
      hash itself. */
  datatype Content = Content(
    blockId: int,
    patientId: string,
    clinicName: string,
    diagnosis: string,
    treatment: string,
    tanggal: string,
    doctor: string,
    prevHash: string)

  /** SHA-256 of the key-sorted JSON text of a block's content, as a hex
      string. The digest is not modelled: every operation takes it as a
      parameter, so each property holds for whatever digest is plugged in. */
  type Hasher = Content -> string

  /** The collision-freedom that tamper detection relies on. */
  ghost predicate Injective(H: Hasher) {
    forall a: Content, b: Content :: H(a) == H(b) ==> a == b
  }

  /** A block: eight content fields plus the hash stored when it was built. */
  datatype Block = Block(
    blockId: int,
    patientId: string,
    clinicName: string,
    diagnosis: string,
    treatment: string,
    tanggal: string,
    doctor: string,
    prevHash: string,
    currentHash: string)

  function ContentOf(b: Block): Content {
    Content(b.blockId, b.patientId, b.clinicName, b.diagnosis, b.treatment,
            b.tanggal, b.doctor, b.prevHash)
  }

  /** `Block.calculate_hash`: the digest recomputed from the block's content. */
  function CalculateHash(H: Hasher, b: Block): string {
    H(ContentOf(b))
  }

  /** The recomputed digest ignores the stored hash, and under a
      collision-free digest it changes whenever any of the eight content
      fields does. */
  lemma CalculateHashCoversContent(H: Hasher, a: Block, b: Block)
    ensures ContentOf(a) == ContentOf(b) ==> CalculateHash(H, a) == CalculateHash(H, b)
    ensures forall v :: CalculateHash(H, a.(currentHash := v)) == CalculateHash(H, a)
    ensures Injective(H) ==> (CalculateHash(H, a) == CalculateHash(H, b) <==> ContentOf(a) == ContentOf(b))
  {
  }

  /** The stored hash agrees with a fresh recomputation. */
  predicate Sealed(H: Hasher, b: Block) {
    b.currentHash == CalculateHash(H, b)
  }

  /** `Block.__init__`: the block carrying exactly the given content, sealed
      with the digest of that content. */
  function NewBlock(H: Hasher, c: Content): (b: Block)
    ensures ContentOf(b) == c
    ensures Sealed(H, b)
  {
    Block(c.blockId, c.patientId, c.clinicName, c.diagnosis, c.treatment,
          c.tanggal, c.doctor, c.prevHash, H(c))
  }

  /** The eight string fields of a block's dictionary form, in the order the
      cloud comparison walks them. */
  datatype Field =
    | PatientId | ClinicName | Diagnosis | Treatment
    | Tanggal | Doctor | PrevHash | CurrentHash

  /** The dictionary key of each field. */
  function FieldName(f: Field): string {
    match f
    case PatientId => "patient_id"
    case ClinicName => "clinic_name"
    case Diagnosis => "diagnosis"
    case Treatment => "treatment"
    case Tanggal => "tanggal"
    case Doctor => "doctor"
    case PrevHash => "prev_hash"
    case CurrentHash => "current_hash"
  }

  function FieldValue(b: Block, f: Field): string {
    match f
    case PatientId => b.patientId
    case ClinicName => b.clinicName
    case Diagnosis => b.diagnosis
    case Treatment => b.treatment
    case Tanggal => b.tanggal
    case Doctor => b.doctor
    case PrevHash => b.prevHash
    case CurrentHash => b.currentHash
  }

  /** The block with one field overwritten and everything else, the stored
      hash included, left as it was: an in-place edit of a stored record. */
  function WithField(b: Block, f: Field, v: string): (r: Block)
    ensures FieldValue(r, f) == v
    ensures forall g :: g != f ==> FieldValue(r, g) == FieldValue(b, g)
    ensures r.blockId == b.blockId
  {
    match f
    case PatientId => b.(patientId := v)
    case ClinicName => b.(clinicName := v)
    case Diagnosis => b.(diagnosis := v)
    case Treatment => b.(treatment := v)
    case Tanggal => b.(tanggal := v)
    case Doctor => b.(doctor := v)
    case PrevHash => b.(prevHash := v)
    case CurrentHash => b.(currentHash := v)
  }

  /** `Block.to_dict`: the integer `block_id` plus the eight string fields
      keyed by name. */
  datatype Projection = Projection(blockId: int, fields: map<string, string>)

  /** The keys of a block's dictionary, besides `block_id`. */
  const DictKeys: set<string> := {
    "patient_id", "clinic_name", "diagnosis", "treatment",
    "tanggal", "doctor", "prev_hash", "current_hash" }

  function ToDict(b: Block): (p: Projection)
    ensures p.blockId == b.blockId
    ensures forall f :: FieldName(f) in p.fields && p.fields[FieldName(f)] == FieldValue(b, f)
    ensures p.fields.Keys == DictKeys
  {
    Projection(b.blockId, map[
      "patient_id" := b.patientId,
      "clinic_name" := b.clinicName,
      "diagnosis" := b.diagnosis,
      "treatment" := b.treatment,
      "tanggal" := b.tanggal,
      "doctor" := b.doctor,
      "prev_hash" := b.prevHash,
      "current_hash" := b.currentHash])
  }

  /** The projection loses nothing: distinct blocks have distinct dictionaries. */
  lemma ToDictInjective(a: Block, b: Block)
    ensures ToDict(a) == ToDict(b) ==> a == b
  {
    if ToDict(a) == ToDict(b) {
      assert FieldValue(a, PatientId) == ToDict(b).fields[FieldName(PatientId)];
      assert FieldValue(a, ClinicName) == ToDict(b).fields[FieldName(ClinicName)];
      assert FieldValue(a, Diagnosis) == ToDict(b).fields[FieldName(Diagnosis)];
      assert FieldValue(a, Treatment) == ToDict(b).fields[FieldName(Treatment)];
      assert FieldValue(a, Tanggal) == ToDict(b).fields[FieldName(Tanggal)];
      assert FieldValue(a, Doctor) == ToDict(b).fields[FieldName(Doctor)];
      assert FieldValue(a, PrevHash) == ToDict(b).fields[FieldName(PrevHash)];
      assert FieldValue(a, CurrentHash) == ToDict(b).fields[FieldName(CurrentHash)];
    }
  }

  type Chain = seq<Block>

  const GenesisPatient: string := "GENESIS"
  const GenesisClinic: string := "GENESIS_CLINIC"
  const GenesisDiagnosis: string := "GENESIS_BLOCK"

  /** The synthetic first block; `now` is the formatted clock reading. */
  function GenesisBlock(H: Hasher, now: string): (g: Block)
    ensures Sealed(H, g)
    ensures g.blockId == 0 && g.prevHash == "0" && g.tanggal == now
    ensures g.patientId == GenesisPatient && g.clinicName == GenesisClinic
    ensures g.diagnosis == GenesisDiagnosis && g.treatment == "-" && g.doctor == "-"
  {
    NewBlock(H, Content(0, GenesisPatient, GenesisClinic, GenesisDiagnosis, "-", now, "-", "0"))
  }

  /** `Blockchain.create_genesis_block`: a no-op on a non-empty chain. */
  function CreateGenesisBlock(H: Hasher, chain: Chain, now: string): (r: Chain)
    ensures |chain| > 0 ==> r == chain
    ensures |chain| == 0 ==> r == [GenesisBlock(H, now)]
  {
    if |chain| > 0 then chain else chain + [GenesisBlock(H, now)]
  }

  /** Block ids are exactly the positions 0, 1, 2, ... */
  ghost predicate ContiguousIds(chain: Chain) {
    forall i :: 0 <= i < |chain| ==> chain[i].blockId == i
  }

  /** `Blockchain.__init__`: an empty chain with the genesis block added. */
  function NewBlockchain(H: Hasher, now: string): (r: Chain)
    ensures |r| == 1 && r[0] == GenesisBlock(H, now)
    ensures ContiguousIds(r)
  {
    CreateGenesisBlock(H, [], now)
  }

  /** `Blockchain.get_last_block`; Python's `chain[-1]` fails on an empty chain. */
  function GetLastBlock(chain: Chain): Block
    requires |chain| > 0
  {
    chain[|chain| - 1]
  }

  /** The six caller-supplied fields of `add_block`. */
  datatype Entry = Entry(
    patientId: string,
    clinicName: string,
    diagnosis: string,
    treatment: string,
    tanggal: string,
    doctor: string)

  function EntryOf(b: Block): Entry {
    Entry(b.patientId, b.clinicName, b.diagnosis, b.treatment, b.tanggal, b.doctor)
  }

  /** `Blockchain.add_block`: the new chain and the block appended to it. */
  function AddBlock(H: Hasher, chain: Chain, e: Entry): (r: (Chain, Block))
    requires |chain| > 0
    ensures |r.0| == |chain| + 1
    ensures r.0[..|chain|] == chain
    ensures r.0[|chain|] == r.1
    ensures r.1.blockId == chain[|chain| - 1].blockId + 1
    ensures r.1.prevHash == chain[|chain| - 1].currentHash
    ensures EntryOf(r.1) == e
    ensures Sealed(H, r.1)
  {
    var last := GetLastBlock(chain);
    var b := NewBlock(H, Content(last.blockId + 1, e.patientId, e.clinicName, e.diagnosis,
                                 e.treatment, e.tanggal, e.doctor, last.currentHash));
    (chain + [b], b)
  }

  /** `Blockchain.to_list_of_dicts`. */
  function ToListOfDicts(chain: Chain): (r: seq<Projection>)
    ensures |r| == |chain|
    ensures forall i :: 0 <= i < |chain| ==> r[i] == ToDict(chain[i])
  {
    seq(|chain|, i requires 0 <= i < |chain| => ToDict(chain[i]))
  }

  /** Outcome of `is_chain_valid`, naming the failing block's id. */
  datatype Verdict = Valid | PrevHashMismatch(blockId: int) | HashMismatch(blockId: int)

  /** The block at `i` records its predecessor's stored hash. */
  predicate LinkOk(chain: Chain, i: int)
    requires 1 <= i < |chain|
  {
    chain[i].prevHash == chain[i - 1].currentHash
  }

  /** Both checks `is_chain_valid` applies to the block at `i`. */
  predicate BlockOk(H: Hasher, chain: Chain, i: int)
    requires 1 <= i < |chain|
  {
    LinkOk(chain, i) && Sealed(H, chain[i])
  }

  /** Every block after the genesis block passes both checks. */
  ghost predicate ChainValid(H: Hasher, chain: Chain) {
    forall i :: 1 <= i < |chain| ==> BlockOk(H, chain, i)
  }

  /** `k` is the first index at or after `from` whose block fails a check. */
  ghost predicate FirstFailureFrom(H: Hasher, chain: Chain, from: int, k: int) {
    && 1 <= from <= k < |chain|
    && !BlockOk(H, chain, k)
    && forall j :: from <= j < k ==> BlockOk(H, chain, j)
  }

  /** The report for a failing block: the link is checked before the hash. */
  function FailureAt(chain: Chain, i: int): Verdict
    requires 1 <= i < |chain|
  {
    if !LinkOk(chain, i) then PrevHashMismatch(chain[i].blockId)
    else HashMismatch(chain[i].blockId)
  }

  /** The loop of `is_chain_valid` from index `i` on. */
  function VerifyFrom(H: Hasher, chain: Chain, i: int): (r: Verdict)
    requires 1 <= i
    decreases |chain| - i
    ensures r.Valid? <==> forall j :: i <= j < |chain| ==> BlockOk(H, chain, j)
    ensures forall k :: FirstFailureFrom(H, chain, i, k) ==> r == FailureAt(chain, k)
  {
    if i >= |chain| then Valid
    else if chain[i].prevHash != chain[i - 1].currentHash then
      assert !LinkOk(chain, i) && !BlockOk(H, chain, i);
      PrevHashMismatch(chain[i].blockId)
    else if chain[i].currentHash != CalculateHash(H, chain[i]) then
      assert !BlockOk(H, chain, i);
      HashMismatch(chain[i].blockId)
    else
      assert BlockOk(H, chain, i);
      VerifyFrom(H, chain, i + 1)
  }

  /** `Blockchain.is_chain_valid`: valid exactly when every non-genesis block
      passes both checks; otherwise the verdict describes the first block
      that fails, preferring a broken link over a bad hash. */
  function IsChainValid(H: Hasher, chain: Chain): (r: Verdict)
    ensures r.Valid? <==> ChainValid(H, chain)
    ensures forall k :: FirstFailureFrom(H, chain, 1, k) ==> r == FailureAt(chain, k)
  {
    if |chain| == 0 then Valid else VerifyFrom(H, chain, 1)
  }
}
