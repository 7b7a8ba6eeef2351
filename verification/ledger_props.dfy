/** Properties of the ledger: what construction and appending establish and
    keep, and which edits of a stored chain `is_chain_valid` catches. */
module LedgerProps {
  import opened Ledger

  /** The chain a process holds after `Blockchain()` followed by one
      `add_block` per entry, in order; `now` is the clock reading taken by
      the constructor. */
  function Build(H: Hasher, now: string, entries: seq<Entry>): (c: Chain)
    ensures |c| == |entries| + 1
    ensures c[0] == GenesisBlock(H, now)
  {
    if |entries| == 0 then NewBlockchain(H, now)
    else AddBlock(H, Build(H, now, entries[..|entries| - 1]), entries[|entries| - 1]).0
  }

  /** Everything construction and appending guarantee about a chain. */
  ghost predicate WellFormed(H: Hasher, chain: Chain) {
    && |chain| > 0
    && chain[0].prevHash == "0"
    && ContiguousIds(chain)
    && (forall i :: 0 <= i < |chain| ==> Sealed(H, chain[i]))
    && ChainValid(H, chain)
  }

  /** Appending to a valid chain yields a valid chain. */
  lemma AddBlockPreservesValid(H: Hasher, chain: Chain, e: Entry)
    requires |chain| > 0
    requires ChainValid(H, chain)
    ensures ChainValid(H, AddBlock(H, chain, e).0)
  {
    var c := AddBlock(H, chain, e).0;
    forall i | 1 <= i < |c|
      ensures BlockOk(H, c, i)
    {
      if i < |chain| {
        assert c[i] == chain[i] && c[i - 1] == chain[i - 1];
        assert BlockOk(H, chain, i);
      } else {
        assert c[i - 1] == GetLastBlock(chain);
      }
    }
  }

  /** Appending keeps block ids equal to positions. */
  lemma AddBlockPreservesIds(H: Hasher, chain: Chain, e: Entry)
    requires |chain| > 0
    requires ContiguousIds(chain)
    ensures ContiguousIds(AddBlock(H, chain, e).0)
  {
    var c := AddBlock(H, chain, e).0;
    forall i | 0 <= i < |c|
      ensures c[i].blockId == i
    {
      if i < |chain| {
        assert c[i] == chain[i];
      }
    }
  }

  /** Every chain reachable from the constructor by appends is well formed,
      so `is_chain_valid` reports it valid, and its i-th block after the
      genesis block carries the i-th entry. */
  lemma {:induction false} BuildWellFormed(H: Hasher, now: string, entries: seq<Entry>)
    ensures WellFormed(H, Build(H, now, entries))
    ensures IsChainValid(H, Build(H, now, entries)) == Valid
    ensures forall i :: 0 <= i < |entries| ==> EntryOf(Build(H, now, entries)[i + 1]) == entries[i]
  {
    var c := Build(H, now, entries);
    if |entries| > 0 {
      var pre := entries[..|entries| - 1];
      var p := Build(H, now, pre);
      BuildWellFormed(H, now, pre);
      AddBlockPreservesValid(H, p, entries[|entries| - 1]);
      AddBlockPreservesIds(H, p, entries[|entries| - 1]);
      assert c == AddBlock(H, p, entries[|entries| - 1]).0;
      forall i | 0 <= i < |c|
        ensures Sealed(H, c[i])
      {
        if i < |p| {
          assert c[i] == p[i];
        }
      }
      forall i | 0 <= i < |entries|
        ensures EntryOf(c[i + 1]) == entries[i]
      {
        if i < |pre| {
          assert c[i + 1] == p[i + 1];
          assert entries[i] == pre[i];
        }
      }
    }
  }

  /** Editing a stored block's content (anything but `prev_hash`, which the
      link check sees first) while keeping its stored hash is reported as a
      hash mismatch at that block, provided the digest has no collisions. */
  lemma TamperedContentDetected(H: Hasher, chain: Chain, i: int, b: Block)
    requires Injective(H)
    requires ChainValid(H, chain)
    requires 1 <= i < |chain|
    requires b.prevHash == chain[i].prevHash
    requires b.currentHash == chain[i].currentHash
    requires ContentOf(b) != ContentOf(chain[i])
    ensures IsChainValid(H, chain[i := b]) == HashMismatch(b.blockId)
  {
    var c := chain[i := b];
    assert BlockOk(H, chain, i);
    assert H(ContentOf(b)) != H(ContentOf(chain[i]));
    assert !Sealed(H, c[i]) && LinkOk(c, i);
    forall j | 1 <= j < i
      ensures BlockOk(H, c, j)
    {
      assert c[j] == chain[j] && c[j - 1] == chain[j - 1];
      assert BlockOk(H, chain, j);
    }
    assert FirstFailureFrom(H, c, 1, i);
  }

  /** The same for the edit of one named field. */
  lemma TamperedFieldDetected(H: Hasher, chain: Chain, i: int, f: Field, v: string)
    requires Injective(H)
    requires ChainValid(H, chain)
    requires 1 <= i < |chain|
    requires f != PrevHash && f != CurrentHash
    requires v != FieldValue(chain[i], f)
    ensures IsChainValid(H, chain[i := WithField(chain[i], f, v)]) == HashMismatch(chain[i].blockId)
  {
    var b := WithField(chain[i], f, v);
    assert FieldValue(b, PrevHash) == FieldValue(chain[i], PrevHash);
    assert FieldValue(b, CurrentHash) == FieldValue(chain[i], CurrentHash);
    assert ContentOf(b) != ContentOf(chain[i]) by {
      match f
      case PatientId =>
      case ClinicName =>
      case Diagnosis =>
      case Treatment =>
      case Tanggal =>
      case Doctor =>
    }
    TamperedContentDetected(H, chain, i, b);
  }

  /** Rewriting a block's `prev_hash` breaks its link, whatever the digest. */
  lemma PrevHashTamperDetected(H: Hasher, chain: Chain, i: int, v: string)
    requires ChainValid(H, chain)
    requires 1 <= i < |chain|
    requires v != chain[i].prevHash
    ensures IsChainValid(H, chain[i := chain[i].(prevHash := v)]) == PrevHashMismatch(chain[i].blockId)
  {
    var c := chain[i := chain[i].(prevHash := v)];
    assert BlockOk(H, chain, i);
    assert !LinkOk(c, i);
    forall j | 1 <= j < i
      ensures BlockOk(H, c, j)
    {
      assert c[j] == chain[j] && c[j - 1] == chain[j - 1];
      assert BlockOk(H, chain, j);
    }
    assert FirstFailureFrom(H, c, 1, i);
  }

  /** Overwriting a block's stored hash leaves its link intact but fails the
      recomputation, whatever the digest. */
  lemma StoredHashTamperDetected(H: Hasher, chain: Chain, i: int, v: string)
    requires ChainValid(H, chain)
    requires 1 <= i < |chain|
    requires v != chain[i].currentHash
    ensures IsChainValid(H, chain[i := chain[i].(currentHash := v)]) == HashMismatch(chain[i].blockId)
  {
    var c := chain[i := chain[i].(currentHash := v)];
    assert BlockOk(H, chain, i);
    assert LinkOk(c, i) && !Sealed(H, c[i]);
    forall j | 1 <= j < i
      ensures BlockOk(H, c, j)
    {
      assert c[j] == chain[j] && c[j - 1] == chain[j - 1];
      assert BlockOk(H, chain, j);
    }
    assert FirstFailureFrom(H, c, 1, i);
  }

  /** In a well-formed chain the stored hashes of blocks at different
      positions differ, given a collision-free digest. */
  lemma DistinctHashes(H: Hasher, chain: Chain, i: int, j: int)
    requires Injective(H)
    requires WellFormed(H, chain)
    requires 0 <= i < |chain| && 0 <= j < |chain| && i != j
    ensures chain[i].currentHash != chain[j].currentHash
  {
    assert Sealed(H, chain[i]) && Sealed(H, chain[j]);
    assert ContentOf(chain[i]).blockId == i && ContentOf(chain[j]).blockId == j;
  }

  /** Removing a block that is neither the genesis block nor the tail is
      reported as a broken link at the block that followed it. */
  lemma DeletionDetected(H: Hasher, chain: Chain, i: int)
    requires Injective(H)
    requires WellFormed(H, chain)
    requires 1 <= i < |chain| - 1
    ensures IsChainValid(H, chain[..i] + chain[i + 1..]) == PrevHashMismatch(i + 1)
  {
    var c := chain[..i] + chain[i + 1..];
    assert c[i] == chain[i + 1] && c[i - 1] == chain[i - 1];
    assert BlockOk(H, chain, i + 1);
    DistinctHashes(H, chain, i, i - 1);
    assert !LinkOk(c, i);
    forall j | 1 <= j < i
      ensures BlockOk(H, c, j)
    {
      assert c[j] == chain[j] && c[j - 1] == chain[j - 1];
      assert BlockOk(H, chain, j);
    }
    assert FirstFailureFrom(H, c, 1, i);
  }

  /** Exchanging two blocks after the genesis block is reported as a broken
      link at the earlier position, naming the block moved there. */
  lemma SwapDetected(H: Hasher, chain: Chain, i: int, j: int)
    requires Injective(H)
    requires WellFormed(H, chain)
    requires 1 <= i < j < |chain|
    ensures IsChainValid(H, chain[i := chain[j]][j := chain[i]]) == PrevHashMismatch(j)
  {
    var c := chain[i := chain[j]][j := chain[i]];
    assert c[i] == chain[j] && c[i - 1] == chain[i - 1];
    assert BlockOk(H, chain, j);
    DistinctHashes(H, chain, j - 1, i - 1);
    assert !LinkOk(c, i);
    forall k | 1 <= k < i
      ensures BlockOk(H, c, k)
    {
      assert c[k] == chain[k] && c[k - 1] == chain[k - 1];
      assert BlockOk(H, chain, k);
    }
    assert FirstFailureFrom(H, c, 1, i);
  }

  /** Inserting any block strictly inside a well-formed chain is caught,
      given a collision-free digest. To pass both its own checks and the next
      block's link check, the inserted block would have to store its
      predecessor's hash and hence carry its predecessor's content, whose
      `prev_hash` differs from that hash. Right after the genesis block this
      needs the genesis block's stored hash to differ from its `prev_hash`,
      "0". */
  lemma InsertionDetected(H: Hasher, chain: Chain, i: int, f: Block)
    requires Injective(H)
    requires WellFormed(H, chain)
    requires 1 <= i < |chain|
    requires i == 1 ==> chain[0].currentHash != "0"
    ensures IsChainValid(H, chain[..i] + [f] + chain[i..]) != Valid
  {
    var c := chain[..i] + [f] + chain[i..];
    assert c[i - 1] == chain[i - 1] && c[i] == f && c[i + 1] == chain[i];
    assert BlockOk(H, chain, i);
    if i >= 2 {
      assert BlockOk(H, chain, i - 1);
      DistinctHashes(H, chain, i - 1, i - 2);
    }
    assert chain[i - 1].prevHash != chain[i - 1].currentHash;
    assert Sealed(H, chain[i - 1]);
    if Sealed(H, f) && f.currentHash == chain[i - 1].currentHash {
      assert ContentOf(f) == ContentOf(chain[i - 1]);
      assert !LinkOk(c, i);
    }
    assert !BlockOk(H, c, i) || !BlockOk(H, c, i + 1);
  }

  /** A block put in front of a well-formed chain goes unnoticed whenever its
      stored hash is "0", the old genesis block's `prev_hash`, whatever else it
      holds, since the block at index 0 is never checked. */
  lemma HeadInsertionUndetected(H: Hasher, chain: Chain, f: Block)
    requires WellFormed(H, chain)
    requires f.currentHash == "0"
    ensures IsChainValid(H, [f] + chain) == Valid
  {
    var c := [f] + chain;
    forall j | 1 <= j < |c|
      ensures BlockOk(H, c, j)
    {
      assert c[j] == chain[j - 1] && c[j - 1] == (if j == 1 then f else chain[j - 2]);
      assert Sealed(H, chain[j - 1]);
      if j >= 2 {
        assert BlockOk(H, chain, j - 1);
      }
    }
  }

  /** A sealed block linked to the tail goes unnoticed whatever its
      `block_id`, since ids are never checked. */
  lemma TailForgeryUndetected(H: Hasher, chain: Chain, f: Block)
    requires ChainValid(H, chain)
    requires |chain| > 0
    requires Sealed(H, f) && f.prevHash == chain[|chain| - 1].currentHash
    ensures IsChainValid(H, chain + [f]) == Valid
  {
    var c := chain + [f];
    forall j | 1 <= j < |c|
      ensures BlockOk(H, c, j)
    {
      assert c[j - 1] == chain[j - 1];
      if j < |chain| {
        assert c[j] == chain[j];
        assert BlockOk(H, chain, j);
      }
    }
  }

  /** Dropping blocks from the tail goes unnoticed: every prefix of a valid
      chain is valid. */
  lemma TruncationUndetected(H: Hasher, chain: Chain, n: int)
    requires ChainValid(H, chain)
    requires 0 <= n <= |chain|
    ensures IsChainValid(H, chain[..n]) == Valid
  {
    var c := chain[..n];
    forall k | 1 <= k < |c|
      ensures BlockOk(H, c, k)
    {
      assert c[k] == chain[k] && c[k - 1] == chain[k - 1];
      assert BlockOk(H, chain, k);
    }
  }

  /** Dropping blocks from the head goes unnoticed as well, the genesis block
      included: neither block ids nor the block at index 0 are checked, so
      every suffix of a valid chain is valid. */
  lemma HeadDeletionUndetected(H: Hasher, chain: Chain, k: int)
    requires ChainValid(H, chain)
    requires 0 <= k <= |chain|
    ensures IsChainValid(H, chain[k..]) == Valid
  {
    var c := chain[k..];
    forall j | 1 <= j < |c|
      ensures BlockOk(H, c, j)
    {
      assert c[j] == chain[k + j] && c[j - 1] == chain[k + j - 1];
      assert BlockOk(H, chain, k + j);
    }
  }

  /** The genesis block's content is never checked: replacing it with any
      block that stores the same hash leaves the verdict unchanged. */
  lemma GenesisContentUnchecked(H: Hasher, chain: Chain, g: Block)
    requires |chain| > 0
    requires g.currentHash == chain[0].currentHash
    ensures IsChainValid(H, chain[0 := g]) == IsChainValid(H, chain)
  {
    var c := chain[0 := g];
    forall k | 1 <= k < |c|
      ensures BlockOk(H, c, k) == BlockOk(H, chain, k)
    {
      assert c[k] == chain[k];
    }
    if !ChainValid(H, chain) {
      var k := FirstFailureIndex(H, chain);
      assert FirstFailureFrom(H, c, 1, k);
    }
  }

  /** A chain that is not valid has a first failing block. */
  lemma FirstFailureIndex(H: Hasher, chain: Chain) returns (k: int)
    requires !ChainValid(H, chain)
    ensures FirstFailureFrom(H, chain, 1, k)
  {
    k := 1;
    while BlockOk(H, chain, k)
      invariant 1 <= k < |chain|
      invariant forall j :: 1 <= j < k ==> BlockOk(H, chain, j)
      decreases |chain| - k
    {
      k := k + 1;
    }
  }
}
