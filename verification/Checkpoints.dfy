/** Verification of an audit trail, and the checkpoints at which old entries may be pruned. */
module Checkpoints {
  import opened Results
  import opened AuditTrails

  datatype AuditEntry = AuditEntry(input: EntryInput, entryHash: string, previousHash: string, domainTag: string)

  datatype AuditTrail = AuditTrail(
    entries: seq<AuditEntry>, genesisHash: string, integrityStatus: string,
    checkpointHash: Option<string>, checkpointIndex: Option<nat>)

  datatype Phase = Content | Chain

  datatype Verification = Valid | Invalid(phase: Phase, index: nat, expected: string, actual: string)

  // ----- Verification -----

  predicate ContentOk(sha: Sha, entry: AuditEntry) {
    ContentHash(sha, entry.input, entry.domainTag) == entry.entryHash
  }

  /** The hash that the entry at index `i` must name as its predecessor. */
  function Before(entries: seq<AuditEntry>, genesis: string, i: nat): string
    requires i < |entries|
  {
    if i == 0 then genesis else entries[i - 1].entryHash
  }

  predicate EntryOk(sha: Sha, entries: seq<AuditEntry>, genesis: string, i: nat)
    requires i < |entries|
  {
    ContentOk(sha, entries[i]) && entries[i].previousHash == Before(entries, genesis, i)
  }

  /** Every entry hashes to its hash and names its predecessor. */
  predicate Holds(sha: Sha, entries: seq<AuditEntry>, genesis: string) {
    forall i :: 0 <= i < |entries| ==> EntryOk(sha, entries, genesis, i)
  }

  /** The result for the entries from index `i` on: the first failure, the content of an entry before its link. */
  function VerifyFrom(sha: Sha, entries: seq<AuditEntry>, genesis: string, i: nat): Verification
    requires i <= |entries|
    decreases |entries| - i
  {
    if i == |entries| then Valid
    else if !ContentOk(sha, entries[i]) then
      Invalid(Content, i, entries[i].entryHash, ContentHash(sha, entries[i].input, entries[i].domainTag))
    else if entries[i].previousHash != Before(entries, genesis, i) then
      Invalid(Chain, i, Before(entries, genesis, i), entries[i].previousHash)
    else VerifyFrom(sha, entries, genesis, i + 1)
  }

  function Verify(sha: Sha, trail: AuditTrail): Verification {
    VerifyFrom(sha, trail.entries, trail.genesisHash, 0)
  }

  method VerifyAuditTrailIntegrity(sha: Sha, trail: AuditTrail) returns (r: Verification)
    ensures r == Verify(sha, trail)
    ensures r.Valid? <==> Holds(sha, trail.entries, trail.genesisHash)
    ensures r.Invalid? ==>
              && r.index < |trail.entries| && !EntryOk(sha, trail.entries, trail.genesisHash, r.index)
              && (r.phase.Content? <==> !ContentOk(sha, trail.entries[r.index]))
              && (r.phase.Content? ==>
                    && r.expected == trail.entries[r.index].entryHash && r.expected != r.actual
                    && r.actual == ContentHash(sha, trail.entries[r.index].input, trail.entries[r.index].domainTag))
              && (r.phase.Chain? ==>
                    && r.actual == trail.entries[r.index].previousHash && r.expected != r.actual
                    && r.expected == if r.index == 0 then trail.genesisHash else trail.entries[r.index - 1].entryHash)
              && forall j :: 0 <= j < r.index ==> EntryOk(sha, trail.entries, trail.genesisHash, j)
  {
    hide ContentHash;
    var entries := trail.entries;
    for i := 0 to |entries|
      invariant VerifyFrom(sha, entries, trail.genesisHash, i) == Verify(sha, trail)
      invariant forall j :: 0 <= j < i ==> EntryOk(sha, entries, trail.genesisHash, j)
    {
      var recomputed := ContentHash(sha, entries[i].input, entries[i].domainTag);
      if recomputed != entries[i].entryHash {
        assert !EntryOk(sha, entries, trail.genesisHash, i);
        return Invalid(Content, i, entries[i].entryHash, recomputed);
      }
      var expected := if i == 0 then trail.genesisHash else entries[i - 1].entryHash;
      if entries[i].previousHash != expected {
        assert !EntryOk(sha, entries, trail.genesisHash, i);
        return Invalid(Chain, i, expected, entries[i].previousHash);
      }
    }
    return Valid;
  }

  lemma {:induction false} VerifyFromHolds(sha: Sha, entries: seq<AuditEntry>, genesis: string, i: nat)
    requires i <= |entries|
    ensures VerifyFrom(sha, entries, genesis, i).Valid?
       <==> forall j :: i <= j < |entries| ==> EntryOk(sha, entries, genesis, j)
    decreases |entries| - i
  {
    hide ContentHash;
    if i < |entries| {
      VerifyFromHolds(sha, entries, genesis, i + 1);
      assert EntryOk(sha, entries, genesis, i) <==>
             ContentOk(sha, entries[i]) && entries[i].previousHash == Before(entries, genesis, i);
    }
  }

  lemma VerifyHolds(sha: Sha, trail: AuditTrail)
    ensures Verify(sha, trail).Valid? <==> Holds(sha, trail.entries, trail.genesisHash)
  {
    VerifyFromHolds(sha, trail.entries, trail.genesisHash, 0);
  }

  // ----- Checkpoints -----

  datatype CheckpointError = EmptyTrail | OutOfRange(index: int)

  /** Without an index the last entry is checkpointed. */
  function CreateCheckpoint(trail: AuditTrail, index: Option<int>): Result<AuditTrail, CheckpointError> {
    if trail.entries == [] then Failure(EmptyTrail)
    else
      var target := if index.Some? then index.value else |trail.entries| - 1;
      if target < 0 || target >= |trail.entries| then Failure(OutOfRange(target))
      else Success(trail.(checkpointHash := Some(trail.entries[target].entryHash), checkpointIndex := Some(target)))
  }

  /** The entries behind index `i`, none if there are not that many. */
  function Behind(entries: seq<AuditEntry>, i: nat): seq<AuditEntry> {
    if i + 1 <= |entries| then entries[i + 1..] else []
  }

  function VerifyCheckpointContinuity(sha: Sha, trail: AuditTrail): Verification {
    if trail.checkpointHash.None? || trail.checkpointIndex.None? then Valid
    else
      var i, hash := trail.checkpointIndex.value, trail.checkpointHash.value;
      var post := Behind(trail.entries, i);
      if post == [] then Valid
      else if post[0].previousHash != hash then Invalid(Chain, i + 1, hash, post[0].previousHash)
      else Verify(sha, trail.(entries := post, genesisHash := hash))
  }

  function PruneBeforeCheckpoint(trail: AuditTrail): AuditTrail {
    if trail.checkpointHash.None? || trail.checkpointIndex.None? then trail
    else
      trail.(
        entries := Behind(trail.entries, trail.checkpointIndex.value),
        genesisHash := trail.checkpointHash.value,
        checkpointHash := None,
        checkpointIndex := None)
  }

  /** Checkpoint at `i`, then prune. */
  function CheckpointAndPrune(trail: AuditTrail, i: int): Result<AuditTrail, CheckpointError> {
    var marked :- CreateCheckpoint(trail, Some(i));
    Success(PruneBeforeCheckpoint(marked))
  }

  /** A checkpoint is created exactly for the index of an entry. */
  lemma CheckpointExists(trail: AuditTrail, index: Option<int>)
    ensures CreateCheckpoint(trail, index).Success? <==>
              trail.entries != [] && (index.Some? ==> 0 <= index.value < |trail.entries|)
    ensures CreateCheckpoint(trail, index).Success? ==>
              CreateCheckpoint(trail, index).value.(checkpointHash := None, checkpointIndex := None)
              == trail.(checkpointHash := None, checkpointIndex := None)
  {
  }

  /** A checkpoint records the index and the hash of its entry, which is the last one if none is given; pruning there
      keeps the entries behind it and starts from that hash. */
  lemma CheckpointRecords(trail: AuditTrail, index: Option<int>)
    requires trail.entries != [] && (index.Some? ==> 0 <= index.value < |trail.entries|)
    ensures var i := if index == None then |trail.entries| - 1 else index.value;
            var marked := CreateCheckpoint(trail, index);
            && marked == Success(AuditTrail(trail.entries, trail.genesisHash, trail.integrityStatus,
                                            Some(trail.entries[i].entryHash), Some(i)))
            && PruneBeforeCheckpoint(marked.value) == AuditTrail(
                 trail.entries[i + 1..], trail.entries[i].entryHash, trail.integrityStatus, None, None)
            && (index == None ==> PruneBeforeCheckpoint(marked.value).entries == [])
  {
  }

  /** Where no checkpoint is set, or only half of one, there is nothing to continue from and nothing to prune. */
  lemma WithoutCheckpoint(sha: Sha, trail: AuditTrail)
    requires trail.checkpointHash == None || trail.checkpointIndex == None
    ensures VerifyCheckpointContinuity(sha, trail) == Valid && PruneBeforeCheckpoint(trail) == trail
  {
  }

  /** Without entries, or with an index that none of them has, there is no checkpoint. */
  lemma NoCheckpoint(trail: AuditTrail, i: int)
    ensures trail.entries == [] ==>
              CreateCheckpoint(trail, Some(i)) == CreateCheckpoint(trail, None) == Failure(EmptyTrail)
    ensures trail.entries != [] && (i < 0 || i >= |trail.entries|) ==>
              CreateCheckpoint(trail, Some(i)) == Failure(OutOfRange(i))
  {
  }

  /** A trail verifies exactly when the part up to a checkpoint and the pruned trail both do: nothing is lost by
      archiving the one and keeping the other. */
  lemma CheckpointSplitsVerification(sha: Sha, trail: AuditTrail, i: nat)
    requires i < |trail.entries|
    ensures CheckpointAndPrune(trail, i).Success?
    ensures Verify(sha, trail).Valid? <==>
              && Verify(sha, trail.(entries := trail.entries[..i + 1])).Valid?
              && Verify(sha, CheckpointAndPrune(trail, i).value).Valid?
  {
    hide ContentOk;
    var archived := trail.(entries := trail.entries[..i + 1]);
    var kept := CheckpointAndPrune(trail, i).value;
    VerifyHolds(sha, trail);
    VerifyHolds(sha, archived);
    VerifyHolds(sha, kept);
    forall j | 0 <= j < |trail.entries|
      ensures EntryOk(sha, trail.entries, trail.genesisHash, j) ==
              if j <= i then EntryOk(sha, archived.entries, archived.genesisHash, j)
              else EntryOk(sha, kept.entries, kept.genesisHash, j - (i + 1))
    {
    }
    if Holds(sha, archived.entries, archived.genesisHash) && Holds(sha, kept.entries, kept.genesisHash) {
      forall j | 0 <= j < |trail.entries| ensures EntryOk(sha, trail.entries, trail.genesisHash, j) {
        if j <= i {
          assert EntryOk(sha, archived.entries, archived.genesisHash, j);
        } else {
          assert EntryOk(sha, kept.entries, kept.genesisHash, j - (i + 1));
        }
      }
    }
    if Holds(sha, trail.entries, trail.genesisHash) {
      forall j | 0 <= j < |kept.entries| ensures EntryOk(sha, kept.entries, kept.genesisHash, j) {
        assert EntryOk(sha, trail.entries, trail.genesisHash, j + i + 1);
      }
    }
  }

  /** Where a checkpoint is set, continuity agrees with the verification of the pruned trail on whether all is well. The
      two report the same exactly if nothing is left behind the checkpoint or its first entry links to the checkpoint;
      otherwise continuity reports that link, at its index in the full trail, before it looks at any content. */
  lemma ContinuityIsPrunedVerification(sha: Sha, trail: AuditTrail)
    requires trail.checkpointHash.Some? && trail.checkpointIndex.Some?
    ensures var continuity, pruned := VerifyCheckpointContinuity(sha, trail), Verify(sha, PruneBeforeCheckpoint(trail));
            var i, hash := trail.checkpointIndex.value, trail.checkpointHash.value;
            var post := Behind(trail.entries, i);
            && (continuity.Valid? <==> pruned.Valid?)
            && (continuity == pruned <==> post == [] || post[0].previousHash == hash)
            && (continuity != pruned ==> continuity == Invalid(Chain, i + 1, hash, post[0].previousHash))
  {
    hide ContentOk;
  }

  /** Whatever entry a verified trail is checkpointed at, it verifies with the checkpoint, passes the continuity check,
      and still verifies when it has been pruned. */
  lemma VerifiedTrailCheckpoints(sha: Sha, trail: AuditTrail, index: Option<int>)
    requires Verify(sha, trail).Valid? && CreateCheckpoint(trail, index).Success?
    ensures var marked := CreateCheckpoint(trail, index).value;
            && Verify(sha, marked).Valid?
            && VerifyCheckpointContinuity(sha, marked).Valid?
            && Verify(sha, PruneBeforeCheckpoint(marked)).Valid?
  {
    hide Verify, VerifyCheckpointContinuity;
    var marked := CreateCheckpoint(trail, index).value;
    CheckpointSplitsVerification(sha, trail, marked.checkpointIndex.value);
    assert CheckpointAndPrune(trail, marked.checkpointIndex.value) == Success(PruneBeforeCheckpoint(marked));
    ContinuityIsPrunedVerification(sha, marked);
    VerifyHolds(sha, trail);
    VerifyHolds(sha, marked);
  }

  /** Pruning twice is pruning once, further on. */
  lemma PruneTwice(trail: AuditTrail, i: nat, j: nat)
    requires i + 1 + j < |trail.entries|
    ensures CheckpointAndPrune(trail, i).Success?
    ensures CheckpointAndPrune(CheckpointAndPrune(trail, i).value, j) == CheckpointAndPrune(trail, i + 1 + j)
  {
    assert trail.entries[i + 1..][j + 1..] == trail.entries[i + 1 + j + 1..];
  }

  /** An entry's own hash says nothing about what came before it: any entry can be put, with the same entry hash,
      behind any verified trail. */
  lemma EntryHashDoesNotBindHistory(sha: Sha, trail: AuditTrail, input: EntryInput, tag: string)
    requires Verify(sha, trail).Valid?
    ensures var n := |trail.entries|;
            var previous := if n == 0 then trail.genesisHash else trail.entries[n - 1].entryHash;
            var entry := AuditEntry(input, ContentHash(sha, input, tag), previous, tag);
            Verify(sha, trail.(entries := trail.entries + [entry])).Valid?
  {
    hide ContentHash;
    var n := |trail.entries|;
    var previous := if n == 0 then trail.genesisHash else trail.entries[n - 1].entryHash;
    var entry := AuditEntry(input, ContentHash(sha, input, tag), previous, tag);
    var longer := trail.(entries := trail.entries + [entry]);
    VerifyHolds(sha, trail);
    VerifyHolds(sha, longer);
    forall j | 0 <= j < |longer.entries| ensures EntryOk(sha, longer.entries, longer.genesisHash, j) {
      if j < n {
        assert EntryOk(sha, trail.entries, trail.genesisHash, j);
      }
    }
  }
}
