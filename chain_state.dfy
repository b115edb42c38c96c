/**
 Committed chain states and the choice among stored snapshots at startup.
 */
module ChainState {
  import opened ChainIndex

  /** A committed chain state, identified by its root (the last block applied).
      The derived state (the unspent-output set) is not modelled. */
  datatype Blockchain = Blockchain(rootBlock: ChainedBlock)
  {
    function RootHash(): Hash { rootBlock.hash }
    function Height(): nat { rootBlock.height }
    function TotalWork(): nat { rootBlock.totalWork }
  }

  /** The storage key of a written chain state. */
  datatype BlockchainKey = BlockchainKey(id: nat, rootBlockHash: Hash)

  /** One entry of the snapshot listing: its key and the total work of its root. */
  datatype SnapshotEntry = SnapshotEntry(key: BlockchainKey, totalWork: nat)

  /** The startup choice: the first listed snapshot whose total work is
      maximal. A later entry replaces the current choice only when its work
      is strictly greater, so ties keep the earliest. */
  method SelectStartupSnapshot(listing: seq<SnapshotEntry>) returns (winner: Option<SnapshotEntry>)
    ensures winner.None? <==> listing == []
    ensures winner.Some? ==> forall j :: 0 <= j < |listing| ==> listing[j].totalWork <= winner.value.totalWork
    ensures winner.Some? ==>
              exists i :: 0 <= i < |listing| && listing[i] == winner.value &&
                          forall j :: 0 <= j < i ==> listing[j].totalWork < winner.value.totalWork
  {
    winner := None;
    ghost var at := 0;
    for n := 0 to |listing|
      invariant winner.None? <==> n == 0
      invariant winner.Some? ==> at < n && listing[at] == winner.value
      invariant winner.Some? ==> forall j :: 0 <= j < at ==> listing[j].totalWork < winner.value.totalWork
      invariant winner.Some? ==> forall j :: 0 <= j < n ==> listing[j].totalWork <= winner.value.totalWork
    {
      var entry := listing[n];
      if winner.None? {
        winner, at := Some(entry), n;
      }
      if entry.totalWork > winner.value.totalWork {
        winner, at := Some(entry), n;
      }
    }
  }

  /** What the checkpoint writer hands to storage: the state to write and the
      total work below which older snapshots are removed. */
  datatype WriteRequest = WriteRequest(state: Blockchain, removeBelow: nat)
}
