/**
 The chain graph that the daemon keeps in its chained-block cache: block
 headers, the chained blocks built from them, and the parent-link invariant
 that every chaining step preserves. Everything here is a value; the daemon
 class in blockchain_daemon.dfy holds these maps as fields.
 */
module ChainIndex {

  /** A block hash (a 256-bit integer in the system); only equality is used. */
  type Hash(==)

  datatype Option<T> = None | Some(value: T)

  /** A block header: its own hash and the hash of the block it extends. The
      proof-of-work fields enter only through the `work` function that the
      predicates below take as a parameter. */
  datatype BlockHeader = BlockHeader(hash: Hash, previous: Hash)

  datatype Transaction = Transaction(hash: Hash)

  datatype Block = Block(header: BlockHeader, transactions: seq<Transaction>)

  /** The key of a stored transaction: the block it sits in, its position, its hash. */
  datatype TxKey = TxKey(blockHash: Hash, txIndex: nat, txHash: Hash)

  /** A header's place in the chain graph. */
  datatype ChainedBlock = ChainedBlock(hash: Hash, previous: Hash, height: nat, totalWork: nat)

  /** The chained block made for `header` once its parent is chained. */
  function ChainOnto(parent: ChainedBlock, header: BlockHeader, w: nat): (c: ChainedBlock)
    ensures c.hash == header.hash && c.previous == header.previous
    ensures c.height == parent.height + 1 > 0
    ensures c.totalWork >= parent.totalWork && c.totalWork - parent.totalWork == w
  {
    ChainedBlock(header.hash, header.previous, parent.height + 1, parent.totalWork + w)
  }

  ghost predicate Keyed(chained: map<Hash, ChainedBlock>)
  {
    forall k :: k in chained ==> chained[k].hash == k
  }

  ghost predicate HeadersKeyed(headers: map<Hash, BlockHeader>)
  {
    forall k :: k in headers ==> headers[k].hash == k
  }

  /** Entry `k` is genesis, or it hangs off a chained parent: its previous
      hash is the one in its stored header, its height is one more than the
      parent's and its total work is the parent's plus its header's work. */
  ghost predicate LinkedAt(chained: map<Hash, ChainedBlock>, headers: map<Hash, BlockHeader>,
                           work: BlockHeader -> nat, genesis: ChainedBlock, k: Hash)
    requires k in chained
  {
    var c := chained[k];
    k == genesis.hash ||
    (&& c.previous in chained
     && k in headers
     && headers[k].previous == c.previous
     && c.height == chained[c.previous].height + 1
     && c.totalWork == chained[c.previous].totalWork + work(headers[k]))
  }

  /** The invariant of the chained-block map. */
  ghost predicate Consistent(chained: map<Hash, ChainedBlock>, headers: map<Hash, BlockHeader>,
                             work: BlockHeader -> nat, genesis: ChainedBlock)
  {
    && genesis.hash in chained
    && chained[genesis.hash] == genesis
    && genesis.height == 0
    && Keyed(chained)
    && HeadersKeyed(headers)
    && forall k {:trigger LinkedAt(chained, headers, work, genesis, k)} :: k in chained ==> LinkedAt(chained, headers, work, genesis, k)
  }

  /** Chaining one header whose parent is chained and whose hash is not yet
      chained keeps the map consistent. */
  lemma ChainOntoKeepsConsistent(chained: map<Hash, ChainedBlock>, headers: map<Hash, BlockHeader>,
                                 work: BlockHeader -> nat, genesis: ChainedBlock,
                                 parent: ChainedBlock, header: BlockHeader)
    requires Consistent(chained, headers, work, genesis)
    requires parent.hash in chained && chained[parent.hash] == parent
    requires header.hash in headers && headers[header.hash] == header
    requires header.previous == parent.hash && header.hash !in chained
    ensures Consistent(chained[header.hash := ChainOnto(parent, header, work(header))], headers, work, genesis)
  {
    var grown := chained[header.hash := ChainOnto(parent, header, work(header))];
    forall k | k in grown
      ensures LinkedAt(grown, headers, work, genesis, k)
    {
      if k != header.hash {
        assert LinkedAt(chained, headers, work, genesis, k);
      }
    }
  }

  /** Genesis is the only chained block of height 0. */
  lemma GenesisIsOnlyHeightZero(chained: map<Hash, ChainedBlock>, headers: map<Hash, BlockHeader>,
                                work: BlockHeader -> nat, genesis: ChainedBlock, k: Hash)
    requires Consistent(chained, headers, work, genesis) && k in chained
    ensures chained[k].height == 0 <==> k == genesis.hash
  {
    assert LinkedAt(chained, headers, work, genesis, k);
  }

  /** The hashes from genesis to `k`, following previous links backwards. It
      always reaches genesis, visits each height once and so has no cycle. */
  function PathToGenesis(chained: map<Hash, ChainedBlock>, headers: map<Hash, BlockHeader>,
                         work: BlockHeader -> nat, genesis: ChainedBlock, k: Hash): (p: seq<Hash>)
    requires Consistent(chained, headers, work, genesis) && k in chained
    ensures |p| == chained[k].height + 1
    ensures p[0] == genesis.hash && p[|p| - 1] == k
    ensures forall i :: 0 <= i < |p| ==> p[i] in chained && chained[p[i]].height == i
    ensures forall i :: 1 <= i < |p| ==> p[i] in headers && chained[p[i]].previous == p[i - 1]
    ensures forall i, j :: 0 <= i < j < |p| ==> p[i] != p[j]
    decreases chained[k].height
  {
    assert LinkedAt(chained, headers, work, genesis, k);
    if k == genesis.hash then [k]
    else PathToGenesis(chained, headers, work, genesis, chained[k].previous) + [k]
  }

  /** The work of the headers of `path`, added up. */
  function SumWork(headers: map<Hash, BlockHeader>, work: BlockHeader -> nat, path: seq<Hash>): nat
    requires forall i :: 0 <= i < |path| ==> path[i] in headers
  {
    if path == [] then 0
    else SumWork(headers, work, path[..|path| - 1]) + work(headers[path[|path| - 1]])
  }

  /** A chained block's total work is genesis's plus the work of every header
      on its path from genesis: the cumulative work. */
  lemma {:induction false} TotalWorkIsSumAlongPath(chained: map<Hash, ChainedBlock>, headers: map<Hash, BlockHeader>,
                                                  work: BlockHeader -> nat, genesis: ChainedBlock, k: Hash)
    requires Consistent(chained, headers, work, genesis) && k in chained
    ensures var p := PathToGenesis(chained, headers, work, genesis, k);
            chained[k].totalWork == genesis.totalWork + SumWork(headers, work, p[1..])
    decreases chained[k].height
  {
    assert LinkedAt(chained, headers, work, genesis, k);
    if k != genesis.hash {
      var prev := chained[k].previous;
      TotalWorkIsSumAlongPath(chained, headers, work, genesis, prev);
      var q := PathToGenesis(chained, headers, work, genesis, prev);
      var p := PathToGenesis(chained, headers, work, genesis, k);
      assert p == q + [k];
      assert p[1..] == q[1..] + [k];
      assert p[1..][..|p[1..]| - 1] == q[1..];
    }
  }

  /** Two consistent maps over the same headers agree on every hash they both
      hold: height and total work do not depend on the order in which headers
      were chained. */
  lemma {:induction false} ChainedValueIndependentOfOrder(c1: map<Hash, ChainedBlock>, c2: map<Hash, ChainedBlock>,
                                                         headers: map<Hash, BlockHeader>, work: BlockHeader -> nat,
                                                         genesis: ChainedBlock, k: Hash)
    requires Consistent(c1, headers, work, genesis) && Consistent(c2, headers, work, genesis)
    requires k in c1 && k in c2
    ensures c1[k] == c2[k]
    decreases c1[k].height
  {
    assert LinkedAt(c1, headers, work, genesis, k);
    assert LinkedAt(c2, headers, work, genesis, k);
    if k != genesis.hash {
      ChainedValueIndependentOfOrder(c1, c2, headers, work, genesis, headers[k].previous);
    }
  }

  /** Growing a map adds exactly the difference of the key counts. */
  lemma NewKeysCount<K, V>(start: map<K, V>, m: map<K, V>)
    requires forall k :: k in start ==> k in m
    ensures |m.Keys - start.Keys| == |m.Keys| - |start.Keys|
    ensures |m.Keys| > |start.Keys| <==> exists k :: k in m && k !in start
  {
    assert m.Keys == start.Keys + (m.Keys - start.Keys);
    if |m.Keys| > |start.Keys| {
      var k :| k in m.Keys - start.Keys;
    }
  }

  lemma SubsetCardinality<T>(a: set<T>, b: set<T>)
    requires a <= b
    ensures |a| <= |b|
  {
    assert b == a + (b - a);
  }
}
