/**
 The blockchain daemon's sequential bookkeeping: the chaining pass over
 unchained headers, the missing-data sets kept in step with lookups and cache
 events, and the winning-block and current-state pointers. Each worker body
 is an ordinary method; what a worker gets from code outside this class (the
 chain calculator, the rules' winner selection, the chain lookup, the
 revalidation, storage) arrives as a parameter describing its outcome.
 */
module Daemon {
  import opened ChainIndex
  import opened ChainState

  /** The kind of data a missing-data fault names. */
  datatype DataType = BlockData | BlockHeaderData | ChainedBlockData | TransactionData

  /** A missing-data fault: the kind and the key that was not found. */
  datatype MissingData = MissingData(dataType: DataType, key: Hash)

  const BlockKinds: set<DataType> := {BlockData, BlockHeaderData}
  const ChainedKinds: set<DataType> := {ChainedBlockData}
  const TransactionKinds: set<DataType> := {TransactionData}

  /** The keys of the faults whose kind is one of `kinds`. */
  function FaultKeys(faults: seq<MissingData>, kinds: set<DataType>): set<Hash>
  {
    if faults == [] then {}
    else FaultKeys(faults[..|faults| - 1], kinds) +
         (if faults[|faults| - 1].dataType in kinds then {faults[|faults| - 1].key} else {})
  }

  /** A key is among the fault keys for `kinds` exactly when some fault of
      one of those kinds names it. */
  lemma {:induction false} FaultKeysMembership(faults: seq<MissingData>, kinds: set<DataType>, k: Hash)
    ensures k in FaultKeys(faults, kinds) <==>
            exists i :: 0 <= i < |faults| && faults[i].key == k && faults[i].dataType in kinds
  {
    if faults != [] {
      var init := faults[..|faults| - 1];
      FaultKeysMembership(init, kinds, k);
      if k in FaultKeys(init, kinds) {
        var i :| 0 <= i < |init| && init[i].key == k && init[i].dataType in kinds;
        assert faults[i] == init[i];
      }
      forall i | 0 <= i < |faults| - 1
        ensures faults[i] == init[i]
      {
      }
    }
  }

  /** What the rules' winner selection over the leaf chained blocks gave:
      a block (None for the default value), or missing-data faults. */
  datatype Selection = Selected(choice: Option<ChainedBlock>) | SelectionFailed(missing: seq<MissingData>)

  /** What the chain lookup from genesis to the winning block gave. */
  datatype ChainLookup = Found(chain: seq<ChainedBlock>) | NotFound | LookupFailed

  /** How the chain calculator's advancement ended after its progress steps. */
  datatype AdvanceEnd =
    | Completed(missing: seq<MissingData>)
    | ValidationFailed
    | MissingDataFailed(fault: MissingData)
    | AggregateFailed(missing: seq<MissingData>)

  /** One run of the chain calculator: the states it reported through its
      progress callback, in order, and how it ended. */
  datatype Advance = Advance(steps: seq<Blockchain>, end: AdvanceEnd)

  /** The missing-data faults that the blockchain worker hands on: a
      validation failure is swallowed, a single missing-data failure is
      handed on as it is, and the faults collected by a completed advance
      or found inside an aggregate failure are all handed on, in order. */
  function HandledFaults(end: AdvanceEnd): (faults: seq<MissingData>)
    ensures end.ValidationFailed? ==> faults == []
    ensures end.MissingDataFailed? ==> faults == [end.fault]
    ensures end.Completed? || end.AggregateFailed? ==> faults == end.missing
  {
    match end
    case Completed(missing) => missing
    case ValidationFailed => []
    case MissingDataFailed(fault) => [fault]
    case AggregateFailed(missing) => missing
  }

  /** The groups built from the hashes `done`: each grouped header is the
      stored, unchained header of a hash of `done` and is filed under its
      previous hash, and every such header of `done` is filed. */
  ghost predicate GroupedFrom(done: set<Hash>, groups: map<Hash, seq<BlockHeader>>,
                              chained: map<Hash, ChainedBlock>, headers: map<Hash, BlockHeader>)
  {
    && (forall p, j :: p in groups && 0 <= j < |groups[p]| ==>
          && groups[p][j].previous == p
          && groups[p][j].hash in done && groups[p][j].hash !in chained
          && groups[p][j].hash in headers && headers[groups[p][j].hash] == groups[p][j])
    && (forall h :: h in done && h !in chained && h in headers ==>
          headers[h].previous in groups && headers[h] in groups[headers[h].previous])
  }

  /** `seeds` lists the chained block of every hash of `parents` exactly once. */
  ghost predicate ListsEachOnce(seeds: seq<ChainedBlock>, parents: set<Hash>, chained: map<Hash, ChainedBlock>)
  {
    && (forall i :: 0 <= i < |seeds| ==>
          seeds[i].hash in parents && seeds[i].hash in chained && chained[seeds[i].hash] == seeds[i])
    && (forall i, j :: 0 <= i < j < |seeds| ==> seeds[i].hash != seeds[j].hash)
    && (forall p :: p in parents ==> exists i :: 0 <= i < |seeds| && seeds[i].hash == p)
  }

  /** No header is filed twice in a group. */
  ghost predicate GroupsDistinct(groups: map<Hash, seq<BlockHeader>>)
  {
    forall p, x, y :: p in groups && 0 <= x < y < |groups[p]| ==> groups[p][x].hash != groups[p][y].hash
  }

  /** What the scan has built from the hashes `done`: the groups, and the
      seeds listing each chained parent of a group once. */
  ghost predicate Scanned(done: set<Hash>, seeds: seq<ChainedBlock>, seedSet: set<Hash>,
                          groups: map<Hash, seq<BlockHeader>>, chained: map<Hash, ChainedBlock>,
                          headers: map<Hash, BlockHeader>)
  {
    && GroupedFrom(done, groups, chained, headers)
    && GroupsDistinct(groups)
    && seedSet == groups.Keys * chained.Keys
    && ListsEachOnce(seeds, seedSet, chained)
  }

  /** Scanning a hash that is chained or has no stored header files nothing,
      and the sets the scan updates change by that one hash. */
  lemma ScanSkipStep(done: set<Hash>, h: Hash, seeds: seq<ChainedBlock>, seedSet: set<Hash>,
                     groups: map<Hash, seq<BlockHeader>>,
                     chained: map<Hash, ChainedBlock>, headers: map<Hash, BlockHeader>)
    requires h in chained || h !in headers
    requires Scanned(done, seeds, seedSet, groups, chained, headers)
    ensures Scanned(done + {h}, seeds, seedSet, groups, chained, headers)
    ensures (done + {h}) * chained.Keys == (if h in chained then done * chained.Keys + {h} else done * chained.Keys)
    ensures (set x | x in done + {h} && x !in chained && x !in headers) ==
            (set x | x in done && x !in chained && x !in headers) + (if h in chained then {} else {h})
  {
  }

  /** Filing the header of a new unchained hash under its previous hash
      keeps the groups complete for the hashes scanned and free of repeats. */
  lemma FileHeaderStep(done: set<Hash>, h: Hash, groups: map<Hash, seq<BlockHeader>>,
                       chained: map<Hash, ChainedBlock>, headers: map<Hash, BlockHeader>)
    requires HeadersKeyed(headers)
    requires h !in chained && h in headers && h !in done
    requires GroupedFrom(done, groups, chained, headers) && GroupsDistinct(groups)
    ensures var p := headers[h].previous;
            var groups' := groups[p := (if p in groups then groups[p] else []) + [headers[h]]];
            GroupedFrom(done + {h}, groups', chained, headers) && GroupsDistinct(groups')
  {
  }

  /** Scanning one more unchained hash that has a stored header files the
      header under its previous hash and, the first time that previous hash
      is met and is chained, lists its chained block as a seed. */
  lemma ScanHeaderStep(done: set<Hash>, h: Hash, seeds: seq<ChainedBlock>, seedSet: set<Hash>,
                       groups: map<Hash, seq<BlockHeader>>, chained: map<Hash, ChainedBlock>,
                       headers: map<Hash, BlockHeader>)
    requires Keyed(chained) && HeadersKeyed(headers)
    requires h !in chained && h in headers && h !in done
    requires Scanned(done, seeds, seedSet, groups, chained, headers)
    ensures var p := headers[h].previous;
            var first := p !in seedSet && p in chained;
            var seeds' := if first then seeds + [chained[p]] else seeds;
            var seedSet' := if first then seedSet + {p} else seedSet;
            var groups' := groups[p := (if p in groups then groups[p] else []) + [headers[h]]];
            Scanned(done + {h}, seeds', seedSet', groups', chained, headers)
  {
    var p := headers[h].previous;
    var first := p !in seedSet && p in chained;
    var seeds' := if first then seeds + [chained[p]] else seeds;
    var seedSet' := if first then seedSet + {p} else seedSet;
    var groups' := groups[p := (if p in groups then groups[p] else []) + [headers[h]]];
    FileHeaderStep(done, h, groups, chained, headers);
    forall q | q in seedSet'
      ensures exists i :: 0 <= i < |seeds'| && seeds'[i].hash == q
    {
      if first && q == p {
        assert seeds'[|seeds|].hash == q;
      } else {
        var i :| 0 <= i < |seeds| && seeds[i].hash == q;
        assert seeds'[i].hash == q;
      }
    }
  }

  /** Chaining `group` onto `parent` has got as far as `created`: its first
      headers, in order, each fresh with respect to the map `start` it began
      from; `m` is `start` with exactly those blocks added. */
  ghost predicate GroupChainedSoFar(start: map<Hash, ChainedBlock>, m: map<Hash, ChainedBlock>, parent: ChainedBlock,
                                    group: seq<BlockHeader>, created: seq<ChainedBlock>, work: BlockHeader -> nat)
  {
    && |created| <= |group|
    && (forall j :: 0 <= j < |created| ==> group[j].hash !in start)
    && (forall j :: 0 <= j < |created| ==> created[j] == ChainOnto(parent, group[j], work(group[j])))
    && (forall j, l :: 0 <= j < l < |created| ==> created[j].hash != created[l].hash)
    && (forall k :: k in start ==> k in m && m[k] == start[k])
    && (forall j :: 0 <= j < |created| ==> created[j].hash in m && m[created[j].hash] == created[j])
    && (forall k :: k in m && k !in start ==> exists j :: 0 <= j < |created| && created[j].hash == k)
  }

  lemma GroupStep(start: map<Hash, ChainedBlock>, m: map<Hash, ChainedBlock>, parent: ChainedBlock,
                  group: seq<BlockHeader>, created: seq<ChainedBlock>, work: BlockHeader -> nat)
    requires GroupChainedSoFar(start, m, parent, group, created, work)
    requires |created| < |group| && group[|created|].hash !in m
    ensures var header := group[|created|];
            GroupChainedSoFar(start, m[header.hash := ChainOnto(parent, header, work(header))], parent, group,
                              created + [ChainOnto(parent, header, work(header))], work)
  {
    var header := group[|created|];
    var c := ChainOnto(parent, header, work(header));
    var m' := m[header.hash := c];
    var created' := created + [c];
    forall k | k in m' && k !in start
      ensures exists j :: 0 <= j < |created'| && created'[j].hash == k
    {
      if k == header.hash {
        assert created'[|created|].hash == k;
      } else {
        var j :| 0 <= j < |created| && created[j].hash == k;
        assert created'[j].hash == k;
      }
    }
  }

  /** The chaining pass so far has kept every entry of `start` and added
      only hashes of the snapshot that have stored headers. */
  ghost predicate GrowsWithin(start: map<Hash, ChainedBlock>, chained: map<Hash, ChainedBlock>,
                              snapshot: set<Hash>, headers: map<Hash, BlockHeader>)
  {
    && (forall k :: k in start ==> k in chained && chained[k] == start[k])
    && (forall k :: k in chained && k !in start ==> k in snapshot && k in headers)
  }

  /** Every block of the work list is chained as listed. */
  ghost predicate WorkListSound(worklist: seq<ChainedBlock>, chained: map<Hash, ChainedBlock>)
  {
    forall j :: 0 <= j < |worklist| ==> worklist[j].hash in chained && chained[worklist[j].hash] == worklist[j]
  }

  /** One step of the work list: chaining a group whose headers are chained
      already or come from the snapshot keeps the pass within the snapshot,
      keeps the extended work list chained, and, when it chains anything,
      removes a hash from the snapshot's unchained part. */
  lemma PassStep(start: map<Hash, ChainedBlock>, before: map<Hash, ChainedBlock>, after: map<Hash, ChainedBlock>,
                 snapshot: set<Hash>, headers: map<Hash, BlockHeader>, worklist: seq<ChainedBlock>,
                 parent: ChainedBlock, group: seq<BlockHeader>, created: seq<ChainedBlock>, work: BlockHeader -> nat)
    requires GrowsWithin(start, before, snapshot, headers)
    requires WorkListSound(worklist, before)
    requires GroupChainedSoFar(before, after, parent, group, created, work)
    requires forall j :: 0 <= j < |group| ==>
               group[j].hash in before || (group[j].hash in snapshot && group[j].hash in headers)
    ensures GrowsWithin(start, after, snapshot, headers)
    ensures WorkListSound(worklist + created, after)
    ensures snapshot - after.Keys <= snapshot - before.Keys
    ensures |created| > 0 ==> created[0].hash in snapshot - before.Keys && created[0].hash !in snapshot - after.Keys
    ensures |created| == 0 ==> after.Keys == before.Keys
    ensures (exists k :: k in after && k !in start) <==> (exists k :: k in before && k !in start) || |created| > 0
  {
    forall k | k in after && k !in start
      ensures k in snapshot && k in headers
    {
      if k !in before {
        var j :| 0 <= j < |created| && created[j].hash == k;
      }
    }
    if |created| > 0 {
      assert created[0].hash in after && created[0].hash !in start;
    } else {
      assert forall k :: k in after ==> k in before;
    }
  }

  /** Every stored header of the snapshot that was not chained when the pass
      began and whose parent is now chained is chained: the pass leaves no
      link it could make. */
  ghost predicate ChainsAllReachable(start: map<Hash, ChainedBlock>, chained: map<Hash, ChainedBlock>,
                                     snapshot: set<Hash>, headers: map<Hash, BlockHeader>)
  {
    forall h :: h in snapshot && h !in start && h in headers && headers[h].previous in chained ==> h in chained
  }

  /** No hash is listed twice. */
  ghost predicate ListDistinct(list: seq<ChainedBlock>)
  {
    forall j, l :: 0 <= j < l < |list| ==> list[j].hash != list[l].hash
  }

  /** `remaining` holds the scan's groups of exactly the parents not yet
      taken from the list, the first `i` of it. */
  ghost predicate TakenExactly(list: seq<ChainedBlock>, i: int, remaining: map<Hash, seq<BlockHeader>>,
                               groups: map<Hash, seq<BlockHeader>>)
  {
    && 0 <= i <= |list|
    && (forall p :: p in remaining ==> p in groups && remaining[p] == groups[p])
    && (forall j :: 0 <= j < i ==> list[j].hash !in remaining)
    && (forall p :: p in groups && p !in remaining ==> exists j :: 0 <= j < i && list[j].hash == p)
  }

  /** The group of every taken parent is chained. */
  ghost predicate TakenChained(m: map<Hash, ChainedBlock>, remaining: map<Hash, seq<BlockHeader>>,
                               groups: map<Hash, seq<BlockHeader>>)
  {
    forall p, x :: p in groups && p !in remaining && 0 <= x < |groups[p]| ==> groups[p][x].hash in m
  }

  /** Every block chained since `start` is on the list and belongs to the
      group of a taken parent. */
  ghost predicate NewFromTaken(start: map<Hash, ChainedBlock>, m: map<Hash, ChainedBlock>, list: seq<ChainedBlock>,
                               remaining: map<Hash, seq<BlockHeader>>, groups: map<Hash, seq<BlockHeader>>,
                               headers: map<Hash, BlockHeader>)
  {
    forall k :: k in m && k !in start ==>
      && (exists j :: 0 <= j < |list| && list[j].hash == k)
      && k in headers && headers[k].previous in groups && headers[k].previous !in remaining
  }

  /** Every parent of a group that was chained at `start` is on the list. */
  ghost predicate StartListed(start: map<Hash, ChainedBlock>, list: seq<ChainedBlock>,
                              groups: map<Hash, seq<BlockHeader>>)
  {
    forall p :: p in groups && p in start ==> exists j :: 0 <= j < |list| && list[j].hash == p
  }

  /** The work-list walk so far, against the scan's `groups` of the
      snapshot's headers unchained at `start`. */
  ghost predicate Walking(start: map<Hash, ChainedBlock>, m: map<Hash, ChainedBlock>, list: seq<ChainedBlock>,
                          i: int, remaining: map<Hash, seq<BlockHeader>>, groups: map<Hash, seq<BlockHeader>>,
                          snapshot: set<Hash>, headers: map<Hash, BlockHeader>)
  {
    && GroupedFrom(snapshot, groups, start, headers) && GroupsDistinct(groups)
    && GrowsWithin(start, m, snapshot, headers)
    && WorkListSound(list, m)
    && ListDistinct(list)
    && TakenExactly(list, i, remaining, groups)
    && TakenChained(m, remaining, groups)
    && NewFromTaken(start, m, list, remaining, groups, headers)
    && StartListed(start, list, groups)
  }

  /** The scan's results are what the work-list walk starts from: nothing
      has been taken or chained yet. */
  lemma ScanFeedsWalk(snapshot: set<Hash>, seeds: seq<ChainedBlock>, groups: map<Hash, seq<BlockHeader>>,
                      chained: map<Hash, ChainedBlock>, headers: map<Hash, BlockHeader>)
    requires GroupedFrom(snapshot, groups, chained, headers) && GroupsDistinct(groups)
    requires ListsEachOnce(seeds, groups.Keys * chained.Keys, chained)
    ensures Walking(chained, chained, seeds, 0, groups, groups, snapshot, headers)
  {
    forall p | p in groups && p in chained
      ensures exists j :: 0 <= j < |seeds| && seeds[j].hash == p
    {
      assert p in groups.Keys * chained.Keys;
    }
  }

  /** What the walk's next parent needs: it is chained as listed, and a
      group still pending for it holds stored headers of the snapshot
      whose previous hash is the parent's. */
  lemma WalkTake(start: map<Hash, ChainedBlock>, m: map<Hash, ChainedBlock>, list: seq<ChainedBlock>,
                 i: int, remaining: map<Hash, seq<BlockHeader>>, groups: map<Hash, seq<BlockHeader>>,
                 snapshot: set<Hash>, headers: map<Hash, BlockHeader>)
    requires Walking(start, m, list, i, remaining, groups, snapshot, headers)
    requires 0 <= i < |list|
    ensures list[i].hash in m && m[list[i].hash] == list[i]
    ensures list[i].hash in remaining ==>
              forall j :: 0 <= j < |remaining[list[i].hash]| ==>
                var h := remaining[list[i].hash][j];
                h.previous == list[i].hash && h.hash in snapshot && h.hash in headers && headers[h.hash] == h
  {
  }

  /** No header of a pending group is chained yet. */
  lemma PendingUnchained(start: map<Hash, ChainedBlock>, m: map<Hash, ChainedBlock>, list: seq<ChainedBlock>,
                         remaining: map<Hash, seq<BlockHeader>>, groups: map<Hash, seq<BlockHeader>>,
                         snapshot: set<Hash>, headers: map<Hash, BlockHeader>, p: Hash)
    requires GroupedFrom(snapshot, groups, start, headers)
    requires NewFromTaken(start, m, list, remaining, groups, headers)
    requires p in remaining && p in groups
    ensures forall x :: 0 <= x < |groups[p]| ==> groups[p][x].hash !in m
  {
    forall x | 0 <= x < |groups[p]|
      ensures groups[p][x].hash !in m
    {
      assert groups[p][x].hash !in start && headers[groups[p][x].hash].previous == p;
    }
  }

  /** Every block a group chaining added is one of the group's first headers. */
  lemma CreatedFromGroup(before: map<Hash, ChainedBlock>, after: map<Hash, ChainedBlock>, parent: ChainedBlock,
                         group: seq<BlockHeader>, created: seq<ChainedBlock>, work: BlockHeader -> nat)
    requires GroupChainedSoFar(before, after, parent, group, created, work)
    ensures forall k :: k in after && k !in before ==> exists j :: 0 <= j < |created| && group[j].hash == k
  {
    forall k | k in after && k !in before
      ensures exists j :: 0 <= j < |created| && group[j].hash == k
    {
      var j :| 0 <= j < |created| && created[j].hash == k;
      assert group[j].hash == k;
    }
  }

  /** A group of distinct, unchained headers is chained whole: the chaining
      can stop only at a header that is chained by then, which would have
      to be an earlier header of the same group. */
  lemma GroupChainedWhole(before: map<Hash, ChainedBlock>, after: map<Hash, ChainedBlock>, parent: ChainedBlock,
                          group: seq<BlockHeader>, created: seq<ChainedBlock>, work: BlockHeader -> nat)
    requires forall x, y :: 0 <= x < y < |group| ==> group[x].hash != group[y].hash
    requires forall x :: 0 <= x < |group| ==> group[x].hash !in before
    requires GroupChainedSoFar(before, after, parent, group, created, work)
    requires |created| < |group| ==> group[|created|].hash in after
    ensures |created| == |group|
  {
    CreatedFromGroup(before, after, parent, group, created, work);
  }

  lemma ListDistinctStep(list: seq<ChainedBlock>, before: map<Hash, ChainedBlock>, after: map<Hash, ChainedBlock>,
                         parent: ChainedBlock, group: seq<BlockHeader>, created: seq<ChainedBlock>,
                         work: BlockHeader -> nat)
    requires ListDistinct(list) && WorkListSound(list, before)
    requires GroupChainedSoFar(before, after, parent, group, created, work)
    ensures ListDistinct(list + created)
  {
    var l' := list + created;
    forall j, l | 0 <= j < l < |l'|
      ensures l'[j].hash != l'[l].hash
    {
      if l >= |list| {
        assert l'[l] == created[l - |list|];
        if j < |list| {
          assert l'[j].hash in before;
        } else {
          assert l'[j] == created[j - |list|];
        }
      }
    }
  }

  lemma TakenExactlyStep(list: seq<ChainedBlock>, i: int, remaining: map<Hash, seq<BlockHeader>>,
                         groups: map<Hash, seq<BlockHeader>>, created: seq<ChainedBlock>)
    requires TakenExactly(list, i, remaining, groups)
    requires i < |list| && list[i].hash in remaining
    ensures TakenExactly(list + created, i + 1, remaining - {list[i].hash}, groups)
  {
    var l' := list + created;
    forall q | q in groups && q !in remaining - {list[i].hash}
      ensures exists j :: 0 <= j < i + 1 && l'[j].hash == q
    {
      if q == list[i].hash {
        assert l'[i].hash == q;
      } else {
        var j :| 0 <= j < i && list[j].hash == q;
        assert l'[j].hash == q;
      }
    }
  }

  lemma TakenChainedStep(before: map<Hash, ChainedBlock>, after: map<Hash, ChainedBlock>,
                         remaining: map<Hash, seq<BlockHeader>>, groups: map<Hash, seq<BlockHeader>>, p: Hash,
                         parent: ChainedBlock, created: seq<ChainedBlock>, work: BlockHeader -> nat)
    requires TakenChained(before, remaining, groups)
    requires p in groups
    requires GroupChainedSoFar(before, after, parent, groups[p], created, work)
    requires |created| == |groups[p]|
    ensures TakenChained(after, remaining - {p}, groups)
  {
    forall q, x | q in groups && q !in remaining - {p} && 0 <= x < |groups[q]|
      ensures groups[q][x].hash in after
    {
      if q == p {
        assert created[x].hash == groups[p][x].hash;
      }
    }
  }

  lemma NewFromTakenStep(start: map<Hash, ChainedBlock>, before: map<Hash, ChainedBlock>,
                         after: map<Hash, ChainedBlock>, list: seq<ChainedBlock>,
                         remaining: map<Hash, seq<BlockHeader>>, groups: map<Hash, seq<BlockHeader>>,
                         snapshot: set<Hash>, headers: map<Hash, BlockHeader>, p: Hash,
                         parent: ChainedBlock, created: seq<ChainedBlock>, work: BlockHeader -> nat)
    requires GroupedFrom(snapshot, groups, start, headers)
    requires NewFromTaken(start, before, list, remaining, groups, headers)
    requires p in groups
    requires GroupChainedSoFar(before, after, parent, groups[p], created, work)
    ensures NewFromTaken(start, after, list + created, remaining - {p}, groups, headers)
  {
    var l' := list + created;
    var g := groups[p];
    forall k | k in after && k !in start
      ensures exists j :: 0 <= j < |l'| && l'[j].hash == k
      ensures k in headers && headers[k].previous in groups && headers[k].previous !in remaining - {p}
    {
      if k in before {
        var j :| 0 <= j < |list| && list[j].hash == k;
        assert l'[j].hash == k;
      } else {
        var j :| 0 <= j < |created| && created[j].hash == k;
        assert l'[|list| + j].hash == k;
        assert g[j].hash == k && headers[g[j].hash] == g[j];
      }
    }
  }

  lemma StartListedStep(start: map<Hash, ChainedBlock>, list: seq<ChainedBlock>,
                        groups: map<Hash, seq<BlockHeader>>, created: seq<ChainedBlock>)
    requires StartListed(start, list, groups)
    ensures StartListed(start, list + created, groups)
  {
    forall q | q in groups && q in start
      ensures exists j :: 0 <= j < |list + created| && (list + created)[j].hash == q
    {
      var j :| 0 <= j < |list| && list[j].hash == q;
      assert (list + created)[j].hash == q;
    }
  }

  /** Taking a parent whose group is still pending chains the whole group
      and keeps the walk's invariant; what it chains leaves the snapshot's
      unchained part. */
  lemma WalkGroupStep(start: map<Hash, ChainedBlock>, before: map<Hash, ChainedBlock>, after: map<Hash, ChainedBlock>,
                      list: seq<ChainedBlock>, i: int, remaining: map<Hash, seq<BlockHeader>>,
                      groups: map<Hash, seq<BlockHeader>>, snapshot: set<Hash>, headers: map<Hash, BlockHeader>,
                      created: seq<ChainedBlock>, work: BlockHeader -> nat)
    requires Walking(start, before, list, i, remaining, groups, snapshot, headers)
    requires 0 <= i < |list| && list[i].hash in remaining
    requires GroupChainedSoFar(before, after, list[i], remaining[list[i].hash], created, work)
    requires |created| < |remaining[list[i].hash]| ==> remaining[list[i].hash][|created|].hash in after
    ensures |created| == |groups[list[i].hash]|
    ensures Walking(start, after, list + created, i + 1, remaining - {list[i].hash}, groups, snapshot, headers)
    ensures snapshot - after.Keys < snapshot - before.Keys || (created == [] && after.Keys == before.Keys)
  {
    var p := list[i].hash;
    assert remaining[p] == groups[p];
    PendingUnchained(start, before, list, remaining, groups, snapshot, headers, p);
    GroupChainedWhole(before, after, list[i], groups[p], created, work);
    PassStep(start, before, after, snapshot, headers, list, list[i], groups[p], created, work);
    ListDistinctStep(list, before, after, list[i], groups[p], created, work);
    TakenExactlyStep(list, i, remaining, groups, created);
    TakenChainedStep(before, after, remaining, groups, p, list[i], created, work);
    NewFromTakenStep(start, before, after, list, remaining, groups, snapshot, headers, p, list[i], created, work);
    StartListedStep(start, list, groups, created);
    if |created| > 0 {
      assert snapshot - after.Keys < snapshot - before.Keys;
    }
  }

  /** Taking a parent with no pending group, whose chaining added nothing,
      only moves the position in the list. */
  lemma WalkFallbackStep(start: map<Hash, ChainedBlock>, m: map<Hash, ChainedBlock>, list: seq<ChainedBlock>,
                         i: int, remaining: map<Hash, seq<BlockHeader>>, groups: map<Hash, seq<BlockHeader>>,
                         snapshot: set<Hash>, headers: map<Hash, BlockHeader>, created: seq<ChainedBlock>)
    requires Walking(start, m, list, i, remaining, groups, snapshot, headers)
    requires 0 <= i < |list| && list[i].hash !in remaining
    requires created == []
    ensures Walking(start, m, list + created, i + 1, remaining, groups, snapshot, headers)
  {
    assert list + created == list;
  }

  /** When the whole list has been walked, every link the pass could make
      has been made. */
  lemma WalkComplete(start: map<Hash, ChainedBlock>, m: map<Hash, ChainedBlock>, list: seq<ChainedBlock>,
                     remaining: map<Hash, seq<BlockHeader>>, groups: map<Hash, seq<BlockHeader>>,
                     snapshot: set<Hash>, headers: map<Hash, BlockHeader>)
    requires HeadersKeyed(headers) && GroupedFrom(snapshot, groups, start, headers)
    requires TakenExactly(list, |list|, remaining, groups) && TakenChained(m, remaining, groups)
    requires NewFromTaken(start, m, list, remaining, groups, headers) && StartListed(start, list, groups)
    ensures ChainsAllReachable(start, m, snapshot, headers)
  {
    forall h | h in snapshot && h !in start && h in headers && headers[h].previous in m
      ensures h in m
    {
      var p := headers[h].previous;
      assert p in groups && headers[h] in groups[p];
      var j :| 0 <= j < |list| && list[j].hash == p;
      assert p !in remaining;
      var x :| 0 <= x < |groups[p]| && groups[p][x] == headers[h];
    }
  }

  /** A chaining pass's outcome is determined: two consistent maps that
      both grow `start` within the snapshot's stored headers and both leave
      no link unmade are equal. */
  lemma PassOutcomeDetermined(start: map<Hash, ChainedBlock>, m1: map<Hash, ChainedBlock>, m2: map<Hash, ChainedBlock>,
                              snapshot: set<Hash>, headers: map<Hash, BlockHeader>,
                              work: BlockHeader -> nat, genesis: ChainedBlock)
    requires genesis.hash in start
    requires Consistent(m1, headers, work, genesis) && Consistent(m2, headers, work, genesis)
    requires GrowsWithin(start, m1, snapshot, headers) && GrowsWithin(start, m2, snapshot, headers)
    requires ChainsAllReachable(start, m1, snapshot, headers) && ChainsAllReachable(start, m2, snapshot, headers)
    ensures m1 == m2
  {
    forall k | k in m1
      ensures k in m2
    {
      ReachedInBoth(start, m1, m2, snapshot, headers, work, genesis, k);
    }
    forall k | k in m2
      ensures k in m1
    {
      ReachedInBoth(start, m2, m1, snapshot, headers, work, genesis, k);
    }
    forall k | k in m1
      ensures m1[k] == m2[k]
    {
      ChainedValueIndependentOfOrder(m1, m2, headers, work, genesis, k);
    }
  }

  lemma {:induction false} ReachedInBoth(start: map<Hash, ChainedBlock>, m1: map<Hash, ChainedBlock>,
                                         m2: map<Hash, ChainedBlock>, snapshot: set<Hash>,
                                         headers: map<Hash, BlockHeader>, work: BlockHeader -> nat,
                                         genesis: ChainedBlock, k: Hash)
    requires genesis.hash in start
    requires Consistent(m1, headers, work, genesis)
    requires GrowsWithin(start, m1, snapshot, headers) && GrowsWithin(start, m2, snapshot, headers)
    requires ChainsAllReachable(start, m2, snapshot, headers)
    requires k in m1
    ensures k in m2
    decreases m1[k].height
  {
    if k !in start {
      assert LinkedAt(m1, headers, work, genesis, k);
      ReachedInBoth(start, m1, m2, snapshot, headers, work, genesis, m1[k].previous);
    }
  }

  /** What revalidating the current state gave. */
  datatype Revalidation = Revalidated | RevalidationFailed | RevalidationMissing(fault: MissingData)

  class BlockchainDaemon {
    const genesis: ChainedBlock
    const work: BlockHeader -> nat

    // the caches
    var headers: map<Hash, BlockHeader>
    var blocks: map<Hash, Block>
    var chained: map<Hash, ChainedBlock>
    var transactions: map<TxKey, Transaction>

    var winningBlock: ChainedBlock
    var winningChain: Option<seq<ChainedBlock>>  // None: not known, recompute on read
    var current: Blockchain
    var lastWrite: nat  // the version token of the last current-state write

    var missingBlocks: set<Hash>
    var unchainedBlocks: set<Hash>
    var missingChainedBlocks: set<Hash>
    var missingTransactions: set<Hash>

    // work notifications posted to the workers
    var chainingNotified: bool
    var winnerNotified: bool
    var blockchainNotified: bool
    var writeNotified: bool
    var validateNotified: bool

    ghost predicate Valid()
      reads this`chained, this`headers, this`blocks
    {
      && Consistent(chained, headers, work, genesis)
      && forall k :: k in blocks ==> blocks[k].header.hash == k
    }

    /** Start from the stored caches with the genesis block written in, and
        every stored header that is not chained marked unchained. */
    constructor (genesis: ChainedBlock, genesisBlock: Block, work: BlockHeader -> nat,
                 storedHeaders: map<Hash, BlockHeader>, storedBlocks: map<Hash, Block>,
                 storedChained: map<Hash, ChainedBlock>, storedTransactions: map<TxKey, Transaction>)
      requires genesisBlock.header.hash == genesis.hash
      requires Consistent(storedChained[genesis.hash := genesis], storedHeaders, work, genesis)
      requires forall k :: k in storedBlocks ==> storedBlocks[k].header.hash == k
      ensures Valid()
      ensures this.genesis == genesis && this.work == work
      ensures headers == storedHeaders && transactions == storedTransactions
      ensures blocks == storedBlocks[genesis.hash := genesisBlock]
      ensures chained == storedChained[genesis.hash := genesis]
      ensures unchainedBlocks == storedHeaders.Keys - chained.Keys
      ensures missingBlocks == {} && missingChainedBlocks == {} && missingTransactions == {}
      ensures winningBlock == genesis && winningChain == Some([genesis])
      ensures current == Blockchain(genesis) && lastWrite == 0
      ensures !chainingNotified && !winnerNotified && !blockchainNotified && !writeNotified && !validateNotified
    {
      this.genesis := genesis;
      this.work := work;
      winningBlock := genesis;
      winningChain := Some([genesis]);
      current := Blockchain(genesis);
      lastWrite := 0;
      missingBlocks, missingChainedBlocks, missingTransactions := {}, {}, {};
      headers := storedHeaders;
      transactions := storedTransactions;
      blocks := storedBlocks[genesis.hash := genesisBlock];
      chained := storedChained[genesis.hash := genesis];
      unchainedBlocks := storedHeaders.Keys - storedChained[genesis.hash := genesis].Keys;
      chainingNotified, winnerNotified, blockchainNotified, writeNotified, validateNotified :=
        false, false, false, false, false;
    }

    // ---------------------------------------------------------------------
    // Cache events

    method OnBlockHeaderAddition(h: Hash)
      modifies this`unchainedBlocks
      ensures unchainedBlocks == if h in chained then old(unchainedBlocks) else old(unchainedBlocks) + {h}
    {
      if h !in chained {
        unchainedBlocks := unchainedBlocks + {h};
      }
    }

    method OnBlockHeaderModification(h: Hash, header: BlockHeader)
      modifies this`unchainedBlocks
      ensures unchainedBlocks == if h in chained then old(unchainedBlocks) else old(unchainedBlocks) + {h}
    {
      OnBlockHeaderAddition(h);
    }

    /** A block's arrival clears it from the missing blocks, wakes the chaining
        and blockchain workers, and marks it unchained unless it is chained. */
    method OnBlockAddition(h: Hash)
      modifies this`missingBlocks, this`unchainedBlocks, this`chainingNotified, this`blockchainNotified
      ensures missingBlocks == old(missingBlocks) - {h}
      ensures unchainedBlocks == if h in chained then old(unchainedBlocks) else old(unchainedBlocks) + {h}
      ensures chainingNotified && blockchainNotified
    {
      // both branches of the source post the same notifications
      missingBlocks := missingBlocks - {h};
      chainingNotified, blockchainNotified := true, true;
      if h !in chained {
        unchainedBlocks := unchainedBlocks + {h};
      }
    }

    method OnBlockModification(h: Hash, block: Block)
      modifies this`missingBlocks, this`unchainedBlocks, this`chainingNotified, this`blockchainNotified
      ensures missingBlocks == old(missingBlocks) - {h}
      ensures unchainedBlocks == if h in chained then old(unchainedBlocks) else old(unchainedBlocks) + {h}
      ensures chainingNotified && blockchainNotified
    {
      OnBlockAddition(h);
    }

    /** A chained block's arrival clears it from the missing chained blocks
        and from the unchained set, and wakes the chaining worker. */
    method OnChainedBlockAddition(h: Hash)
      modifies this`missingChainedBlocks, this`unchainedBlocks, this`chainingNotified
      ensures missingChainedBlocks == old(missingChainedBlocks) - {h}
      ensures unchainedBlocks == old(unchainedBlocks) - {h}
      ensures chainingNotified
    {
      missingChainedBlocks := missingChainedBlocks - {h};
      chainingNotified := true;
      unchainedBlocks := unchainedBlocks - {h};
    }

    method OnChainedBlockModification(h: Hash, chainedBlock: ChainedBlock)
      modifies this`missingChainedBlocks, this`unchainedBlocks, this`chainingNotified
      ensures missingChainedBlocks == old(missingChainedBlocks) - {h}
      ensures unchainedBlocks == old(unchainedBlocks) - {h}
      ensures chainingNotified
    {
      OnChainedBlockAddition(h);
    }

    /** The header store writes a header and raises its addition or
        modification event, both of which run the header handler. A hash
        names one header, so a stored hash is only ever rewritten with the
        same header. */
    method StoreHeader(header: BlockHeader)
      requires Valid()
      requires header.hash in headers ==> headers[header.hash] == header
      modifies this`headers, this`unchainedBlocks
      ensures Valid()
      ensures headers == old(headers)[header.hash := header]
      ensures unchainedBlocks == if header.hash in chained then old(unchainedBlocks)
                                 else old(unchainedBlocks) + {header.hash}
    {
      headers := headers[header.hash := header];
      assert forall k :: k in chained ==> LinkedAt(chained, old(headers), work, genesis, k);
      OnBlockHeaderAddition(header.hash);
    }

    /** The block store writes a block and raises its event. */
    method StoreBlock(block: Block)
      requires Valid()
      modifies this`blocks, this`missingBlocks, this`unchainedBlocks, this`chainingNotified, this`blockchainNotified
      ensures Valid()
      ensures blocks == old(blocks)[block.header.hash := block]
      ensures missingBlocks == old(missingBlocks) - {block.header.hash}
      ensures unchainedBlocks == if block.header.hash in chained then old(unchainedBlocks)
                                 else old(unchainedBlocks) + {block.header.hash}
      ensures chainingNotified && blockchainNotified
    {
      blocks := blocks[block.header.hash := block];
      OnBlockAddition(block.header.hash);
    }

    // ---------------------------------------------------------------------
    // Lookups and missing data

    /** Found exactly when the block is stored; afterwards the hash is a
        missing block exactly when the lookup failed. */
    method TryGetBlock(h: Hash) returns (block: Option<Block>)
      modifies this`missingBlocks
      ensures block.Some? <==> h in blocks
      ensures block.Some? ==> block.value == blocks[h]
      ensures h in missingBlocks <==> h !in blocks
      ensures missingBlocks - {h} == old(missingBlocks) - {h}
    {
      if h in blocks {
        missingBlocks := missingBlocks - {h};
        block := Some(blocks[h]);
      } else {
        missingBlocks := missingBlocks + {h};
        block := None;
      }
    }

    /** Found when the header is stored, or else when the block is stored
        (its header is returned). */
    method TryGetBlockHeader(h: Hash) returns (header: Option<BlockHeader>)
      modifies this`missingBlocks
      ensures header.Some? <==> h in headers || h in blocks
      ensures h in headers ==> header == Some(headers[h])
      ensures h !in headers && h in blocks ==> header == Some(blocks[h].header)
      ensures h in missingBlocks <==> header.None?
      ensures missingBlocks - {h} == old(missingBlocks) - {h}
    {
      if h in headers {
        header := Some(headers[h]);
        missingBlocks := missingBlocks - {h};
      } else if h in blocks {
        header := Some(blocks[h].header);
        missingBlocks := missingBlocks - {h};
      } else {
        missingBlocks := missingBlocks + {h};
        header := None;
      }
    }

    /** On failure the hash becomes a missing chained block, and a missing
        block too when the block itself is not stored. */
    method TryGetChainedBlock(h: Hash) returns (chainedBlock: Option<ChainedBlock>)
      modifies this`missingChainedBlocks, this`missingBlocks
      ensures chainedBlock.Some? <==> h in chained
      ensures chainedBlock.Some? ==> chainedBlock.value == chained[h]
      ensures h in missingChainedBlocks <==> h !in chained
      ensures missingChainedBlocks - {h} == old(missingChainedBlocks) - {h}
      ensures missingBlocks == if h !in chained && h !in blocks then old(missingBlocks) + {h}
                               else old(missingBlocks)
    {
      if h in chained {
        missingChainedBlocks := missingChainedBlocks - {h};
        chainedBlock := Some(chained[h]);
      } else {
        missingChainedBlocks := missingChainedBlocks + {h};
        if h !in blocks {
          missingBlocks := missingBlocks + {h};
        }
        chainedBlock := None;
      }
    }

    /** The missing transactions are kept by transaction hash. */
    method TryGetTransaction(key: TxKey) returns (transaction: Option<Transaction>)
      modifies this`missingTransactions
      ensures transaction.Some? <==> key in transactions
      ensures transaction.Some? ==> transaction.value == transactions[key]
      ensures missingTransactions == if key in transactions then old(missingTransactions) - {key.txHash}
                                     else old(missingTransactions) + {key.txHash}
    {
      if key in transactions {
        missingTransactions := missingTransactions - {key.txHash};
        transaction := Some(transactions[key]);
      } else {
        missingTransactions := missingTransactions + {key.txHash};
        transaction := None;
      }
    }

    /** A fault adds its key to the one set for its kind. */
    method HandleMissingData(e: MissingData)
      modifies this`missingBlocks, this`missingChainedBlocks, this`missingTransactions
      ensures missingBlocks == old(missingBlocks) + FaultKeys([e], BlockKinds)
      ensures missingChainedBlocks == old(missingChainedBlocks) + FaultKeys([e], ChainedKinds)
      ensures missingTransactions == old(missingTransactions) + FaultKeys([e], TransactionKinds)
      ensures e.dataType in BlockKinds ==>
                missingBlocks == old(missingBlocks) + {e.key} &&
                unchanged(this`missingChainedBlocks, this`missingTransactions)
      ensures e.dataType == ChainedBlockData ==>
                missingChainedBlocks == old(missingChainedBlocks) + {e.key} &&
                unchanged(this`missingBlocks, this`missingTransactions)
      ensures e.dataType == TransactionData ==>
                missingTransactions == old(missingTransactions) + {e.key} &&
                unchanged(this`missingBlocks, this`missingChainedBlocks)
    {
      assert [e][..0] == [];
      match e.dataType
      case BlockData =>
        missingBlocks := missingBlocks + {e.key};
      case BlockHeaderData =>
        missingBlocks := missingBlocks + {e.key};
      case ChainedBlockData =>
        missingChainedBlocks := missingChainedBlocks + {e.key};
      case TransactionData =>
        missingTransactions := missingTransactions + {e.key};
    }

    /** Every fault of a batch, in order. */
    method HandleAllMissingData(faults: seq<MissingData>)
      modifies this`missingBlocks, this`missingChainedBlocks, this`missingTransactions
      ensures missingBlocks == old(missingBlocks) + FaultKeys(faults, BlockKinds)
      ensures missingChainedBlocks == old(missingChainedBlocks) + FaultKeys(faults, ChainedKinds)
      ensures missingTransactions == old(missingTransactions) + FaultKeys(faults, TransactionKinds)
    {
      for n := 0 to |faults|
        invariant missingBlocks == old(missingBlocks) + FaultKeys(faults[..n], BlockKinds)
        invariant missingChainedBlocks == old(missingChainedBlocks) + FaultKeys(faults[..n], ChainedKinds)
        invariant missingTransactions == old(missingTransactions) + FaultKeys(faults[..n], TransactionKinds)
      {
        assert faults[..n + 1][..n] == faults[..n];
        assert [faults[n]][..0] == [];
        HandleMissingData(faults[n]);
      }
      assert faults[..|faults|] == faults;
    }

    // ---------------------------------------------------------------------
    // The chaining pass

    /** The snapshot scan: drop hashes that are already chained from the
        unchained set, record hashes with no stored header as missing blocks,
        group the other headers by previous hash, and list each chained
        parent of a grouped header once, as the seeds of the pass. */
    method ScanUnchained(snapshot: set<Hash>) returns (seeds: seq<ChainedBlock>, groups: map<Hash, seq<BlockHeader>>)
      requires Valid()
      modifies this`unchainedBlocks, this`missingBlocks
      ensures unchainedBlocks == old(unchainedBlocks) - (snapshot * chained.Keys)
      ensures missingBlocks == old(missingBlocks) + (set h | h in snapshot && h !in chained && h !in headers)
      ensures GroupedFrom(snapshot, groups, chained, headers) && GroupsDistinct(groups)
      ensures ListsEachOnce(seeds, groups.Keys * chained.Keys, chained)
    {
      seeds, groups := [], map[];
      var seedSet: set<Hash> := {};
      var todo := snapshot;
      ghost var done: set<Hash> := {};
      while todo != {}
        invariant done + todo == snapshot && done !! todo
        invariant unchainedBlocks == old(unchainedBlocks) - (done * chained.Keys)
        invariant missingBlocks == old(missingBlocks) + (set h | h in done && h !in chained && h !in headers)
        invariant Scanned(done, seeds, seedSet, groups, chained, headers)
        decreases todo
      {
        var h :| h in todo;
        todo := todo - {h};
        if h in chained {
          unchainedBlocks := unchainedBlocks - {h};
          ScanSkipStep(done, h, seeds, seedSet, groups, chained, headers);
        } else if h in headers {
          var header := headers[h];
          ScanHeaderStep(done, h, seeds, seedSet, groups, chained, headers);
          if header.previous !in seedSet && header.previous in chained {
            seeds := seeds + [chained[header.previous]];
            seedSet := seedSet + {header.previous};
          }
          var group := if header.previous in groups then groups[header.previous] else [];
          groups := groups[header.previous := group + [header]];
        } else {
          missingBlocks := missingBlocks + {h};
          ScanSkipStep(done, h, seeds, seedSet, groups, chained, headers);
        }
        done := done + {h};
      }
    }

    /** The fallback group of a parent that had no group in the scan: the
        stored headers of its chained children, so every one of them is
        already chained. */
    method FallbackGroup(p: Hash) returns (group: seq<BlockHeader>)
      requires Valid()
      ensures forall j :: 0 <= j < |group| ==>
                && group[j].hash in chained && chained[group[j].hash].previous == p
                && group[j].hash in headers && headers[group[j].hash] == group[j]
      ensures forall k :: k in chained && chained[k].previous == p && k in headers ==> headers[k] in group
    {
      // the chained-block index query by previous hash
      var children := set k | k in chained && chained[k].previous == p;
      group := [];
      var todo := children;
      while todo != {}
        invariant todo <= children
        invariant forall j :: 0 <= j < |group| ==>
                    && group[j].hash in chained && chained[group[j].hash].previous == p
                    && group[j].hash in headers && headers[group[j].hash] == group[j]
        invariant forall k :: k in children - todo && k in headers ==> headers[k] in group
        decreases todo
      {
        var k :| k in todo;
        todo := todo - {k};
        if k in headers {
          group := group + [headers[k]];
        }
      }
    }

    /** Chain the headers of one group onto `parent`, in order. The first
        header found already chained stops the whole group (the source breaks
        out of the loop there rather than skipping it). */
    method ChainGroup(parent: ChainedBlock, group: seq<BlockHeader>) returns (created: seq<ChainedBlock>)
      requires Valid()
      requires parent.hash in chained && chained[parent.hash] == parent
      requires forall j :: 0 <= j < |group| ==>
                 group[j].hash in chained ||
                 (group[j].previous == parent.hash && group[j].hash in headers && headers[group[j].hash] == group[j])
      modifies this`chained
      ensures Valid()
      ensures GroupChainedSoFar(old(chained), chained, parent, group, created, work)
      ensures |created| < |group| ==> group[|created|].hash in chained
      ensures |chained.Keys| == |old(chained).Keys| + |created|
      ensures (forall j :: 0 <= j < |group| ==> group[j].hash in old(chained)) ==> created == [] && chained == old(chained)
    {
      created := [];
      var m := chained;
      ghost var start := chained;
      while |created| < |group|
        invariant chained == m
        invariant Consistent(m, headers, work, genesis)
        invariant GroupChainedSoFar(start, m, parent, group, created, work)
        invariant |m.Keys| == |start.Keys| + |created|
      {
        var header := group[|created|];
        if header.hash in m {
          break;
        }
        var chainedBlock := ChainOnto(parent, header, work(header));
        ChainOntoKeepsConsistent(m, headers, work, genesis, parent, header);
        GroupStep(start, m, parent, group, created, work);
        assert m[header.hash := chainedBlock].Keys == m.Keys + {header.hash};
        m := m[header.hash := chainedBlock];
        chained := m;
        created := created + [chainedBlock];
      }
      assert |created| > 0 ==> group[0].hash !in start;
    }

    /** One step of the work list: the children of its `i`th block. Their
        pending group, when there is one, is taken out of the map and chained
        whole; otherwise the chained children are looked up and nothing new
        is chained. */
    method ChainChildren(ghost start: map<Hash, ChainedBlock>, chainedBlocks: seq<ChainedBlock>, i: nat,
                         unchainedByPrevious: map<Hash, seq<BlockHeader>>, ghost groups: map<Hash, seq<BlockHeader>>,
                         ghost snapshot: set<Hash>)
      returns (created: seq<ChainedBlock>, rest: map<Hash, seq<BlockHeader>>)
      requires Valid() && i < |chainedBlocks|
      requires Walking(start, chained, chainedBlocks, i, unchainedByPrevious, groups, snapshot, headers)
      modifies this`chained
      ensures Valid()
      ensures Walking(start, chained, chainedBlocks + created, i + 1, rest, groups, snapshot, headers)
      ensures |chained.Keys| == |old(chained).Keys| + |created|
      ensures snapshot - chained.Keys < snapshot - old(chained).Keys || (created == [] && chained.Keys == old(chained).Keys)
    {
      var chainedBlock := chainedBlocks[i];
      WalkTake(start, chained, chainedBlocks, i, unchainedByPrevious, groups, snapshot, headers);
      ghost var before := chained;
      if chainedBlock.hash in unchainedByPrevious {
        var unchainedGroup := unchainedByPrevious[chainedBlock.hash];
        rest := unchainedByPrevious - {chainedBlock.hash};
        created := ChainGroup(chainedBlock, unchainedGroup);
        WalkGroupStep(start, before, chained, chainedBlocks, i, unchainedByPrevious, groups, snapshot, headers,
                      created, work);
      } else {
        rest := unchainedByPrevious;
        var unchainedGroup := FallbackGroup(chainedBlock.hash);
        created := ChainGroup(chainedBlock, unchainedGroup);
        WalkFallbackStep(start, chained, chainedBlocks, i, unchainedByPrevious, groups, snapshot, headers, created);
      }
    }

    /** The work-list walk of a chaining pass. Each chained block of the
        list is taken in turn; its group from the scan (or, when the scan
        filed none under it, the fallback group) is chained onto it, and
        every block chained is appended to the list. It adds only hashes of
        the snapshot and counts a chained block exactly when it adds one. */
    method WalkWorkList(snapshot: set<Hash>, seeds: seq<ChainedBlock>, groups: map<Hash, seq<BlockHeader>>)
      returns (chainCount: nat)
      requires Valid()
      requires GroupedFrom(snapshot, groups, chained, headers) && GroupsDistinct(groups)
      requires ListsEachOnce(seeds, groups.Keys * chained.Keys, chained)
      modifies this`chained
      ensures Valid()
      ensures GrowsWithin(old(chained), chained, snapshot, headers)
      ensures ChainsAllReachable(old(chained), chained, snapshot, headers)
      ensures chainCount == |chained.Keys - old(chained).Keys| <= |snapshot|
      ensures chainCount > 0 <==> exists k :: k in chained && k !in old(chained)
    {
      ScanFeedsWalk(snapshot, seeds, groups, chained, headers);
      var chainedBlocks := seeds;
      var unchainedByPrevious := groups;
      ghost var start := chained;
      chainCount := 0;
      var i := 0;
      while i < |chainedBlocks|
        invariant 0 <= i <= |chainedBlocks|
        invariant Valid()
        invariant Walking(start, chained, chainedBlocks, i, unchainedByPrevious, groups, snapshot, headers)
        invariant chainCount == |chained.Keys| - |start.Keys|
        decreases snapshot - chained.Keys, |chainedBlocks| - i
      {
        var created: seq<ChainedBlock>;
        created, unchainedByPrevious := ChainChildren(start, chainedBlocks, i, unchainedByPrevious, groups, snapshot);
        chainedBlocks := chainedBlocks + created;
        chainCount := chainCount + |created|;
        i := i + 1;
      }
      WalkComplete(start, chained, chainedBlocks, unchainedByPrevious, groups, snapshot, headers);
      NewKeysCount(start, chained);
      SubsetCardinality(chained.Keys - start.Keys, snapshot);
    }

    /** One chaining pass. It takes a snapshot of the unchained set, scans
        it, and then walks a work list of chained blocks, seeded with the
        scan's chained parents, that it extends with every block it chains.
        It never replaces a chained entry, chains only headers of the
        snapshot, keeps the chained map consistent, leaves no header of the
        snapshot unchained whose parent is chained, and reports the number
        of blocks it chained. */
    method ChainingPass() returns (chainCount: nat)
      requires Valid()
      modifies this`chained, this`unchainedBlocks, this`missingBlocks
      ensures Valid()
      ensures GrowsWithin(old(chained), chained, old(unchainedBlocks), headers)
      ensures ChainsAllReachable(old(chained), chained, old(unchainedBlocks), headers)
      ensures chainCount == |chained.Keys - old(chained).Keys| <= |old(unchainedBlocks)|
      ensures chainCount > 0 <==> exists k :: k in chained && k !in old(chained)
      ensures unchainedBlocks == old(unchainedBlocks) - old(chained).Keys
      ensures missingBlocks == old(missingBlocks) +
                (set h | h in old(unchainedBlocks) && h !in old(chained) && h !in headers)
    {
      var snapshot := unchainedBlocks;
      var chainedBlocks: seq<ChainedBlock>, unchainedByPrevious: map<Hash, seq<BlockHeader>>;
      chainedBlocks, unchainedByPrevious := ScanUnchained(snapshot);
      chainCount := WalkWorkList(snapshot, chainedBlocks, unchainedByPrevious);
    }

    /** The chaining worker: one chaining pass, then more work for itself
        when the pass chained something, and work for the winner and
        chain-state workers in any case. */
    method ChainingWorker()
      requires Valid()
      modifies this`chained, this`unchainedBlocks, this`missingBlocks,
               this`chainingNotified, this`winnerNotified, this`blockchainNotified
      ensures Valid()
      ensures GrowsWithin(old(chained), chained, old(unchainedBlocks), headers)
      ensures ChainsAllReachable(old(chained), chained, old(unchainedBlocks), headers)
      ensures |chained.Keys - old(chained).Keys| <= |old(unchainedBlocks)|
      ensures unchainedBlocks == old(unchainedBlocks) - old(chained).Keys
      ensures missingBlocks == old(missingBlocks) +
                (set h | h in old(unchainedBlocks) && h !in old(chained) && h !in headers)
      ensures chainingNotified == (old(chainingNotified) || exists k :: k in chained && k !in old(chained))
      ensures winnerNotified && blockchainNotified
    {
      var chainCount := ChainingPass();
      if chainCount > 0 {
        chainingNotified := true;
      }
      winnerNotified := true;
      blockchainNotified := true;
    }

    // ---------------------------------------------------------------------
    // Winning block and current state

    /** Set the winner and forget the cached winning chain. */
    method UpdateWinningBlock(block: ChainedBlock)
      modifies this`winningBlock, this`winningChain, this`blockchainNotified
      ensures winningBlock == block && winningChain == None && blockchainNotified
    {
      winningChain := None;
      winningBlock := block;
      blockchainNotified := true;
    }

    /** Replace the current state under a fresh version token, which is
        returned: the tokens grow strictly with every write. */
    method UpdateCurrentBlockchain(state: Blockchain) returns (token: nat)
      modifies this`current, this`lastWrite
      ensures token == old(lastWrite) + 1 && lastWrite == token
      ensures current == state
    {
      token := lastWrite + 1;
      lastWrite := token;
      current := state;
    }

    /** The winning chain: the cached one while it is known; otherwise the
        chain lookup's result, or genesis alone when the lookup finds
        nothing. A lookup that fails outright also yields genesis alone but
        leaves the cache unknown. */
    method GetWinningBlockchain(lookup: ChainLookup) returns (chain: seq<ChainedBlock>)
      modifies this`winningChain
      ensures old(winningChain).Some? ==> chain == old(winningChain).value && winningChain == old(winningChain)
      ensures old(winningChain).None? ==>
                match lookup
                case Found(c) => chain == c && winningChain == Some(c)
                case NotFound => chain == [genesis] && winningChain == Some([genesis])
                case LookupFailed => chain == [genesis] && winningChain == None
    {
      if winningChain.None? {
        match lookup
        case Found(c) =>
          winningChain := Some(c);
        case NotFound =>
          winningChain := Some([genesis]);
        case LookupFailed =>
          return [genesis];
      }
      chain := winningChain.value;
    }

    /** Adopt the rules' selection when it is a block whose hash differs from
        the current winner's; route missing-data faults otherwise. */
    method WinnerWorker(selection: Selection)
      modifies this`winningBlock, this`winningChain, this`blockchainNotified,
               this`missingBlocks, this`missingChainedBlocks, this`missingTransactions
      ensures selection.Selected? && selection.choice.Some? && selection.choice.value.hash != old(winningBlock).hash ==>
                winningBlock == selection.choice.value && winningChain == None && blockchainNotified
      ensures !(selection.Selected? && selection.choice.Some? && selection.choice.value.hash != old(winningBlock).hash) ==>
                unchanged(this`winningBlock, this`winningChain, this`blockchainNotified)
      ensures selection.Selected? ==> unchanged(this`missingBlocks, this`missingChainedBlocks, this`missingTransactions)
      ensures selection.SelectionFailed? ==>
                && missingBlocks == old(missingBlocks) + FaultKeys(selection.missing, BlockKinds)
                && missingChainedBlocks == old(missingChainedBlocks) + FaultKeys(selection.missing, ChainedKinds)
                && missingTransactions == old(missingTransactions) + FaultKeys(selection.missing, TransactionKinds)
    {
      match selection
      case Selected(choice) =>
        if choice.Some? && choice.value.hash != winningBlock.hash {
          UpdateWinningBlock(choice.value);
        }
      case SelectionFailed(missing) =>
        HandleAllMissingData(missing);
    }

    /** The progress callback for one step of an advancement that read the
        version `token`: a token that no longer matches the last write only
        requests cancellation, and the step is published either way. The
        new token is returned. */
    method ProgressStep(token: nat, step: Blockchain) returns (newToken: nat, cancel: bool)
      modifies this`current, this`lastWrite, this`writeNotified
      ensures cancel == (token != old(lastWrite))
      ensures current == step
      ensures newToken == old(lastWrite) + 1 && lastWrite == newToken
      ensures writeNotified
    {
      cancel := token != lastWrite;
      newToken := UpdateCurrentBlockchain(step);
      writeNotified := true;
    }

    /** Advance the current state toward the winner when its root differs
        from the winner. Every progress step is published, so progress made
        before a failure is kept; missing-data faults are routed, and the
        revalidation worker is woken only after a completed advancement. */
    method BlockchainWorker(lookup: ChainLookup, advance: Advance)
      modifies this`winningChain, this`current, this`lastWrite, this`writeNotified, this`validateNotified,
               this`missingBlocks, this`missingChainedBlocks, this`missingTransactions
      ensures old(winningChain).Some? ==> winningChain == old(winningChain)
      ensures old(winningChain).None? ==> winningChain == match lookup
                                                          case Found(c) => Some(c)
                                                          case NotFound => Some([genesis])
                                                          case LookupFailed => None
      ensures old(current).RootHash() == winningBlock.hash ==>
                && unchanged(this`current, this`lastWrite, this`writeNotified, this`validateNotified)
                && unchanged(this`missingBlocks, this`missingChainedBlocks, this`missingTransactions)
      ensures old(current).RootHash() != winningBlock.hash ==>
                && current == (if advance.steps == [] then old(current) else advance.steps[|advance.steps| - 1])
                && lastWrite == old(lastWrite) + |advance.steps|
                && writeNotified == (old(writeNotified) || advance.steps != [])
                && validateNotified == (old(validateNotified) || advance.end.Completed?)
                && missingBlocks == old(missingBlocks) + FaultKeys(HandledFaults(advance.end), BlockKinds)
                && missingChainedBlocks == old(missingChainedBlocks) + FaultKeys(HandledFaults(advance.end), ChainedKinds)
                && missingTransactions == old(missingTransactions) + FaultKeys(HandledFaults(advance.end), TransactionKinds)
    {
      var winningBlockchain := GetWinningBlockchain(lookup);
      var winningBlockLocal := winningBlock;
      var currentLocal := current;
      if currentLocal.RootHash() != winningBlockLocal.hash {
        var token := lastWrite;
        var steps := advance.steps;
        ghost var chainLocal := winningChain;
        for s := 0 to |steps|
          invariant winningChain == chainLocal
          invariant token == lastWrite == old(lastWrite) + s
          invariant current == if s == 0 then old(current) else steps[s - 1]
          invariant writeNotified == (old(writeNotified) || s > 0)
          invariant unchanged(this`missingBlocks, this`missingChainedBlocks, this`missingTransactions)
          invariant unchanged(this`validateNotified)
        {
          var cancel;
          token, cancel := ProgressStep(token, steps[s]);
          // no other writer runs in between, so the check never fires here
          assert !cancel;
        }
        match advance.end
        case Completed(missing) =>
          HandleAllMissingData(missing);
          validateNotified := true;
        case ValidationFailed =>
        case MissingDataFailed(fault) =>
          HandleMissingData(fault);
        case AggregateFailed(missing) =>
          HandleAllMissingData(missing);
      }
    }

    /** Revalidate the current state; a validation failure rolls the current
        state back to genesis. */
    method ValidateCurrentChainWorker(result: Revalidation)
      modifies this`current, this`lastWrite, this`missingBlocks, this`missingChainedBlocks, this`missingTransactions
      ensures result.RevalidationFailed? ==> current == Blockchain(genesis) && lastWrite == old(lastWrite) + 1
      ensures !result.RevalidationFailed? ==> unchanged(this`current, this`lastWrite)
      ensures result.RevalidationMissing? ==>
                && missingBlocks == old(missingBlocks) + FaultKeys([result.fault], BlockKinds)
                && missingChainedBlocks == old(missingChainedBlocks) + FaultKeys([result.fault], ChainedKinds)
                && missingTransactions == old(missingTransactions) + FaultKeys([result.fault], TransactionKinds)
      ensures !result.RevalidationMissing? ==>
                unchanged(this`missingBlocks, this`missingChainedBlocks, this`missingTransactions)
    {
      match result
      case Revalidated =>
      case RevalidationFailed =>
        var _ := UpdateCurrentBlockchain(Blockchain(genesis));
      case RevalidationMissing(fault) =>
        HandleMissingData(fault);
    }

    /** The checkpoint writer: the current state is written, and older
        snapshots below its total work removed, unless it is at height 0. */
    method WriteBlockchainWorker() returns (request: Option<WriteRequest>)
      ensures request.Some? <==> current.Height() > 0
      ensures request.Some? ==> request.value.state == current && request.value.removeBelow == current.TotalWork()
    {
      var currentLocal := current;
      if currentLocal.Height() > 0 {
        request := Some(WriteRequest(currentLocal, currentLocal.TotalWork()));
      } else {
        request := None;
      }
    }

    /** Load the best stored snapshot at startup, when there is one: it
        becomes the current state and its root the winning block, and the
        stored snapshots with less total work are to be removed (the
        returned threshold). `read` stands for reading a snapshot from
        storage. */
    method LoadExistingState(listing: seq<SnapshotEntry>, read: BlockchainKey -> Blockchain)
      returns (removeBelow: Option<nat>)
      modifies this`current, this`lastWrite, this`winningBlock, this`winningChain, this`blockchainNotified
      ensures removeBelow.None? <==> listing == []
      ensures removeBelow.Some? ==> forall j :: 0 <= j < |listing| ==> listing[j].totalWork <= removeBelow.value
      ensures listing == [] ==> unchanged(this`current, this`lastWrite, this`winningBlock, this`winningChain, this`blockchainNotified)
      ensures listing != [] ==>
                exists i ::
                  && 0 <= i < |listing|
                  && (forall j :: 0 <= j < |listing| ==> listing[j].totalWork <= listing[i].totalWork)
                  && (forall j :: 0 <= j < i ==> listing[j].totalWork < listing[i].totalWork)
                  && current == read(listing[i].key)
                  && winningBlock == read(listing[i].key).rootBlock
      ensures listing != [] ==>
                exists i :: 0 <= i < |listing| && listing[i].totalWork == removeBelow.value && current == read(listing[i].key)
      ensures listing != [] ==> lastWrite == old(lastWrite) + 1 && winningChain == None && blockchainNotified
    {
      var winner := SelectStartupSnapshot(listing);
      removeBelow := None;
      if winner.Some? {
        var blockchain := read(winner.value.key);
        var _ := UpdateCurrentBlockchain(blockchain);
        UpdateWinningBlock(blockchain.rootBlock);
        removeBelow := Some(winner.value.totalWork);
      }
    }
  }
}
