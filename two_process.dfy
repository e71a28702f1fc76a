/**
 * A system of two processes that share overlap rows, each holding an
 * overlapping block vector bound to its own descriptor. One
 * synchronisation step lets both processes send first and then merge
 * what the other sent, as sync, syncAdd and syncAddBorder do when the
 * peer set is a single rank. The plans are the ones construction builds:
 * a process sends the rows it announced to the other and the other
 * merges them at the localised positions of the same global indices.
 */
module TwoProcessSync {
  import opened OverlapTopology
  import opened LastOccurrence
  import opened BlockVectorSpec
  import opened OverlappingBlockVector

  datatype System = System(a: int, ovA: Overlap, b: int, ovB: Overlap)
  {
    /** the global indices A announces to B (and B to A) during construction */
    function GlobalsAB(): seq<int> { AnnouncedIndices(ovA, b) }
    function GlobalsBA(): seq<int> { AnnouncedIndices(ovB, a) }

    /** A's send plan to B and B's receive plan from A cover the same global rows */
    function SendA(): seq<int> { SendPlan(ovA, b) }
    function RecvB(): seq<int> { Localize(ovB, GlobalsAB()) }
    function SendB(): seq<int> { SendPlan(ovB, a) }
    function RecvA(): seq<int> { Localize(ovA, GlobalsBA()) }

    ghost predicate Valid() {
      && a != b
      && ovA.Valid() && ovB.Valid()
      && ovA.peerSet == [b] && ovB.peerSet == [a]
      && IndicesIn(SendA(), ovA.numDomestic) && IndicesIn(RecvA(), ovA.numDomestic)
      && IndicesIn(SendB(), ovB.numDomestic) && IndicesIn(RecvB(), ovB.numDomestic)
    }

    /** both processes agree on the owner of every row they exchange */
    ghost predicate MastersAgree() {
      && |SendA()| == |RecvB()| && |SendB()| == |RecvA()|
      && (forall j :: 0 <= j < |SendA()| ==> ovA.masterRank(SendA()[j]) == ovB.masterRank(RecvB()[j]))
      && (forall j :: 0 <= j < |SendB()| ==> ovB.masterRank(SendB()[j]) == ovA.masterRank(RecvA()[j]))
    }

    /** B's numbering maps every global row A announces back to that global row, and vice versa */
    ghost predicate GlobalRoundTrips() {
      && (forall i :: 0 <= i < |GlobalsAB()| ==> ovB.domesticToGlobal(ovB.globalToDomestic(GlobalsAB()[i])) == GlobalsAB()[i])
      && (forall i :: 0 <= i < |GlobalsBA()| ==> ovA.domesticToGlobal(ovA.globalToDomestic(GlobalsBA()[i])) == GlobalsBA()[i])
    }
  }

  /** the message A sends to B and the message B sends to A */
  function MessageAB(s: System, vA: seq<real>): seq<real>
    requires s.Valid() && |vA| == s.ovA.numDomestic
  {
    Gather(vA, s.SendA())
  }

  function MessageBA(s: System, vB: seq<real>): seq<real>
    requires s.Valid() && |vB| == s.ovB.numDomestic
  {
    Gather(vB, s.SendB())
  }

  /** One synchronisation of both vectors: every send precedes every receive. */
  function Step(s: System, policy: Policy, vA: seq<real>, vB: seq<real>): (r: (seq<real>, seq<real>))
    requires s.Valid() && |vA| == s.ovA.numDomestic && |vB| == s.ovB.numDomestic
    ensures |r.0| == |vA| && |r.1| == |vB|
  {
    (Merge(s.ovA, policy, s.b, vA, s.RecvA(), MessageBA(s, vB)),
     Merge(s.ovB, policy, s.a, vB, s.RecvB(), MessageAB(s, vA)))
  }

  /** With a single peer, a synchronisation call is one merge of that peer's message. */
  lemma SyncSpecSinglePeer(ov: Overlap, policy: Policy, v: seq<real>, p: int,
                           recv: map<int, seq<int>>, incoming: map<int, seq<real>>)
    requires PlansFit([p], recv, incoming, |v|)
    ensures SyncSpec(ov, policy, v, [p], recv, incoming) == Merge(ov, policy, p, v, recv[p], incoming[p])
  {
    assert [p][..0] == [];
  }

  /** Each half of Step is what the vector of that process computes in its synchronisation call. */
  lemma StepIsSync(s: System, policy: Policy, vA: seq<real>, vB: seq<real>)
    requires s.Valid() && |vA| == s.ovA.numDomestic && |vB| == s.ovB.numDomestic
    ensures Step(s, policy, vA, vB).0 ==
      SyncSpec(s.ovA, policy, vA, s.ovA.peerSet, map[s.b := s.RecvA()], map[s.b := MessageBA(s, vB)])
    ensures Step(s, policy, vA, vB).1 ==
      SyncSpec(s.ovB, policy, vB, s.ovB.peerSet, map[s.a := s.RecvB()], map[s.a := MessageAB(s, vA)])
  {
    SyncSpecSinglePeer(s.ovA, policy, vA, s.b, map[s.b := s.RecvA()], map[s.b := MessageBA(s, vB)]);
    SyncSpecSinglePeer(s.ovB, policy, vB, s.a, map[s.a := s.RecvB()], map[s.a := MessageAB(s, vA)]);
  }

  /**
   * Owner consistency: after sync, every row of B that A owns and that A
   * sends to B holds A's value of the same global row.
   */
  lemma SyncTakesMasterValue(s: System, vA: seq<real>, vB: seq<real>, row: int)
    requires s.Valid() && s.GlobalRoundTrips()
    requires |vA| == s.ovA.numDomestic && |vB| == s.ovB.numDomestic
    requires 0 <= row < |vB| && row in s.RecvB() && s.ovB.masterRank(row) == s.a
    ensures 0 <= s.ovA.globalToDomestic(s.ovB.domesticToGlobal(row)) < |vA|
    ensures Step(s, FromMaster, vA, vB).1[row] == vA[s.ovA.globalToDomestic(s.ovB.domesticToGlobal(row))]
  {
    var recv := s.RecvB();
    var k := LastIndex(recv, row);
    assert k >= 0;
    MergeFromMasterAt(s.ovB, s.a, vB, recv, MessageAB(s, vA), row);
    assert s.ovB.domesticToGlobal(row) == s.GlobalsAB()[k];
    assert s.SendA()[k] == s.ovA.globalToDomestic(s.GlobalsAB()[k]);
  }

  /** After sync, a row of B whose master is not A keeps B's value. */
  lemma SyncKeepsOthersRows(s: System, vA: seq<real>, vB: seq<real>, row: int)
    requires s.Valid() && |vA| == s.ovA.numDomestic && |vB| == s.ovB.numDomestic
    requires 0 <= row < |vB| && s.ovB.masterRank(row) != s.a
    ensures Step(s, FromMaster, vA, vB).1[row] == vB[row]
  {
    MergeFromMasterAt(s.ovB, s.a, vB, s.RecvB(), MessageAB(s, vA), row);
  }

  /**
   * sync is idempotent: when both processes agree on the owners, a second
   * synchronisation leaves both vectors as the first one left them.
   */
  lemma SyncIdempotent(s: System, vA: seq<real>, vB: seq<real>)
    requires s.Valid() && s.MastersAgree()
    requires |vA| == s.ovA.numDomestic && |vB| == s.ovB.numDomestic
    ensures var r := Step(s, FromMaster, vA, vB);
      Step(s, FromMaster, r.0, r.1) == r
  {
    var r := Step(s, FromMaster, vA, vB);
    // the values that matter to B are those of rows A owns, which A's merge does not touch
    forall j | 0 <= j < |s.RecvB()| && s.ovB.masterRank(s.RecvB()[j]) == s.a
      ensures MessageAB(s, r.0)[j] == MessageAB(s, vA)[j]
    {
      MergeFromMasterAt(s.ovA, s.b, vA, s.RecvA(), MessageBA(s, vB), s.SendA()[j]);
    }
    forall j | 0 <= j < |s.RecvA()| && s.ovA.masterRank(s.RecvA()[j]) == s.b
      ensures MessageBA(s, r.1)[j] == MessageBA(s, vB)[j]
    {
      MergeFromMasterAt(s.ovB, s.a, vB, s.RecvB(), MessageAB(s, vA), s.SendB()[j]);
    }
    MergeFromMasterDependsOnOwned(s.ovA, s.b, r.0, s.RecvA(), MessageBA(s, r.1), MessageBA(s, vB));
    MergeFromMasterDependsOnOwned(s.ovB, s.a, r.1, s.RecvB(), MessageAB(s, r.0), MessageAB(s, vA));
    MergeFromMasterIdempotent(s.ovA, s.b, vA, s.RecvA(), MessageBA(s, vB));
    MergeFromMasterIdempotent(s.ovB, s.a, vB, s.RecvB(), MessageAB(s, vA));
  }

  /** A row listed exactly once contributes exactly its one value. */
  lemma {:induction false} ContributionSingle(idx: seq<int>, vals: seq<real>, k: int)
    requires |vals| == |idx| && 0 <= k < |idx|
    requires forall j :: 0 <= j < |idx| && j != k ==> idx[j] != idx[k]
    ensures Contribution(idx, vals, idx[k]) == vals[k]
  {
    var n := |idx| - 1;
    if n == k {
      ContributionAbsent(idx[..n], vals[..n], idx[k]);
    } else {
      ContributionSingle(idx[..n], vals[..n], k);
    }
  }

  /**
   * Border summation: a global row that lies on the border of both
   * processes, and that each plan lists once, ends up on both sides with
   * the sum of the two values it had before syncAddBorder.
   */
  lemma BorderRowsSum(s: System, vA: seq<real>, vB: seq<real>, i: int, j: int)
    requires s.Valid() && |vA| == s.ovA.numDomestic && |vB| == s.ovB.numDomestic
    requires 0 <= i < |s.RecvA()| && 0 <= j < |s.RecvB()| && s.GlobalsBA()[i] == s.GlobalsAB()[j]
    requires s.ovA.isBorderWith(s.RecvA()[i], s.b) && s.ovB.isBorderWith(s.RecvB()[j], s.a)
    requires forall m :: 0 <= m < |s.RecvA()| && m != i ==> s.RecvA()[m] != s.RecvA()[i]
    requires forall m :: 0 <= m < |s.RecvB()| && m != j ==> s.RecvB()[m] != s.RecvB()[j]
    ensures var r := Step(s, AddBorder, vA, vB);
      && r.0[s.RecvA()[i]] == vA[s.RecvA()[i]] + vB[s.RecvB()[j]]
      && r.1[s.RecvB()[j]] == vB[s.RecvB()[j]] + vA[s.RecvA()[i]]
  {
    var rowA, rowB := s.RecvA()[i], s.RecvB()[j];
    assert s.SendB()[i] == rowB && s.SendA()[j] == rowA;
    assert LastIndex(s.RecvA(), rowA) == i;
    assert LastIndex(s.RecvB(), rowB) == j;
    MergeAddBorderAt(s.ovA, s.b, vA, s.RecvA(), MessageBA(s, vB), rowA);
    MergeAddBorderAt(s.ovB, s.a, vB, s.RecvB(), MessageAB(s, vA), rowB);
    ContributionSingle(s.RecvA(), MessageBA(s, vB), i);
    ContributionSingle(s.RecvB(), MessageAB(s, vA), j);
  }

  /**
   * The other half of syncAddBorder's promise: a row of B that is not on
   * B's border with A, that A masters and that A sends to B, takes A's
   * value of the same global row.
   */
  lemma SyncAddBorderTakesMasterValue(s: System, vA: seq<real>, vB: seq<real>, row: int)
    requires s.Valid() && s.GlobalRoundTrips()
    requires |vA| == s.ovA.numDomestic && |vB| == s.ovB.numDomestic
    requires 0 <= row < |vB| && row in s.RecvB() && !s.ovB.isBorderWith(row, s.a)
    requires s.ovB.masterRank(row) == s.a
    ensures 0 <= s.ovA.globalToDomestic(s.ovB.domesticToGlobal(row)) < |vA|
    ensures Step(s, AddBorder, vA, vB).1[row] == vA[s.ovA.globalToDomestic(s.ovB.domesticToGlobal(row))]
  {
    var recv := s.RecvB();
    var k := LastIndex(recv, row);
    assert k >= 0;
    MergeAddBorderAt(s.ovB, s.a, vB, recv, MessageAB(s, vA), row);
    assert s.ovB.domesticToGlobal(row) == s.GlobalsAB()[k];
    assert s.SendA()[k] == s.ovA.globalToDomestic(s.GlobalsAB()[k]);
  }

  /**
   * receiveAddBorder_ as written does not test the master: a non-border
   * row of B that B itself masters, but that A lists, is overwritten by
   * A's value, so B loses its own value whenever the two differ.
   */
  lemma SyncAddBorderOverwritesMasteredRow(s: System, vA: seq<real>, vB: seq<real>, row: int)
    requires s.Valid() && s.GlobalRoundTrips()
    requires |vA| == s.ovA.numDomestic && |vB| == s.ovB.numDomestic
    requires 0 <= row < |vB| && row in s.RecvB() && !s.ovB.isBorderWith(row, s.a)
    requires s.ovB.masterRank(row) == s.b
    ensures 0 <= s.ovA.globalToDomestic(s.ovB.domesticToGlobal(row)) < |vA|
    ensures var theirs := vA[s.ovA.globalToDomestic(s.ovB.domesticToGlobal(row))];
      Step(s, AddBorder, vA, vB).1[row] == theirs && (theirs != vB[row] ==> Step(s, AddBorder, vA, vB).1[row] != vB[row])
  {
    var recv := s.RecvB();
    var k := LastIndex(recv, row);
    assert k >= 0;
    MergeAddBorderAt(s.ovB, s.a, vB, recv, MessageAB(s, vA), row);
    assert s.ovB.domesticToGlobal(row) == s.GlobalsAB()[k];
    assert s.SendA()[k] == s.ovA.globalToDomestic(s.GlobalsAB()[k]);
  }

  /**
   * Two vectors bound to the processes of `s` synchronised against each
   * other: both send phases run before either receive phase.
   */
  method SyncPair(s: System, policy: Policy, x: OverlappingBlockVector, y: OverlappingBlockVector)
    requires s.Valid() && x.Valid() && y.Valid() && x.data != y.data
    requires x.overlap == s.ovA && y.overlap == s.ovB
    requires x.indicesSend[s.b] == s.SendA() && x.indicesRecv[s.b] == s.RecvA()
    requires y.indicesSend[s.a] == s.SendB() && y.indicesRecv[s.a] == s.RecvB()
    modifies x.data, y.data
    ensures (x.data[..], y.data[..]) == Step(s, policy, old(x.data[..]), old(y.data[..]))
  {
    var fromA := x.SendAll();
    var fromB := y.SendAll();
    assert s.b in x.overlap.peerSet && s.a in y.overlap.peerSet;
    var incomingA := map[s.b := fromB[s.a]];
    var incomingB := map[s.a := fromA[s.b]];
    SyncSpecSinglePeer(s.ovA, policy, x.data[..], s.b, x.indicesRecv, incomingA);
    x.ReceiveAll(policy, incomingA);
    SyncSpecSinglePeer(s.ovB, policy, y.data[..], s.a, y.indicesRecv, incomingB);
    y.ReceiveAll(policy, incomingB);
  }
}
