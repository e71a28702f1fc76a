/**
 * Value-level specification of the overlapping block vector: what the
 * local copy, the export, the send routine and the three receive-merge
 * policies do to a sequence of blocks, and what the communication plans
 * built at construction contain. The class OverlappingBlockVector is
 * proved against these functions; the lemmas here say what they mean.
 */
module BlockVectorSpec {
  import opened OverlapTopology
  import opened LastOccurrence

  /** The receive-merge policy of a synchronisation call. */
  datatype Policy =
    | FromMaster   // sync: overwrite a row only if the sender is its master
    | AddBorder    // syncAddBorder: add on rows bordering the sender, overwrite elsewhere
    | AddAlways    // syncAdd: add every received value

  predicate IndicesIn(idx: seq<int>, n: int) {
    forall i :: 0 <= i < |idx| ==> 0 <= idx[i] < n
  }

  /** a native vector of length n is long enough for every domestic row's native counterpart */
  predicate NativeFits(ov: Overlap, n: int) {
    forall r :: 0 <= r < ov.numDomestic ==> ov.domesticToNative(r) < n
  }

  /** a domestic vector of length n is long enough for every native row's domestic counterpart */
  predicate DomesticFits(ov: Overlap, n: int) {
    forall k :: 0 <= k < ov.numNative ==> ov.nativeToDomestic(k) < n
  }

  // ---------------------------------------------------------------------
  // Conversions between the native and the overlapping vector

  /** The local copy step of assign and assignAddBorder. */
  function LocalCopy(ov: Overlap, native: seq<real>): seq<real>
    requires NativeFits(ov, |native|)
  {
    seq(ov.numDomestic, r requires 0 <= r < ov.numDomestic =>
      if ov.domesticToNative(r) < 0 then 0.0 else native[ov.domesticToNative(r)])
  }

  /** assignTo: the native vector that a domestic vector projects to. */
  function Project(ov: Overlap, v: seq<real>): seq<real>
    requires DomesticFits(ov, |v|)
  {
    seq(ov.numNative, k requires 0 <= k < ov.numNative =>
      if ov.nativeToDomestic(k) < 0 then 0.0 else v[ov.nativeToDomestic(k)])
  }

  // ---------------------------------------------------------------------
  // Communication plans

  /** The global indices this process announces to `peer` during construction. */
  function AnnouncedIndices(ov: Overlap, peer: int): seq<int> {
    seq(ov.foreignOverlapSize(peer), i =>
      ov.domesticToGlobal(ov.foreignOverlapOffsetToDomesticIdx(peer, i)))
  }

  /** Global indices translated into this process's domestic numbering. */
  function Localize(ov: Overlap, globals: seq<int>): seq<int> {
    seq(|globals|, i requires 0 <= i < |globals| => ov.globalToDomestic(globals[i]))
  }

  /** The send plan for `peer`: the announced global indices, localised. */
  function SendPlan(ov: Overlap, peer: int): seq<int> {
    Localize(ov, AnnouncedIndices(ov, peer))
  }

  /** The values that go out to a peer: the blocks at the plan's rows, in plan order. */
  function Gather(v: seq<real>, idx: seq<int>): seq<real>
    requires IndicesIn(idx, |v|)
  {
    seq(|idx|, i requires 0 <= i < |idx| => v[idx[i]])
  }

  // ---------------------------------------------------------------------
  // Receiving

  /** The effect of one received value `x` for row `row` from `peer`. */
  function MergeRow(ov: Overlap, policy: Policy, peer: int, v: seq<real>, row: int, x: real): (w: seq<real>)
    requires 0 <= row < |v|
    ensures |w| == |v|
  {
    match policy
    case FromMaster => if ov.masterRank(row) == peer then v[row := x] else v
    case AddBorder => if ov.isBorderWith(row, peer) then v[row := v[row] + x] else v[row := x]
    case AddAlways => v[row := v[row] + x]
  }

  /** The receive loop: the values of one message merged in plan order. */
  function Merge(ov: Overlap, policy: Policy, peer: int, v: seq<real>, idx: seq<int>, vals: seq<real>): (w: seq<real>)
    requires |vals| == |idx| && IndicesIn(idx, |v|)
    ensures |w| == |v|
    decreases |idx|
  {
    if |idx| == 0 then v
    else
      var k := |idx| - 1;
      MergeRow(ov, policy, peer, Merge(ov, policy, peer, v, idx[..k], vals[..k]), idx[k], vals[k])
  }

  /** The sum of every value a message carries for `row`. */
  function Contribution(idx: seq<int>, vals: seq<real>, row: int): real
    requires |vals| == |idx|
    decreases |idx|
  {
    if |idx| == 0 then 0.0
    else
      var k := |idx| - 1;
      Contribution(idx[..k], vals[..k], row) + (if idx[k] == row then vals[k] else 0.0)
  }

  /** A row that a plan does not list receives nothing. */
  lemma {:induction false} ContributionAbsent(idx: seq<int>, vals: seq<real>, row: int)
    requires |vals| == |idx| && LastIndex(idx, row) < 0
    ensures Contribution(idx, vals, row) == 0.0
  {
    if |idx| > 0 {
      var k := |idx| - 1;
      ContributionAbsent(idx[..k], vals[..k], row);
    }
  }

  /** A row listed m times, always with the value c, accumulates m contributions of c. */
  lemma {:induction false} ContributionCounts(idx: seq<int>, vals: seq<real>, row: int, c: real)
    requires |vals| == |idx|
    requires forall j :: 0 <= j < |idx| && idx[j] == row ==> vals[j] == c
    ensures Contribution(idx, vals, row) == (Occurrences(idx, row) as real) * c
  {
    if |idx| > 0 {
      var k := |idx| - 1;
      ContributionCounts(idx[..k], vals[..k], row, c);
    }
  }

  function Occurrences(idx: seq<int>, row: int): nat
    decreases |idx|
  {
    if |idx| == 0 then 0
    else Occurrences(idx[..|idx| - 1], row) + (if idx[|idx| - 1] == row then 1 else 0)
  }

  /** receiveFromMaster_: a row takes the last value sent for it if the sender is its master. */
  lemma {:induction false} MergeFromMasterAt(ov: Overlap, peer: int, v: seq<real>, idx: seq<int>, vals: seq<real>, row: int)
    requires |vals| == |idx| && IndicesIn(idx, |v|) && 0 <= row < |v|
    ensures Merge(ov, FromMaster, peer, v, idx, vals)[row] ==
      if ov.masterRank(row) == peer && LastIndex(idx, row) >= 0 then vals[LastIndex(idx, row)] else v[row]
  {
    if |idx| > 0 {
      var k := |idx| - 1;
      MergeFromMasterAt(ov, peer, v, idx[..k], vals[..k], row);
    }
  }

  /** receiveAdd_: a row gains the sum of every value sent for it. */
  lemma {:induction false} MergeAddAt(ov: Overlap, peer: int, v: seq<real>, idx: seq<int>, vals: seq<real>, row: int)
    requires |vals| == |idx| && IndicesIn(idx, |v|) && 0 <= row < |v|
    ensures Merge(ov, AddAlways, peer, v, idx, vals)[row] == v[row] + Contribution(idx, vals, row)
  {
    if |idx| > 0 {
      var k := |idx| - 1;
      MergeAddAt(ov, peer, v, idx[..k], vals[..k], row);
    }
  }

  /**
   * receiveAddBorder_: a row bordering the sender gains the sum of its values;
   * any other listed row takes the last value sent for it; unlisted rows keep theirs.
   */
  lemma {:induction false} MergeAddBorderAt(ov: Overlap, peer: int, v: seq<real>, idx: seq<int>, vals: seq<real>, row: int)
    requires |vals| == |idx| && IndicesIn(idx, |v|) && 0 <= row < |v|
    ensures Merge(ov, AddBorder, peer, v, idx, vals)[row] ==
      if LastIndex(idx, row) < 0 then v[row]
      else if ov.isBorderWith(row, peer) then v[row] + Contribution(idx, vals, row)
      else vals[LastIndex(idx, row)]
  {
    if |idx| > 0 {
      var k := |idx| - 1;
      MergeAddBorderAt(ov, peer, v, idx[..k], vals[..k], row);
      if LastIndex(idx[..k], row) < 0 {
        ContributionAbsent(idx[..k], vals[..k], row);
      }
    }
  }

  /** The result of receiving with FromMaster depends only on the values for rows the sender owns. */
  lemma MergeFromMasterDependsOnOwned(ov: Overlap, peer: int, v: seq<real>, idx: seq<int>, vals: seq<real>, vals': seq<real>)
    requires |vals| == |idx| && |vals'| == |idx| && IndicesIn(idx, |v|)
    requires forall j :: 0 <= j < |idx| && ov.masterRank(idx[j]) == peer ==> vals[j] == vals'[j]
    ensures Merge(ov, FromMaster, peer, v, idx, vals) == Merge(ov, FromMaster, peer, v, idx, vals')
  {
    var w, w' := Merge(ov, FromMaster, peer, v, idx, vals), Merge(ov, FromMaster, peer, v, idx, vals');
    forall row | 0 <= row < |v| ensures w[row] == w'[row] {
      MergeFromMasterAt(ov, peer, v, idx, vals, row);
      MergeFromMasterAt(ov, peer, v, idx, vals', row);
    }
  }

  /** Receiving the same message twice with FromMaster changes nothing the second time. */
  lemma MergeFromMasterIdempotent(ov: Overlap, peer: int, v: seq<real>, idx: seq<int>, vals: seq<real>)
    requires |vals| == |idx| && IndicesIn(idx, |v|)
    ensures var w := Merge(ov, FromMaster, peer, v, idx, vals);
      Merge(ov, FromMaster, peer, w, idx, vals) == w
  {
    var w := Merge(ov, FromMaster, peer, v, idx, vals);
    var w2 := Merge(ov, FromMaster, peer, w, idx, vals);
    forall row | 0 <= row < |v| ensures w2[row] == w[row] {
      MergeFromMasterAt(ov, peer, v, idx, vals, row);
      MergeFromMasterAt(ov, peer, w, idx, vals, row);
    }
  }

  // ---------------------------------------------------------------------
  // A whole synchronisation call

  /** Every peer has a receive plan inside the vector and a message of the plan's length. */
  predicate PlansFit(peers: seq<int>, recv: map<int, seq<int>>, incoming: map<int, seq<real>>, n: int) {
    forall p :: p in peers ==>
      p in recv && p in incoming && |incoming[p]| == |recv[p]| && IndicesIn(recv[p], n)
  }

  /** sync, syncAdd, syncAddBorder after the send phase: the messages merged peer by peer. */
  function SyncSpec(ov: Overlap, policy: Policy, v: seq<real>, peers: seq<int>,
                    recv: map<int, seq<int>>, incoming: map<int, seq<real>>): (w: seq<real>)
    requires PlansFit(peers, recv, incoming, |v|)
    ensures |w| == |v|
    decreases |peers|
  {
    if |peers| == 0 then v
    else
      var k := |peers| - 1;
      var p := peers[k];
      assert PlansFit(peers[..k], recv, incoming, |v|) by {
        forall q | q in peers[..k] ensures q in peers { }
      }
      Merge(ov, policy, p, SyncSpec(ov, policy, v, peers[..k], recv, incoming), recv[p], incoming[p])
  }

  /** A FromMaster synchronisation never touches a row whose master is not a peer. */
  lemma {:induction false} SyncKeepsRowsOfNonPeers(ov: Overlap, v: seq<real>, peers: seq<int>,
                                                  recv: map<int, seq<int>>, incoming: map<int, seq<real>>, row: int)
    requires PlansFit(peers, recv, incoming, |v|) && 0 <= row < |v|
    requires ov.masterRank(row) !in peers
    ensures SyncSpec(ov, FromMaster, v, peers, recv, incoming)[row] == v[row]
  {
    if |peers| > 0 {
      var k := |peers| - 1;
      var p := peers[k];
      assert PlansFit(peers[..k], recv, incoming, |v|) by {
        forall q | q in peers[..k] ensures q in peers { }
      }
      assert ov.masterRank(row) !in peers[..k];
      SyncKeepsRowsOfNonPeers(ov, v, peers[..k], recv, incoming, row);
      MergeFromMasterAt(ov, p, SyncSpec(ov, FromMaster, v, peers[..k], recv, incoming), recv[p], incoming[p], row);
    }
  }

  /**
   * Round trip: assign followed by assignTo gives back the native vector, when every
   * native row has a domestic counterpart that translates back to it and is owned by
   * no peer (a row of the native vector is one this process holds authoritatively).
   */
  lemma AssignRoundTrip(ov: Overlap, native: seq<real>, recv: map<int, seq<int>>, incoming: map<int, seq<real>>)
    requires ov.Valid() && |native| == ov.numNative
    requires PlansFit(ov.peerSet, recv, incoming, ov.numDomestic)
    requires forall k :: 0 <= k < ov.numNative ==>
      0 <= ov.nativeToDomestic(k) && ov.domesticToNative(ov.nativeToDomestic(k)) == k
    requires forall k :: 0 <= k < ov.numNative ==> ov.masterRank(ov.nativeToDomestic(k)) !in ov.peerSet
    ensures Project(ov, SyncSpec(ov, FromMaster, LocalCopy(ov, native), ov.peerSet, recv, incoming)) == native
  {
    var v := LocalCopy(ov, native);
    var w := SyncSpec(ov, FromMaster, v, ov.peerSet, recv, incoming);
    var back := Project(ov, w);
    forall k | 0 <= k < ov.numNative ensures back[k] == native[k] {
      SyncKeepsRowsOfNonPeers(ov, v, ov.peerSet, recv, incoming, ov.nativeToDomestic(k));
    }
  }
}
