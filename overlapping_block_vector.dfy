/**
 * An overlap-aware block vector: one block per domestic row of the
 * process, with per-peer send and receive plans built once at
 * construction. The message-passing transport is not modelled: the
 * index lists a peer announces during construction and the value
 * messages a peer sends during a synchronisation are parameters, and
 * the messages this process sends are results.
 */
module OverlappingBlockVector {
  import opened OverlapTopology
  import opened BlockVectorSpec

  class OverlappingBlockVector {
    const overlap: Overlap
    /** the blocks, one per domestic row */
    const data: array<real>
    /** peer rank -> domestic rows whose values are sent, in message order */
    var indicesSend: map<int, seq<int>>
    /** peer rank -> domestic rows the received values are merged into, in message order */
    var indicesRecv: map<int, seq<int>>

    ghost predicate Valid()
      reads this
    {
      && overlap.Valid()
      && data.Length == overlap.numDomestic
      && (forall p :: p in overlap.peerSet ==>
            && p in indicesSend && IndicesIn(indicesSend[p], data.Length)
            && p in indicesRecv && IndicesIn(indicesRecv[p], data.Length))
    }

    /** the current blocks */
    ghost function Blocks(): seq<real>
      reads this, data
    {
      data[..]
    }

    /**
     * Binds the vector to `ov` and builds the communication plans;
     * `announced[p]` is the list of global indices peer p sends during
     * the handshake. createBuffers_ does not check the translated
     * indices, so they are required to be domestic rows.
     */
    constructor (ov: Overlap, announced: map<int, seq<int>>)
      requires ov.Valid()
      requires forall p :: p in ov.peerSet ==> IndicesIn(SendPlan(ov, p), ov.numDomestic)
      requires forall p :: p in ov.peerSet ==> p in announced && IndicesIn(Localize(ov, announced[p]), ov.numDomestic)
      ensures Valid() && fresh(data) && overlap == ov
      ensures forall p :: p in ov.peerSet ==> indicesSend[p] == SendPlan(ov, p)
      ensures forall p :: p in ov.peerSet ==> indicesRecv[p] == Localize(ov, announced[p])
    {
      overlap := ov;
      data := new real[ov.numDomestic];
      indicesSend, indicesRecv := map[], map[];
      new;
      CreateBuffers(announced);
    }

    /**
     * createBuffers_: announce the global indices of each peer's foreign
     * overlap, translate what each peer announces, then translate the
     * own send buffers from global to domestic indices in place.
     */
    method CreateBuffers(announced: map<int, seq<int>>)
      requires overlap.Valid() && data.Length == overlap.numDomestic
      requires forall p :: p in overlap.peerSet ==> IndicesIn(SendPlan(overlap, p), overlap.numDomestic)
      requires forall p :: p in overlap.peerSet ==> p in announced && IndicesIn(Localize(overlap, announced[p]), overlap.numDomestic)
      modifies this
      ensures Valid()
      ensures forall p :: p in overlap.peerSet ==> indicesSend[p] == SendPlan(overlap, p)
      ensures forall p :: p in overlap.peerSet ==> indicesRecv[p] == Localize(overlap, announced[p])
    {
      // fill the send buffers with global indices (they are sent to the peers)
      indicesSend := AnnounceIndices();
      // receive the peers' global indices and translate them
      indicesRecv := TranslatePlans(announced);
      // once the sends are complete, translate the send buffers in place
      indicesSend := TranslatePlans(indicesSend);
    }

    /** the send buffers of createBuffers_ before translation: global indices */
    method AnnounceIndices() returns (globals: map<int, seq<int>>)
      ensures forall p :: p in overlap.peerSet ==> p in globals && globals[p] == AnnouncedIndices(overlap, p)
    {
      var peers := overlap.peerSet;
      globals := map[];
      var k := 0;
      while k < |peers|
        invariant 0 <= k <= |peers|
        invariant forall j :: 0 <= j < k ==> peers[j] in globals && globals[peers[j]] == AnnouncedIndices(overlap, peers[j])
      {
        var p := peers[k];
        var numEntries := overlap.foreignOverlapSize(p);
        var buf: seq<int> := [];
        var i := 0;
        while i < numEntries
          invariant 0 <= i <= numEntries
          invariant buf == AnnouncedIndices(overlap, p)[..i]
        {
          buf := buf + [overlap.domesticToGlobal(overlap.foreignOverlapOffsetToDomesticIdx(p, i))];
          i := i + 1;
        }
        globals := globals[p := buf];
        k := k + 1;
      }
    }

    /** every peer's buffer of global indices translated to domestic ones */
    method TranslatePlans(globals: map<int, seq<int>>) returns (plans: map<int, seq<int>>)
      requires forall p :: p in overlap.peerSet ==> p in globals
      ensures forall p :: p in overlap.peerSet ==> p in plans && plans[p] == Localize(overlap, globals[p])
    {
      var peers := overlap.peerSet;
      plans := map[];
      var k := 0;
      while k < |peers|
        invariant 0 <= k <= |peers|
        invariant forall j :: 0 <= j < k ==>
          peers[j] in globals && peers[j] in plans && plans[peers[j]] == Localize(overlap, globals[peers[j]])
      {
        var p := peers[k];
        assert p in globals;
        var buf := TranslateInPlace(globals[p]);
        plans := plans[p := buf];
        k := k + 1;
      }
    }

    /** the in-place loop that rewrites a buffer of global indices as domestic ones */
    method TranslateInPlace(globals: seq<int>) returns (buf: seq<int>)
      ensures buf == Localize(overlap, globals)
    {
      buf := globals;
      var i := 0;
      while i < |buf|
        invariant 0 <= i <= |buf| == |globals|
        invariant forall j :: 0 <= j < i ==> buf[j] == overlap.globalToDomestic(globals[j])
        invariant forall j :: i <= j < |buf| ==> buf[j] == globals[j]
      {
        buf := buf[i := overlap.globalToDomestic(buf[i])];
        i := i + 1;
      }
    }

    /** the local copy step shared by assign and assignAddBorder */
    method CopyFromNative(native: seq<real>)
      requires Valid() && NativeFits(overlap, |native|)
      modifies data
      ensures data[..] == LocalCopy(overlap, native)
    {
      var r := 0;
      while r < data.Length
        invariant 0 <= r <= data.Length
        invariant forall j :: 0 <= j < r ==> data[j] == LocalCopy(overlap, native)[j]
      {
        var nativeRowIdx := overlap.domesticToNative(r);
        if nativeRowIdx < 0 {
          data[r] := 0.0;
        } else {
          data[r] := native[nativeRowIdx];
        }
        r := r + 1;
      }
    }

    /**
     * assign: copy from the native vector, zero the pure overlap rows,
     * then take each overlap row from its master (sync).
     */
    method Assign(native: seq<real>, incoming: map<int, seq<real>>) returns (outgoing: map<int, seq<real>>)
      requires Valid() && NativeFits(overlap, |native|)
      requires PlansFit(overlap.peerSet, indicesRecv, incoming, data.Length)
      modifies data
      ensures SentAll(outgoing, LocalCopy(overlap, native))
      ensures data[..] == SyncSpec(overlap, FromMaster, LocalCopy(overlap, native), overlap.peerSet, indicesRecv, incoming)
    {
      CopyFromNative(native);
      outgoing := Synchronize(FromMaster, incoming);
    }

    /**
     * assignAddBorder: the same local copy, then sum the border rows and
     * overwrite the other overlap rows (syncAddBorder).
     */
    method AssignAddBorder(native: seq<real>, incoming: map<int, seq<real>>) returns (outgoing: map<int, seq<real>>)
      requires Valid() && NativeFits(overlap, |native|)
      requires PlansFit(overlap.peerSet, indicesRecv, incoming, data.Length)
      modifies data
      ensures SentAll(outgoing, LocalCopy(overlap, native))
      ensures data[..] == SyncSpec(overlap, AddBorder, LocalCopy(overlap, native), overlap.peerSet, indicesRecv, incoming)
    {
      CopyFromNative(native);
      outgoing := Synchronize(AddBorder, incoming);
    }

    /**
     * assignTo: the native vector of length numNative whose entry k is
     * the block of row nativeToDomestic(k), or zero where there is none.
     */
    method AssignTo() returns (native: seq<real>)
      requires Valid()
      ensures |native| == overlap.numNative
      ensures forall k :: 0 <= k < overlap.numNative ==>
        native[k] == if overlap.nativeToDomestic(k) < 0 then 0.0 else data[overlap.nativeToDomestic(k)]
    {
      native := [];
      var k := 0;
      while k < overlap.numNative
        invariant 0 <= k <= overlap.numNative && |native| == k
        invariant forall j :: 0 <= j < k ==>
          native[j] == if overlap.nativeToDomestic(j) < 0 then 0.0 else data[overlap.nativeToDomestic(j)]
      {
        var domRowIdx := overlap.nativeToDomestic(k);
        if domRowIdx < 0 {
          native := native + [0.0];
        } else {
          native := native + [data[domRowIdx]];
        }
        k := k + 1;
      }
    }

    /** sync: overlap rows take the values of their master processes */
    method Sync(incoming: map<int, seq<real>>) returns (outgoing: map<int, seq<real>>)
      requires Valid() && PlansFit(overlap.peerSet, indicesRecv, incoming, data.Length)
      modifies data
      ensures SentAll(outgoing, old(data[..]))
      ensures data[..] == SyncSpec(overlap, FromMaster, old(data[..]), overlap.peerSet, indicesRecv, incoming)
    {
      outgoing := Synchronize(FromMaster, incoming);
    }

    /** syncAdd: every received value is added to its row */
    method SyncAdd(incoming: map<int, seq<real>>) returns (outgoing: map<int, seq<real>>)
      requires Valid() && PlansFit(overlap.peerSet, indicesRecv, incoming, data.Length)
      modifies data
      ensures SentAll(outgoing, old(data[..]))
      ensures data[..] == SyncSpec(overlap, AddAlways, old(data[..]), overlap.peerSet, indicesRecv, incoming)
    {
      outgoing := Synchronize(AddAlways, incoming);
    }

    /** syncAddBorder: border rows are summed, the other received rows overwritten */
    method SyncAddBorder(incoming: map<int, seq<real>>) returns (outgoing: map<int, seq<real>>)
      requires Valid() && PlansFit(overlap.peerSet, indicesRecv, incoming, data.Length)
      modifies data
      ensures SentAll(outgoing, old(data[..]))
      ensures data[..] == SyncSpec(overlap, AddBorder, old(data[..]), overlap.peerSet, indicesRecv, incoming)
    {
      outgoing := Synchronize(AddBorder, incoming);
    }

    /** what every peer was sent: the blocks of `v` at that peer's send plan */
    ghost predicate SentAll(outgoing: map<int, seq<real>>, v: seq<real>)
      reads this
      requires Valid() && |v| == data.Length
    {
      && (forall p :: p in outgoing <==> p in overlap.peerSet)
      && (forall p :: p in overlap.peerSet ==> outgoing[p] == Gather(v, indicesSend[p]))
    }

    /**
     * The three synchronisation calls: send to every peer first, then
     * receive from each peer in peerSet order with the given policy.
     */
    method Synchronize(policy: Policy, incoming: map<int, seq<real>>) returns (outgoing: map<int, seq<real>>)
      requires Valid() && PlansFit(overlap.peerSet, indicesRecv, incoming, data.Length)
      modifies data
      ensures SentAll(outgoing, old(data[..]))
      ensures data[..] == SyncSpec(overlap, policy, old(data[..]), overlap.peerSet, indicesRecv, incoming)
    {
      outgoing := SendAll();
      ReceiveAll(policy, incoming);
    }

    /** the send phase of a synchronisation */
    method SendAll() returns (outgoing: map<int, seq<real>>)
      requires Valid()
      ensures SentAll(outgoing, data[..])
    {
      var peers := overlap.peerSet;
      outgoing := map[];
      var k := 0;
      while k < |peers|
        invariant 0 <= k <= |peers|
        invariant forall p :: p in outgoing <==> p in peers[..k]
        invariant forall p :: p in peers[..k] ==> outgoing[p] == Gather(data[..], indicesSend[p])
      {
        var p := peers[k];
        var values := SendEntries(p);
        outgoing := outgoing[p := values];
        assert peers[..k + 1] == peers[..k] + [p];
        k := k + 1;
      }
      assert peers[..k] == peers;
    }

    /** the receive phase of a synchronisation */
    method ReceiveAll(policy: Policy, incoming: map<int, seq<real>>)
      requires Valid() && PlansFit(overlap.peerSet, indicesRecv, incoming, data.Length)
      modifies data
      ensures data[..] == SyncSpec(overlap, policy, old(data[..]), overlap.peerSet, indicesRecv, incoming)
    {
      var peers := overlap.peerSet;
      var k := 0;
      while k < |peers|
        invariant 0 <= k <= |peers|
        invariant PlansFit(peers[..k], indicesRecv, incoming, data.Length)
        invariant data[..] == SyncSpec(overlap, policy, old(data[..]), peers[..k], indicesRecv, incoming)
      {
        var p := peers[k];
        assert peers[..k + 1] == peers[..k] + [p];
        assert peers[..k + 1][..k] == peers[..k];
        match policy {
          case FromMaster => ReceiveFromMaster(p, incoming[p]);
          case AddBorder => ReceiveAddBorder(p, incoming[p]);
          case AddAlways => ReceiveAdd(p, incoming[p]);
        }
        k := k + 1;
      }
      assert peers[..k] == peers;
    }

    /** sendEntries_: the blocks at the peer's send plan, in plan order */
    method SendEntries(peer: int) returns (values: seq<real>)
      requires Valid() && peer in overlap.peerSet
      ensures |values| == |indicesSend[peer]|
      ensures forall i :: 0 <= i < |values| ==> values[i] == data[indicesSend[peer][i]]
    {
      var indices := indicesSend[peer];
      values := [];
      var i := 0;
      while i < |indices|
        invariant 0 <= i <= |indices| && |values| == i
        invariant forall j :: 0 <= j < i ==> values[j] == data[indices[j]]
      {
        values := values + [data[indices[i]]];
        i := i + 1;
      }
    }

    /** receiveFromMaster_: overwrite a listed row only if `peer` is its master */
    method ReceiveFromMaster(peer: int, values: seq<real>)
      requires Valid() && peer in overlap.peerSet && |values| == |indicesRecv[peer]|
      modifies data
      ensures data[..] == Merge(overlap, FromMaster, peer, old(data[..]), indicesRecv[peer], values)
    {
      var indices := indicesRecv[peer];
      var j := 0;
      while j < |indices|
        invariant 0 <= j <= |indices|
        invariant data[..] == Merge(overlap, FromMaster, peer, old(data[..]), indices[..j], values[..j])
      {
        var domRowIdx := indices[j];
        assert indices[..j + 1][..j] == indices[..j] && values[..j + 1][..j] == values[..j];
        if overlap.masterRank(domRowIdx) == peer {
          data[domRowIdx] := values[j];
        }
        j := j + 1;
      }
      assert indices[..j] == indices && values[..j] == values;
    }

    /** receiveAddBorder_: add on rows bordering `peer`, overwrite the other listed rows */
    method ReceiveAddBorder(peer: int, values: seq<real>)
      requires Valid() && peer in overlap.peerSet && |values| == |indicesRecv[peer]|
      modifies data
      ensures data[..] == Merge(overlap, AddBorder, peer, old(data[..]), indicesRecv[peer], values)
    {
      var indices := indicesRecv[peer];
      var j := 0;
      while j < |indices|
        invariant 0 <= j <= |indices|
        invariant data[..] == Merge(overlap, AddBorder, peer, old(data[..]), indices[..j], values[..j])
      {
        var domRowIdx := indices[j];
        assert indices[..j + 1][..j] == indices[..j] && values[..j + 1][..j] == values[..j];
        if overlap.isBorderWith(domRowIdx, peer) {
          data[domRowIdx] := data[domRowIdx] + values[j];
        } else {
          data[domRowIdx] := values[j];
        }
        j := j + 1;
      }
      assert indices[..j] == indices && values[..j] == values;
    }

    /** receiveAdd_: add every received value to its row */
    method ReceiveAdd(peer: int, values: seq<real>)
      requires Valid() && peer in overlap.peerSet && |values| == |indicesRecv[peer]|
      modifies data
      ensures data[..] == Merge(overlap, AddAlways, peer, old(data[..]), indicesRecv[peer], values)
    {
      var indices := indicesRecv[peer];
      var j := 0;
      while j < |indices|
        invariant 0 <= j <= |indices|
        invariant data[..] == Merge(overlap, AddAlways, peer, old(data[..]), indices[..j], values[..j])
      {
        var domRowIdx := indices[j];
        assert indices[..j + 1][..j] == indices[..j] && values[..j + 1][..j] == values[..j];
        data[domRowIdx] := data[domRowIdx] + values[j];
        j := j + 1;
      }
      assert indices[..j] == indices && values[..j] == values;
    }
  }
}
