/**
 * The read-only partition topology that an overlapping block vector is
 * bound to: the sizes of the domestic and native index spaces, the
 * translations between the three numberings (native, domestic, global),
 * the set of peer processes and the ownership of every domestic row.
 *
 * Every query is a total function; the Overlap queries that may find no
 * counterpart for a row (domesticToNative, nativeToDomestic,
 * globalToDomestic) return a negative sentinel then.
 */
module OverlapTopology {

  datatype Overlap = Overlap(
    numDomestic: nat,
    numNative: nat,
    domesticToNative: int -> int,
    nativeToDomestic: int -> int,
    domesticToGlobal: int -> int,
    globalToDomestic: int -> int,
    masterRank: int -> int,
    isBorderWith: (int, int) -> bool,
    /** the peer ranks in ascending order (the iteration order of a std::set) */
    peerSet: seq<int>,
    foreignOverlapSize: int -> nat,
    foreignOverlapOffsetToDomesticIdx: (int, int) -> int)
  {
    /** peers are listed once each, in ascending rank order */
    ghost predicate PeersAscending() {
      forall i, j :: 0 <= i < j < |peerSet| ==> peerSet[i] < peerSet[j]
    }

    /** the translation tables stay inside the index spaces they point into */
    ghost predicate TablesInRange() {
      && (forall r :: 0 <= r < numDomestic ==> domesticToNative(r) < numNative)
      && (forall n :: 0 <= n < numNative ==> nativeToDomestic(n) < numDomestic)
      && (forall p, i :: p in peerSet && 0 <= i < foreignOverlapSize(p) ==>
            0 <= foreignOverlapOffsetToDomesticIdx(p, i) < numDomestic)
    }

    ghost predicate Valid() {
      PeersAscending() && TablesInRange()
    }
  }
}
