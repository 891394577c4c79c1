/**
  The 7-day horizon: the reference day and the six days after it, in the
  order the seeding loop inserts them, and getLastKey over that order.
 */
module Horizon {
  import opened TimeGrid

  const HorizonDays := 7

  /** The day keys ref, ref + 1, ..., ref + 6, in insertion order. */
  function HorizonKeys(ref: int): (keys: seq<int>)
    ensures |keys| == HorizonDays && keys[0] == ref
  {
    [ref, ref + 1, ref + 2, ref + 3, ref + 4, ref + 5, ref + 6]
  }

  /** The horizon holds exactly the days ref .. ref + 6, strictly increasing. */
  lemma HorizonDaysAre(ref: int)
    ensures |HorizonKeys(ref)| == HorizonDays
    ensures forall d :: d in HorizonKeys(ref) <==> ref <= d < ref + HorizonDays
    ensures forall i, j :: 0 <= i < j < |HorizonKeys(ref)| ==> HorizonKeys(ref)[i] < HorizonKeys(ref)[j]
  {
    forall d | ref <= d < ref + HorizonDays ensures d in HorizonKeys(ref) {
      assert HorizonKeys(ref)[d - ref] == d;
    }
  }

  /** The last key of an insertion-ordered key list (getLastKey). */
  function LastKey(keys: seq<int>): (k: int)
    requires |keys| > 0
    ensures k in keys
  {
    keys[|keys| - 1]
  }

  /** The last horizon key is the sixth day after the reference day. */
  lemma LastKeyOfHorizon(ref: int)
    ensures LastKey(HorizonKeys(ref)) == ref + HorizonDays - 1
  {
  }
}
