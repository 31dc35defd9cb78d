/** The search for the head of a task deque: a few direct looks, doubling steps, and a binary search. */
module HeadSearch {

  /** The linear scan: the first entry without a thief, or the end. */
  function FirstFree(thieves: seq<int>): (h: nat)
    ensures h <= |thieves|
    ensures forall k | 0 <= k < h :: thieves[k] != 0
    ensures h < |thieves| ==> thieves[h] == 0
  {
    if thieves == [] || thieves[0] == 0 then 0 else 1 + FirstFree(thieves[1..])
  }

  /** The entries in use come first. */
  predicate UsedFirst(thieves: seq<int>) {
    forall j, k | 0 <= j < k < |thieves| :: thieves[j] == 0 ==> thieves[k] == 0
  }

  /** Where an entry in use, or the start, meets a free entry, or the end. */
  predicate IsBoundary(thieves: seq<int>, h: nat) {
    h <= |thieves| && (h > 0 ==> thieves[h - 1] != 0) && (h < |thieves| ==> thieves[h] == 0)
  }

  /** When the entries in use come first, the only boundary is what the linear scan finds, ... */
  lemma {:induction false} BoundaryIsFirst(thieves: seq<int>, h: nat)
    requires UsedFirst(thieves) && IsBoundary(thieves, h)
    ensures h == FirstFree(thieves)
  {
    var f := FirstFree(thieves);
    if f < |thieves| { NotBeyond(thieves, f, h); }
  }

  lemma NotBeyond(thieves: seq<int>, f: nat, h: nat)
    requires UsedFirst(thieves) && f < |thieves| && thieves[f] == 0 && IsBoundary(thieves, h)
    ensures h <= f
  {}

  /** ... and when they do not, there is another boundary, which a search may find instead. */
  lemma {:induction false} OtherBoundary(thieves: seq<int>) returns (h: nat)
    requires !UsedFirst(thieves)
    ensures IsBoundary(thieves, h) && h > FirstFree(thieves)
  {
    var j, k :| 0 <= j < k < |thieves| && thieves[j] == 0 && thieves[k] != 0;
    h := k + 1 + FirstFree(thieves[k + 1..]);
    var rest := thieves[k + 1..];
    if h > k + 1 { assert thieves[h - 1] == rest[h - k - 2]; }
    if h < |thieves| { assert thieves[h] == rest[h - k - 1]; }
  }

  /** Never reads out of bounds and finds a boundary, whatever the entries are: the head of the deque, when the entries
      in use come first. */
  method GetHead(dq: array<int>) returns (head: nat)
    requires dq.Length >= 4
    ensures IsBoundary(dq[..], head)
    ensures UsedFirst(dq[..]) ==> head == FirstFree(dq[..])
  {
    head := FindBoundary(dq);
    if UsedFirst(dq[..]) { BoundaryIsFirst(dq[..], head); }
  }

  method FindBoundary(dq: array<int>) returns (head: nat)
    requires dq.Length >= 4
    ensures IsBoundary(dq[..], head)
  {
    if dq[0] == 0 { return 0; }
    if dq[1] == 0 { return 1; }
    if dq[2] == 0 { return 2; }
    if dq[3] == 0 { return 3; }

    var low, high := 2, dq.Length;
    while true
      invariant 2 <= low < high == dq.Length && dq[low] != 0
      decreases high - low
    {
      if low * 2 >= high {
        break;
      } else if dq[low * 2] == 0 {
        high := low * 2;
        break;
      } else {
        low := low * 2;
      }
    }

    while low < high
      invariant 2 <= low <= high <= dq.Length
      invariant high < dq.Length ==> dq[high] == 0
      invariant (low < high && dq[low] != 0) || dq[low - 1] != 0
    {
      var mid := low + (high - low) / 2;
      if dq[mid] == 0 {
        high := mid;
      } else {
        low := mid + 1;
      }
    }
    return low;
  }
}
