/** Runs of set bits in a validity bitmap. */
module BitRuns {
  import opened Basics

  /** Without a bitmap every slot is valid. */
  predicate IsValid(valid: Option<seq<bool>>, i: int) {
    valid.None? || (0 <= i < |valid.value| && valid.value[i])
  }

  /** The next maximal run of set bits at or after a position; its length is 0 when there is none. */
  method NextRun(valid: seq<bool>, from: nat) returns (pos: nat, length: nat)
    requires from <= |valid|
    ensures from <= pos <= pos + length <= |valid|
    ensures forall i :: from <= i < pos ==> !valid[i]
    ensures forall i :: pos <= i < pos + length ==> valid[i]
    ensures pos + length < |valid| ==> !valid[pos + length]
    ensures length == 0 ==> pos == |valid|
  {
    pos := from;
    while pos < |valid| && !valid[pos]
      invariant from <= pos <= |valid| && forall i :: from <= i < pos ==> !valid[i]
    {
      pos := pos + 1;
    }
    length := 0;
    while pos + length < |valid| && valid[pos + length]
      invariant pos + length <= |valid| && forall i :: pos <= i < pos + length ==> valid[i]
    {
      length := length + 1;
    }
  }
}
