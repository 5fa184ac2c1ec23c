/** Collection of the device's replies. The input port is polled without
    blocking; each poll either yields one MIDI message, of any kind, or
    nothing. The polls are given as a finite sequence of their results. */
module Collector {
  import opened Results
  import opened Packing

  /** The messages among the poll results, in arrival order. */
  function Received(polls: seq<Option<seq<byte>>>): (r: seq<seq<byte>>)
    ensures |r| <= |polls|
    decreases |polls|
  {
    if |polls| == 0 then []
    else
      var last := polls[|polls| - 1];
      Received(polls[..|polls| - 1]) + (if last.Some? then [last.value] else [])
  }

  /** What a shorter run of polls receives comes first in what a longer run receives. */
  lemma {:induction false} ReceivedPrefix(polls: seq<Option<seq<byte>>>, i: nat)
    requires i <= |polls|
    ensures Received(polls[..i]) <= Received(polls)
    decreases |polls|
  {
    if i < |polls| {
      var shorter := polls[..|polls| - 1];
      assert shorter[..i] == polls[..i];
      ReceivedPrefix(shorter, i);
    } else {
      assert polls[..i] == polls;
    }
  }

  /** Every message received was yielded by some poll, and every poll that
      yielded a message contributes it. */
  lemma {:induction false} ReceivedCount(polls: seq<Option<seq<byte>>>)
    ensures |Received(polls)| == |set i | 0 <= i < |polls| && polls[i].Some?|
    decreases |polls|
  {
    if |polls| > 0 {
      var n := |polls| - 1;
      var shorter := polls[..n];
      ReceivedCount(shorter);
      var before := set i | 0 <= i < n && shorter[i].Some?;
      var all := set i | 0 <= i < |polls| && polls[i].Some?;
      if polls[n].Some? {
        assert all == before + {n};
      } else {
        assert all == before;
      }
    }
  }

  /** The tool's collection loop: poll until `n` messages have arrived.
      `complete` is false when the polls run out first; the tool itself
      would go on polling for ever. */
  method Collect(polls: seq<Option<seq<byte>>>, n: nat) returns (patches: seq<seq<byte>>, complete: bool)
    ensures complete <==> n <= |Received(polls)|
    ensures complete ==> patches == Received(polls)[..n]
    ensures !complete ==> patches == Received(polls)
  {
    patches := [];
    var i := 0;
    while |patches| < n && i < |polls|
      invariant i <= |polls|
      invariant patches == Received(polls[..i])
      invariant |patches| <= n
    {
      var sysex := polls[i];
      assert polls[..i + 1][..i] == polls[..i];
      if sysex.Some? {
        patches := patches + [sysex.value];
      }
      i := i + 1;
    }
    ReceivedPrefix(polls, i);
    if i == |polls| {
      assert polls[..i] == polls;
    }
    complete := |patches| >= n;
  }
}
