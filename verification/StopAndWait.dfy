/** What a stop-and-wait sender may transmit, and what its peer makes of it. */
module StopAndWait {
  import opened Octets
  import opened Chains

  /** One segment handed to the stack, with its place in the message. */
  datatype Segment = Segment(off: nat, octets: seq<Octet>)

  /** The segment due once the first off octets are acknowledged. */
  function Due(data: seq<Octet>, off: nat, mss: nat): (s: Segment)
    requires off <= |data|
  {
    Segment(off, data[off..off + Min(mss, |data| - off)])
  }

  /** Every segment is the one due after the acknowledged octets: a retransmission repeats the
      outstanding segment, and the next follows on its end. */
  ghost predicate Disciplined(log: seq<Segment>, data: seq<Octet>, mss: nat) {
    |log| > 0 ==>
      var past, s := log[..|log| - 1], log[|log| - 1];
      && Disciplined(past, data, mss)
      && s.off <= |data| && s == Due(data, s.off, mss)
      && Follows(past, s.off)
  }

  predicate Follows(past: seq<Segment>, off: nat) {
    if |past| == 0 then off == 0
    else var p := past[|past| - 1]; off == p.off || off == p.off + |p.octets|
  }

  lemma DisciplinedStep(log: seq<Segment>, data: seq<Octet>, mss: nat, s: Segment)
    requires Disciplined(log, data, mss) && s.off <= |data| && Follows(log, s.off)
    requires s == Due(data, s.off, mss)
    ensures var next := log + [s]; Disciplined(next, data, mss) && next[|next| - 1] == s
  {
    assert (log + [s])[..|log|] == log;
  }

  /** A peer that takes the segment it is waiting for and drops any other. */
  function Assembled(log: seq<Segment>): seq<Octet> {
    if |log| == 0 then []
    else
      var past, s := Assembled(log[..|log| - 1]), log[|log| - 1];
      if s.off == |past| then past + s.octets else past
  }

  /** The peer has exactly the octets up to the end of the last segment, each of them once. */
  lemma {:induction false} AssembledPrefix(log: seq<Segment>, data: seq<Octet>, mss: nat)
    requires Disciplined(log, data, mss) && |log| > 0 && mss > 0
    ensures var s := log[|log| - 1];
      s.off + |s.octets| <= |data| && Assembled(log) == data[..s.off + |s.octets|]
  {
    var past, s := log[..|log| - 1], log[|log| - 1];
    if |past| > 0 {
      AssembledPrefix(past, data, mss);
      var p := past[|past| - 1];
      if s.off == p.off && |s.octets| > 0 {
        assert Assembled(past) == data[..s.off + |s.octets|];
      } else {
        assert data[..s.off] + data[s.off..s.off + |s.octets|] == data[..s.off + |s.octets|];
      }
    } else {
      assert Assembled(past) == [];
      assert [] + s.octets == data[..|s.octets|];
    }
  }
}
