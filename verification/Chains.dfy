/** Chains of packet buffers with a read cursor, as all the socket ports keep them. */
module Chains {
  import opened Octets

  /** The length of a chain. */
  function Total(chain: seq<seq<Octet>>): nat {
    if |chain| == 0 then 0 else |chain[0]| + Total(chain[1..])
  }

  lemma {:induction false} TotalAppend(a: seq<seq<Octet>>, b: seq<seq<Octet>>)
    ensures Total(a + b) == Total(a) + Total(b)
  {
    if a == [] {
      assert a + b == b;
    } else {
      assert (a + b)[1..] == a[1..] + b;
      TotalAppend(a[1..], b);
    }
  }

  lemma {:induction false} TotalIsLength(chain: seq<seq<Octet>>)
    ensures Total(chain) == |Flat(chain)|
  {
    if |chain| > 0 {
      TotalIsLength(chain[1..]);
    }
  }

  /** What is left of a chain behind a cursor. */
  ghost function Behind(chain: seq<seq<Octet>>, cur: nat, data: nat): seq<Octet>
    requires cur < |chain| && data <= |chain[cur]|
  {
    chain[cur][data..] + Flat(chain[cur + 1..])
  }

  /** Buffers appended to a chain that is read in part come after all that is there. */
  lemma AppendBehind(chain: seq<seq<Octet>>, cur: nat, data: nat, added: seq<seq<Octet>>)
    requires cur < |chain| && data <= |chain[cur]|
    ensures Behind(chain + added, cur, data) == Behind(chain, cur, data) + Flat(added)
  {
    var rest := chain[cur + 1..];
    assert (chain + added)[cur + 1..] == rest + added;
    FlatAppend(rest, added);
    JoinThree(chain[cur][data..], Flat(rest), Flat(added));
  }

  lemma TakeBehind(chain: seq<seq<Octet>>, cur: nat, data: nat, chunk: nat)
    requires cur < |chain| && data + chunk <= |chain[cur]|
    ensures chunk <= |Behind(chain, cur, data)|
    ensures Behind(chain, cur, data) == chain[cur][data..data + chunk] + Behind(chain, cur, data + chunk)
  {
    var rest := Flat(chain[cur + 1..]);
    assert chain[cur][data..] == chain[cur][data..data + chunk] + chain[cur][data + chunk..];
    JoinThree(chain[cur][data..data + chunk], chain[cur][data + chunk..], rest);
  }

  lemma BehindAtLeast(chain: seq<seq<Octet>>, cur: nat, data: nat)
    requires cur < |chain| && data <= |chain[cur]|
    ensures |Behind(chain, cur, data)| >= |chain[cur]| - data
  {
  }

  lemma NextBehind(chain: seq<seq<Octet>>, cur: nat)
    requires cur < |chain|
    ensures cur + 1 < |chain| ==> Behind(chain, cur, |chain[cur]|) == Behind(chain, cur + 1, 0)
    ensures cur + 1 == |chain| ==> Behind(chain, cur, |chain[cur]|) == []
  {
    if cur + 1 < |chain| {
      assert chain[cur + 1..][1..] == chain[cur + 2..];
    }
  }
}
