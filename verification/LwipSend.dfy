/** Sending on the socket port for the raw lwIP API: copied and zero-copy writes. */
module LwipSend {
  import opened Octets

  const ERR_MEM := -1

  /** What wakes a waiting sender: the peer has acknowledged octets, or the connection is broken. */
  datatype Wake = Acked(n: nat) | Broken(err: int)

  predicate Possible(wakes: seq<Wake>) { forall i :: 0 <= i < |wakes| && wakes[i].Broken? ==> wakes[i].err < 0 }

  /** The octets acknowledged before the connection breaks. */
  function Granted(wakes: seq<Wake>): nat {
    if |wakes| == 0 || wakes[0].Broken? then 0 else wakes[0].n + Granted(wakes[1..])
  }

  /** The error with which it breaks, or zero. */
  function Break(wakes: seq<Wake>): int {
    if |wakes| == 0 then 0 else if wakes[0].Broken? then wakes[0].err else Break(wakes[1..])
  }

  /** The peer acknowledges everything each time. */
  predicate Prompt(wakes: seq<Wake>, all: nat) { forall i :: 0 <= i < |wakes| ==> wakes[i].Acked? && wakes[i].n >= all }

  lemma PromptGrants(wakes: seq<Wake>, all: nat)
    requires Prompt(wakes, all) && |wakes| > 0
    ensures Granted(wakes) >= all
  {
  }

  class Sender {
    var pcb: bool
    var ecode: int
    var outLen: int
    var inSend: bool
    var ready: bool
    // the stack's side: free room in its send buffer, octets accepted, octets acknowledged
    var sndbuf: nat
    var written: seq<Octet>
    var acked: nat

    ghost predicate Valid()
      reads this
    {
      acked <= |written|
    }

    /** Nothing is being sent: outLen is what is accepted and not yet acknowledged. */
    ghost predicate Quiet()
      reads this
    {
      Valid() && pcb && ecode == 0 && !inSend && !ready && outLen == |written| - acked
    }

    constructor (sndbuf: nat)
      ensures Quiet() && written == [] && this.sndbuf == sndbuf
    {
      pcb, ecode, outLen, inSend, ready := true, 0, 0, false, false;
      this.sndbuf, written, acked := sndbuf, [], 0;
    }

    /** tcp_write: all of data is queued, or none of it, for lack of room or of memory. */
    method TcpWrite(data: seq<Octet>, full: bool) returns (err: int)
      requires Valid()
      modifies this`written, this`sndbuf
      ensures Valid() && err == if |data| <= old(sndbuf) && !full then 0 else ERR_MEM
      ensures err == 0 ==> written == old(written) + data && sndbuf == old(sndbuf) - |data|
      ensures err != 0 ==> written == old(written) && sndbuf == old(sndbuf)
    {
      if |data| > sndbuf || full {
        return ERR_MEM;
      }
      written, sndbuf := written + data, sndbuf - |data|;
      return 0;
    }

    /** se_sentCb: the peer has acknowledged n octets. */
    method SentCb(n: nat)
      requires Valid() && n <= |written| - acked
      modifies this`acked, this`sndbuf, this`outLen, this`ready
      ensures Valid() && acked == old(acked) + n && sndbuf == old(sndbuf) + n && outLen == old(outLen) - n
      ensures ready == (old(ready) || inSend)
    {
      acked, sndbuf := acked + n, sndbuf + n;
      outLen := outLen - n;
      if inSend {
        ready := true;
      }
    }

    /** se_errCb: the socket is cleared. */
    method ErrCb(err: int)
      requires Valid() && err < 0
      modifies this`pcb, this`ecode, this`outLen, this`inSend, this`ready
      ensures Valid() && !pcb && ecode == err && outLen == 0 && !inSend && ready
    {
      pcb, ecode, outLen, inSend := false, err, 0, false;
      ready := true;
    }

    /** SeCtx_save in se_send, with the flag around it, and what wakes the task. */
    method Wait(wake: Wake)
      requires Valid() && pcb && ecode == 0 && !inSend && !ready && (wake.Broken? ==> wake.err < 0)
      modifies this`acked, this`sndbuf, this`outLen, this`ready, this`pcb, this`ecode, this`inSend
      ensures Valid() && !ready && !inSend && (pcb <==> ecode == 0)
      ensures wake.Acked? ==>
        var k := Min(wake.n, |written| - old(acked));
        ecode == 0 && acked == old(acked) + k && sndbuf == old(sndbuf) + k && outLen == old(outLen) - k
      ensures wake.Broken? ==> ecode == wake.err && outLen == 0
    {
      inSend := true;
      if wake.Broken? {
        ErrCb(wake.err);
      } else {
        SentCb(Min(wake.n, |written| - acked));
      }
      assert ready;
      ready := false;
      inSend := false;
    }

    /** se_send, while these events wake it one after the other and the writes with these numbers find no memory. The
        call does not come back if nothing wakes it any more. On success all of data has been accepted, in order; when
        the octets were not copied they are also all acknowledged, so the caller may reuse its buffer. */
    method Send(data: seq<Octet>, wakes: seq<Wake>, full: set<nat>) returns (x: int, back: bool)
      requires Valid() && !ready && !inSend && ecode <= 0 && Possible(wakes)
      requires pcb && ecode == 0 ==> Quiet()
      modifies this
      ensures Valid() && !ready && !inSend && ecode <= 0
      ensures back && x >= 0 ==> Quiet() && x == |data| && old(pcb && ecode == 0) && |data| <= 0xFFFF
      ensures back && x >= 0 ==> written == old(written) + data && (old(sndbuf) > 0 || |data| == 0)
      ensures back && x >= 0 ==> (|data| <= 1400 && |data| < old(sndbuf)) || acked == |written|
      ensures x < 0 && old(pcb && ecode == 0) && |data| <= 0xFFFF ==>
        exists k {:trigger data[..k]} :: 0 <= k <= |data| && written == old(written) + data[..k]
      ensures !old(pcb && ecode == 0) || |data| > 0xFFFF ==> back && x == if old(ecode) != 0 then old(ecode) else -1
      ensures old(pcb && ecode == 0) && |data| <= 1400 && |data| < old(sndbuf) ==>
        back && x == if 0 in full then ERR_MEM else |data|
      ensures old(pcb && ecode == 0) && |data| <= 0xFFFF && (|data| > 1400 || |data| >= old(sndbuf)) ==>
        Fate(x, back, |data|, old(sndbuf), old(|written| - acked), old(|written|), wakes, full)
    {
      if |data| > 0xFFFF || !pcb || ecode != 0 {
        return if ecode != 0 then ecode else -1, true;
      }
      outLen := outLen + |data|;
      var left := sndbuf;
      back := true;
      if |data| <= 1400 && left > |data| {
        ecode := TcpWrite(data, 0 in full);
        assert data[..0] == [] && written == old(written) + if ecode != 0 then data[..0] else data;
      } else {
        back := SendUncopied(data, left, wakes, full);
      }
      return if ecode != 0 then ecode else |data|, back;
    }

    method SendUncopied(data: seq<Octet>, left: nat, wakes: seq<Wake>, full: set<nat>) returns (back: bool)
      requires Valid() && pcb && ecode == 0 && !inSend && !ready && Possible(wakes) && left == sndbuf
      requires outLen == |written| - acked + |data|
      modifies this
      ensures Valid() && !ready && !inSend && ecode <= 0
      ensures ecode == 0 && back ==> Quiet() && outLen == 0 && written == old(written) + data
      ensures ecode == 0 && back ==> left > 0 || |data| == 0
      ensures exists k {:trigger data[..k]} :: 0 <= k <= |data| && written == old(written) + data[..k]
      ensures Fate(if ecode != 0 then ecode else |data|, back, |data|, left, old(|written| - acked), old(|written|),
                   wakes, full)
    {
      ghost var out, ever := |written| - acked, |written|;
      ghost var end := Chunks(0, |data|, left, left, out, wakes, 0, full);
      SuccessMeansAll(0, |data|, left, left, out, wakes, 0, full);
      var rest;
      back, rest := WriteUncopied(data, left, wakes, full);
      assert data[..end.k] == if end.k == |data| then data else data[..end.k];
      if back && ecode == 0 {
        back := Drain(rest);
      }
      ChunksFate(|data|, left, out, ever, wakes, full, ecode, back);
    }

    /** The loop over uncopied chunks. The chunk size is the room found at entry, even after a wait: with no room at
        entry every chunk is empty, and a chunk that does not fit the room there is now ends the loop with an error. */
    method WriteUncopied(data: seq<Octet>, left: nat, wakes: seq<Wake>, full: set<nat>)
      returns (back: bool, rest: seq<Wake>)
      requires Valid() && pcb && ecode == 0 && !inSend && !ready && Possible(wakes) && left == sndbuf
      requires outLen == |written| - acked + |data|
      modifies this
      ensures Valid() && !ready && !inSend && ecode <= 0 && Possible(rest)
      ensures var end := Chunks(0, |data|, left, left, old(|written| - acked), wakes, 0, full);
        && back == end.back && ecode == end.ecode && rest == end.rest
        && written == old(written) + data[..end.k]
        && (ecode == 0 ==> pcb && outLen == |written| - acked + |data| - end.k && |written| - acked == end.out)
    {
      var plen: int, ptr: nat, n: nat := |data|, 0, 0;
      ghost var before, end := written, Chunks(0, |data|, left, left, |written| - acked, wakes, 0, full);
      assert before + data[..0] == before;
      rest := wakes;
      while ecode == 0
        invariant 0 <= plen && ptr + plen == |data| && Possible(rest) && Writing(before + data[..ptr], plen)
        invariant if ecode == 0 then Chunks(ptr, |data|, left, sndbuf, |written| - acked, rest, n, full) == end
                  else end == End(true, ecode, ptr, rest, end.out)
        decreases |rest|, ecode == 0
      {
        var chunk := if plen > left then left else plen;
        WriteChunk(before, data, ptr, chunk, plen, n in full);
        if ecode != 0 {
          return true, rest;
        }
        plen, ptr, n := plen - chunk, ptr + chunk, n + 1;
        if plen == 0 {
          break;
        }
        if |rest| == 0 {
          return false, rest;
        }
        WaitForRoom(rest[0], before + data[..ptr], plen);
        rest := rest[1..];
      }
      return true, rest;
    }

    method WaitForRoom(wake: Wake, ghost octets: seq<Octet>, ghost plen: int)
      requires ecode == 0 && Writing(octets, plen) && (wake.Broken? ==> wake.err < 0)
      modifies this`acked, this`sndbuf, this`outLen, this`ready, this`pcb, this`ecode, this`inSend
      ensures Writing(octets, plen) && ecode == if wake.Broken? then wake.err else 0
      ensures wake.Acked? ==>
        var k := Min(wake.n, |written| - old(acked)); acked == old(acked) + k && sndbuf == old(sndbuf) + k
    {
      Wait(wake);
    }

    /** The stack has these octets, and plen more are to come. */
    ghost predicate Writing(octets: seq<Octet>, plen: int)
      reads this
    {
      && Valid() && !ready && !inSend && ecode <= 0 && written == octets
      && (ecode == 0 ==> pcb && outLen == |written| - acked + plen)
    }

    method WriteChunk(ghost before: seq<Octet>, data: seq<Octet>, ptr: nat, chunk: nat, ghost plen: int, full: bool)
      requires ptr + chunk <= |data| && ecode == 0 && Writing(before + data[..ptr], plen)
      modifies this`written, this`sndbuf, this`ecode
      ensures ecode == if chunk <= old(sndbuf) && !full then 0 else ERR_MEM
      ensures ecode == 0 ==> Writing(before + data[..ptr + chunk], plen - chunk) && sndbuf == old(sndbuf) - chunk
      ensures ecode != 0 ==> Writing(before + data[..ptr], plen)
    {
      ecode := TcpWrite(data[ptr..ptr + chunk], full);
      assert before + data[..ptr] + data[ptr..ptr + chunk] == before + data[..ptr + chunk];
    }

    /** The wait for the acknowledgement of everything that was sent without a copy. */
    method Drain(wakes: seq<Wake>) returns (back: bool)
      requires Valid() && !ready && !inSend && Possible(wakes) && pcb && ecode == 0 && outLen == |written| - acked
      modifies this`acked, this`sndbuf, this`outLen, this`ready, this`pcb, this`ecode, this`inSend
      ensures Valid() && !ready && !inSend && ecode <= 0
      ensures Waited(ecode, back, old(outLen), wakes)
      ensures ecode == 0 && back ==> pcb && outLen == 0 && acked == |written|
    {
      var rest := wakes;
      while outLen > 0 && ecode == 0
        invariant Valid() && !ready && !inSend && ecode <= 0 && Possible(rest)
        invariant ecode == 0 ==> pcb && outLen == |written| - acked && Break(rest) == Break(wakes)
        invariant ecode == 0 ==> (Granted(rest) >= outLen <==> Granted(wakes) >= old(outLen))
        invariant ecode != 0 ==> Granted(wakes) < old(outLen) && ecode == Break(wakes)
        decreases ecode == 0, |rest|
      {
        if |rest| == 0 {
          return false;
        }
        Wait(rest[0]);
        rest := rest[1..];
      }
      outLen := 0;
      return true;
    }
  }

  /** How the loop over chunks ends: whether the call comes back, the error, the octets accepted, the events left, and
      the octets out. */
  datatype End = End(back: bool, ecode: int, k: nat, rest: seq<Wake>, out: int)

  /** From ptr octets accepted, with so many free and out, and write n to come next. */
  function Chunks(ptr: nat, len: nat, left: nat, free: int, out: int, wakes: seq<Wake>, n: nat, full: set<nat>)
    : (e: End)
    requires ptr <= len && out >= 0
    ensures e.k <= len && e.out >= 0
    decreases |wakes|
  {
    var chunk := Min(left, len - ptr);
    if chunk > free || n in full then End(true, ERR_MEM, ptr, wakes, out)
    else if ptr + chunk == len then End(true, 0, len, wakes, out + chunk)
    else if |wakes| == 0 then End(false, 0, ptr + chunk, [], out + chunk)
    else if wakes[0].Broken? then End(true, wakes[0].err, ptr + chunk, wakes[1..], out + chunk)
    else
      var k := Min(wakes[0].n, out + chunk);
      Chunks(ptr + chunk, len, left, free - chunk + k, out + chunk - k, wakes[1..], n + 1, full)
  }

  /** How the wait for so many octets ends. */
  ghost predicate Waited(ecode: int, back: bool, need: int, wakes: seq<Wake>) {
    if Granted(wakes) >= need then back && ecode == 0
    else if Break(wakes) != 0 then back && ecode == Break(wakes)
    else !back && ecode == 0
  }

  /** The first acknowledgement is for fewer octets than this. */
  ghost predicate Short(wakes: seq<Wake>, n: nat) { |wakes| > 0 && wakes[0].Acked? && wakes[0].n < n }

  /** What becomes of len octets that are not copied, with this room and so many octets out or ever written. If all
      fit at once, one write, and then every octet that is out is to be acknowledged. If not, the call succeeds when
      the peer acknowledges everything each time, and fails when it first acknowledges less than the next chunk. */
  ghost predicate Fate(x: int, back: bool, len: nat, room: nat, out: int, ever: nat, wakes: seq<Wake>, full: set<nat>) {
    && (len <= room ==> Drained(x, back, len, out + len, wakes, full))
    && (0 < room < len && full == {} && Prompt(wakes, ever + len) && |wakes| > len ==> back && x == len)
    && (0 < room < len && 0 !in full && Short(wakes, Min(room, len - room)) ==> back && x == ERR_MEM)
  }

  ghost predicate Drained(x: int, back: bool, len: nat, need: int, wakes: seq<Wake>, full: set<nat>) {
    if 0 in full then back && x == ERR_MEM
    else if Granted(wakes) >= need then back && x == len
    else if Break(wakes) != 0 then back && x == Break(wakes)
    else !back
  }

  /** The loop over chunks, and if it succeeds the wait behind it. */
  lemma ChunksFate(len: nat, room: nat, out: nat, ever: nat, wakes: seq<Wake>, full: set<nat>, ecode: int, back: bool)
    requires out <= ever && Possible(wakes)
    requires var e := Chunks(0, len, room, room, out, wakes, 0, full);
      if e.back && e.ecode == 0 then Waited(ecode, back, e.out, e.rest) else ecode == e.ecode && back == e.back
    ensures Fate(if ecode != 0 then ecode else len, back, len, room, out, ever, wakes, full)
  {
    var e := Chunks(0, len, room, room, out, wakes, 0, full);
    if len <= room {
      assert e == OneChunk(len, out, wakes, full);
    } else if 0 < room && full == {} && Prompt(wakes, ever + len) && |wakes| > len {
      AllAcknowledged(0, len, room, room, out, wakes, 0, ever + len);
      PromptGrants(e.rest, ever + len);
    } else if 0 < room && 0 !in full && Short(wakes, Min(room, len - room)) {
      NoRoom(len, room, out, wakes, full);
    }
  }

  function OneChunk(len: nat, out: nat, wakes: seq<Wake>, full: set<nat>): End {
    if 0 in full then End(true, ERR_MEM, 0, wakes, out) else End(true, 0, len, wakes, out + len)
  }

  /** The first chunk takes all the room, and the second finds less than it needs. */
  lemma NoRoom(len: nat, room: nat, out: nat, wakes: seq<Wake>, full: set<nat>)
    requires 0 < room < len && 0 !in full && Short(wakes, Min(room, len - room))
    ensures var e := Chunks(0, len, room, room, out, wakes, 0, full); e.back && e.ecode == ERR_MEM
  {
    var k := Min(wakes[0].n, out + room);
    assert Chunks(room, len, room, k, out + room - k, wakes[1..], 1, full).ecode == ERR_MEM;
  }

  lemma {:induction false} SuccessMeansAll(ptr: nat, len: nat, left: nat, free: int, out: int, wakes: seq<Wake>, n: nat,
                                           full: set<nat>)
    requires ptr <= len && out >= 0
    ensures var e := Chunks(ptr, len, left, free, out, wakes, n, full);
      Possible(wakes) && e.back && e.ecode == 0 ==> e.k == len && (left > 0 || ptr == len)
    decreases |wakes|
  {
    if |wakes| > 0 && wakes[0].Acked? {
      var chunk := Min(left, len - ptr);
      var k := Min(wakes[0].n, out + chunk);
      SuccessMeansAll(ptr + chunk, len, left, free - chunk + k, out + chunk - k, wakes[1..], n + 1, full);
    }
  }

  /** With all octets acknowledged after each chunk, there is room for each chunk. */
  lemma {:induction false} AllAcknowledged(ptr: nat, len: nat, left: nat, free: int, out: int, wakes: seq<Wake>, n: nat,
                                           all: nat)
    requires 0 < left && ptr <= len && 0 <= out && left <= free && out + len - ptr <= all
    requires Prompt(wakes, all) && |wakes| > len - ptr
    ensures var e := Chunks(ptr, len, left, free, out, wakes, n, {});
      e.back && e.ecode == 0 && e.out <= all && Prompt(e.rest, all) && |e.rest| > 0
    decreases |wakes|
  {
    var chunk := Min(left, len - ptr);
    if ptr + chunk < len {
      assert wakes[0].Acked? && wakes[0].n >= all;
      AllAcknowledged(ptr + chunk, len, left, free - chunk + (out + chunk), 0, wakes[1..], n + 1, all);
    }
  }
}
