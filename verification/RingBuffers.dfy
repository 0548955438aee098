// The bounded output buffer of a background job (internal/core/jobs.go).
module RingBuffers {
  newtype byte = x: int | 0 <= x < 256

  type Bytes = seq<byte>

  const DEFAULT_MAX_BYTES := 0x10_0000

  // ----- What a ring holds, as a value ------------------------------------------------

  datatype Ring = Ring(buf: Bytes, cap: nat, total: nat, trunc: bool)

  // The last n bytes of s, or all of s when it is shorter.
  function Last(s: Bytes, n: nat): (r: Bytes)
    ensures |r| == if |s| <= n then |s| else n
  {
    if |s| <= n then s else s[|s| - n..]
  }

  function NewRing(capBytes: int): Ring {
    Ring([], if capBytes <= 0 then DEFAULT_MAX_BYTES else capBytes, 0, false)
  }

  // One write, said without the three branches of the code.
  function Written(r: Ring, p: Bytes): Ring {
    Ring(Last(r.buf + p, r.cap), r.cap, r.total + |p|, r.trunc || |p| >= r.cap || |r.buf| + |p| > r.cap)
  }

  // The ring after holds the last bytes of what the ring before held followed by p.
  predicate Takes(before: Ring, p: Bytes, after: Ring) {
    var all := before.buf + p;
    && after.buf == (if |all| <= before.cap then all else all[|all| - before.cap..])
    && after.cap == before.cap && after.total == before.total + |p|
  }

  function WriteAll(r: Ring, ws: seq<Bytes>): Ring {
    if ws == [] then r else Written(WriteAll(r, ws[..|ws| - 1]), ws[|ws| - 1])
  }

  function Concat(ws: seq<Bytes>): Bytes {
    if ws == [] then [] else Concat(ws[..|ws| - 1]) + ws[|ws| - 1]
  }

  // Every byte written fits exactly, and one single write brought all of them.
  ghost predicate FilledAtOnce(ws: seq<Bytes>, cap: nat) {
    |Concat(ws)| == cap && exists i :: 0 <= i < |ws| && |ws[i]| == cap
  }

  // ----- Whole histories ----------------------------------------------------------------

  lemma ConcatDominates(ws: seq<Bytes>, i: nat)
    requires i < |ws|
    ensures |ws[i]| <= |Concat(ws)|
  {
    if i < |ws| - 1 {
      ConcatDominates(ws[..|ws| - 1], i);
    }
  }

  lemma {:induction false} RingKeepsTail(capBytes: int, ws: seq<Bytes>)
    ensures var r := WriteAll(NewRing(capBytes), ws);
            && r.cap == NewRing(capBytes).cap
            && r.buf == Last(Concat(ws), r.cap)
            && r.total == |Concat(ws)|
  {
    if ws != [] {
      var init, p := ws[..|ws| - 1], ws[|ws| - 1];
      RingKeepsTail(capBytes, init);
      var r := WriteAll(NewRing(capBytes), init);
      assert Last(Last(Concat(init), r.cap) + p, r.cap) == Last(Concat(init) + p, r.cap);
    }
  }

  // The truncation flag is exactly "something was lost", except that one write of exactly
  // the capacity into an empty ring raises it although nothing was lost.
  lemma {:induction false} TruncatedExactly(capBytes: int, ws: seq<Bytes>)
    ensures var r := WriteAll(NewRing(capBytes), ws);
            r.trunc <==> r.total > r.cap || FilledAtOnce(ws, r.cap)
  {
    RingKeepsTail(capBytes, ws);
    var cap := NewRing(capBytes).cap;
    if ws != [] {
      var init, p := ws[..|ws| - 1], ws[|ws| - 1];
      RingKeepsTail(capBytes, init);
      TruncatedExactly(capBytes, init);
      if FilledAtOnce(init, cap) && p == [] {
        var i :| 0 <= i < |init| && |init[i]| == cap;
        assert ws[i] == init[i];
      }
      if FilledAtOnce(ws, cap) {
        var i :| 0 <= i < |ws| && |ws[i]| == cap;
        if i < |init| {
          assert init[i] == ws[i];
          ConcatDominates(init, i);
        }
      }
      if |p| >= cap && |Concat(ws)| == cap {
        assert |ws[|ws| - 1]| == cap;
      }
    }
  }

  // What a reader of the flag may conclude.
  lemma TruncationReport(capBytes: int, ws: seq<Bytes>)
    ensures var r := WriteAll(NewRing(capBytes), ws);
            && (!r.trunc ==> r.buf == Concat(ws))
            && (r.total > r.cap ==> r.trunc)
            && (r.trunc ==> r.total >= r.cap)
            && ((r.trunc <==> r.buf != Concat(ws)) <==> !FilledAtOnce(ws, r.cap))
  {
    RingKeepsTail(capBytes, ws);
    TruncatedExactly(capBytes, ws);
  }

  lemma FlagWithoutLoss()
    ensures var r := WriteAll(NewRing(2), [[1, 2]]); r.trunc && r.buf == Concat([[1, 2]])
  {
    assert [[1, 2]][..0] == [];
    assert WriteAll(NewRing(2), [[1, 2]]) == Written(NewRing(2), [1, 2]);
  }

  // What the code keeps of the bytes b held when p is written.
  function Kept(b: Bytes, p: Bytes, cap: nat): Bytes
    requires |b| <= cap
  {
    if |p| >= cap then p[|p| - cap..]
    else if |b| + |p| > cap then b[|b| + |p| - cap..] + p
    else b + p
  }

  // The three branches of a write all keep the last cap bytes.
  lemma KeptIsLast(b: Bytes, p: Bytes, cap: nat)
    requires |b| <= cap
    ensures Kept(b, p, cap) == Last(b + p, cap)
  {
    if |p| >= cap {
      assert (b + p)[|b + p| - cap..] == p[|p| - cap..];
    }
  }

  // ----- The buffer itself ------------------------------------------------------------

  class RingBuffer {
    const cap: nat
    const data: array<byte>  // backing store of the slice; data[..len] is the slice
    var len: nat
    var total: nat
    var trunc: bool

    ghost predicate Valid()
      reads this
    {
      0 < cap == data.Length && len <= cap
    }

    ghost function View(): Ring
      requires Valid()
      reads this, data
    {
      Ring(data[..len], cap, total, trunc)
    }

    constructor (capBytes: int)
      ensures Valid() && fresh(data)
      ensures View() == NewRing(capBytes) == Ring([], if capBytes <= 0 then 0x10_0000 else capBytes, 0, false)
    {
      var n := if capBytes <= 0 then DEFAULT_MAX_BYTES else capBytes;
      cap, len, total, trunc := n, 0, 0, false;
      data := new byte[n];
    }

    // append(r.buf[:0], r.buf[drop:]...)
    method Discard(drop: nat)
      requires Valid() && drop <= len
      modifies this`len, data
      ensures Valid() && len == old(len) - drop
      ensures data[..len] == old(data[..len])[drop..]
    {
      len := len - drop;
      forall i | 0 <= i < len { data[i] := data[drop + i]; }
    }

    // append(r.buf, p...), where there is room
    method Append(p: Bytes)
      requires Valid() && len + |p| <= cap
      modifies this`len, data
      ensures Valid() && len == old(len) + |p|
      ensures data[..len] == old(data[..len]) + p
    {
      forall i | 0 <= i < |p| { data[len + i] := p[i]; }
      len := len + |p|;
    }

    // The three branches of Write.
    method Keep(p: Bytes)
      requires Valid()
      modifies this`len, this`trunc, data
      ensures Valid()
      ensures data[..len] == Kept(old(data[..len]), p, cap)
      ensures trunc == (old(trunc) || |p| >= cap || old(len) + |p| > cap)
    {
      var n := |p|;
      if n >= cap {
        len := 0;
        Append(p[n - cap..]);
        trunc := true;
        return;
      }
      if len + n > cap {
        var drop := len + n - cap;
        Discard(drop);
        trunc := true;
      }
      Append(p);
    }

    method Write(p: Bytes) returns (n: nat)
      requires Valid()
      modifies this, data
      ensures Valid() && n == |p|
      ensures View() == Written(old(View()), p) && Takes(old(View()), p, View())
    {
      KeptIsLast(data[..len], p, cap);
      n := |p|;
      total := total + n;
      Keep(p);
    }

    method String() returns (s: Bytes)
      requires Valid()
      ensures s == View().buf
    {
      s := data[..len];
    }
  }
}
