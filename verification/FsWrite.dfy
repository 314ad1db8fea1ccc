// The gathered write loop of unix/fs.c against a kernel that may accept any part of
// what it is asked to write.
module FsWrite {

  const EINTR := -4

  // uv_buf_t: len bytes of data from base on.
  datatype Buf = Buf(data: seq<int>, base: nat, len: nat)

  predicate Fits(b: Buf) { b.base + b.len <= |b.data| }

  function Bytes(b: Buf): (s: seq<int>)
    requires Fits(b)
    ensures |s| == b.len
  {
    b.data[b.base..b.base + b.len]
  }

  predicate AllFit(bs: seq<Buf>) { forall i :: 0 <= i < |bs| ==> Fits(bs[i]) }

  function Concat(bs: seq<Buf>): seq<int>
    requires AllFit(bs)
  {
    if bs == [] then [] else Bytes(bs[0]) + Concat(bs[1..])
  }

  // data is what the first m buffers hold, m being 1 or more.
  ghost predicate Holds(bufs: seq<Buf>, m: nat, data: seq<int>)
    requires AllFit(bufs)
  {
    1 <= m <= |bufs| && data == Concat(bufs[..m])
  }

  // Where the next n bytes go: from off on, or wherever the file position is.
  function Places(off: int, n: nat): (s: seq<int>)
    ensures |s| == n
  {
    seq(n, i requires 0 <= i => if off < 0 then -1 else off + i)
  }

  // The first answer from i on that is not EINTR, 0 if there is none, and what follows it.
  function Answer(answers: seq<int>, i: nat): (r: (int, nat))
    decreases |answers| - i
  {
    if i >= |answers| then (0, i) else if answers[i] != EINTR then (answers[i], i + 1) else Answer(answers, i + 1)
  }

  // The system calls: each takes its answer from answers. accepted is what has been
  // written, places where each byte went.
  class Kernel {
    const answers: seq<int>
    var asked: nat
    var accepted: seq<int>
    var places: seq<int>
    // How many calls there were, and the most buffers one was for; for the last one how
    // many buffers it was for, what it was asked to write, where, and its result.
    ghost var calls: nat
    ghost var most: nat
    ghost var count: nat
    ghost var wanted: seq<int>
    ghost var at: int
    ghost var last: int

    constructor (answers: seq<int>)
      ensures this.answers == answers && asked == 0 && accepted == [] && places == [] && calls == most == 0
    {
      this.answers := answers;
      asked, accepted, places := 0, [], [];
      calls, most, count, wanted, at, last := 0, 0, 0, [], 0, 0;
    }

    // write, writev, pwrite or pwritev, repeated while interrupted.
    method Write(bufs: seq<Buf>, off: int) returns (r: int)
      requires AllFit(bufs)
      modifies this
      ensures Took(r, Concat(bufs), off, old(accepted), old(places))
      ensures calls == old(calls) + 1 && count == |bufs| && wanted == Concat(bufs) && at == off && last == r
      ensures most == if |bufs| > old(most) then |bufs| else old(most)
      ensures var data := Concat(bufs);
        var x := Answer(answers, old(asked)); r == (if x.0 > |data| then |data| else x.0) && asked == x.1
    {
      var data := Concat(bufs);
      r := EINTR;
      while r == EINTR && asked < |answers|
        invariant accepted == old(accepted) && places == old(places) && calls == old(calls) && most == old(most)
        invariant Answer(answers, old(asked)) == if r == EINTR then Answer(answers, asked) else (r, asked)
        decreases |answers| - asked
      {
        r := answers[asked];
        asked := asked + 1;
      }
      if r == EINTR { r := 0; }
      if r > |data| { r := |data|; }
      if r > 0 {
        accepted := accepted + data[..r];
        places := places + Places(off, r);
      }
      calls, count, wanted, at, last := calls + 1, |bufs|, data, off, r;
      if |bufs| > most { most := |bufs|; }
    }

    method Pwrite(b: Buf, off: int) returns (r: int)
      requires Fits(b)
      modifies this
      ensures Took(r, Bytes(b), off, old(accepted), old(places))
      ensures calls == old(calls) + 1 && count == 1 && wanted == Bytes(b) && at == off && last == r
      ensures most == old(most) || most == 1
    {
      ConcatOne(b);
      r := Write([b], off);
    }

    // The last call, for one or more of the first of bufs at off, had the result r.
    ghost predicate Refused(r: int, bufs: seq<Buf>, off: int)
      requires AllFit(bufs)
      reads this
    {
      r == last && off == at && exists m :: Holds(bufs, m, wanted)
    }

    // The call accepted the first r bytes of data, or none if r <= 0.
    ghost predicate Took(r: int, data: seq<int>, off: int, before: seq<int>, beforePlaces: seq<int>)
      reads this
    {
      var n := if r > 0 then r else 0;
      r <= |data| && accepted == before + data[..n] && places == beforePlaces + Places(off, n)
    }

    // pwrite of buffer i, at total bytes after off; the bytes before have gone from a start of
    // (a, p).
    method PwriteNext(bufs: seq<Buf>, i: nat, at: int, ghost off: int, ghost total: nat, ghost a: seq<int>,
        ghost p: seq<int>)
        returns (r: int)
      requires AllFit(bufs) && i < |bufs| && off >= 0 && total <= |Concat(bufs)| && at == off + total
      requires Concat(bufs)[total..] == Concat(bufs[i..]) && Sent(Concat(bufs), total, off, a, p, accepted, places)
      modifies this
      ensures r <= bufs[i].len && total + r <= |Concat(bufs)|
      ensures Sent(Concat(bufs), total + if r > 0 then r else 0, off, a, p, accepted, places)
      ensures r == bufs[i].len ==> Concat(bufs)[total + r..] == Concat(bufs[i + 1..])
      ensures calls == old(calls) + 1 && (total == 0 ==> Refused(r, bufs, off))
      ensures count == 1 && (most == old(most) || most == 1)
    {
      ghost var a', p', all, b, rest := accepted, places, Concat(bufs), Bytes(bufs[i]), Concat(bufs[i + 1..]);
      NextBuf(bufs, i);
      r := Pwrite(bufs[i], at);
      ghost var n: nat := if r > 0 then r else 0;
      FrontOf(b, rest, n);
      SentMore(all, total, n, off, a, p, a', p', accepted, places);
      Dropped(all, total, b, rest, n);
      if total == 0 {
        assert all[0..] == all;
        Alone(bufs, i);
      }
    }

    // uv__preadv_or_pwritev_emul for writing: one pwrite for each buffer.
    method WritevEmulated(bufs: seq<Buf>, off: int) returns (total: int)
      requires AllFit(bufs) && off >= 0
      modifies this
      ensures Took(total, Concat(bufs), off, old(accepted), old(places))
      ensures bufs != [] ==> calls > old(calls) && count == 1 && (total <= 0 ==> Refused(total, bufs, off))
      ensures most == old(most) || most == 1
    {
      total := 0;
      var at := off;
      assert bufs[0..] == bufs && Concat(bufs)[0..] == Concat(bufs);
      for i := 0 to |bufs|
        invariant 0 <= total <= |Concat(bufs)| && at == off + total && Concat(bufs)[total..] == Concat(bufs[i..])
        invariant Sent(Concat(bufs), total, off, old(accepted), old(places), accepted, places)
        invariant calls >= old(calls) + i && (i > 0 ==> count == 1 && (total == 0 ==> Refused(0, bufs, off)))
        invariant most == old(most) || most == 1
      {
        var r := PwriteNext(bufs, i, at, off, total, old(accepted), old(places));
        if r < 0 {
          return if total > 0 then total else r;
        }
        at := at + r;
        total := total + r;
        if r < bufs[i].len { return; }
      }
    }
  }

  lemma ConcatOne(b: Buf)
    requires Fits(b)
    ensures AllFit([b]) && Concat([b]) == Bytes(b)
  {
    assert [b][1..] == [] && Bytes(b) + [] == Bytes(b);
  }

  // With no byte in the buffers before i, the first i + 1 buffers hold those of buffer i.
  lemma Alone(bufs: seq<Buf>, i: nat)
    requires AllFit(bufs) && i < |bufs| && Concat(bufs) == Concat(bufs[i..])
    ensures Holds(bufs, i + 1, Bytes(bufs[i]))
  {
    var a, b := bufs[..i], [bufs[i]];
    assert bufs == a + bufs[i..] && bufs[..i + 1] == a + b;
    ConcatSplit(a, bufs[i..]);
    ConcatSplit(a, b);
    assert b[1..] == [] && Bytes(bufs[i]) + [] == Bytes(bufs[i]);
  }

  lemma Regained(all: seq<int>, size: nat, left: nat)
    requires left <= size <= |all|
    ensures all[size - left..][left..] == all[size..]
  {
  }

  lemma FrontOf(b: seq<int>, rest: seq<int>, n: nat)
    requires n <= |b|
    ensures (b + rest)[..n] == b[..n]
  {
  }

  lemma Dropped(all: seq<int>, total: nat, b: seq<int>, rest: seq<int>, r: nat)
    requires total <= |all| && all[total..] == b + rest && r <= |b|
    ensures total + r <= |all| && (r == |b| ==> all[total + r..] == rest)
  {
    assert |all| - total == |b| + |rest|;
    assert all[total + r..] == all[total..][r..];
  }

  lemma NextBuf(bufs: seq<Buf>, i: nat)
    requires AllFit(bufs) && i < |bufs|
    ensures Concat(bufs[i..]) == Bytes(bufs[i]) + Concat(bufs[i + 1..])
  {
    assert bufs[i..][1..] == bufs[i + 1..];
  }

  lemma PlacesJoin(off: int, n: nat, r: nat)
    ensures Places(off, n) + Places(if off < 0 then off else off + n, r) == Places(off, n + r)
  {
  }

  // The buffers from i on hold the bytes of all from k on.
  ghost predicate From(bufs: array<Buf>, i: nat, all: seq<int>, k: nat)
    reads bufs
  {
    i <= bufs.Length && AllFit(bufs[i..]) && k <= |all| && Concat(bufs[i..]) == all[k..]
  }

  lemma SomeLeft(bufs: array<Buf>, i: nat, all: seq<int>, k: nat)
    requires From(bufs, i, all, k)
    ensures k < |all| ==> i < bufs.Length
  {
    if i == bufs.Length { assert bufs[i..] == [] && |all[k..]| == 0; }
  }

  lemma UseOne(bufs: array<Buf>, i: nat, all: seq<int>, k: nat)
    requires i < bufs.Length && From(bufs, i, all, k)
    ensures From(bufs, i + 1, all, k + bufs[i].len)
  {
    var bs := bufs[i..];
    NextBuf(bs, 0);
    assert bs[0..] == bs && bs[1..] == bufs[i + 1..];
    Dropped(all, k, Bytes(bs[0]), Concat(bs[1..]), bs[0].len);
  }

  // The kernel went from (a, p) to (a', p') by taking the first n bytes of all, from off on.
  ghost predicate Sent(all: seq<int>, n: nat, off: int, a: seq<int>, p: seq<int>, a': seq<int>, p': seq<int>) {
    n <= |all| && a' == a + all[..n] && p' == p + Places(off, n)
  }

  lemma FrontJoin(all: seq<int>, n: nat, r: nat)
    requires n + r <= |all|
    ensures all[..n] + all[n..][..r] == all[..n + r]
  {
  }

  lemma Regroup(a: seq<int>, b: seq<int>, c: seq<int>)
    ensures a + b + c == a + (b + c)
  {
  }

  lemma SentMore(all: seq<int>, n: nat, r: nat, off: int, a: seq<int>, p: seq<int>, a': seq<int>, p': seq<int>,
      a'': seq<int>, p'': seq<int>)
    requires Sent(all, n, off, a, p, a', p') && Sent(all[n..], r, if off < 0 then off else off + n, a', p', a'', p'')
    ensures Sent(all, n + r, off, a, p, a'', p'')
  {
    FrontJoin(all, n, r);
    PlacesJoin(off, n, r);
    Regroup(a, all[..n], all[n..][..r]);
    Regroup(p, Places(off, n), Places(if off < 0 then off else off + n, r));
  }

  // ---------- uv__fs_write_all ----------

  // The parts of uv_fs_t it uses: the buffers from first on are still to be written.
  class Req {
    const bufs: array<Buf>
    var first: nat
    var nbufs: nat
    var off: int

    constructor (bufs: array<Buf>, off: int)
      ensures this.bufs == bufs && this.off == off && first == 0 && nbufs == bufs.Length
    {
      this.bufs, this.off, first, nbufs := bufs, off, 0, bufs.Length;
    }

    // The loop of uv__fs_buf_offset; left bytes of the next buffer are used as well.
    method CountUsed(size: nat, ghost all: seq<int>) returns (offset: nat, left: nat)
      requires From(bufs, first, all, 0) && size <= |all|
      ensures left <= size && From(bufs, first + offset, all, size - left)
      ensures left > 0 ==> first + offset < bufs.Length && left < bufs[first + offset].len
    {
      offset, left := 0, size;
      ghost var i: nat, k: nat := first, 0;
      SomeLeft(bufs, i, all, k);
      while left > 0 && bufs[first + offset].len <= left
        invariant i == first + offset && k == size - left && left <= size && From(bufs, i, all, k)
        invariant k < |all| ==> i < bufs.Length
        decreases left, bufs.Length - i
      {
        UseOne(bufs, i, all, k);
        i, k := i + 1, k + bufs[i].len;
        SomeLeft(bufs, i, all, k);
        left := left - bufs[first + offset].len;
        offset := offset + 1;
      }
    }

    // uv__fs_buf_offset: how many buffers size bytes have used up; the next one is
    // trimmed in place.
    method BufOffset(size: nat) returns (offset: nat)
      requires first <= bufs.Length && AllFit(bufs[first..]) && size <= |Concat(bufs[first..])|
      modifies bufs
      ensures first + offset <= bufs.Length && AllFit(bufs[first + offset..])
      ensures Concat(bufs[first + offset..]) == old(Concat(bufs[first..]))[size..]
    {
      ghost var all := Concat(bufs[first..]);
      assert all[0..] == all;
      var left;
      offset, left := CountUsed(size, all);
      if left > 0 {
        Trim(first + offset, left);
        Regained(all, size, left);
      }
    }

    method Trim(i: nat, n: nat)
      requires i < bufs.Length && n < bufs[i].len && AllFit(bufs[i..])
      modifies bufs
      ensures AllFit(bufs[i..]) && Concat(bufs[i..]) == old(Concat(bufs[i..]))[n..]
    {
      ghost var tail := bufs[i..];
      assert tail[1..] == bufs[i + 1..];
      bufs[i] := bufs[i].(base := bufs[i].base + n, len := bufs[i].len - n);
      assert bufs[i..][1..] == tail[1..];
      assert Bytes(bufs[i]) == Bytes(tail[0])[n..];
    }

    // The bytes of all from total on are in the buffers from first on.
    ghost predicate Remains(all: seq<int>, total: int)
      reads this`first, bufs
    {
      first <= bufs.Length && AllFit(bufs[first..]) && 0 <= total <= |all| && Concat(bufs[first..]) == all[total..]
    }

    // The last call was for some of the buffers that are left, and had the result r.
    ghost predicate Stopped(k: Kernel, r: int)
      requires first <= bufs.Length && AllFit(bufs[first..])
      reads this`first, this`off, bufs, k
    {
      k.Refused(r, bufs[first..], off)
    }

    // No call since there were most buffers in one was for more than iovmax.
    ghost predicate Within(k: Kernel, iovmax: nat, most: nat)
      reads k
    {
      k.most <= if most > iovmax then most else iovmax
    }

    // The last call was for all the buffers left that one call may take; for one buffer if
    // a pwritev is emulated.
    ghost predicate Full(k: Kernel, iovmax: nat, emulated: bool, left: nat)
      reads this`off, k
    {
      k.count == if emulated && off >= 0 then 1 else if left > iovmax then iovmax else left
    }

    // uv__fs_write on the first n buffers left; emulated if there is no pwritev.
    method WriteSome(k: Kernel, n: nat, emulated: bool) returns (r: int)
      requires 0 < n && first + n <= bufs.Length && AllFit(bufs[first..]) && AllFit(bufs[first..first + n])
      modifies k
      ensures k.Took(r, Concat(bufs[first..first + n]), off, old(k.accepted), old(k.places))
      ensures k.calls > old(k.calls) && (r <= 0 ==> Stopped(k, r))
      ensures k.count == if emulated && off >= 0 then 1 else n
      ensures k.most <= if n > old(k.most) then n else old(k.most)
    {
      var part := bufs[first..first + n];
      assert part[..n] == part && Holds(part, n, Concat(part));
      if off >= 0 && n > 1 && emulated {
        r := k.WritevEmulated(part, off);
      } else {
        r := k.Write(part, off);
      }
      if r <= 0 {
        ghost var m :| Holds(part, m, k.wanted);
        Widen(bufs, first, n, m, k.wanted);
      }
    }

    // Skips the result bytes that were accepted.
    method Advance(result: nat, left: nat, ghost all: seq<int>, ghost total: int) returns (left': nat)
      requires Remains(all, total) && total + result <= |all| && first + left == bufs.Length
      modifies this`off, this`first, this`nbufs, bufs
      ensures Remains(all, total + result) && first + left' == bufs.Length
      ensures off == if old(off) < 0 then old(off) else old(off) + result
      ensures left' <= left
    {
      if off >= 0 { off := off + result; }
      nbufs := BufOffset(result);
      first := first + nbufs;
      left' := left - nbufs;
      assert all[total..][result..] == all[total + result..];
    }

    // One call of uv__fs_write on as many buffers as it takes at once: all that are left,
    // but no more than iovmax.
    method WriteBatch(k: Kernel, iovmax: nat, emulated: bool, left: nat, ghost all: seq<int>, ghost total: int)
        returns (result: int)
      requires Remains(all, total) && first + left == bufs.Length && left > 0 && iovmax > 0
      modifies k, this`nbufs
      ensures var n := if result > 0 then result else 0;
        Sent(all[total..], n, off, old(k.accepted), old(k.places), k.accepted, k.places)
      ensures k.calls > old(k.calls) && (result <= 0 ==> Stopped(k, result))
      ensures Within(k, iovmax, old(k.most)) && Full(k, iovmax, emulated, left)
    {
      nbufs := if left > iovmax then iovmax else left;
      BatchSplit(bufs, first, nbufs);
      ghost var part, more := Concat(bufs[first..first + nbufs]), Concat(bufs[first + nbufs..]);
      assert all[total..] == part + more;
      result := WriteSome(k, nbufs, emulated);
      ghost var n: nat := if result > 0 then result else 0;
      FrontOf(part, more, n);
      assert all[total..][..n] == part[..n];
    }

    // The same, after the first total bytes have gone from a start of (a, p) at off0.
    method WriteOnce(k: Kernel, iovmax: nat, emulated: bool, left: nat, ghost all: seq<int>, ghost total: nat,
        ghost off0: int, ghost a: seq<int>, ghost p: seq<int>)
        returns (result: int)
      requires Remains(all, total) && first + left == bufs.Length && left > 0 && iovmax > 0
      requires Sent(all, total, off0, a, p, k.accepted, k.places) && off == if off0 < 0 then off0 else off0 + total
      modifies k, this`nbufs
      ensures Sent(all, total + if result > 0 then result else 0, off0, a, p, k.accepted, k.places)
      ensures k.calls > old(k.calls) && (result <= 0 ==> Stopped(k, result))
      ensures Within(k, iovmax, old(k.most)) && Full(k, iovmax, emulated, left)
    {
      ghost var a', p' := k.accepted, k.places;
      result := WriteBatch(k, iovmax, emulated, left, all, total);
      SentMore(all, total, if result > 0 then result else 0, off0, a, p, a', p', k.accepted, k.places);
    }

    // Writes buffers while the kernel takes them. total is what it took, or its last
    // answer if it took nothing.
    method WriteAll(k: Kernel, iovmax: nat, emulated: bool) returns (total: int)
      requires iovmax > 0 && first == 0 && nbufs == bufs.Length && AllFit(bufs[..])
      modifies this, bufs, k
      ensures var all, n := old(Concat(bufs[..])), if total > 0 then total else 0;
        && Sent(all, n, old(off), old(k.accepted), old(k.places), k.accepted, k.places) && Remains(all, n)
        && off == (if old(off) < 0 then old(off) else old(off) + n)
        && (first < bufs.Length ==> k.last <= 0 && Stopped(k, k.last))
        && (first < bufs.Length ==> Full(k, iovmax, emulated, bufs.Length - first))
        && (n == 0 ==> total == if bufs.Length == 0 then 0 else k.last)
      ensures nbufs == 0 && (bufs.Length > 0 ==> k.calls > old(k.calls)) && Within(k, iovmax, old(k.most))
    {
      ghost var all := Concat(bufs[..]);
      var left: nat := nbufs;
      total := 0;
      assert bufs[0..] == bufs[..] && all[0..] == all;
      while left > 0
        invariant Remains(all, total) && first + left == bufs.Length && (total == 0 ==> left == bufs.Length)
        invariant Sent(all, total, old(off), old(k.accepted), old(k.places), k.accepted, k.places)
        invariant off == if old(off) < 0 then old(off) else old(off) + total
        invariant k.calls >= old(k.calls) && (total > 0 ==> k.calls > old(k.calls)) && Within(k, iovmax, old(k.most))
        decreases |all| - total, left
      {
        var result := WriteOnce(k, iovmax, emulated, left, all, total, old(off), old(k.accepted), old(k.places));
        if result <= 0 {
          if total == 0 { total := result; }
          break;
        }
        left := Advance(result, left, all, total);
        total := total + result;
      }
      nbufs := 0;
    }
  }

  lemma BatchSplit(bufs: array<Buf>, i: nat, n: nat)
    requires i + n <= bufs.Length && AllFit(bufs[i..])
    ensures AllFit(bufs[i..i + n]) && AllFit(bufs[i + n..])
      && Concat(bufs[i..]) == Concat(bufs[i..i + n]) + Concat(bufs[i + n..])
  {
    var all, x, y := bufs[i..], bufs[i..i + n], bufs[i + n..];
    assert all == x + y;
    forall k | 0 <= k < |x| ensures Fits(x[k]) { assert x[k] == all[k]; }
    forall k | 0 <= k < |y| ensures Fits(y[k]) { assert y[k] == all[n + k]; }
    ConcatSplit(x, y);
  }

  lemma Widen(bufs: array<Buf>, i: nat, n: nat, m: nat, data: seq<int>)
    requires i + n <= bufs.Length && AllFit(bufs[i..]) && AllFit(bufs[i..i + n]) && Holds(bufs[i..i + n], m, data)
    ensures Holds(bufs[i..], m, data)
  {
    assert bufs[i..][..m] == bufs[i..i + n][..m];
  }

  lemma {:induction false} ConcatSplit(a: seq<Buf>, b: seq<Buf>)
    requires AllFit(a) && AllFit(b)
    ensures AllFit(a + b) && Concat(a + b) == Concat(a) + Concat(b)
  {
    if a == [] {
      assert a + b == b;
    } else {
      assert (a + b)[1..] == a[1..] + b;
      ConcatSplit(a[1..], b);
    }
  }
}
