// Punycode as RFC 3492 defines it: the decoder of its section 6.2, and the encoder as
// the plain walk over all decoder states that section 6.3 describes. Code points and
// digits are numbers; text is a sequence of ASCII codes.
module Punycode {

  const INITIAL_N := 128
  const INITIAL_BIAS := 72

  function Threshold(k: nat, bias: nat): (t: nat)
    ensures 1 <= t <= 26
  {
    if k <= bias then 1 else if k >= bias + 26 then 26 else k - bias
  }

  // The threshold is k - bias, kept between 1 and 26.
  lemma ThresholdClamps(k: nat, bias: nat)
    ensures var t := Threshold(k, bias); (t > 1 ==> bias + t <= k) && (t < 26 ==> k <= bias + t)
  {
  }

  // Section 6.1.
  function Adapt(delta: nat, points: nat, first: bool): nat
    requires points > 0
  {
    var d := if first then delta / 700 else delta / 2; Scale(d + Quotient(d, points), 0)
  }

  function Quotient(a: nat, b: nat): nat
    requires b > 0
  {
    a / b
  }

  function Scale(d: nat, k: nat): nat {
    if d > 455 then Scale(d / 35, k + 36) else k + 36 * d / (d + 38)
  }

  function Pow35(s: nat): (p: nat)
    ensures p > 0
  {
    if s == 0 then 1 else 35 * Pow35(s - 1)
  }

  // What s divisions by 35 leave of x.
  function Shrunk(x: nat, s: nat): nat { Quotient(x, Pow35(s)) }

  // The bias without its loop: s is the number of divisions that first brings the
  // damped delta down to 455 = (36 - 1) * 26 / 2.
  ghost predicate IsScaled(bias: nat, x: nat, s: nat) {
    && Shrunk(x, s) <= 455 && (forall r: nat :: r < s ==> Shrunk(x, r) > 455)
    && bias == 36 * s + 36 * Shrunk(x, s) / (Shrunk(x, s) + 38)
  }

  // The first delta is damped by 700, the others by 2.
  function Damped(delta: nat, points: nat, first: bool): nat
    requires points > 0
  {
    var d := delta / (if first then 700 else 2); d + d / points
  }

  ghost predicate IsBias(bias: nat, delta: nat, points: nat, first: bool)
    requires points > 0
  {
    exists s: nat :: IsScaled(bias, Damped(delta, points, first), s)
  }

  // A generalised variable-length integer, section 3.3.
  function EncodeInt(q: nat, k: nat, bias: nat): seq<nat> {
    var t := Threshold(k, bias);
    if q < t then [q] else [t + (q - t) % (36 - t)] + EncodeInt((q - t) / (36 - t), k + 36, bias)
  }

  // The value of an integer's digits: each is worth 36 - t times what the one before it is,
  // and only the last is below its threshold.
  function Worth(ds: seq<nat>, k: nat, bias: nat): nat {
    if ds == [] then 0 else ds[0] + (36 - Threshold(k, bias)) * Worth(ds[1..], k + 36, bias)
  }

  predicate Made(ds: seq<nat>, k: nat, bias: nat) {
    ds != [] && if |ds| == 1 then ds[0] < Threshold(k, bias) else
      Threshold(k, bias) <= ds[0] < 36 && Made(ds[1..], k + 36, bias)
  }

  datatype Parsed = Bad | Int(value: nat, rest: seq<nat>)

  function DecodeInt(ds: seq<nat>, i: nat, w: nat, k: nat, bias: nat): (p: Parsed)
    ensures p.Int? ==> |p.rest| < |ds|
  {
    if ds == [] then Bad else
      var t := Threshold(k, bias);
      if ds[0] < t then Int(i + ds[0] * w, ds[1..]) else DecodeInt(ds[1..], i + ds[0] * w, w * (36 - t), k + 36, bias)
  }

  datatype Decoded = Fail | Text(cps: seq<nat>)

  // The loop of section 6.2: each integer says where the next code point goes.
  function DecodeDigits(ds: seq<nat>, n: nat, i: nat, bias: nat, out: seq<nat>): Decoded
    decreases |ds|
  {
    if ds == [] then Text(out) else
      var p := DecodeInt(ds, i, 1, 36, bias);
      if p.Bad? || p.value < i then Fail else
        var len := |out| + 1;
        var at, n' := p.value % len, n + p.value / len;
        DecodeDigits(p.rest, n', at + 1, Adapt(p.value - i, len, i == 0), out[..at] + [n'] + out[at..])
  }

  // ---------- the encoder ----------

  function Below(s: seq<nat>, b: nat): seq<nat> {
    if s == [] then [] else if s[0] < b then [s[0]] + Below(s[1..], b) else Below(s[1..], b)
  }

  // The decoder's output once it has every code point below n and the n's before k.
  function Out(cps: seq<nat>, n: nat, k: nat): seq<nat>
    requires k <= |cps|
  {
    Below(cps[..k], n + 1) + Below(cps[k..], n)
  }

  // Where in that output position k is.
  function At(cps: seq<nat>, n: nat, k: nat): nat
    requires k <= |cps|
  {
    |Below(cps[..k], n + 1)|
  }

  predicate Unicode(cps: seq<nat>) { forall i :: 0 <= i < |cps| ==> cps[i] < 0x11_0000 }

  // The states a decoder at (nd, id) skips to reach (n, k).
  function Delta(cps: seq<nat>, n: nat, k: nat, nd: nat, id: nat): int
    requires k <= |cps|
  {
    (n - nd) * (|Out(cps, n, k)| + 1) + At(cps, n, k) - id
  }

  // The digits that remain to be written when the walk over the states is at (n, k)
  // and the decoder, having read the rest, is at (nd, id).
  function Tail(cps: seq<nat>, n: nat, k: nat, nd: nat, id: nat, bias: nat): seq<nat>
    requires Unicode(cps) && k <= |cps|
    decreases 0x11_0000 - n, |cps| - k
  {
    if k == |cps| then
      if n >= 0x11_0000 then [] else Tail(cps, n + 1, 0, nd, id, bias)
    else if cps[k] != n then
      Tail(cps, n, k + 1, nd, id, bias)
    else
      var d := Delta(cps, n, k, nd, id);
      var delta := if d < 0 then 0 else d;
      EncodeInt(delta, 36, bias)
      + Tail(cps, n, k + 1, n, At(cps, n, k) + 1, Adapt(delta, |Out(cps, n, k)| + 1, id == 0))
  }

  // One of the integers still to be written does not fit in 32 bits.
  predicate TooBig(cps: seq<nat>, n: nat, k: nat, nd: nat, id: nat)
    requires Unicode(cps) && k <= |cps|
    decreases 0x11_0000 - n, |cps| - k
  {
    if k == |cps| then n < 0x11_0000 && TooBig(cps, n + 1, 0, nd, id)
    else if cps[k] != n then TooBig(cps, n, k + 1, nd, id)
    else Delta(cps, n, k, nd, id) > 0xFFFF_FFFF || TooBig(cps, n, k + 1, n, At(cps, n, k) + 1)
  }

  // Some integer of the label's Punycode form does not fit in 32 bits.
  predicate LabelTooBig(cps: seq<nat>)
    requires Unicode(cps)
  {
    TooBig(cps, INITIAL_N, 0, INITIAL_N, 0)
  }

  // ---------- integers ----------

  lemma MulAdd(i: nat, d: nat, w: nat, m: nat, q': nat, q: nat)
    requires q == d + m * q'
    ensures i + d * w + q' * (w * m) == i + q * w
  {
    assert q' * (w * m) == (m * q') * w;
    assert (d + m * q') * w == d * w + (m * q') * w;
  }

  lemma DivMod(a: nat, m: nat)
    requires m > 0
    ensures a == m * (a / m) + a % m && a % m < m && a / m <= a
  {
    var x := a / m;
    AtLeast(x, m);
    assert x * m <= a;
  }

  lemma AtLeast(x: nat, m: nat)
    requires m > 0
    ensures x <= x * m
  {
  }

  // The first digit of q and what is left.
  lemma FirstDigit(q: nat, k: nat, bias: nat) returns (d: nat, q': nat)
    requires q >= Threshold(k, bias)
    ensures var t := Threshold(k, bias); t <= d < 36 && q' < q && q == d + (36 - t) * q'
    ensures EncodeInt(q, k, bias) == [d] + EncodeInt(q', k + 36, bias)
  {
    var t := Threshold(k, bias);
    DivMod(q - t, 36 - t);
    d, q' := t + (q - t) % (36 - t), (q - t) / (36 - t);
  }

  predicate Reads(p: Parsed, value: int, rest: seq<nat>) { p.Int? && p.value == value && p.rest == rest }

  lemma IntLast(q: nat, k: nat, bias: nat, i: nat, w: nat, rest: seq<nat>)
    requires q < Threshold(k, bias)
    ensures Reads(DecodeInt([q] + rest, i, w, k, bias), i + q * w, rest)
  {
    assert ([q] + rest)[1..] == rest;
  }

  lemma IntStep(d: nat, k: nat, bias: nat, i: nat, w: nat, more: seq<nat>, i': nat, w': nat)
    requires d >= Threshold(k, bias) && i' == i + d * w && w' == w * (36 - Threshold(k, bias))
    ensures DecodeInt([d] + more, i, w, k, bias) == DecodeInt(more, i', w', k + 36, bias)
  {
    assert ([d] + more)[1..] == more;
  }

  // The decoder adds the integer, times its weight w, to i.
  lemma {:induction false} IntRoundTrip(q: nat, k: nat, bias: nat, i: nat, w: nat, rest: seq<nat>)
    ensures Reads(DecodeInt(EncodeInt(q, k, bias) + rest, i, w, k, bias), i + q * w, rest)
    decreases q
  {
    if q < Threshold(k, bias) {
      IntLast(q, k, bias, i, w, rest);
    } else {
      IntMore(q, k, bias, i, w, rest, i + q * w);
    }
  }

  lemma IntGlue(ds: seq<nat>, d: nat, ds': seq<nat>, k: nat, bias: nat, i: nat, w: nat, i': nat, w': nat, v: int,
      rest: seq<nat>)
    requires d >= Threshold(k, bias) && i' == i + d * w && w' == w * (36 - Threshold(k, bias)) && ds == [d] + ds'
    requires Reads(DecodeInt(ds' + rest, i', w', k + 36, bias), v, rest)
    ensures Reads(DecodeInt(ds + rest, i, w, k, bias), v, rest)
  {
    assert ds + rest == [d] + (ds' + rest);
    IntStep(d, k, bias, i, w, ds' + rest, i', w');
  }

  lemma ValueKept(i: nat, d: nat, w: nat, m: nat, q': nat, q: nat, i': nat, w': nat)
    requires q == d + m * q' && i' == i + d * w && w' == w * m
    ensures i' + q' * w' == i + q * w
  {
    MulAdd(i, d, w, m, q', q);
  }

  lemma Weighed(q: nat, d: nat, q': nat, m: nat, i: nat, w: nat, v: nat) returns (i': nat, w': nat)
    requires q == d + m * q' && v == i + q * w
    ensures i' == i + d * w && w' == w * m && v == i' + q' * w'
  {
    i', w' := i + d * w, w * m;
    ValueKept(i, d, w, m, q', q, i', w');
  }

  // The first digit of q, and what the decoder goes on with after it.
  lemma Carried(q: nat, k: nat, bias: nat, i: nat, w: nat, v: nat) returns (d: nat, q': nat, i': nat, w': nat)
    requires q >= Threshold(k, bias) && v == i + q * w
    ensures Threshold(k, bias) <= d && q' < q && EncodeInt(q, k, bias) == [d] + EncodeInt(q', k + 36, bias)
    ensures i' == i + d * w && w' == w * (36 - Threshold(k, bias)) && v == i' + q' * w'
  {
    d, q' := FirstDigit(q, k, bias);
    i', w' := Weighed(q, d, q', 36 - Threshold(k, bias), i, w, v);
  }

  lemma {:induction false} IntMore(q: nat, k: nat, bias: nat, i: nat, w: nat, rest: seq<nat>, v: nat)
    requires q >= Threshold(k, bias) && v == i + q * w
    ensures Reads(DecodeInt(EncodeInt(q, k, bias) + rest, i, w, k, bias), v, rest)
    decreases q, 0
  {
    var d, q', i', w' := Carried(q, k, bias, i, w, v);
    IntRoundTrip(q', k + 36, bias, i', w', rest);
    IntGlue(EncodeInt(q, k, bias), d, EncodeInt(q', k + 36, bias), k, bias, i, w, i', w', v, rest);
  }

  lemma {:induction false} IntDigits(q: nat, k: nat, bias: nat)
    ensures var ds := EncodeInt(q, k, bias); |ds| > 0 && forall j :: 0 <= j < |ds| ==> ds[j] < 36
    decreases q
  {
    if q >= Threshold(k, bias) {
      var d, q' := FirstDigit(q, k, bias);
      IntDigits(q', k + 36, bias);
    }
  }

  lemma {:induction false} IntMade(q: nat, k: nat, bias: nat)
    ensures var ds := EncodeInt(q, k, bias); Made(ds, k, bias) && Worth(ds, k, bias) == q
    decreases q
  {
    if q < Threshold(k, bias) {
      assert [q][1..] == [];
    } else {
      var d, q' := FirstDigit(q, k, bias);
      IntMade(q', k + 36, bias);
      assert EncodeInt(q, k, bias)[1..] == EncodeInt(q', k + 36, bias);
    }
  }

  lemma FirstWritten(d: nat, q': nat, q: nat, k: nat, bias: nat)
    requires Threshold(k, bias) <= d < 36 && q == d + (36 - Threshold(k, bias)) * q'
    ensures EncodeInt(q, k, bias) == [d] + EncodeInt(q', k + 36, bias)
  {
    var t := Threshold(k, bias);
    var m := 36 - t;
    Split(q', d - t, m);
    assert q - t == q' * m + (d - t);
  }

  lemma {:induction false} MadeInt(ds: seq<nat>, k: nat, bias: nat)
    requires Made(ds, k, bias)
    ensures EncodeInt(Worth(ds, k, bias), k, bias) == ds
    decreases |ds|
  {
    if |ds| == 1 {
      assert Worth(ds[1..], k + 36, bias) == 0;
    } else {
      MadeInt(ds[1..], k + 36, bias);
      FirstWritten(ds[0], Worth(ds[1..], k + 36, bias), Worth(ds, k, bias), k, bias);
      assert ds == [ds[0]] + ds[1..];
    }
  }

  // What is written for q is the one way to write it.
  lemma IntIs(q: nat, ds: seq<nat>, k: nat, bias: nat)
    ensures EncodeInt(q, k, bias) == ds <==> Made(ds, k, bias) && Worth(ds, k, bias) == q
  {
    IntMade(q, k, bias);
    if Made(ds, k, bias) { MadeInt(ds, k, bias); }
  }

  // ---------- the bias ----------

  lemma ShrunkMore(x: nat, r: nat)
    ensures Shrunk(x, r + 1) == Shrunk(x / 35, r)
  {
    var p, a := Pow35(r), x / 35;
    DivMod(x, 35);
    DivMod(a, p);
    var q, e, f := a / p, x % 35, a % p;
    assert 35 * (p * q) == q * (35 * p);
    assert x == q * (35 * p) + (35 * f + e);
    Split(q, 35 * f + e, 35 * p);
  }

  lemma {:induction false} ScaleIs(x: nat, k: nat) returns (s: nat)
    ensures Scale(x, k) >= k && IsScaled(Scale(x, k) - k, x, s)
    decreases x
  {
    assert Shrunk(x, 0) == x;
    if x <= 455 {
      s := 0;
    } else {
      var t := ScaleIs(x / 35, k + 36);
      s := t + 1;
      ShrunkMore(x, t);
      forall r: nat | r < s ensures Shrunk(x, r) > 455 {
        if r > 0 { ShrunkMore(x, r - 1); }
      }
    }
  }

  lemma ScaledOnce(b: nat, c: nat, x: nat, s: nat, t: nat)
    requires IsScaled(b, x, s) && IsScaled(c, x, t)
    ensures b == c
  {
    assert !(s < t) && !(t < s);
  }

  lemma AdaptScales(delta: nat, points: nat, first: bool)
    requires points > 0
    ensures Adapt(delta, points, first) == Scale(Damped(delta, points, first), 0)
  {
  }

  // Adapt gives the bias of section 6.1 and nothing else.
  lemma AdaptIs(bias: nat, delta: nat, points: nat, first: bool)
    requires points > 0
    ensures IsBias(bias, delta, points, first) <==> bias == Adapt(delta, points, first)
  {
    var x := Damped(delta, points, first);
    AdaptScales(delta, points, first);
    var s := ScaleIs(x, 0);
    if t: nat :| IsScaled(bias, x, t) { ScaledOnce(bias, Scale(x, 0), x, t, s); }
  }

  // ---------- the walk over the decoder's states ----------

  lemma {:induction false} BelowJoin(a: seq<nat>, b: seq<nat>, n: nat)
    ensures Below(a + b, n) == Below(a, n) + Below(b, n)
  {
    if a == [] {
      assert a + b == b;
    } else {
      assert (a + b)[1..] == a[1..] + b;
      BelowJoin(a[1..], b, n);
    }
  }

  lemma {:induction false} BelowAll(s: seq<nat>, n: nat)
    requires forall i :: 0 <= i < |s| ==> s[i] < n
    ensures Below(s, n) == s
  {
    if s != [] { BelowAll(s[1..], n); }
  }

  lemma {:induction false} BelowNone(s: seq<nat>, n: nat)
    requires forall i :: 0 <= i < |s| ==> s[i] >= n
    ensures Below(s, n) == []
  {
    if s != [] { BelowNone(s[1..], n); }
  }

  lemma OutNext(cps: seq<nat>, n: nat, k: nat)
    requires k < |cps|
    ensures Below(cps[..k + 1], n + 1) == Below(cps[..k], n + 1) + (if cps[k] <= n then [cps[k]] else [])
    ensures Below(cps[k..], n) == (if cps[k] < n then [cps[k]] else []) + Below(cps[k + 1..], n)
  {
    assert cps[..k + 1] == cps[..k] + [cps[k]] && cps[k..] == [cps[k]] + cps[k + 1..];
    BelowJoin(cps[..k], [cps[k]], n + 1);
    BelowJoin([cps[k]], cps[k + 1..], n);
  }

  // Passing a code point other than n changes nothing; passing n inserts it.
  lemma OutStep(cps: seq<nat>, n: nat, k: nat)
    requires k < |cps|
    ensures cps[k] != n ==> Out(cps, n, k + 1) == Out(cps, n, k)
    ensures cps[k] == n ==>
      Out(cps, n, k + 1) == Out(cps, n, k)[..At(cps, n, k)] + [n] + Out(cps, n, k)[At(cps, n, k)..]
    ensures At(cps, n, k + 1) == At(cps, n, k) + (if cps[k] <= n then 1 else 0)
  {
    OutNext(cps, n, k);
    var a, b := Below(cps[..k], n + 1), Below(cps[k + 1..], n);
    if cps[k] < n { assert a + [cps[k]] + b == a + ([cps[k]] + b); }
    if cps[k] == n { assert (a + b)[..|a|] == a && (a + b)[|a|..] == b; }
  }

  lemma OutWrap(cps: seq<nat>, n: nat)
    ensures Out(cps, n, |cps|) == Out(cps, n + 1, 0) && At(cps, n, |cps|) == |Out(cps, n, |cps|)|
      && At(cps, n + 1, 0) == 0
  {
    assert cps[..|cps|] == cps && cps[|cps|..] == [] && cps[..0] == [] && cps[0..] == cps;
  }

  lemma OutFull(cps: seq<nat>, n: nat)
    requires forall i :: 0 <= i < |cps| ==> cps[i] <= n
    ensures Out(cps, n, |cps|) == cps
  {
    BelowAll(cps, n + 1);
    assert cps[..|cps|] == cps && cps[|cps|..] == [];
  }

  // The decoder at (nd, id) has not passed (n, k).
  ghost predicate Behind(cps: seq<nat>, n: nat, k: nat, nd: nat, id: nat)
    requires k <= |cps|
  {
    id <= |Out(cps, n, k)| && (nd < n || (nd == n && id <= At(cps, n, k)))
  }

  lemma Split(q: nat, r: nat, m: nat)
    requires r < m
    ensures (q * m + r) / m == q && (q * m + r) % m == r
  {
    DivMod(q * m + r, m);
    var q', r' := (q * m + r) / m, (q * m + r) % m;
    assert (q - q') * m == r' - r;
    if q > q' { AtLeast(m, q - q'); }
    if q < q' { AtLeast(m, q' - q); }
  }

  lemma DeltaSplit(cps: seq<nat>, n: nat, k: nat, nd: nat, id: nat)
    requires k <= |cps| && Behind(cps, n, k, nd, id)
    ensures var v, len := id + Delta(cps, n, k, nd, id), |Out(cps, n, k)| + 1;
      && Delta(cps, n, k, nd, id) >= 0 && v / len == n - nd && v % len == At(cps, n, k) < len
  {
    var len := |Out(cps, n, k)| + 1;
    Split(n - nd, At(cps, n, k), len);
    if nd < n { AtLeast(len, n - nd); }
  }

  lemma DecodeStep(ds: seq<nat>, v: nat, rest: seq<nat>, nd: nat, id: nat, bias: nat, out: seq<nat>, n: nat, at: nat)
    requires |ds| > 0 && Reads(DecodeInt(ds, id, 1, 36, bias), v, rest) && v >= id
    requires var len := |out| + 1; n >= nd && v / len == n - nd && v % len == at
    ensures DecodeDigits(ds, nd, id, bias, out)
      == DecodeDigits(rest, n, at + 1, Adapt(v - id, |out| + 1, id == 0), out[..at] + [n] + out[at..])
  {
  }

  lemma DecodeOne(delta: nat, rest: seq<nat>, nd: nat, id: nat, bias: nat, out: seq<nat>, n: nat, at: nat)
    requires var len := |out| + 1; n >= nd && (id + delta) / len == n - nd && (id + delta) % len == at
    ensures DecodeDigits(EncodeInt(delta, 36, bias) + rest, nd, id, bias, out)
      == DecodeDigits(rest, n, at + 1, Adapt(delta, |out| + 1, id == 0), out[..at] + [n] + out[at..])
  {
    IntRoundTrip(delta, 36, bias, id, 1, rest);
    IntDigits(delta, 36, bias);
    DecodeStep(EncodeInt(delta, 36, bias) + rest, id + delta, rest, nd, id, bias, out, n, at);
  }

  predicate Gives(r: Decoded, cps: seq<nat>) { r.Text? && r.cps == cps }

  lemma TailInsert(cps: seq<nat>, n: nat, k: nat, nd: nat, id: nat, bias: nat, bias': nat, delta: nat, at: nat)
    requires Unicode(cps) && k < |cps| && cps[k] == n && delta == Delta(cps, n, k, nd, id) && at == At(cps, n, k)
    requires bias' == Adapt(delta, |Out(cps, n, k)| + 1, id == 0)
    ensures Tail(cps, n, k, nd, id, bias) == EncodeInt(delta, 36, bias) + Tail(cps, n, k + 1, n, at + 1, bias')
  {
  }

  lemma DecodeInsert(cps: seq<nat>, n: nat, k: nat, nd: nat, id: nat, bias: nat, bias': nat)
    requires Unicode(cps) && k < |cps| && cps[k] == n && Behind(cps, n, k, nd, id) && Delta(cps, n, k, nd, id) >= 0
    requires bias' == Adapt(Delta(cps, n, k, nd, id), |Out(cps, n, k)| + 1, id == 0)
    requires Gives(DecodeDigits(Tail(cps, n, k + 1, n, At(cps, n, k) + 1, bias'), n, At(cps, n, k) + 1, bias',
      Out(cps, n, k + 1)), cps)
    ensures Gives(DecodeDigits(Tail(cps, n, k, nd, id, bias), nd, id, bias, Out(cps, n, k)), cps)
  {
    var delta, at, out := Delta(cps, n, k, nd, id), At(cps, n, k), Out(cps, n, k);
    var rest := Tail(cps, n, k + 1, n, at + 1, bias');
    TailInsert(cps, n, k, nd, id, bias, bias', delta, at);
    DeltaSplit(cps, n, k, nd, id);
    OutStep(cps, n, k);
    calc {
      DecodeDigits(Tail(cps, n, k, nd, id, bias), nd, id, bias, out);
    ==
      DecodeDigits(EncodeInt(delta, 36, bias) + rest, nd, id, bias, out);
    == { DecodeOne(delta, rest, nd, id, bias, out, n, at); }
      DecodeDigits(rest, n, at + 1, bias', out[..at] + [n] + out[at..]);
    ==
      DecodeDigits(rest, n, at + 1, bias', Out(cps, n, k + 1));
    }
  }

  // Decoding the remaining digits from the decoder's state completes the label.
  lemma {:induction false} DecodeTail(cps: seq<nat>, n: nat, k: nat, nd: nat, id: nat, bias: nat)
    requires Unicode(cps) && k <= |cps| && Behind(cps, n, k, nd, id)
    ensures Gives(DecodeDigits(Tail(cps, n, k, nd, id, bias), nd, id, bias, Out(cps, n, k)), cps)
    decreases 0x11_0000 - n, |cps| - k
  {
    if k == |cps| {
      OutWrap(cps, n);
      if n >= 0x11_0000 {
        OutFull(cps, n);
      } else {
        DecodeTail(cps, n + 1, 0, nd, id, bias);
      }
    } else {
      OutStep(cps, n, k);
      if cps[k] != n {
        DecodeTail(cps, n, k + 1, nd, id, bias);
      } else {
        DeltaSplit(cps, n, k, nd, id);
        var bias' := Adapt(Delta(cps, n, k, nd, id), |Out(cps, n, k)| + 1, id == 0);
        DecodeTail(cps, n, k + 1, n, At(cps, n, k) + 1, bias');
        DecodeInsert(cps, n, k, nd, id, bias, bias');
      }
    }
  }

  // ---------- the walk, seen from the encoder ----------

  lemma {:induction false} BelowSome(s: seq<nat>, n: nat)
    ensures |Below(s, n)| <= |s|
    ensures |Below(s, n)| < |s| <==> exists i :: 0 <= i < |s| && s[i] >= n
  {
    if s != [] {
      BelowSome(s[1..], n);
      if i :| 0 <= i < |s[1..]| && s[1..][i] >= n { assert s[i + 1] >= n; }
      if i :| 0 <= i < |s| && s[i] >= n && s[0] < n { assert s[1..][i - 1] >= n; }
    }
  }

  lemma DeltaStep(cps: seq<nat>, n: nat, k: nat, nd: nat, id: nat)
    requires k < |cps| && cps[k] != n
    ensures |Out(cps, n, k + 1)| == |Out(cps, n, k)|
    ensures Delta(cps, n, k + 1, nd, id) == Delta(cps, n, k, nd, id) + (if cps[k] < n then 1 else 0)
  {
    OutStep(cps, n, k);
  }

  lemma DeltaWrap(cps: seq<nat>, n: nat, nd: nat, id: nat)
    ensures Delta(cps, n + 1, 0, nd, id) == Delta(cps, n, |cps|, nd, id) + 1
  {
    OutWrap(cps, n);
    Distribute(n - nd, |Out(cps, n, |cps|)| + 1);
  }

  lemma Distribute(q: int, m: int)
    ensures (q + 1) * m == q * m + m
  {
  }

  // With code points left, a state too far ahead means an integer that is too big.
  lemma {:induction false} TooFar(cps: seq<nat>, n: nat, k: nat, nd: nat, id: nat)
    requires Unicode(cps) && k <= |cps| && |Out(cps, n, k)| < |cps| && Delta(cps, n, k, nd, id) > 0xFFFF_FFFF
    ensures TooBig(cps, n, k, nd, id)
    decreases 0x11_0000 - n, |cps| - k
  {
    if k == |cps| {
      OutWrap(cps, n);
      DeltaWrap(cps, n, nd, id);
      if n < 0x11_0000 {
        TooFar(cps, n + 1, 0, nd, id);
      } else {
        OutFull(cps, n);
      }
    } else if cps[k] != n {
      DeltaStep(cps, n, k, nd, id);
      TooFar(cps, n, k + 1, nd, id);
    }
  }

  // No n at k or later: the walk reaches the end of the pass unchanged.
  lemma {:induction false} SkipRest(cps: seq<nat>, n: nat, k: nat, nd: nat, id: nat, bias: nat)
    requires Unicode(cps) && k <= |cps| && forall j :: k <= j < |cps| ==> cps[j] != n
    ensures Tail(cps, n, k, nd, id, bias) == Tail(cps, n, |cps|, nd, id, bias)
    ensures TooBig(cps, n, k, nd, id) == TooBig(cps, n, |cps|, nd, id)
    ensures Out(cps, n, k) == Out(cps, n, |cps|)
    decreases |cps| - k
  {
    if k < |cps| {
      OutStep(cps, n, k);
      SkipRest(cps, n, k + 1, nd, id, bias);
    }
  }

  // No code point from n up to m: the walk may go on at m.
  lemma {:induction false} Jump(cps: seq<nat>, n: nat, m: nat, nd: nat, id: nat, bias: nat)
    requires Unicode(cps) && n <= m < 0x11_0000 && forall j :: 0 <= j < |cps| ==> !(n <= cps[j] < m)
    ensures Tail(cps, n, 0, nd, id, bias) == Tail(cps, m, 0, nd, id, bias)
    ensures TooBig(cps, n, 0, nd, id) == TooBig(cps, m, 0, nd, id)
    ensures Out(cps, n, 0) == Out(cps, m, 0)
    ensures Delta(cps, m, 0, nd, id) == Delta(cps, n, 0, nd, id) + (m - n) * (|Out(cps, n, 0)| + 1)
    decreases m - n
  {
    if n < m {
      SkipRest(cps, n, 0, nd, id, bias);
      OutWrap(cps, n);
      Jump(cps, n + 1, m, nd, id, bias);
      JumpArith(n, m, nd, |Out(cps, n, 0)| + 1);
    }
  }

  // With every code point in the output nothing remains to be written.
  lemma {:induction false} NoMore(cps: seq<nat>, n: nat, nd: nat, id: nat, bias: nat)
    requires Unicode(cps) && forall j :: 0 <= j < |cps| ==> cps[j] < n
    ensures Tail(cps, n, 0, nd, id, bias) == [] && !TooBig(cps, n, 0, nd, id)
    decreases 0x11_0000 - n
  {
    SkipRest(cps, n, 0, nd, id, bias);
    if n < 0x11_0000 { NoMore(cps, n + 1, nd, id, bias); }
  }

  lemma JumpArith(n: nat, m: nat, nd: nat, len: nat)
    ensures (m - nd) * len == (n - nd) * len + (m - n) * len
  {
  }

  // ---------- labels ----------

  const DASH := 45

  // Digits are a to z and 0 to 9.
  function CharOf(d: nat): nat { if d < 26 then 97 + d else 22 + d }

  const ALPHABET := "abcdefghijklmnopqrstuvwxyz0123456789"

  lemma CharsInAlphabet(d: nat)
    requires d < 36
    ensures CharOf(d) == ALPHABET[d] as nat
  {
  }

  function DigitOf(c: nat): int {
    if 97 <= c < 123 then c - 97 else if 65 <= c < 91 then c - 65 else if 48 <= c < 58 then c - 22 else -1
  }

  function Chars(ds: seq<nat>): (r: seq<nat>)
    ensures |r| == |ds| && forall j :: 0 <= j < |ds| ==> r[j] == CharOf(ds[j])
  {
    if ds == [] then [] else [CharOf(ds[0])] + Chars(ds[1..])
  }

  predicate AllDigits(t: seq<nat>) { forall j :: 0 <= j < |t| ==> DigitOf(t[j]) >= 0 }

  function Digits(t: seq<nat>): (r: seq<nat>)
    requires AllDigits(t)
    ensures |r| == |t| && forall j :: 0 <= j < |t| ==> r[j] == DigitOf(t[j])
  {
    if t == [] then [] else
      assert DigitOf(t[0]) >= 0;
      [DigitOf(t[0])] + Digits(t[1..])
  }

  // The number of characters before the last delimiter; none if there is none.
  function Basic(t: seq<nat>): (b: nat)
    ensures b == 0 || (b < |t| && t[b] == DASH)
    ensures forall j :: b < j < |t| ==> t[j] != DASH
  {
    if t == [] then 0 else
      var b := Basic(t[1..]);
      assert forall j :: b + 1 < j < |t| ==> t[j] == t[1..][j - 1];
      if b > 0 || (|t| > 1 && t[1] == DASH) then b + 1 else 0
  }

  // The decoding procedure of section 6.2.
  function Decode(t: seq<nat>): Decoded {
    var b := Basic(t);
    var rest := if b > 0 then t[b + 1..] else t;
    if AllDigits(rest) then DecodeDigits(Digits(rest), INITIAL_N, 0, INITIAL_BIAS, t[..b]) else Fail
  }

  function Prefix(basic: seq<nat>): seq<nat> { if basic == [] then [] else basic + [DASH] }

  predicate Ascii(cps: seq<nat>) { forall i :: 0 <= i < |cps| ==> cps[i] < 128 }

  function Encoded(cps: seq<nat>): seq<nat>
    requires Unicode(cps)
  {
    Prefix(Below(cps, INITIAL_N)) + Chars(Tail(cps, INITIAL_N, 0, INITIAL_N, 0, INITIAL_BIAS))
  }

  // "xn--"
  const ACE := [120, 110, 45, 45]

  // The ASCII form of a label.
  function LabelText(cps: seq<nat>): seq<nat>
    requires Unicode(cps)
  {
    if Ascii(cps) then cps else ACE + Encoded(cps)
  }

  predicate Small(ds: seq<nat>) { forall j :: 0 <= j < |ds| ==> ds[j] < 36 }

  lemma {:induction false} TailDigits(cps: seq<nat>, n: nat, k: nat, nd: nat, id: nat, bias: nat)
    requires Unicode(cps) && k <= |cps|
    ensures Small(Tail(cps, n, k, nd, id, bias))
    decreases 0x11_0000 - n, |cps| - k
  {
    if k == |cps| {
      if n < 0x11_0000 { TailDigits(cps, n + 1, 0, nd, id, bias); }
    } else if cps[k] != n {
      TailDigits(cps, n, k + 1, nd, id, bias);
    } else {
      var d := Delta(cps, n, k, nd, id);
      var delta := if d < 0 then 0 else d;
      var bias' := Adapt(delta, |Out(cps, n, k)| + 1, id == 0);
      IntDigits(delta, 36, bias);
      TailDigits(cps, n, k + 1, n, At(cps, n, k) + 1, bias');
    }
  }

  lemma CharsRoundTrip(ds: seq<nat>)
    requires Small(ds)
    ensures var t := Chars(ds); AllDigits(t) && Digits(t) == ds && forall j :: 0 <= j < |t| ==> t[j] != DASH
  {
    var t := Chars(ds);
    assert forall j :: 0 <= j < |t| ==> DigitOf(t[j]) == ds[j];
  }

  lemma BasicOf(basic: seq<nat>, t: seq<nat>)
    requires forall j :: 0 <= j < |t| ==> t[j] != DASH
    ensures Basic(Prefix(basic) + t) == |basic|
  {
    var u := Prefix(basic) + t;
    var b := Basic(u);
    if basic != [] { assert u[|basic|] == DASH; }
    assert forall j :: |basic| < j < |u| ==> u[j] != DASH;
  }

  // The decoder takes basic code points and digits apart again.
  lemma DecodesParts(basic: seq<nat>, ds: seq<nat>)
    requires Small(ds)
    ensures Decode(Prefix(basic) + Chars(ds)) == DecodeDigits(ds, INITIAL_N, 0, INITIAL_BIAS, basic)
  {
    CharsRoundTrip(ds);
    BasicOf(basic, Chars(ds));
    var t := Prefix(basic) + Chars(ds);
    assert t[..|basic|] == basic;
    assert (if |basic| > 0 then t[|basic| + 1..] else t) == Chars(ds);
  }

  // Section 6.2 decodes what follows the prefix to the label.
  lemma LabelRoundTrip(cps: seq<nat>)
    requires Unicode(cps) && !Ascii(cps)
    ensures LabelText(cps)[..4] == ACE
    ensures Gives(Decode(LabelText(cps)[4..]), cps)
  {
    var basic, ds := Below(cps, INITIAL_N), Tail(cps, INITIAL_N, 0, INITIAL_N, 0, INITIAL_BIAS);
    TailDigits(cps, INITIAL_N, 0, INITIAL_N, 0, INITIAL_BIAS);
    DecodesParts(basic, ds);
    assert LabelText(cps)[4..] == Prefix(basic) + Chars(ds);
    assert cps[..0] == [] && cps[0..] == cps;
    assert Out(cps, INITIAL_N, 0) == basic;
    DecodeTail(cps, INITIAL_N, 0, INITIAL_N, 0, INITIAL_BIAS);
  }

  // ---------- samples ----------

  function Codes(s: string): (r: seq<nat>)
    ensures |r| == |s| && forall j :: 0 <= j < |s| ==> r[j] == s[j] as nat
  {
    seq(|s|, j requires 0 <= j < |s| => s[j] as nat)
  }

  predicate ShrinksTo(x: nat, s: nat, y: nat) {
    || (s == 0 && y == x <= 455)
    || (s == 1 && x > 455 && y == x / 35 <= 455)
    || (s == 2 && x / 35 > 455 && y == x / 35 / 35 <= 455)
  }

  lemma ScaleOnce(x: nat, k: nat, y: nat)
    requires x > 455 && y == x / 35
    ensures Scale(x, k) == Scale(y, k + 36)
  {
  }

  lemma ScaleLast(y: nat, k: nat)
    requires y <= 455
    ensures Scale(y, k) == k + 36 * y / (y + 38)
  {
  }

  lemma ScalesTo(x: nat, s: nat, y: nat)
    requires ShrinksTo(x, s, y)
    ensures Scale(x, 0) == 36 * s + 36 * y / (y + 38)
  {
    if s > 0 { ScaleOnce(x, 0, x / 35); }
    if s > 1 { ScaleOnce(x / 35, 36, y); }
    ScaleLast(y, 36 * s);
  }

  // The decoder reads one integer, inserts its code point and scales x down to y for the
  // next bias.
  lemma SampleStep(digits: seq<nat>, delta: nat, rest: seq<nat>, nd: nat, id: nat, bias: nat, out: seq<nat>, n: nat,
      at: nat, x: nat, s: nat, y: nat, bias': nat, out': seq<nat>)
    requires Made(digits, 36, bias) && Worth(digits, 36, bias) == delta
    requires var len := |out| + 1; n >= nd && (id + delta) / len == n - nd && (id + delta) % len == at
    requires Damped(delta, |out| + 1, id == 0) == x && ShrinksTo(x, s, y) && bias' == 36 * s + 36 * y / (y + 38)
    requires at <= |out| && out' == out[..at] + [n] + out[at..]
    ensures DecodeDigits(digits + rest, nd, id, bias, out) == DecodeDigits(rest, n, at + 1, bias', out')
  {
    IntIs(delta, digits, 36, bias);
    AdaptScales(delta, |out| + 1, id == 0);
    ScalesTo(x, s, y);
    DecodeOne(delta, rest, nd, id, bias, out, n, at);
  }

  const L := [0x33, 0x5E74, 0x42, 0x7D44, 0x91D1, 0x516B, 0x5148, 0x751F]

  // Sample (L) of section 7.1: a first delta of 62042, and later deltas that the bias
  // divides by 35. SampleL6 to SampleL1 read its integers, last to first.
  lemma SampleL6(ds: seq<nat>)
    requires ds == [18, 24, 28, 1]
    ensures Gives(DecodeDigits(ds, 0x7D44, 4, 67, [0x33, 0x5E74, 0x42, 0x7D44, 0x516B, 0x5148, 0x751F]), L)
  {
    assert ds == [18, 24, 28, 1] + ds[4..];
    SampleStep([18, 24, 28, 1], 42088, ds[4..], 0x7D44, 4, 67, [0x33, 0x5E74, 0x42, 0x7D44, 0x516B, 0x5148, 0x751F],
      0x91D1, 4, 23674, 2, 19, 84, [0x33, 0x5E74, 0x42, 0x7D44, 0x91D1, 0x516B, 0x5148, 0x751F]);
  }

  lemma SampleL5(ds: seq<nat>)
    requires ds == [32, 31, 11, 18, 24, 28, 1]
    ensures Gives(DecodeDigits(ds, 0x751F, 6, 82, [0x33, 0x5E74, 0x42, 0x516B, 0x5148, 0x751F]), L)
  {
    assert ds == [32, 31, 11] + ds[3..];
    SampleL6(ds[3..]);
    SampleStep([32, 31, 11], 14592, ds[3..], 0x751F, 6, 82, [0x33, 0x5E74, 0x42, 0x516B, 0x5148, 0x751F], 0x7D44,
      3, 8338, 1, 238, 67, [0x33, 0x5E74, 0x42, 0x7D44, 0x516B, 0x5148, 0x751F]);
  }

  lemma SampleL4(ds: seq<nat>)
    requires ds == [31, 33, 31, 0, 32, 31, 11, 18, 24, 28, 1]
    ensures Gives(DecodeDigits(ds, 0x5E74, 2, 67, [0x33, 0x5E74, 0x42, 0x516B, 0x5148]), L)
  {
    assert ds == [31, 33, 31, 0] + ds[4..];
    SampleL5(ds[4..]);
    SampleStep([31, 33, 31, 0], 34821, ds[4..], 0x5E74, 2, 67, [0x33, 0x5E74, 0x42, 0x516B, 0x5148], 0x751F,
      5, 20311, 2, 16, 82, [0x33, 0x5E74, 0x42, 0x516B, 0x5148, 0x751F]);
  }

  lemma SampleL3(ds: seq<nat>)
    requires ds == [27, 34, 26, 4, 31, 33, 31, 0, 32, 31, 11, 18, 24, 28, 1]
    ensures Gives(DecodeDigits(ds, 0x516B, 3, 24, [0x33, 0x42, 0x516B, 0x5148]), L)
  {
    assert ds == [27, 34, 26, 4] + ds[4..];
    SampleL4(ds[4..]);
    SampleStep([27, 34, 26, 4], 16683, ds[4..], 0x516B, 3, 24, [0x33, 0x42, 0x516B, 0x5148], 0x5E74,
      1, 10009, 1, 285, 67, [0x33, 0x5E74, 0x42, 0x516B, 0x5148]);
  }

  lemma SampleL2(ds: seq<nat>)
    requires ds == [31, 4, 27, 34, 26, 4, 31, 33, 31, 0, 32, 31, 11, 18, 24, 28, 1]
    ensures Gives(DecodeDigits(ds, 0x5148, 3, 27, [0x33, 0x42, 0x5148]), L)
  {
    assert ds == [31, 4] + ds[2..];
    SampleL3(ds[2..]);
    SampleStep([31, 4], 139, ds[2..], 0x5148, 3, 27, [0x33, 0x42, 0x5148], 0x516B,
      2, 86, 0, 86, 24, [0x33, 0x42, 0x516B, 0x5148]);
  }

  lemma SampleL1(ds: seq<nat>)
    requires ds == [22, 22, 30, 2, 31, 4, 27, 34, 26, 4, 31, 33, 31, 0, 32, 31, 11, 18, 24, 28, 1]
    ensures Gives(DecodeDigits(ds, 0x80, 0, 72, [0x33, 0x42]), L)
  {
    assert ds == [22, 22, 30, 2] + ds[4..];
    SampleL2(ds[4..]);
    SampleStep([22, 22, 30, 2], 62042, ds[4..], 0x80, 0, 72, [0x33, 0x42], 0x5148,
      2, 117, 0, 117, 27, [0x33, 0x42, 0x5148]);
  }

  lemma CharsAre(ds: seq<nat>, cs: seq<nat>)
    requires |ds| == |cs| && forall j :: 0 <= j < |ds| ==> CharOf(ds[j]) == cs[j]
    ensures Chars(ds) == cs
  {
  }

  lemma CharsL(ds: seq<nat>, cs: seq<nat>)
    requires ds == [22, 22, 30, 2, 31, 4, 27, 34, 26, 4, 31, 33, 31, 0, 32, 31, 11, 18, 24, 28, 1]
    requires cs == [119, 119, 52, 99, 53, 101, 49, 56, 48, 101, 53, 55, 53, 97, 54, 53, 108, 115, 121, 50, 98]
    ensures |ds| == |cs| && forall j :: 0 <= j < |ds| ==> CharOf(ds[j]) == cs[j]
    ensures Small(ds)
  {
  }

  lemma CodesL(t: seq<nat>, cs: seq<nat>)
    requires t == Codes("3B-ww4c5e180e575a65lsy2b")
    requires cs == [119, 119, 52, 99, 53, 101, 49, 56, 48, 101, 53, 55, 53, 97, 54, 53, 108, 115, 121, 50, 98]
    ensures t == Prefix([0x33, 0x42]) + cs
  {
  }

  lemma SampleParts(t: seq<nat>, basic: seq<nat>, ds: seq<nat>, cs: seq<nat>, cps: seq<nat>)
    requires |ds| == |cs| && forall j :: 0 <= j < |ds| ==> CharOf(ds[j]) == cs[j]
    requires Small(ds) && t == Prefix(basic) + cs
    requires Gives(DecodeDigits(ds, INITIAL_N, 0, INITIAL_BIAS, basic), cps)
    ensures Gives(Decode(t), cps)
  {
    CharsAre(ds, cs);
    DecodesParts(basic, ds);
  }

  lemma SampleL(t: seq<nat>)
    requires t == Codes("3B-ww4c5e180e575a65lsy2b")
    ensures Gives(Decode(t), L)
  {
    var ds := [22, 22, 30, 2, 31, 4, 27, 34, 26, 4, 31, 33, 31, 0, 32, 31, 11, 18, 24, 28, 1];
    var cs := [119, 119, 52, 99, 53, 101, 49, 56, 48, 101, 53, 55, 53, 97, 54, 53, 108, 115, 121, 50, 98];
    CodesL(t, cs);
    CharsL(ds, cs);
    SampleL1(ds);
    SampleParts(t, [0x33, 0x42], ds, cs, L);
  }

  // The encoder, on two letters with diaeresis, from the second letter back to the first.
  lemma SecondLetter(cps: seq<nat>)
    requires cps == [0xE4, 0xF6]
    ensures Tail(cps, 0xF6, 0, 0xE4, 1, 0) == [26, 1]
  {
    assert cps[..1] == [0xE4] && cps[1..] == [0xF6];
    BelowAll(cps[..1], 0xF7);
    BelowNone(cps[1..], 0xF6);
    assert EncodeInt(36, 36, 0) == [26, 1] by { IntIs(36, [26, 1], 36, 0); }
    NoMore(cps, 0xF7, 0xF6, 2, 14);
    ScalesTo(27, 0, 27);
    assert Adapt(36, 2, false) == 14;
    TailInsert(cps, 0xF6, 1, 0xE4, 1, 0, 14, 36, 1);
  }

  lemma BetweenLetters(cps: seq<nat>)
    requires cps == [0xE4, 0xF6]
    ensures Tail(cps, 0xE4, 1, 0xE4, 1, 0) == Tail(cps, 0xF6, 0, 0xE4, 1, 0)
  {
    SkipRest(cps, 0xE4, 1, 0xE4, 1, 0);
    Jump(cps, 0xE5, 0xF6, 0xE4, 1, 0);
  }

  lemma NothingBefore(cps: seq<nat>)
    requires cps == [0xE4, 0xF6]
    ensures Out(cps, 0xE4, 0) == [] && At(cps, 0xE4, 0) == 0 && Delta(cps, 0xE4, 0, 0x80, 0) == 100
  {
    assert cps[..0] == [] && cps[0..] == cps;
    BelowNone(cps, 0xE4);
  }

  lemma FirstLetter(cps: seq<nat>)
    requires cps == [0xE4, 0xF6]
    ensures Tail(cps, 0xE4, 0, 0x80, 0, 72) == [30, 2, 0, 26, 1]
  {
    NothingBefore(cps);
    assert EncodeInt(100, 36, 72) == [30, 2, 0] by { IntIs(100, [30, 2, 0], 36, 72); }
    ScalesTo(0, 0, 0);
    assert Adapt(100, 1, true) == 0;
    TailInsert(cps, 0xE4, 0, 0x80, 0, 72, 0, 100, 0);
    BetweenLetters(cps);
    SecondLetter(cps);
  }

  lemma SampleLabel(cps: seq<nat>)
    requires cps == [0xE4, 0xF6]
    ensures LabelText(cps) == Codes("xn--4ca0b")
  {
    assert cps[0] == 0xE4;
    Jump(cps, 0x80, 0xE4, 0x80, 0, 72);
    FirstLetter(cps);
    BelowNone(cps, 128);
    assert Chars([30, 2, 0, 26, 1]) == [52, 99, 97, 48, 98];
  }
}
