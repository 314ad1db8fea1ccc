// 16-bit text that may hold lone surrogates, and WTF-8, from idna.c.
module Wtf8 {
  import opened Utf8

  predicate Units(u: seq<nat>) { forall i :: 0 <= i < |u| ==> 0 < u[i] < 0x1_0000 }

  const UV_ENOBUFS := -105

  // uv__get_surrogate_value at the start of u.
  function Value(u: seq<nat>): nat
    requires |u| > 0
  {
    if 0xD800 <= u[0] <= 0xDBFF && |u| != 1 && 0xDC00 <= u[1] <= 0xDFFF
    then 0x1_0000 + (u[0] - 0xD800) * 1024 + (u[1] - 0xDC00)
    else u[0]
  }

  function Width(u: seq<nat>): (n: nat)
    requires |u| > 0
    ensures 1 <= n <= |u|
  {
    if 0xD800 <= u[0] <= 0xDBFF && |u| != 1 && 0xDC00 <= u[1] <= 0xDFFF then 2 else 1
  }

  // The code points of 16-bit text, lone surrogates among them.
  function CodePoints(u: seq<nat>): seq<nat> {
    if u == [] then [] else [Value(u)] + CodePoints(u[Width(u)..])
  }

  predicate InRange(cps: seq<nat>) { forall i :: 0 <= i < |cps| ==> 0 < cps[i] < 0x11_0000 }

  function EncodeAll(cps: seq<nat>): seq<nat>
    requires InRange(cps)
  {
    if cps == [] then [] else Encode(cps[0]) + EncodeAll(cps[1..])
  }

  lemma {:induction false} PointsInRange(u: seq<nat>)
    requires Units(u)
    ensures InRange(CodePoints(u))
  {
    if u != [] { PointsInRange(u[Width(u)..]); }
  }

  // ---------- the decoder ----------

  // uv__wtf8_decode1 at byte p of a NUL-terminated string: the code point, -1 on error,
  // and the last byte it looked at.
  function Decode1(s: seq<nat>, p: nat): (r: (int, nat))
    requires p < |s| && Bytes(s) && s[|s| - 1] == 0
    ensures p <= r.1 < |s|
  {
    var b1 := s[p];
    if b1 <= 0x7F then (b1, p)
    else if b1 < 0xC2 then (-1, p)
    else
      var b2 := s[p + 1];
      if b2 / 64 != 2 then (-1, p + 1)
      else if b1 <= 0xDF then ((b1 * 64 + b2 % 64) % 0x800, p + 1)
      else
        var b3 := s[p + 2];
        if b3 / 64 != 2 then (-1, p + 2)
        else if b1 <= 0xEF then ((b1 * 0x1000 + b2 % 64 * 64 + b3 % 64) % 0x1_0000, p + 2)
        else
          var b4 := s[p + 3];
          if b4 / 64 != 2 then (-1, p + 3)
          else
            var c := (b1 * 0x4_0000 + b2 % 64 * 0x1000 + b3 % 64 * 64 + b4 % 64) % 0x20_0000;
            if b1 <= 0xF4 && c <= 0x10_FFFF then (c, p + 3) else (-1, p + 3)
  }

  lemma Decodes2(s: seq<nat>, p: nat, x: nat, y: nat)
    requires Bytes(s) && |s| > 0 && s[|s| - 1] == 0 && p + 2 < |s| && 2 <= x < 32 && y < 64 && s[p] == 0xC0 + x
      && s[p + 1] == 0x80 + y
    ensures Decode1(s, p) == (x * 64 + y, p + 1)
  {
    assert (0x80 + y) / 64 == 2 && (0x80 + y) % 64 == y;
    assert ((0xC0 + x) * 64 + y) == 6 * 0x800 + (x * 64 + y);
  }

  lemma Decodes3(s: seq<nat>, p: nat, x: nat, y: nat, z: nat)
    requires Bytes(s) && |s| > 0 && s[|s| - 1] == 0 && p + 3 < |s| && x < 16 && y < 64 && z < 64
    requires s[p] == 0xE0 + x && s[p + 1] == 0x80 + y && s[p + 2] == 0x80 + z
    ensures Decode1(s, p) == (x * 0x1000 + y * 64 + z, p + 2)
  {
    assert (0x80 + y) / 64 == 2 && (0x80 + y) % 64 == y && (0x80 + z) / 64 == 2 && (0x80 + z) % 64 == z;
    assert (0xE0 + x) * 0x1000 + y * 64 + z == 14 * 0x1_0000 + (x * 0x1000 + y * 64 + z);
  }

  lemma Decodes4(s: seq<nat>, p: nat, w: nat, x: nat, y: nat, z: nat)
    requires Bytes(s) && |s| > 0 && s[|s| - 1] == 0 && p + 4 < |s| && w <= 4 && x < 64 && y < 64 && z < 64
    requires s[p] == 0xF0 + w && s[p + 1] == 0x80 + x && s[p + 2] == 0x80 + y && s[p + 3] == 0x80 + z
    requires w * 0x4_0000 + x * 0x1000 + y * 64 + z <= 0x10_FFFF
    ensures Decode1(s, p) == (w * 0x4_0000 + x * 0x1000 + y * 64 + z, p + 3)
  {
    assert (0x80 + x) / 64 == 2 && (0x80 + x) % 64 == x;
    assert (0x80 + y) / 64 == 2 && (0x80 + y) % 64 == y && (0x80 + z) / 64 == 2 && (0x80 + z) % 64 == z;
    var c := w * 0x4_0000 + x * 0x1000 + y * 64 + z;
    assert (0xF0 + w) * 0x4_0000 + x * 0x1000 + y * 64 + z == 30 * 0x20_0000 + c;
  }

  // src has t at p.
  predicate Has(s: seq<nat>, p: nat, t: seq<nat>) { p + |t| <= |s| && s[p..p + |t|] == t }

  // ---------- 16-bit text to WTF-8 ----------

  // The C view of u: counted, or ended by a NUL with length -1.
  predicate Given(src: seq<nat>, len: int, u: seq<nat>) {
    Units(u) && ((len == |u| && src == u) || (len == -1 && src == u + [0]))
  }

  // The loops are at unit p with len left.
  ghost predicate Left(src: seq<nat>, len0: int, u: seq<nat>, p: nat, len: int) {
    Given(src, len0, u) && p <= |u| && len == if len0 < 0 then -1 else |u| - p
  }

  // uv__get_surrogate_value
  method SurrogateValue(src: seq<nat>, p: nat, len: int, ghost len0: int, ghost u: seq<nat>) returns (c: nat)
    requires Left(src, len0, u, p, len) && len != 0
    ensures if p == |u| then c == 0 else c == Value(u[p..])
  {
    c := src[p];
    if 0xD800 <= c <= 0xDBFF && len != 1 {
      var next := src[p + 1];
      if 0xDC00 <= next <= 0xDFFF { return 0x1_0000 + (c - 0xD800) * 1024 + (next - 0xDC00); }
    }
  }

  // One code point on.
  lemma OneOn(u: seq<nat>, p: nat)
    requires Units(u) && p < |u|
    ensures var w, c := Width(u[p..]), Value(u[p..]);
      && 0 < c < 0x11_0000 && w == (if c >= 0x1_0000 then 2 else 1) && p + w <= |u|
      && CodePoints(u[p..]) == [c] + CodePoints(u[p + w..]) && InRange(CodePoints(u[p..]))
        && InRange(CodePoints(u[p + w..]))
  {
    var w := Width(u[p..]);
    assert u[p..][w..] == u[p + w..];
    PointsInRange(u[p..]);
    PointsInRange(u[p + w..]);
  }

  // done is the encoding of what lies before unit p.
  ghost predicate Encoded(u: seq<nat>, p: nat, done: seq<nat>) {
    p <= |u| && InRange(CodePoints(u)) && InRange(CodePoints(u[p..]))
      && done + EncodeAll(CodePoints(u[p..])) == EncodeAll(CodePoints(u))
  }

  lemma EncodedStart(u: seq<nat>)
    requires Units(u)
    ensures Encoded(u, 0, [])
  {
    PointsInRange(u);
    assert u[0..] == u && [] + EncodeAll(CodePoints(u)) == EncodeAll(CodePoints(u));
  }

  lemma EncodedMore(u: seq<nat>, p: nat, done: seq<nat>)
    requires Units(u) && p < |u| && Encoded(u, p, done)
    ensures var c, w := Value(u[p..]), Width(u[p..]);
      && 0 < c < 0x11_0000 && w == (if c >= 0x1_0000 then 2 else 1) && p + w <= |u|
        && Encoded(u, p + w, done + Encode(c))
      && |done| + |Encode(c)| <= |EncodeAll(CodePoints(u))|
  {
    OneOn(u, p);
    Assoc(done, Encode(Value(u[p..])), EncodeAll(CodePoints(u[p + Width(u[p..])..])));
  }

  lemma Assoc(a: seq<nat>, b: seq<nat>, c: seq<nat>)
    ensures a + (b + c) == a + b + c
  {
  }

  lemma SomethingLeft(u: seq<nat>)
    requires InRange(CodePoints(u))
    ensures |EncodeAll(CodePoints(u))| == 0 <==> u == []
  {
  }

  lemma EncodedAll(u: seq<nat>, p: nat, done: seq<nat>)
    requires Encoded(u, p, done) && (p == |u| || |done| == |EncodeAll(CodePoints(u))|)
    ensures p == |u| && done == EncodeAll(CodePoints(u))
  {
    SomethingLeft(u[p..]);
    assert u[|u|..] == [];
  }

  // w_source_ptr and w_source_len after the code point c.
  method Advance(p: nat, len: int, c: nat) returns (p': nat, len': int)
    requires len < 0 || len >= (if c >= 0x1_0000 then 2 else 1)
    ensures var w := if c >= 0x1_0000 then 2 else 1; p' == p + w && len' == if len < 0 then len else len - w
  {
    p', len' := p, len;
    if c >= 0x1_0000 {
      p' := p' + 1;
      if len' > 0 { len' := len' - 1; }
    }
    p' := p' + 1;
    if len' > 0 { len' := len' - 1; }
  }

  // uv_utf16_length_as_wtf8
  method LengthAsWtf8(src: seq<nat>, len0: int, ghost u: seq<nat>) returns (n: nat)
    requires Given(src, len0, u)
    ensures InRange(CodePoints(u)) && n == |EncodeAll(CodePoints(u))|
  {
    EncodedStart(u);
    n := 0;
    var p, len := 0, len0;
    ghost var done: seq<nat> := [];
    while len != 0
      invariant Left(src, len0, u, p, len) && Encoded(u, p, done) && |done| == n
      decreases |u| - p
    {
      var c := SurrogateValue(src, p, len, len0, u);
      if len < 0 && c == 0 { break; }
      EncodedMore(u, p, done);
      done := done + Encode(c);
      n := n + if c < 0x80 then 1 else if c < 0x800 then 2 else if c < 0x1_0000 then 3 else 4;
      p, len := Advance(p, len, c);
    }
    EncodedAll(u, p, done);
  }

  // The bytes of c at place t of the target.
  method Put(target: array<nat>, t: nat, c: nat) returns (t': nat)
    requires c < 0x11_0000 && t + |Encode(c)| <= target.Length
    modifies target
    ensures t' == t + |Encode(c)| && target[..t'] == old(target[..t]) + Encode(c)
  {
    if c < 0x80 {
      target[t] := c;
      t' := t + 1;
    } else if c < 0x800 {
      target[t] := 0xC0 + c / 64;
      target[t + 1] := 0x80 + c % 64;
      t' := t + 2;
    } else if c < 0x1_0000 {
      target[t] := 0xE0 + c / 0x1000;
      target[t + 1] := 0x80 + c / 64 % 64;
      target[t + 2] := 0x80 + c % 64;
      t' := t + 3;
    } else {
      target[t] := 0xF0 + c / 0x4_0000;
      target[t + 1] := 0x80 + c / 0x1000 % 64;
      target[t + 2] := 0x80 + c / 64 % 64;
      target[t + 3] := 0x80 + c % 64;
      t' := t + 4;
    }
  }

  // The loop of uv_utf16_to_wtf8, with room for exactly what there is to write.
  method Fill(src: seq<nat>, len0: int, target: array<nat>, n: nat, ghost u: seq<nat>)
      returns (t: nat, p: nat, len: int)
    requires Given(src, len0, u) && target.Length == n + 1 && Encoded(u, 0, []) && n == |EncodeAll(CodePoints(u))|
    modifies target
    ensures t == n && target[..t] == EncodeAll(CodePoints(u)) && p == |u| && (len == 0 || (len == -1 == len0))
  {
    t, p, len := 0, 0, len0;
    assert target[..0] == [];
    while t != n && len != 0
      invariant Left(src, len0, u, p, len) && t <= n && Encoded(u, p, target[..t])
      decreases |u| - p
    {
      var c := SurrogateValue(src, p, len, len0, u);
      if len < 0 && c == 0 {
        len := 0;
        break;
      }
      EncodedMore(u, p, target[..t]);
      t := Put(target, t, c);
      p, len := Advance(p, len, c);
    }
    EncodedAll(u, p, target[..t]);
  }

  // uv_utf16_to_wtf8 into a buffer it allocates, of n + 1 bytes.
  method ToWtf8(src: seq<nat>, len0: int, ghost u: seq<nat>) returns (rc: int, target: array<nat>, n: nat)
    requires Given(src, len0, u)
    ensures rc == 0 && fresh(target) && target.Length == n + 1 && InRange(CodePoints(u))
    ensures n == |EncodeAll(CodePoints(u))| && target[..] == EncodeAll(CodePoints(u)) + [0]
  {
    EncodedStart(u);
    n := LengthAsWtf8(src, len0, u);
    target := new nat[n + 1];
    var t, p, len := Fill(src, len0, target, n, u);
    if len < 0 && t == n && src[p] == 0 { len := 0; }
    target[t] := 0;
    assert target[..] == target[..t] + [0];
    rc := if len != 0 then UV_ENOBUFS else 0;
  }

  // ---------- WTF-8 to 16-bit text ----------

  predicate CString(s: seq<nat>) { Bytes(s) && |s| > 0 && s[|s| - 1] == 0 }

  // The units, the terminating one included, of the string from byte p on; -1 if a
  // character is invalid.
  function Length16(s: seq<nat>, p: nat): int
    requires CString(s) && p < |s|
    decreases |s| - p
  {
    var (c, q) := Decode1(s, p);
    var w := if c > 0xFFFF then 2 else 1;
    if c < 0 then -1
    else if s[q] == 0 then w
    else
      var rest := Length16(s, q + 1);
      if rest < 0 then -1 else w + rest
  }

  // uv_wtf8_length_as_utf16: the units of the characters and of the NUL after them, -1
  // if there is something else before the first NUL.
  method LengthAsUtf16(s: seq<nat>) returns (n: int)
    requires CString(s)
    ensures n == Length16(s, 0) && (n == -1 || n >= 0) && (n >= 0 <==> exists cs :: Taken(s, 0, cs))
    ensures forall cs :: Taken(s, 0, cs) ==> n == Length16Of(Values(cs)) + 1
  {
    ReadsExactly(s);
    n := 0;
    var p: nat := 0;
    while true
      invariant p < |s| && n >= 0
      invariant Length16(s, 0) == if Length16(s, p) < 0 then -1 else n + Length16(s, p)
      decreases |s| - p
    {
      var r := Decode1(s, p);
      p := r.1;
      if r.0 < 0 { return -1; }
      if r.0 > 0xFFFF { n := n + 1; }
      n := n + 1;
      if s[p] == 0 { return; }
      p := p + 1;
    }
  }

  // What uv_wtf8_to_utf16 writes for code point c, and whether its assertion on c holds.
  function Units16(c: int): seq<nat>
    requires 0 <= c < 0x11_0000
  {
    if c > 0x1_0000 then [(c - 0x1_0000) / 1024 + 0xD800, (c - 0x1_0000) % 1024 + 0xDC00] else [c % 0x1_0000]
  }

  predicate Asserted(c: int) { 0 <= c && (c > 0x1_0000 ==> c < 0x10_FFFF) }

  // What it writes for the string from byte p on, if each code point passes.
  function Written16(s: seq<nat>, p: nat): (r: seq<nat>)
    requires CString(s) && p < |s|
    decreases |s| - p
  {
    var (c, q) := Decode1(s, p);
    if !Asserted(c) then []
    else if s[q] == 0 then Units16(c)
    else Units16(c) + Written16(s, q + 1)
  }

  predicate AllAsserted(s: seq<nat>, p: nat)
    requires CString(s) && p < |s|
    decreases |s| - p
  {
    var (c, q) := Decode1(s, p);
    Asserted(c) && (s[q] != 0 ==> AllAsserted(s, q + 1))
  }

  lemma {:induction false} WrittenFits(s: seq<nat>, p: nat)
    requires CString(s) && p < |s| && Length16(s, p) >= 0
    ensures |Written16(s, p)| <= Length16(s, p)
    decreases |s| - p
  {
    var (c, q) := Decode1(s, p);
    if s[q] != 0 { WrittenFits(s, q + 1); }
  }

  // The units of c at place n of the target.
  method PutUnits(target: array<nat>, n: nat, c: int) returns (n': nat)
    requires 0 <= c < 0x11_0000 && n + |Units16(c)| <= target.Length
    modifies target
    ensures n' == n + |Units16(c)| && target[..n'] == old(target[..n]) + Units16(c)
  {
    if c > 0x1_0000 {
      target[n], target[n + 1] := (c - 0x1_0000) / 1024 + 0xD800, (c - 0x1_0000) % 1024 + 0xDC00;
      n' := n + 2;
    } else {
      target[n] := c % 0x1_0000;
      n' := n + 1;
    }
  }

  // The loop of uv_wtf8_to_utf16; ok if none of its assertions fails.
  method FillUnits(s: seq<nat>, target: array<nat>) returns (ok: bool, n: nat)
    requires CString(s) && Length16(s, 0) == target.Length
    modifies target
    ensures n <= target.Length && (ok <==> AllAsserted(s, 0)) && (ok ==> target[..n] == Written16(s, 0))
  {
    var p: nat := 0;
    n := 0;
    WrittenFits(s, 0);
    ghost var all := Written16(s, 0);
    assert target[..0] == [];
    while true
      invariant p < |s| && n <= target.Length && Length16(s, p) >= 0
      invariant target[..n] + Written16(s, p) == all && n + |Written16(s, p)| <= target.Length
      invariant AllAsserted(s, 0) <==> AllAsserted(s, p)
      decreases |s| - p
    {
      var r := Decode1(s, p);
      if !Asserted(r.0) { return false, n; }
      ghost var before := target[..n];
      n := PutUnits(target, n, r.0);
      p := r.1;
      if s[p] == 0 { return true, n; }
      Assoc(before, Units16(r.0), Written16(s, p + 1));
      p := p + 1;
    }
  }

  // uv_wtf8_to_utf16 into a buffer of the length computed before; ok if no assertion
  // fails, on a code point or on the length at the end.
  method ToUtf16(s: seq<nat>, target: array<nat>) returns (ok: bool, n: nat)
    requires CString(s) && Length16(s, 0) == target.Length
    modifies target
    ensures ok <==> AllAsserted(s, 0) && |Written16(s, 0)| == target.Length
    ensures ok ==> target[..] == Written16(s, 0)
    ensures forall cs ::
      Taken(s, 0, cs) ==> (ok <==> AllPass(Values(cs)) && |Units16Of(Values(cs))| + 1 == target.Length)
    ensures forall cs :: Taken(s, 0, cs) && ok ==> target[..] == Units16Of(Values(cs)) + [0]
  {
    ReadsExactly(s);
    ok, n := FillUnits(s, target);
    assert ok ==> n == |Written16(s, 0)|;
    ok := ok && n == target.Length;
    assert target[..target.Length] == target[..];
  }

  // ---------- there and back ----------

  function Length16Of(cps: seq<nat>): nat {
    if cps == [] then 0 else (if cps[0] > 0xFFFF then 2 else 1) + Length16Of(cps[1..])
  }

  predicate Points(cps: seq<nat>) { forall i :: 0 <= i < |cps| ==> cps[i] < 0x11_0000 }

  function Units16Of(cps: seq<nat>): seq<nat>
    requires Points(cps)
  {
    if cps == [] then [] else Units16(cps[0]) + Units16Of(cps[1..])
  }

  predicate AllPass(cps: seq<nat>) { forall i :: 0 <= i < |cps| ==> Asserted(cps[i]) }

  // The decoder reads cps from byte p on, and then the NUL.
  predicate Reads(s: seq<nat>, p: nat, cps: seq<nat>)
    requires CString(s)
    decreases |cps|
  {
    p < |s| &&
    var r := Decode1(s, p);
    if cps == [] then r == (0, p) && s[p] == 0
    else cps[0] < 0x11_0000 && r.0 == cps[0] && s[r.1] != 0 && Reads(s, r.1 + 1, cps[1..])
  }

  lemma {:induction false} ReadsLength(s: seq<nat>, p: nat, cps: seq<nat>)
    requires CString(s) && Reads(s, p, cps)
    ensures Length16(s, p) == Length16Of(cps) + 1
    decreases |cps|
  {
    if cps != [] { ReadsLength(s, Decode1(s, p).1 + 1, cps[1..]); }
  }

  lemma {:induction false} ReadsPass(s: seq<nat>, p: nat, cps: seq<nat>)
    requires CString(s) && Reads(s, p, cps)
    ensures AllAsserted(s, p) <==> AllPass(cps)
    decreases |cps|
  {
    if cps != [] {
      ReadsPass(s, Decode1(s, p).1 + 1, cps[1..]);
      PassRest(cps);
    }
  }

  lemma {:induction false} ReadsUnits(s: seq<nat>, p: nat, cps: seq<nat>)
    requires CString(s) && Points(cps) && Reads(s, p, cps) && AllPass(cps)
    ensures Written16(s, p) == Units16Of(cps) + [0]
    decreases |cps|
  {
    if cps != [] {
      PassRest(cps);
      ReadsUnits(s, Decode1(s, p).1 + 1, cps[1..]);
      Assoc(Units16(cps[0]), Units16Of(cps[1..]), [0]);
    }
  }

  // ---------- which strings are read ----------

  predicate Cont(b: nat) { 0x80 <= b < 0xC0 }

  // A character: one to four bytes by their patterns. Longer forms than are needed pass
  // for three and four bytes, so do surrogates.
  predicate Pattern(t: seq<nat>) {
    || (|t| == 1 && 0 < t[0] < 0x80)
    || (|t| == 2 && 0xC2 <= t[0] < 0xE0 && Cont(t[1]))
    || (|t| == 3 && 0xE0 <= t[0] < 0xF0 && Cont(t[1]) && Cont(t[2]))
    || (|t| == 4 && 0xF0 <= t[0] <= 0xF4 && Cont(t[1]) && Cont(t[2]) && Cont(t[3]))
  }

  // The bits of the patterns.
  function CharValue(t: seq<nat>): nat
    requires Pattern(t)
  {
    if |t| == 1 then t[0]
    else if |t| == 2 then (t[0] - 0xC0) * 64 + (t[1] - 0x80)
    else if |t| == 3 then (t[0] - 0xE0) * 0x1000 + (t[1] - 0x80) * 64 + (t[2] - 0x80)
    else (t[0] - 0xF0) * 0x4_0000 + (t[1] - 0x80) * 0x1000 + (t[2] - 0x80) * 64 + (t[3] - 0x80)
  }

  predicate IsChar(t: seq<nat>) { Pattern(t) && CharValue(t) < 0x11_0000 }

  predicate Chars(cs: seq<seq<nat>>) { forall i :: 0 <= i < |cs| ==> IsChar(cs[i]) }

  function Concat(cs: seq<seq<nat>>): seq<nat> { if cs == [] then [] else cs[0] + Concat(cs[1..]) }

  function Values(cs: seq<seq<nat>>): (cps: seq<nat>)
    requires Chars(cs)
    ensures Points(cps)
  {
    if cs == [] then [] else [CharValue(cs[0])] + Values(cs[1..])
  }

  // From byte p on the string holds the characters cs, and then a NUL.
  predicate Taken(s: seq<nat>, p: nat, cs: seq<seq<nat>>) { Chars(cs) && Has(s, p, Concat(cs) + [0]) }

  lemma ReadsChar(s: seq<nat>, p: nat, t: seq<nat>)
    requires CString(s) && Has(s, p, t) && IsChar(t)
    ensures p + |t| < |s| && Decode1(s, p) == (CharValue(t), p + |t| - 1) && s[p + |t| - 1] != 0
  {
    var u := s[p..p + |t|];
    assert s[p] == u[0] && s[p + |t| - 1] == u[|t| - 1];
    if |t| > 2 { assert s[p + 1] == u[1] && s[p + |t| - 2] == u[|t| - 2]; }
    if |t| == 2 { Decodes2(s, p, t[0] - 0xC0, t[1] - 0x80); }
    else if |t| == 3 { Decodes3(s, p, t[0] - 0xE0, t[1] - 0x80, t[2] - 0x80); }
    else if |t| == 4 { Decodes4(s, p, t[0] - 0xF0, t[1] - 0x80, t[2] - 0x80, t[3] - 0x80); }
  }

  lemma EncodeIsChar(c: nat)
    requires 0 < c < 0x11_0000
    ensures IsChar(Encode(c)) && CharValue(Encode(c)) == c
  {
    Sextets(c);
  }

  // The decoder recovers every code point, and stops at the last byte of it.
  lemma DecodesEncode(s: seq<nat>, p: nat, c: nat)
    requires CString(s) && 0 < c < 0x11_0000 && Has(s, p, Encode(c))
    ensures Decode1(s, p) == (c, p + |Encode(c)| - 1) && p + |Encode(c)| < |s|
  {
    EncodeIsChar(c);
    ReadsChar(s, p, Encode(c));
  }

  function Encodings(cps: seq<nat>): seq<seq<nat>>
    requires Points(cps)
  {
    if cps == [] then [] else [Encode(cps[0])] + Encodings(cps[1..])
  }

  lemma {:induction false} EncodingsAre(cps: seq<nat>)
    requires InRange(cps)
    ensures var cs := Encodings(cps); Chars(cs) && Concat(cs) == EncodeAll(cps) && Values(cs) == cps
  {
    if cps != [] {
      EncodingsAre(cps[1..]);
      EncodeIsChar(cps[0]);
      assert Encodings(cps)[1..] == Encodings(cps[1..]);
    }
  }

  // What the decoder takes is the NUL or a character.
  lemma CharRead(s: seq<nat>, p: nat)
    requires CString(s) && p < |s| && Decode1(s, p).0 >= 0
    ensures var q := Decode1(s, p).1; if s[q] == 0 then q == p else IsChar(s[p..q + 1])
  {
    var q := Decode1(s, p).1;
    if q == p + 3 { FourRead(s, p); }
  }

  lemma FourRead(s: seq<nat>, p: nat)
    requires CString(s) && p < |s| && Decode1(s, p).0 >= 0 && Decode1(s, p).1 == p + 3
    ensures IsChar(s[p..p + 4])
  {
    var w, x, y, z := s[p] - 0xF0, s[p + 1] % 64, s[p + 2] % 64, s[p + 3] % 64;
    var c := w * 0x4_0000 + x * 0x1000 + y * 64 + z;
    assert s[p] * 0x4_0000 + x * 0x1000 + y * 64 + z == 30 * 0x20_0000 + c;
    assert 0 <= c < 0x20_0000;
    assert s[p..p + 4] == [s[p], s[p + 1], s[p + 2], s[p + 3]];
  }

  lemma {:induction false} TakenReads(s: seq<nat>, p: nat, cs: seq<seq<nat>>)
    requires CString(s) && Taken(s, p, cs)
    ensures Reads(s, p, Values(cs))
    decreases |cs|
  {
    if cs == [] {
      assert s[p] == s[p..p + 1][0];
    } else {
      TakenRest(s, p, cs);
      ReadsChar(s, p, cs[0]);
      TakenReads(s, p + |cs[0]|, cs[1..]);
    }
  }

  lemma TakenRest(s: seq<nat>, p: nat, cs: seq<seq<nat>>)
    requires Taken(s, p, cs) && cs != []
    ensures Has(s, p, cs[0]) && Taken(s, p + |cs[0]|, cs[1..])
  {
    var t, rest := cs[0], Concat(cs[1..]) + [0];
    Assoc(t, Concat(cs[1..]), [0]);
    HasSplit(s, p, t, rest);
  }

  lemma HasSplit(s: seq<nat>, p: nat, a: seq<nat>, b: seq<nat>)
    requires Has(s, p, a + b)
    ensures Has(s, p, a) && Has(s, p + |a|, b)
  {
    var t := s[p..p + |a + b|];
    assert s[p..p + |a|] == t[..|a|] && s[p + |a|..p + |a| + |b|] == t[|a|..];
  }

  lemma HasJoin(s: seq<nat>, p: nat, a: seq<nat>, b: seq<nat>)
    requires Has(s, p, a) && Has(s, p + |a|, b)
    ensures Has(s, p, a + b)
  {
    assert s[p..p + |a| + |b|] == s[p..p + |a|] + s[p + |a|..p + |a| + |b|];
  }

  lemma {:induction false} LengthTaken(s: seq<nat>, p: nat) returns (cs: seq<seq<nat>>)
    requires CString(s) && p < |s| && Length16(s, p) >= 0
    ensures Taken(s, p, cs)
    decreases |s| - p
  {
    var q := Decode1(s, p).1;
    CharRead(s, p);
    if s[q] == 0 {
      cs := [];
      assert s[p..p + 1] == [0];
    } else {
      var t := s[p..q + 1];
      var rest := LengthTaken(s, q + 1);
      cs := [t] + rest;
      HasJoin(s, p, t, Concat(rest) + [0]);
      Assoc(t, Concat(rest), [0]);
    }
  }

  // A string is read if and only if it is characters up to its first NUL, and then as
  // their code points.
  lemma ReadsExactly(s: seq<nat>)
    requires CString(s)
    ensures Length16(s, 0) >= 0 <==> exists cs :: Taken(s, 0, cs)
    ensures forall cs :: Taken(s, 0, cs) ==> Length16(s, 0) == Length16Of(Values(cs)) + 1
    ensures forall cs :: Taken(s, 0, cs) ==> (AllAsserted(s, 0) <==> AllPass(Values(cs)))
    ensures forall cs :: Taken(s, 0, cs) && AllPass(Values(cs)) ==> Written16(s, 0) == Units16Of(Values(cs)) + [0]
  {
    if Length16(s, 0) >= 0 { var _ := LengthTaken(s, 0); }
    forall cs | Taken(s, 0, cs)
      ensures Length16(s, 0) == Length16Of(Values(cs)) + 1 && (AllAsserted(s, 0) <==> AllPass(Values(cs)))
      ensures AllPass(Values(cs)) ==> Written16(s, 0) == Units16Of(Values(cs)) + [0]
    {
      TakenReads(s, 0, cs);
      ReadsLength(s, 0, Values(cs));
      ReadsPass(s, 0, Values(cs));
      if AllPass(Values(cs)) { ReadsUnits(s, 0, Values(cs)); }
    }
  }

  // A form longer than is needed passes: three bytes for code point 0, as one unit 0.
  lemma LongFormPasses()
    ensures var s := [0xE0, 0x80, 0x80, 0];
      CString(s) && Taken(s, 0, [[0xE0, 0x80, 0x80]]) && Values([[0xE0, 0x80, 0x80]]) == [0]
  {
    var c: seq<nat> := [0xE0, 0x80, 0x80];
    assert [c] == [c] + [] && [c][1..] == [] && c + [] == c && c + [0] == [0xE0, 0x80, 0x80, 0];
  }

  lemma PassRest(cps: seq<nat>)
    requires cps != []
    ensures AllPass(cps) <==> Asserted(cps[0]) && AllPass(cps[1..])
  {
    if Asserted(cps[0]) && AllPass(cps[1..]) {
      forall i | 0 <= i < |cps| ensures Asserted(cps[i]) { if i > 0 { assert cps[i] == cps[1..][i - 1]; } }
    }
  }

  // No U+10000 and no U+10FFFF: their surrogate pairs do not occur.
  predicate Plain(u: seq<nat>) {
    forall i :: 0 <= i < |u| - 1 ==> !(u[i] == 0xD800 && u[i + 1] == 0xDC00) && !(u[i] == 0xDBFF && u[i + 1] == 0xDFFF)
  }

  lemma PlainRest(u: seq<nat>)
    requires Units(u) && u != []
    ensures var c, w := Value(u), Width(u); Plain(u) <==> c != 0x1_0000 && c != 0x10_FFFF && Plain(u[w..])
  {
    var c, w := Value(u), Width(u);
    var v := u[w..];
    if c != 0x1_0000 && c != 0x10_FFFF && Plain(v) {
      forall i | 0 <= i < |u| - 1
        ensures !(u[i] == 0xD800 && u[i + 1] == 0xDC00) && !(u[i] == 0xDBFF && u[i + 1] == 0xDFFF)
      {
        if i >= w { assert u[i] == v[i - w] && u[i + 1] == v[i - w + 1]; }
      }
    }
    if Plain(u) {
      forall i | 0 <= i < |v| - 1
        ensures !(v[i] == 0xD800 && v[i + 1] == 0xDC00) && !(v[i] == 0xDBFF && v[i + 1] == 0xDFFF)
      {
        assert v[i] == u[i + w] && v[i + 1] == u[i + w + 1];
      }
    }
  }

  // The assertions hold and as many units are written as were counted exactly for text
  // without U+10000 and U+10FFFF, and then the units are those of the text.
  lemma {:induction false} BackExactly(u: seq<nat>)
    requires Units(u)
    ensures InRange(CodePoints(u))
    ensures var cps := CodePoints(u);
      && Length16Of(cps) == |u| && |Units16Of(cps)| <= |u|
      && (AllPass(cps) && |Units16Of(cps)| == |u| <==> Plain(u)) && (Plain(u) ==> Units16Of(cps) == u)
  {
    PointsInRange(u);
    if u != [] {
      var c, w := Value(u), Width(u);
      var cps := CodePoints(u);
      assert cps[1..] == CodePoints(u[w..]) && u == u[..w] + u[w..];
      BackExactly(u[w..]);
      PassRest(cps);
      PlainRest(u);
      UnitsOfValue(u);
    }
  }

  lemma UnitsOfValue(u: seq<nat>)
    requires Units(u) && u != []
    ensures var c, w := Value(u), Width(u);
      && 0 < c < 0x11_0000 && (w == 2 <==> c > 0xFFFF) && |Units16(c)| == (if c == 0x1_0000 then 1 else w)
      && (c != 0x1_0000 ==> Units16(c) == u[..w])
  {
    if Width(u) == 2 && Value(u) != 0x1_0000 {
      var a, b := u[0] - 0xD800, u[1] - 0xDC00;
      assert (a * 1024 + b) / 1024 == a && (a * 1024 + b) % 1024 == b;
      assert Units16(Value(u)) == u[..2];
    }
  }

  // To WTF-8 and back: the code points are recovered from what was written, and the
  // units too unless the strict tests exclude one.
  method ThereAndBack(src: seq<nat>, len: int, ghost u: seq<nat>) returns (ok: bool, back: array<nat>, n: nat)
    requires Given(src, len, u)
    ensures ok <==> Plain(u)
    ensures ok ==> back[..] == u + [0]
  {
    var rc, bytes, m := ToWtf8(src, len, u);
    var s := bytes[..];
    EncodeBytes(CodePoints(u));
    EncodingsAre(CodePoints(u));
    assert s[0..|s|] == s && Taken(s, 0, Encodings(CodePoints(u)));
    BackExactly(u);
    var count := LengthAsUtf16(s);
    back := new nat[count];
    ok, n := ToUtf16(s, back);
  }

  lemma {:induction false} EncodeBytes(cps: seq<nat>)
    requires InRange(cps)
    ensures Bytes(EncodeAll(cps))
  {
    if cps != [] { EncodeBytes(cps[1..]); }
  }

  // U+10000 is counted as two units but stored as one: the text is not restored.
  lemma FirstSupplementaryFails()
    ensures var u := [0xD800, 0xDC00];
      CodePoints(u) == [0x1_0000] && Units16Of([0x1_0000]) == [0] && Length16Of([0x1_0000]) == 2
  {
    var u := [0xD800, 0xDC00];
    assert Value(u) == 0x1_0000 && u[2..] == [] && [0x1_0000][1..] == [];
    assert Units16(0x1_0000) == [0];
  }
}
