// Host names to ASCII, idna.c: the UTF-8 decoder and uv__idna_toascii, in the source's
// 32-bit arithmetic.
module Idna {
  import opened Punycode
  import opened Utf8

  const UINT_MAX: nat := 0xFFFF_FFFF
  const UV_EINVAL := -22
  const UV_E2BIG := -7

  predicate Scalar(c: nat) { c < 0xD800 || 0xE000 <= c < 0x11_0000 }

  // The two top bits of b ^ c ^ d.
  function TopBits(b: nat, c: nat, d: nat): nat {
    (b / 128 + c / 128 + d / 128) % 2 * 2 + (b / 64 + c / 64 + d / 64) % 2
  }

  // The last part of uv__utf8_decode1_slow: b, c and d carry six bits each.
  function Assemble(a: nat, b: nat, c: nat, d: nat, min: nat): (r: nat)
    ensures r == UINT_MAX || (Scalar(r) && r >= min)
  {
    if TopBits(b, c, d) != 2 then UINT_MAX else
      var x := a * 0x4_0000 + b % 64 * 0x1000 + c % 64 * 64 + d % 64;
      if x < min || x > 0x10_FFFF || 0xD800 <= x <= 0xDFFF then UINT_MAX else x
  }

  // uv__utf8_decode1 on the bytes up to pe: the code point, UINT_MAX on error, and how
  // many bytes it took.
  function Decode1(s: seq<nat>): (r: (nat, nat))
    requires |s| > 0 && Bytes(s)
    ensures 1 <= r.1 <= |s| && (r.0 == UINT_MAX || Scalar(r.0))
  {
    var a, rem := s[0], |s| - 1;
    if a < 128 then (a, 1)
    else if a > 0xF7 then (UINT_MAX, 1)
    else if rem >= 3 && a > 0xEF then (Assemble(a % 8, s[1], s[2], s[3], 0x1_0000), 4)
    else if rem >= 2 && a > 0xDF then (Assemble(0, 128 + a % 16, s[1], s[2], 0x800), 3)
    else if rem >= 1 && a > 0xBF then (Assemble(0, 128, 128 + a % 32, s[1], 0x80), 2)
    else (UINT_MAX, 1)
  }

  predicate Scalars(cps: seq<nat>) { forall i :: 0 <= i < |cps| ==> Scalar(cps[i]) }

  function Utf8All(cps: seq<nat>): (s: seq<nat>)
    requires Scalars(cps)
    ensures Bytes(s)
  {
    if cps == [] then [] else Encode(cps[0]) + Utf8All(cps[1..])
  }

  lemma Continues(b: nat)
    requires b < 64
    ensures (128 + b) / 128 == 1 && (128 + b) / 64 == 2 && (128 + b) % 64 == b
  {
  }

  lemma Assembled(a: nat, b: nat, c: nat, d: nat, min: nat)
    requires b < 64 && c < 64 && d < 64
    ensures var x := a * 0x4_0000 + b * 0x1000 + c * 64 + d;
      min <= x && Scalar(x) ==> Assemble(a, 128 + b, 128 + c, 128 + d, min) == x
  {
    Continues(b);
    Continues(c);
    Continues(d);
  }

  lemma Decodes2(x: nat, y: nat, rest: seq<nat>)
    requires 2 <= x < 32 && y < 64 && Bytes(rest)
    ensures var r := Decode1([0xC0 + x, 0x80 + y] + rest); r.0 == x * 64 + y && r.1 == 2
  {
    var s := [0xC0 + x, 0x80 + y] + rest;
    assert s[0] == 0xC0 + x && s[1] == 0x80 + y && s[0] % 32 == x;
    Assembled(0, 0, x, y, 0x80);
  }

  lemma Decodes3(x: nat, y: nat, z: nat, rest: seq<nat>)
    requires x < 16 && y < 64 && z < 64 && Bytes(rest) && 0x800 <= x * 0x1000 + y * 64 + z
      && Scalar(x * 0x1000 + y * 64 + z)
    ensures var r := Decode1([0xE0 + x, 0x80 + y, 0x80 + z] + rest); r.0 == x * 0x1000 + y * 64 + z && r.1 == 3
  {
    var s := [0xE0 + x, 0x80 + y, 0x80 + z] + rest;
    assert s[0] == 0xE0 + x && s[1] == 0x80 + y && s[2] == 0x80 + z && s[0] % 16 == x;
    Assembled(0, x, y, z, 0x800);
  }

  lemma Decodes4(w: nat, x: nat, y: nat, z: nat, rest: seq<nat>)
    requires w < 8 && x < 64 && y < 64 && z < 64 && Bytes(rest)
    requires 0x1_0000 <= w * 0x4_0000 + x * 0x1000 + y * 64 + z < 0x11_0000
    ensures var r := Decode1([0xF0 + w, 0x80 + x, 0x80 + y, 0x80 + z] + rest);
      r.0 == w * 0x4_0000 + x * 0x1000 + y * 64 + z && r.1 == 4
  {
    var s := [0xF0 + w, 0x80 + x, 0x80 + y, 0x80 + z] + rest;
    assert s[0] == 0xF0 + w && s[1] == 0x80 + x && s[2] == 0x80 + y && s[3] == 0x80 + z && s[0] % 8 == w;
    Assembled(w, x, y, z, 0x1_0000);
  }

  lemma Sextets2(c: nat) returns (x: nat, y: nat)
    requires 0x80 <= c < 0x800
    ensures 2 <= x < 32 && y < 64 && c == x * 64 + y && Encode(c) == [0xC0 + x, 0x80 + y]
  {
    Sextets(c);
    x, y := c / 64, c % 64;
  }

  lemma Sextets3(c: nat) returns (x: nat, y: nat, z: nat)
    requires 0x800 <= c < 0x1_0000
    ensures x < 16 && y < 64 && z < 64 && c == x * 0x1000 + y * 64 + z && Encode(c) == [0xE0 + x, 0x80 + y, 0x80 + z]
  {
    Sextets(c);
    x, y, z := c / 0x1000, c / 64 % 64, c % 64;
  }

  lemma Sextets4(c: nat) returns (w: nat, x: nat, y: nat, z: nat)
    requires 0x1_0000 <= c < 0x11_0000
    ensures w < 8 && x < 64 && y < 64 && z < 64 && c == w * 0x4_0000 + x * 0x1000 + y * 64 + z
    ensures Encode(c) == [0xF0 + w, 0x80 + x, 0x80 + y, 0x80 + z]
  {
    Sextets(c);
    w, x, y, z := c / 0x4_0000, c / 0x1000 % 64, c / 64 % 64, c % 64;
  }

  // The decoder reads every well-formed character, whatever follows it.
  lemma DecodesUtf8(c: nat, rest: seq<nat>)
    requires Scalar(c) && Bytes(rest)
    ensures var r := Decode1(Encode(c) + rest); r.0 == c && r.1 == |Encode(c)|
  {
    if c < 0x80 {
      assert (Encode(c) + rest)[0] == c;
    } else if c < 0x800 {
      var x, y := Sextets2(c);
      Decodes2(x, y, rest);
    } else if c < 0x1_0000 {
      var x, y, z := Sextets3(c);
      Decodes3(x, y, z, rest);
    } else {
      var w, x, y, z := Sextets4(c);
      Decodes4(w, x, y, z, rest);
    }
  }

  // The n bytes look like one character: a first byte for that many, and continuation bytes.
  predicate Formed(s: seq<nat>, n: nat) {
    && 1 <= n <= |s| && (forall i :: 1 <= i < n ==> 0x80 <= s[i] < 0xC0)
    && if n == 1 then s[0] < 0x80 else if n == 2 then 0xC0 <= s[0] < 0xE0
      else if n == 3 then 0xE0 <= s[0] < 0xF0 else n == 4 && 0xF0 <= s[0] < 0xF8
  }

  lemma Low6(b: nat)
    requires 0x80 <= b < 0xC0
    ensures b % 64 == b - 0x80
  {
  }

  lemma OneWay(hi: nat, lo: nat, hi': nat, lo': nat)
    requires lo < 64 && lo' < 64 && hi * 64 + lo == hi' * 64 + lo'
    ensures hi == hi' && lo == lo'
  {
  }

  lemma Takes2(s: seq<nat>)
    requires Bytes(s) && Formed(s, 2) && Decode1(s).0 != UINT_MAX && Decode1(s).1 == 2
    ensures s[..2] == Encode(Decode1(s).0)
  {
    var a, d, c := s[0] - 0xC0, s[1] - 0x80, Decode1(s).0;
    Low6(s[1]);
    assert c == a * 64 + d;
    var x, y := Sextets2(c);
    OneWay(a, d, x, y);
  }

  lemma Value3(s: seq<nat>)
    requires Bytes(s) && Formed(s, 3) && Decode1(s).0 != UINT_MAX && Decode1(s).1 == 3
    ensures Decode1(s).0 == (s[0] - 0xE0) * 0x1000 + (s[1] - 0x80) * 64 + s[2] - 0x80 >= 0x800
  {
    Low6(s[1]);
    Low6(s[2]);
    assert s[0] % 16 == s[0] - 0xE0 && (128 + s[0] % 16) % 64 == s[0] % 16;
  }

  lemma Takes3(s: seq<nat>)
    requires Bytes(s) && Formed(s, 3) && Decode1(s).0 != UINT_MAX && Decode1(s).1 == 3
    ensures s[..3] == Encode(Decode1(s).0)
  {
    Value3(s);
    var a, b, d := s[0] - 0xE0, s[1] - 0x80, s[2] - 0x80;
    var x, y, z := Sextets3(Decode1(s).0);
    OneWay(a * 64 + b, d, x * 64 + y, z);
    OneWay(a, b, x, y);
  }

  lemma Value4(s: seq<nat>)
    requires Bytes(s) && Formed(s, 4) && Decode1(s).0 != UINT_MAX && Decode1(s).1 == 4
    ensures Decode1(s).0 ==
      (s[0] - 0xF0) * 0x4_0000 + (s[1] - 0x80) * 0x1000 + (s[2] - 0x80) * 64 + s[3] - 0x80 >= 0x1_0000
  {
    Low6(s[1]);
    Low6(s[2]);
    Low6(s[3]);
    assert s[0] % 8 == s[0] - 0xF0;
  }

  lemma Takes4(s: seq<nat>)
    requires Bytes(s) && Formed(s, 4) && Decode1(s).0 != UINT_MAX && Decode1(s).1 == 4
    ensures s[..4] == Encode(Decode1(s).0)
  {
    Value4(s);
    var a, b, e, d := s[0] - 0xF0, s[1] - 0x80, s[2] - 0x80, s[3] - 0x80;
    var w, x, y, z := Sextets4(Decode1(s).0);
    OneWay(a * 0x1000 + b * 64 + e, d, w * 0x1000 + x * 64 + y, z);
    OneWay(a * 64 + b, e, w * 64 + x, y);
    OneWay(a, b, w, x);
  }

  lemma EncodeFormed(c: nat)
    requires Scalar(c)
    ensures Formed(Encode(c), |Encode(c)|)
  {
    if 0x80 <= c < 0x800 { var x, y := Sextets2(c); }
    if 0x800 <= c < 0x1_0000 { var x, y, z := Sextets3(c); }
    if 0x1_0000 <= c { var w, x, y, z := Sextets4(c); }
  }

  // What the decoder accepts is well formed if and only if the bytes it took look like a
  // character: of what section 4 of RFC 3629 forbids, only that is not tested in full.
  lemma AcceptsUtf8(s: seq<nat>)
    requires |s| > 0 && Bytes(s) && Decode1(s).0 != UINT_MAX
    ensures s[..Decode1(s).1] == Encode(Decode1(s).0) <==> Formed(s, Decode1(s).1)
  {
    var c, n := Decode1(s).0, Decode1(s).1;
    if Formed(s, n) {
      if n == 2 { Takes2(s); }
      if n == 3 { Takes3(s); }
      if n == 4 { Takes4(s); }
    }
    if s[..n] == Encode(c) {
      EncodeFormed(c);
      assert forall i :: 0 <= i < n ==> s[i] == Encode(c)[i];
    }
  }

  // 0xE1 with two bytes 0x01 passes for U+1041, since their top bits cancel out; 0xF1 with
  // the two continuation bytes before the end passes for a character of three bytes.
  lemma LooseFormsPass()
    ensures Decode1([0xE1, 0x01, 0x01]) == (0x1041, 3) && !Formed([0xE1, 0x01, 0x01], 3)
    ensures Decode1([0xF1, 0x81, 0x81]) == (0x1041, 3) && !Formed([0xF1, 0x81, 0x81], 3)
  {
  }

  // Decoding character by character meets no error.
  predicate Legal(s: seq<nat>)
    requires Bytes(s)
  {
    s == [] || (Decode1(s).0 != UINT_MAX && Legal(s[Decode1(s).1..]))
  }

  function CodePoints(s: seq<nat>): (cps: seq<nat>)
    requires Bytes(s) && Legal(s)
    ensures |cps| <= |s| && Scalars(cps)
  {
    if s == [] then [] else [Decode1(s).0] + CodePoints(s[Decode1(s).1..])
  }

  // The code points before the first error.
  function Scanned(s: seq<nat>): (cps: seq<nat>)
    requires Bytes(s)
    ensures |cps| <= |s| && Scalars(cps) && (Legal(s) ==> cps == CodePoints(s))
  {
    if s == [] || Decode1(s).0 == UINT_MAX then [] else [Decode1(s).0] + Scanned(s[Decode1(s).1..])
  }

  // A well-formed name is legal, and decodes to its code points.
  lemma {:induction false} WellFormed(cps: seq<nat>)
    requires Scalars(cps)
    ensures Legal(Utf8All(cps)) && CodePoints(Utf8All(cps)) == Scanned(Utf8All(cps)) == cps
  {
    if cps != [] {
      var s, rest := Utf8All(cps), Utf8All(cps[1..]);
      DecodesUtf8(cps[0], rest);
      WellFormed(cps[1..]);
      assert s[|Encode(cps[0])|..] == rest;
    }
  }

  // A read position: k code points lie before byte p.
  ghost predicate Reading(src: seq<nat>, p: nat, cps: seq<nat>, k: nat) {
    p <= |src| && k <= |cps| && Bytes(src) && Legal(src[p..]) && CodePoints(src[p..]) == cps[k..]
  }

  method Next(src: seq<nat>, p: nat, ghost cps: seq<nat>, ghost k: nat) returns (c: nat, p': nat)
    requires Reading(src, p, cps, k) && p < |src|
    ensures k < |cps| && c == cps[k] && p < p' && Reading(src, p', cps, k + 1)
  {
    var r := Decode1(src[p..]);
    c, p' := r.0, p + r.1;
    assert src[p..][r.1..] == src[p'..] && cps[k..][1..] == cps[k + 1..];
  }

  // ---------- output ----------

  // As much of text as fits has been written.
  ghost predicate Wrote(dst: array<nat>, d: nat, text: seq<nat>)
    reads dst
  {
    d == (if |text| < dst.Length then |text| else dst.Length) && dst[..d] == text[..d]
  }

  // if (*d < de) *(*d)++ = x
  method Put(dst: array<nat>, d: nat, x: nat, ghost text: seq<nat>) returns (d': nat)
    requires Wrote(dst, d, text)
    modifies dst
    ensures Wrote(dst, d', text + [x])
  {
    d' := d;
    if d < dst.Length {
      dst[d] := x;
      d' := d + 1;
    }
  }

  // ---------- uv__idna_toascii_label, loop by loop ----------

  ghost predicate Counted(src: seq<nat>, p: nat, h: nat, todo: nat)
    requires Bytes(src) && p <= |src| && Legal(src) && Legal(src[p..])
  {
    && h + |Below(CodePoints(src[p..]), 128)| == |Below(CodePoints(src), 128)|
    && h + todo + |CodePoints(src[p..])| == |CodePoints(src)|
  }

  lemma CountOne(src: seq<nat>, p: nat, h: nat, todo: nat, c: nat, q: nat)
    requires Bytes(src) && p < q <= |src| && Legal(src) && Legal(src[p..]) && Legal(src[q..])
      && Counted(src, p, h, todo)
    requires CodePoints(src[p..]) == [c] + CodePoints(src[q..])
    ensures c < 128 ==> Counted(src, q, h + 1, todo)
    ensures c >= 128 ==> Counted(src, q, h, todo + 1)
  {
  }

  // One character: an error, or what follows is legal just if this was.
  lemma LegalStep(src: seq<nat>, p: nat, c: nat, q: nat)
    requires Bytes(src) && p < |src| && (c, q - p) == Decode1(src[p..])
    ensures p < q <= |src|
    ensures Legal(src[p..]) <==> c != UINT_MAX && Legal(src[q..])
    ensures Legal(src[p..]) ==> CodePoints(src[p..]) == [c] + CodePoints(src[q..])
  {
    assert src[p..][q - p..] == src[q..];
  }

  method CountNext(src: seq<nat>, p: nat, h: nat, todo: nat) returns (c: nat, q: nat, h': nat, todo': nat)
    requires Bytes(src) && p < |src|
    ensures p < q <= |src| && (Legal(src[p..]) <==> c != UINT_MAX && Legal(src[q..]))
    ensures Legal(src) && Legal(src[p..]) && Counted(src, p, h, todo) ==> Counted(src, q, h', todo')
  {
    var r := Decode1(src[p..]);
    c, q := r.0, p + r.1;
    LegalStep(src, p, c, q);
    h', todo' := if c < 128 then h + 1 else h, if c < 128 then todo else todo + 1;
    if Legal(src) && Legal(src[p..]) && Counted(src, p, h, todo) { CountOne(src, p, h, todo, c, q); }
  }

  // Counts the ASCII and the other characters; fails on malformed UTF-8.
  method Measure(src: seq<nat>) returns (ok: bool, h: nat, todo: nat)
    requires Bytes(src)
    ensures ok <==> Legal(src)
    ensures ok ==> h == |Below(CodePoints(src), 128)| && h + todo == |CodePoints(src)|
  {
    var p := 0;
    h, todo := 0, 0;
    assert src[0..] == src;
    while p < |src|
      invariant p <= |src| && (Legal(src) <==> Legal(src[p..])) && (Legal(src) ==> Counted(src, p, h, todo))
    {
      var c;
      c, p, h, todo := CountNext(src, p, h, todo);
      if c == UINT_MAX { return false, h, todo; }
    }
    assert src[p..] == [];
    ok := true;
  }

  // The ASCII characters before k are done.
  ghost predicate Copied(cps: seq<nat>, k: nat, done: seq<nat>)
    requires k <= |cps|
  {
    done + Below(cps[k..], 128) == Below(cps, 128)
  }

  lemma CopyOne(cps: seq<nat>, k: nat, done: seq<nat>)
    requires k < |cps| && Copied(cps, k, done)
    ensures cps[k] > 127 ==> Copied(cps, k + 1, done)
    ensures cps[k] <= 127 ==> Copied(cps, k + 1, done + [cps[k]])
  {
    OutNext(cps, 128, k);
    Move(done, cps[k], Below(cps[k + 1..], 128));
  }

  lemma Move(a: seq<nat>, x: nat, b: seq<nat>)
    ensures a + ([x] + b) == a + [x] + b
  {
  }

  lemma AllCopied(cps: seq<nat>, k: nat, done: seq<nat>, h: nat)
    requires k <= |cps| && Copied(cps, k, done) && (k == |cps| || |done| == h) && h == |Below(cps, 128)|
    ensures done == Below(cps, 128)
  {
    assert k == |cps| ==> cps[k..] == [];
    assert |done| + |Below(cps[k..], 128)| == h;
    assert done == (done + Below(cps[k..], 128))[..|done|];
  }

  // Writes the ASCII characters, h of them.
  method CopyAscii(src: seq<nat>, dst: array<nat>, d: nat, h: nat, ghost cps: seq<nat>, ghost text: seq<nat>)
      returns (d': nat)
    requires Reading(src, 0, cps, 0) && h == |Below(cps, 128)| && Wrote(dst, d, text)
    modifies dst
    ensures Wrote(dst, d', text + Below(cps, 128))
  {
    var p, x := 0, 0;
    ghost var k, done: seq<nat> := 0, [];
    d' := d;
    assert text + done == text && done + Below(cps[k..], 128) == Below(cps[k..], 128) && cps[k..] == cps;
    while p < |src|
      invariant Reading(src, p, cps, k) && Wrote(dst, d', text + done) && |done| == x && Copied(cps, k, done)
    {
      var c, p' := Next(src, p, cps, k);
      CopyOne(cps, k, done);
      p, k := p', k + 1;
      if c > 127 { continue; }
      d' := Put(dst, d', c, text + done);
      assert text + done + [c] == text + (done + [c]);
      done, x := done + [c], x + 1;
      if x == h { break; }
    }
    AllCopied(cps, k, done, h);
  }

  // The least code point from n on.
  method NextPoint(src: seq<nat>, n: nat, ghost cps: seq<nat>) returns (m: nat)
    requires Reading(src, 0, cps, 0) && cps == CodePoints(src)
    ensures forall j :: 0 <= j < |cps| && cps[j] >= n ==> m <= cps[j]
    ensures m == UINT_MAX || (m >= n && exists j :: 0 <= j < |cps| && cps[j] == m)
  {
    var p := 0;
    ghost var k := 0;
    m := UINT_MAX;
    while p < |src|
      invariant Reading(src, p, cps, k)
      invariant forall j :: 0 <= j < k && cps[j] >= n ==> m <= cps[j]
      invariant m == UINT_MAX || (m >= n && exists j :: 0 <= j < |cps| && cps[j] == m)
    {
      var c, p' := Next(src, p, cps, k);
      p, k := p', k + 1;
      if c >= n && c < m { m := c; }
    }
  }

  function Pow10(j: nat): nat { if j == 0 then 1 else 10 * Pow10(j - 1) }

  lemma {:induction false} Pow10Grows(j: nat)
    requires j >= 10
    ensures Pow10(j) >= 10_000_000_000
  {
    if j == 10 {
      assert Pow10(5) == 100_000;
      assert Pow10(10) == 100_000 * Pow10(5);
    } else {
      Pow10Grows(j - 1);
    }
  }

  lemma DigitFacts(q: nat, t: nat)
    requires 1 <= t <= 26 && t <= q
    ensures var x, y := q - t, 36 - t; 0 <= x / y < q && x / y * 10 <= q && t <= t + x % y < 36
  {
    var x, y := q - t, 36 - t;
    DivMod(x, y);
    TenTimes(x / y, y);
  }

  lemma TenTimes(z: nat, y: nat)
    requires y >= 10
    ensures z * 10 <= y * z
  {
  }

  lemma FewDigits(q: nat, j: nat, delta: nat)
    requires q > 0 && q * Pow10(j) <= delta <= UINT_MAX
    ensures j < 10
  {
    if j >= 10 {
      Pow10Grows(j);
      AtLeast(Pow10(j), q);
    }
  }

  lemma {:induction false} CharsJoin(a: seq<nat>, b: seq<nat>)
    ensures Chars(a + b) == Chars(a) + Chars(b)
  {
  }

  // One turn of the loop over k: the next digit and what is left, unless q is the last.
  method Digit(q: nat, k: nat, bias: nat) returns (last: bool, t: nat, q': nat)
    ensures last <==> q < Threshold(k, bias)
    ensures last ==> t < 36 && EncodeInt(q, k, bias) == [q] && q < 26
    ensures !last ==> t < 36 && EncodeInt(q, k, bias) == [t] + EncodeInt(q', k + 36, bias) && q' < q && q' * 10 <= q
  {
    t, q' := 1, q;
    if k > bias { t := k - bias; }
    if t > 26 { t := 26; }
    assert t == Threshold(k, bias);
    if q < t { return true, t, q'; }
    var x, y := q - t, 36 - t;
    assert 10 <= y <= 35;
    DigitFacts(q, t);
    q' := x / y;
    t := t + x % y;
    last := false;
  }

  lemma LessPow(q: nat, q': nat, p: nat)
    requires q' * 10 <= q
    ensures q' * (10 * p) <= q * p
  {
    assert q' * (10 * p) == (q' * 10) * p;
    assert (q - q' * 10) * p >= 0;
  }

  method PutDigit(dst: array<nat>, d: nat, t: nat, ghost text: seq<nat>, ghost done: seq<nat>) returns (d': nat)
    requires t < 36 && Wrote(dst, d, text + Chars(done))
    modifies dst
    ensures Wrote(dst, d', text + Chars(done + [t]))
  {
    d' := Put(dst, d, CharOf(t), text + Chars(done));
    CharsJoin(done, [t]);
    assert text + Chars(done) + [CharOf(t)] == text + Chars(done + [t]);
  }

  // The j-th turn of the loop over k still has q to write.
  ghost predicate Turn(q: nat, k: nat, j: nat, delta: nat) { k == 36 * (j + 1) && q * Pow10(j) <= delta }

  lemma NextTurn(q: nat, k: nat, j: nat, delta: nat, q': nat)
    requires q > 0 && Turn(q, k, j, delta) && q' * 10 <= q && delta <= UINT_MAX
    ensures Turn(q', k + 36, j + 1, delta) && k <= 360
  {
    FewDigits(q, j, delta);
    LessPow(q, q', Pow10(j));
  }

  // Writes delta as a variable-length integer: the loop over k and q.
  method WriteInt(dst: array<nat>, d: nat, delta: nat, bias: nat, ghost text: seq<nat>) returns (d': nat)
    requires delta <= UINT_MAX && Wrote(dst, d, text)
    modifies dst
    ensures Wrote(dst, d', text + Chars(EncodeInt(delta, 36, bias)))
  {
    var k: nat, q: nat := 36, delta;
    ghost var done: seq<nat>, j := [], 0;
    d' := d;
    assert text + Chars(done) == text;
    while true
      invariant done + EncodeInt(q, k, bias) == EncodeInt(delta, 36, bias) && Wrote(dst, d', text + Chars(done))
      invariant Turn(q, k, j, delta) && k <= 396
      decreases q
    {
      var last, t, q' := Digit(q, k, bias);
      if last { break; }
      NextTurn(q, k, j, delta, q');
      d' := PutDigit(dst, d', t, text, done);
      Move(done, t, EncodeInt(q', k + 36, bias));
      done, k, q, j := done + [t], k + 36, q', j + 1;
    }
    d' := PutDigit(dst, d', q, text, done);
  }

  lemma Grown(d: nat, h: nat)
    requires h > 0
    ensures d / h <= d
  {
    DivMod(d, h);
  }

  method ScaleBias(delta0: nat) returns (bias: nat)
    ensures bias == Scale(delta0, 0)
  {
    var delta: nat := delta0;
    bias := 0;
    while delta > 455
      invariant Scale(delta, bias) == Scale(delta0, 0)
    {
      delta := delta / 35;
      bias := bias + 36;
    }
    bias := bias + 36 * delta / (delta + 38);
  }

  method Damp(delta0: nat, first: bool) returns (delta: nat)
    ensures delta == (if first then delta0 / 700 else delta0 / 2) <= delta0 / 2
  {
    delta := delta0 / 2;
    if first { delta := delta / 350; }
  }

  // The bias after delta was written, with h code points handled by then.
  method AdaptBias(delta0: nat, h: nat, first: bool) returns (bias: nat)
    requires delta0 <= UINT_MAX && h > 0
    ensures bias == Adapt(delta0, h, first) && IsBias(bias, delta0, h, first)
  {
    var delta := Damp(delta0, first);
    Grown(delta, h);
    assert delta + delta / h <= UINT_MAX;
    bias := ScaleBias(delta + delta / h);
    AdaptIs(bias, delta0, h, first);
  }

  // ---------- the main loop ----------

  // The encoder at (n, k) has h code points handled and delta states to account for,
  // counted from the decoder's state (nd, id).
  ghost predicate AtState(cps: seq<nat>, n: nat, k: nat, nd: nat, id: nat, delta: nat, h: nat) {
    && Unicode(cps) && |cps| < 0x8000_0000 && k <= |cps| && Behind(cps, n, k, nd, id)
    && h == |Out(cps, n, k)| && delta == Delta(cps, n, k, nd, id) && delta <= UINT_MAX
  }

  // What is written, and whether the rest fits, as the walk from (n, k) sees it.
  ghost predicate OnCourse(cps: seq<nat>, n: nat, k: nat, nd: nat, id: nat, bias: nat, text: seq<nat>, full: seq<nat>)
    requires Unicode(cps) && k <= |cps|
  {
    full == text + Chars(Tail(cps, n, k, nd, id, bias)) && (LabelTooBig(cps) <==> TooBig(cps, n, k, nd, id))
  }

  lemma InsertStep(cps: seq<nat>, n: nat, k: nat, nd: nat, id: nat, delta: nat, h: nat, bias: nat, bias': nat,
      text: seq<nat>, full: seq<nat>)
    requires AtState(cps, n, k, nd, id, delta, h) && k < |cps| && cps[k] == n
      && OnCourse(cps, n, k, nd, id, bias, text, full)
    requires bias' == Adapt(delta, h + 1, id == 0)
    ensures AtState(cps, n, k + 1, n, At(cps, n, k) + 1, 0, h + 1)
    ensures OnCourse(cps, n, k + 1, n, At(cps, n, k) + 1, bias', text + Chars(EncodeInt(delta, 36, bias)), full)
  {
    TailInsert(cps, n, k, nd, id, bias, bias', delta, At(cps, n, k));
    CharsInsert(text, EncodeInt(delta, 36, bias), Tail(cps, n, k + 1, n, At(cps, n, k) + 1, bias'));
    InsertDelta(cps, n, k);
  }

  lemma CharsInsert(text: seq<nat>, ds: seq<nat>, rest: seq<nat>)
    ensures text + Chars(ds + rest) == text + Chars(ds) + Chars(rest)
  {
    CharsJoin(ds, rest);
    assert text + (Chars(ds) + Chars(rest)) == text + Chars(ds) + Chars(rest);
  }

  lemma InsertDelta(cps: seq<nat>, n: nat, k: nat)
    requires k < |cps| && cps[k] == n
    ensures Delta(cps, n, k + 1, n, At(cps, n, k) + 1) == 0 && |Out(cps, n, k + 1)| == |Out(cps, n, k)| + 1
      && At(cps, n, k) + 1 == At(cps, n, k + 1)
  {
    OutStep(cps, n, k);
  }

  // A code point other than n moves the encoder on, unless its count overflows.
  lemma PassStep(cps: seq<nat>, n: nat, k: nat, nd: nat, id: nat, delta: nat, h: nat, bias: nat, text: seq<nat>,
      full: seq<nat>)
    requires AtState(cps, n, k, nd, id, delta, h) && k < |cps| && cps[k] != n
      && OnCourse(cps, n, k, nd, id, bias, text, full)
    requires nd == n || exists j :: k <= j < |cps| && cps[j] == n
    ensures cps[k] < n && delta == UINT_MAX ==> LabelTooBig(cps)
    ensures !(cps[k] < n && delta == UINT_MAX)
      ==> AtState(cps, n, k + 1, nd, id, if cps[k] < n then delta + 1 else delta, h)
    ensures OnCourse(cps, n, k + 1, nd, id, bias, text, full)
  {
    OutStep(cps, n, k);
    DeltaStep(cps, n, k, nd, id);
    if cps[k] < n && delta == UINT_MAX { CountOverflows(cps, n, k, nd, id); }
  }

  lemma CountOverflows(cps: seq<nat>, n: nat, k: nat, nd: nat, id: nat)
    requires Unicode(cps) && |cps| < 0x8000_0000 && k < |cps| && cps[k] != n && Delta(cps, n, k + 1, nd, id) > UINT_MAX
    requires nd == n || exists j :: k <= j < |cps| && cps[j] == n
    ensures TooBig(cps, n, k + 1, nd, id)
  {
    if nd == n {
      NearDelta(cps, n, k + 1, id);
    } else {
      var j :| k <= j < |cps| && cps[j] == n;
      Missing(cps, n, k + 1, j);
      TooFar(cps, n, k + 1, nd, id);
    }
  }

  lemma NearDelta(cps: seq<nat>, n: nat, k: nat, id: nat)
    requires k <= |cps|
    ensures Delta(cps, n, k, n, id) <= |cps|
  {
    BelowSome(cps[..k], n + 1);
    assert (n - n) * (|Out(cps, n, k)| + 1) == 0;
  }

  lemma Missing(cps: seq<nat>, n: nat, k: nat, j: nat)
    requires k <= j < |cps| && cps[j] >= n
    ensures |Out(cps, n, k)| < |cps|
  {
    BelowSome(cps[..k], n + 1);
    BelowSome(cps[k..], n);
    assert cps[k..][j - k] >= n;
  }

  // The variables of the main loop, and where that leaves the decoder.
  datatype Coder = Coder(d: nat, bias: nat, delta: nat, h: nat, todo: nat, first: bool)
  datatype Trace = Trace(nd: nat, id: nat, text: seq<nat>)

  ghost predicate Good(cps: seq<nat>, n: nat, k: nat, e: Coder, g: Trace, full: seq<nat>) {
    && AtState(cps, n, k, g.nd, g.id, e.delta, e.h) && OnCourse(cps, n, k, g.nd, g.id, e.bias, g.text, full)
    && e.h + e.todo == |cps| && e.first == (g.id == 0)
  }

  // c == n: the body of the second inner loop after the continue.
  method Emit(dst: array<nat>, e: Coder, n: nat, ghost cps: seq<nat>, ghost k: nat, ghost g: Trace,
      ghost full: seq<nat>)
    returns (e': Coder, ghost g': Trace)
    requires Good(cps, n, k, e, g, full) && k < |cps| && cps[k] == n && Wrote(dst, e.d, g.text)
    modifies dst
    ensures Good(cps, n, k + 1, e', g', full) && Wrote(dst, e'.d, g'.text) && g'.nd == n && e'.todo == e.todo - 1
  {
    Missing(cps, n, k, k);
    var d := WriteInt(dst, e.d, e.delta, e.bias, g.text);
    var bias := AdaptBias(e.delta, e.h + 1, e.first);
    InsertStep(cps, n, k, g.nd, g.id, e.delta, e.h, e.bias, bias, g.text, full);
    e' := Coder(d, bias, 0, e.h + 1, e.todo - 1, false);
    g' := Trace(n, At(cps, n, k) + 1, g.text + Chars(EncodeInt(e.delta, 36, e.bias)));
  }

  // c != n: delta counts c if it is below n, and must not wrap to 0.
  method Skip(e: Coder, c: nat, n: nat, ghost cps: seq<nat>, ghost k: nat, ghost g: Trace, ghost full: seq<nat>)
    returns (big: bool, e': Coder)
    requires Good(cps, n, k, e, g, full) && k < |cps| && cps[k] == c != n
    requires g.nd == n || exists j :: k <= j < |cps| && cps[j] == n
    ensures if big then LabelTooBig(cps) else Good(cps, n, k + 1, e', g, full) && e'.d == e.d && e'.todo == e.todo
  {
    PassStep(cps, n, k, g.nd, g.id, e.delta, e.h, e.bias, g.text, full);
    big, e' := false, e;
    if c < n {
      var delta := (e.delta + 1) % (UINT_MAX + 1);
      e' := e.(delta := delta);
      big := delta == 0;
    }
  }

  // One pass over the label that writes every n: the second inner loop.
  method Pass(src: seq<nat>, dst: array<nat>, e: Coder, n: nat, ghost cps: seq<nat>, ghost g: Trace,
      ghost full: seq<nat>)
    returns (big: bool, e': Coder, ghost g': Trace)
    requires Reading(src, 0, cps, 0) && Good(cps, n, 0, e, g, full) && Wrote(dst, e.d, g.text)
    requires exists j :: 0 <= j < |cps| && cps[j] == n
    modifies dst
    ensures big ==> LabelTooBig(cps)
    ensures !big ==> Good(cps, n, |cps|, e', g', full) && Wrote(dst, e'.d, g'.text) && g'.nd == n && e'.todo < e.todo
  {
    var p := 0;
    ghost var k := 0;
    big, e', g' := false, e, g;
    while p < |src|
      invariant Reading(src, p, cps, k) && Good(cps, n, k, e', g', full) && Wrote(dst, e'.d, g'.text)
      invariant e'.todo <= e.todo && ((g'.nd == n && e'.todo < e.todo) || exists j :: k <= j < |cps| && cps[j] == n)
    {
      var c, p' := Next(src, p, cps, k);
      if c == n {
        e', g' := Emit(dst, e', n, cps, k, g', full);
      } else {
        big, e' := Skip(e', c, n, cps, k, g', full);
        if big { return; }
      }
      p, k := p', k + 1;
    }
  }

  lemma Complete(cps: seq<nat>, n: nat, e: Coder, g: Trace, full: seq<nat>)
    requires Good(cps, n, 0, e, g, full) && e.todo == 0
    ensures full == g.text && !LabelTooBig(cps)
  {
    assert cps[..0] == [] && cps[0..] == cps;
    BelowSome(cps, n);
    NoMore(cps, n, g.nd, g.id, e.bias);
    assert g.text + Chars([]) == g.text;
  }

  lemma SomeLeft(cps: seq<nat>, n: nat, e: Coder, g: Trace, full: seq<nat>)
    requires Good(cps, n, 0, e, g, full) && e.todo > 0
    ensures exists j :: 0 <= j < |cps| && cps[j] >= n
  {
    assert cps[..0] == [] && cps[0..] == cps;
    BelowSome(cps, n);
  }

  // The states from (n, 0) to (m, 0) with h code points in the output.
  function Steps(n: nat, m: nat, h: nat): nat
    requires n <= m
  {
    (m - n) * (h + 1)
  }

  // From n to the next code point m, unless that takes delta over 32 bits.
  lemma JumpGood(cps: seq<nat>, n: nat, m: nat, e: Coder, g: Trace, full: seq<nat>)
    requires Good(cps, n, 0, e, g, full) && e.todo > 0 && n <= m < 0x11_0000
    requires forall j :: 0 <= j < |cps| && cps[j] >= n ==> m <= cps[j]
    ensures e.delta + Steps(n, m, e.h) > UINT_MAX ==> LabelTooBig(cps)
    ensures e.delta + Steps(n, m, e.h) <= UINT_MAX ==> Good(cps, m, 0, e.(delta := e.delta + Steps(n, m, e.h)), g, full)
  {
    Jump(cps, n, m, g.nd, g.id, e.bias);
    if e.delta + Steps(n, m, e.h) > UINT_MAX { TooFar(cps, m, 0, g.nd, g.id); }
  }

  lemma WrapGood(cps: seq<nat>, n: nat, e: Coder, g: Trace, full: seq<nat>)
    requires Good(cps, n, |cps|, e, g, full) && g.nd == n < 0x11_0000
    ensures e.delta < UINT_MAX && Good(cps, n + 1, 0, e.(delta := e.delta + 1), g, full)
  {
    NearDelta(cps, n, |cps|, g.id);
    OutWrap(cps, n);
    DeltaWrap(cps, n, g.nd, g.id);
  }

  lemma Fits(x: nat, y: nat, delta: nat)
    requires y > 0 && delta <= UINT_MAX
    ensures x > (UINT_MAX - delta) / y <==> delta + x * y > UINT_MAX
  {
    var room := UINT_MAX - delta;
    DivMod(room, y);
    if x > room / y { MulMono(room / y + 1, x, y); } else { MulMono(x, room / y, y); }
  }

  lemma MulMono(a: nat, b: nat, y: nat)
    requires a <= b
    ensures a * y <= b * y
  {
  }

  lemma JumpOrStop(cps: seq<nat>, n: nat, m: nat, e: Coder, g: Trace, full: seq<nat>)
    requires Good(cps, n, 0, e, g, full) && e.todo > 0 && n <= m < 0x11_0000
    requires forall j :: 0 <= j < |cps| && cps[j] >= n ==> m <= cps[j]
    ensures m - n > (UINT_MAX - e.delta) / (e.h + 1) ==> LabelTooBig(cps)
    ensures m - n <= (UINT_MAX - e.delta) / (e.h + 1)
      ==> Good(cps, m, 0, e.(delta := e.delta + Steps(n, m, e.h)), g, full)
  {
    JumpGood(cps, n, m, e, g, full);
    Fits(m - n, e.h + 1, e.delta);
  }

  // Finds the next code point and skips the states up to it.
  method Leap(src: seq<nat>, n: nat, e: Coder, ghost cps: seq<nat>, ghost g: Trace, ghost full: seq<nat>)
      returns (over: bool, m: nat, e': Coder)
    requires Reading(src, 0, cps, 0) && cps == CodePoints(src) && Good(cps, n, 0, e, g, full) && e.todo > 0
    ensures over ==> LabelTooBig(cps)
    ensures !over ==>
      Good(cps, m, 0, e', g, full) && m < 0x11_0000 && (exists j :: 0 <= j < |cps| && cps[j] == m)
      && e'.todo == e.todo && e'.d == e.d
  {
    SomeLeft(cps, n, e, g, full);
    m := NextPoint(src, n, cps);
    JumpOrStop(cps, n, m, e, g, full);
    if m - n > (UINT_MAX - e.delta) / (e.h + 1) { return true, m, e; }
    over, e' := false, e.(delta := e.delta + Steps(n, m, e.h));
  }

  // One turn of the outer loop: to the next code point, over its occurrences, and past it.
  method Round(src: seq<nat>, dst: array<nat>, n: nat, e: Coder, ghost cps: seq<nat>, ghost g: Trace,
      ghost full: seq<nat>)
    returns (over: bool, n': nat, e': Coder, ghost g': Trace)
    requires Reading(src, 0, cps, 0) && cps == CodePoints(src)
    requires Good(cps, n, 0, e, g, full) && e.todo > 0 && Wrote(dst, e.d, g.text)
    modifies dst
    ensures over ==> LabelTooBig(cps)
    ensures !over ==> Good(cps, n', 0, e', g', full) && Wrote(dst, e'.d, g'.text) && e'.todo < e.todo
  {
    over, n', e' := Leap(src, n, e, cps, g, full);
    g' := g;
    if over { return; }
    over, e', g' := Pass(src, dst, e', n', cps, g, full);
    if over { return; }
    WrapGood(cps, n', e', g', full);
    e', n' := e'.(delta := e'.delta + 1), n' + 1;
  }

  // The outer loop: one pass for each code point value in the label.
  method EncodeRest(src: seq<nat>, dst: array<nat>, d: nat, h: nat, todo: nat, ghost cps: seq<nat>,
      ghost text: seq<nat>, ghost full: seq<nat>)
    returns (rc: int, d': nat)
    requires Reading(src, 0, cps, 0) && cps == CodePoints(src) && |cps| < 0x8000_0000 && h + todo == |cps|
    requires Good(cps, 128, 0, Coder(d, 72, 0, h, todo, true), Trace(128, 0, text), full) && Wrote(dst, d, text)
    modifies dst
    ensures rc == 0 || rc == UV_E2BIG
    ensures rc == UV_E2BIG <==> LabelTooBig(cps)
    ensures rc == 0 ==> Wrote(dst, d', full)
  {
    var n := 128;
    var e := Coder(d, 72, 0, h, todo, true);
    ghost var g := Trace(128, 0, text);
    while e.todo > 0
      invariant Good(cps, n, 0, e, g, full) && Wrote(dst, e.d, g.text)
      decreases e.todo
    {
      var over;
      over, n, e, g := Round(src, dst, n, e, cps, g, full);
      if over { return UV_E2BIG, e.d; }
    }
    Complete(cps, n, e, g, full);
    return 0, e.d;
  }

  method PutAce(dst: array<nat>, d: nat, ghost text: seq<nat>) returns (d': nat)
    requires Wrote(dst, d, text)
    modifies dst
    ensures Wrote(dst, d', text + ACE)
  {
    d' := Put(dst, d, 120, text);
    d' := Put(dst, d', 110, text + [120]);
    d' := Put(dst, d', 45, text + [120] + [110]);
    d' := Put(dst, d', 45, text + [120] + [110] + [45]);
    assert text + ACE == text + [120] + [110] + [45] + [45];
  }

  lemma StartGood(cps: seq<nat>, d: nat, h: nat, todo: nat, text: seq<nat>)
    requires Scalars(cps) && |cps| < 0x8000_0000 && h == |Below(cps, 128)| && h + todo == |cps|
    ensures Good(cps, 128, 0, Coder(d, 72, 0, h, todo, true), Trace(128, 0, text + ACE + Prefix(Below(cps, 128))),
      text + (ACE + Encoded(cps)))
  {
    assert cps[0..] == cps && cps[..0] == [];
    var p, tail := Prefix(Below(cps, 128)), Chars(Tail(cps, 128, 0, 128, 0, 72));
    assert text + ACE + p + tail == text + (ACE + (p + tail));
  }

  // "xn--", the ASCII characters and the separator.
  method PutBasic(src: seq<nat>, dst: array<nat>, d: nat, h: nat, ghost cps: seq<nat>, ghost text: seq<nat>)
      returns (d': nat)
    requires Reading(src, 0, cps, 0) && h == |Below(cps, 128)| && Wrote(dst, d, text)
    modifies dst
    ensures Wrote(dst, d', text + ACE + Prefix(Below(cps, 128)))
  {
    ghost var t, basic := text + ACE, Below(cps, 128);
    d' := PutAce(dst, d, text);
    d' := CopyAscii(src, dst, d', h, cps, t);
    if h > 0 { d' := Put(dst, d', DASH, t + basic); }
    assert t + Prefix(basic) == if h > 0 then t + basic + [DASH] else t + basic;
  }

  // A label with characters that are not ASCII.
  method EncodeLabel(src: seq<nat>, dst: array<nat>, d: nat, h: nat, todo: nat, ghost cps: seq<nat>,
      ghost text: seq<nat>) returns (rc: int, d': nat)
    requires Reading(src, 0, cps, 0) && cps == CodePoints(src) && |cps| < 0x8000_0000 && Wrote(dst, d, text)
    requires h == |Below(cps, 128)| && h + todo == |cps|
    modifies dst
    ensures rc == 0 || rc == UV_E2BIG
    ensures rc == UV_E2BIG <==> LabelTooBig(cps)
    ensures rc == 0 ==> Wrote(dst, d', text + (ACE + Encoded(cps)))
  {
    d' := PutBasic(src, dst, d, h, cps, text);
    StartGood(cps, d', h, todo, text);
    rc, d' := EncodeRest(src, dst, d', h, todo, cps, text + ACE + Prefix(Below(cps, 128)), text + (ACE + Encoded(cps)));
  }

  // uv__idna_toascii_label: the number of ASCII characters of an ASCII label, 0 for
  // another, or an error.
  method ToAsciiLabel(src: seq<nat>, dst: array<nat>, d: nat, ghost text: seq<nat>) returns (rc: int, d': nat)
    requires Bytes(src) && (Legal(src) ==> |CodePoints(src)| < 0x8000_0000) && Wrote(dst, d, text)
    modifies dst
    ensures !Legal(src) ==> rc == UV_EINVAL
    ensures Legal(src) && LabelTooBig(CodePoints(src)) ==> rc == UV_E2BIG
    ensures Legal(src) && !LabelTooBig(CodePoints(src)) ==> rc >= 0 && Wrote(dst, d', text + LabelText(CodePoints(src)))
  {
    var ok, h, todo := Measure(src);
    if !ok { return UV_EINVAL, d; }
    ghost var cps := CodePoints(src);
    assert src[0..] == src && cps[0..] == cps;
    BelowSome(cps, 128);
    if todo > 0 {
      rc, d' := EncodeLabel(src, dst, d, h, todo, cps, text);
    } else {
      d' := CopyAscii(src, dst, d, h, cps, text);
      BelowAll(cps, 128);
      NoMore(cps, 128, 128, 0, 72);
      rc := h;
    }
  }

  // ---------- uv__idna_toascii ----------

  // The full stop, and the ideographic, fullwidth and halfwidth ideographic full stops.
  predicate Separator(c: nat) { c == 46 || c == 0x3002 || c == 0xFF0E || c == 0xFF61 }

  // Where the first label ends.
  function LabelEnd(cps: seq<nat>): (i: nat)
    ensures i <= |cps| && (i < |cps| ==> Separator(cps[i])) && forall j :: 0 <= j < i ==> !Separator(cps[j])
  {
    if cps == [] || Separator(cps[0]) then 0 else 1 + LabelEnd(cps[1..])
  }

  // A label ends at U+002E, U+3002, U+FF0E or U+FF61, whichever comes first.
  lemma LabelEndIs(cps: seq<nat>)
    ensures var i := LabelEnd(cps);
      && (i < |cps| ==> cps[i] == 0x2E || cps[i] == 0x3002 || cps[i] == 0xFF0E || cps[i] == 0xFF61)
      && forall j :: 0 <= j < i ==> cps[j] != 0x2E && cps[j] != 0x3002 && cps[j] != 0xFF0E && cps[j] != 0xFF61
  {
  }

  // The ASCII forms of the labels of a name, joined by full stops.
  function HostText(cps: seq<nat>): seq<nat>
    requires Scalars(cps)
  {
    var i := LabelEnd(cps);
    if i == |cps| then LabelText(cps) else LabelText(cps[..i]) + [46] + HostText(cps[i + 1..])
  }

  // A name of two letters with diaeresis.
  lemma SampleHost(cps: seq<nat>)
    requires cps == [0xE4, 0xF6]
    ensures HostText(cps) == Codes("xn--4ca0b")
  {
    assert cps[0] == 0xE4 && cps[1] == 0xF6;
    SampleLabel(cps);
  }

  // A label is too big; the last one counts if the name is whole, with no error after it.
  predicate HostTooBig(cps: seq<nat>, whole: bool)
    requires Scalars(cps)
  {
    var i := LabelEnd(cps);
    if i == |cps| then whole && LabelTooBig(cps) else LabelTooBig(cps[..i]) || HostTooBig(cps[i + 1..], whole)
  }

  // The code points from k on, up to the first error, start at byte p.
  ghost predicate Starts(src: seq<nat>, cps: seq<nat>, whole: bool, p: nat, k: nat) {
    p <= |src| && k <= |cps| && Bytes(src) && Scalars(cps) && Scanned(src[p..]) == cps[k..]
      && (Legal(src[p..]) <==> whole)
  }

  // The characters from byte s up to byte p are those of cs.
  ghost predicate Spans(src: seq<nat>, s: nat, p: nat, cs: seq<nat>)
    requires Bytes(src)
    decreases |cs|
  {
    if cs == [] then s == p <= |src|
    else s < |src| && Decode1(src[s..]).0 == cs[0] != UINT_MAX && Spans(src, s + Decode1(src[s..]).1, p, cs[1..])
  }

  lemma {:induction false} SpansMore(src: seq<nat>, s: nat, p: nat, cs: seq<nat>)
    requires Bytes(src) && Spans(src, s, p, cs) && p < |src| && Decode1(src[p..]).0 != UINT_MAX
    ensures Spans(src, s, p + Decode1(src[p..]).1, cs + [Decode1(src[p..]).0])
    decreases |cs|
  {
    var c := Decode1(src[p..]).0;
    if cs == [] {
      assert (cs + [c])[1..] == [];
    } else {
      SpansMore(src, s + Decode1(src[s..]).1, p, cs[1..]);
      assert (cs + [c])[1..] == cs[1..] + [c];
    }
  }

  // What a character is does not depend on the bytes after it.
  lemma Decode1Alone(w: seq<nat>, m: nat)
    requires |w| > 0 && Bytes(w) && Decode1(w).1 <= m <= |w|
    ensures Decode1(w[..m]) == Decode1(w)
  {
    var v := w[..m];
    assert forall i :: 0 <= i < m ==> v[i] == w[i];
  }

  // Cut out, those bytes decode to the same code points.
  lemma {:induction false} SpansAlone(src: seq<nat>, s: nat, p: nat, cs: seq<nat>)
    requires Bytes(src) && Spans(src, s, p, cs)
    ensures s <= p <= |src| && Legal(src[s..p]) && CodePoints(src[s..p]) == cs
    decreases |cs|
  {
    if cs != [] {
      SpansAlone(src, s + Decode1(src[s..]).1, p, cs[1..]);
      OneAlone(src, s, p);
      assert cs == [cs[0]] + cs[1..];
    }
  }

  // A character and legal bytes after it.
  lemma OneAlone(src: seq<nat>, s: nat, p: nat)
    requires Bytes(src) && s < |src| && Decode1(src[s..]).0 != UINT_MAX
    requires var n := s + Decode1(src[s..]).1; n <= p <= |src| && Legal(src[n..p])
    ensures Legal(src[s..p]) && CodePoints(src[s..p])
      == [Decode1(src[s..]).0] + CodePoints(src[s + Decode1(src[s..]).1..p])
  {
    var n := Decode1(src[s..]).1;
    Decode1Alone(src[s..], p - s);
    assert src[s..][..p - s] == src[s..p] && src[s..p][n..] == src[s + n..p];
  }

  lemma LabelEnds(cps: seq<nat>, l: nat, k: nat)
    requires l <= k < |cps| && Separator(cps[k]) && forall j :: l <= j < k ==> !Separator(cps[j])
    ensures LabelEnd(cps[l..]) == k - l && cps[l..][..k - l] == cps[l..k] && cps[l..][k - l + 1..] == cps[k + 1..]
  {
    assert cps[l..][k - l] == cps[k];
  }

  // What is written of full, and whether it all fits, when rest is still to be read.
  ghost predicate LabelStart(full: seq<nat>, big: bool, whole: bool, rest: seq<nat>, done: seq<nat>) {
    Scalars(rest) && full == done + HostText(rest) && (big <==> HostTooBig(rest, whole))
  }

  lemma HostSplit(t: seq<nat>, whole: bool, a: seq<nat>, b: seq<nat>)
    requires Scalars(t) && LabelEnd(t) < |t| && a == t[..LabelEnd(t)] && b == t[LabelEnd(t) + 1..]
    ensures HostText(t) == LabelText(a) + [46] + HostText(b)
    ensures HostTooBig(t, whole) <==> LabelTooBig(a) || HostTooBig(b, whole)
  {
  }

  lemma Regroup(full: seq<nat>, done: seq<nat>, t: seq<nat>, a: seq<nat>, b: seq<nat>)
    requires full == done + t && t == a + [46] + b
    ensures full == done + a + [46] + b
  {
  }

  // After the label a and a separator, b is still to be read.
  lemma NextStart(full: seq<nat>, big: bool, whole: bool, rest: seq<nat>, done: seq<nat>, a: seq<nat>, b: seq<nat>)
    requires LabelStart(full, big, whole, rest, done) && LabelEnd(rest) < |rest| && a == rest[..LabelEnd(rest)]
      && b == rest[LabelEnd(rest) + 1..]
    ensures LabelTooBig(a) ==> big
    ensures !LabelTooBig(a) ==> LabelStart(full, big, whole, b, done + LabelText(a) + [46])
  {
    HostSplit(rest, whole, a, b);
    Regroup(full, done, HostText(rest), LabelText(a), HostText(b));
  }

  ghost predicate Decoded(part: seq<nat>, cps: seq<nat>) { Bytes(part) && Legal(part) && CodePoints(part) == cps }

  // A label and the full stop written after it.
  method EndLabel(part: seq<nat>, dst: array<nat>, d: nat, ghost lab: seq<nat>, ghost done: seq<nat>)
      returns (rc: int, d': nat)
    requires Decoded(part, lab) && |lab| < 0x8000_0000 && Wrote(dst, d, done)
    modifies dst
    ensures if LabelTooBig(lab) then rc == UV_E2BIG else rc >= 0 && Wrote(dst, d', done + LabelText(lab) + [46])
  {
    rc, d' := ToAsciiLabel(part, dst, d, done);
    if rc >= 0 { d' := Put(dst, d', 46, done + LabelText(lab)); }
  }

  lemma LastLabel(rest: seq<nat>)
    requires Scalars(rest) && forall j :: 0 <= j < |rest| ==> !Separator(rest[j])
    ensures HostText(rest) == LabelText(rest) && LabelEnd(rest) == |rest|
  {
    assert LabelEnd(rest) == |rest| && rest[..|rest|] == rest;
  }

  lemma NothingLeft()
    ensures HostText([]) == [] && !LabelTooBig([])
  {
    NoMore([], 128, 128, 0, 72);
  }

  // The result, given the whole text, whether a label is too big, and whether the name
  // is legal as a whole.
  function Result(full: seq<nat>, big: bool, whole: bool, room: nat): int {
    if big then UV_E2BIG else if !whole || |full| >= room then UV_EINVAL else |full| + 1
  }

  // What follows the last separator, and the NUL.
  method EndHost(part: seq<nat>, dst: array<nat>, d: nat, ghost rest: seq<nat>, ghost full: seq<nat>, ghost big: bool,
      ghost done: seq<nat>) returns (rc: int)
    requires LabelStart(full, big, true, rest, done) && Wrote(dst, d, done) && Decoded(part, rest)
      && |rest| < 0x8000_0000
    requires forall j :: 0 <= j < |rest| ==> !Separator(rest[j])
    modifies dst
    ensures rc == Result(full, big, true, dst.Length)
    ensures rc >= 0 ==> dst[..rc] == full + [0]
  {
    var d' := d;
    if |part| > 0 {
      LastLabel(rest);
      rc, d' := ToAsciiLabel(part, dst, d, done);
      if rc < 0 { return rc; }
    } else {
      NothingLeft();
      assert rest == [] && done + [] == done;
    }
    rc := EndText(dst, d', full);
  }

  method EndText(dst: array<nat>, d: nat, ghost text: seq<nat>) returns (rc: int)
    requires Wrote(dst, d, text)
    modifies dst
    ensures rc == if |text| >= dst.Length then UV_EINVAL else |text| + 1
    ensures rc >= 0 ==> dst[..rc] == text + [0]
  {
    if d >= dst.Length { return UV_EINVAL; }
    rc := Put(dst, d, 0, text);
  }

  // What is to come of a name: its code points up to the first error, the whole text,
  // whether a label is too big, whether there is no error.
  datatype Name = Name(cps: seq<nat>, full: seq<nat>, big: bool, whole: bool)

  // Where its scan is: the label starts at byte s, the next character at byte si; these
  // are code points l and k; rest starts with the label, done is what has been written.
  datatype Scan = Scan(s: nat, si: nat, d: nat)
  datatype Spot = Spot(l: nat, k: nat, rest: seq<nat>, done: seq<nat>)

  ghost predicate OnTrack(src: seq<nat>, m: Name, x: Scan, g: Spot) {
    Starts(src, m.cps, m.whole, x.si, g.k) && InLabel(src, m.cps, x.s, x.si, g.l, g.k) && Owed(m, g)
  }

  // Bytes s to si hold the code points l to k, which are of one label.
  ghost predicate InLabel(src: seq<nat>, cps: seq<nat>, s: nat, si: nat, l: nat, k: nat)
    requires Bytes(src)
  {
    l <= k <= |cps| && Spans(src, s, si, cps[l..k]) && forall j :: l <= j < k ==> !Separator(cps[j])
  }

  ghost predicate Owed(m: Name, g: Spot) {
    g.l <= |m.cps| < 0x8000_0000 && g.rest == m.cps[g.l..] && LabelStart(m.full, m.big, m.whole, g.rest, g.done)
  }

  // The label a of rest, and its separator.
  method TakeLabel(part: seq<nat>, dst: array<nat>, d: nat, ghost a: seq<nat>, ghost b: seq<nat>, ghost rest: seq<nat>,
                   ghost m: Name, ghost done: seq<nat>)
    returns (rc: int, d': nat, ghost done': seq<nat>)
    requires LabelStart(m.full, m.big, m.whole, rest, done)
    requires LabelEnd(rest) < |rest| && a == rest[..LabelEnd(rest)] && b == rest[LabelEnd(rest) + 1..]
    requires Decoded(part, a) && |a| < 0x8000_0000 && Wrote(dst, d, done)
    modifies dst
    ensures rc < 0 ==> rc == UV_E2BIG && m.big
    ensures rc >= 0 ==> LabelStart(m.full, m.big, m.whole, b, done') && Wrote(dst, d', done')
  {
    NextStart(m.full, m.big, m.whole, rest, done, a, b);
    rc, d' := EndLabel(part, dst, d, a, done);
    done' := done + LabelText(a) + [46];
  }

  lemma LabelAt(src: seq<nat>, m: Name, x: Scan, g: Spot)
    requires OnTrack(src, m, x, g) && g.k < |m.cps| && Separator(m.cps[g.k])
    ensures x.s <= x.si <= |src| && Decoded(src[x.s..x.si], m.cps[g.l..g.k])
    ensures var i := LabelEnd(g.rest);
      i < |g.rest| && m.cps[g.l..g.k] == g.rest[..i] && m.cps[g.k + 1..] == g.rest[i + 1..]
  {
    LabelEnds(m.cps, g.l, g.k);
    SpansAlone(src, x.s, x.si, m.cps[g.l..g.k]);
  }

  // The separator at byte x.si ends a label.
  method FinishLabel(src: seq<nat>, dst: array<nat>, x: Scan, ghost m: Name, ghost g: Spot)
    returns (rc: int, d: nat, ghost done: seq<nat>)
    requires OnTrack(src, m, x, g) && Wrote(dst, x.d, g.done) && g.k < |m.cps| && Separator(m.cps[g.k])
    modifies dst
    ensures rc < 0 ==> rc == UV_E2BIG && m.big
    ensures rc >= 0 ==> LabelStart(m.full, m.big, m.whole, m.cps[g.k + 1..], done) && Wrote(dst, d, done)
  {
    LabelAt(src, m, x, g);
    rc, d, done := TakeLabel(src[x.s..x.si], dst, x.d, m.cps[g.l..g.k], m.cps[g.k + 1..], g.rest, m, g.done);
  }

  lemma FreshLabel(src: seq<nat>, m: Name, x: Scan, g: Spot)
    requires Starts(src, m.cps, m.whole, x.si, g.k) && x.s == x.si && g.l == g.k && |m.cps| < 0x8000_0000
    requires g.rest == m.cps[g.k..] && LabelStart(m.full, m.big, m.whole, g.rest, g.done)
    ensures OnTrack(src, m, x, g)
  {
    assert m.cps[g.l..g.k] == [];
  }

  // The next label starts at byte si.
  method Separate(src: seq<nat>, dst: array<nat>, x: Scan, si: nat, ghost m: Name, ghost g: Spot)
    returns (rc: int, x': Scan, ghost g': Spot)
    requires OnTrack(src, m, x, g) && Wrote(dst, x.d, g.done) && g.k < |m.cps| && Separator(m.cps[g.k])
    requires Starts(src, m.cps, m.whole, si, g.k + 1)
    modifies dst
    ensures rc < 0 ==> rc == UV_E2BIG && m.big
    ensures rc >= 0 ==> OnTrack(src, m, x', g') && Wrote(dst, x'.d, g'.done) && x'.si == si
  {
    var d;
    ghost var done;
    rc, d, done := FinishLabel(src, dst, x, m, g);
    x', g' := Scan(si, si, d), Spot(g.k + 1, g.k + 1, m.cps[g.k + 1..], done);
    if rc >= 0 { FreshLabel(src, m, x', g'); }
  }

  // The next code point, or an error, which there is no code point for.
  method ReadChar(src: seq<nat>, p: nat, ghost m: Name, ghost k: nat) returns (c: nat, q: nat)
    requires Starts(src, m.cps, m.whole, p, k) && p < |src|
    ensures (c, q) == (Decode1(src[p..]).0, p + Decode1(src[p..]).1) && p < q
    ensures if c == UINT_MAX then k == |m.cps| && !m.whole
      else k < |m.cps| && c == m.cps[k] && Starts(src, m.cps, m.whole, q, k + 1)
  {
    var r := Decode1(src[p..]);
    c, q := r.0, p + r.1;
    assert src[p..][r.1..] == src[q..];
    if c != UINT_MAX {
      assert m.cps[k..] == [c] + Scanned(src[q..]) && m.cps[k..][1..] == m.cps[k + 1..];
    }
  }

  lemma Within(src: seq<nat>, cps: seq<nat>, s: nat, si: nat, l: nat, k: nat)
    requires Bytes(src) && InLabel(src, cps, s, si, l, k) && si < |src| && k < |cps| && !Separator(cps[k])
    requires Decode1(src[si..]).0 == cps[k] != UINT_MAX
    ensures InLabel(src, cps, s, si + Decode1(src[si..]).1, l, k + 1)
  {
    SpansMore(src, s, si, cps[l..k]);
    assert cps[l..k + 1] == cps[l..k] + [cps[k]];
  }

  // At an error no label before it was too big.
  lemma AtError(src: seq<nat>, m: Name, x: Scan, g: Spot)
    requires OnTrack(src, m, x, g) && g.k == |m.cps| && !m.whole
    ensures !m.big
  {
    LastLabel(g.rest);
  }

  lemma SameLabel(src: seq<nat>, m: Name, x: Scan, g: Spot, q: nat)
    requires Bytes(src) && OnTrack(src, m, x, g) && g.k < |m.cps| && !Separator(m.cps[g.k]) && x.si < |src|
    requires Decode1(src[x.si..]).0 == m.cps[g.k] != UINT_MAX && q == x.si + Decode1(src[x.si..]).1
    ensures InLabel(src, m.cps, x.s, q, g.l, g.k + 1)
  {
    Within(src, m.cps, x.s, x.si, g.l, g.k);
  }

  lemma StaysOnTrack(src: seq<nat>, m: Name, x: Scan, g: Spot, q: nat)
    requires OnTrack(src, m, x, g) && Starts(src, m.cps, m.whole, q, g.k + 1)
    requires InLabel(src, m.cps, x.s, q, g.l, g.k + 1)
    ensures OnTrack(src, m, Scan(x.s, q, x.d), Spot(g.l, g.k + 1, g.rest, g.done))
  {
  }

  // One turn of the loop over the characters of the name.
  method ScanNext(src: seq<nat>, dst: array<nat>, x: Scan, ghost m: Name, ghost g: Spot)
    returns (rc: int, x': Scan, ghost g': Spot)
    requires OnTrack(src, m, x, g) && Wrote(dst, x.d, g.done) && x.si < |src|
    modifies dst
    ensures rc < 0 ==> if m.big then rc == UV_E2BIG else rc == UV_EINVAL && !m.whole
    ensures rc >= 0 ==> OnTrack(src, m, x', g') && Wrote(dst, x'.d, g'.done) && x'.si > x.si
  {
    var c, si := ReadChar(src, x.si, m, g.k);
    if c == UINT_MAX {
      AtError(src, m, x, g);
      return UV_EINVAL, x, g;
    }
    if Separator(c) {
      rc, x', g' := Separate(src, dst, x, si, m, g);
    } else {
      rc, x', g' := 0, Scan(x.s, si, x.d), Spot(g.l, g.k + 1, g.rest, g.done);
      SameLabel(src, m, x, g, si);
      StaysOnTrack(src, m, x, g, si);
    }
  }

  // Past the last character there was no error, and the rest is one label.
  lemma AtEnd(src: seq<nat>, m: Name, x: Scan, g: Spot)
    requires OnTrack(src, m, x, g) && x.si == |src|
    ensures m.whole && Decoded(src[x.s..], g.rest) && |g.rest| < 0x8000_0000
      && forall j :: 0 <= j < |g.rest| ==> !Separator(g.rest[j])
  {
    assert src[x.si..] == [] && m.cps[g.k..] == [];
    SpansAlone(src, x.s, x.si, m.cps[g.l..g.k]);
    assert src[x.s..x.si] == src[x.s..] && m.cps[g.l..g.k] == g.rest;
  }

  method ToAsciiText(src: seq<nat>, dst: array<nat>, ghost m: Name) returns (rc: int)
    requires Starts(src, m.cps, m.whole, 0, 0) && LabelStart(m.full, m.big, m.whole, m.cps, []) && |m.cps| < 0x8000_0000
    modifies dst
    ensures rc == Result(m.full, m.big, m.whole, dst.Length)
    ensures rc >= 0 ==> dst[..rc] == m.full + [0]
  {
    var x := Scan(0, 0, 0);
    ghost var g := Spot(0, 0, m.cps, []);
    assert m.cps[0..] == m.cps && m.cps[0..0] == [];
    while x.si < |src|
      invariant OnTrack(src, m, x, g) && Wrote(dst, x.d, g.done)
      decreases |src| - x.si
    {
      rc, x, g := ScanNext(src, dst, x, m, g);
      if rc < 0 { return rc; }
    }
    AtEnd(src, m, x, g);
    rc := EndHost(src[x.s..], dst, x.d, g.rest, m.full, m.big, g.done);
  }

  // uv__idna_toascii on any bytes; a well-formed name is legal and decodes to its code
  // points, as WellFormed says.
  method ToAscii(src: seq<nat>, dst: array<nat>) returns (rc: int)
    requires Bytes(src) && |Scanned(src)| < 0x8000_0000
    modifies dst
    ensures var cps, whole := Scanned(src), Legal(src);
      && rc == (if src == [] then UV_EINVAL else Result(HostText(cps), HostTooBig(cps, whole), whole, dst.Length))
      && (rc >= 0 ==> dst[..rc] == HostText(cps) + [0])
  {
    if |src| == 0 { return UV_EINVAL; }
    ghost var cps, whole := Scanned(src), Legal(src);
    assert src[0..] == src && cps[0..] == cps && [] + HostText(cps) == HostText(cps);
    rc := ToAsciiText(src, dst, Name(cps, HostText(cps), HostTooBig(cps, whole), whole));
  }

  // ---------- what the output means ----------

  function Labels(cps: seq<nat>): seq<seq<nat>> {
    var i := LabelEnd(cps); if i == |cps| then [cps] else [cps[..i]] + Labels(cps[i + 1..])
  }

  function Dot(t: seq<nat>): (i: nat)
    ensures i <= |t| && (i < |t| ==> t[i] == 46) && forall j :: 0 <= j < i ==> t[j] != 46
  {
    if t == [] || t[0] == 46 then 0 else 1 + Dot(t[1..])
  }

  function SplitAtDots(t: seq<nat>): seq<seq<nat>> {
    var i := Dot(t); if i == |t| then [t] else [t[..i]] + SplitAtDots(t[i + 1..])
  }

  predicate NoDots(t: seq<nat>) { forall j :: 0 <= j < |t| ==> t[j] != 46 }

  // t is the ASCII form of label l: l itself if it is ASCII, or "xn--" and a text that
  // section 6.2 of RFC 3492 decodes to l.
  ghost predicate Stands(t: seq<nat>, l: seq<nat>) {
    (Ascii(l) ==> t == l) && (!Ascii(l) ==> |t| >= 4 && t[..4] == ACE && Gives(Decode(t[4..]), l))
  }

  lemma {:induction false} BelowNoDots(s: seq<nat>, n: nat)
    requires NoDots(s)
    ensures NoDots(Below(s, n))
  {
    if s != [] { BelowNoDots(s[1..], n); }
  }

  lemma JoinNoDots(a: seq<nat>, b: seq<nat>)
    requires NoDots(a) && NoDots(b)
    ensures NoDots(a + b)
  {
  }

  lemma CharsNoDots(ds: seq<nat>)
    requires Small(ds)
    ensures NoDots(Chars(ds))
  {
  }

  lemma EncodedNoDots(l: seq<nat>)
    requires Unicode(l) && NoDots(l)
    ensures NoDots(ACE + Encoded(l))
  {
    var p, tail := Prefix(Below(l, INITIAL_N)), Tail(l, INITIAL_N, 0, INITIAL_N, 0, INITIAL_BIAS);
    BelowNoDots(l, INITIAL_N);
    TailDigits(l, INITIAL_N, 0, INITIAL_N, 0, INITIAL_BIAS);
    CharsNoDots(tail);
    JoinNoDots(p, Chars(tail));
    assert Encoded(l) == p + Chars(tail);
    JoinNoDots(ACE, p + Chars(tail));
  }

  lemma LabelStands(l: seq<nat>)
    requires Scalars(l) && forall j :: 0 <= j < |l| ==> !Separator(l[j])
    ensures NoDots(LabelText(l)) && Stands(LabelText(l), l)
  {
    assert NoDots(l);
    if !Ascii(l) {
      EncodedNoDots(l);
      LabelRoundTrip(l);
    }
  }

  lemma SplitOne(a: seq<nat>, b: seq<nat>)
    requires NoDots(a)
    ensures SplitAtDots(a + [46] + b) == [a] + SplitAtDots(b)
  {
    var t := a + [46] + b;
    assert t[|a|] == 46;
    assert Dot(t) == |a| && t[..|a|] == a && t[|a| + 1..] == b;
  }

  lemma SplitLast(a: seq<nat>)
    requires NoDots(a)
    ensures SplitAtDots(a) == [a]
  {
    assert Dot(a) == |a|;
  }

  ghost predicate AllStand(ts: seq<seq<nat>>, ls: seq<seq<nat>>) {
    |ts| == |ls| && forall j :: 0 <= j < |ls| ==> Stands(ts[j], ls[j])
  }

  lemma OneMoreStands(t: seq<nat>, l: seq<nat>, ts: seq<seq<nat>>, ls: seq<seq<nat>>, ts': seq<seq<nat>>,
      ls': seq<seq<nat>>)
    requires Stands(t, l) && AllStand(ts, ls) && ts' == [t] + ts && ls' == [l] + ls
    ensures AllStand(ts', ls')
  {
  }

  lemma MoreLabels(cps: seq<nat>, a: seq<nat>, rest: seq<nat>, t: seq<nat>, ts0: seq<seq<nat>>, ls0: seq<seq<nat>>,
      ts: seq<seq<nat>>, ls: seq<seq<nat>>)
    requires Scalars(cps) && LabelEnd(cps) < |cps| && a == cps[..LabelEnd(cps)] && rest == cps[LabelEnd(cps) + 1..]
    requires t == LabelText(a) && NoDots(t) && ts0 == SplitAtDots(HostText(rest)) && ls0 == Labels(rest)
    requires ts == [t] + ts0 && ls == [a] + ls0
    ensures ts == SplitAtDots(HostText(cps)) && ls == Labels(cps)
  {
    HostSplit(cps, true, a, rest);
    SplitOne(t, HostText(rest));
  }

  lemma LastStands(cps: seq<nat>, a: seq<nat>, t: seq<nat>)
    requires Scalars(cps) && LabelEnd(cps) == |cps| && a == cps[..|cps|] && t == LabelText(a)
    requires NoDots(t) && Stands(t, a)
    ensures SplitAtDots(HostText(cps)) == [t] && Labels(cps) == [a] && AllStand([t], [a])
  {
    assert a == cps;
    SplitLast(t);
  }

  lemma FirstLabel(cps: seq<nat>) returns (a: seq<nat>, t: seq<nat>)
    requires Scalars(cps)
    ensures a == cps[..LabelEnd(cps)] && Scalars(a) && t == LabelText(a) && NoDots(t) && Stands(t, a)
  {
    a := cps[..LabelEnd(cps)];
    t := LabelText(a);
    LabelStands(a);
  }

  lemma {:induction false} Pieces(cps: seq<nat>) returns (ts: seq<seq<nat>>, ls: seq<seq<nat>>)
    requires Scalars(cps)
    ensures ts == SplitAtDots(HostText(cps)) && ls == Labels(cps) && AllStand(ts, ls)
  {
    var i := LabelEnd(cps);
    var a, t := FirstLabel(cps);
    if i == |cps| {
      LastStands(cps, a, t);
      return [t], [a];
    }
    var rest := cps[i + 1..];
    var ts0, ls0 := Pieces(rest);
    ts, ls := [t] + ts0, [a] + ls0;
    MoreLabels(cps, a, rest, t, ts0, ls0, ts, ls);
    OneMoreStands(t, a, ts0, ls0, ts, ls);
  }

  // Split at its full stops, the output has one text for each label, and each text
  // stands for its label.
  lemma HostRoundTrip(cps: seq<nat>)
    requires Scalars(cps)
    ensures AllStand(SplitAtDots(HostText(cps)), Labels(cps))
  {
    var _, _ := Pieces(cps);
  }
}
