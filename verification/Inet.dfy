// Addresses as text, inet.c: inet_ntop4, inet_ntop6, inet_pton4 and inet_pton6. Text is
// a sequence of ASCII codes without the terminating NUL.
module Inet {

  const UV_EINVAL := -22
  const UV_ENOSPC := -28
  const COLON := 58
  const DOT := 46

  predicate Bytes(a: seq<nat>) { forall i :: 0 <= i < |a| ==> a[i] < 256 }

  function DecVal(c: nat): int { if 48 <= c < 58 then c - 48 else -1 }

  function HexVal(c: nat): int {
    if 48 <= c < 58 then c - 48 else if 97 <= c < 103 then c - 87 else if 65 <= c < 71 then c - 55 else -1
  }

  // ---------- what the parsers accept ----------

  datatype Parsed = Bad | Good(out: seq<nat>, colon: int)

  // inet_pton4 from character i on: tmp are the octets, the last of them being read.
  function Scan4(src: seq<nat>, i: nat, tmp: seq<nat>, saw: bool, octets: nat): (r: Parsed)
    requires i <= |src| && |tmp| > 0
    decreases |src| - i
  {
    if i == |src| then if octets < 4 then Bad else Good(tmp, -1)
    else
      var n, v := |tmp| - 1, DecVal(src[i]);
      if v >= 0 then
        var nw := tmp[n] * 10 + v;
        if (saw && tmp[n] == 0) || nw > 255 || (!saw && octets + 1 > 4) then Bad
        else Scan4(src, i + 1, tmp[..n] + [nw], true, if saw then octets else octets + 1)
      else if src[i] == DOT && saw && octets != 4 then Scan4(src, i + 1, tmp + [0], false, octets)
      else Bad
  }

  function Word(val: nat): seq<nat> { [val / 256 % 256, val % 256] }

  // inet_pton6 from character i on: out has been written, colon is where "::" was seen,
  // seen digits make val, and the current token starts at tok.
  function Scan6(src: seq<nat>, i: nat, out: seq<nat>, colon: int, seen: nat, val: nat, tok: nat): Parsed
    requires tok <= i <= |src|
    decreases |src| - i
  {
    if i == |src| then
      if seen > 0 then if |out| + 2 > 16 then Bad else Good(out + Word(val), colon) else Good(out, colon)
    else
      var v := HexVal(src[i]);
      if v >= 0 then
        if seen + 1 > 4 then Bad else Scan6(src, i + 1, out, colon, seen + 1, val * 16 + v, tok)
      else if src[i] == COLON then
        if seen == 0 then
          if colon >= 0 then Bad else Scan6(src, i + 1, out, |out|, 0, val, i + 1)
        else if i + 1 == |src| || |out| + 2 > 16 then Bad
        else Scan6(src, i + 1, out + Word(val), colon, 0, 0, i + 1)
      else if src[i] == DOT && |out| + 4 <= 16 then
        var r := Scan4(src[tok..], 0, [0], false, 0);
        if r.Good? then Good(out + r.out, colon) else Bad
      else Bad
  }

  function Zeros(n: nat): (s: seq<nat>)
    ensures |s| == n && forall i :: 0 <= i < n ==> s[i] == 0
  {
    seq(n, i => 0)
  }

  // "::" stands for the bytes that are missing.
  function Expand(p: Parsed): Parsed {
    if p.Bad? then Bad
    else if p.colon < 0 then if |p.out| == 16 then p else Bad
    else if |p.out| >= 16 || p.colon > |p.out| then Bad
    else Good(p.out[..p.colon] + Zeros(16 - |p.out|) + p.out[p.colon..], -1)
  }

  function Parse4(src: seq<nat>): Parsed { Scan4(src, 0, [0], false, 0) }

  function Parse6(src: seq<nat>): Parsed {
    if |src| > 0 && src[0] == COLON then
      if |src| > 1 && src[1] == COLON then Expand(Scan6(src, 1, [], -1, 0, 0, 1)) else Bad
    else Expand(Scan6(src, 0, [], -1, 0, 0, 0))
  }

  // ---------- what the printers write ----------

  // %u
  function Dec(n: nat): (t: seq<nat>)
    ensures |t| > 0
  {
    if n < 10 then [48 + n] else Dec(n / 10) + [48 + n % 10]
  }

  // %x
  function Hex(n: nat): (t: seq<nat>)
    ensures |t| > 0
  {
    if n < 16 then [HexDigit(n)] else Hex(n / 16) + [HexDigit(n % 16)]
  }

  function HexDigit(d: nat): nat { if d < 10 then 48 + d else 87 + d }

  // Each octet followed by a full stop.
  function Dotted(a: seq<nat>): seq<nat> {
    if a == [] then [] else Dotted(a[..|a| - 1]) + (Dec(a[|a| - 1]) + [DOT])
  }

  function Text4(a: seq<nat>): seq<nat>
    requires |a| == 4
  {
    Dotted(a[..3]) + Dec(a[3])
  }

  // Each word followed by a colon.
  function Head(ws: seq<nat>): seq<nat> {
    if ws == [] then [] else Head(ws[..|ws| - 1]) + (Hex(ws[|ws| - 1]) + [COLON])
  }

  // The words with colons between them.
  function Joined(ws: seq<nat>): seq<nat> {
    if ws == [] then [] else Head(ws[..|ws| - 1]) + Hex(ws[|ws| - 1])
  }

  // The first longest run of zero words, if it has two words or more.
  datatype Run = Run(base: int, len: int)

  predicate ZeroRun(ws: seq<nat>, base: int, len: int) {
    0 <= base && 0 <= len && base + len <= |ws| && forall i :: base <= i < base + len ==> ws[i] == 0
  }

  ghost predicate IsBest(ws: seq<nat>, r: Run) {
    && (r.base == -1 ==> forall b: int, n: int :: ZeroRun(ws, b, n) ==> n < 2)
    && (r.base != -1 ==> ZeroRun(ws, r.base, r.len) && r.len >= 2)
    && (r.base != -1 ==> forall b: int, n: int :: ZeroRun(ws, b, n) ==> n < r.len || (n == r.len && b >= r.base))
  }

  // Whether the last two words are written as an IPv4 address.
  predicate Embedded(ws: seq<nat>, r: Run)
    requires |ws| == 8
  {
    r.base == 0 && (r.len == 6 || (r.len == 5 && ws[5] == 0xFFFF))
  }

  function Bytes4(ws: seq<nat>): seq<nat>
    requires |ws| == 8
  {
    Word(ws[6]) + Word(ws[7])
  }

  function Text6(ws: seq<nat>, r: Run): seq<nat>
    requires |ws| == 8 && (r.base == -1 || ZeroRun(ws, r.base, r.len))
  {
    if r.base == -1 then Joined(ws)
    else if Embedded(ws, r) then [COLON, COLON] + Head(ws[r.len..6]) + Text4(Bytes4(ws))
    else (if r.base == 0 then [COLON] else []) + Head(ws[..r.base]) + [COLON] + Joined(ws[r.base + r.len..])
  }

  function Flat(ws: seq<nat>): seq<nat> {
    if ws == [] then [] else Flat(ws[..|ws| - 1]) + Word(ws[|ws| - 1])
  }

  predicate Words(ws: seq<nat>) { forall i :: 0 <= i < |ws| ==> ws[i] < 0x1_0000 }

  // ---------- which texts are addresses ----------

  // One to four hexadecimal digits of either case, and their value.
  predicate IsGroup(g: seq<nat>) { 1 <= |g| <= 4 && forall i :: 0 <= i < |g| ==> HexVal(g[i]) >= 0 }

  function Value(g: seq<nat>): nat {
    if g == [] then 0 else Value(g[..|g| - 1]) * 16 + if HexVal(g[|g| - 1]) < 0 then 0 else HexVal(g[|g| - 1])
  }

  predicate Groups(gs: seq<seq<nat>>) { forall i :: 0 <= i < |gs| ==> IsGroup(gs[i]) }

  // The bytes the groups stand for.
  function Values(gs: seq<seq<nat>>): seq<nat> {
    if gs == [] then [] else Values(gs[..|gs| - 1]) + Word(Value(gs[|gs| - 1]))
  }

  // Each group followed by a colon.
  function Led(gs: seq<seq<nat>>): seq<nat> {
    if gs == [] then [] else Led(gs[..|gs| - 1]) + (gs[|gs| - 1] + [COLON])
  }

  // Groups, and the octets of an IPv4 address if there are any, with colons between.
  function List(gs: seq<seq<nat>>, octets: seq<nat>): seq<nat>
    requires octets == [] || |octets| == 4
  {
    if octets != [] then Led(gs) + Text4(octets)
    else if gs == [] then []
    else Led(gs[..|gs| - 1]) + gs[|gs| - 1]
  }

  // Section 2.2 of RFC 4291: groups and perhaps octets of 16 bytes in all, or fewer of
  // them with one "::" for zeros that are missing.
  datatype Address = Address(front: seq<seq<nat>>, gap: bool, rear: seq<seq<nat>>, octets: seq<nat>)

  function Size(a: Address): nat { 2 * |a.front| + 2 * |a.rear| + |a.octets| }

  predicate Legal(a: Address) {
    && Groups(a.front) && Groups(a.rear) && Bytes(a.octets) && (a.octets == [] || |a.octets| == 4)
    && if a.gap then Size(a) <= 14 else a.rear == [] && Size(a) == 16
  }

  function AddressText(a: Address): seq<nat>
    requires Legal(a)
  {
    if a.gap then List(a.front, []) + [COLON, COLON] + List(a.rear, a.octets) else List(a.front, a.octets)
  }

  function AddressBytes(a: Address): seq<nat>
    requires Legal(a)
  {
    Values(a.front) + Zeros(16 - Size(a)) + (Values(a.rear) + a.octets)
  }

  // ---------- reading what was written ----------

  predicate Gives(p: Parsed, out: seq<nat>, colon: int) { p.Good? && p.out == out && p.colon == colon }

  // src has t at i.
  predicate Has(src: seq<nat>, i: nat, t: seq<nat>) { i + |t| <= |src| && src[i..i + |t|] == t }

  lemma HasOne(src: seq<nat>, i: nat, c: nat)
    requires Has(src, i, [c])
    ensures src[i] == c
  {
    assert src[i..i + 1][0] == [c][0];
  }

  lemma HasSplit(src: seq<nat>, i: nat, a: seq<nat>, b: seq<nat>)
    requires Has(src, i, a + b)
    ensures Has(src, i, a) && Has(src, i + |a|, b)
  {
    var t := src[i..i + |a + b|];
    assert src[i..i + |a|] == t[..|a|] && src[i + |a|..i + |a| + |b|] == t[|a|..];
  }

  lemma {:induction false} ReadDec(src: seq<nat>, i: nat, n: nat, tmp: seq<nat>, o: nat)
    requires n < 256 && o < 4 && Has(src, i, Dec(n))
    ensures Scan4(src, i, tmp + [0], false, o) == Scan4(src, i + |Dec(n)|, tmp + [n], true, o + 1)
  {
    if n < 10 {
      HasOne(src, i, 48 + n);
      assert (tmp + [0])[..|tmp|] == tmp;
    } else {
      HasSplit(src, i, Dec(n / 10), [48 + n % 10]);
      ReadDec(src, i, n / 10, tmp, o);
      var j := i + |Dec(n / 10)|;
      HasOne(src, j, 48 + n % 10);
      assert (tmp + [n / 10])[..|tmp|] == tmp;
    }
  }

  lemma ReadDecDot(src: seq<nat>, i: nat, n: nat, tmp: seq<nat>, o: nat)
    requires n < 256 && o < 3 && Has(src, i, Dec(n) + [DOT])
    ensures Scan4(src, i, tmp + [0], false, o) == Scan4(src, i + |Dec(n)| + 1, tmp + [n] + [0], false, o + 1)
  {
    HasSplit(src, i, Dec(n), [DOT]);
    ReadDec(src, i, n, tmp, o);
    HasOne(src, i + |Dec(n)|, DOT);
  }

  // One more octet with its full stop.
  lemma DottedStep(src: seq<nat>, i: nat, x: seq<nat>, b: nat, before: seq<nat>, a: seq<nat>)
    requires b < 256 && |a| <= 3 && a == before + [b] && Has(src, i, x + (Dec(b) + [DOT]))
    ensures Has(src, i, x)
    ensures Scan4(src, i + |x|, before + [0], false, |before|)
      == Scan4(src, i + |x + (Dec(b) + [DOT])|, a + [0], false, |a|)
  {
    HasSplit(src, i, x, Dec(b) + [DOT]);
    ReadDecDot(src, i + |x|, b, before, |before|);
  }

  lemma {:induction false} ReadDotted(src: seq<nat>, i: nat, a: seq<nat>)
    requires Bytes(a) && |a| <= 3 && Has(src, i, Dotted(a))
    ensures Scan4(src, i, [0], false, 0) == Scan4(src, i + |Dotted(a)|, a + [0], false, |a|)
  {
    if a == [] {
      assert [] + [0] == [0];
    } else {
      var b, before := a[|a| - 1], a[..|a| - 1];
      assert a == before + [b];
      DottedStep(src, i, Dotted(before), b, before, a);
      ReadDotted(src, i, before);
    }
  }

  // inet_pton4 reads what inet_ntop4 writes.
  lemma RoundTrip4(a: seq<nat>)
    requires |a| == 4 && Bytes(a)
    ensures var r := Parse4(Text4(a)); r.Good? && r.out == a
  {
    var t := Text4(a);
    assert Has(t, 0, t);
    HasSplit(t, 0, Dotted(a[..3]), Dec(a[3]));
    ReadDotted(t, 0, a[..3]);
    ReadDec(t, |Dotted(a[..3])|, a[3], a[..3], 3);
    assert a[..3] + [a[3]] == a;
  }

  // tmp holds octets that are done and the one, n, whose digits are being read, in
  // what stands before character i.
  ghost predicate Reading4(src: seq<nat>, i: nat, done: seq<nat>, n: nat, saw: bool) {
    i <= |src| && Bytes(done) && n < 256 && src[..i] == Dotted(done) + (if saw then Dec(n) else [])
    && if saw then |done| < 4 else n == 0 && |done| < 4
  }

  lemma Read4Digit(src: seq<nat>, i: nat, done: seq<nat>, n: nat, saw: bool)
    requires Reading4(src, i, done, n, saw) && i < |src| && DecVal(src[i]) >= 0 && !(saw && n == 0)
      && n * 10 + DecVal(src[i]) < 256
    ensures Reading4(src, i + 1, done, n * 10 + DecVal(src[i]), true)
  {
    var v := DecVal(src[i]);
    assert src[..i + 1] == src[..i] + [src[i]];
    if saw {
      assert Dec(n * 10 + v) == Dec(n) + [48 + v];
      Assoc(Dotted(done), Dec(n), [48 + v]);
    } else {
      assert Dotted(done) + [] == Dotted(done);
    }
  }

  lemma Read4Dot(src: seq<nat>, i: nat, done: seq<nat>, n: nat)
    requires Reading4(src, i, done, n, true) && i < |src| && src[i] == DOT && |done| < 3
    ensures Reading4(src, i + 1, done + [n], 0, false)
  {
    assert (done + [n])[..|done|] == done;
    assert src[..i + 1] == src[..i] + [DOT];
    Assoc(Dotted(done), Dec(n), [DOT]);
    assert Dotted(done + [n]) + [] == Dotted(done + [n]);
  }

  ghost predicate Writes4(a: seq<nat>, src: seq<nat>) { |a| == 4 && Bytes(a) && src == Text4(a) }

  // Scan4 while reading.
  function ScanOctets(src: seq<nat>, i: nat, done: seq<nat>, n: nat, saw: bool): Parsed
    requires i <= |src|
  {
    Scan4(src, i, done + [n], saw, if saw then |done| + 1 else |done|)
  }

  lemma ScanDigit(src: seq<nat>, i: nat, done: seq<nat>, n: nat, saw: bool)
    requires i < |src| && DecVal(src[i]) >= 0
    ensures var m := n * 10 + DecVal(src[i]);
      ScanOctets(src, i, done, n, saw)
      == if (saw && n == 0) || m > 255 || (!saw && |done| > 3) then Bad else ScanOctets(src, i + 1, done, m, true)
  {
    assert (done + [n])[..|done|] == done;
  }

  lemma ScanDot(src: seq<nat>, i: nat, done: seq<nat>, n: nat, saw: bool)
    requires i < |src| && DecVal(src[i]) < 0
    ensures ScanOctets(src, i, done, n, saw)
      == if src[i] == DOT && saw && |done| != 3 then ScanOctets(src, i + 1, done + [n], 0, false) else Bad
  {
  }

  lemma ScanEnd(src: seq<nat>, done: seq<nat>, n: nat, saw: bool)
    requires Reading4(src, |src|, done, n, saw)
    ensures var r := ScanOctets(src, |src|, done, n, saw); r.Good? ==> Writes4(r.out, src)
  {
    assert src[..|src|] == src && (done + [n])[..|done|] == done;
  }

  lemma {:induction false} Spells4(src: seq<nat>, i: nat, done: seq<nat>, n: nat, saw: bool)
    requires Reading4(src, i, done, n, saw)
    ensures var r := ScanOctets(src, i, done, n, saw); r.Good? ==> Writes4(r.out, src)
    decreases |src| - i
  {
    if i == |src| {
      ScanEnd(src, done, n, saw);
    } else {
      var v := DecVal(src[i]);
      if v >= 0 {
        ScanDigit(src, i, done, n, saw);
        if !(saw && n == 0) && n * 10 + v < 256 {
          Read4Digit(src, i, done, n, saw);
          Spells4(src, i + 1, done, n * 10 + v, true);
        }
      } else {
        ScanDot(src, i, done, n, saw);
        if src[i] == DOT && saw && |done| < 3 {
          Read4Dot(src, i, done, n);
          Spells4(src, i + 1, done + [n], 0, false);
        }
      }
    }
  }

  // inet_pton4 accepts exactly what inet_ntop4 writes.
  lemma Accepts4(src: seq<nat>)
    ensures Parse4(src).Good? <==> exists a :: Writes4(a, src)
    ensures Parse4(src).Good? ==> Writes4(Parse4(src).out, src)
  {
    assert Dotted([]) + [] == [] && [] + [0] == [0];
    Spells4(src, 0, [], 0, false);
    if Parse4(src).Good? { assert Writes4(Parse4(src).out, src); }
    if a :| Writes4(a, src) { RoundTrip4(a); }
  }

  function Pow16(k: nat): nat { if k == 0 then 1 else 16 * Pow16(k - 1) }

  lemma ReadDigit(src: seq<nat>, j: nat, out: seq<nat>, colon: int, seen: nat, val: nat, tok: nat)
    requires tok <= j < |src| && seen < 4 && HexVal(src[j]) >= 0
    ensures Scan6(src, j, out, colon, seen, val, tok)
      == Scan6(src, j + 1, out, colon, seen + 1, val * 16 + HexVal(src[j]), tok)
  {
  }

  lemma {:induction false} ReadDigits(src: seq<nat>, i: nat, g: seq<nat>, out: seq<nat>, colon: int, tok: nat)
    requires tok <= i && (g == [] || IsGroup(g)) && Has(src, i, g)
    ensures Scan6(src, i, out, colon, 0, 0, tok) == Scan6(src, i + |g|, out, colon, |g|, Value(g), tok)
    decreases |g|
  {
    if g != [] {
      var n, before := |g| - 1, g[..|g| - 1];
      assert src[i..i + n] == src[i..i + |g|][..n] && src[i + n] == src[i..i + |g|][n];
      ReadDigits(src, i, before, out, colon, tok);
      ReadDigit(src, i + n, out, colon, n, Value(before), tok);
    }
  }

  // A group and its colon, with more to follow.
  lemma ReadGroup(src: seq<nat>, i: nat, g: seq<nat>, out: seq<nat>, colon: int)
    requires IsGroup(g) && |out| + 2 <= 16 && Has(src, i, g + [COLON]) && i + |g| + 1 < |src|
    ensures var j := i + |g| + 1;
      Scan6(src, i, out, colon, 0, 0, i) == Scan6(src, j, out + Word(Value(g)), colon, 0, 0, j)
  {
    HasSplit(src, i, g, [COLON]);
    ReadDigits(src, i, g, out, colon, i);
    HasOne(src, i + |g|, COLON);
  }

  lemma Assoc(a: seq<nat>, b: seq<nat>, c: seq<nat>)
    ensures a + b + c == a + (b + c)
  {
  }

  lemma {:induction false} ValuesLength(gs: seq<seq<nat>>)
    ensures |Values(gs)| == 2 * |gs|
  {
    if gs != [] { ValuesLength(gs[..|gs| - 1]); }
  }

  lemma ValuesLast(out: seq<nat>, gs: seq<seq<nat>>)
    requires gs != []
    ensures out + Values(gs[..|gs| - 1]) + Word(Value(gs[|gs| - 1])) == out + Values(gs)
  {
    Assoc(out, Values(gs[..|gs| - 1]), Word(Value(gs[|gs| - 1])));
  }

  lemma LedStep(src: seq<nat>, i: nat, x: seq<nat>, g: seq<nat>, out: seq<nat>, colon: int)
    requires IsGroup(g) && |out| + 2 <= 16 && Has(src, i, x + (g + [COLON])) && i + |x| + |g| + 1 < |src|
    ensures Has(src, i, x)
    ensures var k, j := i + |x|, i + |x| + |g| + 1;
      Scan6(src, k, out, colon, 0, 0, k) == Scan6(src, j, out + Word(Value(g)), colon, 0, 0, j)
  {
    HasSplit(src, i, x, g + [COLON]);
    ReadGroup(src, i + |x|, g, out, colon);
  }

  lemma {:induction false} ReadLed(src: seq<nat>, i: nat, gs: seq<seq<nat>>, out: seq<nat>, colon: int)
    requires Groups(gs) && |out| + 2 * |gs| <= 16 && Has(src, i, Led(gs)) && i + |Led(gs)| < |src|
    ensures var j := i + |Led(gs)|;
      Scan6(src, i, out, colon, 0, 0, i) == Scan6(src, j, out + Values(gs), colon, 0, 0, j)
  {
    if gs == [] {
      assert out + [] == out;
    } else {
      var before, g := gs[..|gs| - 1], gs[|gs| - 1];
      ValuesLength(before);
      LedStep(src, i, Led(before), g, out + Values(before), colon);
      ReadLed(src, i, before, out, colon);
      ValuesLast(out, gs);
    }
  }

  // The last group of the text.
  lemma ReadLast(src: seq<nat>, i: nat, g: seq<nat>, out: seq<nat>, colon: int)
    requires IsGroup(g) && |out| + 2 <= 16 && Has(src, i, g) && i + |g| == |src|
    ensures Gives(Scan6(src, i, out, colon, 0, 0, i), out + Word(Value(g)), colon)
  {
    ReadDigits(src, i, g, out, colon, i);
  }

  lemma ReadBoth(src: seq<nat>, i: nat, j: nat, gs: seq<seq<nat>>, g: seq<nat>, out: seq<nat>, colon: int)
    requires Groups(gs) && IsGroup(g) && |out| + 2 * |gs| + 2 <= 16 && |Values(gs)| == 2 * |gs|
    requires Has(src, i, Led(gs)) && j == i + |Led(gs)| < |src| && Has(src, j, g) && j + |g| == |src|
    ensures Gives(Scan6(src, i, out, colon, 0, 0, i), out + Values(gs) + Word(Value(g)), colon)
  {
    ReadLed(src, i, gs, out, colon);
    ReadLast(src, j, g, out + Values(gs), colon);
  }

  lemma ReadMore(src: seq<nat>, i: nat, gs: seq<seq<nat>>, g: seq<nat>, out: seq<nat>, colon: int)
    requires Groups(gs) && IsGroup(g) && |out| + 2 * |gs| + 2 <= 16 && Has(src, i, Led(gs) + g)
      && i + |Led(gs)| + |g| == |src|
    ensures Gives(Scan6(src, i, out, colon, 0, 0, i), out + Values(gs) + Word(Value(g)), colon)
  {
    HasSplit(src, i, Led(gs), g);
    ValuesLength(gs);
    ReadBoth(src, i, i + |Led(gs)|, gs, g, out, colon);
  }

  // The first octet of an embedded address, read as a hexadecimal group.
  lemma {:induction false} ReadDecAsHex(src: seq<nat>, i: nat, n: nat, out: seq<nat>, colon: int, tok: nat)
      returns (v: nat)
    requires tok <= i && n < 1000 && Has(src, i, Dec(n))
    ensures |Dec(n)| <= if n < 10 then 1 else if n < 100 then 2 else 3
    ensures Scan6(src, i, out, colon, 0, 0, tok) == Scan6(src, i + |Dec(n)|, out, colon, |Dec(n)|, v, tok)
  {
    if n < 10 {
      HasOne(src, i, 48 + n);
      ReadDigit(src, i, out, colon, 0, 0, tok);
      v := n;
    } else {
      HasSplit(src, i, Dec(n / 10), [48 + n % 10]);
      var u := ReadDecAsHex(src, i, n / 10, out, colon, tok);
      var j := i + |Dec(n / 10)|;
      HasOne(src, j, 48 + n % 10);
      ReadDigit(src, j, out, colon, |Dec(n / 10)|, u, tok);
      v := u * 16 + n % 10;
    }
  }

  lemma FirstOctet(a: seq<nat>) returns (rest: seq<nat>)
    requires |a| == 4
    ensures Text4(a) == Dec(a[0]) + rest && |rest| > 0 && rest[0] == DOT
  {
    var x, b, c := [a[0]], a[..2], a[..3];
    assert x[..0] == [] && b[..1] == x && c[..2] == b;
    assert Dotted(x) == [] + (Dec(a[0]) + [DOT]);
    assert Dotted(b) == Dotted(x) + (Dec(a[1]) + [DOT]);
    assert Dotted(c) == Dotted(b) + (Dec(a[2]) + [DOT]);
    rest := [DOT] + (Dec(a[1]) + [DOT]) + (Dec(a[2]) + [DOT]) + Dec(a[3]);
  }

  // An IPv4 address up to the end of the text.
  lemma ReadEmbedded(src: seq<nat>, i: nat, a: seq<nat>, out: seq<nat>, colon: int)
    requires |a| == 4 && Bytes(a) && |out| + 4 <= 16 && Has(src, i, Text4(a)) && i + |Text4(a)| == |src|
    ensures Gives(Scan6(src, i, out, colon, 0, 0, i), out + a, colon)
  {
    var rest := FirstOctet(a);
    HasSplit(src, i, Dec(a[0]), rest);
    var v := ReadDecAsHex(src, i, a[0], out, colon, i);
    var j := i + |Dec(a[0])|;
    assert src[j] == src[j..j + |rest|][0] == DOT;
    assert src[i..] == Text4(a);
    RoundTrip4(a);
  }

  lemma ReadOctets(src: seq<nat>, i: nat, gs: seq<seq<nat>>, octets: seq<nat>, out: seq<nat>, colon: int)
    requires Groups(gs) && Bytes(octets) && |octets| == 4 && |out| + 2 * |gs| + 4 <= 16
    requires Has(src, i, Led(gs) + Text4(octets)) && i + |Led(gs)| + |Text4(octets)| == |src|
    ensures Gives(Scan6(src, i, out, colon, 0, 0, i), out + (Values(gs) + octets), colon)
  {
    HasSplit(src, i, Led(gs), Text4(octets));
    ReadLed(src, i, gs, out, colon);
    ValuesLength(gs);
    ReadEmbedded(src, i + |Led(gs)|, octets, out + Values(gs), colon);
    Assoc(out, Values(gs), octets);
  }

  // Groups, and octets if there are any, up to the end of the text.
  lemma ReadList(src: seq<nat>, i: nat, gs: seq<seq<nat>>, octets: seq<nat>, out: seq<nat>, colon: int)
    requires Groups(gs) && Bytes(octets) && (octets == [] || |octets| == 4) && |out| + 2 * |gs| + |octets| <= 16
    requires Has(src, i, List(gs, octets)) && i + |List(gs, octets)| == |src|
    ensures Gives(Scan6(src, i, out, colon, 0, 0, i), out + (Values(gs) + octets), colon)
  {
    Plain(Values(gs));
    if octets != [] {
      ReadOctets(src, i, gs, octets, out, colon);
    } else if gs == [] {
      Plain(out);
    } else {
      ReadMore(src, i, gs[..|gs| - 1], gs[|gs| - 1], out, colon);
      ValuesLast(out, gs);
    }
  }

  lemma Plain(s: seq<nat>)
    ensures s + [] == s && [] + s == s
  {
  }

  // The second colon of "::".
  lemma ReadColon(t: seq<nat>, i: nat, out: seq<nat>)
    requires i < |t| && t[i] == COLON
    ensures Scan6(t, i, out, -1, 0, 0, i) == Scan6(t, i + 1, out, |out|, 0, 0, i + 1)
  {
  }

  lemma {:induction false} LedStart(gs: seq<seq<nat>>)
    requires Groups(gs) && gs != []
    ensures |Led(gs)| > 0 && Led(gs)[0] != COLON
  {
    var n := |gs| - 1;
    assert IsGroup(gs[n]);
    if n > 0 { LedStart(gs[..n]); }
  }

  // The groups before "::", its first colon included, stand at the start.
  lemma FrontText(front: seq<seq<nat>>, c: seq<nat>)
    requires front != []
    ensures List(front, []) + [COLON, COLON] + c == Led(front) + ([COLON] + c)
  {
    var n := |front| - 1;
    var x, g := Led(front[..n]), front[n];
    assert x + g + [COLON, COLON] + c == x + (g + [COLON]) + ([COLON] + c);
  }

  lemma Parts(t: seq<nat>, h: seq<nat>, c: seq<nat>)
    requires h != [] && t == h + ([COLON] + c)
    ensures Has(t, 0, h) && Has(t, |h| + 1, c) && |t| == |h| + 1 + |c| && t[|h|] == COLON && t[0] == h[0]
  {
    assert t[..|h|] == h && t[|h| + 1..] == c && t[|h| + 1..|h| + 1 + |c|] == t[|h| + 1..];
  }

  lemma ExpandParts(p: Parsed, a: seq<nat>, n: nat, b: seq<nat>)
    requires Gives(p, a + b, |a|) && |a| + n + |b| == 16 && n > 0
    ensures Gives(Expand(p), a + Zeros(n) + b, -1)
  {
    assert p.out[..|a|] == a && p.out[|a|..] == b;
  }

  lemma TwoColonsLead(t: seq<nat>, l: seq<nat>)
    requires t == [] + [COLON, COLON] + l
    ensures Has(t, 0, t) && Has(t, 2, l) && |t| == 2 + |l| && t[0] == COLON && t[1] == COLON
  {
    assert t == [COLON, COLON] + l;
    HasSplit(t, 0, [COLON, COLON], l);
  }

  lemma ScanLeadingGap(t: seq<nat>, rear: seq<seq<nat>>, octets: seq<nat>)
    requires Groups(rear) && Bytes(octets) && (octets == [] || |octets| == 4) && 2 * |rear| + |octets| <= 16
    requires t == [] + [COLON, COLON] + List(rear, octets)
    ensures |t| > 1 && t[0] == COLON && t[1] == COLON
      && Gives(Scan6(t, 1, [], -1, 0, 0, 1), [] + (Values(rear) + octets), 0)
  {
    TwoColonsLead(t, List(rear, octets));
    ReadColon(t, 1, []);
    ReadList(t, 2, rear, octets, [], 0);
  }

  lemma GapBytes(a: Address, p: Parsed)
    requires Legal(a) && a.gap && Gives(p, Values(a.front) + (Values(a.rear) + a.octets), |Values(a.front)|)
    ensures Gives(Expand(p), AddressBytes(a), -1)
  {
    ValuesLength(a.front);
    ValuesLength(a.rear);
    ExpandParts(p, Values(a.front), 16 - Size(a), Values(a.rear) + a.octets);
  }

  lemma ReadLeadingGap(a: Address)
    requires Legal(a) && a.gap && a.front == []
    ensures Gives(Parse6(AddressText(a)), AddressBytes(a), -1)
  {
    var t := AddressText(a);
    ScanLeadingGap(t, a.rear, a.octets);
    GapBytes(a, Scan6(t, 1, [], -1, 0, 0, 1));
  }

  // From the start to the second colon of "::", and on from there.
  lemma LedFromStart(t: seq<nat>, front: seq<seq<nat>>, n: nat)
    requires Groups(front) && |front| <= 8 && n == |Led(front)| < |t| && Has(t, 0, Led(front))
    ensures Scan6(t, 0, [], -1, 0, 0, 0) == Scan6(t, n, Values(front), -1, 0, 0, n)
  {
    ReadLed(t, 0, front, [], -1);
    Plain(Values(front));
  }

  lemma ReadFront(t: seq<nat>, front: seq<seq<nat>>, h: seq<nat>, l: seq<nat>)
    requires Groups(front) && front != [] && |front| <= 7 && h == Led(front) && t == h + ([COLON] + l)
    ensures |h| < |t| && t[|h|] == COLON && t[0] != COLON && Has(t, |h| + 1, l) && |t| == |h| + 1 + |l|
    ensures Scan6(t, 0, [], -1, 0, 0, 0) == Scan6(t, |h|, Values(front), -1, 0, 0, |h|)
      && |Values(front)| == 2 * |front|
  {
    LedStart(front);
    Parts(t, h, l);
    LedFromStart(t, front, |h|);
    ValuesLength(front);
  }

  lemma ReadRear(t: seq<nat>, j: nat, out: seq<nat>, rear: seq<seq<nat>>, octets: seq<nat>, l: seq<nat>)
    requires Groups(rear) && Bytes(octets) && (octets == [] || |octets| == 4) && |out| + 2 * |rear| + |octets| <= 16
    requires j < |t| && t[j] == COLON && l == List(rear, octets) && Has(t, j + 1, l) && |t| == j + 1 + |l|
    ensures Gives(Scan6(t, j, out, -1, 0, 0, j), out + (Values(rear) + octets), |out|)
  {
    ReadColon(t, j, out);
    ReadList(t, j + 1, rear, octets, out, |out|);
  }

  lemma ReadGap(a: Address)
    requires Legal(a) && a.gap && a.front != []
    ensures Gives(Parse6(AddressText(a)), AddressBytes(a), -1)
  {
    var t, l, h := AddressText(a), List(a.rear, a.octets), Led(a.front);
    FrontText(a.front, l);
    ReadFront(t, a.front, h, l);
    ReadRear(t, |h|, Values(a.front), a.rear, a.octets, l);
    GapBytes(a, Scan6(t, 0, [], -1, 0, 0, 0));
  }

  lemma ListStart(gs: seq<seq<nat>>, octets: seq<nat>)
    requires Groups(gs) && gs != [] && (octets == [] || |octets| == 4)
    ensures |List(gs, octets)| > 0 && List(gs, octets)[0] != COLON
  {
    var n := |gs| - 1;
    assert IsGroup(gs[n]);
    if octets != [] { LedStart(gs); } else if n > 0 { LedStart(gs[..n]); }
  }

  lemma ReadWhole(a: Address)
    requires Legal(a) && !a.gap
    ensures Gives(Parse6(AddressText(a)), AddressBytes(a), -1)
  {
    var t := AddressText(a);
    ListStart(a.front, a.octets);
    assert Has(t, 0, t);
    ReadList(t, 0, a.front, a.octets, [], -1);
    ValuesLength(a.front);
    assert [] + (Values(a.front) + a.octets) == Values(a.front) + Zeros(0) + ([] + a.octets);
  }

  // inet_pton6 reads the text of every address.
  lemma ReadsAddress(a: Address)
    requires Legal(a)
    ensures Gives(Parse6(AddressText(a)), AddressBytes(a), -1)
  {
    if !a.gap { ReadWhole(a); } else if a.front == [] { ReadLeadingGap(a); } else { ReadGap(a); }
  }

  // ---------- nothing else is read ----------

  // What has been read before character i: groups that are done, "::" if it was there,
  // and the digits of one more group.
  datatype Shape = Shape(front: seq<seq<nat>>, gap: bool, rear: seq<seq<nat>>, digits: seq<nat>)

  // What stands before the digits.
  function Lead(p: Shape): seq<nat> { if p.gap then GapLead(p.front) + Led(p.rear) else Led(p.front) }

  // The groups before "::", and both colons.
  function GapLead(front: seq<seq<nat>>): seq<nat> { (if front == [] then [COLON] else Led(front)) + [COLON] }

  function ShapeOut(p: Shape): seq<nat> { Values(p.front) + Values(p.rear) }

  ghost predicate Reading6(src: seq<nat>, i: nat, p: Shape) {
    && i <= |src| && src[..i] == Lead(p) + p.digits && Groups(p.front) && Groups(p.rear)
      && (p.digits == [] || IsGroup(p.digits))
    && (p.gap || (p.rear == [] && (p.front == [] && p.digits == [] ==> i == 0 && (|src| > 0 ==> src[0] != COLON))))
    && (p.digits == [] && i == |src| ==> p.rear == [] && (p.gap || p.front == []))
  }

  function ScanShape(src: seq<nat>, i: nat, p: Shape): Parsed
    requires |p.digits| <= i <= |src|
  {
    Scan6(src, i, ShapeOut(p), if p.gap then 2 * |p.front| else -1, |p.digits|, Value(p.digits), i - |p.digits|)
  }

  // The address that has been read at the end of the text, with the octets there.
  function ShapeAddress(p: Shape, octets: seq<nat>): Address {
    if p.digits == [] then Address(p.front, p.gap, p.rear, octets)
    else if p.gap then Address(p.front, true, p.rear + [p.digits], octets)
    else Address(p.front + [p.digits], false, [], octets)
  }

  lemma TextLength(src: seq<nat>, i: nat, p: Shape)
    requires Reading6(src, i, p)
    ensures |p.digits| <= i && src[i - |p.digits|..i] == p.digits && |ShapeOut(p)| == 2 * |p.front| + 2 * |p.rear|
  {
    ValuesLength(p.front);
    ValuesLength(p.rear);
    assert |src[..i]| == i;
    assert src[i - |p.digits|..i] == src[..i][i - |p.digits|..];
  }

  lemma DigitScan(src: seq<nat>, i: nat, p: Shape, q: Shape)
    requires |p.digits| <= i < |src| && HexVal(src[i]) >= 0 && |p.digits| < 4 && q == p.(digits := p.digits + [src[i]])
    ensures ScanShape(src, i, p) == ScanShape(src, i + 1, q)
  {
    assert q.digits[..|p.digits|] == p.digits;
    ReadDigit(src, i, ShapeOut(p), if p.gap then 2 * |p.front| else -1, |p.digits|, Value(p.digits), i - |p.digits|);
  }

  lemma SliceMore(s: seq<nat>, lo: nat, i: nat)
    requires lo <= i < |s|
    ensures s[lo..i + 1] == s[lo..i] + [s[i]]
  {
  }

  lemma DigitStep(src: seq<nat>, i: nat, p: Shape)
    requires Reading6(src, i, p) && i < |src| && HexVal(src[i]) >= 0 && |p.digits| < 4
    ensures var q := p.(digits := p.digits + [src[i]]); Reading6(src, i + 1, q)
  {
    SliceMore(src, 0, i);
    Assoc(Lead(p), p.digits, [src[i]]);
  }

  lemma GapStep(src: seq<nat>, i: nat, p: Shape)
    requires Reading6(src, i, p) && i < |src| && src[i] == COLON && p.digits == [] && !p.gap
    ensures var q := p.(gap := true); Reading6(src, i + 1, q) && ScanShape(src, i, p) == ScanShape(src, i + 1, q)
  {
    TextLength(src, i, p);
    assert src[..i + 1] == src[..i] + [src[i]] && Lead(p) + [] == Lead(p);
    assert GapLead(p.front) + [] + [] == Lead(p) + [COLON];
  }

  // A group that is done joins those before "::" or those after it.
  function Closed(p: Shape): Shape {
    if p.gap then Shape(p.front, true, p.rear + [p.digits], []) else Shape(p.front + [p.digits], false, [], [])
  }

  lemma OneMore(gs: seq<seq<nat>>, g: seq<nat>)
    ensures Led(gs + [g]) == Led(gs) + (g + [COLON]) && List(gs + [g], []) == Led(gs) + g
    ensures Values(gs + [g]) == Values(gs) + Word(Value(g))
    ensures Groups(gs) && IsGroup(g) ==> Groups(gs + [g])
  {
    assert (gs + [g])[..|gs|] == gs;
  }

  lemma ClosedOut(p: Shape)
    requires p.gap || p.rear == []
    ensures ShapeOut(Closed(p)) == ShapeOut(p) + Word(Value(p.digits))
  {
    var w := Word(Value(p.digits));
    if p.gap {
      OneMore(p.rear, p.digits);
      Assoc(Values(p.front), Values(p.rear), w);
    } else {
      OneMore(p.front, p.digits);
      assert Values(p.front) + [] == Values(p.front)
        && Values(p.front + [p.digits]) + [] == Values(p.front + [p.digits]);
    }
  }

  lemma ClosedLead(p: Shape)
    ensures Lead(Closed(p)) == Lead(p) + p.digits + [COLON]
  {
    if p.gap {
      OneMore(p.rear, p.digits);
      Assoc(GapLead(p.front), Led(p.rear), p.digits + [COLON]);
    } else {
      OneMore(p.front, p.digits);
    }
    Assoc(Lead(p), p.digits, [COLON]);
  }

  lemma ClosedText(src: seq<nat>, i: nat, p: Shape)
    requires i < |src| && src[..i] == Lead(p) + p.digits && src[i] == COLON
    ensures src[..i + 1] == Lead(Closed(p)) + []
  {
    ClosedLead(p);
    SliceMore(src, 0, i);
    Plain(Lead(Closed(p)));
  }

  lemma ClosedReading(src: seq<nat>, i: nat, p: Shape)
    requires Reading6(src, i, p) && i + 1 < |src| && src[i] == COLON && p.digits != []
    ensures Reading6(src, i + 1, Closed(p))
  {
    ClosedText(src, i, p);
    GroupsMore(p.front, p.digits);
    GroupsMore(p.rear, p.digits);
  }

  lemma GroupStep(src: seq<nat>, i: nat, p: Shape)
    requires Reading6(src, i, p) && i + 1 < |src| && src[i] == COLON && p.digits != [] && |ShapeOut(p)| <= 14
    ensures |p.digits| <= i && ScanShape(src, i, p) == ScanShape(src, i + 1, Closed(p))
  {
    TextLength(src, i, p);
    ClosedOut(p);
  }

  ghost predicate IsTextOf(a: Address, src: seq<nat>) { Legal(a) && src == AddressText(a) }

  lemma GapText(front: seq<seq<nat>>, l: seq<nat>)
    ensures List(front, []) + [COLON, COLON] + l == GapLead(front) + l
  {
    if front == [] {
      assert [] + [COLON, COLON] == [COLON] + [COLON];
    } else {
      FrontText(front, l);
      Assoc(Led(front), [COLON], l);
    }
  }

  lemma AddressLead(p: Shape, octets: seq<nat>)
    requires (octets == [] || |octets| == 4) && (p.gap || p.rear == [])
    requires Legal(Address(p.front, p.gap, p.rear, octets))
    requires octets != [] || (p.gap && p.rear == [])
    ensures AddressText(Address(p.front, p.gap, p.rear, octets)) == Lead(p) + if octets == [] then [] else Text4(octets)
  {
    if p.gap {
      GapText(p.front, List(p.rear, octets));
      Assoc(GapLead(p.front), Led(p.rear), if octets == [] then [] else Text4(octets));
    }
  }

  lemma AddressGroup(p: Shape)
    requires p.digits != [] && (p.gap || p.rear == []) && Legal(ShapeAddress(p, []))
    ensures AddressText(ShapeAddress(p, [])) == Lead(p) + p.digits
  {
    if p.gap {
      OneMore(p.rear, p.digits);
      GapText(p.front, List(p.rear + [p.digits], []));
      Assoc(GapLead(p.front), Led(p.rear), p.digits);
    } else {
      OneMore(p.front, p.digits);
    }
  }

  lemma EndSize(src: seq<nat>, p: Shape)
    requires |p.digits| <= |src| && Expand(ScanShape(src, |src|, p)).Good?
    ensures var n := |ShapeOut(p)| + (if p.digits == [] then 0 else 2); if p.gap then n < 16 else n == 16
  {
  }

  lemma EndLegal(p: Shape)
    requires Groups(p.front) && Groups(p.rear) && (p.digits == [] || IsGroup(p.digits)) && (p.gap || p.rear == [])
    requires var n := 2 * |p.front| + 2 * |p.rear| + (if p.digits == [] then 0 else 2);
      if p.gap then n < 16 else n == 16
    ensures Legal(ShapeAddress(p, []))
  {
    if p.digits != [] {
      if p.gap { GroupsMore(p.rear, p.digits); } else { GroupsMore(p.front, p.digits); }
    }
  }

  lemma GroupsMore(gs: seq<seq<nat>>, g: seq<nat>)
    requires Groups(gs) && IsGroup(g)
    ensures Groups(gs + [g]) && |gs + [g]| == |gs| + 1
  {
  }

  // The end of the text.
  lemma EndStep(src: seq<nat>, p: Shape)
    requires src == Lead(p) + p.digits && (p.gap || p.rear == []) && Legal(ShapeAddress(p, []))
    requires p.digits == [] ==> p.rear == [] && p.gap
    ensures IsTextOf(ShapeAddress(p, []), src)
  {
    if p.digits != [] { AddressGroup(p); } else { AddressLead(p, []); }
  }

  lemma TailText(src: seq<nat>, i: nat, p: Shape)
    requires Reading6(src, i, p) && |p.digits| <= i
    ensures src == Lead(p) + src[i - |p.digits|..]
  {
    var tok := i - |p.digits|;
    assert src[..tok] == src[..i][..tok] == Lead(p);
    assert src == src[..tok] + src[tok..];
  }

  lemma TailOctets(tail: seq<nat>) returns (o: seq<nat>)
    requires Parse4(tail).Good?
    ensures o == Parse4(tail).out && Writes4(o, tail)
  {
    Accepts4(tail);
    o := Parse4(tail).out;
  }

  lemma DotScan(src: seq<nat>, i: nat, p: Shape)
    requires i < |src| && |p.digits| <= i && src[i] == DOT && Expand(ScanShape(src, i, p)).Good?
    requires |ShapeOut(p)| == 2 * |p.front| + 2 * |p.rear| && (p.gap || p.rear == [])
    ensures Parse4(src[i - |p.digits|..]).Good? && |ShapeOut(p)| <= 12
    ensures var n := |ShapeOut(p)| + |Parse4(src[i - |p.digits|..]).out|; if p.gap then n <= 15 else n == 16
  {
  }

  // An IPv4 address at the end of the text.
  lemma DotStep(src: seq<nat>, i: nat, p: Shape)
    requires Reading6(src, i, p) && i < |src| && |p.digits| <= i && src[i] == DOT && Expand(ScanShape(src, i, p)).Good?
    ensures exists a :: IsTextOf(a, src)
  {
    TextLength(src, i, p);
    TailText(src, i, p);
    DotScan(src, i, p);
    var o := TailOctets(src[i - |p.digits|..]);
    AddressLead(p, o);
    assert IsTextOf(Address(p.front, p.gap, p.rear, o), src);
  }

  lemma ColonStep(src: seq<nat>, i: nat, p: Shape) returns (q: Shape)
    requires Reading6(src, i, p) && i < |src| && |p.digits| <= i && src[i] == COLON
      && Expand(ScanShape(src, i, p)).Good?
    ensures Reading6(src, i + 1, q) && |q.digits| <= i + 1 && ScanShape(src, i, p) == ScanShape(src, i + 1, q)
  {
    if p.digits == [] {
      GapStep(src, i, p);
      q := p.(gap := true);
    } else {
      GroupStep(src, i, p);
      ClosedReading(src, i, p);
      q := Closed(p);
    }
  }

  lemma NextStep(src: seq<nat>, i: nat, p: Shape) returns (q: Shape)
    requires Reading6(src, i, p) && i < |src| && |p.digits| <= i && src[i] != DOT && Expand(ScanShape(src, i, p)).Good?
    ensures Reading6(src, i + 1, q) && |q.digits| <= i + 1 && ScanShape(src, i, p) == ScanShape(src, i + 1, q)
  {
    if HexVal(src[i]) >= 0 {
      q := p.(digits := p.digits + [src[i]]);
      DigitStep(src, i, p);
      DigitScan(src, i, p, q);
    } else {
      q := ColonStep(src, i, p);
    }
  }

  // Whatever the scan and the expansion of "::" accept is the text of an address.
  lemma {:induction false} Spells6(src: seq<nat>, i: nat, p: Shape)
    requires Reading6(src, i, p) && |p.digits| <= i && Expand(ScanShape(src, i, p)).Good?
    ensures exists a :: IsTextOf(a, src)
    decreases |src| - i
  {
    if i == |src| {
      TextLength(src, i, p);
      EndSize(src, p);
      EndLegal(p);
      assert src[..i] == src;
      EndStep(src, p);
    } else if src[i] == DOT {
      DotStep(src, i, p);
    } else {
      var q := NextStep(src, i, p);
      Spells6(src, i + 1, q);
    }
  }

  // inet_pton6 accepts exactly the texts of section 2.2 of RFC 4291, and reads them so.
  lemma Accepts6(src: seq<nat>)
    ensures Parse6(src).Good? <==> exists a :: IsTextOf(a, src)
    ensures forall a :: IsTextOf(a, src) ==> Gives(Parse6(src), AddressBytes(a), -1)
  {
    forall a | IsTextOf(a, src) ensures Gives(Parse6(src), AddressBytes(a), -1) { ReadsAddress(a); }
    if Parse6(src).Good? {
      var none := Shape([], false, [], []);
      assert Values([]) + Values([]) == [];
      if |src| > 0 && src[0] == COLON {
        ReadColon(src, 1, []);
        assert src[..2] == [COLON, COLON] == [COLON] + [COLON] + [] + [];
        Spells6(src, 2, none.(gap := true));
      } else {
        assert src[..0] == [] + [];
        Spells6(src, 0, none);
      }
    }
  }

  // ---------- what inet_ntop6 writes is such a text ----------

  // The groups inet_ntop6 writes for words.
  function Hexes(ws: seq<nat>): seq<seq<nat>> {
    if ws == [] then [] else Hexes(ws[..|ws| - 1]) + [Hex(ws[|ws| - 1])]
  }

  lemma {:induction false} HexGroup(n: nat, k: nat)
    requires 1 <= k <= 4 && n < Pow16(k)
    ensures |Hex(n)| <= k && IsGroup(Hex(n)) && Value(Hex(n)) == n
  {
    if n < 16 {
      assert Hex(n)[..0] == [] && HexVal(HexDigit(n)) == n;
    } else {
      HexGroup(n / 16, k - 1);
      assert Hex(n)[..|Hex(n / 16)|] == Hex(n / 16) && HexVal(HexDigit(n % 16)) == n % 16;
    }
  }

  lemma {:induction false} HexesAre(ws: seq<nat>)
    requires Words(ws)
    ensures var gs := Hexes(ws);
      |gs| == |ws| && Groups(gs) && Led(gs) == Head(ws) && Values(gs) == Flat(ws) && List(gs, []) == Joined(ws)
  {
    if ws != [] {
      var n := |ws| - 1;
      assert Pow16(4) == 0x1_0000;
      HexGroup(ws[n], 4);
      HexesAre(ws[..n]);
      assert Hexes(ws)[..n] == Hexes(ws[..n]);
    }
  }

  lemma {:induction false} FlatJoin(a: seq<nat>, b: seq<nat>)
    ensures Flat(a + b) == Flat(a) + Flat(b)
  {
    if b == [] {
      assert a + b == a;
    } else {
      assert (a + b)[..|a + b| - 1] == a + b[..|b| - 1];
      FlatJoin(a, b[..|b| - 1]);
    }
  }

  lemma {:induction false} FlatLength(ws: seq<nat>)
    ensures |Flat(ws)| == 2 * |ws|
  {
    if ws != [] { FlatLength(ws[..|ws| - 1]); }
  }

  lemma {:induction false} FlatZeros(n: nat)
    ensures Flat(Zeros(n)) == Zeros(2 * n)
  {
    if n > 0 {
      assert Zeros(n)[..n - 1] == Zeros(n - 1);
      FlatZeros(n - 1);
      assert Word(0) == [0, 0];
    }
  }

  lemma FlatRun(ws: seq<nat>, r: Run)
    requires ZeroRun(ws, r.base, r.len)
    ensures Flat(ws) == Flat(ws[..r.base]) + Zeros(2 * r.len) + Flat(ws[r.base + r.len..])
  {
    var a, b := ws[..r.base], ws[r.base + r.len..];
    assert ws == a + (Zeros(r.len) + b);
    FlatJoin(a, Zeros(r.len) + b);
    FlatJoin(Zeros(r.len), b);
    FlatZeros(r.len);
    assert Flat(a) + (Zeros(2 * r.len) + Flat(b)) == Flat(a) + Zeros(2 * r.len) + Flat(b);
  }

  lemma TailBytes(ws: seq<nat>, n: nat)
    requires |ws| == 8 && n <= 6 && Words(ws)
    ensures Flat(ws[n..6]) + Bytes4(ws) == Flat(ws[n..]) && |Bytes4(ws)| == 4 && Bytes(Bytes4(ws))
  {
    var x, y := [ws[6]], [ws[7]];
    assert ws[n..] == ws[n..6] + (x + y);
    FlatJoin(ws[n..6], x + y);
    FlatJoin(x, y);
    assert x[..0] == [] && y[..0] == [];
    assert Flat(x) == [] + Word(ws[6]) && Flat(y) == [] + Word(ws[7]);
  }

  lemma WholeAddress(ws: seq<nat>)
    requires |ws| == 8 && Words(ws)
    ensures var a := Address(Hexes(ws), false, [], []); IsTextOf(a, Joined(ws)) && AddressBytes(a) == Flat(ws)
  {
    HexesAre(ws);
    assert Flat(ws) + Zeros(0) + ([] + []) == Flat(ws);
  }

  lemma {:induction false} HexGroups(ws: seq<nat>)
    requires Words(ws)
    ensures Groups(Hexes(ws)) && |Hexes(ws)| == |ws|
  {
    HexesAre(ws);
  }

  lemma GapHead(front: seq<nat>)
    requires Words(front)
    ensures GapLead(Hexes(front)) == (if front == [] then [COLON] else Head(front)) + [COLON]
  {
    HexesAre(front);
  }

  lemma RunText6(ws: seq<nat>, r: Run, h: seq<nat>, j: seq<nat>)
    requires |ws| == 8 && ZeroRun(ws, r.base, r.len) && !Embedded(ws, r)
    requires h == Head(ws[..r.base]) && j == Joined(ws[r.base + r.len..])
    ensures Text6(ws, r) == (if r.base == 0 then [COLON] else h) + [COLON] + j
  {
    Plain(h);
    if r.base == 0 { Plain([COLON]); }
  }

  lemma RunText(ws: seq<nat>, r: Run, front: seq<nat>, rear: seq<nat>)
    requires |ws| == 8 && Words(ws) && ZeroRun(ws, r.base, r.len) && r.len > 0 && !Embedded(ws, r)
    requires front == ws[..r.base] && rear == ws[r.base + r.len..]
    ensures List(Hexes(front), []) + [COLON, COLON] + List(Hexes(rear), []) == Text6(ws, r)
  {
    RunText6(ws, r, Head(front), Joined(rear));
    GapHead(front);
    HexesAre(rear);
    GapText(Hexes(front), Joined(rear));
  }

  lemma RunBytes(ws: seq<nat>, r: Run, front: seq<nat>, rear: seq<nat>)
    requires Words(ws) && ZeroRun(ws, r.base, r.len) && front == ws[..r.base] && rear == ws[r.base + r.len..]
    ensures Values(Hexes(front)) + Zeros(2 * r.len) + (Values(Hexes(rear)) + []) == Flat(ws)
  {
    HexesAre(front);
    HexesAre(rear);
    FlatRun(ws, r);
    Plain(Flat(rear));
  }

  lemma RunAddress(ws: seq<nat>, r: Run) returns (a: Address)
    requires |ws| == 8 && Words(ws) && ZeroRun(ws, r.base, r.len) && r.len > 0 && !Embedded(ws, r)
    ensures IsTextOf(a, Text6(ws, r)) && AddressBytes(a) == Flat(ws)
  {
    var front, rear := ws[..r.base], ws[r.base + r.len..];
    RunText(ws, r, front, rear);
    a := RunLegal(front, rear, 2 * r.len);
    RunBytes(ws, r, front, rear);
  }

  lemma RunLegal(front: seq<nat>, rear: seq<nat>, n: nat) returns (a: Address)
    requires Words(front) && Words(rear) && n > 0 && 2 * |front| + 2 * |rear| + n == 16
    ensures Legal(a) && AddressText(a) == List(Hexes(front), []) + [COLON, COLON] + List(Hexes(rear), [])
    ensures AddressBytes(a) == Values(Hexes(front)) + Zeros(n) + (Values(Hexes(rear)) + [])
  {
    HexGroups(front);
    HexGroups(rear);
    a := Address(Hexes(front), true, Hexes(rear), []);
  }

  lemma MixedText(ws: seq<nat>, r: Run, m: seq<nat>, o: seq<nat>)
    requires |ws| == 8 && Words(ws) && ZeroRun(ws, r.base, r.len) && Embedded(ws, r) && m == ws[r.len..6]
      && o == Bytes4(ws) && |o| == 4
    ensures List([], []) + [COLON, COLON] + List(Hexes(m), o) == Text6(ws, r)
  {
    HexesAre(m);
    Plain([COLON, COLON]);
    Assoc([COLON, COLON], Head(m), Text4(o));
  }

  lemma MixedLegal(m: seq<nat>, o: seq<nat>, n: nat) returns (a: Address)
    requires Words(m) && Bytes(o) && |o| == 4 && |m| <= 1 && n == 12 - 2 * |m|
    ensures Legal(a) && AddressText(a) == List([], []) + [COLON, COLON] + List(Hexes(m), o)
    ensures AddressBytes(a) == [] + Zeros(n) + (Values(Hexes(m)) + o)
  {
    HexGroups(m);
    a := Address([], true, Hexes(m), o);
  }

  lemma MixedBytes(ws: seq<nat>, r: Run, m: seq<nat>, o: seq<nat>)
    requires |ws| == 8 && Words(ws) && ZeroRun(ws, r.base, r.len) && Embedded(ws, r) && m == ws[r.len..6]
      && o == Bytes4(ws)
    ensures [] + Zeros(2 * r.len) + (Values(Hexes(m)) + o) == Flat(ws)
  {
    HexesAre(m);
    TailBytes(ws, r.len);
    FlatRun(ws, r);
    assert ws[..0] == [];
  }

  lemma MixedAddress(ws: seq<nat>, r: Run) returns (a: Address)
    requires |ws| == 8 && Words(ws) && ZeroRun(ws, r.base, r.len) && Embedded(ws, r)
    ensures IsTextOf(a, Text6(ws, r)) && AddressBytes(a) == Flat(ws)
  {
    var m, o := ws[r.len..6], Bytes4(ws);
    TailBytes(ws, r.len);
    MixedText(ws, r, m, o);
    a := MixedLegal(m, o, 2 * r.len);
    MixedBytes(ws, r, m, o);
  }

  // inet_pton6 reads what inet_ntop6 writes, wherever "::" stands.
  lemma RoundTrip6(ws: seq<nat>, r: Run)
    requires |ws| == 8 && Words(ws) && (r.base == -1 || (ZeroRun(ws, r.base, r.len) && r.len > 0))
    ensures Gives(Parse6(Text6(ws, r)), Flat(ws), -1)
  {
    Accepts6(Text6(ws, r));
    if r.base == -1 { WholeAddress(ws); }
    else if Embedded(ws, r) { var _ := MixedAddress(ws, r); }
    else { var _ := RunAddress(ws, r); }
  }

  // ---------- the printers ----------

  lemma HexFits(n: nat, k: nat)
    requires 1 <= k && n < Pow16(k)
    ensures |Hex(n)| <= k
    decreases k
  {
    if n >= 16 { HexFits(n / 16, k - 1); }
  }

  lemma {:induction false} HeadFits(ws: seq<nat>)
    requires Words(ws)
    ensures |Head(ws)| <= 5 * |ws|
  {
    if ws != [] {
      assert Pow16(4) == 0x1_0000;
      HexFits(ws[|ws| - 1], 4);
      HeadFits(ws[..|ws| - 1]);
    }
  }

  lemma JoinedFits(ws: seq<nat>)
    requires Words(ws)
    ensures |Joined(ws)| <= if ws == [] then 0 else 5 * |ws| - 1
  {
    if ws != [] {
      assert Pow16(4) == 0x1_0000;
      HexFits(ws[|ws| - 1], 4);
      HeadFits(ws[..|ws| - 1]);
    }
  }

  lemma {:induction false} DecFits(n: nat)
    requires n < 1000
    ensures |Dec(n)| <= if n < 10 then 1 else if n < 100 then 2 else 3
  {
    if n >= 10 { DecFits(n / 10); }
  }

  lemma {:induction false} DottedFits(a: seq<nat>)
    requires Bytes(a)
    ensures |Dotted(a)| <= 4 * |a|
  {
    if a != [] {
      DecFits(a[|a| - 1]);
      DottedFits(a[..|a| - 1]);
    }
  }

  // With its NUL the text of an address fits in UV__INET_ADDRSTRLEN (16) and
  // UV__INET6_ADDRSTRLEN (46) bytes.
  lemma Text4Fits(a: seq<nat>)
    requires |a| == 4 && Bytes(a)
    ensures |Text4(a)| + 1 <= 16
  {
    DecFits(a[3]);
    DottedFits(a[..3]);
  }

  lemma WordsPart(ws: seq<nat>, lo: nat, hi: nat)
    requires Words(ws) && lo <= hi <= |ws|
    ensures Words(ws[lo..hi]) && (lo == 0 ==> ws[..hi] == ws[lo..hi]) && (hi == |ws| ==> ws[lo..] == ws[lo..hi])
  {
  }

  lemma RunFits(ws: seq<nat>, lo: nat, hi: nat)
    requires Words(ws) && lo <= hi <= |ws|
    ensures |Head(ws[..lo])| <= 5 * lo && |Joined(ws[hi..])| <= 5 * (|ws| - hi)
  {
    WordsPart(ws, 0, lo);
    WordsPart(ws, hi, |ws|);
    HeadFits(ws[..lo]);
    JoinedFits(ws[hi..]);
  }

  lemma EmbeddedFits(ws: seq<nat>, n: nat)
    requires |ws| == 8 && Words(ws) && 5 <= n <= 6
    ensures |[COLON, COLON] + Head(ws[n..6]) + Text4(Bytes4(ws))| + 1 <= 46
  {
    WordsPart(ws, n, 6);
    HeadFits(ws[n..6]);
    TailBytes(ws, n);
    Text4Fits(Bytes4(ws));
  }

  lemma Text6Fits(ws: seq<nat>, r: Run)
    requires |ws| == 8 && Words(ws) && (r.base == -1 || (ZeroRun(ws, r.base, r.len) && r.len >= 2))
    ensures |Text6(ws, r)| + 1 <= 46
  {
    if r.base == -1 {
      JoinedFits(ws);
    } else if Embedded(ws, r) {
      EmbeddedFits(ws, r.len);
    } else {
      RunFits(ws, r.base, r.base + r.len);
    }
  }

  // inet_ntop4
  method Ntop4(src: seq<nat>, size: nat) returns (rc: int, text: seq<nat>)
    requires |src| == 4 && Bytes(src)
    ensures rc == if |Text4(src)| >= size then UV_ENOSPC else 0
    ensures rc == 0 ==> text == Text4(src)
  {
    text := Dec(src[0]) + [DOT] + Dec(src[1]) + [DOT] + Dec(src[2]) + [DOT] + Dec(src[3]);
    var x, b, c := [src[0]], src[..2], src[..3];
    assert x[..0] == [] && b[..1] == x && c[..2] == b;
    assert Dotted(x) == [] + (Dec(src[0]) + [DOT]) && Dotted(b) == Dotted(x) + (Dec(src[1]) + [DOT]);
    rc := if |text| >= size then UV_ENOSPC else 0;
  }

  // best is the first longest run of zero words before j.
  ghost predicate BestBefore(ws: seq<nat>, j: int, best: Run) {
    && (best.base == -1 ==> forall b: int, n: int :: ZeroRun(ws, b, n) && b + n <= j ==> n == 0)
    && (best.base != -1 ==> ZeroRun(ws, best.base, best.len) && best.len > 0 && best.base + best.len <= j)
    && (best.base != -1 ==> forall b: int, n: int :: ZeroRun(ws, b, n) && b + n <= j ==>
      n < best.len || (n == best.len && b >= best.base))
  }

  lemma Outside(ws: seq<nat>, b: int, n: int, j: int)
    requires ZeroRun(ws, b, n) && 0 <= j < |ws| && ws[j] != 0
    ensures j < b || b + n <= j
  {
  }

  // The run from cur to i ends there, or at the end of the words.
  lemma RunEnds(ws: seq<nat>, cur: int, i: int, best: Run)
    requires 0 <= cur < i <= |ws| && ZeroRun(ws, cur, i - cur) && (cur > 0 ==> ws[cur - 1] != 0)
      && BestBefore(ws, cur, best)
    ensures BestBefore(ws, i, if best.base == -1 || i - cur > best.len then Run(cur, i - cur) else best)
  {
    var best' := if best.base == -1 || i - cur > best.len then Run(cur, i - cur) else best;
    forall b: int, n: int | ZeroRun(ws, b, n) && b + n <= i
      ensures n < best'.len || (n == best'.len && b >= best'.base)
    {
      if cur > 0 { Outside(ws, b, n, cur - 1); }
    }
  }

  // The first loop of inet_ntop6 over the words.
  method FindRun(ws: seq<nat>) returns (best: Run)
    ensures IsBest(ws, best)
  {
    best := Run(-1, 0);
    var cur := Run(-1, 0);
    for i := 0 to |ws|
      invariant cur.base == -1 ==> BestBefore(ws, i, best)
      invariant cur.base != -1 ==> 0 <= cur.base < i && cur.len == i - cur.base && ZeroRun(ws, cur.base, cur.len)
      invariant cur.base != -1 ==> (cur.base > 0 ==> ws[cur.base - 1] != 0) && BestBefore(ws, cur.base, best)
      invariant cur.base == -1 && i > 0 ==> ws[i - 1] != 0
    {
      if ws[i] == 0 {
        if cur.base == -1 {
          cur := Run(i, 1);
        } else {
          cur := Run(cur.base, cur.len + 1);
        }
      } else {
        if cur.base != -1 {
          RunEnds(ws, cur.base, i, best);
          if best.base == -1 || cur.len > best.len { best := cur; }
          cur := Run(-1, cur.len);
        }
        NotZero(ws, i, best);
      }
    }
    if cur.base != -1 {
      RunEnds(ws, cur.base, |ws|, best);
      if best.base == -1 || cur.len > best.len { best := cur; }
    }
    if best.base != -1 && best.len < 2 { best := Run(-1, best.len); }
  }

  lemma NotZero(ws: seq<nat>, i: nat, best: Run)
    requires i < |ws| && ws[i] != 0 && BestBefore(ws, i, best)
    ensures BestBefore(ws, i + 1, best)
  {
    forall b: int, n: int | ZeroRun(ws, b, n) && b + n <= i + 1 && n > 0 ensures b + n <= i { Outside(ws, b, n, i); }
  }

  // ---------- inet_ntop6 ----------

  // The words of 16 bytes: the first loop of inet_ntop6.
  method ToWords(src: seq<nat>) returns (words: seq<nat>)
    requires |src| == 16 && Bytes(src)
    ensures |words| == 8 && Words(words) && Flat(words) == src
    ensures forall i :: 0 <= i < 8 ==> words[i] == 256 * src[2 * i] + src[2 * i + 1]
  {
    words := [];
    assert src[..0] == [];
    for i := 0 to 8
      invariant |words| == i && Words(words) && Flat(words) == src[..2 * i]
      invariant forall j :: 0 <= j < i ==> words[j] == 256 * src[2 * j] + src[2 * j + 1]
    {
      var w := src[2 * i] * 256 + src[2 * i + 1];
      assert (words + [w])[..i] == words && Word(w) == [src[2 * i], src[2 * i + 1]];
      assert src[..2 * (i + 1)] == src[..2 * i] + [src[2 * i], src[2 * i + 1]];
      words := words + [w];
    }
    assert src[..16] == src;
  }

  // What stands before the groups that follow "::", its second colon excepted.
  function Front(ws: seq<nat>, r: Run): seq<nat>
    requires 0 <= r.base <= |ws|
  {
    if r.base == 0 then [COLON] else Head(ws[..r.base])
  }

  predicate Inside(ws: seq<nat>, r: Run) { 0 <= r.base <= r.base + r.len <= |ws| }

  // What has been written before word i.
  function Partial(ws: seq<nat>, r: Run, i: nat): seq<nat>
    requires i <= |ws| && (r.base == -1 || Inside(ws, r))
  {
    if r.base == -1 || i <= r.base then Joined(ws[..i])
    else if i <= r.base + r.len then Front(ws, r)
    else Front(ws, r) + [COLON] + Joined(ws[r.base + r.len..i])
  }

  lemma JoinedMore(ws: seq<nat>, w: nat)
    ensures Joined(ws + [w]) == Head(ws) + Hex(w)
    ensures ws != [] ==> Joined(ws) + [COLON] == Head(ws)
  {
    assert (ws + [w])[..|ws|] == ws;
    if ws != [] {
      var n := |ws| - 1;
      assert Head(ws[..n]) + Hex(ws[n]) + [COLON] == Head(ws[..n]) + (Hex(ws[n]) + [COLON]);
    }
  }

  lemma JoinedOn(ws: seq<nat>, w: nat)
    ensures Joined(ws + [w]) == Joined(ws) + (if ws != [] then [COLON] else []) + Hex(w)
  {
    JoinedMore(ws, w);
    if ws == [] { assert [] + [] + Hex(w) == [] + Hex(w); }
  }

  lemma WordBefore(ws: seq<nat>, r: Run, i: nat)
    requires i < |ws| && (r.base == -1 || (Inside(ws, r) && i < r.base))
    ensures Partial(ws, r, i + 1) == Partial(ws, r, i) + (if i != 0 then [COLON] else []) + Hex(ws[i])
  {
    assert ws[..i + 1] == ws[..i] + [ws[i]];
    JoinedOn(ws[..i], ws[i]);
  }

  lemma FourParts(f: seq<nat>, j: seq<nat>, h: seq<nat>)
    ensures f + [COLON] + (j + [COLON] + h) == f + [COLON] + j + [COLON] + h
  {
  }

  lemma AfterMore(f: seq<nat>, part: seq<nat>, w: nat, more: seq<nat>)
    requires more == part + [w] && part != []
    ensures f + [COLON] + Joined(more) == f + [COLON] + Joined(part) + [COLON] + Hex(w)
  {
    JoinedOn(part, w);
    FourParts(f, Joined(part), Hex(w));
  }

  lemma JoinedOne(w: nat)
    ensures Joined([w]) == Hex(w)
  {
    var ws := [w];
    assert ws[..0] == [] && Joined(ws) == Head(ws[..0]) + Hex(ws[0]);
    Plain(Hex(w));
  }

  lemma PartialAfter(ws: seq<nat>, r: Run, i: nat, part: seq<nat>)
    requires Inside(ws, r) && r.len > 0 && r.base + r.len < i <= |ws| && part == ws[r.base + r.len..i]
    ensures Partial(ws, r, i) == Front(ws, r) + [COLON] + Joined(part)
  {
  }

  // The first word after the run, and the others.
  lemma FirstAfter(ws: seq<nat>, r: Run, i: nat)
    requires Inside(ws, r) && r.len > 0 && r.base + r.len == i < |ws|
    ensures Partial(ws, r, i + 1) == Partial(ws, r, i) + [COLON] + Hex(ws[i])
  {
    assert ws[i..i + 1] == [ws[i]];
    JoinedOne(ws[i]);
  }

  lemma NextAfter(ws: seq<nat>, r: Run, i: nat, part: seq<nat>, more: seq<nat>)
    requires Inside(ws, r) && r.len > 0 && r.base + r.len < i < |ws|
    requires part == ws[r.base + r.len..i] && more == ws[r.base + r.len..i + 1]
    ensures Partial(ws, r, i + 1) == Partial(ws, r, i) + [COLON] + Hex(ws[i])
  {
    var f := Front(ws, r);
    SliceMore(ws, r.base + r.len, i);
    AfterMore(f, part, ws[i], more);
    calc {
      Partial(ws, r, i + 1);
    == { PartialAfter(ws, r, i + 1, more); }
      f + [COLON] + Joined(more);
    ==
      f + [COLON] + Joined(part) + [COLON] + Hex(ws[i]);
    == { PartialAfter(ws, r, i, part); }
      Partial(ws, r, i) + [COLON] + Hex(ws[i]);
    }
  }

  // Writing word i, outside the run: a colon, except at the start, and the digits.
  lemma PartialWord(ws: seq<nat>, r: Run, i: nat)
    requires i < |ws| && (r.base == -1 || (Inside(ws, r) && r.len > 0))
      && !(r.base != -1 && r.base <= i < r.base + r.len)
    ensures Partial(ws, r, i + 1) == Partial(ws, r, i) + (if i != 0 then [COLON] else []) + Hex(ws[i])
  {
    if r.base == -1 || i < r.base {
      WordBefore(ws, r, i);
    } else if i == r.base + r.len {
      FirstAfter(ws, r, i);
    } else {
      NextAfter(ws, r, i, ws[r.base + r.len..i], ws[r.base + r.len..i + 1]);
    }
  }

  // The colon at the start of the run.
  lemma PartialColon(ws: seq<nat>, r: Run)
    requires ZeroRun(ws, r.base, r.len) && r.len > 0
    ensures Partial(ws, r, r.base + 1) == Partial(ws, r, r.base) + [COLON]
  {
    var part := ws[..r.base];
    JoinedMore(part, 0);
  }

  lemma PartialWhole(ws: seq<nat>, r: Run)
    requires |ws| == 8 && (r.base == -1 || (ZeroRun(ws, r.base, r.len) && r.len > 0 && !Embedded(ws, r)))
    ensures Text6(ws, r) == Partial(ws, r, 8) + if r.base != -1 && r.base + r.len == 8 then [COLON] else []
  {
    assert ws[..8] == ws;
    if r.base != -1 {
      assert ws[r.base + r.len..8] == ws[r.base + r.len..];
      assert [] + Head(ws[..r.base]) == Head(ws[..r.base]) && [COLON] + Head([]) == [COLON] && ws[..0] == [];
      var f := Front(ws, r);
      assert f + [COLON] + Joined([]) == f + [COLON];
    }
  }

  lemma TwoColons(h: seq<nat>, j: seq<nat>, a: seq<nat>)
    requires h == j + [COLON]
    ensures [COLON, COLON] + h + a == [COLON] + [COLON] + j + [COLON] + a
  {
    assert [COLON, COLON] + (j + [COLON]) == [COLON] + [COLON] + j + [COLON];
  }

  lemma PartialEmbedded(ws: seq<nat>, r: Run)
    requires |ws| == 8 && ZeroRun(ws, r.base, r.len) && Embedded(ws, r)
    ensures Text6(ws, r) == Partial(ws, r, 6) + [COLON] + Text4(Bytes4(ws))
  {
    var part := ws[r.len..6];
    if r.len == 6 {
      assert part == [] && [COLON, COLON] + [] == [COLON] + [COLON];
    } else {
      JoinedMore(part, 0);
      TwoColons(Head(part), Joined(part), Text4(Bytes4(ws)));
    }
  }

  // ---------- which texts inet_ntop6 writes ----------

  const HEX_DIGITS := "0123456789abcdef"

  const UPPER_DIGITS := "0123456789ABCDEF"

  // The values of the digits, of either case; nothing else is one.
  lemma HexValues(c: nat)
    ensures forall d :: 0 <= d < 16 ==> HexVal(HEX_DIGITS[d] as nat) == d == HexVal(UPPER_DIGITS[d] as nat)
    ensures var v := HexVal(c); v >= 0 ==> v < 16 && (c == HEX_DIGITS[v] as nat || c == UPPER_DIGITS[v] as nat)
  {
  }

  // A word is written with its high byte first.
  lemma WordBytes(v: nat)
    requires v < 0x1_0000
    ensures |Word(v)| == 2 && Bytes(Word(v)) && v == 256 * Word(v)[0] + Word(v)[1]
  {
  }

  // Hexadecimal in lower case and without leading zeros.
  lemma {:induction false} HexPlain(n: nat)
    ensures n < 16 ==> Hex(n) == [HEX_DIGITS[n] as nat]
    ensures n >= 16 ==> Hex(n)[0] != 48 && Hex(n)[|Hex(n)| - 1] == HEX_DIGITS[n % 16] as nat
  {
    if n >= 16 { HexPlain(n / 16); }
  }

  // An address that carries an IPv4 address: ::ffff:0:0/96, or ::/96 with word 6 not 0.
  predicate Mapped(ws: seq<nat>) { |ws| == 8 && ws[5] == 0xFFFF && forall i :: 0 <= i < 5 ==> ws[i] == 0 }

  predicate Compatible(ws: seq<nat>) { |ws| == 8 && ws[6] != 0 && forall i :: 0 <= i < 6 ==> ws[i] == 0 }

  lemma CarriesIPv4(ws: seq<nat>, r: Run)
    requires |ws| == 8 && IsBest(ws, r)
    ensures Mapped(ws) ==> r.base == 0 && r.len == 5
    ensures Compatible(ws) ==> r.base == 0 && r.len == 6
    ensures Embedded(ws, r) ==> Mapped(ws) || Compatible(ws)
  {
    if Mapped(ws) { assert ZeroRun(ws, 0, 5); }
    if Compatible(ws) { assert ZeroRun(ws, 0, 6); }
    assert r.base == 0 && r.len == 6 && ZeroRun(ws, 0, 6) && ws[6] == 0 ==> ZeroRun(ws, 0, 7);
  }

  // "::ffff:"
  const MAPPED_PREFIX := [58, 58, 102, 102, 102, 102, 58]

  lemma MappedHead(w: seq<nat>)
    requires w == [0xFFFF]
    ensures [COLON, COLON] + Head(w) == MAPPED_PREFIX
  {
    HexPlain(0xFFF);
    assert w[..0] == [] && Head(w) == Head(w[..0]) + (Hex(0xFFFF) + [COLON]);
    assert Hex(0xFFFF) == [102, 102, 102, 102];
  }

  lemma MappedText(ws: seq<nat>, r: Run)
    requires Mapped(ws) && ZeroRun(ws, r.base, r.len) && r.base == 0 && r.len == 5
    ensures Text6(ws, r) == MAPPED_PREFIX + Text4(Word(ws[6]) + Word(ws[7]))
  {
    assert ws[5..6] == [0xFFFF];
    MappedHead(ws[5..6]);
  }

  lemma ColonPair(a: seq<nat>, j: seq<nat>)
    ensures a + [COLON] + [COLON] + j == a + [COLON, COLON] + j
  {
    assert a + [COLON] + [COLON] == a + [COLON, COLON];
  }

  lemma CompressedText(ws: seq<nat>, r: Run)
    requires |ws| == 8 && ZeroRun(ws, r.base, r.len) && r.len > 0 && !Embedded(ws, r)
    ensures Text6(ws, r) == Joined(ws[..r.base]) + [COLON, COLON] + Joined(ws[r.base + r.len..])
  {
    var front, j := ws[..r.base], Joined(ws[r.base + r.len..]);
    RunText6(ws, r, Head(front), j);
    ColonPair(Joined(front), j);
    if r.base > 0 {
      JoinedMore(front, 0);
    } else {
      assert Joined(front) == [] && [] + [COLON] == [COLON];
    }
  }

  // The text by the kind of address alone: an IPv4 address in dotted form after ::ffff: or
  // ::, otherwise two colons for the longest run of zero words, if any has two.
  lemma TextOf(ws: seq<nat>, r: Run)
    requires |ws| == 8 && IsBest(ws, r)
    ensures Mapped(ws) ==> Text6(ws, r) == MAPPED_PREFIX + Text4(Word(ws[6]) + Word(ws[7]))
    ensures Compatible(ws) ==> Text6(ws, r) == [COLON, COLON] + Text4(Word(ws[6]) + Word(ws[7]))
    ensures !Mapped(ws) && !Compatible(ws) && r.base != -1
      ==> Text6(ws, r) == Joined(ws[..r.base]) + [COLON, COLON] + Joined(ws[r.base + r.len..])
    ensures r.base == -1 ==> Text6(ws, r) == Joined(ws)
  {
    CarriesIPv4(ws, r);
    if Mapped(ws) {
      MappedText(ws, r);
    } else if Compatible(ws) {
      assert ws[6..6] == [] && [COLON, COLON] + [] == [COLON, COLON];
    } else if r.base != -1 {
      CompressedText(ws, r);
    }
  }

  // The loop of inet_ntop6 that writes the text, for the run best.
  method Format6(src: seq<nat>, ws: seq<nat>, best: Run) returns (text: seq<nat>)
    requires |src| == 16 && Bytes(src) && |ws| == 8 && Words(ws) && Flat(ws) == src
    requires best.base == -1 || (ZeroRun(ws, best.base, best.len) && best.len >= 2)
    ensures text == Text6(ws, best)
  {
    text := [];
    ghost var part := Partial(ws, best, 0);
    assert ws[..0] == [];
    for i := 0 to 8
      invariant text == Partial(ws, best, i)
      invariant best.base != -1 && Embedded(ws, best) ==> i <= 6
    {
      if best.base != -1 && i >= best.base && i < best.base + best.len {
        if i == best.base {
          PartialColon(ws, best);
          text := text + [COLON];
        }
        continue;
      }
      PartialWord(ws, best, i);
      if i != 0 { text := text + [COLON]; }
      // The source also accepts a run of 7 here, but word 6 would be inside it.
      assert i == 6 && best.base == 0 ==> best.len != 7;
      if i == 6 && best.base == 0 && (best.len == 6 || (best.len == 5 && ws[5] == 0xFFFF)) {
        PartialEmbedded(ws, best);
        LastBytes(src, ws);
        var _, a := Ntop4(src[12..], 16);
        text := text + a;
        return;
      }
      text := text + Hex(ws[i]);
    }
    PartialWhole(ws, best);
    if best.base != -1 && best.base + best.len == 8 { text := text + [COLON]; }
  }

  lemma LastBytes(src: seq<nat>, ws: seq<nat>)
    requires |src| == 16 && Bytes(src) && |ws| == 8 && Words(ws) && Flat(ws) == src
    ensures src[12..] == Bytes4(ws) && |Text4(src[12..])| < 16
  {
    TailBytes(ws, 0);
    FlatLength(ws[0..6]);
    assert ws[0..] == ws;
    Text4Fits(Bytes4(ws));
  }

  // inet_ntop6
  method Ntop6(src: seq<nat>, size: nat) returns (rc: int, text: seq<nat>, ghost ws: seq<nat>, ghost best: Run)
    requires |src| == 16 && Bytes(src)
    ensures |ws| == 8 && Words(ws) && Flat(ws) == src && IsBest(ws, best)
    ensures forall i :: 0 <= i < 8 ==> ws[i] == 256 * src[2 * i] + src[2 * i + 1]
    ensures rc == (if |Text6(ws, best)| + 1 > size then UV_ENOSPC else 0) && (size >= 46 ==> rc == 0)
    ensures rc == 0 ==> text == Text6(ws, best) && Gives(Parse6(text), src, -1)
  {
    var words := ToWords(src);
    var run := FindRun(words);
    ws, best := words, run;
    text := Format6(src, words, run);
    Text6Fits(ws, best);
    RoundTrip6(ws, best);
    rc := if |text| + 1 > size then UV_ENOSPC else 0;
  }

  // ---------- the parsers ----------

  // inet_pton4: the four octets of a text that inet_ntop4 could have written, and of no other.
  method Pton4(src: seq<nat>) returns (rc: int, dst: seq<nat>)
    ensures rc == (if Parse4(src).Good? then 0 else UV_EINVAL) && (rc == 0 ==> dst == Parse4(src).out && |dst| == 4)
    ensures (rc == 0 <==> exists a :: Writes4(a, src)) && (rc == 0 ==> Writes4(dst, src))
  {
    Accepts4(src);
    var tmp := new nat[4](i => 0);
    var tp, saw, octets, i := 0, false, 0, 0;
    dst := [];
    assert tmp[..1] == [0];
    while i < |src|
      invariant i <= |src| && octets <= 4 && tp == (if saw then octets - 1 else octets) && 0 <= tp < 4
      invariant Scan4(src, i, tmp[..tp + 1], saw, octets) == Parse4(src)
    {
      var v := DecVal(src[i]);
      ghost var now := tmp[..tp + 1];
      if v >= 0 {
        var nw := tmp[tp] * 10 + v;
        if saw && tmp[tp] == 0 { return UV_EINVAL, dst; }
        if nw > 255 { return UV_EINVAL, dst; }
        if !saw && octets + 1 > 4 { return UV_EINVAL, dst; }
        tmp[tp] := nw;
        assert tmp[..tp + 1] == now[..tp] + [nw];
        if !saw { octets, saw := octets + 1, true; }
      } else if src[i] == DOT && saw {
        if octets == 4 { return UV_EINVAL, dst; }
        tp := tp + 1;
        tmp[tp] := 0;
        assert tmp[..tp + 1] == now + [0];
        saw := false;
      } else {
        return UV_EINVAL, dst;
      }
      i := i + 1;
    }
    if octets < 4 { return UV_EINVAL, dst; }
    return 0, tmp[..tp + 1];
  }

  // val goes to the next two bytes.
  method PutWord(tmp: array<nat>, tp: nat, val: nat)
    requires tmp.Length == 16 && tp + 2 <= 16
    modifies tmp
    ensures tmp[..tp + 2] == old(tmp[..tp]) + Word(val) && tmp[tp + 2..] == old(tmp[tp + 2..])
  {
    tmp[tp] := val / 256 % 256;
    tmp[tp + 1] := val % 256;
  }

  // The octets of an embedded address.
  method PutOctets(tmp: array<nat>, tp: nat, a: seq<nat>)
    requires tmp.Length == 16 && tp + 4 <= 16 && |a| == 4 && tmp[tp..] == Zeros(16 - tp)
    modifies tmp
    ensures tmp[..] == old(tmp[..tp]) + a + Zeros(12 - tp)
  {
    ghost var out := tmp[..tp];
    assert Zeros(16 - tp)[4..] == Zeros(12 - tp);
    tmp[tp], tmp[tp + 1], tmp[tp + 2], tmp[tp + 3] := a[0], a[1], a[2], a[3];
    assert tmp[..tp + 4] == out + a && tmp[tp + 4..] == Zeros(12 - tp);
    assert tmp[..] == tmp[..tp + 4] + tmp[tp + 4..];
  }

  // The loop of inet_pton6, from character start on: tp bytes are in tmp.
  method ScanText(src: seq<nat>, start: nat, tmp: array<nat>) returns (ok: bool, tp: nat, colonp: int)
    requires start <= |src| && tmp.Length == 16 && tmp[..] == Zeros(16)
    modifies tmp
    ensures var p := Scan6(src, start, [], -1, 0, 0, start);
      && (ok <==> p.Good?) && (ok ==>
        tp <= 16 && tmp[..] == p.out + Zeros(16 - tp) && |p.out| == tp && colonp == p.colon && -1 <= colonp <= tp)
  {
    var curtok: nat, seen: nat, val: nat, i: nat := start, 0, 0, start;
    ghost var p := Scan6(src, start, [], -1, 0, 0, start);
    tp, colonp := 0, -1;
    while i < |src|
      invariant curtok <= i <= |src| && tp <= 16 && -1 <= colonp <= tp && tmp[tp..] == Zeros(16 - tp)
      invariant Scan6(src, i, tmp[..tp], colonp, seen, val, curtok) == p
    {
      var ch := src[i];
      i := i + 1;
      var v := HexVal(ch);
      if v >= 0 {
        val := val * 16 + v;
        seen := seen + 1;
        if seen > 4 { return false, tp, colonp; }
        continue;
      }
      if ch == COLON {
        curtok := i;
        if seen == 0 {
          if colonp >= 0 { return false, tp, colonp; }
          colonp := tp;
          continue;
        } else if i == |src| {
          return false, tp, colonp;
        }
        if tp + 2 > 16 { return false, tp, colonp; }
        PutWord(tmp, tp, val);
        assert Zeros(16 - tp)[2..] == Zeros(14 - tp);
        tp, seen, val := tp + 2, 0, 0;
        continue;
      }
      if ch == DOT && tp + 4 <= 16 {
        var err, a := Pton4(src[curtok..]);
        if err == 0 {
          PutOctets(tmp, tp, a);
          tp := tp + 4;
          ok := true;
          return;
        }
      }
      return false, tp, colonp;
    }
    if seen > 0 {
      if tp + 2 > 16 { return false, tp, colonp; }
      PutWord(tmp, tp, val);
      assert Zeros(16 - tp)[2..] == Zeros(14 - tp);
      tp := tp + 2;
    }
    assert tmp[..] == tmp[..tp] + tmp[tp..];
    ok := true;
  }

  lemma ShiftEnd(was: seq<nat>, now: seq<nat>, tp: nat, colonp: nat)
    requires |was| == |now| == 16 && colonp <= tp < 16
    requires forall j :: 0 <= j < colonp ==> now[j] == was[j]
    requires forall j :: colonp <= j < 16 - (tp - colonp) ==> now[j] == 0
    requires forall j :: 16 - (tp - colonp) <= j < 16 ==> now[j] == was[j - (16 - tp)]
    ensures now == was[..colonp] + Zeros(16 - tp) + was[colonp..tp]
  {
    var z := Zeros(16 - tp);
    assert forall j :: 0 <= j < 16 - tp ==> z[j] == now[colonp + j];
  }

  // Moves the bytes after "::" to the end, in place.
  method Shift(tmp: array<nat>, tp: nat, colonp: nat)
    requires tmp.Length == 16 && colonp <= tp < 16 && tmp[tp..] == Zeros(16 - tp)
    modifies tmp
    ensures tmp[..] == old(tmp[..colonp]) + Zeros(16 - tp) + old(tmp[colonp..tp])
  {
    var n := tp - colonp;
    ghost var was := tmp[..];
    assert forall j :: tp <= j < 16 ==> was[j] == tmp[tp..][j - tp] == 0;
    for i := 1 to n + 1
      invariant forall j :: 16 - i < j < 16 ==> tmp[j] == was[j - (16 - tp)]
      invariant forall j :: tp - i < j < tp && j <= 16 - i ==> tmp[j] == 0
      invariant forall j :: 0 <= j <= tp - i ==> tmp[j] == was[j]
      invariant forall j :: tp <= j <= 16 - i ==> tmp[j] == 0
    {
      tmp[16 - i] := tmp[tp - i];
      tmp[tp - i] := 0;
    }
    ShiftEnd(was, tmp[..], tp, colonp);
  }

  // inet_pton6: the bytes of a text of section 2.2 of RFC 4291, and of no other.
  method Pton6(src: seq<nat>) returns (rc: int, dst: seq<nat>)
    ensures rc == (if Parse6(src).Good? then 0 else UV_EINVAL) && (rc == 0 ==> dst == Parse6(src).out && |dst| == 16)
    ensures (rc == 0 <==> exists a :: IsTextOf(a, src)) && forall a :: IsTextOf(a, src) ==> dst == AddressBytes(a)
  {
    Accepts6(src);
    var start := 0;
    dst := [];
    if |src| > 0 && src[0] == COLON {
      if |src| == 1 || src[1] != COLON { return UV_EINVAL, dst; }
      start := 1;
    }
    var tmp := new nat[16](i => 0);
    assert tmp[..] == Zeros(16);
    var ok, tp, colonp := ScanText(src, start, tmp);
    if !ok { return UV_EINVAL, dst; }
    ghost var out := tmp[..tp];
    assert tmp[tp..] == Zeros(16 - tp);
    if colonp >= 0 {
      if tp == 16 { return UV_EINVAL, dst; }
      assert tmp[..colonp] == out[..colonp] && tmp[colonp..tp] == out[colonp..];
      Shift(tmp, tp, colonp);
      tp := 16;
    }
    if tp != 16 { return UV_EINVAL, dst; }
    return 0, tmp[..];
  }

  // The parsers give back every address the printers write.
  method ThereAndBack(src: seq<nat>) returns (dst: seq<nat>)
    requires |src| == 16 && Bytes(src)
    ensures dst == src
  {
    var rc, text, ws, best := Ntop6(src, 46);
    rc, dst := Pton6(text);
  }
}
