/** Unpadded base32 of TOTP secrets (section 6 of RFC 4648), with the 32-bit shift
    buffers of `base32_encode` and `base32_decode`. The reference is the bit string itself. */
module Base32 {
  import opened Bytes

  type Bit = b: int | 0 <= b < 2

  type Quintet = v: int | 0 <= v < 32

  function Pow2(n: nat): (p: nat)
    ensures p > 0
  {
    if n == 0 then 1 else 2 * Pow2(n - 1)
  }

  // ---------------- Bit strings ----------------

  /** The value of a bit string, most significant bit first. */
  function Val(p: seq<Bit>): (v: nat)
    ensures v < Pow2(|p|)
  {
    if p == [] then 0
    else
      var last: int := p[|p| - 1];
      2 * Val(p[..|p| - 1]) + last
  }

  /** The `n` low bits of a number. */
  function BitsOf(x: nat, n: nat): (p: seq<Bit>)
    ensures |p| == n
  {
    if n == 0 then [] else BitsOf(x / 2, n - 1) + [x % 2]
  }

  function ByteBits(bs: seq<Byte>): (p: seq<Bit>)
    ensures |p| == 8 * |bs|
  {
    if bs == [] then [] else ByteBits(bs[..|bs| - 1]) + BitsOf(bs[|bs| - 1], 8)
  }

  function SymbolBits(qs: seq<Quintet>): (p: seq<Bit>)
    ensures |p| == 5 * |qs|
  {
    if qs == [] then [] else SymbolBits(qs[..|qs| - 1]) + BitsOf(qs[|qs| - 1], 5)
  }

  lemma {:induction false} ValBits(x: nat, n: nat)
    requires x < Pow2(n)
    ensures Val(BitsOf(x, n)) == x
  {
    if n > 0 {
      ValBits(x / 2, n - 1);
      var p := BitsOf(x, n);
      assert p[..n - 1] == BitsOf(x / 2, n - 1);
    }
  }

  lemma {:induction false} BitsVal(p: seq<Bit>)
    ensures BitsOf(Val(p), |p|) == p
  {
    if p != [] {
      var n := |p| - 1;
      BitsVal(p[..n]);
      assert Val(p) / 2 == Val(p[..n]) && Val(p) % 2 == p[n];
      assert p == p[..n] + [p[n]];
    }
  }

  // ---------------- 32-bit registers ----------------

  const WORD: nat := 0x1_0000_0000

  function Scale(x: nat, n: nat): nat {
    if n == 0 then x else 2 * Scale(x, n - 1)
  }

  /** `x << n` on 32 bits: the top bits fall off. */
  function Shl(x: nat, n: nat): U32 {
    Scale(x, n) % WORD
  }

  /** `x >> n` */
  function Shr(x: nat, n: nat): nat {
    if n == 0 then x else Shr(x / 2, n - 1)
  }

  /** `(x << n) | c` for a `c` of `n` bits. */
  function ShlOr(x: nat, n: nat, c: nat): U32 {
    (Scale(x, n) + c) % WORD
  }

  lemma {:induction false} AppendBits(x: nat, k: nat, c: nat, n: nat)
    requires c < Pow2(n)
    ensures BitsOf(Scale(x, n) + c, k + n) == BitsOf(x, k) + BitsOf(c, n)
  {
    if n > 0 {
      AppendBits(x, k, c / 2, n - 1);
      var y := Scale(x, n) + c;
      assert y / 2 == Scale(x, n - 1) + c / 2 && y % 2 == c % 2;
      assert BitsOf(y, k + n) == BitsOf(y / 2, k + n - 1) + [y % 2];
    } else {
      assert BitsOf(x, k) + [] == BitsOf(x, k);
    }
  }

  /** Taking away a high power leaves the low bits. */
  lemma {:induction false} SubHigh(z: nat, m: nat, k: nat)
    requires z >= Pow2(m) && k <= m
    ensures BitsOf(z - Pow2(m), k) == BitsOf(z, k)
  {
    if k > 0 {
      var h := Pow2(m - 1);
      assert (z - 2 * h) / 2 == z / 2 - h && (z - 2 * h) % 2 == z % 2;
      SubHigh(z / 2, m - 1, k - 1);
    }
  }

  /** Reducing to a register or field width leaves the bits below it. */
  lemma {:induction false} ModHigh(z: nat, m: nat, w: nat, k: nat)
    requires w == Pow2(m) && k <= m && w in {32, 256, WORD}
    ensures BitsOf(z % w, k) == BitsOf(z, k)
    decreases z
  {
    hide BitsOf, Pow2;
    ModStep(z, w);
    if z >= w {
      SubHigh(z, m, k);
      ModHigh(z - w, m, w, k);
    }
  }

  lemma ModStep(z: nat, w: nat)
    requires w in {32, 256, WORD}
    ensures z % w == if z < w then z else (z - w) % w
  {
    if w == 32 {
      ModStep32(z);
    } else if w == 256 {
      ModStep256(z);
    } else {
      ModStepWord(z);
    }
  }

  lemma ModStep32(z: nat)
    ensures z % 32 == if z < 32 then z else (z - 32) % 32
  {
  }

  lemma ModStep256(z: nat)
    ensures z % 256 == if z < 256 then z else (z - 256) % 256
  {
  }

  lemma ModStepWord(z: nat)
    ensures z % WORD == if z < WORD then z else (z - WORD) % WORD
  {
  }

  lemma PowerConstants()
    ensures Pow2(5) == 32 && Pow2(8) == 256 && Pow2(32) == WORD
  {
    assert Pow2(4) == 16;
    assert Pow2(8) == 256;
    assert Pow2(12) == 4096;
    assert Pow2(16) == 65536;
    assert Pow2(20) == 0x10_0000;
    assert Pow2(24) == 0x100_0000;
    assert Pow2(28) == 0x1000_0000;
  }

  /** `p` is what the buffer still has to emit: its low bits, whatever stale bits are
      above them. */
  ghost predicate Holds(buffer: U32, p: seq<Bit>) {
    |p| <= 32 && BitsOf(buffer, |p|) == p
  }

  lemma ShiftIn(buffer: U32, p: seq<Bit>, c: nat, n: nat)
    requires Holds(buffer, p) && c < Pow2(n) && |p| + n <= 32
    ensures Holds(ShlOr(buffer, n, c), p + BitsOf(c, n))
  {
    hide BitsOf, Pow2, Scale;
    PowerConstants();
    AppendBits(buffer, |p|, c, n);
    ModHigh(Scale(buffer, n) + c, 32, WORD, |p| + n);
  }

  lemma {:induction false} SplitBits(x: nat, n: nat, m: nat)
    ensures BitsOf(x, n + m) == BitsOf(Shr(x, m), n) + BitsOf(x, m)
  {
    if m > 0 {
      SplitBits(x / 2, n, m - 1);
    } else {
      assert BitsOf(x, n) + [] == BitsOf(x, n);
    }
  }

  /** Reading the next `n` of the pending bits, and what stays pending. */
  lemma ShiftOut(buffer: U32, p: seq<Bit>, n: nat, w: nat)
    requires Holds(buffer, p) && n <= |p| && w == Pow2(n) && w in {32, 256}
    ensures BitsOf(Shr(buffer, |p| - n) % w, n) == p[..n]
    ensures Holds(buffer, p[n..])
  {
    var m := |p| - n;
    SplitBits(buffer, n, m);
    assert p == p[..n] + p[n..];
    ModHigh(Shr(buffer, m), n, w, n);
  }

  // ---------------- The reference ----------------

  /** Five bits at a time, the last group filled up with zeros. */
  function Groups(p: seq<Bit>): seq<Quintet> {
    if p == [] then []
    else if |p| < 5 then [Quintet5(p + BitsOf(0, 5 - |p|))]
    else [Quintet5(p[..5])] + Groups(p[5..])
  }

  function Quintet5(p: seq<Bit>): Quintet
    requires |p| == 5
  {
    assert Pow2(5) == 32;
    Val(p)
  }

  lemma QuintetBits(p: seq<Bit>)
    requires |p| == 5
    ensures BitsOf(Quintet5(p), 5) == p
  {
    BitsVal(p);
  }

  lemma QuintetOf(q: Quintet)
    ensures Quintet5(BitsOf(q, 5)) == q
  {
    assert Pow2(5) == 32;
    ValBits(q, 5);
  }

  /** Eight bits at a time, an incomplete last group dropped. */
  function Octets(p: seq<Bit>): seq<Byte> {
    if |p| < 8 then [] else [Octet8(p[..8])] + Octets(p[8..])
  }

  function Octet8(p: seq<Bit>): Byte
    requires |p| == 8
  {
    assert Pow2(8) == 256;
    Val(p)
  }

  /** The alphabet. */
  function Symbol(v: Quintet): (c: char)
    ensures IndexOf(c) == Some(v)
  {
    if v < 26 then (65 + v) as char else (24 + v) as char
  }

  /** Position in the alphabet of a character folded to upper case and cut to its low
      byte, as `base32_decode` casts it. */
  function IndexOf(c: char): Option<Quintet> {
    var folded := if 'a' <= c <= 'z' then c as int - 32 else c as int;
    var b := folded % 256;
    if 65 <= b <= 90 then Some(b - 65)
    else if 50 <= b <= 55 then Some(b - 24)
    else None
  }

  /** The alphabet of section 6 of RFC 4648, in either case. */
  predicate InAlphabet(c: char) {
    'A' <= c <= 'Z' || 'a' <= c <= 'z' || '2' <= c <= '7'
  }

  /** The symbols in order. */
  const ALPHABET: string := "ABCDEFGHIJKLMNOPQRSTUVWXYZ234567"

  lemma FirstHalf(v: Quintet)
    requires 0 <= v < 16
    ensures Symbol(v) == ALPHABET[v]
  {
    assert ALPHABET[0] == 'A' && ALPHABET[1] == 'B' && ALPHABET[2] == 'C' && ALPHABET[3] == 'D';
    assert ALPHABET[4] == 'E' && ALPHABET[5] == 'F' && ALPHABET[6] == 'G' && ALPHABET[7] == 'H';
    assert ALPHABET[8] == 'I' && ALPHABET[9] == 'J' && ALPHABET[10] == 'K' && ALPHABET[11] == 'L';
    assert ALPHABET[12] == 'M' && ALPHABET[13] == 'N' && ALPHABET[14] == 'O' && ALPHABET[15] == 'P';
  }

  lemma SecondHalf(v: Quintet)
    requires 16 <= v < 32
    ensures Symbol(v) == ALPHABET[v]
  {
    assert ALPHABET[16] == 'Q' && ALPHABET[17] == 'R' && ALPHABET[18] == 'S' && ALPHABET[19] == 'T';
    assert ALPHABET[20] == 'U' && ALPHABET[21] == 'V' && ALPHABET[22] == 'W' && ALPHABET[23] == 'X';
    assert ALPHABET[24] == 'Y' && ALPHABET[25] == 'Z' && ALPHABET[26] == '2' && ALPHABET[27] == '3';
    assert ALPHABET[28] == '4' && ALPHABET[29] == '5' && ALPHABET[30] == '6' && ALPHABET[31] == '7';
  }

  /** Symbols are the letters of the alphabet in its order, and lower case reads as upper. */
  lemma AlphabetInOrder(v: Quintet, c: char)
    ensures |ALPHABET| == 32 && Symbol(v) == ALPHABET[v] && IndexOf(ALPHABET[v]) == Some(v)
    ensures 'a' <= c <= 'z' ==> IndexOf(c) == IndexOf((c as int - 32) as char)
  {
    if v < 16 { FirstHalf(v); } else { SecondHalf(v); }
  }

  /** Every character of the alphabet is accepted. Outside it, exactly those are whose low
      byte is a letter or digit of it, and they are read as that one. */
  lemma ForeignLetter(c: char)
    ensures InAlphabet(c) ==> IndexOf(c).Some?
    ensures IndexOf(c).Some? && !InAlphabet(c) <==>
            c as int >= 256 && (65 <= c as int % 256 <= 90 || 50 <= c as int % 256 <= 55)
    ensures c as int >= 256 && IndexOf(c).Some? ==> IndexOf(c) == IndexOf((c as int % 256) as char)
  {
    var low := (c as int % 256) as char;
    assert low as int == c as int % 256;
  }

  function Spell(qs: seq<Quintet>): (s: string)
    ensures |s| == |qs| && forall i :: 0 <= i < |qs| ==> s[i] == Symbol(qs[i])
  {
    seq(|qs|, i requires 0 <= i < |qs| => Symbol(qs[i]))
  }

  function Indices(s: string): Option<seq<Quintet>> {
    if s == [] then Some([])
    else
      var front, last := Indices(s[..|s| - 1]), IndexOf(s[|s| - 1]);
      if front.None? || last.None? then None else Some(front.value + [last.value])
  }

  function Encoded(bs: seq<Byte>): string {
    Spell(Groups(ByteBits(bs)))
  }

  function Decoded(s: string): Option<seq<Byte>> {
    var qs := Indices(s);
    if qs.None? then None else Some(Octets(SymbolBits(qs.value)))
  }

  // ---------------- Round trip ----------------

  lemma {:induction false} SymbolBitsCons(q: Quintet, qs: seq<Quintet>)
    ensures SymbolBits([q] + qs) == BitsOf(q, 5) + SymbolBits(qs)
  {
    hide BitsOf;
    if qs == [] {
      assert ([q] + qs)[..0] == [];
      assert [q] + qs == [q];
    } else {
      var n := |qs| - 1;
      SymbolBitsCons(q, qs[..n]);
      assert ([q] + qs)[..n + 1] == [q] + qs[..n];
    }
  }

  /** Grouping loses nothing and adds fewer than five zero bits. */
  lemma {:induction false} GroupsBits(p: seq<Bit>)
    ensures SymbolBits(Groups(p)) == p + BitsOf(0, (5 - |p| % 5) % 5)
    decreases |p|
  {
    hide BitsOf, SymbolBits, Quintet5;
    NoSymbols();
    if p == [] {
      NoGroups();
      assert p + BitsOf(0, 0) == p;
    } else if |p| < 5 {
      var full := p + BitsOf(0, 5 - |p|);
      QuintetBits(full);
      SymbolBitsCons(Quintet5(full), []);
      assert [Quintet5(full)] + [] == [Quintet5(full)];
      assert full + [] == full;
    } else {
      GroupsBits(p[5..]);
      QuintetBits(p[..5]);
      SymbolBitsCons(Quintet5(p[..5]), Groups(p[5..]));
      var pad := BitsOf(0, (5 - |p| % 5) % 5);
      assert |p[5..]| % 5 == |p| % 5;
      assert p[..5] + (p[5..] + pad) == p + pad;
    }
  }

  lemma {:induction false} OctetsSnoc(p: seq<Bit>, b: Byte, tail: seq<Bit>)
    requires |p| % 8 == 0 && |tail| < 8
    ensures Octets(p + BitsOf(b, 8) + tail) == Octets(p) + [b]
    decreases |p|
  {
    var s := p + BitsOf(b, 8) + tail;
    assert Pow2(8) == 256;
    if p == [] {
      assert s[..8] == BitsOf(b, 8) && s[8..] == tail;
      ValBits(b, 8);
    } else {
      assert s[..8] == p[..8] && s[8..] == p[8..] + BitsOf(b, 8) + tail;
      OctetsSnoc(p[8..], b, tail);
    }
  }

  lemma {:induction false} OctetsOfBytes(bs: seq<Byte>, tail: seq<Bit>)
    requires |tail| < 8
    ensures Octets(ByteBits(bs) + tail) == bs
  {
    if bs == [] {
      assert ByteBits(bs) + tail == tail;
    } else {
      var n := |bs| - 1;
      OctetsOfBytes(bs[..n], []);
      assert ByteBits(bs[..n]) + [] == ByteBits(bs[..n]);
      OctetsSnoc(ByteBits(bs[..n]), bs[n], tail);
      assert bs == bs[..n] + [bs[n]];
    }
  }

  lemma {:induction false} IndicesOfSpell(qs: seq<Quintet>)
    ensures Indices(Spell(qs)) == Some(qs)
  {
    if qs != [] {
      var n := |qs| - 1;
      IndicesOfSpell(qs[..n]);
      assert Spell(qs)[..n] == Spell(qs[..n]);
      assert qs == qs[..n] + [qs[n]];
    }
  }

  /** Decoding an encoding gives the bytes back, for every byte string. */
  lemma RoundTrip(bs: seq<Byte>)
    ensures Decoded(Encoded(bs)) == Some(bs)
  {
    var p := ByteBits(bs);
    IndicesOfSpell(Groups(p));
    GroupsBits(p);
    OctetsOfBytes(bs, BitsOf(0, (5 - |p| % 5) % 5));
  }

  // ---------------- The loops ----------------

  lemma {:induction false} GroupsConcat(qs: seq<Quintet>, p: seq<Bit>)
    ensures Groups(SymbolBits(qs) + p) == qs + Groups(p)
  {
    hide BitsOf, SymbolBits, Quintet5;
    NoSymbols();
    if qs == [] {
      assert SymbolBits(qs) + p == p;
    } else {
      var q, rest := qs[0], qs[1..];
      assert qs == [q] + rest;
      SymbolBitsCons(q, rest);
      var s := SymbolBits(qs) + p;
      assert s[..5] == BitsOf(q, 5) && s[5..] == SymbolBits(rest) + p;
      QuintetOf(q);
      GroupsConcat(rest, p);
      assert [q] + (rest + Groups(p)) == qs + Groups(p);
    }
  }

  lemma NoOctets(p: seq<Bit>)
    requires |p| < 8
    ensures Octets(p) == []
  {
  }

  lemma NoBits()
    ensures Holds(0, [])
  {
  }

  lemma NoGroups()
    ensures Groups([]) == []
  {
  }

  lemma ByteSnoc(bs: seq<Byte>, b: Byte)
    ensures ByteBits(bs + [b]) == ByteBits(bs) + BitsOf(b, 8)
  {
    assert (bs + [b])[..|bs|] == bs;
  }

  lemma SymbolSnoc(qs: seq<Quintet>, q: Quintet)
    ensures SymbolBits(qs + [q]) == SymbolBits(qs) + BitsOf(q, 5)
  {
    assert (qs + [q])[..|qs|] == qs;
  }

  lemma NoSymbols()
    ensures SymbolBits([]) == [] && ByteBits([]) == []
  {
  }

  /** Emit five-bit symbols until fewer than five bits are pending. */
  method DrainSymbols(buffer: U32, bits0: nat, ghost pending: seq<Bit>) returns (more: seq<Quintet>, bits: nat)
    requires bits0 == |pending| <= 32 && Holds(buffer, pending)
    ensures bits < 5 && bits <= bits0
    ensures pending == SymbolBits(more) + pending[bits0 - bits..]
    ensures Holds(buffer, pending[bits0 - bits..])
  {
    hide BitsOf, Shr, SymbolBits, Pow2;
    more, bits := [], bits0;
    PowerConstants();
    NoSymbols();
    assert pending[0..] == pending;
    while bits >= 5
      invariant bits <= bits0
      invariant pending == SymbolBits(more) + pending[bits0 - bits..]
      invariant Holds(buffer, pending[bits0 - bits..])
    {
      ghost var p := pending[bits0 - bits..];
      ShiftOut(buffer, p, 5, 32);
      var v: Quintet := Shr(buffer, bits - 5) % 32;
      SymbolSnoc(more, v);
      assert p[5..] == pending[bits0 - (bits - 5)..];
      assert SymbolBits(more) + p == SymbolBits(more) + p[..5] + p[5..];
      more := more + [v];
      bits := bits - 5;
    }
  }

  /** `base32_encode` */
  method Encode(bytes: seq<Byte>) returns (out: string)
    ensures out == Encoded(bytes)
  {
    hide BitsOf, SymbolBits, ByteBits, Groups, ShlOr, Spell;
    var qs: seq<Quintet> := [];
    var buffer: U32, bits: nat := 0, 0;
    ghost var pending: seq<Bit> := [];
    PowerConstants();
    NoSymbols();
    NoBits();
    for i := 0 to |bytes|
      invariant bits == |pending| < 5 && Holds(buffer, pending)
      invariant ByteBits(bytes[..i]) == SymbolBits(qs) + pending
    {
      ShiftIn(buffer, pending, bytes[i], 8);
      ghost var grown := pending + BitsOf(bytes[i], 8);
      ByteSnoc(bytes[..i], bytes[i]);
      assert bytes[..i + 1] == bytes[..i] + [bytes[i]];
      var more;
      buffer := ShlOr(buffer, 8, bytes[i]);
      more, bits := DrainSymbols(buffer, bits + 8, grown);
      pending := grown[|grown| - bits..];
      SymbolConcat(qs, more);
      qs := qs + more;
    }
    assert bytes[..|bytes|] == bytes;
    GroupsConcat(qs, pending);
    if bits > 0 {
      PadLast(buffer, pending);
      qs := qs + [Shl(buffer, 5 - bits) % 32];
    } else {
      NoGroups();
    }
    out := Spell(qs);
  }

  lemma {:induction false} SymbolConcat(a: seq<Quintet>, b: seq<Quintet>)
    ensures SymbolBits(a + b) == SymbolBits(a) + SymbolBits(b)
  {
    hide BitsOf;
    if b == [] {
      assert a + b == a;
    } else {
      var n := |b| - 1;
      SymbolConcat(a, b[..n]);
      assert (a + b)[..|a| + n] == a + b[..n];
    }
  }

  lemma PadLast(buffer: U32, p: seq<Bit>)
    requires Holds(buffer, p) && 0 < |p| < 5
    ensures Groups(p) == [Shl(buffer, 5 - |p|) % 32]
  {
    var n := 5 - |p|;
    PowerConstants();
    ShiftIn(buffer, p, 0, n);
    var padded := p + BitsOf(0, n);
    var y := Shl(buffer, n);
    ModHigh(y, 5, 32, 5);
    ValBits(y % 32, 5);
    assert BitsOf(y % 32, 5) == padded;
  }

  lemma {:induction false} IndicesFail(s: string, i: nat)
    requires i < |s| && IndexOf(s[i]).None?
    ensures Indices(s).None?
  {
    if i < |s| - 1 { IndicesFail(s[..|s| - 1], i); }
  }

  lemma {:induction false} OctetsConcat(bs: seq<Byte>, p: seq<Bit>)
    ensures Octets(ByteBits(bs) + p) == bs + Octets(p)
    decreases |bs|
  {
    hide BitsOf, Val;
    NoSymbols();
    if bs == [] {
      assert ByteBits(bs) + p == p;
    } else {
      var n := |bs| - 1;
      var b := bs[n];
      OctetsConcat(bs[..n], BitsOf(b, 8) + p);
      assert ByteBits(bs) + p == ByteBits(bs[..n]) + (BitsOf(b, 8) + p);
      var s := BitsOf(b, 8) + p;
      assert Pow2(8) == 256;
      ValBits(b, 8);
      assert s[..8] == BitsOf(b, 8) && s[8..] == p;
      assert bs == bs[..n] + [b];
    }
  }

  /** `base32_decode` */
  method Decode(s: string) returns (r: Option<seq<Byte>>)
    ensures r == Decoded(s)
  {
    hide BitsOf, SymbolBits, ByteBits, Octets, ShlOr, Shr, Pow2, IndexOf;
    var buffer: U32, bits: nat := 0, 0;
    var out: seq<Byte> := [];
    ghost var pending: seq<Bit>, qs: seq<Quintet> := [], [];
    PowerConstants();
    NoSymbols();
    NoBits();
    for i := 0 to |s|
      invariant bits == |pending| < 8 && Holds(buffer, pending)
      invariant Indices(s[..i]) == Some(qs)
      invariant SymbolBits(qs) == ByteBits(out) + pending
    {
      var v := IndexOf(s[i]);
      if v.None? {
        IndicesFail(s, i);
        return None;
      }
      assert s[..i + 1][..i] == s[..i];
      ShiftIn(buffer, pending, v.value, 5);
      SymbolSnoc(qs, v.value);
      pending, qs := pending + BitsOf(v.value, 5), qs + [v.value];
      buffer := ShlOr(buffer, 5, v.value);
      bits := bits + 5;
      if bits >= 8 {
        ShiftOut(buffer, pending, 8, 256);
        var b: Byte := Shr(buffer, bits - 8) % 256;
        ByteSnoc(out, b);
        assert ByteBits(out) + pending == ByteBits(out) + pending[..8] + pending[8..];
        out := out + [b];
        bits := bits - 8;
        pending := pending[8..];
      }
    }
    assert s[..|s|] == s;
    OctetsConcat(out, pending);
    NoOctets(pending);
    assert out + [] == out;
    assert Octets(SymbolBits(qs)) == out;
    r := Some(out);
  }
}
