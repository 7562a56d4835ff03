/** UTF-8 as the standard library checks it: sections 3 and 4 of RFC 3629, and the
    position and length that `str::from_utf8` reports for ill-formed input. */
module Utf8 {
  import opened Bytes

  const REPLACEMENT: int := 0xFFFD

  predicate Tail(b: Byte) {
    0x80 <= b <= 0xBF
  }

  /** Length announced by a lead byte of the grammar, 0 for a byte that leads nothing. */
  function Need(lead: Byte): nat {
    if lead <= 0x7F then 1
    else if 0xC2 <= lead <= 0xDF then 2
    else if 0xE0 <= lead <= 0xEF then 3
    else if 0xF0 <= lead <= 0xF4 then 4
    else 0
  }

  /** The second byte's range depends on the lead (no overlong forms, no surrogates). */
  predicate SecondOk(lead: Byte, b: Byte) {
    && Tail(b)
    && (lead == 0xE0 ==> 0xA0 <= b)
    && (lead == 0xED ==> b <= 0x9F)
    && (lead == 0xF0 ==> 0x90 <= b)
    && (lead == 0xF4 ==> b <= 0x8F)
  }

  /** What stands at the front of a non-empty string. */
  datatype Head = Whole(n: nat) | Bad(n: nat) | Cut

  function HeadOf(s: seq<Byte>): (h: Head)
    requires s != []
    ensures h.Whole? ==> h.n == Need(s[0]) && 0 < h.n <= |s|
    ensures h.Bad? ==> 0 < h.n <= |s| && (Need(s[0]) > 0 ==> h.n < |s| && h.n < Need(s[0]))
    ensures h.Cut? ==> |s| < Need(s[0])
  {
    var need := Need(s[0]);
    if need == 0 then Bad(1)
    else if need == 1 then Whole(1)
    else if |s| < 2 then Cut
    else if !SecondOk(s[0], s[1]) then Bad(1)
    else if need == 2 then Whole(2)
    else if |s| < 3 then Cut
    else if !Tail(s[2]) then Bad(2)
    else if need == 3 then Whole(3)
    else if |s| < 4 then Cut
    else if !Tail(s[3]) then Bad(3)
    else Whole(4)
  }

  datatype Check = Valid | Error(validUpTo: nat, errorLen: Option<nat>)

  function Later(c: Check, n: nat): Check {
    if c.Valid? then Valid else Error(c.validUpTo + n, c.errorLen)
  }

  function FromUtf8(s: seq<Byte>): (c: Check)
    ensures c.Error? ==> c.validUpTo < |s|
    ensures c.Error? && c.errorLen.Some? ==> 0 < c.errorLen.value <= |s| - c.validUpTo
  {
    if s == [] then Valid
    else
      match HeadOf(s)
      case Whole(n) => Later(FromUtf8(s[n..]), n)
      case Bad(n) => Error(0, Some(n))
      case Cut => Error(0, None)
  }

  predicate WellFormed(s: seq<Byte>) {
    FromUtf8(s).Valid?
  }

  /** The payload bits of a byte whose marker bits are `mark`. */
  function Payload(b: Byte, mark: int): int {
    b - mark
  }

  lemma CheckStep(s: seq<Byte>, n: nat)
    requires s != [] && HeadOf(s) == Whole(n)
    ensures FromUtf8(s) == Later(FromUtf8(s[n..]), n)
  {
    hide HeadOf;
  }

  lemma Unfold(s: seq<Byte>)
    requires WellFormed(s) && s != []
    ensures HeadOf(s).Whole? && WellFormed(s[HeadOf(s).n..])
  {
  }

  /** The scalar value of one whole sequence. */
  function Scalar(s: seq<Byte>): int
    requires s != [] && HeadOf(s).Whole?
  {
    var need := Need(s[0]);
    if need == 1 then s[0]
    else if need == 2 then Payload(s[0], 0xC0) * 0x40 + Payload(s[1], 0x80)
    else if need == 3 then Payload(s[0], 0xE0) * 0x1000 + Payload(s[1], 0x80) * 0x40 + Payload(s[2], 0x80)
    else Payload(s[0], 0xF0) * 0x40000 + Payload(s[1], 0x80) * 0x1000 + Payload(s[2], 0x80) * 0x40 + Payload(s[3], 0x80)
  }

  /** One-shot decoding of well-formed bytes. */
  function Decode(s: seq<Byte>): seq<int>
    requires WellFormed(s)
  {
    if s == [] then [] else [Scalar(s)] + Decode(s[HeadOf(s).n..])
  }

  lemma DecodeStep(s: seq<Byte>, n: nat, c: int, rest: seq<int>)
    requires WellFormed(s) && s != [] && HeadOf(s) == Whole(n) && Scalar(s) == c
    requires WellFormed(s[n..]) && Decode(s[n..]) == rest
    ensures Decode(s) == [c] + rest
  {
  }

  // ---------------- The encoder, and that Decode inverts it ----------------

  predicate IsScalar(c: int) {
    0 <= c <= 0x10FFFF && !(0xD800 <= c <= 0xDFFF)
  }

  /** Section 3 of RFC 3629. */
  function EncodeScalar(c: int): (s: seq<Byte>)
    requires IsScalar(c)
    ensures s != []
  {
    if c <= 0x7F then [c]
    else if c <= 0x7FF then [0xC0 + c / 0x40, 0x80 + c % 0x40]
    else if c <= 0xFFFF then [0xE0 + c / 0x40 / 0x40, 0x80 + c / 0x40 % 0x40, 0x80 + c % 0x40]
    else [0xF0 + c / 0x40 / 0x40 / 0x40, 0x80 + c / 0x40 / 0x40 % 0x40, 0x80 + c / 0x40 % 0x40, 0x80 + c % 0x40]
  }

  function Encode(cs: seq<int>): seq<Byte>
    requires forall i :: 0 <= i < |cs| ==> IsScalar(cs[i])
  {
    if cs == [] then [] else EncodeScalar(cs[0]) + Encode(cs[1..])
  }

  lemma HeadOfEncoded(c: int, rest: seq<Byte>)
    requires IsScalar(c)
    ensures HeadOf(EncodeScalar(c) + rest) == Whole(|EncodeScalar(c)|)
    ensures Scalar(EncodeScalar(c) + rest) == c
  {
    var e := EncodeScalar(c);
    var s := e + rest;
    assert s[0] == e[0];
    if c > 0x7F {
      assert s[1] == e[1];
      if c > 0x7FF {
        assert s[2] == e[2];
        if c > 0xFFFF {
          assert s[3] == e[3];
          EncodedFour(c);
        } else {
          EncodedThree(c);
        }
      }
    }
  }

  lemma EncodedThree(c: int)
    requires IsScalar(c) && 0x7FF < c <= 0xFFFF
    ensures var e := EncodeScalar(c); HeadOf(e) == Whole(3) && Scalar(e) == c
  {
    var q, lo := c / 0x40, c % 0x40;
    var hi, mid := q / 0x40, q % 0x40;
    assert c == q * 0x40 + lo && q == hi * 0x40 + mid;
    assert hi == 0 ==> 0x20 <= mid;
    assert hi == 0xD ==> mid <= 0x1F;
    var e := EncodeScalar(c);
    assert e == [0xE0 + hi, 0x80 + mid, 0x80 + lo];
  }

  lemma EncodedFour(c: int)
    requires IsScalar(c) && 0xFFFF < c
    ensures var e := EncodeScalar(c); HeadOf(e) == Whole(4) && Scalar(e) == c
  {
    var q, lo := c / 0x40, c % 0x40;
    var p, mid := q / 0x40, q % 0x40;
    var top, hi := p / 0x40, p % 0x40;
    assert c == q * 0x40 + lo && q == p * 0x40 + mid && p == top * 0x40 + hi;
    assert top == 0 ==> 0x10 <= hi;
    assert top == 4 ==> hi <= 0xF;
    var e := EncodeScalar(c);
    assert e == [0xF0 + top, 0x80 + hi, 0x80 + mid, 0x80 + lo];
  }

  lemma {:induction false} DecodeEncode(cs: seq<int>)
    requires forall i :: 0 <= i < |cs| ==> IsScalar(cs[i])
    ensures WellFormed(Encode(cs)) && Decode(Encode(cs)) == cs
  {
    hide HeadOf, Scalar, EncodeScalar;
    if cs != [] {
      DecodeEncode(cs[1..]);
      var e, rest := EncodeScalar(cs[0]), Encode(cs[1..]);
      HeadOfEncoded(cs[0], rest);
      assert (e + rest)[|e|..] == rest;
    }
  }

  /** Splitting off the low six bits undoes putting them on. */
  lemma SixBits(hi: int, lo: int)
    requires 0 <= hi && 0 <= lo < 0x40
    ensures (hi * 0x40 + lo) / 0x40 == hi && (hi * 0x40 + lo) % 0x40 == lo
  {
  }

  lemma EncodeHead(s: seq<Byte>)
    requires s != [] && HeadOf(s).Whole?
    ensures IsScalar(Scalar(s)) && EncodeScalar(Scalar(s)) == s[..HeadOf(s).n]
  {
    var need := Need(s[0]);
    if need == 2 {
      SixBits(Payload(s[0], 0xC0), Payload(s[1], 0x80));
    } else if need == 3 {
      var hi := Payload(s[0], 0xE0) * 0x40 + Payload(s[1], 0x80);
      SixBits(Payload(s[0], 0xE0), Payload(s[1], 0x80));
      SixBits(hi, Payload(s[2], 0x80));
      assert Scalar(s) == hi * 0x40 + Payload(s[2], 0x80);
    } else if need == 4 {
      EncodeHeadFour(s);
    }
  }

  lemma EncodeHeadFour(s: seq<Byte>)
    requires s != [] && HeadOf(s) == Whole(4)
    ensures IsScalar(Scalar(s)) && EncodeScalar(Scalar(s)) == s[..4]
  {
    var hi := Payload(s[0], 0xF0) * 0x40 + Payload(s[1], 0x80);
    var mid := hi * 0x40 + Payload(s[2], 0x80);
    SixBits(Payload(s[0], 0xF0), Payload(s[1], 0x80));
    SixBits(hi, Payload(s[2], 0x80));
    SixBits(mid, Payload(s[3], 0x80));
    assert Scalar(s) == mid * 0x40 + Payload(s[3], 0x80);
  }

  lemma EncodeCons(c: int, cs: seq<int>)
    requires IsScalar(c) && forall i :: 0 <= i < |cs| ==> IsScalar(cs[i])
    ensures forall i :: 0 <= i < |[c] + cs| ==> IsScalar(([c] + cs)[i])
    ensures Encode([c] + cs) == EncodeScalar(c) + Encode(cs)
  {
    assert ([c] + cs)[1..] == cs;
  }

  /** Well-formed bytes are exactly the encodings, and Decode gives the scalars back. */
  lemma {:induction false} EncodeDecode(s: seq<Byte>)
    requires WellFormed(s)
    ensures forall i :: 0 <= i < |Decode(s)| ==> IsScalar(Decode(s)[i])
    ensures Encode(Decode(s)) == s
  {
    hide HeadOf, Scalar, EncodeScalar;
    if s != [] {
      Unfold(s);
      var n := HeadOf(s).n;
      EncodeDecode(s[n..]);
      EncodeHead(s);
      var c, rest := Scalar(s), Decode(s[n..]);
      DecodeStep(s, n, c, rest);
      EncodeCons(c, rest);
      assert s == s[..n] + s[n..];
    }
  }

  // ---------------- Cutting and joining ----------------

  /** Adding bytes behind a decided head does not change it. */
  lemma HeadStable(s: seq<Byte>, t: seq<Byte>)
    requires s != [] && !HeadOf(s).Cut?
    ensures HeadOf(s + t) == HeadOf(s)
    ensures HeadOf(s).Whole? ==> Scalar(s + t) == Scalar(s)
  {
    assert forall i :: 0 <= i < |s| ==> (s + t)[i] == s[i];
  }

  lemma {:induction false} ConcatCheck(s: seq<Byte>, t: seq<Byte>)
    requires WellFormed(s)
    ensures FromUtf8(s + t) == Later(FromUtf8(t), |s|)
  {
    hide HeadOf, Scalar, FromUtf8;
    if s == [] {
      assert s + t == t;
    } else {
      Unfold(s);
      var n := HeadOf(s).n;
      HeadStable(s, t);
      ConcatCheck(s[n..], t);
      assert (s + t)[n..] == s[n..] + t;
      CheckStep(s + t, n);
    }
  }

  lemma {:induction false} EncodeConcat(a: seq<int>, b: seq<int>)
    requires forall i :: 0 <= i < |a| ==> IsScalar(a[i])
    requires forall i :: 0 <= i < |b| ==> IsScalar(b[i])
    ensures forall i :: 0 <= i < |a + b| ==> IsScalar((a + b)[i])
    ensures Encode(a + b) == Encode(a) + Encode(b)
  {
    hide EncodeScalar;
    if a == [] {
      assert a + b == b;
    } else {
      EncodeConcat(a[1..], b);
      assert (a + b)[1..] == a[1..] + b;
    }
  }

  lemma ConcatDecode(s: seq<Byte>, t: seq<Byte>)
    requires WellFormed(s) && WellFormed(t)
    ensures WellFormed(s + t) && Decode(s + t) == Decode(s) + Decode(t)
  {
    EncodeDecode(s);
    EncodeDecode(t);
    EncodeConcat(Decode(s), Decode(t));
    DecodeEncode(Decode(s) + Decode(t));
  }

  /** The part before the reported error is well-formed. */
  lemma {:induction false} ValidPrefix(s: seq<Byte>)
    requires FromUtf8(s).Error?
    ensures var v := FromUtf8(s).validUpTo;
            WellFormed(s[..v]) && FromUtf8(s[v..]) == Error(0, FromUtf8(s).errorLen)
  {
    hide HeadOf, Scalar, FromUtf8;
    var v := FromUtf8(s).validUpTo;
    if HeadOf(s).Whole? {
      var n := HeadOf(s).n;
      var rest := s[n..];
      CheckStep(s, n);
      ValidPrefix(rest);
      HeadStableTake(s, v);
      var front := s[..v];
      assert front[n..] == rest[..v - n];
      CheckStep(front, n);
      assert s[v..] == rest[v - n..];
    } else {
      FirstError(s);
      EmptyValid(s[..0]);
      assert s[0..] == s;
    }
  }

  lemma EmptyValid(s: seq<Byte>)
    requires s == []
    ensures WellFormed(s)
  {
  }

  lemma FirstError(s: seq<Byte>)
    requires s != [] && !HeadOf(s).Whole?
    ensures FromUtf8(s) == Error(0, if HeadOf(s).Bad? then Some(HeadOf(s).n) else None)
  {
    hide HeadOf;
  }

  lemma HeadStableTake(s: seq<Byte>, v: nat)
    requires s != [] && HeadOf(s).Whole? && HeadOf(s).n <= v <= |s|
    ensures s[..v] != [] && HeadOf(s[..v]) == HeadOf(s)
  {
    assert forall i :: 0 <= i < v ==> s[..v][i] == s[i];
  }

  // ---------------- How much of a malformed front is replaced ----------------

  /** Some character's encoding begins like this. */
  ghost predicate Completable(p: seq<Byte>) {
    exists c :: IsScalar(c) && p <= EncodeScalar(c)
  }

  /** The least second byte behind a lead byte. */
  function LeastSecond(lead: Byte): Byte {
    if lead == 0xE0 then 0xA0 else if lead == 0xF0 then 0x90 else 0x80
  }

  lemma WholeCompletes(p: seq<Byte>, full: seq<Byte>)
    requires p <= full && full != [] && HeadOf(full) == Whole(|full|)
    ensures Completable(p)
  {
    EncodeHead(full);
    assert full[..|full|] == full;
    assert p <= EncodeScalar(Scalar(full));
  }

  lemma CutCompletes(p: seq<Byte>)
    requires p != [] && HeadOf(p).Cut?
    ensures Completable(p)
  {
    var need := Need(p[0]);
    var two := if |p| == 1 then p + [LeastSecond(p[0])] else p;
    var three := if need >= 3 && |two| == 2 then two + [0x80] else two;
    var full := if need == 4 && |three| == 3 then three + [0x80] else three;
    assert p <= two && two <= three && three <= full && |full| == need;
    assert HeadOf(full) == Whole(need);
    WholeCompletes(p, full);
  }

  lemma BadRefuses(p: seq<Byte>)
    requires p != [] && HeadOf(p).Bad?
    ensures !Completable(p)
  {
    hide HeadOf, EncodeScalar;
    forall c | IsScalar(c) && p <= EncodeScalar(c) ensures false {
      var rest := EncodeScalar(c)[|p|..];
      assert p + rest == EncodeScalar(c) == EncodeScalar(c) + [];
      HeadStable(p, rest);
      HeadOfEncoded(c, []);
    }
  }

  lemma BadFronts(s: seq<Byte>, k: nat)
    requires s != [] && HeadOf(s).Bad? && 0 < k <= |s|
    ensures Need(s[0]) == 0 ==> HeadOf(s) == Bad(1) && HeadOf(s[..k]).Bad?
    ensures Need(s[0]) > 0 ==> (k <= HeadOf(s).n <==> HeadOf(s[..k]).Cut?) && !HeadOf(s[..k]).Whole?
  {
    assert forall i :: 0 <= i < k ==> s[..k][i] == s[i];
  }

  /** A malformed front is replaced as far as it could still have become a character, and
      by one byte at least. */
  lemma BadExactly(s: seq<Byte>, k: nat)
    requires s != [] && HeadOf(s).Bad? && 0 < k <= |s|
    ensures Completable(s[..1]) ==> (Completable(s[..k]) <==> k <= HeadOf(s).n)
    ensures !Completable(s[..1]) ==> HeadOf(s).n == 1
  {
    hide HeadOf, Completable;
    BadFronts(s, 1);
    BadFronts(s, k);
    var one, front := s[..1], s[..k];
    if HeadOf(one).Bad? { BadRefuses(one); } else { CutCompletes(one); }
    if HeadOf(front).Bad? { BadRefuses(front); } else { CutCompletes(front); }
  }

  /** What is cut could have become a character; what is whole is one. */
  lemma HeadMeans(s: seq<Byte>)
    requires s != []
    ensures HeadOf(s).Cut? ==> Completable(s)
    ensures HeadOf(s).Whole? ==> IsScalar(Scalar(s)) && EncodeScalar(Scalar(s)) == s[..HeadOf(s).n]
    ensures HeadOf(s).Bad? ==> !Completable(s)
  {
    hide HeadOf, Completable;
    if HeadOf(s).Cut? {
      CutCompletes(s);
    } else if HeadOf(s).Whole? {
      EncodeHead(s);
    } else {
      BadRefuses(s);
    }
  }
}
