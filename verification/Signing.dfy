/** Request and response signing between panel and agent. SHA-256 and HMAC are
    parameters: `sha` gives the lower-case hex digest, `mac` the raw tag. */
module Signing {
  import opened Bytes
  import opened Utf8
  import opened Envelope

  const MAX_CLOCK_SKEW_SECS: int := 90
  const I64_MIN: int := -0x8000_0000_0000_0000
  const I64_MAX: int := 0x7FFF_FFFF_FFFF_FFFF

  type I64 = x: int | I64_MIN <= x <= I64_MAX

  // ---------------- Decimal numbers ----------------

  function Digits(n: nat): (s: seq<Byte>)
    ensures s != [] && forall i :: 0 <= i < |s| ==> 48 <= s[i] <= 57
  {
    if n < 10 then [48 + n] else Digits(n / 10) + [48 + n % 10]
  }

  /** How an integer is formatted. */
  function Decimal(n: int): (s: seq<Byte>)
    ensures NEWLINE !in s
  {
    if n < 0 then [45] + Digits(-n) else Digits(n)
  }

  function ReadDigits(s: seq<Byte>): int {
    if s == [] then 0 else 10 * ReadDigits(s[..|s| - 1]) + Value(s[|s| - 1])
  }

  function Value(b: Byte): int { b - 48 }

  lemma {:induction false} ReadBack(n: nat)
    ensures ReadDigits(Digits(n)) == n
  {
    if n < 10 {
      assert [48 + n][..0] == [];
    } else {
      ReadBack(n / 10);
      var s := Digits(n / 10) + [48 + n % 10];
      assert s[..|s| - 1] == Digits(n / 10);
    }
  }

  function ReadDecimal(s: seq<Byte>): int {
    if s != [] && s[0] == 45 then -ReadDigits(s[1..]) else ReadDigits(s)
  }

  lemma ReadDecimalBack(n: int)
    ensures ReadDecimal(Decimal(n)) == n
  {
    if n < 0 {
      ReadBack(-n);
      assert Decimal(n)[1..] == Digits(-n);
    } else {
      ReadBack(n);
      assert 48 <= Digits(n)[0];
    }
  }

  lemma DecimalInjective(m: int, n: int)
    requires Decimal(m) == Decimal(n)
    ensures m == n
  {
    ReadDecimalBack(m);
    ReadDecimalBack(n);
  }

  // ---------------- The canonical string ----------------

  function UpperByte(b: Byte): Byte {
    if 97 <= b <= 122 then b - 32 else b
  }

  /** `to_ascii_uppercase` */
  function Upper(s: seq<Byte>): (r: seq<Byte>)
    ensures |r| == |s|
    ensures NEWLINE !in s ==> NEWLINE !in r
  {
    if s == [] then [] else [UpperByte(s[0])] + Upper(s[1..])
  }

  predicate Letter(b: Byte) {
    65 <= b <= 90 || 97 <= b <= 122
  }

  /** Equal but for the case of ASCII letters. */
  ghost predicate EqualButCase(a: seq<Byte>, b: seq<Byte>) {
    && |a| == |b|
    && forall i :: 0 <= i < |a| ==> SameLetter(a[i], b[i])
  }

  predicate SameLetter(a: Byte, b: Byte) {
    a == b || (Letter(a) && Letter(b) && (a == b + 32 || b == a + 32))
  }

  lemma {:induction false} UpperAt(s: seq<Byte>, i: nat)
    requires i < |s|
    ensures Upper(s)[i] == UpperByte(s[i])
  {
    if i > 0 { UpperAt(s[1..], i - 1); }
  }

  lemma UpperSame(a: Byte, b: Byte)
    ensures UpperByte(a) == UpperByte(b) <==> SameLetter(a, b)
  {
  }

  /** Methods are told apart up to case and no further. */
  lemma UpperExactly(a: seq<Byte>, b: seq<Byte>)
    ensures Upper(a) == Upper(b) <==> EqualButCase(a, b)
  {
    hide Upper, UpperByte, SameLetter;
    if |a| == |b| {
      forall i | 0 <= i < |a| ensures Upper(a)[i] == Upper(b)[i] <==> SameLetter(a[i], b[i]) {
        UpperAt(a, i);
        UpperAt(b, i);
        UpperSame(a[i], b[i]);
      }
    }
  }

  /** What is signed: for a request `number` is the timestamp, for a response the status. */
  function Canonical(
    node: seq<Byte>, method_: seq<Byte>, path: seq<Byte>, number: int, nonce: seq<Byte>, hash: seq<Byte>): seq<Byte>
  {
    node + [NEWLINE] + (Upper(method_) + [NEWLINE] + (path + [NEWLINE] + (Decimal(number) + [NEWLINE] + (nonce + [NEWLINE] + hash))))
  }

  /** The first line is determined. */
  lemma FirstLine(a: seq<Byte>, r: seq<Byte>, b: seq<Byte>, q: seq<Byte>)
    requires NEWLINE !in a && NEWLINE !in b
    requires a + [NEWLINE] + r == b + [NEWLINE] + q
    ensures a == b && r == q
  {
    SplitFirstLine(a, r);
    SplitFirstLine(b, q);
    var s := a + [NEWLINE] + r;
    assert a == SplitLines(s)[0] == b;
    assert r == s[|a| + 1..] == q;
  }

  // Counting newlines: a string with exactly the five separators has no other line break.

  function Newlines(s: seq<Byte>): nat {
    if s == [] then 0 else (if s[0] == NEWLINE then 1 else 0) + Newlines(s[1..])
  }

  lemma {:induction false} NewlinesConcat(a: seq<Byte>, b: seq<Byte>)
    ensures Newlines(a + b) == Newlines(a) + Newlines(b)
  {
    if a == [] {
      assert a + b == b;
    } else {
      assert (a + b)[1..] == a[1..] + b;
      NewlinesConcat(a[1..], b);
    }
  }

  lemma {:induction false} NoNewlines(s: seq<Byte>)
    ensures Newlines(s) == 0 <==> NEWLINE !in s
  {
    if s != [] { NoNewlines(s[1..]); }
  }

  lemma {:induction false} UpperNewlines(s: seq<Byte>)
    ensures Newlines(Upper(s)) == Newlines(s)
  {
    if s != [] {
      UpperNewlines(s[1..]);
      assert Upper(s)[1..] == Upper(s[1..]);
    }
  }

  lemma LineNewlines(a: seq<Byte>, rest: seq<Byte>)
    ensures Newlines(a + [NEWLINE] + rest) == Newlines(a) + 1 + Newlines(rest)
  {
    var line: seq<Byte> := [NEWLINE];
    NewlinesConcat(a + line, rest);
    NewlinesConcat(a, line);
    assert line[1..] == [];
  }

  lemma TextNewlines(f: Fields)
    ensures Newlines(f.Text()) == 5 + Newlines(f.node) + Newlines(f.method_) + Newlines(f.path) + Newlines(f.nonce) + Newlines(f.hash)
  {
    hide Newlines, Decimal, Upper;
    var f5 := f.nonce + [NEWLINE] + f.hash;
    var f4 := Decimal(f.number) + [NEWLINE] + f5;
    var f3 := f.path + [NEWLINE] + f4;
    var f2 := Upper(f.method_) + [NEWLINE] + f3;
    LineNewlines(f.nonce, f.hash);
    LineNewlines(Decimal(f.number), f5);
    NoNewlines(Decimal(f.number));
    LineNewlines(f.path, f4);
    LineNewlines(Upper(f.method_), f3);
    UpperNewlines(f.method_);
    LineNewlines(f.node, f2);
  }

  /** A text of one-line fields and a one-line hash has no reading with a line break. */
  lemma OneLineForced(f: Fields, g: Fields)
    requires f.OneLine() && NEWLINE !in f.hash && f.Text() == g.Text()
    ensures g.OneLine()
  {
    hide Newlines, Canonical;
    TextNewlines(f);
    TextNewlines(g);
    NoNewlines(f.node); NoNewlines(f.method_); NoNewlines(f.path); NoNewlines(f.nonce); NoNewlines(f.hash);
    NoNewlines(g.node); NoNewlines(g.method_); NoNewlines(g.path); NoNewlines(g.nonce);
  }

  datatype Fields = Fields(
    node: seq<Byte>, method_: seq<Byte>, path: seq<Byte>, number: int, nonce: seq<Byte>, hash: seq<Byte>)
  {
    function Text(): seq<Byte> {
      Canonical(node, method_, path, number, nonce, hash)
    }

    predicate OneLine() {
      NEWLINE !in node && NEWLINE !in method_ && NEWLINE !in path && NEWLINE !in nonce
    }

    /** The same fields up to the ASCII case of the method. */
    predicate Same(other: Fields) {
      && node == other.node && Upper(method_) == Upper(other.method_) && path == other.path
      && number == other.number && nonce == other.nonce && hash == other.hash
    }
  }

  /** The canonical string determines its fields, up to the method's case. Of the two sets
      of fields only one need be known to be free of line breaks, if its hash is too. */
  lemma CanonicalInjective(f: Fields, g: Fields)
    requires f.OneLine() && (g.OneLine() || NEWLINE !in f.hash)
    ensures f.Text() == g.Text() <==> f.Same(g)
  {
    if f.Text() == g.Text() {
      if NEWLINE !in f.hash { OneLineForced(f, g); }
      SameFields(f, g);
    }
  }

  lemma SameFields(f: Fields, g: Fields)
    requires f.OneLine() && g.OneLine() && f.Text() == g.Text()
    ensures f.Same(g)
  {
    hide Decimal, Upper;
    var f5, g5 := f.nonce + [NEWLINE] + f.hash, g.nonce + [NEWLINE] + g.hash;
    var f4, g4 := Decimal(f.number) + [NEWLINE] + f5, Decimal(g.number) + [NEWLINE] + g5;
    var f3, g3 := f.path + [NEWLINE] + f4, g.path + [NEWLINE] + g4;
    var f2, g2 := Upper(f.method_) + [NEWLINE] + f3, Upper(g.method_) + [NEWLINE] + g3;
    FirstLine(f.node, f2, g.node, g2);
    FirstLine(Upper(f.method_), f3, Upper(g.method_), g3);
    FirstLine(f.path, f4, g.path, g4);
    FirstLine(Decimal(f.number), f5, Decimal(g.number), g5);
    FirstLine(f.nonce, f.hash, g.nonce, g.hash);
    DecimalInjective(f.number, g.number);
  }

  /** Without the one-line condition two different requests share a string. */
  lemma NewlineConfuses()
    ensures var f := Fields([97, 10, 66], [], [112], 0, [], []);
            var g := Fields([97], [66], [10, 112], 0, [], []);
            f.Text() == g.Text() && !f.Same(g)
  {
    var f := Fields([97, 10, 66], [], [112], 0, [], []);
    var g := Fields([97], [66], [10, 112], 0, [], []);
    assert Upper([66]) == [66] && Upper([]) == [];
    assert Decimal(0) == [48];
    assert f.Text() == [97, 10, 66, 10, 10, 112, 10, 48, 10, 10];
    assert g.Text() == [97, 10, 66, 10, 10, 112, 10, 48, 10, 10];
    assert |f.node| != |g.node|;
  }

  // ---------------- The clock window ----------------

  function SaturatingSub(a: I64, b: I64): I64 {
    if a - b > I64_MAX then I64_MAX else if a - b < I64_MIN then I64_MIN else a - b
  }

  function UnsignedAbs(x: int): nat {
    if x < 0 then -x else x
  }

  predicate Expired(now: I64, timestamp: I64) {
    UnsignedAbs(SaturatingSub(now, timestamp)) > MAX_CLOCK_SKEW_SECS
  }

  /** Saturation never changes the answer: the window is 90 seconds either way. */
  lemma WindowExact(now: I64, timestamp: I64)
    ensures !Expired(now, timestamp) <==> -90 <= now - timestamp <= 90
  {
  }

  /** No response string is the string of a request inside the window, once the clock is
      past the largest status. */
  lemma DirectionsApart(f: Fields, g: Fields, now: I64)
    requires g.OneLine() && (f.OneLine() || NEWLINE !in g.hash)
    requires I64_MIN <= f.number <= I64_MAX && !Expired(now, f.number)
    requires 0 <= g.number <= 0xFFFF
    requires now > 0xFFFF + 90
    ensures f.Text() != g.Text()
  {
    WindowExact(now, f.number);
    CanonicalInjective(g, f);
  }

  // ---------------- Hex ----------------

  function HexNibble(n: int): (b: Byte)
    requires 0 <= n < 16
    ensures HexDigit(b)
  {
    if n < 10 then 48 + n else 87 + n
  }

  function NibbleOf(b: Byte): int
    requires HexDigit(b)
  {
    if b <= 57 then b - 48 else if b <= 70 then b - 55 else b - 87
  }

  /** `hex::encode` */
  function HexEncode(bs: seq<Byte>): (s: seq<Byte>)
    ensures |s| == 2 * |bs| && forall i :: 0 <= i < |s| ==> HexDigit(s[i])
  {
    if bs == [] then []
    else
      var head, rest := [HexNibble(bs[0] / 16), HexNibble(bs[0] % 16)], HexEncode(bs[1..]);
      assert forall i :: 2 <= i < 2 + |rest| ==> (head + rest)[i] == rest[i - 2];
      head + rest
  }

  /** `hex::decode` */
  function HexDecode(s: seq<Byte>): Option<seq<Byte>> {
    if s == [] then Some([])
    else if |s| < 2 || !HexDigit(s[0]) || !HexDigit(s[1]) then None
    else
      var rest := HexDecode(s[2..]);
      if rest.None? then None else Some([16 * NibbleOf(s[0]) + NibbleOf(s[1])] + rest.value)
  }

  /** Every string of hex digits of even length decodes, in either case, to the bytes whose
      lower-case spelling it is; nothing else does. */
  lemma {:induction false} HexExactly(s: seq<Byte>)
    ensures HexDecode(s).Some? <==> |s| % 2 == 0 && forall i :: 0 <= i < |s| ==> HexDigit(s[i])
    ensures HexDecode(s).Some? ==> EqualButCase(s, HexEncode(HexDecode(s).value))
  {
    hide HexDigit, NibbleOf, HexNibble, SameLetter;
    if |s| >= 2 {
      var rest := s[2..];
      HexExactly(rest);
      if HexDecode(s).Some? {
        var e, e' := HexEncode(HexDecode(s).value), HexEncode(HexDecode(rest).value);
        var v := 16 * NibbleOf(s[0]) + NibbleOf(s[1]);
        assert HexDecode(s).value == [v] + HexDecode(rest).value && HexDecode(s).value[1..] == HexDecode(rest).value;
        NibbleSpelled(s[0]);
        NibbleSpelled(s[1]);
        assert e == [HexNibble(NibbleOf(s[0])), HexNibble(NibbleOf(s[1]))] + e';
        forall i | 0 <= i < |s| ensures SameLetter(s[i], e[i]) {
          if i >= 2 { assert s[i] == rest[i - 2] && e[i] == e'[i - 2]; }
        }
      } else if forall i :: 0 <= i < |s| ==> HexDigit(s[i]) {
        assert forall i :: 0 <= i < |rest| ==> rest[i] == s[i + 2];
      }
    }
  }

  lemma NibbleSpelled(b: Byte)
    requires HexDigit(b)
    ensures 0 <= NibbleOf(b) < 16 && SameLetter(b, HexNibble(NibbleOf(b)))
  {
  }

  lemma {:induction false} HexRoundTrip(bs: seq<Byte>)
    ensures HexDecode(HexEncode(bs)) == Some(bs)
  {
    if bs != [] {
      HexRoundTrip(bs[1..]);
      var s := HexEncode(bs);
      assert s[2..] == HexEncode(bs[1..]);
      assert s[0] == HexNibble(bs[0] / 16) && s[1] == HexNibble(bs[0] % 16);
      assert NibbleOf(s[0]) == bs[0] / 16 && NibbleOf(s[1]) == bs[0] % 16;
      assert bs == [bs[0]] + bs[1..];
    }
  }

  // ---------------- Requests ----------------

  type Mac = (seq<Byte>, seq<Byte>) -> seq<Byte>
  type Sha = seq<Byte> -> seq<Byte>

  datatype Headers = Headers(node: seq<Byte>, timestamp: I64, nonce: seq<Byte>, signature: seq<Byte>)

  datatype Verdict = Accepted | RequestExpired | BadNode | BadEncoding | Mismatch

  function Sign(mac: Mac, secret: seq<Byte>, f: Fields): seq<Byte> {
    HexEncode(mac(secret, f.Text()))
  }

  /** `verify_pending` then `complete_verify`; `isUuid` stands for the UUID parser. */
  function Verify(
    mac: Mac, isUuid: seq<Byte> -> bool, secret: seq<Byte>, method_: seq<Byte>, path: seq<Byte>, hash: seq<Byte>,
    h: Headers, now: I64): Verdict
  {
    if Expired(now, h.timestamp) then RequestExpired
    else if !isUuid(h.node) then BadNode
    else
      var tag := HexDecode(h.signature);
      if tag.None? then BadEncoding
      else if tag.value == mac(secret, Canonical(h.node, method_, path, h.timestamp, h.nonce, hash)) then Accepted
      else Mismatch
  }

  function Received(method_: seq<Byte>, path: seq<Byte>, hash: seq<Byte>, h: Headers): Fields {
    Fields(h.node, method_, path, h.timestamp, h.nonce, hash)
  }

  ghost predicate CollisionFree(mac: Mac, secret: seq<Byte>) {
    forall m, m' :: mac(secret, m) == mac(secret, m') ==> m == m'
  }

  /** The other answers, in the order they are looked for: outside the window, no proper node
      id, a tag that is not hex, and a tag that is not this request's. */
  lemma RefusedExactly(
    mac: Mac, isUuid: seq<Byte> -> bool, secret: seq<Byte>, method_: seq<Byte>, path: seq<Byte>, hash: seq<Byte>,
    h: Headers, now: I64)
    ensures var v := Verify(mac, isUuid, secret, method_, path, hash, h, now);
            var hex := |h.signature| % 2 == 0 && forall i :: 0 <= i < |h.signature| ==> HexDigit(h.signature[i]);
            && (v == RequestExpired <==> now - h.timestamp > 90 || h.timestamp - now > 90)
            && (v == BadNode <==> -90 <= now - h.timestamp <= 90 && !isUuid(h.node))
            && (v == BadEncoding <==> -90 <= now - h.timestamp <= 90 && isUuid(h.node) && !hex)
            && (v in {Accepted, Mismatch} <==> -90 <= now - h.timestamp <= 90 && isUuid(h.node) && hex)
  {
    hide Expired, HexDecode, HexDigit;
    WindowExact(now, h.timestamp);
    HexExactly(h.signature);
  }

  /** A signature made for one request is accepted with another exactly when that is the
      same request, still inside the window and from a proper node id. */
  lemma AcceptedExactly(
    mac: Mac, isUuid: seq<Byte> -> bool, secret: seq<Byte>, signed: Fields, method_: seq<Byte>, path: seq<Byte>,
    hash: seq<Byte>, h: Headers, now: I64)
    requires CollisionFree(mac, secret)
    requires h.signature == Sign(mac, secret, signed)
    requires signed.OneLine() && (Received(method_, path, hash, h).OneLine() || NEWLINE !in signed.hash)
    ensures Verify(mac, isUuid, secret, method_, path, hash, h, now) == Accepted <==>
            && -90 <= now - h.timestamp <= 90 && isUuid(h.node)
            && signed.Same(Received(method_, path, hash, h))
  {
    WindowExact(now, h.timestamp);
    HexRoundTrip(mac(secret, signed.Text()));
    CanonicalInjective(signed, Received(method_, path, hash, h));
  }

  /** A response's signature is never accepted as a request's. */
  lemma NoReflection(
    mac: Mac, isUuid: seq<Byte> -> bool, secret: seq<Byte>, response: Fields, method_: seq<Byte>, path: seq<Byte>,
    hash: seq<Byte>, h: Headers, now: I64)
    requires CollisionFree(mac, secret)
    requires h.signature == Sign(mac, secret, response) && 0 <= response.number <= 0xFFFF
    requires response.OneLine() && (Received(method_, path, hash, h).OneLine() || NEWLINE !in response.hash)
    requires now > 0xFFFF + 90
    ensures Verify(mac, isUuid, secret, method_, path, hash, h, now) != Accepted
  {
    AcceptedExactly(mac, isUuid, secret, response, method_, path, hash, h, now);
  }

  // ---------------- Responses ----------------

  datatype ResponseAuth = UnsignedResponse | Verified | Rejected

  function VerifyResponse(
    mac: Mac, sha: Sha, secret: seq<Byte>, method_: seq<Byte>, path: seq<Byte>, status: U16, nonce: seq<Byte>,
    raw: seq<Byte>, node: seq<Byte>): ResponseAuth
  {
    match SplitResponseSignature(raw, nonce)
    case Misaddressed => Rejected
    case Unsigned => UnsignedResponse
    case Signed(body, sig) =>
      var tag := HexDecode(sig);
      if tag.Some? && tag.value == mac(secret, Canonical(node, method_, path, status, nonce, sha(body))) then Verified
      else Rejected
  }

  /** What the agent sends: the envelope with its closing brace replaced. */
  function AppendSignature(body: seq<Byte>, sig: seq<Byte>, nonce: seq<Byte>): seq<Byte>
    requires |body| > 0
  {
    body[..|body| - 1] + Block(sig, nonce)
  }

  /** A first character of several ends before a last ASCII byte. */
  lemma AsciiNotInside(t: seq<Byte>)
    requires |t| > 1 && HeadOf(t).Whole? && t[|t| - 1] <= 0x7F
    ensures HeadOf(t).n < |t|
  {
  }

  /** Taking a final ASCII byte off valid text leaves valid text. */
  lemma {:induction false} DropAscii(s: seq<Byte>, b: Byte)
    requires WellFormed(s + [b]) && b <= 0x7F
    ensures WellFormed(s)
    decreases |s|
  {
    hide HeadOf, FromUtf8, Scalar;
    if s == [] {
      EmptyValid(s);
    } else {
      var t := s + [b];
      Unfold(t);
      var n := HeadOf(t).n;
      AsciiNotInside(t);
      assert t[n..] == s[n..] + [b];
      DropAscii(s[n..], b);
      HeadStableTake(t, |s|);
      assert t[..|s|] == s;
      CheckStep(s, n);
    }
  }

  lemma BlockWellFormed(sig: seq<Byte>, nonce: seq<Byte>)
    requires Hex64(sig) && WellFormed(nonce)
    ensures WellFormed(Block(sig, nonce))
  {
    hide WellFormed;
    var a := MARKER + sig + NONCE_OPEN;
    forall i | 0 <= i < |a| ensures a[i] <= 0x7F {
      if 14 <= i < 78 { assert a[i] == sig[i - 14] && HexDigit(sig[i - 14]); }
    }
    AsciiWellFormed(a);
    AsciiWellFormed(CLOSE);
    ConcatDecode(a, nonce);
    ConcatDecode(a + nonce, CLOSE);
    assert Block(sig, nonce) == a + nonce + CLOSE;
  }

  /** What the agent signs, the panel verifies: any valid envelope, even one whose
      payload contains the marker, under the nonce of the request. */
  lemma SignedResponseVerifies(
    mac: Mac, sha: Sha, secret: seq<Byte>, method_: seq<Byte>, path: seq<Byte>, status: U16, nonce: seq<Byte>,
    body: seq<Byte>, node: seq<Byte>)
    requires WellFormed(body) && |body| > 0 && body[|body| - 1] == BRACE
    requires WellFormed(nonce) && QUOTE !in nonce
    requires |mac(secret, Canonical(node, method_, path, status, nonce, sha(body)))| == 32
    ensures var sig := Sign(mac, secret, Fields(node, method_, path, status, nonce, sha(body)));
            VerifyResponse(mac, sha, secret, method_, path, status, nonce, AppendSignature(body, sig, nonce), node) == Verified
  {
    hide WellFormed, SplitResponseSignature, Canonical, Block;
    var tag := mac(secret, Canonical(node, method_, path, status, nonce, sha(body)));
    var sig := HexEncode(tag);
    var front := body[..|body| - 1];
    assert body == front + [BRACE];
    DropAscii(front, BRACE);
    BlockWellFormed(sig, nonce);
    ConcatDecode(front, Block(sig, nonce));
    HexRoundTrip(tag);
    SignedExactly(AppendSignature(body, sig, nonce), nonce, body, sig);
  }

  /** And whatever the panel verifies is a body the tag was computed over: the bytes in
      front of the one tail block plus the brace, under this request's fields. */
  lemma VerifiedExactly(
    mac: Mac, sha: Sha, secret: seq<Byte>, method_: seq<Byte>, path: seq<Byte>, status: U16, nonce: seq<Byte>,
    raw: seq<Byte>, node: seq<Byte>)
    ensures VerifyResponse(mac, sha, secret, method_, path, status, nonce, raw, node) == Verified <==>
            WellFormed(raw) && exists front, sig ::
              && EndsInBlock(raw, front, sig, nonce)
              && HexDecode(sig) == Some(mac(secret, Canonical(node, method_, path, status, nonce, sha(front + [BRACE]))))
  {
    hide WellFormed, Canonical, Block, HexDecode, SplitResponseSignature;
    if VerifyResponse(mac, sha, secret, method_, path, status, nonce, raw, node) == Verified {
      var s := SplitResponseSignature(raw, nonce);
      SignedExactly(raw, nonce, s.body, s.sig);
      var front := s.body[..|s.body| - 1];
      assert front + [BRACE] == s.body;
      assert EndsInBlock(raw, front, s.sig, nonce);
    }
    if WellFormed(raw) {
      forall front, sig | EndsInBlock(raw, front, sig, nonce)
        ensures SplitResponseSignature(raw, nonce) == Signed(front + [BRACE], sig)
      {
        SplitOfBlock(raw, nonce, front, sig, nonce);
      }
    }
  }

  /** Whether a response counts as unsigned is decided by its tail alone: it is not text, or
      it ends in no block at all. Nobody's signature, right or wrong, comes out unsigned. */
  lemma UnsignedExactly(
    mac: Mac, sha: Sha, secret: seq<Byte>, method_: seq<Byte>, path: seq<Byte>, status: U16, nonce: seq<Byte>,
    raw: seq<Byte>, node: seq<Byte>)
    ensures VerifyResponse(mac, sha, secret, method_, path, status, nonce, raw, node) == UnsignedResponse <==>
            !WellFormed(raw) || forall front, sig, n :: !EndsInBlock(raw, front, sig, n)
  {
    hide SplitResponseSignature, WellFormed, EndsInBlock;
    if !SplitResponseSignature(raw, nonce).Unsigned? {
      var front, sig, n := SplitFindsBlock(raw, nonce);
    } else if WellFormed(raw) {
      forall front, sig, n ensures !EndsInBlock(raw, front, sig, n) {
        if EndsInBlock(raw, front, sig, n) { SplitOfBlock(raw, nonce, front, sig, n); }
      }
    }
  }

  /** The tag in the tail block is not that of the body in front of it. */
  ghost predicate BadTag(
    mac: Mac, sha: Sha, secret: seq<Byte>, method_: seq<Byte>, path: seq<Byte>, status: U16, nonce: seq<Byte>,
    node: seq<Byte>, front: seq<Byte>, sig: seq<Byte>)
  {
    HexDecode(sig) != Some(mac(secret, Canonical(node, method_, path, status, nonce, sha(front + [BRACE]))))
  }

  /** A response is refused exactly when it ends in a block for another nonce, or in one for
      this nonce whose tag is wrong. */
  lemma RejectedExactly(
    mac: Mac, sha: Sha, secret: seq<Byte>, method_: seq<Byte>, path: seq<Byte>, status: U16, nonce: seq<Byte>,
    raw: seq<Byte>, node: seq<Byte>)
    ensures VerifyResponse(mac, sha, secret, method_, path, status, nonce, raw, node) == Rejected <==>
            WellFormed(raw) && exists front, sig, n ::
              && EndsInBlock(raw, front, sig, n)
              && (n != nonce || BadTag(mac, sha, secret, method_, path, status, nonce, node, front, sig))
  {
    hide SplitResponseSignature, WellFormed, EndsInBlock, Canonical, HexDecode;
    if !SplitResponseSignature(raw, nonce).Unsigned? {
      var front, sig, n := SplitFindsBlock(raw, nonce);
      SplitOfBlock(raw, nonce, front, sig, n);
      forall f, s, m | EndsInBlock(raw, f, s, m) ensures f == front && s == sig && m == n {
        BlockUnique(raw, f, s, m, front, sig, n);
      }
    } else if WellFormed(raw) {
      forall front, sig, n ensures !EndsInBlock(raw, front, sig, n) {
        if EndsInBlock(raw, front, sig, n) { SplitOfBlock(raw, nonce, front, sig, n); }
      }
    }
  }
}
