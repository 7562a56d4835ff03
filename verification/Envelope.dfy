/** The signature block at the tail of a response envelope, and the fixed-length footer
    of a streamed response. Both are text surgery on bytes. */
module Envelope {
  import opened Bytes
  import opened Utf8

  const QUOTE: Byte := 34
  const BRACE: Byte := 125
  const NEWLINE: Byte := 10

  /** `,"signature":"` */
  const MARKER: seq<Byte> := [44, 34, 115, 105, 103, 110, 97, 116, 117, 114, 101, 34, 58, 34]

  /** `","nonce":"` */
  const NONCE_OPEN: seq<Byte> := [34, 44, 34, 110, 111, 110, 99, 101, 34, 58, 34]

  /** `"}` */
  const CLOSE: seq<Byte> := [34, 125]

  predicate HexDigit(b: Byte) {
    48 <= b <= 57 || 65 <= b <= 70 || 97 <= b <= 102
  }

  predicate Hex64(s: seq<Byte>) {
    |s| == 64 && forall i :: 0 <= i < |s| ==> HexDigit(s[i])
  }

  /** What the agent puts in place of an envelope's closing brace. */
  function Block(sig: seq<Byte>, nonce: seq<Byte>): seq<Byte> {
    MARKER + sig + NONCE_OPEN + nonce + CLOSE
  }

  // ---------------- The string operations used ----------------

  predicate OccursAt(s: seq<Byte>, pat: seq<Byte>, i: int) {
    0 <= i <= |s| - |pat| && s[i..i + |pat|] == pat
  }

  /** `str::rfind`, looking no further right than `from`. */
  function RfindFrom(s: seq<Byte>, pat: seq<Byte>, from: nat): (r: Option<nat>)
    ensures r.Some? ==> OccursAt(s, pat, r.value) && r.value <= from
    ensures r.Some? ==> forall j :: r.value < j <= from ==> !OccursAt(s, pat, j)
    ensures r.None? ==> forall j :: 0 <= j <= from ==> !OccursAt(s, pat, j)
    decreases from
  {
    if OccursAt(s, pat, from) then Some(from)
    else if from == 0 then None
    else RfindFrom(s, pat, from - 1)
  }

  function Rfind(s: seq<Byte>, pat: seq<Byte>): (r: Option<nat>)
    ensures r.Some? ==> OccursAt(s, pat, r.value) && forall j :: r.value < j ==> !OccursAt(s, pat, j)
    ensures r.None? ==> forall j :: !OccursAt(s, pat, j)
  {
    RfindFrom(s, pat, |s|)
  }

  /** `str::find` of one byte. */
  function Find(s: seq<Byte>, b: Byte): (r: Option<nat>)
    ensures r.Some? ==> r.value < |s| && s[r.value] == b && b !in s[..r.value]
    ensures r.None? ==> b !in s
  {
    if s == [] then None
    else if s[0] == b then Some(0)
    else
      var r := Find(s[1..], b);
      assert s == [s[0]] + s[1..];
      if r.None? then None
      else
        assert s[..r.value + 1] == [s[0]] + s[1..][..r.value];
        Some(r.value + 1)
  }

  predicate CharBoundary(s: seq<Byte>, i: int) {
    i == 0 || i == |s| || (0 < i < |s| && !Tail(s[i]))
  }

  /** `str::get` of a range: refused out of range and inside a character. */
  function Get(s: seq<Byte>, i: nat, j: nat): Option<seq<Byte>> {
    if i <= j <= |s| && CharBoundary(s, i) && CharBoundary(s, j) then Some(s[i..j]) else None
  }

  // ---------------- split_response_signature ----------------

  datatype Split =
    | Unsigned
    | Signed(body: seq<Byte>, sig: seq<Byte>)
    | Misaddressed

  function SplitResponseSignature(raw: seq<Byte>, nonce: seq<Byte>): Split {
    if !WellFormed(raw) then Unsigned
    else
      var found := Rfind(raw, MARKER);
      if found.None? then Unsigned
      else
        var at := found.value;
        var valAt := at + |MARKER|;
        var hexEnd := valAt + 64;
        var hex := Get(raw, valAt, hexEnd);
        if hex.None? || !Hex64(hex.value) then Unsigned
        else
          var tail := Get(raw, hexEnd, |raw|);
          if tail.None? || !(NONCE_OPEN <= tail.value) then Unsigned
          else
            var after := tail.value[|NONCE_OPEN|..];
            var quote := Find(after, QUOTE);
            if quote.None? || after[quote.value..] != CLOSE then Unsigned
            else if after[..quote.value] != nonce then Misaddressed
            else Signed(raw[..at] + [BRACE], hex.value)
  }

  /** The input ends in a block for `sig` and some quote-free nonce `n`, after `front`. */
  ghost predicate EndsInBlock(raw: seq<Byte>, front: seq<Byte>, sig: seq<Byte>, n: seq<Byte>) {
    Hex64(sig) && QUOTE !in n && raw == front + Block(sig, n)
  }

  lemma BlockBytes(sig: seq<Byte>, n: seq<Byte>, k: int)
    requires Hex64(sig) && 0 < k
    requires k + 2 < |Block(sig, n)| && QUOTE !in n
    ensures var b := Block(sig, n); !(b[k] == 44 && b[k + 1] == 34 && b[k + 2] == 115)
  {
    var b := Block(sig, n);
    if k < 14 {
      assert b[k] == MARKER[k];
    } else if k < 78 {
      assert b[k] == sig[k - 14];
      assert HexDigit(sig[k - 14]);
    } else if k < 89 {
      assert b[k] == NONCE_OPEN[k - 78];
      if k == 79 { assert b[81] == NONCE_OPEN[3]; }
    } else if k + 1 < 89 + |n| {
      assert b[k + 1] == n[k + 1 - 89];
    } else {
      assert b[k + 2] == CLOSE[1];
    }
  }

  /** However often the marker stands in the payload, the block's own is the last one. */
  lemma OwnMarkerIsLast(raw: seq<Byte>, front: seq<Byte>, sig: seq<Byte>, n: seq<Byte>)
    requires EndsInBlock(raw, front, sig, n)
    ensures Rfind(raw, MARKER) == Some(|front|)
  {
    assert OccursAt(raw, MARKER, |front|) by { OwnMarkerOccurs(raw, front, sig, n); }
    hide OccursAt, Rfind, EndsInBlock, Block;
    forall j | j > |front| ensures !OccursAt(raw, MARKER, j) {
      NoLaterMarker(raw, front, sig, n, j);
    }
    var r := Rfind(raw, MARKER);
    if r.Some? { assert r.value == |front|; }
  }

  lemma OwnMarkerOccurs(raw: seq<Byte>, front: seq<Byte>, sig: seq<Byte>, n: seq<Byte>)
    requires EndsInBlock(raw, front, sig, n)
    ensures OccursAt(raw, MARKER, |front|)
  {
    assert raw[|front|..|front| + 14] == MARKER;
  }

  lemma NoLaterMarker(raw: seq<Byte>, front: seq<Byte>, sig: seq<Byte>, n: seq<Byte>, j: int)
    requires EndsInBlock(raw, front, sig, n) && j > |front|
    ensures !OccursAt(raw, MARKER, j)
  {
    hide Block;
    if j + 14 <= |raw| {
      var b, k := Block(sig, n), j - |front|;
      BlockBytes(sig, n, k);
      assert b[k] == raw[j] && b[k + 1] == raw[j + 1] && b[k + 2] == raw[j + 2];
      var here := raw[j..j + 14];
      assert here[0] == raw[j] && here[1] == raw[j + 1] && here[2] == raw[j + 2];
      assert MARKER[0] == 44 && MARKER[1] == 34 && MARKER[2] == 115;
      assert here != MARKER;
    }
  }

  lemma BlockSlices(raw: seq<Byte>, front: seq<Byte>, sig: seq<Byte>, n: seq<Byte>)
    requires EndsInBlock(raw, front, sig, n)
    ensures |raw| == |front| + 91 + |n| && raw[..|front|] == front
    ensures raw[|front| + 14..|front| + 78] == sig
    ensures raw[|front| + 78..] == NONCE_OPEN + n + CLOSE
  {
  }

  lemma NonceTail(n: seq<Byte>)
    requires QUOTE !in n
    ensures var tail := NONCE_OPEN + n + CLOSE;
            && NONCE_OPEN <= tail && tail[11..] == n + CLOSE && tail[0] == QUOTE
            && Find(tail[11..], QUOTE) == Some(|n|) && tail[11..][|n|..] == CLOSE && tail[11..][..|n|] == n
  {
    hide Find;
    QuoteAfter(n);
    var tail := NONCE_OPEN + n + CLOSE;
    assert tail[11..] == n + CLOSE;
  }

  /** On an input that ends in a block the parse finds exactly its parts. */
  lemma SplitOfBlock(raw: seq<Byte>, nonce: seq<Byte>, front: seq<Byte>, sig: seq<Byte>, n: seq<Byte>)
    requires WellFormed(raw) && EndsInBlock(raw, front, sig, n)
    ensures SplitResponseSignature(raw, nonce) == if n == nonce then Signed(front + [BRACE], sig) else Misaddressed
  {
    hide Rfind, Find, WellFormed, Block;
    OwnMarkerIsLast(raw, front, sig, n);
    BlockSlices(raw, front, sig, n);
    NonceTail(n);
    var valAt := |front| + 14;
    var hexEnd := valAt + 64;
    assert raw[valAt] == sig[0] && HexDigit(sig[0]);
    var tail := raw[hexEnd..];
    assert raw[hexEnd] == tail[0] == QUOTE;
    assert raw[hexEnd..|raw|] == tail;
    assert Get(raw, valAt, hexEnd) == Some(sig) && Get(raw, hexEnd, |raw|) == Some(tail);
  }

  lemma {:induction false} QuoteAfter(n: seq<Byte>)
    requires QUOTE !in n
    ensures Find(n + CLOSE, QUOTE) == Some(|n|)
  {
    var s := n + CLOSE;
    if n == [] {
      assert s[0] == QUOTE;
    } else {
      assert s[0] == n[0] && s[1..] == n[1..] + CLOSE;
      QuoteAfter(n[1..]);
    }
  }

  lemma Reassemble(raw: seq<Byte>, at: nat, n: seq<Byte>)
    requires at + 78 <= |raw| && raw[at..at + 14] == MARKER
    requires raw[at + 78..] == NONCE_OPEN + (n + CLOSE)
    ensures raw == raw[..at] + Block(raw[at + 14..at + 78], n)
  {
    var sig := raw[at + 14..at + 78];
    assert raw == raw[..at] + (raw[at..at + 14] + (sig + raw[at + 78..]));
    assert MARKER + (sig + (NONCE_OPEN + (n + CLOSE))) == Block(sig, n);
  }

  /** Whatever the parse accepts does end in a block. */
  lemma SplitFindsBlock(raw: seq<Byte>, nonce: seq<Byte>) returns (front: seq<Byte>, sig: seq<Byte>, n: seq<Byte>)
    requires !SplitResponseSignature(raw, nonce).Unsigned?
    ensures WellFormed(raw) && EndsInBlock(raw, front, sig, n)
  {
    hide WellFormed, Rfind, Find, Block;
    var at := Rfind(raw, MARKER).value;
    front, sig := raw[..at], raw[at + 14..at + 78];
    var tail := raw[at + 78..|raw|];
    var after := tail[11..];
    n := after[..Find(after, QUOTE).value];
    assert tail == tail[..11] + after && tail[..11] == NONCE_OPEN && after == n + CLOSE;
    assert raw[at + 78..] == tail;
    Reassemble(raw, at, n);
  }

  /** `Some` exactly when the input is a body whose last brace was replaced by the block
      for that signature and the request's own nonce. */
  lemma SignedExactly(raw: seq<Byte>, nonce: seq<Byte>, body: seq<Byte>, sig: seq<Byte>)
    ensures SplitResponseSignature(raw, nonce) == Signed(body, sig) <==>
            && WellFormed(raw)
            && |body| > 0 && body[|body| - 1] == BRACE
            && EndsInBlock(raw, body[..|body| - 1], sig, nonce)
  {
    hide SplitResponseSignature, WellFormed, Block;
    if SplitResponseSignature(raw, nonce) == Signed(body, sig) {
      var front, s, n := SplitFindsBlock(raw, nonce);
      SplitOfBlock(raw, nonce, front, s, n);
      assert body[..|body| - 1] == front;
    }
    if WellFormed(raw) && |body| > 0 && body[|body| - 1] == BRACE && EndsInBlock(raw, body[..|body| - 1], sig, nonce) {
      SplitOfBlock(raw, nonce, body[..|body| - 1], sig, nonce);
      assert body == body[..|body| - 1] + [BRACE];
    }
  }

  /** `Err` exactly when the tail block carries another quote-free nonce. */
  lemma MisaddressedExactly(raw: seq<Byte>, nonce: seq<Byte>)
    ensures SplitResponseSignature(raw, nonce) == Misaddressed <==>
            WellFormed(raw) && exists front, sig, n :: n != nonce && EndsInBlock(raw, front, sig, n)
  {
    hide SplitResponseSignature, WellFormed, Block;
    if SplitResponseSignature(raw, nonce) == Misaddressed {
      var front, sig, n := SplitFindsBlock(raw, nonce);
      SplitOfBlock(raw, nonce, front, sig, n);
    }
    if WellFormed(raw) && exists front, sig, n :: n != nonce && EndsInBlock(raw, front, sig, n) {
      var front, sig, n :| n != nonce && EndsInBlock(raw, front, sig, n);
      SplitOfBlock(raw, nonce, front, sig, n);
    }
  }

  /** An input reads as at most one block, so the signed bytes are not a matter of choice. */
  lemma BlockUnique(
    raw: seq<Byte>, f1: seq<Byte>, s1: seq<Byte>, n1: seq<Byte>, f2: seq<Byte>, s2: seq<Byte>, n2: seq<Byte>)
    requires EndsInBlock(raw, f1, s1, n1) && EndsInBlock(raw, f2, s2, n2)
    ensures f1 == f2 && s1 == s2 && n1 == n2
  {
    OwnMarkerIsLast(raw, f1, s1, n1);
    OwnMarkerIsLast(raw, f2, s2, n2);
    BlockSlices(raw, f1, s1, n1);
    BlockSlices(raw, f2, s2, n2);
    hide EndsInBlock, Block;
    var tail1, tail2 := NONCE_OPEN + n1 + CLOSE, NONCE_OPEN + n2 + CLOSE;
    assert tail1[11..|tail1| - 2] == n1 && tail2[11..|tail2| - 2] == n2;
  }

  // ---------------- The streaming footer ----------------

  /** `VOLTSTREAM1` */
  const MAGIC: seq<Byte> := [86, 79, 76, 84, 83, 84, 82, 69, 65, 77, 49]

  const FOOTER_LEN: nat := 78

  function StreamFooter(sig: seq<Byte>): seq<Byte> {
    [NEWLINE] + MAGIC + [NEWLINE] + sig + [NEWLINE]
  }

  /** `str::split('\n')`: always at least one part. */
  function SplitLines(s: seq<Byte>): (parts: seq<seq<Byte>>)
    ensures |parts| > 0
  {
    if s == [] then [[]]
    else
      var rest := SplitLines(s[1..]);
      if s[0] == NEWLINE then [[]] + rest
      else [[s[0]] + rest[0]] + rest[1..]
  }

  function JoinLines(parts: seq<seq<Byte>>): seq<Byte>
    requires |parts| > 0
  {
    if |parts| == 1 then parts[0] else parts[0] + [NEWLINE] + JoinLines(parts[1..])
  }

  lemma {:induction false} JoinSplit(s: seq<Byte>)
    ensures JoinLines(SplitLines(s)) == s
  {
    if s != [] {
      JoinSplit(s[1..]);
      var rest := SplitLines(s[1..]);
      assert s == [s[0]] + s[1..];
      if s[0] == NEWLINE {
        assert ([[]] + rest)[1..] == rest;
      } else {
        var parts := [[s[0]] + rest[0]] + rest[1..];
        assert parts[1..] == rest[1..];
        if |rest| > 1 {
          assert [s[0]] + rest[0] + [NEWLINE] + JoinLines(rest[1..]) == [s[0]] + (rest[0] + [NEWLINE] + JoinLines(rest[1..]));
        }
      }
    }
  }

  lemma {:induction false} SplitFirstLine(line: seq<Byte>, rest: seq<Byte>)
    requires NEWLINE !in line
    ensures SplitLines(line + [NEWLINE] + rest) == [line] + SplitLines(rest)
  {
    var s := line + [NEWLINE] + rest;
    if line == [] {
      assert s[1..] == rest;
    } else {
      assert s[1..] == line[1..] + [NEWLINE] + rest && s[0] == line[0];
      SplitFirstLine(line[1..], rest);
      assert [line[0]] + line[1..] == line;
    }
  }

  datatype Footer = Intact(archive: seq<Byte>, sig: seq<Byte>) | Malformed

  function SplitStreamFooter(body: seq<Byte>): Footer {
    if |body| < FOOTER_LEN then Malformed
    else
      var at := |body| - FOOTER_LEN;
      var footer := body[at..];
      if !WellFormed(footer) then Malformed
      else
        var parts := SplitLines(footer);
        if parts[0] != [] then Malformed
        else if |parts| < 2 || parts[1] != MAGIC then Malformed
        else
          var sig := if |parts| > 2 then parts[2] else [];
          if !Hex64(sig) then Malformed
          else if |parts| < 4 || parts[3] != [] || |parts| > 4 then Malformed
          else Intact(body[..at], sig)
  }

  lemma {:induction false} AsciiWellFormed(s: seq<Byte>)
    requires forall i :: 0 <= i < |s| ==> s[i] <= 0x7F
    ensures WellFormed(s)
  {
    if s != [] {
      assert HeadOf(s) == Whole(1);
      AsciiWellFormed(s[1..]);
    }
  }

  lemma LinesOfFooter(sig: seq<Byte>)
    requires Hex64(sig)
    ensures SplitLines(StreamFooter(sig)) == [[], MAGIC, sig, []]
  {
    assert forall i :: 0 <= i < |sig| ==> HexDigit(sig[i]);
    assert NEWLINE !in sig;
    var tail: seq<Byte> := [];
    var third := sig + [NEWLINE] + tail;
    var second := MAGIC + [NEWLINE] + third;
    SplitFirstLine(sig, tail);
    SplitFirstLine(MAGIC, third);
    SplitFirstLine([], second);
    assert StreamFooter(sig) == [] + [NEWLINE] + second;
  }

  /** The split inverts appending the footer, for every archive whatever its bytes, and
      accepts nothing else. */
  lemma FooterExactly(body: seq<Byte>, archive: seq<Byte>, sig: seq<Byte>)
    ensures SplitStreamFooter(body) == Intact(archive, sig) <==> Hex64(sig) && body == archive + StreamFooter(sig)
  {
    if SplitStreamFooter(body) == Intact(archive, sig) {
      FooterAccepted(body);
    }
    if Hex64(sig) && body == archive + StreamFooter(sig) {
      FooterParsed(archive, sig);
    }
  }

  lemma FooterAccepted(body: seq<Byte>)
    requires SplitStreamFooter(body).Intact?
    ensures var f := SplitStreamFooter(body); Hex64(f.sig) && body == f.archive + StreamFooter(f.sig)
  {
    hide WellFormed, SplitLines;
    var at := |body| - FOOTER_LEN;
    var footer := body[at..];
    JoinSplit(footer);
    var parts := SplitLines(footer);
    var p1 := parts[1..];
    var p2 := p1[1..];
    var p3 := p2[1..];
    assert |parts| == 4 && JoinLines(p3) == p3[0] == [];
    assert JoinLines(p2) == parts[2] + [NEWLINE];
    assert JoinLines(p1) == MAGIC + [NEWLINE] + (parts[2] + [NEWLINE]);
    assert JoinLines(parts) == [NEWLINE] + (MAGIC + [NEWLINE] + (parts[2] + [NEWLINE]));
    assert JoinLines(parts) == StreamFooter(parts[2]);
    assert body == body[..at] + footer;
  }

  lemma FooterParsed(archive: seq<Byte>, sig: seq<Byte>)
    requires Hex64(sig)
    ensures SplitStreamFooter(archive + StreamFooter(sig)) == Intact(archive, sig)
  {
    hide WellFormed, SplitLines;
    var footer := StreamFooter(sig);
    var body := archive + footer;
    assert body[|archive|..] == footer && body[..|archive|] == archive;
    FooterAscii(sig);
    AsciiWellFormed(footer);
    LinesOfFooter(sig);
  }

  lemma FooterAscii(sig: seq<Byte>)
    requires Hex64(sig)
    ensures |StreamFooter(sig)| == FOOTER_LEN
    ensures forall i :: 0 <= i < |StreamFooter(sig)| ==> StreamFooter(sig)[i] <= 0x7F
  {
    var f := StreamFooter(sig);
    forall i | 0 <= i < |f| ensures f[i] <= 0x7F {
      if 13 <= i < 77 { assert f[i] == sig[i - 13] && HexDigit(sig[i - 13]); }
    }
  }
}
