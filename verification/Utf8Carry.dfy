/** The incremental decoder of console streams. */
module Utf8Carry {
  import opened Bytes
  import opened Utf8

  /** `utf8_seq_len`. */
  function SeqLen(lead: Byte): (n: nat)
    ensures 1 <= n <= 4
    ensures Need(lead) > 0 ==> n == Need(lead)
  {
    if lead <= 0x7F then 1
    else if 0xC0 <= lead <= 0xDF then 2
    else if 0xE0 <= lead <= 0xEF then 3
    else 4
  }

  /** Text emitted and bytes kept back. */
  datatype Step = Step(out: seq<int>, kept: seq<Byte>)

  function Emit(text: seq<int>, s: Step): Step {
    Step(text + s.out, s.kept)
  }

  /** The scanning loop: decode what is whole, replace what is bad, keep a cut tail. */
  function Scan(s: seq<Byte>): Step
    decreases |s|
  {
    var c := FromUtf8(s);
    if c.Valid? then Step(Decode(s), [])
    else
      ValidPrefix(s);
      var v := c.validUpTo;
      match c.errorLen
      case Some(bad) => Emit(Decode(s[..v]) + [REPLACEMENT], Scan(s[v + bad..]))
      case None => Step(Decode(s[..v]), s[v..])
  }

  /** The three ways a scan goes on, for code that need not look further. */
  lemma ScanUnfold(s: seq<Byte>)
    ensures FromUtf8(s).Valid? ==> WellFormed(s) && Scan(s) == Step(Decode(s), [])
    ensures FromUtf8(s).Error? ==>
              var v, e := FromUtf8(s).validUpTo, FromUtf8(s).errorLen;
              && WellFormed(s[..v])
              && (e.None? ==> Scan(s) == Step(Decode(s[..v]), s[v..]))
              && (e.Some? ==> Scan(s) == Emit(Decode(s[..v]) + [REPLACEMENT], Scan(s[v + e.value..])))
  {
    hide HeadOf, Scalar, Decode, FromUtf8;
    if FromUtf8(s).Error? { ValidPrefix(s); }
  }

  lemma ScanNothing(s: seq<Byte>)
    requires s == []
    ensures Scan(s) == Step([], [])
  {
  }

  /** What may be kept: the front of a sequence, shorter than its lead announces. */
  predicate Keepable(kept: seq<Byte>) {
    kept != [] ==> |kept| < SeqLen(kept[0])
  }

  /** How many bytes of `chunk` go into the sequence begun in `kept`. */
  function Take(kept: seq<Byte>, chunk: seq<Byte>): (n: nat)
    requires kept != [] && Keepable(kept)
    ensures n <= |chunk|
  {
    var needed := SeqLen(kept[0]) - |kept|;
    if needed <= |chunk| then needed else |chunk|
  }

  /** `push` on values. */
  function Push(kept: seq<Byte>, chunk: seq<Byte>): Step
    requires Keepable(kept)
  {
    if kept == [] then Scan(chunk)
    else
      var take := Take(kept, chunk);
      var joined := kept + chunk[..take];
      if |joined| < SeqLen(kept[0]) then Step([], joined)
      else Emit(if WellFormed(joined) then Decode(joined) else [REPLACEMENT], Scan(chunk[take..]))
  }

  /** Input that ends at once ends inside its first sequence. */
  lemma EndsInside(s: seq<Byte>)
    requires FromUtf8(s) == Error(0, None)
    ensures s != [] && HeadOf(s).Cut? && Keepable(s)
  {
  }

  lemma ScanKeepable(s: seq<Byte>)
    ensures Keepable(Scan(s).kept)
  {
    hide Scan;
    ScanCarried(s);
  }

  lemma PushKeepable(kept: seq<Byte>, chunk: seq<Byte>)
    requires Keepable(kept)
    ensures Keepable(Push(kept, chunk).kept)
  {
    if kept == [] {
      ScanKeepable(chunk);
    } else {
      ScanKeepable(chunk[Take(kept, chunk)..]);
    }
  }

  // ---------------- Chunking does not matter ----------------

  /** Nothing wrong so far: whole characters, then at most a cut one. */
  predicate Extendable(s: seq<Byte>) {
    FromUtf8(s).Valid? || FromUtf8(s).errorLen.None?
  }

  /** Every front part of well-formed text is extendable. */
  lemma {:induction false} PrefixExtendable(s: seq<Byte>, t: seq<Byte>)
    requires Extendable(s + t)
    ensures Extendable(s)
    decreases |s|
  {
    if s != [] && !HeadOf(s).Cut? {
      HeadStable(s, t);
      if HeadOf(s).Whole? {
        var n := HeadOf(s).n;
        assert (s + t)[n..] == s[n..] + t;
        PrefixExtendable(s[n..], t);
      }
    }
  }

  /** On extendable bytes a push is one scan of everything seen since the last character
      boundary. */
  lemma PushIsScan(kept: seq<Byte>, chunk: seq<Byte>)
    requires kept == [] || HeadOf(kept).Cut?
    requires Extendable(kept + chunk)
    ensures Keepable(kept) && Push(kept, chunk) == Scan(kept + chunk)
  {
    hide Scan, Push, HeadOf, FromUtf8;
    var all := kept + chunk;
    SwallowedExactly(kept, chunk);
    if all != [] && HeadOf(all).Bad? { FirstError(all); }
  }

  /** Whatever follows it, a whole character in front is scanned by itself. */
  lemma ScanWhole(all: seq<Byte>)
    requires all != [] && HeadOf(all).Whole?
    ensures Scan(all) == Emit([Scalar(all)], Scan(all[HeadOf(all).n..]))
  {
    hide HeadOf, Scalar, Decode, FromUtf8, Scan;
    var n := HeadOf(all).n;
    var rest := all[n..];
    CheckStep(all, n);
    ScanUnfold(all);
    ScanUnfold(rest);
    if FromUtf8(rest).Error? {
      var v := FromUtf8(rest).validUpTo;
      FrontDecodes(all, n, v);
      assert all[n + v..] == rest[v..];
      if FromUtf8(rest).errorLen.Some? {
        var e := FromUtf8(rest).errorLen.value;
        assert all[n + v + e..] == rest[v + e..];
      }
    } else {
      DecodeStep(all, n, Scalar(all), Decode(rest));
    }
  }

  lemma FrontDecodes(all: seq<Byte>, n: nat, v: nat)
    requires all != [] && HeadOf(all) == Whole(n) && n + v <= |all| && WellFormed(all[n..][..v])
    ensures WellFormed(all[..n + v]) && Decode(all[..n + v]) == [Scalar(all)] + Decode(all[n..][..v])
  {
    var front := all[..n + v];
    HeadStableTake(all, n + v);
    assert front[n..] == all[n..][..v];
    assert front + all[n + v..] == all;
    HeadStable(front, all[n + v..]);
    DecodeStep(front, n, Scalar(all), Decode(all[n..][..v]));
  }

  /** What a scan keeps of extendable bytes, and what it has emitted. */
  lemma ScanSplits(s: seq<Byte>)
    requires Extendable(s)
    ensures var k := Scan(s).kept;
            && |k| <= |s| && s[|s| - |k|..] == k && WellFormed(s[..|s| - |k|])
            && Scan(s).out == Decode(s[..|s| - |k|])
            && (k == [] || HeadOf(k).Cut?)
  {
    if FromUtf8(s).Error? {
      ValidPrefix(s);
    } else {
      assert s[..|s|] == s;
    }
  }

  /** Feeding chunks one after the other. */
  function PushAll(kept: seq<Byte>, chunks: seq<seq<Byte>>): Step
    requires Keepable(kept)
    decreases |chunks|
  {
    if chunks == [] then Step([], kept)
    else
      var first := Push(kept, chunks[0]);
      PushKeepable(kept, chunks[0]);
      Emit(first.out, PushAll(first.kept, chunks[1..]))
  }

  function Join(chunks: seq<seq<Byte>>): seq<Byte> {
    if chunks == [] then [] else chunks[0] + Join(chunks[1..])
  }

  /** One push in the middle of well-formed text: the text so far and a cut rest. */
  lemma PushInside(kept: seq<Byte>, chunk: seq<Byte>, later: seq<Byte>)
    requires kept == [] || HeadOf(kept).Cut?
    requires WellFormed(kept + chunk + later)
    ensures Keepable(kept)
    ensures var s := Push(kept, chunk);
            && (s.kept == [] || HeadOf(s.kept).Cut?)
            && WellFormed(s.kept + later)
            && Decode(kept + chunk + later) == s.out + Decode(s.kept + later)
  {
    hide HeadOf, Scalar, Decode, FromUtf8, Scan, Push;
    var seen := kept + chunk;
    PrefixExtendable(seen, later);
    PushIsScan(kept, chunk);
    ScanSplits(seen);
    var k := Scan(seen).kept;
    var whole := seen[..|seen| - |k|];
    assert seen + later == whole + (k + later);
    ConcatCheck(whole, k + later);
    ConcatDecode(whole, k + later);
  }

  lemma {:induction false} PushAllFrom(kept: seq<Byte>, chunks: seq<seq<Byte>>)
    requires kept == [] || HeadOf(kept).Cut?
    requires WellFormed(kept + Join(chunks))
    ensures Keepable(kept) && PushAll(kept, chunks) == Step(Decode(kept + Join(chunks)), [])
    decreases |chunks|
  {
    if chunks == [] {
      assert kept + Join(chunks) == kept;
      NothingCut(kept);
    } else {
      var later := Join(chunks[1..]);
      assert kept + Join(chunks) == kept + chunks[0] + later;
      PushInside(kept, chunks[0], later);
      PushAllFrom(Push(kept, chunks[0]).kept, chunks[1..]);
    }
  }

  lemma NothingCut(kept: seq<Byte>)
    requires WellFormed(kept) && (kept == [] || HeadOf(kept).Cut?)
    ensures kept == [] && Decode(kept) == []
  {
  }

  /** Well-formed text decodes the same however it is cut into chunks, and nothing is
      left pending. */
  lemma ChunkingIsInvisible(chunks: seq<seq<Byte>>)
    requires WellFormed(Join(chunks))
    ensures PushAll([], chunks) == Step(Decode(Join(chunks)), [])
  {
    assert [] + Join(chunks) == Join(chunks);
    PushAllFrom([], chunks);
  }

  // ---------------- On any bytes ----------------

  /** Everything the decoder ever carries: a legal lead byte and fewer bytes than it
      announces, not necessarily the right ones. */
  predicate Carried(kept: seq<Byte>) {
    kept != [] ==> |kept| < Need(kept[0])
  }

  lemma {:induction false} ScanCarried(s: seq<Byte>)
    ensures Carried(Scan(s).kept)
    decreases |s|
  {
    hide HeadOf, Scalar, Scan, Decode, FromUtf8;
    ScanUnfold(s);
    var c := FromUtf8(s);
    if c.Error? {
      ValidPrefix(s);
      if c.errorLen.Some? {
        ScanCarried(s[c.validUpTo + c.errorLen.value..]);
      } else {
        EndsInside(s[c.validUpTo..]);
      }
    }
  }

  /** It is kept by every push. */
  lemma PushCarried(kept: seq<Byte>, chunk: seq<Byte>)
    requires Carried(kept)
    ensures Keepable(kept) && Carried(Push(kept, chunk).kept)
  {
    hide Scan, Decode, WellFormed;
    if kept == [] {
      ScanCarried(chunk);
    } else {
      ScanCarried(chunk[Take(kept, chunk)..]);
    }
  }

  /** And all of it is reached. */
  lemma CarriedReachable(kept: seq<Byte>)
    requires Carried(kept) && kept != []
    ensures PushAll([], [kept[..1], kept[1..]]) == Step([], kept)
  {
    var lead, tail := kept[..1], kept[1..];
    assert HeadOf(lead).Cut? && lead[..0] == [] && lead[0..] == lead;
    assert Push([], lead) == Step([], lead);
    assert lead + tail == kept && tail[..|tail|] == tail;
    assert Push(lead, tail) == Step([], kept);
    var none: seq<seq<Byte>>, one: seq<seq<Byte>>, two: seq<seq<Byte>> := [], [tail], [lead, tail];
    assert two[1..] == one && one[1..] == none;
    assert PushAll(kept, none) == Step([], kept);
    assert PushAll(lead, one) == Step([], kept);
  }

  /** Behind a malformed front a scan goes on at once. */
  lemma ScanBad(all: seq<Byte>)
    requires all != [] && HeadOf(all).Bad?
    ensures Scan(all) == Emit([REPLACEMENT], Scan(all[HeadOf(all).n..]))
  {
    hide HeadOf, Scan, Decode, FromUtf8;
    FirstError(all);
    ScanUnfold(all);
    NothingDecodes(all[..0]);
  }

  lemma ScanCut(all: seq<Byte>)
    requires all != [] && HeadOf(all).Cut?
    ensures Scan(all) == Step([], all)
  {
    hide HeadOf, Scan, Decode, FromUtf8;
    FirstError(all);
    ScanUnfold(all);
    NothingDecodes(all[..0]);
    assert all[0..] == all;
  }

  /** A carried sequence whose announced bytes have all arrived. Whole: the push emits it
      and goes on as a scan would. Bad: both replace it, but the push drops every announced
      byte where a scan drops the malformed ones only, so the bytes in between are exactly
      what is swallowed. */
  lemma CarryExactly(kept: seq<Byte>, chunk: seq<Byte>)
    requires Carried(kept) && kept != [] && |kept| + |chunk| >= SeqLen(kept[0])
    ensures Keepable(kept)
    ensures var all, n := kept + chunk, SeqLen(kept[0]);
            var h := HeadOf(all);
            && !h.Cut?
            && (h.Whole? ==> h.n == n && Push(kept, chunk) == Emit([Scalar(all)], Scan(all[n..])) == Scan(all))
            && (h.Bad? ==> 0 < h.n < n && Push(kept, chunk) == Emit([REPLACEMENT], Scan(all[n..])))
            && (h.Bad? ==> Scan(all) == Emit([REPLACEMENT], Scan(all[h.n..])))
  {
    hide Scan, Decode, Scalar, HeadOf, FromUtf8;
    var all, n, take := kept + chunk, SeqLen(kept[0]), Take(kept, chunk);
    var joined := kept + chunk[..take];
    assert all == joined + chunk[take..] && joined == all[..n] && chunk[take..] == all[n..];
    assert all[0] == joined[0] == kept[0];
    CarriedHead(joined, all);
    if HeadOf(all).Whole? { ScanWhole(all); } else { ScanBad(all); }
  }

  /** Before they have arrived the push waits, whatever it holds. A scan of the same bytes
      waits too if and only if nothing is wrong with them yet; otherwise it has replaced the
      malformed ones and gone on. */
  lemma WaitingExactly(kept: seq<Byte>, chunk: seq<Byte>)
    requires Carried(kept) && kept != [] && |kept| + |chunk| < SeqLen(kept[0])
    ensures Keepable(kept)
    ensures var all := kept + chunk;
            var h := HeadOf(all);
            && !h.Whole? && Push(kept, chunk) == Step([], all)
            && (h.Cut? <==> Scan(all) == Step([], all))
            && (h.Bad? ==> Scan(all) == Emit([REPLACEMENT], Scan(all[h.n..])))
  {
    hide Scan, Decode, HeadOf, WellFormed;
    var all := kept + chunk;
    assert all[0] == kept[0] && chunk[..|chunk|] == chunk;
    if HeadOf(all).Cut? { ScanCut(all); } else { ScanBad(all); }
  }

  /** The announced bytes alone decide the head. */
  lemma CarriedHead(joined: seq<Byte>, all: seq<Byte>)
    requires joined != [] && Need(joined[0]) == |joined| && joined <= all
    ensures !HeadOf(all).Cut? && HeadOf(all) == HeadOf(joined)
    ensures WellFormed(joined) <==> HeadOf(joined).Whole?
    ensures HeadOf(joined).Whole? ==> Decode(joined) == [Scalar(all)]
    ensures HeadOf(joined).Bad? ==> FromUtf8(all) == Error(0, Some(HeadOf(all).n))
  {
    var rest := all[|joined|..];
    assert all == joined + rest;
    HeadStable(joined, rest);
    assert joined[|joined|..] == [];
  }

  lemma NothingDecodes(s: seq<Byte>)
    requires s == []
    ensures WellFormed(s) && Decode(s) == []
  {
  }

  /** Something is wrong with what is carried, and it shows: the push still waits, or the
      bytes it drops with the malformed ones would have been read. */
  ghost predicate Swallows(kept: seq<Byte>, chunk: seq<Byte>) {
    && kept != []
    && var all, n := kept + chunk, SeqLen(kept[0]);
       HeadOf(all).Bad? && (|all| < n || Scan(all[n..]) != Scan(all[HeadOf(all).n..]))
  }

  /** A push differs from a scan of the same bytes in exactly these cases, from any state
      the decoder can be in and for any chunk. */
  lemma SwallowedExactly(kept: seq<Byte>, chunk: seq<Byte>)
    requires Carried(kept)
    ensures Keepable(kept)
    ensures Push(kept, chunk) != Scan(kept + chunk) <==> Swallows(kept, chunk)
  {
    hide Scan, Decode, Scalar, HeadOf, FromUtf8;
    var all := kept + chunk;
    if kept == [] {
      assert all == chunk;
    } else if |all| < SeqLen(kept[0]) {
      WaitingExactly(kept, chunk);
    } else {
      hide Push;
      CarryExactly(kept, chunk);
      if HeadOf(all).Bad? {
        var a, b := Scan(all[SeqLen(kept[0])..]), Scan(all[HeadOf(all).n..]);
        assert ([REPLACEMENT] + a.out)[1..] == a.out && ([REPLACEMENT] + b.out)[1..] == b.out;
      }
    }
  }

  /** A scan can stop anywhere and go on from what it kept. */
  lemma {:induction false} ScanConcat(s: seq<Byte>, t: seq<Byte>)
    ensures Scan(s + t) == Emit(Scan(s).out, Scan(Scan(s).kept + t))
    decreases |s|
  {
    hide HeadOf, Scalar, Decode, FromUtf8, Scan;
    var all := s + t;
    if s == [] {
      ScanNothing(s);
      assert all == t && [] + t == t;
    } else if HeadOf(s).Cut? {
      ScanCut(s);
    } else {
      HeadStable(s, t);
      var n := HeadOf(s).n;
      assert all[n..] == s[n..] + t;
      ScanConcat(s[n..], t);
      if HeadOf(s).Whole? {
        ScanWhole(s);
        ScanWhole(all);
      } else {
        ScanBad(s);
        ScanBad(all);
      }
    }
  }

  /** No push along the way swallows anything. */
  ghost predicate NeverSwallows(kept: seq<Byte>, chunks: seq<seq<Byte>>)
    requires Carried(kept)
    decreases |chunks|
  {
    chunks == []
    || (PushCarried(kept, chunks[0]);
        !Swallows(kept, chunks[0]) && NeverSwallows(Push(kept, chunks[0]).kept, chunks[1..]))
  }

  lemma {:induction false} PushAllScans(kept: seq<Byte>, chunks: seq<seq<Byte>>)
    requires Carried(kept) && Scan(kept) == Step([], kept) && NeverSwallows(kept, chunks)
    ensures Keepable(kept) && PushAll(kept, chunks) == Scan(kept + Join(chunks))
    decreases |chunks|
  {
    hide Scan, Push, Swallows, Decode, HeadOf, FromUtf8;
    PushCarried(kept, []);
    if chunks == [] {
      assert kept + Join(chunks) == kept;
    } else {
      var seen, later := kept + chunks[0], Join(chunks[1..]);
      var first := Push(kept, chunks[0]);
      PushCarried(kept, chunks[0]);
      SwallowedExactly(kept, chunks[0]);
      ScanTwice(seen);
      PushAllScans(first.kept, chunks[1..]);
      ScanConcat(seen, later);
      assert kept + Join(chunks) == seen + later;
    }
  }

  /** What a scan keeps, a scan keeps again. */
  lemma {:induction false} ScanTwice(s: seq<Byte>)
    ensures Scan(Scan(s).kept) == Step([], Scan(s).kept)
    decreases |s|
  {
    hide HeadOf, Scalar, Decode, FromUtf8, Scan;
    if s == [] {
      ScanNothing(s);
    } else if HeadOf(s).Cut? {
      ScanCut(s);
    } else {
      ScanTwice(s[HeadOf(s).n..]);
      if HeadOf(s).Whole? { ScanWhole(s); } else { ScanBad(s); }
    }
  }

  /** On any bytes, well-formed or not, chunking is invisible as long as no push swallows. */
  lemma ChunkingOnAnyBytes(chunks: seq<seq<Byte>>)
    requires NeverSwallows([], chunks)
    ensures PushAll([], chunks) == Scan(Join(chunks))
  {
    hide Scan;
    ScanNothing([]);
    assert [] + Join(chunks) == Join(chunks);
    PushAllScans([], chunks);
  }

  /** A witness: "AB" is lost when it arrives in its own chunk behind a lead byte. */
  lemma CarrySwallows()
    ensures var lead: seq<Byte> := [0xE2];
            var text: seq<Byte> := [0x41, 0x42];
            PushAll([], [lead, text]) == Step([REPLACEMENT], [])
            && PushAll([], [lead + text]) == Step([REPLACEMENT, 0x41, 0x42], [])
  {
    var lead: seq<Byte>, text: seq<Byte> := [0xE2], [0x41, 0x42];
    var joined := lead + text;
    assert joined == [0xE2, 0x41, 0x42];
    AsciiText();
    LeadWaits();
    assert text[..2] == text && text[2..] == [];
    assert Scan([]) == Step([], []) && Push([], lead) == Step([], lead);
    assert HeadOf(joined) == Bad(1) && joined[1..] == text && joined[..0] == [];
    assert Push(lead, text) == Step([REPLACEMENT], []);
    assert Push([], joined) == Step([REPLACEMENT, 0x41, 0x42], []);
    var two: seq<seq<Byte>> := [lead, text];
    assert two[1..] == [text] && two[1..][1..] == [];
    assert PushAll(lead, [text]) == Step([REPLACEMENT], []);
    var one: seq<seq<Byte>> := [joined];
    assert one[1..] == [];
  }

  lemma AsciiText()
    ensures var text: seq<Byte> := [0x41, 0x42]; Scan(text) == Step([0x41, 0x42], [])
  {
    var text: seq<Byte>, cs := [0x41, 0x42], [0x41, 0x42];
    assert cs[1..] == [0x42] && cs[1..][1..] == [];
    assert Encode(cs[1..]) == [0x42];
    assert Encode(cs) == text;
    DecodeEncode(cs);
  }

  lemma LeadWaits()
    ensures var lead: seq<Byte> := [0xE2]; Scan(lead) == Step([], lead)
  {
    var lead: seq<Byte> := [0xE2];
    assert HeadOf(lead).Cut? && lead[..0] == [] && lead[0..] == lead;
  }

  // ---------------- The decoder in place ----------------

  /** The decoder proper: four bytes of storage and a fill level. */
  class Carry {
    const pending: array<Byte>
    var len: nat

    ghost predicate Valid()
      reads this, pending
    {
      && pending.Length == 4
      && (len > 0 ==> len < SeqLen(pending[0]))
    }

    ghost function Kept(): (kept: seq<Byte>)
      reads this, pending
      requires Valid()
      ensures Keepable(kept)
    {
      pending[..len]
    }

    constructor ()
      ensures Valid() && Kept() == [] && fresh(pending)
    {
      pending := new Byte[4](_ => 0);
      len := 0;
    }

    method CopyIn(at: nat, bytes: seq<Byte>)
      requires at + |bytes| <= pending.Length
      modifies pending
      ensures pending[at..at + |bytes|] == bytes
      ensures pending[..at] == old(pending[..at])
    {
      for i := 0 to |bytes|
        invariant pending[at..at + i] == bytes[..i]
        invariant pending[..at] == old(pending[..at])
      {
        pending[at + i] := bytes[i];
      }
    }

    /** Finish the carried sequence; says how much of the chunk it used up. */
    method Complete(bytes: seq<Byte>) returns (out: seq<int>, used: nat, waiting: bool)
      requires Valid() && len > 0
      modifies this`len, pending
      ensures Valid() && used == Take(old(Kept()), bytes)
      ensures waiting <==> |old(Kept())| + used < SeqLen(old(Kept())[0])
      ensures waiting ==> out == [] && Kept() == old(Kept()) + bytes[..used]
      ensures !waiting ==> Kept() == []
      ensures !waiting ==> var joined := old(Kept()) + bytes[..used];
                           out == if WellFormed(joined) then Decode(joined) else [REPLACEMENT]
    {
      ghost var kept := Kept();
      var needed := SeqLen(pending[0]) - len;
      used := if needed <= |bytes| then needed else |bytes|;
      CopyIn(len, bytes[..used]);
      assert pending[..len + used] == kept + bytes[..used];
      assert pending[0] == kept[0];
      len := len + used;
      waiting := len < SeqLen(pending[0]);
      out := [];
      if !waiting {
        var joined := pending[..len];
        out := if WellFormed(joined) then Decode(joined) else [REPLACEMENT];
        len := 0;
      }
    }

    /** The scanning loop over what the chunk still holds. */
    method ScanBytes(rest: seq<Byte>) returns (out: seq<int>)
      requires Valid() && len == 0
      modifies this`len, pending
      ensures Valid() && Step(out, Kept()) == Scan(rest)
    {
      hide HeadOf, Scalar, Decode, FromUtf8, Scan, SeqLen, Need;
      out := [];
      var i := 0;
      assert rest[0..] == rest && [] + Scan(rest).out == Scan(rest).out;
      while i < |rest|
        invariant 0 <= i <= |rest| && Valid() && len == 0
        invariant Emit(out, Scan(rest[i..])) == Scan(rest)
      {
        var tail := rest[i..];
        var c := FromUtf8(tail);
        ScanUnfold(tail);
        if c.Valid? {
          out := out + Decode(tail);
          break;
        }
        var v := c.validUpTo;
        var text := Decode(tail[..v]);
        i := i + v;
        if c.errorLen.Some? {
          var bad := c.errorLen.value;
          ghost var more := Scan(tail[v + bad..]);
          assert rest[i + bad..] == tail[v + bad..];
          assert out + (text + [REPLACEMENT] + more.out) == out + text + [REPLACEMENT] + more.out;
          out := out + text + [REPLACEMENT];
          i := i + bad;
        } else {
          out := out + text;
          ScanKeepable(tail);
          CopyIn(0, tail[v..]);
          assert pending[..|tail| - v] == tail[v..] && pending[0] == tail[v];
          len := |tail| - v;
          break;
        }
      }
      if i == |rest| {
        ScanNothing(rest[i..]);
        assert out + [] == out;
      }
    }

    /** `push`: on any bytes at all every index stays in range and the result is `Push`. */
    method PushBytes(bytes: seq<Byte>) returns (out: seq<int>)
      requires Valid()
      modifies this`len, pending
      ensures Valid()
      ensures Step(out, Kept()) == Push(old(Kept()), bytes)
    {
      hide HeadOf, Scalar, Decode, FromUtf8, Scan;
      ghost var kept := Kept();
      if len > 0 {
        var used, waiting;
        out, used, waiting := Complete(bytes);
        if !waiting {
          var more := ScanBytes(bytes[used..]);
          out := out + more;
        }
      } else {
        assert kept == [];
        out := ScanBytes(bytes);
      }
    }
  }
}
