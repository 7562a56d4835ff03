/** The sandbox's seccomp filter: the generator, a classic BPF interpreter, and the byte
    encoding the loader reads. */
module Seccomp {
  import opened Bytes

  const LD_W_ABS: U16 := 0x20
  const JEQ_K: U16 := 0x15
  const RET_K: U16 := 0x06

  const AUDIT_ARCH_X86_64: U32 := 0xC000_003E
  const RET_ERRNO_EPERM: U32 := 0x0005_0001
  const RET_ALLOW: U32 := 0x7FFF_0000

  /** `struct sock_filter` */
  datatype Instr = Instr(code: U16, jt: Byte, jf: Byte, k: U32)

  // ---------------- The machine ----------------

  /** `struct seccomp_data` as sixteen 32-bit words: the system call number, the audit
      architecture, then the code address and arguments. */
  type Data = w: seq<U32> | |w| == 16 witness seq(16, _ => 0)

  /** Runs from `pc`; none when the filter loads outside the data, meets an unknown
      instruction or falls off its end. Jumps only go forward. */
  function Run(prog: seq<Instr>, data: Data, pc: nat, acc: U32): Option<U32>
    decreases |prog| - pc
  {
    if pc >= |prog| then None
    else
      var i := prog[pc];
      if i.code == LD_W_ABS then
        if i.k % 4 == 0 && i.k < 64 then Run(prog, data, pc + 1, data[i.k / 4]) else None
      else if i.code == JEQ_K then Run(prog, data, pc + 1 + (if acc == i.k then i.jt else i.jf), acc)
      else if i.code == RET_K then Some(i.k)
      else None
  }

  // ---------------- The generator ----------------

  /** The comparison for entry `i`: on a match jump to the last instruction. */
  function Check(denied: seq<U32>, i: nat): Instr
    requires i < |denied|
  {
    Instr(JEQ_K, (|denied| - i) % 256, 0, denied[i])
  }

  function Checks(denied: seq<U32>, upto: nat): (r: seq<Instr>)
    requires upto <= |denied|
    ensures |r| == upto && forall i :: 0 <= i < upto ==> r[i] == Check(denied, i)
  {
    if upto == 0 then [] else Checks(denied, upto - 1) + [Check(denied, upto - 1)]
  }

  const GATE: seq<Instr> := [
    Instr(LD_W_ABS, 0, 0, 4),
    Instr(JEQ_K, 1, 0, AUDIT_ARCH_X86_64),
    Instr(RET_K, 0, 0, RET_ERRNO_EPERM),
    Instr(LD_W_ABS, 0, 0, 0)]

  const RETURNS: seq<Instr> := [Instr(RET_K, 0, 0, RET_ALLOW), Instr(RET_K, 0, 0, RET_ERRNO_EPERM)]

  function Filter(denied: seq<U32>): seq<Instr> {
    GATE + Checks(denied, |denied|) + RETURNS
  }

  // ---------------- The encoding ----------------

  function Le16(x: U16): seq<Byte> {
    [x % 256, x / 256]
  }

  function Le32(x: U32): seq<Byte> {
    [x % 256, x / 256 % 256, x / 256 / 256 % 256, x / 256 / 256 / 256]
  }

  function EncodeInstr(i: Instr): (s: seq<Byte>)
    ensures |s| == 8
  {
    Le16(i.code) + [i.jt] + [i.jf] + Le32(i.k)
  }

  function EncodeAll(p: seq<Instr>): (s: seq<Byte>)
    ensures |s| == 8 * |p|
  {
    if p == [] then [] else EncodeAll(p[..|p| - 1]) + EncodeInstr(p[|p| - 1])
  }

  /** How the loader reads one record. */
  function ReadInstr(s: seq<Byte>): Instr
    requires |s| == 8
  {
    Instr(Word16(s[0], s[1]), s[2], s[3], Word32(s[4], s[5], s[6], s[7]))
  }

  function Word16(a: Byte, b: Byte): U16 {
    var lo: int, hi: int := a, b;
    lo + 256 * hi
  }

  function Word32(a: Byte, b: Byte, c: Byte, d: Byte): U32 {
    var w0: int, w1: int, w2: int, w3: int := a, b, c, d;
    w0 + 256 * (w1 + 256 * (w2 + 256 * w3))
  }

  function ReadAll(s: seq<Byte>): seq<Instr>
    requires |s| % 8 == 0
  {
    if s == [] then [] else ReadAll(s[..|s| - 8]) + [ReadInstr(s[|s| - 8..])]
  }

  lemma ReadEncoded(i: Instr)
    ensures ReadInstr(EncodeInstr(i)) == i
  {
    var s := EncodeInstr(i);
    assert s == [i.code % 256, i.code / 256, i.jt, i.jf,
                 i.k % 256, i.k / 256 % 256, i.k / 256 / 256 % 256, i.k / 256 / 256 / 256];
    assert Word16(s[0], s[1]) == i.code;
    assert Word32(s[4], s[5], s[6], s[7]) == i.k;
  }

  /** The loader reads back the program that was written. */
  lemma {:induction false} ReadBack(p: seq<Instr>)
    ensures ReadAll(EncodeAll(p)) == p
  {
    hide EncodeInstr, ReadInstr;
    if p != [] {
      var n := |p| - 1;
      var front, last := EncodeAll(p[..n]), EncodeInstr(p[n]);
      var s := front + last;
      assert s[..|s| - 8] == front && s[|s| - 8..] == last;
      ReadBack(p[..n]);
      ReadEncoded(p[n]);
      assert p == p[..n] + [p[n]];
    }
  }

  /** One `stmt` of the generator. */
  lemma EncodeSnoc(p: seq<Instr>, i: Instr)
    ensures EncodeAll(p + [i]) == EncodeAll(p) + EncodeInstr(i)
  {
    assert (p + [i])[..|p|] == p;
  }

  /** `seccomp_program`: the bytes, pushed one instruction at a time. */
  method SeccompProgram(denied: seq<U32>) returns (program: seq<Byte>)
    ensures |program| % 8 == 0 && ReadAll(program) == Filter(denied)
  {
    hide EncodeInstr, ReadAll;
    ghost var done := GATE;
    EncodeGate();
    program := EncodeInstr(GATE[0]) + EncodeInstr(GATE[1]) + EncodeInstr(GATE[2]) + EncodeInstr(GATE[3]);
    for i := 0 to |denied|
      invariant program == EncodeAll(done) && done == GATE + Checks(denied, i)
    {
      var check := Instr(JEQ_K, (|denied| - i) % 256, 0, denied[i]);
      program := program + EncodeInstr(check);
      EncodeSnoc(done, check);
      done := done + [check];
    }
    program := program + EncodeInstr(RETURNS[0]);
    EncodeSnoc(done, RETURNS[0]);
    done := done + [RETURNS[0]];
    program := program + EncodeInstr(RETURNS[1]);
    EncodeSnoc(done, RETURNS[1]);
    done := done + [RETURNS[1]];
    assert done == Filter(denied);
    ReadBack(done);
  }

  lemma EncodeGate()
    ensures EncodeAll(GATE) == EncodeInstr(GATE[0]) + EncodeInstr(GATE[1]) + EncodeInstr(GATE[2]) + EncodeInstr(GATE[3])
  {
    hide EncodeInstr;
    EncodeSnoc([], GATE[0]);
    EncodeSnoc([GATE[0]], GATE[1]);
    EncodeSnoc([GATE[0], GATE[1]], GATE[2]);
    EncodeSnoc([GATE[0], GATE[1], GATE[2]], GATE[3]);
    assert [] + [GATE[0]] == [GATE[0]];
    assert [GATE[0]] + [GATE[1]] == [GATE[0], GATE[1]];
    assert [GATE[0], GATE[1]] + [GATE[2]] == [GATE[0], GATE[1], GATE[2]];
    assert [GATE[0], GATE[1], GATE[2]] + [GATE[3]] == GATE;
  }

  // ---------------- What the filter decides ----------------

  lemma FilterAt(denied: seq<U32>, pc: nat)
    ensures |Filter(denied)| == |denied| + 6
    ensures pc < 4 ==> Filter(denied)[pc] == GATE[pc]
    ensures 4 <= pc < 4 + |denied| ==> Filter(denied)[pc] == Check(denied, pc - 4)
    ensures pc == 4 + |denied| ==> Filter(denied)[pc] == RETURNS[0]
    ensures pc == 5 + |denied| ==> Filter(denied)[pc] == RETURNS[1]
  {
  }

  /** From comparison `i` on: deny when the number is still to come, else allow. */
  lemma {:induction false} FromCheck(denied: seq<U32>, data: Data, i: nat)
    requires |denied| <= 255 && i <= |denied|
    ensures Run(Filter(denied), data, 4 + i, data[0])
            == Some(if data[0] in denied[i..] then RET_ERRNO_EPERM else RET_ALLOW)
    decreases |denied| - i
  {
    hide Filter;
    FilterAt(denied, 4 + i);
    FilterAt(denied, 5 + |denied|);
    if i < |denied| {
      FromCheck(denied, data, i + 1);
      assert denied[i..] == [denied[i]] + denied[i + 1..];
    }
  }

  predicate Denies(denied: seq<U32>, data: Data) {
    data[1] != AUDIT_ARCH_X86_64 || data[0] in denied
  }

  function Verdict(denied: seq<U32>, data: Data): U32 {
    if Denies(denied, data) then RET_ERRNO_EPERM else RET_ALLOW
  }

  lemma ThroughGate(denied: seq<U32>, data: Data)
    ensures Run(Filter(denied), data, 0, 0)
            == if data[1] != AUDIT_ARCH_X86_64 then Some(RET_ERRNO_EPERM) else Run(Filter(denied), data, 4, data[0])
  {
    hide Filter;
    FilterAt(denied, 0);
    FilterAt(denied, 1);
    FilterAt(denied, 2);
    FilterAt(denied, 3);
    var p := Filter(denied);
    assert Run(p, data, 0, 0) == Run(p, data, 1, data[1]);
    if data[1] == AUDIT_ARCH_X86_64 {
      assert Run(p, data, 1, data[1]) == Run(p, data, 3, data[1]);
    } else {
      assert Run(p, data, 1, data[1]) == Run(p, data, 2, data[1]);
    }
  }

  /** For every deny list of at most 255 entries and every system call on every
      architecture the filter halts with exactly the intended verdict. */
  lemma FilterDecides(denied: seq<U32>, data: Data)
    requires |denied| <= 255
    ensures Run(Filter(denied), data, 0, 0) == Some(Verdict(denied, data))
  {
    hide Filter, Run;
    ThroughGate(denied, data);
    FromCheck(denied, data, 0);
    assert denied[0..] == denied;
  }

  predicate Distinct(s: seq<U32>) {
    forall i, j :: 0 <= i < j < |s| ==> s[i] != s[j]
  }

  /** A comparison whose jump truncates to zero does not deny. */
  lemma {:induction false} FallsThrough(denied: seq<U32>, data: Data, i: nat)
    requires i <= |denied|
    requires forall j :: i <= j < |denied| && denied[j] == data[0] ==> (|denied| - j) % 256 == 0
    ensures Run(Filter(denied), data, 4 + i, data[0]) == Some(RET_ALLOW)
    decreases |denied| - i
  {
    hide Filter;
    FilterAt(denied, 4 + i);
    if i < |denied| { FallsThrough(denied, data, i + 1); }
  }

  /** The jump offset is a byte. Lists of distinct numbers filter correctly exactly up to
      255 entries; with more, the entry 256 from the end is let through. */
  lemma DistinctListsExactly(denied: seq<U32>)
    requires Distinct(denied)
    ensures |denied| <= 255 <==> forall data: Data :: Run(Filter(denied), data, 0, 0) == Some(Verdict(denied, data))
  {
    hide Filter, Run;
    if |denied| <= 255 {
      forall data: Data ensures Run(Filter(denied), data, 0, 0) == Some(Verdict(denied, data)) {
        FilterDecides(denied, data);
      }
    } else {
      var at := |denied| - 256;
      var data: Data := [denied[at], AUDIT_ARCH_X86_64] + seq(14, _ => 0);
      assert data[0] == denied[at] && data[1] == AUDIT_ARCH_X86_64;
      forall j | 0 <= j < |denied| && denied[j] == data[0] ensures (|denied| - j) % 256 == 0 {
        assert j == at;
      }
      ThroughGate(denied, data);
      FallsThrough(denied, data, 0);
      assert Run(Filter(denied), data, 0, 0) != Some(Verdict(denied, data));
    }
  }

  // ---------------- The list in use ----------------

  const DENIED_SYSCALLS: seq<U32> := [
    425, 426, 427, 323, 248, 249, 250, 321, 298, 310, 311, 438, 304, 312, 203, 272]

  /** The shipped filter allows what it does not list on x86_64, and answers everything else
      with the error number of a missing permission, 1. */
  lemma ShippedFilter(data: Data)
    ensures Run(Filter(DENIED_SYSCALLS), data, 0, 0)
            == Some(if data[1] == 0xC000_003E
                       && data[0] !in {203, 248, 249, 250, 272, 298, 304, 310, 311, 312, 321, 323, 425, 426, 427, 438}
                    then 0x7FFF_0000 else 0x0005_0000 + 1)
  {
    hide Run, Filter;
    FilterDecides(DENIED_SYSCALLS, data);
  }
}
