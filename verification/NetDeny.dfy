/**
 * The seccomp filter of netdeny.py: the packed program, a classic-BPF interpreter, and its verdict on
 * every system call.
 */
module NetDeny {
  import opened Base

  type Word32 = n: nat | n < 0x1_0000_0000

  const LD_W_ABS := 0x20
  const JEQ_K := 0x15
  const JGE_K := 0x35
  const RET_K := 0x06
  const RET_ALLOW: Word32 := 0x7FFF0000
  const RET_KILL_PROCESS: Word32 := 0x80000000
  const RET_ERRNO_EACCES: Word32 := 0x0005000D
  const AF_UNIX: Word32 := 1
  const X32_BIT: Word32 := 0x40000000
  const IO_URING_SETUP: Word32 := 425

  datatype Ins = Ins(code: nat, jt: byte, jf: byte, k: Word32)

  function BuildFilter(arch: Word32, nrSocket: Word32): seq<Ins> {
    [ Ins(LD_W_ABS, 0, 0, 4),
      Ins(JEQ_K, 1, 0, arch),
      Ins(RET_K, 0, 0, RET_KILL_PROCESS),
      Ins(LD_W_ABS, 0, 0, 0),
      Ins(JGE_K, 5, 0, X32_BIT),
      Ins(JEQ_K, 4, 0, IO_URING_SETUP),
      Ins(JEQ_K, 0, 2, nrSocket),
      Ins(LD_W_ABS, 0, 0, 16),
      Ins(JEQ_K, 0, 1, AF_UNIX),
      Ins(RET_K, 0, 0, RET_ALLOW),
      Ins(RET_K, 0, 0, RET_ERRNO_EACCES) ]
  }

  // ---------------------------------------------------------------- packing

  /** struct.pack("HBBI") on a little-endian machine: eight bytes, no padding. */
  function Pack(i: Ins): (bs: Bytes)
    requires i.code < 0x1_0000
    ensures |bs| == 8
  {
    [i.code % 256, i.code / 256, i.jt, i.jf, i.k % 256, i.k / 256 % 256, i.k / 0x1_0000 % 256, i.k / 0x100_0000]
  }

  function Unpack(bs: Bytes): Ins
    requires |bs| == 8
  {
    var b := (i: nat) requires i < 8 => bs[i] as int;
    Ins(b(0) + 256 * b(1), bs[2], bs[3], b(4) + 256 * b(5) + 0x1_0000 * b(6) + 0x100_0000 * b(7))
  }

  function PackAll(prog: seq<Ins>): Bytes
    requires forall i :: 0 <= i < |prog| ==> prog[i].code < 0x1_0000
  {
    if prog == [] then [] else Pack(prog[0]) + PackAll(prog[1..])
  }

  /** What the kernel reads back from the buffer. */
  function UnpackAll(bs: Bytes): Option<seq<Ins>> {
    if bs == [] then Some([])
    else if |bs| < 8 then None
    else
      match UnpackAll(bs[8..])
      case None => None
      case Some(rest) => Some([Unpack(bs[..8])] + rest)
  }

  lemma PackRoundTrip(i: Ins)
    requires i.code < 0x1_0000
    ensures Unpack(Pack(i)) == i
  {
    var k := i.k;
    assert k == k % 256 + 256 * (k / 256) && k / 256 == k / 256 % 256 + 256 * (k / 0x1_0000);
    assert k / 0x1_0000 == k / 0x1_0000 % 256 + 256 * (k / 0x100_0000);
  }

  lemma {:induction false} PackAllRoundTrip(prog: seq<Ins>)
    requires forall i :: 0 <= i < |prog| ==> prog[i].code < 0x1_0000
    ensures UnpackAll(PackAll(prog)) == Some(prog) && |PackAll(prog)| == 8 * |prog|
  {
    if prog != [] {
      PackRoundTrip(prog[0]);
      PackAllRoundTrip(prog[1..]);
      var bs := PackAll(prog);
      assert bs[..8] == Pack(prog[0]) && bs[8..] == PackAll(prog[1..]);
      assert prog == [prog[0]] + prog[1..];
    }
  }

  // ---------------------------------------------------------------- running

  /** The words of seccomp_data the program can load, by offset. */
  datatype SysCall = SysCall(nr: Word32, arch: Word32, arg0: Word32, others: nat -> Word32)

  function LoadWord(c: SysCall, offset: nat): Word32 {
    if offset == 0 then c.nr else if offset == 4 then c.arch else if offset == 16 then c.arg0 else c.others(offset)
  }

  /** One run from instruction `pc` with accumulator `a`; None when the program runs off its end or is malformed. */
  function Exec(prog: seq<Ins>, c: SysCall, pc: nat, a: Word32): Option<Word32>
    decreases |prog| - pc
  {
    if pc >= |prog| then None
    else
      var i := prog[pc];
      if i.code == LD_W_ABS then Exec(prog, c, pc + 1, LoadWord(c, i.k))
      else if i.code == JEQ_K then Exec(prog, c, pc + 1 + (if a == i.k then i.jt else i.jf), a)
      else if i.code == JGE_K then Exec(prog, c, pc + 1 + (if a >= i.k then i.jt else i.jf), a)
      else if i.code == RET_K then Some(i.k)
      else None
  }

  /** What the kernel checks before it accepts a filter. */
  predicate Accepted(prog: seq<Ins>) {
    && prog != [] && prog[|prog| - 1].code == RET_K
    && forall i :: 0 <= i < |prog| ==>
         && prog[i].code in {LD_W_ABS, JEQ_K, JGE_K, RET_K}
         && (prog[i].code in {JEQ_K, JGE_K} ==> i + 1 + prog[i].jt < |prog| && i + 1 + prog[i].jf < |prog|)
         && (prog[i].code == LD_W_ABS ==> prog[i].k % 4 == 0 && prog[i].k < 64)
  }

  /** An accepted program always comes to a verdict. */
  lemma {:induction false} AcceptedTerminates(prog: seq<Ins>, c: SysCall, pc: nat, a: Word32)
    requires Accepted(prog) && pc < |prog|
    ensures Exec(prog, c, pc, a).Some?
    decreases |prog| - pc
  {
    var i := prog[pc];
    if i.code == LD_W_ABS { AcceptedTerminates(prog, c, pc + 1, LoadWord(c, i.k)); }
    else if i.code == JEQ_K { AcceptedTerminates(prog, c, pc + 1 + (if a == i.k then i.jt else i.jf), a); }
    else if i.code == JGE_K { AcceptedTerminates(prog, c, pc + 1 + (if a >= i.k then i.jt else i.jf), a); }
  }

  lemma FilterAccepted(arch: Word32, nrSocket: Word32)
    ensures Accepted(BuildFilter(arch, nrSocket)) && |BuildFilter(arch, nrSocket)| == 11
  {
  }

  /** The rule in the program's documentation. */
  function Verdict(arch: Word32, nrSocket: Word32, c: SysCall): Word32 {
    if c.arch != arch then RET_KILL_PROCESS
    else if c.nr >= X32_BIT || c.nr == IO_URING_SETUP || (c.nr == nrSocket && c.arg0 != AF_UNIX) then RET_ERRNO_EACCES
    else RET_ALLOW
  }

  lemma ExecReturns(prog: seq<Ins>, c: SysCall, a: Word32)
    requires |prog| == 11 && prog[9] == Ins(RET_K, 0, 0, RET_ALLOW) && prog[10] == Ins(RET_K, 0, 0, RET_ERRNO_EACCES)
    ensures Exec(prog, c, 9, a) == Some(RET_ALLOW) && Exec(prog, c, 10, a) == Some(RET_ERRNO_EACCES)
  {
  }

  lemma ExecSocket(prog: seq<Ins>, c: SysCall, nrSocket: Word32, a: Word32)
    requires |prog| == 11 && prog[9] == Ins(RET_K, 0, 0, RET_ALLOW) && prog[10] == Ins(RET_K, 0, 0, RET_ERRNO_EACCES)
    requires prog[6] == Ins(JEQ_K, 0, 2, nrSocket) && prog[7] == Ins(LD_W_ABS, 0, 0, 16)
            && prog[8] == Ins(JEQ_K, 0, 1, AF_UNIX)
    ensures Exec(prog, c, 6, a) == Some(if a == nrSocket && c.arg0 != AF_UNIX then RET_ERRNO_EACCES else RET_ALLOW)
  {
    ExecReturns(prog, c, a);
    ExecReturns(prog, c, c.arg0);
    assert Exec(prog, c, 8, c.arg0) == Some(if c.arg0 == AF_UNIX then RET_ALLOW else RET_ERRNO_EACCES);
    assert Exec(prog, c, 7, a) == Exec(prog, c, 8, c.arg0);
  }

  lemma ExecNumber(prog: seq<Ins>, c: SysCall, nrSocket: Word32, a: Word32)
    requires |prog| == 11 && prog[9] == Ins(RET_K, 0, 0, RET_ALLOW) && prog[10] == Ins(RET_K, 0, 0, RET_ERRNO_EACCES)
    requires prog[6] == Ins(JEQ_K, 0, 2, nrSocket) && prog[7] == Ins(LD_W_ABS, 0, 0, 16)
            && prog[8] == Ins(JEQ_K, 0, 1, AF_UNIX)
    requires prog[3] == Ins(LD_W_ABS, 0, 0, 0) && prog[4] == Ins(JGE_K, 5, 0, X32_BIT)
            && prog[5] == Ins(JEQ_K, 4, 0, IO_URING_SETUP)
    ensures Exec(prog, c, 3, a)
            == Some(if c.nr >= X32_BIT || c.nr == IO_URING_SETUP || (c.nr == nrSocket && c.arg0 != AF_UNIX)
                    then RET_ERRNO_EACCES else RET_ALLOW)
  {
    ExecReturns(prog, c, c.nr);
    ExecSocket(prog, c, nrSocket, c.nr);
    assert Exec(prog, c, 5, c.nr) == if c.nr == IO_URING_SETUP then Exec(prog, c, 10, c.nr) else Exec(prog, c, 6, c.nr);
    assert Exec(prog, c, 4, c.nr) == if c.nr >= X32_BIT then Exec(prog, c, 10, c.nr) else Exec(prog, c, 5, c.nr);
    assert Exec(prog, c, 3, a) == Exec(prog, c, 4, c.nr);
  }

  /** A 32-bit field, least significant byte first. */
  function Little(w: Word32): Bytes {
    [w % 256, w / 256 % 256, w / 65536 % 256, w / 16777216]
  }

  lemma {:induction false} PackedAt(prog: seq<Ins>, k: nat)
    requires k < |prog| && forall i :: 0 <= i < |prog| ==> prog[i].code < 0x1_0000
    ensures |PackAll(prog)| == 8 * |prog| && PackAll(prog)[8 * k..8 * k + 8] == Pack(prog[k])
  {
    PackAllRoundTrip(prog);
    var rest := prog[1..];
    if k > 0 {
      PackedAt(rest, k - 1);
      assert PackAll(prog)[8 * k..8 * k + 8] == PackAll(rest)[8 * (k - 1)..8 * (k - 1) + 8];
    }
  }

  /** The eleven rows of eight bytes. */
  function Rows(arch: Word32, nrSocket: Word32): seq<Bytes> {
    [ [0x20, 0, 0, 0, 4, 0, 0, 0],
      [0x15, 0, 1, 0] + Little(arch),
      [0x06, 0, 0, 0, 0, 0, 0, 0x80],
      [0x20, 0, 0, 0, 0, 0, 0, 0],
      [0x35, 0, 5, 0, 0, 0, 0, 0x40],
      [0x15, 0, 4, 0, 0xA9, 0x01, 0, 0],
      [0x15, 0, 0, 2] + Little(nrSocket),
      [0x20, 0, 0, 0, 16, 0, 0, 0],
      [0x15, 0, 0, 1, 1, 0, 0, 0],
      [0x06, 0, 0, 0, 0, 0, 0xFF, 0x7F],
      [0x06, 0, 0, 0, 13, 0, 5, 0] ]
  }

  lemma RowIs(arch: Word32, nrSocket: Word32, k: nat)
    requires k < 11
    ensures Pack(BuildFilter(arch, nrSocket)[k]) == Rows(arch, nrSocket)[k]
  {
  }

  /** The program handed to the kernel, byte for byte. */
  lemma FilterBytes(arch: Word32, nrSocket: Word32)
    ensures |PackAll(BuildFilter(arch, nrSocket))| == 88
    ensures forall k :: 0 <= k < 11 ==>
              PackAll(BuildFilter(arch, nrSocket))[8 * k..8 * k + 8] == Rows(arch, nrSocket)[k]
  {
    var prog := BuildFilter(arch, nrSocket);
    PackAllRoundTrip(prog);
    forall k | 0 <= k < 11 ensures PackAll(prog)[8 * k..8 * k + 8] == Rows(arch, nrSocket)[k] {
      PackedAt(prog, k);
      RowIs(arch, nrSocket, k);
    }
  }

  /** The bytes handed to the kernel decide every system call by that rule, for every architecture and argument. */
  lemma FilterVerdict(arch: Word32, nrSocket: Word32, c: SysCall)
    ensures UnpackAll(PackAll(BuildFilter(arch, nrSocket))) == Some(BuildFilter(arch, nrSocket))
    ensures Exec(BuildFilter(arch, nrSocket), c, 0, 0) == Some(Verdict(arch, nrSocket, c))
    ensures Verdict(arch, nrSocket, c) ==
            if c.arch != arch then 0x80000000                                             // killed
            else if c.nr >= 0x40000000 || c.nr == 425 then 0x00050000 + 13                // refused: x32, io_uring
            else if c.nr == nrSocket && c.arg0 != 1 then 0x00050000 + 13                  // refused: not AF_UNIX
            else 0x7FFF0000                                                               // allowed
  {
    var prog := BuildFilter(arch, nrSocket);
    PackAllRoundTrip(prog);
    ExecNumber(prog, c, nrSocket, c.arch);
    assert Exec(prog, c, 2, c.arch) == Some(RET_KILL_PROCESS);
    assert Exec(prog, c, 1, c.arch) == if c.arch == arch then Exec(prog, c, 3, c.arch) else Exec(prog, c, 2, c.arch);
    assert Exec(prog, c, 0, 0) == Exec(prog, c, 1, c.arch);
  }
}
