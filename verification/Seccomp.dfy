/**
 * The system-call filter `micronux-job-exec` installs: a classic BPF program made from a list of
 * system-call numbers, the kernel's check of such programs, and what running one returns.
 */
module Seccomp {
  import opened Bytes

  type word = n: nat | n < 0x1_0000_0000

  const LOAD_WORD := 0x20
  const JUMP_EQUAL := 0x15
  const RETURN := 0x06

  const ALLOW: word := 0x7FFF_0000
  const KILL_PROCESS: word := 0x8000_0000
  const ERRNO_EPERM: word := 0x0005_0001
  const ARCH_RISCV32: word := 0x4000_00F3

  /** `struct seccomp_data`: the call number, then the architecture, 64 octets in all. */
  const DATA_SIZE := 64
  const NR_OFFSET: word := 0
  const ARCH_OFFSET: word := 4
  const MAX_INSTRUCTIONS := 4096

  /** `struct sock_filter`. */
  datatype Instruction = Instruction(code: nat, jt: byte, jf: byte, k: word)

  function Load(offset: word): Instruction {
    Instruction(LOAD_WORD, 0, 0, offset)
  }

  function JumpEqual(k: word, jt: byte, jf: byte): Instruction {
    Instruction(JUMP_EQUAL, jt, jf, k)
  }

  function Return(k: word): Instruction {
    Instruction(RETURN, 0, 0, k)
  }

  // ---------------------------------------------------------------------------------------------
  // The machine
  // ---------------------------------------------------------------------------------------------

  datatype Result = Returned(value: word) | Fault

  /** One run over a record of call data; anything the machine does not know is a fault. */
  function Run(program: seq<Instruction>, data: seq<byte>, pc: nat, acc: word): Result
    requires |data| == DATA_SIZE
    decreases |program| - pc
  {
    if pc >= |program| then Fault
    else
      var i := program[pc];
      if i.code == LOAD_WORD then
        if i.k + 4 > DATA_SIZE then Fault else Run(program, data, pc + 1, U32(data, i.k))
      else if i.code == JUMP_EQUAL then
        Run(program, data, pc + 1 + if acc == i.k then i.jt else i.jf, acc)
      else if i.code == RETURN then Returned(i.k)
      else Fault
  }

  /** The kernel's conditions on the instruction at `pc`. */
  predicate Sound(program: seq<Instruction>, pc: nat)
    requires pc < |program|
  {
    var i := program[pc];
    if i.code == LOAD_WORD then i.k % 4 == 0 && i.k + 4 <= DATA_SIZE && pc + 1 < |program|
    else if i.code == JUMP_EQUAL then pc + 1 + i.jt < |program| && pc + 1 + i.jf < |program|
    else i.code == RETURN
  }

  /** A program the kernel takes: bounded, jumps forward and in range, and ending in a return. */
  predicate Checked(program: seq<Instruction>) {
    && 0 < |program| <= MAX_INSTRUCTIONS && program[|program| - 1].code == RETURN
    && forall pc :: 0 <= pc < |program| ==> Sound(program, pc)
  }

  /** Checked programs always reach a return of one of their own values. */
  lemma {:induction false} CheckedReturns(program: seq<Instruction>, data: seq<byte>, pc: nat, acc: word)
    requires |data| == DATA_SIZE && Checked(program) && pc < |program|
    ensures var r := Run(program, data, pc, acc);
            r.Returned? && exists at :: pc <= at < |program| && program[at].code == RETURN && program[at].k == r.value
    decreases |program| - pc
  {
    var i := program[pc];
    assert Sound(program, pc);
    if i.code == LOAD_WORD {
      CheckedReturns(program, data, pc + 1, U32(data, i.k));
    } else if i.code == JUMP_EQUAL {
      CheckedReturns(program, data, pc + 1 + if acc == i.k then i.jt else i.jf, acc);
    }
  }

  // ---------------------------------------------------------------------------------------------
  // The filter
  // ---------------------------------------------------------------------------------------------

  /** `ALLOW_SYSCALL` for each number of the list. */
  function Allows(list: seq<word>): (p: seq<Instruction>)
    ensures |p| == 2 * |list|
  {
    if list == [] then []
    else [JumpEqual(list[0], 0, 1), Return(ALLOW)] + Allows(list[1..])
  }

  const PROLOGUE: seq<Instruction> :=
    [Load(ARCH_OFFSET), JumpEqual(ARCH_RISCV32, 1, 0), Return(KILL_PROCESS), Load(NR_OFFSET)]

  function Filter(list: seq<word>): seq<Instruction> {
    PROLOGUE + Allows(list) + [Return(ERRNO_EPERM)]
  }

  lemma {:induction false} AllowsAt(list: seq<word>, k: nat)
    requires k < |list|
    ensures Allows(list)[2 * k] == JumpEqual(list[k], 0, 1) && Allows(list)[2 * k + 1] == Return(ALLOW)
    decreases |list|
  {
    if k > 0 {
      AllowsAt(list[1..], k - 1);
    }
  }

  /** Where each entry of the list stands in the program. */
  lemma FilterAt(list: seq<word>, k: nat)
    requires k < |list|
    ensures Filter(list)[4 + 2 * k] == JumpEqual(list[k], 0, 1) && Filter(list)[5 + 2 * k] == Return(ALLOW)
  {
    AllowsAt(list, k);
  }

  /** The filter is acceptable whatever the list, as long as it is not too long. */
  lemma FilterChecked(list: seq<word>)
    ensures Checked(Filter(list)) <==> |list| <= 2045
    ensures |Filter(list)| == 2 * |list| + 5
  {
    var program := Filter(list);
    forall pc | 0 <= pc < |program|
      ensures Sound(program, pc)
    {
      if 4 <= pc < |program| - 1 {
        FilterAt(list, (pc - 4) / 2);
        assert pc == 4 + 2 * ((pc - 4) / 2) || pc == 5 + 2 * ((pc - 4) / 2);
      }
    }
  }

  /** From entry `k` on, the filter decides by the rest of the list. */
  lemma {:induction false} RunAllows(list: seq<word>, data: seq<byte>, k: nat, nr: word)
    requires |data| == DATA_SIZE && k <= |list|
    ensures Run(Filter(list), data, 4 + 2 * k, nr) == Returned(if nr in list[k..] then ALLOW else ERRNO_EPERM)
    decreases |list| - k
  {
    var program := Filter(list);
    if k < |list| {
      FilterAt(list, k);
      assert list[k..] == [list[k]] + list[k + 1..];
      if nr != list[k] {
        RunAllows(list, data, k + 1, nr);
        assert Run(program, data, 4 + 2 * k, nr) == Run(program, data, 4 + 2 * k + 1 + 1, nr);
      } else {
        assert Run(program, data, 4 + 2 * k, nr) == Run(program, data, 4 + 2 * k + 1 + 0, nr);
      }
    }
  }

  /** The filter means its list: kill a foreign architecture, allow what is listed, refuse the rest. */
  lemma FilterMeaning(list: seq<word>, data: seq<byte>, acc: word)
    requires |data| == DATA_SIZE
    ensures Run(Filter(list), data, 0, acc)
            == Returned(if U32(data, ARCH_OFFSET) != ARCH_RISCV32 then KILL_PROCESS
                        else if U32(data, NR_OFFSET) in list then ALLOW
                        else ERRNO_EPERM)
  {
    var program := Filter(list);
    var arch := U32(data, ARCH_OFFSET);
    assert program[0] == Load(ARCH_OFFSET) && program[1] == JumpEqual(ARCH_RISCV32, 1, 0);
    assert program[2] == Return(KILL_PROCESS) && program[3] == Load(NR_OFFSET);
    assert Run(program, data, 0, acc) == Run(program, data, 1, arch);
    if arch == ARCH_RISCV32 {
      assert Run(program, data, 1, arch) == Run(program, data, 3, arch);
      assert Run(program, data, 3, arch) == Run(program, data, 4, U32(data, NR_OFFSET));
      RunAllows(list, data, 0, U32(data, NR_OFFSET));
      assert list[0..] == list;
    } else {
      assert Run(program, data, 1, arch) == Run(program, data, 2, arch);
    }
  }

  /** Order and repetition in the list do not matter, and a longer list only ever allows more. */
  lemma MoreAllowsMore(shorter: seq<word>, longer: seq<word>, data: seq<byte>)
    requires |data| == DATA_SIZE && forall nr :: nr in shorter ==> nr in longer
    ensures Run(Filter(shorter), data, 0, 0) == Returned(ALLOW) ==> Run(Filter(longer), data, 0, 0) == Returned(ALLOW)
    ensures (forall nr :: nr in longer ==> nr in shorter) ==>
              Run(Filter(shorter), data, 0, 0) == Run(Filter(longer), data, 0, 0)
  {
    FilterMeaning(shorter, data, 0);
    FilterMeaning(longer, data, 0);
  }
}
