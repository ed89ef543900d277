/** struct trapframe of kernel/proc.h, field by field, and what fork and exec make of it. */
module Registers {
  import opened Kalloc
  import opened PageTable
  import opened Processes
  import Exec

  /** The user registers of a process and what the kernel needs to come back, in the order in
      which they lie in the page. */
  datatype Trapframe = Trapframe(
    kernelSatp: nat, kernelSp: nat, kernelTrap: nat, epc: nat, kernelHartid: nat, ra: nat, sp: nat,
    gp: nat, tp: nat, t0: nat, t1: nat, t2: nat, s0: nat, s1: nat, a0: nat, a1: nat, a2: nat, a3: nat,
    a4: nat, a5: nat, a6: nat, a7: nat, s2: nat, s3: nat, s4: nat, s5: nat, s6: nat, s7: nat, s8: nat,
    s9: nat, s10: nat, s11: nat, t3: nat, t4: nat, t5: nat, t6: nat)

  function Words(f: Trapframe): (w: seq<nat>)
    ensures |w| == TRAPFRAME_WORDS
  {
    [f.kernelSatp, f.kernelSp, f.kernelTrap, f.epc, f.kernelHartid, f.ra, f.sp, f.gp, f.tp, f.t0, f.t1,
     f.t2, f.s0, f.s1, f.a0, f.a1, f.a2, f.a3, f.a4, f.a5, f.a6, f.a7, f.s2, f.s3, f.s4, f.s5, f.s6,
     f.s7, f.s8, f.s9, f.s10, f.s11, f.t3, f.t4, f.t5, f.t6]
  }

  /** The page holds that frame. */
  ghost predicate Frame(page: Page, f: Trapframe) { page[..TRAPFRAME_WORDS] == Words(f) }

  /** A child starts with its parent's registers, but that its fork() returns 0. */
  lemma ForkRegisters(mem: Ram, parent: nat, child: nat, f: Trapframe)
    requires ForkFrame(mem, parent, child) && Frame(mem[parent], f)
    ensures Frame(mem[child], f.(a0 := 0))
  {
    assert Words(f)[A0 := 0] == Words(f.(a0 := 0));
  }

  /** A program starts at its entry, with the stack pointer and argv at its arguments, and all
      other registers as they were. */
  lemma ExecRegisters(page: Page, f: Trapframe, entry: nat, sp: nat)
    requires Frame(page, f)
    ensures Frame(Exec.Started(page, entry, sp), f.(epc := entry, sp := sp, a1 := sp))
  {
    var w := Exec.Started(page, entry, sp)[..TRAPFRAME_WORDS];
    assert w == page[..TRAPFRAME_WORDS][Exec.A1 := sp][Exec.EPC := entry][Exec.SP := sp];
    assert Words(f)[Exec.A1 := sp][Exec.EPC := entry][Exec.SP := sp] == Words(f.(epc := entry, sp := sp, a1 := sp));
  }
}
