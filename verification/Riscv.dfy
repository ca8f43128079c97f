/** Memory layout and Sv39 constants (kernel/riscv.h, kernel/memlayout.h). */
module Riscv {

  const PGSIZE: nat := 4096

  const KERNBASE: nat := 0x8000_0000
  const PHYSTOP: nat := KERNBASE + 128 * 1024 * 1024

  /** One beyond the highest virtual address the kernel uses: 38 bits. */
  const MAXVA: nat := 0x40_0000_0000

  const TRAMPOLINE: nat := MAXVA - PGSIZE
  const TRAPFRAME: nat := TRAMPOLINE - PGSIZE

  /** 2^64, the number of values of a uint64. */
  const TWO64: nat := 0x1_0000_0000_0000_0000

  function PGROUNDUP(a: nat): nat {
    (a + PGSIZE - 1) / PGSIZE * PGSIZE
  }

  function PGROUNDDOWN(a: nat): nat {
    a / PGSIZE * PGSIZE
  }
}
