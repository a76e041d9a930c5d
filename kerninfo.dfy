/** The arithmetic of `mon_kerninfo`: physical addresses of the kernel's linker symbols and
    the size of the kernel image in kilobytes. */
module KernInfo {
  import opened Base

  /** Where the kernel's virtual address space begins: physical address 0 is mapped here
      (the value of `KERNBASE` in inc/memlayout.h, which is not part of this model). */
  const KERNBASE: Word := 0xF000_0000

  /** The linker symbols `entry`, `etext`, `edata` and `end` (virtual addresses). */
  datatype Symbols = Symbols(entry: Word, etext: Word, edata: Word, end: Word)

  /** `va - KERNBASE` computed on a pointer: the physical address of a kernel virtual address. */
  function PhysAddr(va: Word): (pa: Word)
    ensures va >= KERNBASE ==> pa == va - KERNBASE
    ensures va < KERNBASE ==> pa == va + (WORD_RANGE - KERNBASE)
  {
    Sub32(va, KERNBASE)
  }

  /** The kernel virtual address at which a physical address is mapped (JOS's `KADDR`),
      the inverse of `PhysAddr`. */
  function KernAddr(pa: Word): Word
  {
    Add32(pa, KERNBASE)
  }

  /** C division of `int`s, which truncates toward zero (Dafny's `/` is Euclidean). */
  function CDiv(a: int, b: int): (q: int)
    requires b > 0
    ensures a >= 0 ==> q * b <= a < q * b + b
    ensures a < 0 ==> q * b - b < a <= q * b
  {
    if a >= 0 then a / b else -((-a) / b)
  }

  /** `(end - entry + 1023) / 1024`: a pointer difference, an `int` addition and a C division,
      with the two's-complement wrap-around the i386 code performs on overflow. For a kernel
      image that does not reach 2 GB, the footprint is the image size in bytes rounded up to
      whole kilobytes. */
  function FootprintKB(entry: Word, end: Word): (kb: int)
    ensures entry <= end && end - entry <= 0x7FFF_FFFF - 1023 ==>
      kb >= 0 && kb * 1024 >= end - entry && (kb - 1) * 1024 < end - entry
  {
    CDiv(Signed32(Add32(Sub32(end, entry), 1023)), 1024)
  }

  /** Virtual and physical addresses are in one-to-one correspondence through `KERNBASE`. */
  lemma {:induction false} PhysKernRoundTrip(va: Word, pa: Word)
    ensures KernAddr(PhysAddr(va)) == va
    ensures PhysAddr(KernAddr(pa)) == pa
  {
  }
}
