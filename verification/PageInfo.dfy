/** The packed 32-bit description of a page. The fields never overlap, so `|` is written as
    `+`, `x & low_mask` as `%` and the shifts as `*` and `/` by powers of two. */
module PageInfo {

  const IS_LRUN: nat := 0x40000000
  const IS_SRUN: nat := 0x80000000
  const COUNTER_ONE: nat := 0x10000

  function Lrun(pages: nat): nat {
    IS_LRUN + pages
  }

  function SrunEx(bin: nat, counter: nat): nat {
    IS_SRUN + bin + counter * COUNTER_ONE
  }

  function Srun(bin: nat): nat {
    IS_SRUN + bin
  }

  function Nrun(bin: nat, offset: nat): nat {
    IS_SRUN + IS_LRUN + bin + offset * COUNTER_ONE
  }

  predicate IsSrun(info: nat) {
    info / IS_SRUN % 2 == 1
  }

  predicate IsLrun(info: nat) {
    info / IS_LRUN % 2 == 1
  }

  function LrunPages(info: nat): nat {
    info % 0x400
  }

  function SrunBin(info: nat): nat {
    info % 0x20
  }

  function SrunCounter(info: nat): nat {
    info / COUNTER_ONE % 0x200
  }

  function NrunOffset(info: nat): nat {
    info / COUNTER_ONE % 0x200
  }

  lemma LrunFields(pages: nat)
    requires pages < 0x400
    ensures Lrun(pages) < 0x1_0000_0000
    ensures !IsSrun(Lrun(pages)) && IsLrun(Lrun(pages)) && LrunPages(Lrun(pages)) == pages
  {
  }

  /** A counter of 512 does not fit its nine bits and reads back as zero. */
  lemma SrunFields(bin: nat, counter: nat)
    requires bin < 0x20 && counter <= 0x200
    ensures SrunEx(bin, counter) < 0x1_0000_0000
    ensures IsSrun(SrunEx(bin, counter)) && !IsLrun(SrunEx(bin, counter))
    ensures SrunBin(SrunEx(bin, counter)) == bin
    ensures SrunCounter(SrunEx(bin, counter)) == if counter == 0x200 then 0 else counter
    ensures Srun(bin) == SrunEx(bin, 0)
  {
  }

  lemma NrunFields(bin: nat, offset: nat)
    requires bin < 0x20 && offset < 0x200
    ensures Nrun(bin, offset) < 0x1_0000_0000
    ensures IsSrun(Nrun(bin, offset)) && IsLrun(Nrun(bin, offset))
    ensures SrunBin(Nrun(bin, offset)) == bin && NrunOffset(Nrun(bin, offset)) == offset
  {
  }
}
