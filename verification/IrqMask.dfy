/** The 16-bit interrupt mask register of the PIC driver. */
module IrqMask {

  /** `1 << e` in the 16-bit mask register. */
  function IrqBit(e: nat): bv16
    requires e < 16
  {
    match e
    case 0 => 0x1
    case 1 => 0x2
    case 2 => 0x4
    case 3 => 0x8
    case 4 => 0x10
    case 5 => 0x20
    case 6 => 0x40
    case 7 => 0x80
    case 8 => 0x100
    case 9 => 0x200
    case 10 => 0x400
    case 11 => 0x800
    case 12 => 0x1000
    case 13 => 0x2000
    case 14 => 0x4000
    case 15 => 0x8000
  }

  function SetBits(m: bv16, x: bv16): bv16 {
    m | x
  }

  function ClearBits(m: bv16, x: bv16): bv16 {
    m & !x
  }

  predicate HasBits(m: bv16, x: bv16) {
    m & x != 0
  }

  /** `irq_mask`; a shift past bit 15 is lost. */
  function MaskOn(m: bv16, e: nat): bv16 {
    if e < 16 then SetBits(m, IrqBit(e)) else m
  }

  /** `irq_unmask`. */
  function MaskOff(m: bv16, e: nat): bv16 {
    if e < 16 then ClearBits(m, IrqBit(e)) else m
  }

  predicate Masked(m: bv16, e: nat)
    requires e < 16
  {
    HasBits(m, IrqBit(e))
  }

  predicate OneHot(b: bv16) {
    b != 0 && b & (b - 1) == 0
  }

  lemma IrqBitOneHot(e: nat)
    requires e < 16
    ensures OneHot(IrqBit(e))
  {
  }

  lemma IrqBitInjective(e: nat, f: nat)
    requires e < 16 && f < 16 && IrqBit(e) == IrqBit(f)
    ensures e == f
  {
  }

  lemma OnWord(m: bv16, x: bv16, y: bv16, r: bv16)
    requires OneHot(x) && OneHot(y) && r == m | x
    ensures HasBits(r, y) <==> HasBits(m, y) || x == y
  {
  }

  lemma OffWord(m: bv16, x: bv16, y: bv16, r: bv16)
    requires OneHot(x) && OneHot(y) && r == m & !x
    ensures HasBits(r, y) <==> HasBits(m, y) && x != y
  {
  }

  lemma OnBit(m: bv16, x: bv16, y: bv16)
    requires OneHot(x) && OneHot(y)
    ensures HasBits(SetBits(m, x), y) <==> HasBits(m, y) || x == y
  {
    hide HasBits, OneHot;
    OnWord(m, x, y, SetBits(m, x));
  }

  lemma OffBit(m: bv16, x: bv16, y: bv16)
    requires OneHot(x) && OneHot(y)
    ensures HasBits(ClearBits(m, x), y) <==> HasBits(m, y) && x != y
  {
    hide HasBits, OneHot;
    OffWord(m, x, y, ClearBits(m, x));
  }

  lemma MaskBits(m: bv16, e: nat, f: nat)
    requires f < 16
    ensures Masked(MaskOn(m, e), f) <==> Masked(m, f) || e == f
    ensures Masked(MaskOff(m, e), f) <==> Masked(m, f) && e != f
  {
    hide IrqBit, OneHot, HasBits, SetBits, ClearBits;
    if e < 16 {
      IrqBitOneHot(e);
      IrqBitOneHot(f);
      OnBit(m, IrqBit(e), IrqBit(f));
      OffBit(m, IrqBit(e), IrqBit(f));
      if IrqBit(e) == IrqBit(f) {
        IrqBitInjective(e, f);
      }
    }
  }

  lemma NothingMasked(e: nat)
    requires e < 16
    ensures !Masked(0, e)
  {
  }
}
