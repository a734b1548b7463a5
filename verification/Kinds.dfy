/**
 The handlers of instr.c in groups, and what each group decodes to.
 */
module Kinds {
  import opened Isa
  import opened Cpu

  predicate IsArith(h: Handler) {
    match h
    case HAdc | HCpc | HCpi | HAdiw | HSbiw | HCom | HNeg | HInc | HDec => true
    case _ => false
  }

  predicate IsLogic(h: Handler) {
    match h
    case HAnd | HOr | HXor | HAndi | HOri | HAsr | HLsr | HRor => true
    case _ => false
  }

  predicate IsMul(h: Handler) {
    match h
    case HMul | HMuls | HMulsu | HFmul | HFmulsu | HBclrset | HBst => true
    case _ => false
  }

  predicate IsSkip(h: Handler) {
    h.HCpse? || h.HSbics? || h.HSbrcs?
  }

  predicate IsJump(h: Handler) {
    h.HBrb? || h.HJmp? || h.HRet? || h.HReti?
  }

  predicate IsCall(h: Handler) {
    h.HCall? || h.HRcalljmp? || h.HEicalljump?
  }

  predicate IsLdst(h: Handler) {
    h.HLdx? || h.HStx? || h.HLdyz? || h.HStyz?
  }

  /** Handlers that change registers or I/O bits and mark no flags. */
  predicate IsPlain(h: Handler) {
    match h
    case HBld | HCbisbi | HMov | HMovw | HSwap | HIn | HLdi | HDes | HNop => true
    case _ => false
  }

  /** Handlers that move data between registers and memory. */
  predicate IsTransfer(h: Handler) {
    match h
    case HLds | HSts | HElpm | HElpmz | HXch | HOut | HPop | HPush => true
    case _ => false
  }

  predicate SizeAgrees(h: Handler, w: bv16, imm: word) {
    Size(Decode(h, w, imm)) == if Layout(h).3 then 2 else 1
  }

  lemma ArithSize(h: Handler, w: bv16, imm: word)
    requires IsArith(h)
    ensures OnlyAlu(Decode(h, w, imm)) && SizeAgrees(h, w, imm)
  {
  }

  lemma LogicSize(h: Handler, w: bv16, imm: word)
    requires IsLogic(h)
    ensures OnlyAlu(Decode(h, w, imm)) && SizeAgrees(h, w, imm)
  {
  }

  lemma MulSize(h: Handler, w: bv16, imm: word)
    requires IsMul(h)
    ensures OnlyAlu(Decode(h, w, imm)) && SizeAgrees(h, w, imm)
  {
  }

  lemma PlainSize(h: Handler, w: bv16, imm: word)
    requires IsPlain(h)
    ensures OnlyAlu(Decode(h, w, imm)) && SizeAgrees(h, w, imm)
  {
  }

  lemma LdstSize(h: Handler, w: bv16, imm: word)
    requires IsLdst(h)
    ensures SizeAgrees(h, w, imm)
  {
  }

  lemma TransferSize(h: Handler, w: bv16, imm: word)
    requires IsTransfer(h)
    ensures SizeAgrees(h, w, imm)
  {
  }

  lemma SkipSize(h: Handler, w: bv16, imm: word)
    requires IsSkip(h)
    ensures SizeAgrees(h, w, imm)
  {
  }

  lemma JumpSize(h: Handler, w: bv16, imm: word)
    requires IsJump(h)
    ensures SizeAgrees(h, w, imm)
  {
  }

  lemma CallSize(h: Handler, w: bv16, imm: word)
    requires IsCall(h)
    ensures SizeAgrees(h, w, imm)
  {
  }

  lemma OtherIsUnimp(h: Handler)
    requires !IsArith(h) && !IsLogic(h) && !IsMul(h) && !IsPlain(h) && !IsLdst(h)
    requires !IsTransfer(h) && !IsSkip(h) && !IsJump(h) && !IsCall(h)
    ensures h == HUnimp
  {
  }

  /** The decoder's size rule agrees with the instruction it yields. */
  lemma DecodeSize(h: Handler, w: bv16, imm: word)
    ensures Size(Decode(h, w, imm)) == if Layout(h).3 then 2 else 1
  {
    hide Decode, Layout, Size;
    GroupSize(h, w, imm);
  }

  lemma GroupSize(h: Handler, w: bv16, imm: word)
    ensures SizeAgrees(h, w, imm)
  {
    hide IsArith, IsLogic, IsMul, IsPlain, IsLdst, IsTransfer, IsSkip, IsJump, IsCall, OnlyAlu, SizeAgrees;
    if IsArith(h) {
      ArithSize(h, w, imm);
    } else if IsLogic(h) {
      LogicSize(h, w, imm);
    } else if IsMul(h) {
      MulSize(h, w, imm);
    } else if IsPlain(h) {
      PlainSize(h, w, imm);
    } else if IsLdst(h) {
      LdstSize(h, w, imm);
    } else if IsTransfer(h) {
      TransferSize(h, w, imm);
    } else if IsSkip(h) {
      SkipSize(h, w, imm);
    } else if IsJump(h) {
      JumpSize(h, w, imm);
    } else if IsCall(h) {
      CallSize(h, w, imm);
    } else {
      OtherIsUnimp(h);
      UnimpSize(w, imm);
    }
  }

  lemma UnimpSize(w: bv16, imm: word)
    ensures SizeAgrees(HUnimp, w, imm)
  {
  }

  predicate IsAlu(h: Handler) {
    IsArith(h) || IsLogic(h) || IsMul(h) || IsPlain(h)
  }

  lemma AluKind(h: Handler, w: bv16, imm: word)
    requires IsAlu(h)
    ensures OnlyAlu(Decode(h, w, imm))
  {
    hide IsArith, IsLogic, IsMul, IsPlain, Decode, OnlyAlu;
    if IsArith(h) {
      ArithSize(h, w, imm);
    } else if IsLogic(h) {
      LogicSize(h, w, imm);
    } else if IsMul(h) {
      MulSize(h, w, imm);
    } else {
      PlainSize(h, w, imm);
    }
  }
}
