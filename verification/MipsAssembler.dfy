/** The R3000A instruction formats, from the encoding side: every operation the decoder knows is reached by exactly
    the codes that the architecture assigns to it, whatever the other fields, and those fields come back. */
module MipsAssembler {
  import opened Words
  import opened MipsDecoder

  type Six = x: int | 0 <= x < 64

  /** opcode, rs, rt, rd, sa and funct, from the top bit down. */
  function RegisterFormat(opcode: Six, rs: Reg, rt: Reg, rd: Reg, sa: Reg, funct: Six): u32 {
    opcode * 0x400_0000 + rs as int * 0x20_0000 + rt as int * 0x1_0000 + rd as int * 0x800 + sa as int * 0x40 + funct as int
  }

  function ImmediateFormat(opcode: Six, rs: Reg, rt: Reg, immediate: u16): u32 {
    opcode * 0x400_0000 + rs as int * 0x20_0000 + rt as int * 0x1_0000 + immediate as int
  }

  function SpecialCode(op: MipsOp): Six {
    match op
    case Alu(Sll) => 0x00
    case Alu(Srl) => 0x02
    case Alu(Sra) => 0x03
    case Alu(Sllv) => 0x04
    case Alu(Srlv) => 0x06
    case Alu(Srav) => 0x07
    case Jump(Jr) => 0x08
    case Jump(Jalr) => 0x09
    case Syscall => 0x0C
    case Break => 0x0D
    case HiLo(Mfhi) => 0x10
    case HiLo(Mthi) => 0x11
    case HiLo(Mflo) => 0x12
    case HiLo(Mtlo) => 0x13
    case HiLo(Mult) => 0x18
    case HiLo(Multu) => 0x19
    case HiLo(Div) => 0x1A
    case HiLo(Divu) => 0x1B
    case Alu(Add) => 0x20
    case Alu(Addu) => 0x21
    case Alu(Sub) => 0x22
    case Alu(Subu) => 0x23
    case Alu(BitwiseAnd) => 0x24
    case Alu(BitwiseOr) => 0x25
    case Alu(BitwiseXor) => 0x26
    case Alu(BitwiseNor) => 0x27
    case Alu(Slt) => 0x2A
    case _ => 0x2B
  }

  predicate IsSpecial(op: MipsOp) {
    op.Alu? || op.HiLo? || op.Syscall? || op.Break? || op == Jump(Jr) || op == Jump(Jalr)
  }

  function PrimaryCode(op: MipsOp): Six {
    match op
    case Jump(J) => 0x02
    case Jump(_) => 0x03
    case Branch(Beq) => 0x04
    case Branch(Bne) => 0x05
    case Branch(Blez) => 0x06
    case Branch(_) => 0x07
    case Immediate(Addi) => 0x08
    case Immediate(Addiu) => 0x09
    case Immediate(Slti) => 0x0A
    case Immediate(Sltiu) => 0x0B
    case Immediate(Andi) => 0x0C
    case Immediate(Ori) => 0x0D
    case Immediate(Xori) => 0x0E
    case Immediate(Lui) => 0x0F
    case Load(Lb) => 0x20
    case Load(Lh) => 0x21
    case Load(Lwl) => 0x22
    case Load(Lw) => 0x23
    case Load(Lbu) => 0x24
    case Load(Lhu) => 0x25
    case Load(Lwr) => 0x26
    case Store(Sb) => 0x28
    case Store(Sh) => 0x29
    case Store(Swl) => 0x2A
    case Store(Sw) => 0x2B
    case _ => 0x2E
  }

  predicate IsPrimary(op: MipsOp) {
    op == Jump(J) || op == Jump(Jal) || op == Branch(Beq) || op == Branch(Bne) || op == Branch(Blez) || op == Branch(Bgtz)
    || op.Immediate? || op.Load? || op.Store?
  }

  lemma FieldsOfRegisterFormat(opcode: Six, rs: Reg, rt: Reg, rd: Reg, sa: Reg, funct: Six)
    ensures var w := RegisterFormat(opcode, rs, rt, rd, sa, funct);
      && w / 0x400_0000 == opcode && w / 0x20_0000 % 32 == rs && w / 0x1_0000 % 32 == rt && w / 0x800 % 32 == rd
      && w / 0x40 % 32 == sa && w % 0x40 == funct
  {
    var w := RegisterFormat(opcode, rs, rt, rd, sa, funct);
    assert w / 0x40 == opcode * 0x10_0000 + rs as int * 0x8000 + rt as int * 0x400 + rd as int * 0x20 + sa as int;
    assert w / 0x800 == opcode * 0x8000 + rs as int * 0x400 + rt as int * 0x20 + rd as int;
    assert w / 0x1_0000 == opcode * 0x400 + rs as int * 0x20 + rt as int;
    assert w / 0x20_0000 == opcode * 0x20 + rs as int;
  }

  lemma FieldsOfImmediateFormat(opcode: Six, rs: Reg, rt: Reg, immediate: u16)
    ensures var w := ImmediateFormat(opcode, rs, rt, immediate);
      && w / 0x400_0000 == opcode && w / 0x20_0000 % 32 == rs && w / 0x1_0000 % 32 == rt && w % 0x1_0000 == immediate
  {
    var w := ImmediateFormat(opcode, rs, rt, immediate);
    assert w / 0x1_0000 == opcode * 0x400 + rs as int * 0x20 + rt as int;
    assert w / 0x20_0000 == opcode * 0x20 + rs as int;
  }

  /** Register operations: the operation and all of its fields come back. */
  lemma SpecialDecodes(op: MipsOp, rs: Reg, rt: Reg, rd: Reg, sa: Reg)
    requires IsSpecial(op)
    ensures var i := Decode(RegisterFormat(0, rs, rt, rd, sa, SpecialCode(op)));
      i.op == op && i.rs == rs && i.rt == rt && i.rd == rd && i.sa == sa
  {
    FieldsOfRegisterFormat(0, rs, rt, rd, sa, SpecialCode(op));
    hide RegisterFormat;
  }

  /** Immediate operations, loads, stores, and branches on two registers. */
  lemma PrimaryDecodes(op: MipsOp, rs: Reg, rt: Reg, immediate: u16)
    requires IsPrimary(op)
    ensures var i := Decode(ImmediateFormat(PrimaryCode(op), rs, rt, immediate));
      i.op == op && i.rs == rs && i.rt == rt && i.immediate == immediate
  {
    FieldsOfImmediateFormat(PrimaryCode(op), rs, rt, immediate);
    hide ImmediateFormat;
  }

  /** Jumps take the low 26 bits for their target. */
  lemma JumpDecodes(op: MipsOp, target: nat)
    requires (op == Jump(J) || op == Jump(Jal)) && target < 0x400_0000
    ensures var i := Decode(PrimaryCode(op) as int * 0x400_0000 + target); i.op == op && i.target == target
  {
    var w: u32 := PrimaryCode(op) as int * 0x400_0000 + target;
    assert w / 0x400_0000 == PrimaryCode(op) && w % 0x400_0000 == target;
  }

  /** The register field that selects a branch of opcode 1, or a coprocessor move. */
  function SelectionCode(op: MipsOp): Reg {
    match op
    case Branch(Bltz) => 0x00
    case Branch(Bgez) => 0x01
    case Branch(Bltzal) => 0x10
    case Branch(_) => 0x11
    case Cop0(Mfc0) => 0x00
    case Cop2(Mfc2) => 0x00
    case Cop2(Cfc2) => 0x02
    case Cop2(Ctc2) => 0x06
    case _ => 0x04
  }

  predicate IsSelectedBranch(op: MipsOp) {
    op == Branch(Bltz) || op == Branch(Bgez) || op == Branch(Bltzal) || op == Branch(Bgezal)
  }

  predicate IsCoprocessorMove(op: MipsOp) {
    op == Cop0(Mfc0) || op == Cop0(Mtc0) || (op.Cop2? && op.cop2 != Command)
  }

  const RFE_WORD: u32 := 0x4200_0010

  /** The branches of opcode 1 select by their second register field. */
  lemma SelectedDecodes(op: MipsOp, rs: Reg, immediate: u16)
    requires IsSelectedBranch(op)
    ensures var i := Decode(ImmediateFormat(1, rs, SelectionCode(op), immediate));
      i.op == op && i.rs == rs && i.immediate == immediate
  {
    FieldsOfImmediateFormat(1, rs, SelectionCode(op), immediate);
    hide ImmediateFormat, DecodeSpecial;
  }

  /** The coprocessor moves select by their first register field, whatever the bits below the registers. */
  lemma CoprocessorDecodes(op: MipsOp, rt: Reg, rd: Reg, sa: Reg, funct: Six)
    requires IsCoprocessorMove(op)
    ensures var i := Decode(RegisterFormat(if op.Cop0? then 0x10 else 0x12, SelectionCode(op), rt, rd, sa, funct));
      i.op == op && i.rt == rt && i.rd == rd
  {
    FieldsOfRegisterFormat(if op.Cop0? then 0x10 else 0x12, SelectionCode(op), rt, rd, sa, funct);
    hide RegisterFormat, DecodeSpecial;
  }

  /** A coprocessor 2 command is any word of that opcode with bit 25; RFE is one word. */
  lemma CommandDecodes(rs: Reg, rt: Reg, rd: Reg, sa: Reg, funct: Six)
    requires rs >= 0x10
    ensures Decode(RegisterFormat(0x12, rs, rt, rd, sa, funct)).op == Cop2(Command) && Decode(RFE_WORD).op == Cop0(Rfe)
  {
    FieldsOfRegisterFormat(0x12, rs, rt, rd, sa, funct);
    assert rs / 0x10 % 2 == 1;
    hide RegisterFormat, DecodeSpecial;
  }

  /** The decoder makes up nothing: a word that decodes to an operation carries that operation's codes. */
  lemma DecodedIsAssembled(raw: u32)
    ensures var i := Decode(raw);
      && (IsSpecial(i.op) ==> raw / 0x400_0000 == 0 && raw % 0x40 == SpecialCode(i.op))
      && (IsPrimary(i.op) ==> raw / 0x400_0000 == PrimaryCode(i.op))
      && (IsSelectedBranch(i.op) ==> raw / 0x400_0000 == 1 && i.rt == SelectionCode(i.op))
      && (IsCoprocessorMove(i.op) ==> raw / 0x400_0000 == (if i.op.Cop0? then 0x10 else 0x12) && i.rs == SelectionCode(i.op))
      && (i.op == Cop0(Rfe) ==> raw == RFE_WORD)
      && (i.op == Cop2(Command) ==> raw / 0x400_0000 == 0x12 && i.rs >= 0x10)
  {
    SpecialIsAssembled(raw % 0x40);
    RegimmIsAssembled(raw / 0x1_0000 % 32);
    CoprocessorIsAssembled(raw);
    var opcode := raw / 0x400_0000;
    if opcode == 0 || opcode == 1 || opcode == 0x10 || opcode == 0x12 {
      hide DecodeSpecial, DecodeRegimm, DecodeCop0, DecodeCop2, SpecialCode, PrimaryCode, SelectionCode;
    } else {
      PrimaryIsAssembled(raw);
      hide DecodeOp, SpecialCode, PrimaryCode, SelectionCode;
    }
  }

  lemma PrimaryIsAssembled(raw: u32)
    requires var opcode := raw / 0x400_0000; opcode != 0 && opcode != 1 && opcode != 0x10 && opcode != 0x12
    ensures var op := DecodeOp(raw);
      && (op == Reserved || IsPrimary(op)) && (IsPrimary(op) ==> raw / 0x400_0000 == PrimaryCode(op))
      && !IsSpecial(op) && !IsSelectedBranch(op)
  {
    hide DecodeSpecial, DecodeRegimm, DecodeCop0, DecodeCop2;
  }

  lemma SpecialIsAssembled(funct: Six)
    ensures var op := DecodeSpecial(funct);
      && (op == Reserved || IsSpecial(op)) && (IsSpecial(op) ==> funct == SpecialCode(op))
      && !IsPrimary(op) && !IsSelectedBranch(op)
  {
  }

  lemma RegimmIsAssembled(rt: Reg)
    ensures var op := DecodeRegimm(rt);
      && (op == Reserved || IsSelectedBranch(op)) && (IsSelectedBranch(op) ==> rt == SelectionCode(op))
      && !IsPrimary(op) && !IsSpecial(op)
  {
  }

  lemma CoprocessorIsAssembled(raw: u32)
    ensures var rs: Reg := raw / 0x20_0000 % 32; var op := DecodeCop0(raw, rs);
      && (op == Reserved || op.Cop0?) && (op == Cop0(Mfc0) || op == Cop0(Mtc0) ==> rs == SelectionCode(op))
      && (op == Cop0(Rfe) && raw / 0x400_0000 == 0x10 ==> raw == RFE_WORD)
    ensures var rs: Reg := raw / 0x20_0000 % 32; var op := DecodeCop2(rs);
      && (op == Reserved || op.Cop2?)
      && (op == Cop2(Command) ==> rs >= 0x10) && (op.Cop2? && op != Cop2(Command) ==> rs == SelectionCode(op))
  {
  }

  /** Every operation is of one of these kinds. */
  lemma KindsAreAll(op: MipsOp)
    ensures IsSpecial(op) || IsPrimary(op) || IsSelectedBranch(op) || IsCoprocessorMove(op)
      || op == Cop0(Rfe) || op == Cop2(Command) || op == Reserved
  {
    match op
    case Jump(J) | Jump(Jal) | Jump(Jr) | Jump(Jalr) =>
    case Branch(Beq) | Branch(Bne) | Branch(Blez) | Branch(Bgtz) | Branch(_) =>
    case Cop0(Mfc0) | Cop0(Mtc0) | Cop0(Rfe) =>
    case _ =>
  }
}
