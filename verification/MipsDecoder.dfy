/** Instruction decoding of core/mips_decoder.cpp. The flat operation enumeration is grouped by what the
    executor does with an operation; the groups hold the same operations. */
module MipsDecoder {
  import opened Words

  type Reg = x: int | 0 <= x < 32

  datatype AluOp =
    | Sll | Srl | Sra | Sllv | Srlv | Srav
    | Add | Addu | Sub | Subu | BitwiseAnd | BitwiseOr | BitwiseXor | BitwiseNor | Slt | Sltu

  datatype ImmediateOp = Addi | Addiu | Andi | Ori | Xori | Lui | Slti | Sltiu

  datatype HiLoOp = Mfhi | Mthi | Mflo | Mtlo | Mult | Multu | Div | Divu

  datatype JumpOp = J | Jal | Jr | Jalr

  datatype BranchOp = Beq | Bne | Blez | Bgtz | Bltz | Bgez | Bltzal | Bgezal

  datatype LoadOp = Lb | Lbu | Lh | Lhu | Lw | Lwl | Lwr

  datatype StoreOp = Sb | Sh | Sw | Swl | Swr

  datatype Cop0Op = Mfc0 | Mtc0 | Rfe

  datatype Cop2Op = Mfc2 | Cfc2 | Mtc2 | Ctc2 | Command

  datatype MipsOp =
    | Reserved
    | Syscall
    | Break
    | Alu(alu: AluOp)
    | Immediate(immediateOp: ImmediateOp)
    | HiLo(hiLo: HiLoOp)
    | Jump(jump: JumpOp)
    | Branch(branch: BranchOp)
    | Load(load: LoadOp)
    | Store(store: StoreOp)
    | Cop0(cop0: Cop0Op)
    | Cop2(cop2: Cop2Op)

  datatype Instruction = Instruction(op: MipsOp, rs: Reg, rt: Reg, rd: Reg, sa: Reg, immediate: u16, target: nat)

  function DecodeSpecial(funct: int): MipsOp {
    match funct
    case 0x00 => Alu(Sll)
    case 0x02 => Alu(Srl)
    case 0x03 => Alu(Sra)
    case 0x04 => Alu(Sllv)
    case 0x06 => Alu(Srlv)
    case 0x07 => Alu(Srav)
    case 0x08 => Jump(Jr)
    case 0x09 => Jump(Jalr)
    case 0x0c => Syscall
    case 0x0d => Break
    case 0x10 => HiLo(Mfhi)
    case 0x11 => HiLo(Mthi)
    case 0x12 => HiLo(Mflo)
    case 0x13 => HiLo(Mtlo)
    case 0x18 => HiLo(Mult)
    case 0x19 => HiLo(Multu)
    case 0x1a => HiLo(Div)
    case 0x1b => HiLo(Divu)
    case 0x20 => Alu(Add)
    case 0x21 => Alu(Addu)
    case 0x22 => Alu(Sub)
    case 0x23 => Alu(Subu)
    case 0x24 => Alu(BitwiseAnd)
    case 0x25 => Alu(BitwiseOr)
    case 0x26 => Alu(BitwiseXor)
    case 0x27 => Alu(BitwiseNor)
    case 0x2a => Alu(Slt)
    case 0x2b => Alu(Sltu)
    case _ => Reserved
  }

  function DecodeRegimm(rt: Reg): MipsOp {
    match rt
    case 0x00 => Branch(Bltz)
    case 0x01 => Branch(Bgez)
    case 0x10 => Branch(Bltzal)
    case 0x11 => Branch(Bgezal)
    case _ => Reserved
  }

  function DecodeCop0(raw: u32, rs: Reg): MipsOp {
    if rs == 0x00 then Cop0(Mfc0)
    else if rs == 0x04 then Cop0(Mtc0)
    else if rs == 0x10 && raw % 0x0200_0000 == 0x10 then Cop0(Rfe)
    else Reserved
  }

  function DecodeCop2(rs: Reg): MipsOp {
    match rs
    case 0x00 => Cop2(Mfc2)
    case 0x02 => Cop2(Cfc2)
    case 0x04 => Cop2(Mtc2)
    case 0x06 => Cop2(Ctc2)
    case _ => if rs / 0x10 % 2 == 1 then Cop2(Command) else Reserved
  }

  function DecodeOp(raw: u32): MipsOp {
    match raw / 0x0400_0000
    case 0x00 => DecodeSpecial(raw % 0x40)
    case 0x01 => DecodeRegimm(raw / 0x1_0000 % 32)
    case 0x02 => Jump(J)
    case 0x03 => Jump(Jal)
    case 0x04 => Branch(Beq)
    case 0x05 => Branch(Bne)
    case 0x06 => Branch(Blez)
    case 0x07 => Branch(Bgtz)
    case 0x08 => Immediate(Addi)
    case 0x09 => Immediate(Addiu)
    case 0x0a => Immediate(Slti)
    case 0x0b => Immediate(Sltiu)
    case 0x0c => Immediate(Andi)
    case 0x0d => Immediate(Ori)
    case 0x0e => Immediate(Xori)
    case 0x0f => Immediate(Lui)
    case 0x10 => DecodeCop0(raw, raw / 0x20_0000 % 32)
    case 0x12 => DecodeCop2(raw / 0x20_0000 % 32)
    case 0x20 => Load(Lb)
    case 0x21 => Load(Lh)
    case 0x22 => Load(Lwl)
    case 0x23 => Load(Lw)
    case 0x24 => Load(Lbu)
    case 0x25 => Load(Lhu)
    case 0x26 => Load(Lwr)
    case 0x28 => Store(Sb)
    case 0x29 => Store(Sh)
    case 0x2a => Store(Swl)
    case 0x2b => Store(Sw)
    case 0x2e => Store(Swr)
    case _ => Reserved
  }

  function Decode(raw: u32): Instruction {
    Instruction(DecodeOp(raw),
                raw / 0x20_0000 % 32,
                raw / 0x1_0000 % 32,
                raw / 0x800 % 32,
                raw / 0x40 % 32,
                raw % 0x1_0000,
                raw % 0x0400_0000)
  }

  predicate IsControlTransfer(op: MipsOp) {
    op.Jump? || op.Branch?
  }
}
