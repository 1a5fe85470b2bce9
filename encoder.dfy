/**
 * `parse_instruction`: the 16-bit encoding of one instruction. The opcode
 * takes bits 15-9; registers go to bits 8-6, 5-3 and 2-0; immediates and
 * branch displacements take the low 4, 6, 8 or 9 bits; LOADIMM.UPPER sets
 * bit 8.
 */
module Encoder {
  import opened Bits
  import opened Errors
  import opened Isa
  import opened Operands
  import opened CStrings

  /** `instr |= v` on a `uint16_t`: the OR is truncated back to 16 bits. */
  function Or16(instr: U16, v: nat): U16
  {
    Wrap16(BitOr(instr, v))
  }

  /** `parse_instruction(op, args, labels, addr)`. The caller only passes
      mnemonics found in the table (the source asserts it), and the argument
      array holds at most three words. */
  function ParseInstruction(op: string, args: seq<string>, labels: seq<Label>, addr: U32): (r: Result<U16>)
    requires LookupOp(op).Some? && |args| <= 3
    ensures |args| != Arity(OpOf(op).format) ==> r == Err(ArityMismatch)
    ensures r.Ok? ==> |args| == Arity(OpOf(op).format)
  {
    Encode(OpOf(op), args, labels, addr)
  }

  /** The body of `parse_instruction` once the table entry is found: the
      opcode goes to the top bits, then the operands are read and ORed in
      as the entry's format says. */
  function Encode(d: OpData, args: seq<string>, labels: seq<Label>, addr: U32): (r: Result<U16>)
    requires d.opcode < 128
    ensures |args| != Arity(d.format) ==> r == Err(ArityMismatch)
    ensures r.Ok? ==> |args| == Arity(d.format)
  {
    var instr := Or16(0, Shl32(d.opcode, 9));
    if |args| != Arity(d.format) then Err(ArityMismatch)
    else
      match d.format
      case A0 => Ok(instr)
      case A1 =>
        var a :- ParseReg(args[0]);
        var b :- ParseReg(args[1]);
        var c :- ParseReg(args[2]);
        Ok(Or16(Or16(Or16(instr, Shl32(a, 6)), Shl32(b, 3)), c))
      case A2 =>
        var a :- ParseReg(args[0]);
        var n :- ParseNum(args[1], 4, false);
        Ok(Or16(Or16(instr, Shl32(a, 6)), n.value))
      case A3 =>
        var a :- ParseReg(args[0]);
        Ok(Or16(instr, Shl32(a, 6)))
      case B1 =>
        var t :- ParseConstant(args[0], addr, labels, 9);
        Ok(Or16(instr, t))
      case B2 =>
        var a :- ParseReg(args[0]);
        var n :- ParseNum(args[1], 6, false);
        Ok(Or16(Or16(instr, Shl32(a, 6)), n.value))
      case L1 =>
        var high := if d.upper then Or16(instr, Shl32(1, 8)) else instr;
        var n :- ParseNum(args[0], 8, false);
        Ok(Or16(high, n.value))
      case L2 =>
        var a :- ParseReg(args[0]);
        var b :- ParseReg(args[1]);
        Ok(Or16(Or16(instr, Shl32(a, 6)), Shl32(b, 3)))
  }

  // ---------------------------------------------------------------------
  // Reference encoding

  /** The fields of an instruction word; a format leaves the ones it does
      not use at zero. */
  datatype Fields = Fields(opcode: nat, ra: nat, rb: nat, rc: nat, imm: nat, upper: bool)

  /** Width of the immediate field of each format. */
  function ImmBits(f: Format): nat
  {
    match f
    case A2 => 4
    case B1 => 9
    case B2 => 6
    case L1 => 8
    case _ => 0
  }

  predicate UsesRa(f: Format) { f == A1 || f == A2 || f == A3 || f == B2 || f == L2 }
  predicate UsesRb(f: Format) { f == A1 || f == L2 }
  predicate UsesRc(f: Format) { f == A1 }

  /** The fields fit their bit ranges, and unused fields are zero. */
  predicate Fits(f: Format, x: Fields)
  {
    x.opcode < 128
    && (if UsesRa(f) then x.ra < 8 else x.ra == 0)
    && (if UsesRb(f) then x.rb < 8 else x.rb == 0)
    && (if UsesRc(f) then x.rc < 8 else x.rc == 0)
    && x.imm < Pow2(ImmBits(f))
    && (x.upper ==> f == L1)
  }

  /** The fields placed side by side, as the ISA lays them out. */
  function Pack(f: Format, x: Fields): nat
  {
    x.opcode * 512 + x.ra * 64 + x.rb * 8 + x.rc + (if x.upper then 256 else 0) + x.imm
  }

  /** Reading the fields of a format back out of a word. */
  function Unpack(f: Format, w: nat): Fields
  {
    Fields(
      w / 512,
      if UsesRa(f) then (w / 64) % 8 else 0,
      if UsesRb(f) then (w / 8) % 8 else 0,
      if UsesRc(f) then w % 8 else 0,
      w % Pow2(ImmBits(f)),
      f == L1 && (w / 256) % 2 == 1)
  }

  /** Packing is undone by unpacking: the fields of a format do not overlap
      and fit in 16 bits. */
  lemma UnpackPack(f: Format, x: Fields)
    requires Fits(f, x)
    ensures Pack(f, x) < 0x1_0000
    ensures Unpack(f, Pack(f, x)) == x
  {
    match f {
      case A0 => ModUnique(Pack(f, x), x.opcode, 0, 512);
      case A1 => UnpackPackA1(x);
      case A2 => UnpackPackA2(x);
      case A3 => UnpackPackA3(x);
      case B1 => UnpackPackB1(x);
      case B2 => UnpackPackB2(x);
      case L1 => UnpackPackL1(x);
      case L2 => UnpackPackL2(x);
    }
  }

  lemma UnpackPackA1(x: Fields)
    requires Fits(A1, x)
    ensures Pack(A1, x) < 0x1_0000 && Unpack(A1, Pack(A1, x)) == x
  {
    var w := Pack(A1, x);
    ModUnique(w, x.opcode, x.ra * 64 + x.rb * 8 + x.rc, 512);
    ModUnique(w, x.opcode * 8 + x.ra, x.rb * 8 + x.rc, 64);
    ModUnique(w / 64, x.opcode, x.ra, 8);
    ModUnique(w, x.opcode * 64 + x.ra * 8 + x.rb, x.rc, 8);
    ModUnique(w / 8, x.opcode * 8 + x.ra, x.rb, 8);
  }

  lemma UnpackPackL2(x: Fields)
    requires Fits(L2, x)
    ensures Pack(L2, x) < 0x1_0000 && Unpack(L2, Pack(L2, x)) == x
  {
    var w := Pack(L2, x);
    ModUnique(w, x.opcode, x.ra * 64 + x.rb * 8, 512);
    ModUnique(w, x.opcode * 8 + x.ra, x.rb * 8, 64);
    ModUnique(w / 64, x.opcode, x.ra, 8);
    ModUnique(w, x.opcode * 64 + x.ra * 8 + x.rb, 0, 8);
    ModUnique(w / 8, x.opcode * 8 + x.ra, x.rb, 8);
  }

  lemma UnpackPackA2(x: Fields)
    requires Fits(A2, x)
    ensures Pack(A2, x) < 0x1_0000 && Unpack(A2, Pack(A2, x)) == x
  {
    var w := Pack(A2, x);
    assert Pow2(4) == 16;
    ModUnique(w, x.opcode, x.ra * 64 + x.imm, 512);
    ModUnique(w, x.opcode * 8 + x.ra, x.imm, 64);
    ModUnique(w / 64, x.opcode, x.ra, 8);
    ModUnique(w, x.opcode * 32 + x.ra * 4, x.imm, 16);
  }

  lemma UnpackPackA3(x: Fields)
    requires Fits(A3, x)
    ensures Pack(A3, x) < 0x1_0000 && Unpack(A3, Pack(A3, x)) == x
  {
    var w := Pack(A3, x);
    ModUnique(w, x.opcode, x.ra * 64, 512);
    ModUnique(w, x.opcode * 8 + x.ra, 0, 64);
    ModUnique(w / 64, x.opcode, x.ra, 8);
  }

  lemma UnpackPackB2(x: Fields)
    requires Fits(B2, x)
    ensures Pack(B2, x) < 0x1_0000 && Unpack(B2, Pack(B2, x)) == x
  {
    var w := Pack(B2, x);
    assert Pow2(6) == 64;
    ModUnique(w, x.opcode, x.ra * 64 + x.imm, 512);
    ModUnique(w, x.opcode * 8 + x.ra, x.imm, 64);
    ModUnique(w / 64, x.opcode, x.ra, 8);
  }

  lemma UnpackPackB1(x: Fields)
    requires Fits(B1, x)
    ensures Pack(B1, x) < 0x1_0000 && Unpack(B1, Pack(B1, x)) == x
  {
    assert Pow2(9) == 512;
    ModUnique(Pack(B1, x), x.opcode, x.imm, 512);
  }

  lemma UnpackPackL1(x: Fields)
    requires Fits(L1, x)
    ensures Pack(L1, x) < 0x1_0000 && Unpack(L1, Pack(L1, x)) == x
  {
    var w := Pack(L1, x);
    var u := if x.upper then 1 else 0;
    assert Pow2(8) == 256;
    ModUnique(w, x.opcode, u * 256 + x.imm, 512);
    ModUnique(w, x.opcode * 2 + u, x.imm, 256);
    ModUnique(w / 256, x.opcode, u, 2);
  }

  // ---------------------------------------------------------------------
  // parse_instruction against the reference encoding

  /** A register operand naming R0-R7. */
  predicate LowRegister(word: string)
  {
    |word| == 2 && word[0] == 'R' && '0' <= word[1] <= '7'
  }

  /** How many of a format's operands, counted from the first, are
      registers. */
  function RegisterOperands(f: Format): nat
  {
    match f
    case A1 => 3
    case A2 => 1
    case A3 => 1
    case B2 => 1
    case L2 => 2
    case _ => 0
  }

  predicate RegistersLow(f: Format, args: seq<string>)
  {
    forall i :: 0 <= i < RegisterOperands(f) && i < |args| ==> LowRegister(args[i])
  }

  /** The operand values `parse_instruction` reads for an entry of the
      table, in the order it reads them, as fields. */
  function OperandFields(d: OpData, args: seq<string>, labels: seq<Label>, addr: U32): (r: Result<Fields>)
    requires |args| == Arity(d.format)
  {
    match d.format
    case A0 => Ok(Fields(d.opcode, 0, 0, 0, 0, false))
    case A1 =>
      var a :- ParseReg(args[0]);
      var b :- ParseReg(args[1]);
      var c :- ParseReg(args[2]);
      Ok(Fields(d.opcode, a, b, c, 0, false))
    case A2 =>
      var a :- ParseReg(args[0]);
      var n :- ParseNum(args[1], 4, false);
      Ok(Fields(d.opcode, a, 0, 0, n.value, false))
    case A3 =>
      var a :- ParseReg(args[0]);
      Ok(Fields(d.opcode, a, 0, 0, 0, false))
    case B1 =>
      var t :- ParseConstant(args[0], addr, labels, 9);
      Ok(Fields(d.opcode, 0, 0, 0, t, false))
    case B2 =>
      var a :- ParseReg(args[0]);
      var n :- ParseNum(args[1], 6, false);
      Ok(Fields(d.opcode, a, 0, 0, n.value, false))
    case L1 =>
      var n :- ParseNum(args[0], 8, false);
      Ok(Fields(d.opcode, 0, 0, 0, n.value, d.upper))
    case L2 =>
      var a :- ParseReg(args[0]);
      var b :- ParseReg(args[1]);
      Ok(Fields(d.opcode, a, b, 0, 0, false))
  }

  /** ORing a field into the free low bits of a word adds it. */
  lemma OrField(hi: nat, k: nat, m: nat, lo: nat)
    requires m == Pow2(k) && lo < m && hi * m + lo < 0x1_0000
    ensures Or16(hi * m, lo) == hi * m + lo
  {
    var x := hi * m;
    BitOrDisjoint(hi, lo, k);
    assert BitOr(x, lo) == x + lo < 0x1_0000;
  }

  lemma ShiftSmall(x: U32, k: nat, m: nat)
    requires k < 32 && m == Pow2(k) && x * m < 0x1_0000_0000
    ensures Shl32(x, k) == x * m
  {
  }

  lemma Opcode(op: nat)
    requires op < 128
    ensures Shl32(op, 9) == op * 512 && Or16(0, Shl32(op, 9)) == op * 512
  {
    assert Pow2(9) == 512;
    assert BitOr(0, op * 512) == op * 512;
  }

  lemma Small()
    ensures Pow2(3) == 8 && Pow2(4) == 16 && Pow2(6) == 64 && Pow2(8) == 256 && Pow2(9) == 512
  {
    assert Pow2(3) == 8;
    assert Pow2(6) == 64;
  }

  /** The opcode and the first register field. */
  lemma OpcodeAndRa(op: nat, a: U32)
    requires op < 128 && a < 8
    ensures Or16(Or16(0, Shl32(op, 9)), Shl32(a, 6)) == op * 512 + a * 64
  {
    Small();
    Opcode(op);
    ShiftSmall(a, 6, 64);
    OrField(op, 9, 512, a * 64);
  }

  lemma EncodeA1(op: nat, a: U32, b: U32, c: U32)
    requires op < 128 && a < 8 && b < 8 && c < 8
    ensures Or16(Or16(Or16(Or16(0, Shl32(op, 9)), Shl32(a, 6)), Shl32(b, 3)), c)
         == Pack(A1, Fields(op, a, b, c, 0, false))
  {
    OpcodeRaRb(op, a, b);
    Small();
    OrField(op * 64 + a * 8 + b, 3, 8, c);
  }

  /** The opcode and the first two register fields. */
  lemma OpcodeRaRb(op: nat, a: U32, b: U32)
    requires op < 128 && a < 8 && b < 8
    ensures Or16(Or16(Or16(0, Shl32(op, 9)), Shl32(a, 6)), Shl32(b, 3)) == op * 512 + a * 64 + b * 8
  {
    OpcodeAndRa(op, a);
    Small();
    ShiftSmall(b, 3, 8);
    OrField(op * 8 + a, 6, 64, b * 8);
  }

  lemma EncodeA2(op: nat, a: U32, n: nat)
    requires op < 128 && a < 8 && n < 16
    ensures Or16(Or16(Or16(0, Shl32(op, 9)), Shl32(a, 6)), n)
         == Pack(A2, Fields(op, a, 0, 0, n, false))
  {
    Small();
    Opcode(op);
    ShiftSmall(a, 6, 64);
    OrField(op, 9, 512, a * 64);
    OrField(op * 8 + a, 6, 64, n);
  }

  lemma EncodeA3(op: nat, a: U32)
    requires op < 128 && a < 8
    ensures Or16(Or16(0, Shl32(op, 9)), Shl32(a, 6))
         == Pack(A3, Fields(op, a, 0, 0, 0, false))
  {
    Small();
    Opcode(op);
    ShiftSmall(a, 6, 64);
    OrField(op, 9, 512, a * 64);
  }

  lemma EncodeB1(op: nat, t: nat)
    requires op < 128 && t < 512
    ensures Or16(Or16(0, Shl32(op, 9)), t) == Pack(B1, Fields(op, 0, 0, 0, t, false))
  {
    Small();
    Opcode(op);
    OrField(op, 9, 512, t);
  }

  lemma EncodeB2(op: nat, a: U32, n: nat)
    requires op < 128 && a < 8 && n < 64
    ensures Or16(Or16(Or16(0, Shl32(op, 9)), Shl32(a, 6)), n)
         == Pack(B2, Fields(op, a, 0, 0, n, false))
  {
    Small();
    Opcode(op);
    ShiftSmall(a, 6, 64);
    OrField(op, 9, 512, a * 64);
    OrField(op * 8 + a, 6, 64, n);
  }

  lemma EncodeL1(op: nat, upper: bool, n: nat)
    requires op < 128 && n < 256
    ensures Or16(if upper then Or16(Or16(0, Shl32(op, 9)), Shl32(1, 8)) else Or16(0, Shl32(op, 9)), n)
         == Pack(L1, Fields(op, 0, 0, 0, n, upper))
  {
    Small();
    Opcode(op);
    ShiftSmall(1, 8, 256);
    OrField(op, 9, 512, 256);
    OrField(op * 2 + 1, 8, 256, n);
    OrField(op * 2, 8, 256, n);
  }

  lemma EncodeL2(op: nat, a: U32, b: U32)
    requires op < 128 && a < 8 && b < 8
    ensures Or16(Or16(Or16(0, Shl32(op, 9)), Shl32(a, 6)), Shl32(b, 3))
         == Pack(L2, Fields(op, a, b, 0, 0, false))
  {
    Small();
    Opcode(op);
    ShiftSmall(a, 6, 64);
    ShiftSmall(b, 3, 8);
    OrField(op, 9, 512, a * 64);
    OrField(op * 8 + a, 6, 64, b * 8);
  }

  lemma LowRegisterValue(word: string)
    requires LowRegister(word)
    ensures ParseReg(word).Ok? && ParseReg(word).value < 8
  {
  }

  /** The reference encoding of a parse: the operand fields packed. */
  function Packed(f: Format, x: Result<Fields>): Result<U16>
    requires x.Ok? ==> Fits(f, x.value)
  {
    if x.Err? then Err(x.error)
    else
      UnpackPack(f, x.value);
      Ok(Pack(f, x.value))
  }

  /** With register operands R0-R7, `parse_instruction` fails exactly where
      reading the operands fails, with the same error, and otherwise packs
      the operand fields, which fit their ranges. */
  lemma EncodePacks(d: OpData, args: seq<string>, labels: seq<Label>, addr: U32)
    requires d.opcode < 128 && |args| == Arity(d.format)
    requires RegistersLow(d.format, args)
    ensures OperandFields(d, args, labels, addr).Ok? ==>
              Fits(d.format, OperandFields(d, args, labels, addr).value)
    ensures Encode(d, args, labels, addr) == Packed(d.format, OperandFields(d, args, labels, addr))
  {
    match d.format {
      case A0 => PacksA0(d, args, labels, addr);
      case A1 => PacksA1(d, args, labels, addr);
      case A2 => PacksA2(d, args, labels, addr);
      case A3 => PacksA3(d, args, labels, addr);
      case B1 => PacksB1(d, args, labels, addr);
      case B2 => PacksB2(d, args, labels, addr);
      case L1 => PacksL1(d, args, labels, addr);
      case L2 => PacksL2(d, args, labels, addr);
    }
  }

  lemma PacksA0(d: OpData, args: seq<string>, labels: seq<Label>, addr: U32)
    requires d.opcode < 128 && |args| == Arity(d.format)
    requires RegistersLow(d.format, args)
    requires d.format == A0
    ensures OperandFields(d, args, labels, addr).Ok? ==>
              Fits(d.format, OperandFields(d, args, labels, addr).value)
    ensures Encode(d, args, labels, addr) == Packed(d.format, OperandFields(d, args, labels, addr))
  {
    Opcode(d.opcode);
  }

  lemma PacksA1(d: OpData, args: seq<string>, labels: seq<Label>, addr: U32)
    requires d.opcode < 128 && |args| == Arity(d.format)
    requires RegistersLow(d.format, args)
    requires d.format == A1
    ensures OperandFields(d, args, labels, addr).Ok? ==>
              Fits(d.format, OperandFields(d, args, labels, addr).value)
    ensures Encode(d, args, labels, addr) == Packed(d.format, OperandFields(d, args, labels, addr))
  {
    LowRegisterValue(args[0]);
    LowRegisterValue(args[1]);
    LowRegisterValue(args[2]);
    EncodeA1(d.opcode, ParseReg(args[0]).value, ParseReg(args[1]).value, ParseReg(args[2]).value);
  }

  lemma PacksA2(d: OpData, args: seq<string>, labels: seq<Label>, addr: U32)
    requires d.opcode < 128 && |args| == Arity(d.format)
    requires RegistersLow(d.format, args)
    requires d.format == A2
    ensures OperandFields(d, args, labels, addr).Ok? ==>
              Fits(d.format, OperandFields(d, args, labels, addr).value)
    ensures Encode(d, args, labels, addr) == Packed(d.format, OperandFields(d, args, labels, addr))
  {
    LowRegisterValue(args[0]);
    if ParseNum(args[1], 4, false).Ok? {
      Small();
      EncodeA2(d.opcode, ParseReg(args[0]).value, ParseNum(args[1], 4, false).value.value);
    }
  }

  lemma PacksA3(d: OpData, args: seq<string>, labels: seq<Label>, addr: U32)
    requires d.opcode < 128 && |args| == Arity(d.format)
    requires RegistersLow(d.format, args)
    requires d.format == A3
    ensures OperandFields(d, args, labels, addr).Ok? ==>
              Fits(d.format, OperandFields(d, args, labels, addr).value)
    ensures Encode(d, args, labels, addr) == Packed(d.format, OperandFields(d, args, labels, addr))
  {
    LowRegisterValue(args[0]);
    EncodeA3(d.opcode, ParseReg(args[0]).value);
  }

  lemma PacksB1(d: OpData, args: seq<string>, labels: seq<Label>, addr: U32)
    requires d.opcode < 128 && |args| == Arity(d.format)
    requires RegistersLow(d.format, args)
    requires d.format == B1
    ensures OperandFields(d, args, labels, addr).Ok? ==>
              Fits(d.format, OperandFields(d, args, labels, addr).value)
    ensures Encode(d, args, labels, addr) == Packed(d.format, OperandFields(d, args, labels, addr))
  {
    if ParseConstant(args[0], addr, labels, 9).Ok? {
      Small();
      EncodeB1(d.opcode, ParseConstant(args[0], addr, labels, 9).value);
    }
  }

  lemma PacksB2(d: OpData, args: seq<string>, labels: seq<Label>, addr: U32)
    requires d.opcode < 128 && |args| == Arity(d.format)
    requires RegistersLow(d.format, args)
    requires d.format == B2
    ensures OperandFields(d, args, labels, addr).Ok? ==>
              Fits(d.format, OperandFields(d, args, labels, addr).value)
    ensures Encode(d, args, labels, addr) == Packed(d.format, OperandFields(d, args, labels, addr))
  {
    LowRegisterValue(args[0]);
    if ParseNum(args[1], 6, false).Ok? {
      Small();
      EncodeB2(d.opcode, ParseReg(args[0]).value, ParseNum(args[1], 6, false).value.value);
    }
  }

  lemma PacksL1(d: OpData, args: seq<string>, labels: seq<Label>, addr: U32)
    requires d.opcode < 128 && |args| == Arity(d.format)
    requires RegistersLow(d.format, args)
    requires d.format == L1
    ensures OperandFields(d, args, labels, addr).Ok? ==>
              Fits(d.format, OperandFields(d, args, labels, addr).value)
    ensures Encode(d, args, labels, addr) == Packed(d.format, OperandFields(d, args, labels, addr))
  {
    if ParseNum(args[0], 8, false).Ok? {
      Small();
      EncodeL1(d.opcode, d.upper, ParseNum(args[0], 8, false).value.value);
    }
  }

  lemma PacksL2(d: OpData, args: seq<string>, labels: seq<Label>, addr: U32)
    requires d.opcode < 128 && |args| == Arity(d.format)
    requires RegistersLow(d.format, args)
    requires d.format == L2
    ensures OperandFields(d, args, labels, addr).Ok? ==>
              Fits(d.format, OperandFields(d, args, labels, addr).value)
    ensures Encode(d, args, labels, addr) == Packed(d.format, OperandFields(d, args, labels, addr))
  {
    LowRegisterValue(args[0]);
    LowRegisterValue(args[1]);
    EncodeL2(d.opcode, ParseReg(args[0]).value, ParseReg(args[1]).value);
  }

  /** `parse_instruction` with register operands R0-R7 packs the fields it
      reads, and unpacking its word gives those fields back. */
  lemma ParseInstructionPacks(op: string, args: seq<string>, labels: seq<Label>, addr: U32)
    requires LookupOp(op).Some? && |args| == Arity(OpOf(op).format)
    requires RegistersLow(OpOf(op).format, args)
    ensures ParseInstruction(op, args, labels, addr).Ok? <==> OperandFields(OpOf(op), args, labels, addr).Ok?
    ensures ParseInstruction(op, args, labels, addr).Err? ==>
              ParseInstruction(op, args, labels, addr).error == OperandFields(OpOf(op), args, labels, addr).error
    ensures ParseInstruction(op, args, labels, addr).Ok? ==>
              Unpack(OpOf(op).format, ParseInstruction(op, args, labels, addr).value)
              == OperandFields(OpOf(op), args, labels, addr).value
  {
    var d := OpOf(op);
    EncodePacks(d, args, labels, addr);
    var x := OperandFields(d, args, labels, addr);
    if x.Ok? {
      UnpackPack(d.format, x.value);
    }
  }

  // ---------------------------------------------------------------------
  // Examples

  /** `parse_instruction` finds `ADD` at its table entry, opcode 1 with three
      registers, so the examples below are what it makes of these operands. */
  lemma AddLookup(op: string, args: seq<string>, labels: seq<Label>, addr: U32)
    requires op == "ADD" && |args| <= 3
    ensures LookupOp(op) == Some(1)
    ensures ParseInstruction(op, args, labels, addr) == Encode(OpData("ADD", 1, A1, false), args, labels, addr)
  {
    assert OP[0].mnemonic == "NOP" && OP[1] == OpData("ADD", 1, A1, false);
    assert !CStrEq(op, OP[0].mnemonic) by {
      assert op[0] == 'A' && At(OP[0].mnemonic, 0) == 'N';
    }
    assert CStrEq(op, OP[1].mnemonic);
    assert LookupFrom(op, 1) == Some(1);
  }

  /** ADD R1 R2 R3 encodes as 0x0253. */
  lemma AddExample()
    ensures Encode(OpData("ADD", 1, A1, false), ["R1", "R2", "R3"], [], 0) == Ok(0x0253)
  {
    EncodePacks(OpData("ADD", 1, A1, false), ["R1", "R2", "R3"], [], 0);
  }

  /** LOADIMM.UPPER sets bit 8 above its 8-bit immediate: with any literal
      it accepts, the word is 0x2500 plus the literal's value (0x2520 for
      `0x20`). */
  lemma UpperExample(word: string)
    requires ParseNum(word, 8, false).Ok?
    ensures Encode(OpData("LOADIMM.UPPER", 18, L1, true), [word], [], 0)
         == Ok(0x2500 + ParseNum(word, 8, false).value.value)
  {
    PacksL1(OpData("LOADIMM.UPPER", 18, L1, true), [word], [], 0);
  }

  /** BRR to a label one word further on encodes as 0x8001: `BRR FAIL` at
      address 8 with `FAIL:` at 10, say. */
  lemma BranchExample(name: string, addr: U32)
    requires |name| > 0 && 'A' <= name[0] <= 'Z' && !HasPrefix(name)
    requires addr < 0x8000_0000 - 2
    ensures Encode(OpData("BRR", 64, B1, false), [name], [Label(name, addr + 2)], addr) == Ok(0x8001)
  {
    PacksB1(OpData("BRR", 64, B1, false), [name], [Label(name, addr + 2)], addr);
    ForwardBranchExample(name, addr);
  }

  /** ADD with two operands is an arity error. */
  lemma ArityExample()
    ensures Encode(OpData("ADD", 1, A1, false), ["R1", "R2"], [], 0) == Err(ArityMismatch)
  {
  }

  /** A register beyond R7 is accepted, and its number spills into the
      neighbouring field: ADD R0 R0 R8 encodes as ADD R0 R1 R0. */
  lemma WideRegisterExample()
    ensures Encode(OpData("ADD", 1, A1, false), ["R0", "R0", "R8"], [], 0) == Encode(OpData("ADD", 1, A1, false), ["R0", "R1", "R0"], [], 0)
  {
    EncodePacks(OpData("ADD", 1, A1, false), ["R0", "R1", "R0"], [], 0);
    assert ParseReg("R8") == Ok(8);
    Opcode(1);
    assert Shl32(0, 6) == 0 && Shl32(0, 3) == 0;
    assert BitOr(512, 0) == 512;
    assert BitOr(512, 8) == 520;
  }
}
