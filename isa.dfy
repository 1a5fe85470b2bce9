/**
 * The instruction set: the opcode table with each mnemonic's opcode and
 * operand format, the number of operands each format takes, and the lookup
 * of a word in the table.
 */
module Isa {
  import opened Errors
  import opened CStrings

  /** Operand formats: A0 none; A1 three registers; A2 register and 4-bit
      immediate; A3 one register; B1 9-bit displacement or label; B2 register
      and 6-bit immediate; L1 8-bit immediate (with the upper/lower bit);
      L2 two registers. */
  datatype Format = A0 | A1 | A2 | A3 | B1 | B2 | L1 | L2

  datatype OpData = OpData(mnemonic: string, opcode: nat, format: Format, upper: bool)

  const OP: seq<OpData> := [
    OpData("NOP", 0, A0, false),
    OpData("ADD", 1, A1, false),
    OpData("SUB", 2, A1, false),
    OpData("MUL", 3, A1, false),
    OpData("NAND", 4, A1, false),
    OpData("SHL", 5, A2, false),
    OpData("SHR", 6, A2, false),
    OpData("TEST", 7, A3, false),
    OpData("MUH", 8, A1, false),
    OpData("OUT", 32, A3, false),
    OpData("IN", 33, A3, false),
    OpData("BRR", 64, B1, false),
    OpData("BRR.N", 65, B1, false),
    OpData("BRR.Z", 66, B1, false),
    OpData("BRR.O", 73, B1, false),
    OpData("BR", 67, B2, false),
    OpData("BR.N", 68, B2, false),
    OpData("BR.Z", 69, B2, false),
    OpData("BR.O", 72, B2, false),
    OpData("BR.SUB", 70, B2, false),
    OpData("RETURN", 71, A0, false),
    OpData("LOAD", 16, L2, false),
    OpData("STORE", 17, L2, false),
    OpData("LOADIMM.LOWER", 18, L1, false),
    OpData("LOADIMM.UPPER", 18, L1, true),
    OpData("MOV", 19, L2, false)
  ]

  /** The operand count `parse_instruction` demands of each format. */
  function Arity(f: Format): nat
  {
    match f
    case A0 => 0
    case A1 => 3
    case A2 => 2
    case A3 => 1
    case B1 => 1
    case B2 => 2
    case L1 => 1
    case L2 => 2
  }

  /** Every opcode fits the 7 bits above bit 8. */
  lemma OpcodesFit()
    ensures forall i :: 0 <= i < |OP| ==> OP[i].opcode < 128
  {
  }

  /** No mnemonic holds a colon, so no label word names an instruction. */
  lemma MnemonicsColonFree()
    ensures forall i :: 0 <= i < |OP| ==> ':' !in OP[i].mnemonic
  {
  }

  /** `ORG` is a directive, not a mnemonic. */
  lemma OrgIsNoMnemonic(word: string)
    requires CStrEq(word, "ORG")
    ensures LookupOp(word).None?
  {
    assert |word| >= 3;
    assert word[0] == 'O' && word[1] == 'R' by {
      assert word[0] == At("ORG", 0) && word[1] == At("ORG", 1);
    }
    forall i | 0 <= i < |OP|
      ensures !CStrEq(word, OP[i].mnemonic)
    {
      var m := OP[i].mnemonic;
      assert !(At(m, 0) == 'O' && At(m, 1) == 'R');
    }
  }

  /** Mnemonics are made of word characters, so none holds a NUL. */
  lemma MnemonicsNulFree()
    ensures forall i :: 0 <= i < |OP| ==> '\0' !in OP[i].mnemonic
  {
  }

  function LookupFrom(word: string, i: nat): (r: Option<nat>)
    requires i <= |OP|
    ensures r.Some? ==> i <= r.value < |OP| && CStrEq(word, OP[r.value].mnemonic)
    ensures r.None? ==> forall j :: i <= j < |OP| ==> !CStrEq(word, OP[j].mnemonic)
    decreases |OP| - i
  {
    if i == |OP| then None
    else if CStrEq(word, OP[i].mnemonic) then Some(i)
    else LookupFrom(word, i + 1)
  }

  /** The lookup stops at the first entry the word equals: no entry
      before the one it returns matches. */
  lemma {:induction false} LookupFromFirst(word: string, i: nat, j: nat)
    requires i <= |OP| && LookupFrom(word, i).Some? && i <= j < LookupFrom(word, i).value
    ensures !CStrEq(word, OP[j].mnemonic)
    decreases j - i
  {
    assert LookupFrom(word, i) != Some(i);
    if j > i {
      assert LookupFrom(word, i) == LookupFrom(word, i + 1);
      LookupFromFirst(word, i + 1, j);
    }
  }

  /** `lookup_op`: the index of the first table entry the word equals, or
      `None` for INVALID_OP. */
  function LookupOp(word: string): (r: Option<nat>)
    ensures r.Some? ==> r.value < |OP| && CStrEq(word, OP[r.value].mnemonic)
    ensures r.None? ==> forall j :: 0 <= j < |OP| ==> !CStrEq(word, OP[j].mnemonic)
  {
    LookupFrom(word, 0)
  }

  /** For a NUL-free word, `lookup_op` finds exactly the entry whose mnemonic
      is the word. */
  lemma LookupOpExact(word: string)
    requires '\0' !in word
    ensures LookupOp(word).Some? <==> exists i :: 0 <= i < |OP| && OP[i].mnemonic == word
    ensures LookupOp(word).Some? ==> OP[LookupOp(word).value].mnemonic == word
  {
    MnemonicsNulFree();
    forall i | 0 <= i < |OP|
      ensures CStrEq(word, OP[i].mnemonic) <==> OP[i].mnemonic == word
    {
      CStrEqIsEquality(word, OP[i].mnemonic);
    }
  }

  /** `is_label`: the word ends with a colon. */
  predicate IsLabel(word: string)
  {
    |word| > 0 && word[|word| - 1] == ':'
  }

  /** `is_comment`: the word starts with a semicolon. */
  predicate IsComment(word: string)
  {
    |word| > 0 && word[0] == ';'
  }

  /** Opcode, format and upper flag of a mnemonic. */
  function OpOf(word: string): (d: OpData)
    requires LookupOp(word).Some?
    ensures d in OP && d.opcode < 128
  {
    OpcodesFit();
    OP[LookupOp(word).value]
  }
}
