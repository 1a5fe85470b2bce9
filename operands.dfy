/**
 * Operand parsing: numeric literals (`parse_num`, with the `strtoul` it calls),
 * branch targets that are literals or labels (`parse_constant`) and register
 * names (`parse_reg`).
 */
module Operands {
  import opened Bits
  import opened Errors
  import opened CStrings

  const ULONG_MAX: int := 0xFFFF_FFFF_FFFF_FFFF

  /** A symbol table entry: a label name (without its colon) and the address
      it was defined at. */
  datatype Label = Label(name: string, addr: U32)

  /** `parse_num`'s result: the masked value and whether every character was a
      digit of the detected base (what it stores through `success`). */
  datatype Num = Num(value: nat, valid: bool)

  // ---------------------------------------------------------------------
  // strtoul

  /** The value `strtoul` gives a character in bases up to 36; 36 for a
      character that is no digit. */
  function DigitValue(c: char): (d: nat)
    ensures d <= 36
  {
    if '0' <= c <= '9' then c as int - '0' as int
    else if 'A' <= c <= 'Z' then c as int - 'A' as int + 10
    else if 'a' <= c <= 'z' then c as int - 'a' as int + 10
    else 36
  }

  /** C `isspace` in the "C" locale. */
  predicate IsSpace(c: char)
  {
    c == ' ' || ('\t' <= c <= '\r')
  }

  function SpaceEnd(s: seq<char>, i: nat): (j: nat)
    requires i <= |s|
    ensures i <= j <= |s| && !IsSpace(At(s, j))
    decreases |s| - i
  {
    if IsSpace(At(s, i)) then SpaceEnd(s, i + 1) else i
  }

  /** The end of the run of digits of `base` starting at `i`. */
  function DigitRun(s: seq<char>, i: nat, base: nat): (j: nat)
    requires i <= |s| && base <= 36
    ensures i <= j <= |s| && DigitValue(At(s, j)) >= base
    ensures forall k :: i <= k < j ==> DigitValue(s[k]) < base
    decreases |s| - i
  {
    if DigitValue(At(s, i)) < base then DigitRun(s, i + 1, base) else i
  }

  /** The number a string of digits denotes, most significant first. */
  function DigitsValue(s: seq<char>, base: nat): nat
  {
    if s == [] then 0
    else DigitsValue(s[..|s| - 1], base) * base + DigitValue(s[|s| - 1]) % 36
  }

  /** `strtoul(s, nullptr, base)` on a 64-bit `unsigned long`: leading white
      space, an optional sign, an optional `0x` for base 16, then the longest
      run of digits; a value past ULONG_MAX saturates, and a minus sign
      negates modulo 2^64. */
  function StrToUL(s: seq<char>, base: nat): (r: nat)
    requires base <= 36
    ensures r <= ULONG_MAX
  {
    var i := SpaceEnd(s, 0);
    var negative := At(s, i) == '-';
    var j := if At(s, i) == '+' || At(s, i) == '-' then i + 1 else i;
    var k := if base == 16 && At(s, j) == '0' && (At(s, j + 1) == 'X' || At(s, j + 1) == 'x') then j + 2 else j;
    var v := DigitsValue(s[k..DigitRun(s, k, base)], base);
    if v > ULONG_MAX then ULONG_MAX
    else if negative then (ULONG_MAX + 1 - v) % (ULONG_MAX + 1)
    else v
  }

  // ---------------------------------------------------------------------
  // parse_num

  /** The range assert and the mask that follow every conversion: the 32-bit
      pattern `x` passes iff its `int32_t` value lies in [-2^bits, 2^bits), and
      what is kept is that value modulo 2^bits. */
  function CheckAndMask(x: U32, bits: nat): (r: Result<nat>)
    requires bits < 32
    ensures r.Ok? <==> -Pow2(bits) <= Signed32(x) < Pow2(bits)
    ensures r.Ok? ==> r.value == Signed32(x) % Pow2(bits) && r.value < Pow2(bits)
    ensures r.Err? ==> r.error == OperandOutOfRange
  {
    FitsBitsRange(x, bits);
    MaskBitsMod(x, bits);
    if FitsBits(x, bits) then Ok(MaskBits(x, bits)) else Err(OperandOutOfRange)
  }

  /** The digit test `parse_num` applies for its three bases. */
  predicate IsDigitOf(c: char, base: nat)
  {
    if base == 16 then ('0' <= c <= '9') || ('A' <= c <= 'F')
    else if base == 2 then c == '0' || c == '1'
    else '0' <= c <= '9'
  }

  predicate AllDigits(s: string, base: nat)
  {
    forall i :: 0 <= i < |s| ==> IsDigitOf(s[i], base)
  }

  predicate Negative(word: string)
  {
    At(word, 0) == '-'
  }

  /** The word without one leading sign. */
  function Unsigned(word: string): (body: string)
    ensures |body| <= |word|
  {
    if At(word, 0) == '+' || At(word, 0) == '-' then word[1..] else word
  }

  /** A second character `X` or `B` announces a base prefix. */
  predicate HasPrefix(body: string)
  {
    |body| >= 2 && (body[1] == 'X' || body[1] == 'B')
  }

  predicate BadPrefix(body: string)
  {
    HasPrefix(body) && body[0] != '0'
  }

  function BaseOf(body: string): nat
  {
    if |body| >= 2 && body[1] == 'X' then 16
    else if |body| >= 2 && body[1] == 'B' then 2
    else 10
  }

  function DigitsOf(body: string): string
  {
    if HasPrefix(body) then body[2..] else body
  }

  /** The `int32_t` bit pattern `parse_num` range-checks: the `strtoul`
      result cast to 32 bits, negated when the word had a minus sign. */
  function Pattern(word: string): U32
  {
    var body := Unsigned(word);
    var p := Wrap32(StrToUL(DigitsOf(body), BaseOf(body)));
    if Negative(word) then Wrap32(-(p as int)) else p
  }

  /** `parse_num(word, bits, success)`; `lenient` says whether the caller asks
      for the `success` flag instead of stopping on a malformed word. */
  function ParseNum(word: string, bits: nat, lenient: bool): (r: Result<Num>)
    requires bits < 32
    ensures BadPrefix(Unsigned(word)) ==> r == Err(MalformedConstant)
    ensures r.Ok? ==> r.value.valid == AllDigits(DigitsOf(Unsigned(word)), BaseOf(Unsigned(word)))
    ensures !lenient && !AllDigits(DigitsOf(Unsigned(word)), BaseOf(Unsigned(word))) ==> r.Err?
    ensures r.Ok? ==> r.value.value < Pow2(bits)
  {
    var body := Unsigned(word);
    if BadPrefix(body) then Err(MalformedConstant)
    else
      var valid := AllDigits(DigitsOf(body), BaseOf(body));
      if !lenient && !valid then Err(MalformedConstant)
      else
        var masked :- CheckAndMask(Pattern(word), bits);
        Ok(Num(masked, valid))
  }

  /** The magnitude a literal denotes once its sign and prefix are removed. */
  function Magnitude(word: string): nat
  {
    DigitsValue(DigitsOf(Unsigned(word)), BaseOf(Unsigned(word)))
  }

  /** The signed value a well-formed literal denotes. */
  function LiteralValue(word: string): int
  {
    if Negative(word) then -(Magnitude(word) as int) else Magnitude(word)
  }

  lemma DigitOfIsDigit(c: char, base: nat)
    requires IsDigitOf(c, base) && (base == 2 || base == 10 || base == 16)
    ensures DigitValue(c) < base
  {
  }

  lemma {:induction false} DigitRunToEnd(s: seq<char>, i: nat, base: nat)
    requires i <= |s| && base <= 36
    requires forall k :: i <= k < |s| ==> DigitValue(s[k]) < base
    ensures DigitRun(s, i, base) == |s|
    decreases |s| - i
  {
    if i < |s| {
      DigitRunToEnd(s, i + 1, base);
    }
  }

  /** On a string of digits `strtoul` reads the whole string. */
  lemma StrToULOfDigits(s: string, base: nat)
    requires (base == 2 || base == 10 || base == 16) && AllDigits(s, base)
    ensures StrToUL(s, base) == if DigitsValue(s, base) > ULONG_MAX then ULONG_MAX else DigitsValue(s, base)
  {
    forall k | 0 <= k < |s|
      ensures DigitValue(s[k]) < base
    {
      DigitOfIsDigit(s[k], base);
    }
    DigitRunToEnd(s, 0, base);
    assert SpaceEnd(s, 0) == 0;
    assert At(s, 0) != '+' && At(s, 0) != '-';
    assert !(At(s, 1) == 'X' || At(s, 1) == 'x');
    assert s[0..|s|] == s;
  }

  /** A well-formed literal whose magnitude fits in 31 bits is accepted iff
      its value lies in [-2^bits, 2^bits), one value wider on each side than
      `bits`-bit two's complement, and yields that value modulo 2^bits. */
  lemma ParseNumValue(word: string, bits: nat, lenient: bool)
    requires bits < 32
    requires !BadPrefix(Unsigned(word)) && AllDigits(DigitsOf(Unsigned(word)), BaseOf(Unsigned(word)))
    requires Magnitude(word) < 0x8000_0000
    ensures ParseNum(word, bits, lenient).Ok? <==> -Pow2(bits) <= LiteralValue(word) < Pow2(bits)
    ensures ParseNum(word, bits, lenient).Ok? ==>
      ParseNum(word, bits, lenient).value == Num(LiteralValue(word) % Pow2(bits), true)
    ensures ParseNum(word, bits, lenient).Err? ==> ParseNum(word, bits, lenient).error == OperandOutOfRange
  {
    PatternValue(word);
  }

  /** With the `success` flag asked for, a word that is no valid literal is
      still converted and range-checked: the number `strtoul` reads from its
      leading digits must fit, or the word is out of range before any label
      is looked up. */
  lemma ParseNumLenient(word: string, bits: nat)
    requires bits < 32 && !BadPrefix(Unsigned(word))
    ensures ParseNum(word, bits, true).Ok? <==> -Pow2(bits) <= Signed32(Pattern(word)) < Pow2(bits)
    ensures ParseNum(word, bits, true).Ok? ==>
      ParseNum(word, bits, true).value ==
        Num(Signed32(Pattern(word)) % Pow2(bits), AllDigits(DigitsOf(Unsigned(word)), BaseOf(Unsigned(word))))
    ensures ParseNum(word, bits, true).Err? ==> ParseNum(word, bits, true).error == OperandOutOfRange
  {
  }

  lemma PatternValue(word: string)
    requires !BadPrefix(Unsigned(word)) && AllDigits(DigitsOf(Unsigned(word)), BaseOf(Unsigned(word)))
    requires Magnitude(word) < 0x8000_0000
    ensures Signed32(Pattern(word)) == LiteralValue(word)
  {
    var body := Unsigned(word);
    var m := Magnitude(word);
    StrToULOfDigits(DigitsOf(body), BaseOf(body));
    assert Wrap32(StrToUL(DigitsOf(body), BaseOf(body))) == m;
    var v := LiteralValue(word);
    assert Pattern(word) == Wrap32(v);
    SignedWrap(v);
  }

  // ---------------------------------------------------------------------
  // parse_reg

  /** `parse_reg`: a register is `R` and one more character, whose distance
      from `'0'` is the register number; nothing checks that it is a digit. */
  function ParseReg(word: string): (r: Result<U32>)
    ensures r.Ok? <==> |word| == 2 && word[0] == 'R'
    ensures r.Err? ==> r.error == InvalidRegister
    ensures r.Ok? && '0' <= word[1] <= '9' ==> r.value == DigitValue(word[1])
    ensures r.Ok? && word[1] >= '0' ==> r.value == word[1] as int - '0' as int
    ensures r.Ok? && word[1] < '0' ==> r.value == TWO32 - ('0' as int - word[1] as int)
  {
    if |word| == 2 && word[0] == 'R' then Ok(Wrap32(word[1] as int - '0' as int))
    else Err(InvalidRegister)
  }

  /** `R:` is register 10: the character after `'9'` is taken at its
      distance from `'0'`. */
  lemma ColonRegisterExample()
    ensures ParseReg("R:") == Ok(10)
  {
  }

  // ---------------------------------------------------------------------
  // parse_constant

  /** `((int32_t)labelAddr - (int32_t)addr) / 2`, with C's division. */
  function Displacement(labelAddr: U32, addr: U32): int
  {
    TDiv(Signed32(Wrap32(Signed32(labelAddr) - Signed32(addr))), 2)
  }

  /** For addresses below 2^31 the displacement is the halved distance,
      rounded toward zero. */
  lemma DisplacementValue(labelAddr: U32, addr: U32)
    requires labelAddr < 0x8000_0000 && addr < 0x8000_0000
    ensures Displacement(labelAddr, addr) == TDiv(labelAddr - addr, 2)
  {
    SignedWrap(labelAddr - addr);
  }

  /** Some label already has the name. */
  predicate Declared(labels: seq<Label>, name: string)
  {
    exists j :: 0 <= j < |labels| && labels[j].name == name
  }

  predicate UniqueNames(labels: seq<Label>)
  {
    forall i, j :: 0 <= i < j < |labels| ==> labels[i].name != labels[j].name
  }

  /** The label loop of `parse_constant` from entry `i` on: every entry named
      `word` is range-checked, and the last one's value is kept. */
  function ResolveFrom(word: string, addr: U32, labels: seq<Label>, bits: nat, i: nat, found: Option<nat>): (r: Result<Option<nat>>)
    requires bits < 32 && i <= |labels|
    ensures (found.Some? ==> found.value < Pow2(bits)) && r.Ok? && r.value.Some? ==> r.value.value < Pow2(bits)
    decreases |labels| - i
  {
    if i == |labels| then Ok(found)
    else if labels[i].name == word then
      var v :- CheckAndMask(Wrap32(Displacement(labels[i].addr, addr)), bits);
      ResolveFrom(word, addr, labels, bits, i + 1, Some(v))
    else ResolveFrom(word, addr, labels, bits, i + 1, found)
  }

  /** `parse_constant`: a literal, or else the displacement to the label of
      that name. */
  function ParseConstant(word: string, addr: U32, labels: seq<Label>, bits: nat): (r: Result<nat>)
    requires bits < 32
    ensures r.Ok? ==> r.value < Pow2(bits)
  {
    var n :- ParseNum(word, bits, true);
    if n.valid then Ok(n.value)
    else
      var f :- ResolveFrom(word, addr, labels, bits, 0, None);
      if f.None? then Err(LabelNotFound) else Ok(f.value)
  }

  lemma {:induction false} ResolveNoMatch(word: string, addr: U32, labels: seq<Label>, bits: nat, i: nat, found: Option<nat>)
    requires bits < 32 && i <= |labels|
    requires forall j :: i <= j < |labels| ==> labels[j].name != word
    ensures ResolveFrom(word, addr, labels, bits, i, found) == Ok(found)
    decreases |labels| - i
  {
    if i < |labels| {
      ResolveNoMatch(word, addr, labels, bits, i + 1, found);
    }
  }

  lemma {:induction false} ResolveMatch(word: string, addr: U32, labels: seq<Label>, bits: nat, i: nat, found: Option<nat>, k: nat)
    requires bits < 32 && i <= k < |labels|
    requires labels[k].name == word && forall j :: i <= j < |labels| && j != k ==> labels[j].name != word
    ensures ResolveFrom(word, addr, labels, bits, i, found) ==
      (var v :- CheckAndMask(Wrap32(Displacement(labels[k].addr, addr)), bits); Ok(Some(v)))
    decreases |labels| - i
  {
    if i < k {
      ResolveMatch(word, addr, labels, bits, i + 1, found, k);
    } else {
      var c := CheckAndMask(Wrap32(Displacement(labels[k].addr, addr)), bits);
      if c.Ok? {
        ResolveNoMatch(word, addr, labels, bits, i + 1, Some(c.value));
      }
    }
  }

  /** The label loop finds the one label of that name and checks its
      displacement. */
  lemma ResolveLabel(word: string, addr: U32, labels: seq<Label>, bits: nat, k: nat)
    requires bits < 32
    requires UniqueNames(labels) && k < |labels| && labels[k].name == word
    requires labels[k].addr < 0x8000_0000 && addr < 0x8000_0000
    ensures var d := TDiv(labels[k].addr - addr, 2);
      ResolveFrom(word, addr, labels, bits, 0, None) ==
        if -Pow2(bits) <= d < Pow2(bits) then Ok(Some(d % Pow2(bits))) else Err(OperandOutOfRange)
  {
    var d := TDiv(labels[k].addr - addr, 2);
    ResolveMatch(word, addr, labels, bits, 0, None, k);
    DisplacementValue(labels[k].addr, addr);
    SignedWrap(d);
  }

  /** A word that is no valid literal resolves to the label of that name: the
      halved distance, rounded toward zero, range-checked and masked like a
      literal. */
  lemma ParseConstantLabel(word: string, addr: U32, labels: seq<Label>, bits: nat, k: nat)
    requires bits < 32 && ParseNum(word, bits, true).Ok? && !ParseNum(word, bits, true).value.valid
    requires UniqueNames(labels) && k < |labels| && labels[k].name == word
    requires labels[k].addr < 0x8000_0000 && addr < 0x8000_0000
    ensures var d := TDiv(labels[k].addr - addr, 2);
      ParseConstant(word, addr, labels, bits) ==
        if -Pow2(bits) <= d < Pow2(bits) then Ok(d % Pow2(bits)) else Err(OperandOutOfRange)
  {
    ResolveLabel(word, addr, labels, bits, k);
  }

  /** A well-formed literal is taken as its own value, masked to `bits`, or
      is out of range; the labels are not consulted. */
  lemma ParseConstantLiteral(word: string, addr: U32, labels: seq<Label>, bits: nat)
    requires bits < 32
    requires !BadPrefix(Unsigned(word)) && AllDigits(DigitsOf(Unsigned(word)), BaseOf(Unsigned(word)))
    requires Magnitude(word) < 0x8000_0000
    ensures ParseConstant(word, addr, labels, bits) ==
      if -Pow2(bits) <= LiteralValue(word) < Pow2(bits) then Ok(LiteralValue(word) % Pow2(bits))
      else Err(OperandOutOfRange)
  {
    ParseNumValue(word, bits, true);
  }

  /** The same for a literal of any magnitude: the value range-checked and
      masked is the literal's `strtoul` pattern read as `int32_t`. */
  lemma ParseConstantPattern(word: string, addr: U32, labels: seq<Label>, bits: nat)
    requires bits < 32
    requires !BadPrefix(Unsigned(word)) && AllDigits(DigitsOf(Unsigned(word)), BaseOf(Unsigned(word)))
    ensures ParseConstant(word, addr, labels, bits) ==
      if -Pow2(bits) <= Signed32(Pattern(word)) < Pow2(bits) then Ok(Signed32(Pattern(word)) % Pow2(bits))
      else Err(OperandOutOfRange)
  {
    ParseNumLenient(word, bits);
  }

  /** A word `parse_num` refuses stops `parse_constant` with the same error:
      a bad base prefix, or a number that does not fit. */
  lemma ParseConstantPassesErrors(word: string, addr: U32, labels: seq<Label>, bits: nat)
    requires bits < 32 && ParseNum(word, bits, true).Err?
    ensures ParseConstant(word, addr, labels, bits) == Err(ParseNum(word, bits, true).error)
    ensures BadPrefix(Unsigned(word)) ==> ParseConstant(word, addr, labels, bits) == Err(MalformedConstant)
    ensures !BadPrefix(Unsigned(word)) ==> ParseConstant(word, addr, labels, bits) == Err(OperandOutOfRange)
  {
    if !BadPrefix(Unsigned(word)) {
      ParseNumLenient(word, bits);
    }
  }

  /** A word that is neither a valid literal nor a label name is an error. */
  lemma ParseConstantMissing(word: string, addr: U32, labels: seq<Label>, bits: nat)
    requires bits < 32 && ParseNum(word, bits, true).Ok? && !ParseNum(word, bits, true).value.valid
    requires forall j :: 0 <= j < |labels| ==> labels[j].name != word
    ensures ParseConstant(word, addr, labels, bits) == Err(LabelNotFound)
  {
    ResolveNoMatch(word, addr, labels, bits, 0, None);
  }

  /** A word that starts with a letter and announces no base prefix is no
      valid literal, and `strtoul` reads no digit of it. */
  lemma LetterWordIsNoLiteral(word: string, bits: nat, lenient: bool)
    requires bits < 32 && |word| > 0 && 'A' <= word[0] <= 'Z' && !HasPrefix(word)
    ensures ParseNum(word, bits, lenient) == if lenient then Ok(Num(0, false)) else Err(MalformedConstant)
  {
    assert DigitRun(word, 0, 10) == 0;
    assert StrToUL(word, 10) == 0;
    assert CheckAndMask(0, bits) == Ok(0);
  }

  /** A name that starts with a letter, declared once, resolves to the
      halved distance to it. */
  lemma SingleLabel(word: string, addr: U32, target: U32, bits: nat)
    requires bits < 32 && |word| > 0 && 'A' <= word[0] <= 'Z' && !HasPrefix(word)
    requires target < 0x8000_0000 && addr < 0x8000_0000
    ensures var d := TDiv(target - addr, 2);
      ParseConstant(word, addr, [Label(word, target)], bits) ==
        if -Pow2(bits) <= d < Pow2(bits) then Ok(d % Pow2(bits)) else Err(OperandOutOfRange)
  {
    LetterWordIsNoLiteral(word, bits, true);
    ParseConstantLabel(word, addr, [Label(word, target)], bits, 0);
  }

  /** A branch to a label one word further on, such as `BRR FAIL` at
      address 8 with `FAIL:` at 10, has offset 1. */
  lemma ForwardBranchExample(name: string, addr: U32)
    requires |name| > 0 && 'A' <= name[0] <= 'Z' && !HasPrefix(name)
    requires addr < 0x8000_0000 - 2
    ensures ParseConstant(name, addr, [Label(name, addr + 2)], 9) == Ok(1)
  {
    assert TDiv(addr + 2 - addr, 2) == 1 && Pow2(9) == 512;
    SingleLabel(name, addr, addr + 2, 9);
  }

  /** A branch three bytes back, such as `BRR LOOP` at address 3 with
      `LOOP:` at 0: C's division gives -1 (masked to 511) where Euclidean
      division would give -2. */
  lemma BackwardBranchExample(name: string, addr: U32)
    requires |name| > 0 && 'A' <= name[0] <= 'Z' && !HasPrefix(name)
    requires 3 <= addr < 0x8000_0000
    ensures ParseConstant(name, addr, [Label(name, addr - 3)], 9) == Ok(511)
    ensures (addr - 3 - addr) / 2 == -2
  {
    assert TDiv(addr - 3 - addr, 2) == -1 && Pow2(9) == 512;
    SingleLabel(name, addr, addr - 3, 9);
  }

  /** A label whose name is digits and a letter, such as `999X`, is no
      valid literal, yet `strtoul` reads 999 from it, which does not fit 9
      bits: the branch is out of range although the label is declared. */
  lemma DigitLabelExample(name: string, addr: U32, target: U32)
    requires |name| == 4 && name[..3] == "999" && 'A' <= name[3] <= 'Z'
    ensures ParseConstant(name, addr, [Label(name, target)], 9) == Err(OperandOutOfRange)
  {
    assert Unsigned(name) == name && !BadPrefix(name) && BaseOf(name) == 10 && DigitsOf(name) == name;
    assert DigitRun(name, 0, 10) == 3;
    assert DigitsValue(name[..3], 10) == 999 by {
      assert name[..3][..2] == "99" && "99"[..1] == "9" && "9"[..0] == [];
    }
    assert StrToUL(name, 10) == 999;
    assert Pattern(name) == 999;
    assert Pow2(9) == 512;
    ParseNumLenient(name, 9);
  }

  /** A label whose second letter is `X` is rejected as a malformed
      hexadecimal literal before any label is looked up. */
  lemma HexLookingLabelExample()
    ensures ParseConstant("EXIT", 0, [Label("EXIT", 4)], 9) == Err(MalformedConstant)
  {
    assert BadPrefix(Unsigned("EXIT"));
  }
}
