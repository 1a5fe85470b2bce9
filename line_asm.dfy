/**
 * The driver of `assembler_apr7.cpp`: the input is read line by line, twice.
 * Every line has its comment cut off and is upper-cased. The first pass
 * follows the write address and records every label, copying its name into
 * a fixed name buffer; the second pass follows the same address and encodes
 * every instruction into the global `rom_data` image.
 */
module LineAssembler {
  import opened Bits
  import opened Errors
  import opened CStrings
  import opened Isa
  import opened Tokenizer
  import opened Operands
  import opened Encoder
  import opened Image
  import opened Containers

  const LINE_BUF_SIZE: nat := 256
  const LABEL_BUF_SIZE: nat := 65536
  const MAX_LABELS: nat := 512

  // ---------------------------------------------------------------------
  // Lines and their words

  /** The lines `getline` delivers: reading stops at the first line that
      does not fit the 256-character line buffer with its NUL. */
  function FirstLong(lines: seq<string>): (n: nat)
    ensures n <= |lines|
    ensures forall i :: 0 <= i < n ==> |lines[i]| < LINE_BUF_SIZE
    ensures n < |lines| ==> |lines[n]| >= LINE_BUF_SIZE
  {
    if lines == [] || |lines[0]| >= LINE_BUF_SIZE then 0 else 1 + FirstLong(lines[1..])
  }

  function Readable(lines: seq<string>): seq<string>
  {
    lines[..FirstLong(lines)]
  }

  /** The read loop goes on exactly while the lines fit the buffer. */
  lemma ReadsOn(lines: seq<string>, i: nat)
    requires i <= FirstLong(lines)
    ensures i < |lines| && |lines[i]| < LINE_BUF_SIZE <==> i < FirstLong(lines)
  {
  }

  /** A line in the line buffer after `strip_comments` and `to_upper`. */
  function Prepared(line: string): seq<char>
  {
    Upper(Stripped(line + ['\0']))
  }

  /** The words `get_word` reads from a prepared line (a newline is no word
      here: `getline` has removed it). */
  function Words(line: string): seq<string>
  {
    Tokens(Prepared(line), 0, false)
  }

  /** The words of every line. */
  function LineWords(lines: seq<string>): (wss: seq<seq<string>>)
    ensures |wss| == |lines| && forall i :: 0 <= i < |lines| ==> wss[i] == Words(lines[i])
  {
    seq(|lines|, i requires 0 <= i < |lines| => Words(lines[i]))
  }

  /** The words of the lines the read loop delivers. */
  lemma ReadableWords(lines: seq<string>)
    ensures |LineWords(Readable(lines))| == FirstLong(lines)
    ensures forall i :: 0 <= i < FirstLong(lines) ==> LineWords(Readable(lines))[i] == Words(lines[i])
  {
  }

  /** The address update both passes make for a line, decided by its first
      word: `ORG` sets it to the 16-bit operand, a mnemonic advances it by
      two, anything else leaves it. */
  function AddrStep(ws: seq<string>, addr: U32): (r: Result<U32>)
    ensures r.Err? ==> CStrEq(Head(ws), "ORG")
  {
    var w := Head(ws);
    if CStrEq(w, "ORG") then
      var n :- ParseNum(Head(Tail(ws)), 16, false);
      Ok(n.value)
    else if LookupOp(w).Some? then Ok(AddrPlus2(addr))
    else Ok(addr)
  }

  /** An `ORG` line whose operand is a well-formed literal sets the address
      to that literal, when it fits 16 bits, and is out of range otherwise. */
  lemma OrgLineSetsLiteral(ws: seq<string>, addr: U32)
    requires CStrEq(Head(ws), "ORG")
    requires var n := Head(Tail(ws));
      !BadPrefix(Unsigned(n)) && AllDigits(DigitsOf(Unsigned(n)), BaseOf(Unsigned(n))) && Magnitude(n) < 0x8000_0000
    ensures AddrStep(ws, addr).Ok? <==> -0x1_0000 <= LiteralValue(Head(Tail(ws))) < 0x1_0000
    ensures AddrStep(ws, addr).Ok? ==> AddrStep(ws, addr).value == LiteralValue(Head(Tail(ws))) % 0x1_0000
    ensures AddrStep(ws, addr).Err? ==> AddrStep(ws, addr).error == OperandOutOfRange
  {
    assert Pow2(8) == 256;
    Pow2Add(8, 8);
    ParseNumValue(Head(Tail(ws)), 16, false);
  }

  // ---------------------------------------------------------------------
  // The first pass

  /** `write_addr`, the labels, and the used part of `label_name_buf`. */
  datatype LabelPass = LabelPass(writeAddr: U32, labels: seq<Label>, names: seq<char>)

  const LabelStart := LabelPass(0, [], [])

  /** The label names one after the other, as `memcpy` lays them out in
      the name buffer. */
  function NamesOf(labels: seq<Label>): seq<char>
  {
    if labels == [] then [] else NamesOf(labels[..|labels| - 1]) + labels[|labels| - 1].name
  }

  /** Each label's name is the slice of the name buffer its `SubString`
      points to, the buffer stays within its size, and the label array
      within its capacity. */
  predicate NamesInBuffer(st: LabelPass)
  {
    st.names == NamesOf(st.labels) && |st.names| <= LABEL_BUF_SIZE && |st.labels| <= MAX_LABELS
  }

  /** One line of the first pass, given its words. */
  function LabelLine(ws: seq<string>, st: LabelPass): (r: Result<LabelPass>)
    ensures r.Ok? ==> AddrStep(ws, st.writeAddr) == Ok(r.value.writeAddr)
    ensures NamesInBuffer(st) && r.Ok? ==> NamesInBuffer(r.value)
  {
    var w := Head(ws);
    if CStrEq(w, "ORG") then
      var n :- ParseNum(Head(Tail(ws)), 16, false);
      Ok(st.(writeAddr := n.value))
    else if LookupOp(w).Some? then Ok(st.(writeAddr := AddrPlus2(st.writeAddr)))
    else if IsLabel(w) then AddLabel(w[..|w| - 1], st)
    else Ok(st)
  }

  /** The label branch of the first pass: the duplicate check, the room
      check on the name buffer, and `labels.push` at the current address. */
  function AddLabel(name: string, st: LabelPass): (r: Result<LabelPass>)
    ensures r.Ok? <==> !Declared(st.labels, name) && |st.names| + |name| <= LABEL_BUF_SIZE && |st.labels| < MAX_LABELS
  {
    if Declared(st.labels, name) then Err(DuplicateLabel)
    else if |st.names| + |name| > LABEL_BUF_SIZE then Err(LabelBufferFull)
    else if |st.labels| >= MAX_LABELS then Err(CapacityExceeded)
    else Ok(LabelPass(st.writeAddr, st.labels + [Label(name, st.writeAddr)], st.names + name))
  }

  /** The first pass over the lines, given the words of each. */
  function FirstPass(lines: seq<seq<string>>): (r: Result<LabelPass>)
    ensures r.Ok? ==> NamesInBuffer(r.value)
  {
    if lines == [] then Ok(LabelStart)
    else
      var st :- FirstPass(lines[..|lines| - 1]);
      LabelLine(lines[|lines| - 1], st)
  }

  // ---------------------------------------------------------------------
  // The second pass

  /** The argument loop: words are pushed until the empty word that ends
      the line; a fourth push overflows the three-slot array. */
  function LineArgs(word: string, ts: seq<string>, args: seq<string>): (r: Result<seq<string>>)
    requires |args| <= 3
    ensures r.Ok? ==> |r.value| <= 3 && args <= r.value
    ensures r.Err? ==> r.error == CapacityExceeded
    decreases |ts| + 3 - |args|
  {
    if word == [] then Ok(args)
    else if |args| == 3 then Err(CapacityExceeded)
    else LineArgs(Head(ts), Tail(ts), args + [word])
  }

  /** The argument loop collects the words up to the first empty one (or
      the end), and fails exactly when that makes more than three. */
  lemma {:induction false} LineArgsCollects(ws: seq<string>, args: seq<string>, n: nat)
    requires |args| <= 3 && n <= |ws|
    requires forall k :: 0 <= k < n ==> ws[k] != []
    requires n == |ws| || ws[n] == []
    ensures LineArgs(Head(ws), Tail(ws), args)
         == if |args| + n <= 3 then Ok(args + ws[..n]) else Err(CapacityExceeded)
    decreases n
  {
    if n == 0 {
      assert args + ws[..0] == args;
    } else if |args| < 3 {
      assert Head(ws) == ws[0];
      LineArgsCollects(ws[1..], args + [ws[0]], n - 1);
      assert Tail(ws) == ws[1..];
      assert args + [ws[0]] + ws[1..][..n - 1] == args + ws[..n];
    }
  }

  /** One line of the second pass: the new address and, for an
      instruction, the word written and where. */
  function CodeLine(ws: seq<string>, addr: U32, labels: seq<Label>): (r: Result<(U32, Option<Placement>)>)
    ensures r.Ok? ==> AddrStep(ws, addr) == Ok(r.value.0)
    ensures r.Ok? ==> (r.value.1.Some? <==> !CStrEq(Head(ws), "ORG") && LookupOp(Head(ws)).Some?)
    ensures r.Ok? && r.value.1.Some? ==> r.value.1.value.addr == addr && InRom(r.value.1.value)
    ensures r.Ok? && r.value.1.Some? ==>
      LineArgs(Head(Tail(ws)), Tail(Tail(ws)), []).Ok? && LookupOp(Head(ws)).Some? &&
      ParseInstruction(Head(ws), LineArgs(Head(Tail(ws)), Tail(Tail(ws)), []).value, labels, addr) == Ok(r.value.1.value.word)
  {
    var w := Head(ws);
    if CStrEq(w, "ORG") then
      var n :- ParseNum(Head(Tail(ws)), 16, false);
      Ok((n.value, None))
    else if LookupOp(w).Some? then
      var args :- LineArgs(Head(Tail(ws)), Tail(Tail(ws)), []);
      var instr :- ParseInstruction(w, args, labels, addr);
      var p :- Place(addr, instr);
      Ok((AddrPlus2(addr), Some(p)))
    else Ok((addr, None))
  }

  /** `write_addr` and the writes made so far. */
  datatype CodePass = CodePass(writeAddr: U32, writes: seq<Placement>)

  /** The second pass over the lines, given the words of each, with the
      labels of the first. */
  function SecondPass(lines: seq<seq<string>>, labels: seq<Label>): (r: Result<CodePass>)
    ensures r.Ok? ==> AllInRom(r.value.writes)
  {
    if lines == [] then Ok(CodePass(0, []))
    else
      var st :- SecondPass(lines[..|lines| - 1], labels);
      CodeStep(lines[|lines| - 1], st, labels)
  }

  /** One line of the second pass on the address and the writes so far. */
  function CodeStep(ws: seq<string>, st: CodePass, labels: seq<Label>): (r: Result<CodePass>)
    ensures AllInRom(st.writes) && r.Ok? ==> AllInRom(r.value.writes)
    ensures r.Ok? ==> st.writes <= r.value.writes
  {
    var c :- CodeLine(ws, st.writeAddr, labels);
    var written := if c.1.Some? then [c.1.value] else [];
    Ok(CodePass(c.0, st.writes + written))
  }

  /** The image `rom_data` holds at the end, or the error the program stops
      with. */
  function Assembled(lines: seq<string>): (r: Result<seq<U8>>)
    ensures r.Ok? ==> |r.value| == ROM_SIZE
  {
    var ls := LineWords(Readable(lines));
    var labels :- FirstPass(ls);
    var code :- SecondPass(ls, labels.labels);
    Ok(ImageOf(code.writes))
  }

  // ---------------------------------------------------------------------
  // Properties of the two passes

  /** A pass that succeeds on some lines succeeded on every prefix. */
  lemma {:induction false} FirstPassPrefix(lines: seq<seq<string>>, k: nat)
    requires k <= |lines| && FirstPass(lines).Ok?
    ensures FirstPass(lines[..k]).Ok?
    decreases |lines|
  {
    if k < |lines| {
      var init := lines[..|lines| - 1];
      assert init[..k] == lines[..k];
      FirstPassPrefix(init, k);
    } else {
      assert lines[..k] == lines;
    }
  }

  lemma {:induction false} SecondPassPrefix(lines: seq<seq<string>>, labels: seq<Label>, k: nat)
    requires k <= |lines| && SecondPass(lines, labels).Ok?
    ensures SecondPass(lines[..k], labels).Ok?
    decreases |lines|
  {
    if k < |lines| {
      var init := lines[..|lines| - 1];
      assert init[..k] == lines[..k];
      SecondPassPrefix(init, labels, k);
    } else {
      assert lines[..k] == lines;
    }
  }

  /** The second pass starts from address 0 again and makes the same
      address updates, so after any lines both passes are at the same
      address. */
  lemma {:induction false} PassesAgree(lines: seq<seq<string>>, labels: seq<Label>)
    requires FirstPass(lines).Ok? && SecondPass(lines, labels).Ok?
    ensures FirstPass(lines).value.writeAddr == SecondPass(lines, labels).value.writeAddr
    decreases |lines|
  {
    if lines != [] {
      PassesAgree(lines[..|lines| - 1], labels);
    }
  }

  /** A label word is neither `ORG` nor a mnemonic. */
  lemma LabelWordIsNoStatement(w: string)
    requires IsLabel(w)
    ensures !CStrEq(w, "ORG") && LookupOp(w).None?
  {
    assert w[|w| - 1] == ':';
    assert !CStrEq(w, "ORG");
    assert LookupOp(w).None? by {
      MnemonicsColonFree();
    }
  }

  /** A label line is decided by its first word: the first pass ignores
      the rest of the line and the second pass writes nothing for it. */
  lemma LabelLineIgnoresRest(ws: seq<string>, st: LabelPass, addr: U32, labels: seq<Label>)
    requires IsLabel(Head(ws))
    ensures LabelLine(ws, st) == LabelLine([Head(ws)], st)
    ensures CodeLine(ws, addr, labels) == Ok((addr, None))
  {
    LabelWordIsNoStatement(Head(ws));
  }

  /** A label is added only under a name not yet taken. */
  lemma LabelLineKeepsNamesUnique(ws: seq<string>, st: LabelPass)
    requires UniqueNames(st.labels) && LabelLine(ws, st).Ok?
    ensures UniqueNames(LabelLine(ws, st).value.labels)
  {
    var w := Head(ws);
    if !CStrEq(w, "ORG") && LookupOp(w).None? && IsLabel(w) {
      var name := w[..|w| - 1];
      assert LabelLine(ws, st).value.labels == st.labels + [Label(name, st.writeAddr)];
      assert !Declared(st.labels, name);
    } else {
      assert LabelLine(ws, st).value.labels == st.labels;
    }
  }

  /** The first pass gives distinct names to its labels. */
  lemma {:induction false} FirstPassNamesUnique(lines: seq<seq<string>>)
    requires FirstPass(lines).Ok?
    ensures UniqueNames(FirstPass(lines).value.labels)
    decreases |lines|
  {
    if lines != [] {
      var init := lines[..|lines| - 1];
      FirstPassNamesUnique(init);
      LabelLineKeepsNamesUnique(lines[|lines| - 1], FirstPass(init).value);
    }
  }

  /** A line whose first word leaves the address alone. */
  predicate KeepsAddress(ws: seq<string>)
  {
    !CStrEq(Head(ws), "ORG") && LookupOp(Head(ws)).None?
  }

  /** A line of the first pass adds at most one label, at the end. */
  lemma LabelLineGrows(ws: seq<string>, st: LabelPass)
    requires LabelLine(ws, st).Ok?
    ensures st.labels <= LabelLine(ws, st).value.labels
  {
    var w := Head(ws);
    if !CStrEq(w, "ORG") && LookupOp(w).None? && IsLabel(w) {
      assert LabelLine(ws, st).value.labels == st.labels + [Label(w[..|w| - 1], st.writeAddr)];
    } else {
      assert LabelLine(ws, st).value.labels == st.labels;
    }
  }

  /** The labels only grow during the first pass. */
  lemma {:induction false} FirstPassLabelsGrow(lines: seq<seq<string>>, k: nat)
    requires k <= |lines| && FirstPass(lines).Ok?
    ensures FirstPass(lines[..k]).Ok? && FirstPass(lines[..k]).value.labels <= FirstPass(lines).value.labels
    decreases |lines|
  {
    FirstPassPrefix(lines, k);
    if k < |lines| {
      var init := lines[..|lines| - 1];
      assert init[..k] == lines[..k];
      FirstPassLabelsGrow(init, k);
      LabelLineGrows(lines[|lines| - 1], FirstPass(init).value);
    } else {
      assert lines[..k] == lines;
    }
  }

  /** The writes of the second pass only grow. */
  lemma {:induction false} SecondPassWritesGrow(lines: seq<seq<string>>, labels: seq<Label>, k: nat)
    requires k <= |lines| && SecondPass(lines, labels).Ok?
    ensures SecondPass(lines[..k], labels).Ok?
    ensures SecondPass(lines[..k], labels).value.writes <= SecondPass(lines, labels).value.writes
    decreases |lines|
  {
    SecondPassPrefix(lines, labels, k);
    if k < |lines| {
      var init := lines[..|lines| - 1];
      assert init[..k] == lines[..k];
      SecondPassWritesGrow(init, labels, k);
    } else {
      assert lines[..k] == lines;
    }
  }

  /** The first pass over some lines and one more. */
  lemma FirstPassLast(init: seq<seq<string>>, last: seq<string>)
    requires FirstPass(init + [last]).Ok?
    ensures FirstPass(init).Ok? && FirstPass(init + [last]) == LabelLine(last, FirstPass(init).value)
  {
    assert (init + [last])[..|init|] == init;
  }

  /** The second pass over some lines and one more. */
  lemma SecondPassLast(init: seq<seq<string>>, last: seq<string>, labels: seq<Label>)
    requires SecondPass(init + [last], labels).Ok?
    ensures SecondPass(init, labels).Ok?
    ensures CodeLine(last, SecondPass(init, labels).value.writeAddr, labels).Ok?
    ensures var c := CodeLine(last, SecondPass(init, labels).value.writeAddr, labels).value;
      SecondPass(init + [last], labels).value.writes == SecondPass(init, labels).value.writes + (if c.1.Some? then [c.1.value] else [])
  {
    assert (init + [last])[..|init|] == init;
  }

  /** A label line adds its label at the first pass's current address,
      which it leaves as it was. */
  lemma LabelLineAdds(init: seq<seq<string>>, last: seq<string>)
    requires FirstPass(init + [last]).Ok? && IsLabel(Head(last))
    ensures FirstPass(init).Ok?
    ensures Label(Head(last)[..|Head(last)| - 1], FirstPass(init).value.writeAddr) in FirstPass(init + [last]).value.labels
    ensures FirstPass(init + [last]).value.writeAddr == FirstPass(init).value.writeAddr
  {
    LabelWordIsNoStatement(Head(last));
    FirstPassLast(init, last);
  }

  /** An instruction line is written at the second pass's current address. */
  lemma InstructionLineWrites(init: seq<seq<string>>, last: seq<string>, labels: seq<Label>)
    requires SecondPass(init + [last], labels).Ok? && LookupOp(Head(last)).Some?
    ensures SecondPass(init, labels).Ok?
    ensures var writes := SecondPass(init + [last], labels).value.writes;
            |writes| > 0 && writes[|writes| - 1].addr == SecondPass(init, labels).value.writeAddr
  {
    SecondPassLast(init, last, labels);
    if CStrEq(Head(last), "ORG") {
      OrgIsNoMnemonic(Head(last));
    }
  }

  /** No write the second pass makes after line `i` touches either byte
      at the address it reaches that line with. */
  predicate NotOverwritten(lines: seq<seq<string>>, labels: seq<Label>, i: nat)
    requires i <= |lines| && SecondPass(lines, labels).Ok? && SecondPass(lines[..i], labels).Ok?
  {
    var a := SecondPass(lines[..i], labels).value.writeAddr;
    var ps := SecondPass(lines, labels).value.writes;
    forall j :: |SecondPass(lines[..i], labels).value.writes| < j < |ps| ==> !Touches(ps[j], a) && !Touches(ps[j], a + 1)
  }

  /** The image holds, big-endian at the address where the second pass
      reaches instruction line `i`, the word `parse_instruction` makes of
      that line's operands, unless a later instruction overwrites one of
      the two bytes. */
  lemma LineWordHolds(lines: seq<seq<string>>, labels: seq<Label>, i: nat)
    requires i < |lines| && SecondPass(lines, labels).Ok? && SecondPass(lines[..i], labels).Ok?
    requires LookupOp(Head(lines[i])).Some?
    requires NotOverwritten(lines, labels, i)
    ensures var a := SecondPass(lines[..i], labels).value.writeAddr;
      var ws := lines[i];
      a + 1 < ROM_SIZE && LineArgs(Head(Tail(ws)), Tail(Tail(ws)), []).Ok? &&
      ParseInstruction(Head(ws), LineArgs(Head(Tail(ws)), Tail(Tail(ws)), []).value, labels, a).Ok? &&
      WordAt(ImageOf(SecondPass(lines, labels).value.writes), a)
        == ParseInstruction(Head(ws), LineArgs(Head(Tail(ws)), Tail(Tail(ws)), []).value, labels, a).value
  {
    var ws := lines[i];
    var st := SecondPass(lines[..i], labels).value;
    var ps := SecondPass(lines, labels).value.writes;
    SecondPassWritesGrow(lines, labels, i + 1);
    TakeOneMore(lines, i);
    SecondPassLast(lines[..i], ws, labels);
    if CStrEq(Head(ws), "ORG") {
      OrgIsNoMnemonic(Head(ws));
    }
    var c := CodeLine(ws, st.writeAddr, labels).value;
    assert c.1.Some?;
    var n := |st.writes|;
    assert SecondPass(lines[..i + 1], labels).value.writes == st.writes + [c.1.value];
    assert ps[n] == c.1.value;
    var a := ps[n].addr;
    assert a == st.writeAddr;
    assert forall j :: n < j < |ps| ==> !Touches(ps[j], a) && !Touches(ps[j], a + 1);
    LastWriteWins(ps, n);
  }

  /** The same for the image `main` writes out: source line `i`, read
      within the line buffer, is an instruction, and the word at the
      address the second pass gives it is the one `parse_instruction` makes
      of the line, unless a later instruction overwrites one of its bytes. */
  lemma AssembledWordHolds(lines: seq<string>, i: nat)
    requires i < FirstLong(lines) && Assembled(lines).Ok?
    requires LookupOp(Head(Words(lines[i]))).Some?
    requires var ls := LineWords(Readable(lines));
      FirstPass(ls).Ok? && SecondPass(ls[..i], FirstPass(ls).value.labels).Ok?
    requires var ls := LineWords(Readable(lines));
      SecondPass(ls, FirstPass(ls).value.labels).Ok? && NotOverwritten(ls, FirstPass(ls).value.labels, i)
    ensures var ls := LineWords(Readable(lines));
      var labels := FirstPass(ls).value.labels;
      var a := SecondPass(ls[..i], labels).value.writeAddr;
      var ws := Words(lines[i]);
      a + 1 < ROM_SIZE && LineArgs(Head(Tail(ws)), Tail(Tail(ws)), []).Ok? &&
      ParseInstruction(Head(ws), LineArgs(Head(Tail(ws)), Tail(Tail(ws)), []).value, labels, a).Ok? &&
      WordAt(Assembled(lines).value, a)
        == ParseInstruction(Head(ws), LineArgs(Head(Tail(ws)), Tail(Tail(ws)), []).value, labels, a).value
  {
    var ls := LineWords(Readable(lines));
    var labels := FirstPass(ls).value.labels;
    assert Assembled(lines).value == ImageOf(SecondPass(ls, labels).value.writes);
    ReadableWords(lines);
    assert ls[i] == Words(lines[i]);
    LineWordHolds(ls, labels, i);
  }

  lemma TakeAll<T>(s: seq<T>)
    ensures s[..|s|] == s
  {
  }

  /** What is in a sequence is in every sequence it is a prefix of. */
  lemma InPrefix<T>(x: T, a: seq<T>, b: seq<T>)
    requires x in a && a <= b
    ensures x in b
  {
    var k :| 0 <= k < |a| && a[k] == x;
    assert b[k] == x;
  }

  /** Over lines that keep the address, the first pass stays where it was. */
  lemma {:induction false} FirstPassStays(lines: seq<seq<string>>, i: nat, j: nat)
    requires i <= j <= |lines| && FirstPass(lines[..j]).Ok?
    requires forall k :: i <= k < j ==> KeepsAddress(lines[k])
    ensures FirstPass(lines[..i]).Ok? && FirstPass(lines[..i]).value.writeAddr == FirstPass(lines[..j]).value.writeAddr
    decreases j
  {
    if i < j {
      var init := lines[..j][..j - 1];
      assert init == lines[..j - 1];
      assert lines[..j][j - 1] == lines[j - 1];
      FirstPassStays(lines, i, j - 1);
    }
  }

  /** A prefix one element longer is the shorter prefix and that element. */
  lemma TakeOneMore<T>(s: seq<T>, i: nat)
    requires i < |s|
    ensures s[..i + 1] == s[..i] + [s[i]]
  {
  }

  /** Right after its line, a label is at the first pass's address. */
  lemma LabelJustAdded(lines: seq<seq<string>>, i: nat)
    requires i < |lines| && FirstPass(lines[..i + 1]).Ok? && IsLabel(Head(lines[i]))
    ensures var name := Head(lines[i])[..|Head(lines[i])| - 1];
            var st := FirstPass(lines[..i + 1]).value;
            Label(name, st.writeAddr) in st.labels
  {
    TakeOneMore(lines, i);
    LabelLineAdds(lines[..i], lines[i]);
  }

  /** From a line on, over lines that keep the address, the first pass
      stays at the same address and only adds labels. */
  lemma FirstPassSince(lines: seq<seq<string>>, k: nat)
    requires k <= |lines| && FirstPass(lines).Ok?
    requires forall m :: k <= m < |lines| ==> KeepsAddress(lines[m])
    ensures FirstPass(lines[..k]).Ok?
    ensures FirstPass(lines[..k]).value.writeAddr == FirstPass(lines).value.writeAddr
    ensures FirstPass(lines[..k]).value.labels <= FirstPass(lines).value.labels
  {
    FirstPassLabelsGrow(lines, k);
    TakeAll(lines);
    FirstPassStays(lines, k, |lines|);
  }

  /** After a label line and lines that keep the address, the first pass
      is still at the address it gave the label. */
  lemma LabelHoldsAddress(lines: seq<seq<string>>, i: nat)
    requires i < |lines| && FirstPass(lines).Ok? && IsLabel(Head(lines[i]))
    requires forall k :: i < k < |lines| ==> KeepsAddress(lines[k])
    ensures var name := Head(lines[i])[..|Head(lines[i])| - 1];
            Label(name, FirstPass(lines).value.writeAddr) in FirstPass(lines).value.labels
  {
    FirstPassSince(lines, i + 1);
    LabelJustAdded(lines, i);
    var early := FirstPass(lines[..i + 1]).value;
    InPrefix(Label(Head(lines[i])[..|Head(lines[i])| - 1], early.writeAddr), early.labels, FirstPass(lines).value.labels);
  }

  /** A label names the address of the instruction on the next line that
      moves the address: the second pass writes that instruction exactly
      where the first pass put the label. The lines are `before`, the
      label line, lines that keep the address, and the instruction line
      `last`; the first pass only adds labels after it
      (FirstPassLabelsGrow). */
  lemma LabelMarksNextInstruction(lines: seq<seq<string>>, last: seq<string>, labels: seq<Label>, i: nat)
    requires i < |lines| && FirstPass(lines).Ok? && SecondPass(lines + [last], labels).Ok?
    requires IsLabel(Head(lines[i]))
    requires forall k :: i < k < |lines| ==> KeepsAddress(lines[k])
    requires LookupOp(Head(last)).Some?
    ensures var name := Head(lines[i])[..|Head(lines[i])| - 1];
            var writes := SecondPass(lines + [last], labels).value.writes;
            |writes| > 0 && Label(name, writes[|writes| - 1].addr) in FirstPass(lines).value.labels
  {
    LabelHoldsAddress(lines, i);
    InstructionLineWrites(lines, last, labels);
    PassesAgree(lines, labels);
  }

  // ---------------------------------------------------------------------
  // Stepping the passes line by line

  /** The first pass over some lines and one more, once the first lines
      succeeded. */
  lemma FirstPassNext(init: seq<seq<string>>, last: seq<string>)
    requires FirstPass(init).Ok?
    ensures FirstPass(init + [last]) == LabelLine(last, FirstPass(init).value)
  {
    assert (init + [last])[..|init|] == init;
  }

  lemma SecondPassNext(init: seq<seq<string>>, last: seq<string>, labels: seq<Label>)
    requires SecondPass(init, labels).Ok?
    ensures SecondPass(init + [last], labels) == CodeStep(last, SecondPass(init, labels).value, labels)
  {
    assert (init + [last])[..|init|] == init;
  }

  /** A pass that fails on some lines fails with the same error on every
      longer input. */
  lemma {:induction false} FirstPassFails(lines: seq<seq<string>>, k: nat)
    requires k <= |lines| && FirstPass(lines[..k]).Err?
    ensures FirstPass(lines) == FirstPass(lines[..k])
    decreases |lines|
  {
    if k < |lines| {
      var init := lines[..|lines| - 1];
      assert init[..k] == lines[..k];
      FirstPassFails(init, k);
    } else {
      assert lines[..k] == lines;
    }
  }

  lemma {:induction false} SecondPassFails(lines: seq<seq<string>>, labels: seq<Label>, k: nat)
    requires k <= |lines| && SecondPass(lines[..k], labels).Err?
    ensures SecondPass(lines, labels) == SecondPass(lines[..k], labels)
    decreases |lines|
  {
    if k < |lines| {
      var init := lines[..|lines| - 1];
      assert init[..k] == lines[..k];
      SecondPassFails(init, labels, k);
    } else {
      assert lines[..k] == lines;
    }
  }

  /** A line's words are its first word followed by the rest: the second
      pass looks at nothing else. */
  lemma CodeLineByHeadTail(ws: seq<string>, addr: U32, labels: seq<Label>)
    ensures CodeLine([Head(ws)] + Tail(ws), addr, labels) == CodeLine(ws, addr, labels)
  {
    assert Head([Head(ws)] + Tail(ws)) == Head(ws);
    assert Tail([Head(ws)] + Tail(ws)) == Tail(ws);
  }

  // ---------------------------------------------------------------------
  // The program

  /** `getline` into the line buffer, then `strip_comments` and `to_upper`
      on it in place. */
  method PrepareLine(line: string) returns (buf: array<char>)
    ensures fresh(buf) && buf[..] == Prepared(line)
  {
    buf := new char[|line| + 1](i requires 0 <= i <= |line| => if i < |line| then line[i] else '\0');
    assert buf[..] == line + ['\0'];
    StripComments(buf);
    ToUpper(buf);
  }

  /** `label_name_buf` and `label_buf_mark`: label names are copied one
      after the other into a fixed buffer, and each label's name is the
      slice of the buffer its name was copied to. */
  class NameBuffer {
    var chars: array<char>
    var mark: nat

    ghost predicate Valid()
      reads this
    {
      chars.Length == LABEL_BUF_SIZE && mark <= LABEL_BUF_SIZE
    }

    /** The part of the buffer the names fill. */
    function Text(): seq<char>
      reads this, chars
      requires Valid()
    {
      chars[..mark]
    }

    constructor ()
      ensures Valid() && fresh(chars) && Text() == []
    {
      chars := new char[LABEL_BUF_SIZE](_ => '\0');
      mark := 0;
    }

    /** The `memcpy` of a name to the mark, and the mark moved past it. */
    method Append(name: string)
      requires Valid() && mark + |name| <= LABEL_BUF_SIZE
      modifies this, chars
      ensures Valid() && chars == old(chars) && Text() == old(Text()) + name
    {
      var i := 0;
      while i < |name|
        invariant i <= |name|
        invariant chars[..mark] == old(chars[..mark])
        invariant forall k :: 0 <= k < i ==> chars[mark + k] == name[k]
        modifies chars
      {
        chars[mark + i] := name[i];
        i := i + 1;
      }
      assert chars[mark..mark + |name|] == name;
      mark := mark + |name|;
      assert Text() == old(Text()) + name by {
        assert Text() == chars[..mark - |name|] + chars[mark - |name|..mark];
      }
    }
  }

  /** The duplicate check: whether a label of that name was already
      pushed. */
  method FindLabel(labels: Array<Label>, name: string) returns (found: bool)
    requires labels.Valid()
    ensures found <==> Declared(labels.Contents(), name)
  {
    var i := 0;
    while i < labels.size
      invariant i <= labels.size
      invariant forall j :: 0 <= j < i ==> labels.Contents()[j].name != name
    {
      var entry := labels.Get(i);
      if entry.name == name {
        return true;
      }
      i := i + 1;
    }
    return false;
  }

  /** The label branch of the first pass on the label array and the name
      buffer. */
  method DeclareLineLabel(labels: Array<Label>, names: NameBuffer, name: string, addr: U32) returns (r: Result<U32>)
    requires labels.Valid() && labels.data.Length == MAX_LABELS && names.Valid()
    modifies labels, labels.data, names, names.chars
    ensures labels.Valid() && labels.data == old(labels.data) && names.Valid() && names.chars == old(names.chars)
    ensures var out := AddLabel(name, LabelPass(addr, old(labels.Contents()), old(names.Text())));
      && (r.Ok? <==> out.Ok?)
      && (r.Ok? ==> out.value == LabelPass(r.value, labels.Contents(), names.Text()))
      && (r.Err? ==> r.error == out.error)
  {
    var found := FindLabel(labels, name);
    if found {
      return Err(DuplicateLabel);
    }
    if names.mark + |name| > LABEL_BUF_SIZE {
      return Err(LabelBufferFull);
    }
    var start := names.mark;
    names.Append(name);
    var stored := names.chars[start..names.mark];
    assert stored == name;
    var ok := labels.Push(Label(stored, addr));
    if !ok {
      return Err(CapacityExceeded);
    }
    return Ok(addr);
  }

  /** The operand of `ORG`: the next word, read by `parse_num` as a 16-bit
      number. */
  method ReadOrigin(s: seq<char>, pos: nat) returns (r: Result<U32>)
    requires pos <= |s|
    ensures var n := ParseNum(Head(Tokens(s, pos, false)), 16, false);
      && (r.Ok? <==> n.Ok?)
      && (r.Ok? ==> r.value == n.value.value)
      && (r.Err? ==> r.error == n.error)
  {
    GetWordReadsTokens(s, pos, false);
    var operand, _ := GetWord(s, pos, false);
    var n := ParseNum(operand, 16, false);
    if n.Err? {
      return Err(n.error);
    }
    return Ok(n.value.value);
  }

  /** One line of the first pass. */
  method FirstPassLine(line: string, labels: Array<Label>, names: NameBuffer, writeAddr: U32) returns (r: Result<U32>)
    requires labels.Valid() && labels.data.Length == MAX_LABELS && names.Valid()
    modifies labels, labels.data, names, names.chars
    ensures labels.Valid() && labels.data == old(labels.data) && names.Valid() && names.chars == old(names.chars)
    ensures var out := LabelLine(Words(line), LabelPass(writeAddr, old(labels.Contents()), old(names.Text())));
      && (r.Ok? <==> out.Ok?)
      && (r.Ok? ==> out.value == LabelPass(r.value, labels.Contents(), names.Text()))
      && (r.Err? ==> r.error == out.error)
  {
    var buf := PrepareLine(line);
    GetWordReadsTokens(buf[..], 0, false);
    var word, pos := GetWord(buf[..], 0, false);
    if CStrEq(word, "ORG") {
      r := ReadOrigin(buf[..], pos);
    } else if LookupOp(word).Some? {
      return Ok(AddrPlus2(writeAddr));
    } else if IsLabel(word) {
      r := DeclareLineLabel(labels, names, word[..|word| - 1], writeAddr);
    } else {
      return Ok(writeAddr);
    }
  }

  /** The first pass on one more line, in the terms of the pass over the
      words of the lines. */
  method FirstPassStep(ghost ws: seq<seq<string>>, i: nat, line: string, labels: Array<Label>, names: NameBuffer, writeAddr: U32)
    returns (r: Result<U32>)
    requires i < |ws| && ws[i] == Words(line)
    requires labels.Valid() && labels.data.Length == MAX_LABELS && names.Valid()
    requires FirstPass(ws[..i]) == Ok(LabelPass(writeAddr, labels.Contents(), names.Text()))
    modifies labels, labels.data, names, names.chars
    ensures labels.Valid() && labels.data == old(labels.data) && names.Valid() && names.chars == old(names.chars)
    ensures r.Ok? ==> FirstPass(ws[..i + 1]) == Ok(LabelPass(r.value, labels.Contents(), names.Text()))
    ensures r.Err? ==> FirstPass(ws[..i + 1]) == Err(r.error)
  {
    TakeOneMore(ws, i);
    FirstPassNext(ws[..i], ws[i]);
    r := FirstPassLine(line, labels, names, writeAddr);
  }

  /** The first pass loop: lines are read while they fit the line buffer. */
  method RunFirstPass(lines: seq<string>, labels: Array<Label>, names: NameBuffer) returns (r: Result<U32>)
    requires labels.Valid() && labels.data.Length == MAX_LABELS && labels.Contents() == []
    requires names.Valid() && names.Text() == []
    modifies labels, labels.data, names, names.chars
    ensures labels.Valid() && labels.data == old(labels.data) && names.Valid() && names.chars == old(names.chars)
    ensures var out := FirstPass(LineWords(Readable(lines)));
      && (r.Ok? <==> out.Ok?)
      && (r.Ok? ==> out.value == LabelPass(r.value, labels.Contents(), names.Text()))
      && (r.Err? ==> r.error == out.error)
  {
    ghost var ws := LineWords(Readable(lines));
    ReadableWords(lines);
    var writeAddr: U32 := 0;
    var i := 0;
    assert ws[..0] == [];
    while i < |lines| && |lines[i]| < LINE_BUF_SIZE
      invariant i <= FirstLong(lines) == |ws|
      invariant labels.Valid() && labels.data.Length == MAX_LABELS && names.Valid()
      invariant labels.data == old(labels.data) && names.chars == old(names.chars)
      invariant FirstPass(ws[..i]) == Ok(LabelPass(writeAddr, labels.Contents(), names.Text()))
    {
      ReadsOn(lines, i);
      var out := FirstPassStep(ws, i, lines[i], labels, names, writeAddr);
      if out.Err? {
        FirstPassFails(ws, i + 1);
        return Err(out.error);
      }
      writeAddr := out.value;
      i := i + 1;
    }
    ReadsOn(lines, i);
    assert i == |ws|;
    TakeAll(ws);
    return Ok(writeAddr);
  }

  /** The argument loop of the second pass, reading words from `pos` into
      a three-slot argument array until the empty word. */
  method ReadLineArgs(s: seq<char>, pos: nat) returns (r: Result<seq<string>>)
    requires pos <= |s|
    ensures r == LineArgs(Head(Tokens(s, pos, false)), Tail(Tokens(s, pos, false)), [])
  {
    var args := new Array<string>(3);
    ghost var ts := Tokens(s, pos, false);
    GetWordReadsTokens(s, pos, false);
    var word: string, next: nat := GetWord(s, pos, false);
    while word != []
      invariant next <= |s| && args.Valid() && args.data.Length == 3 && fresh(args.data)
      invariant LineArgs(Head(ts), Tail(ts), []) == LineArgs(word, Tokens(s, next, false), args.Contents())
      decreases |Tokens(s, next, false)| + 3 - args.size
    {
      var ok := args.Push(word);
      if !ok {
        return Err(CapacityExceeded);
      }
      GetWordReadsTokens(s, next, false);
      word, next := GetWord(s, next, false);
    }
    return Ok(args.Contents());
  }

  /** The mnemonic branch of the second pass: the operands are read, the
      instruction is encoded, and its two bytes are written to the image. */
  method EncodeLine(s: seq<char>, pos: nat, op: string, labels: seq<Label>, addr: U32, rom: array<U8>) returns (r: Result<U32>)
    requires pos <= |s| && !CStrEq(op, "ORG") && LookupOp(op).Some? && rom.Length == ROM_SIZE
    modifies rom
    ensures var out := CodeLine([op] + Tokens(s, pos, false), addr, labels);
      && (r.Ok? <==> out.Ok?)
      && (r.Ok? ==> r.value == out.value.0 && out.value.1.Some? && rom[..] == Write(old(rom[..]), out.value.1.value))
      && (r.Err? ==> r.error == out.error)
  {
    ghost var ws := [op] + Tokens(s, pos, false);
    assert Head(ws) == op && Tail(ws) == Tokens(s, pos, false);
    var args := ReadLineArgs(s, pos);
    if args.Err? {
      return Err(args.error);
    }
    var instr := ParseInstruction(op, args.value, labels, addr);
    if instr.Err? {
      return Err(instr.error);
    }
    var p := Place(addr, instr.value);
    if p.Err? {
      return Err(p.error);
    }
    rom[addr] := (instr.value / 256) as U8;
    rom[addr + 1] := (instr.value % 256) as U8;
    return Ok(AddrPlus2(addr));
  }

  /** One line of the second pass: the new address, and the image with
      the line's instruction written over it. */
  method WriteLine(line: string, labels: seq<Label>, writeAddr: U32, rom: array<U8>) returns (r: Result<U32>)
    requires rom.Length == ROM_SIZE
    modifies rom
    ensures var out := CodeLine(Words(line), writeAddr, labels);
      && (r.Ok? <==> out.Ok?)
      && (r.Ok? ==> r.value == out.value.0)
      && (r.Ok? ==> rom[..] == if out.value.1.Some? then Write(old(rom[..]), out.value.1.value) else old(rom[..]))
      && (r.Err? ==> r.error == out.error)
  {
    var buf := PrepareLine(line);
    GetWordReadsTokens(buf[..], 0, false);
    CodeLineByHeadTail(Words(line), writeAddr, labels);
    var word, pos := GetWord(buf[..], 0, false);
    if CStrEq(word, "ORG") {
      r := ReadOrigin(buf[..], pos);
    } else if LookupOp(word).Some? {
      r := EncodeLine(buf[..], pos, word, labels, writeAddr, rom);
    } else {
      return Ok(writeAddr);
    }
  }

  /** One line of the second pass, on an image holding the writes so far. */
  method SecondPassLine(line: string, labels: seq<Label>, writeAddr: U32, rom: array<U8>, ghost writes: seq<Placement>)
    returns (r: Result<U32>, ghost after: seq<Placement>)
    requires rom.Length == ROM_SIZE && AllInRom(writes) && rom[..] == ImageOf(writes)
    modifies rom
    ensures var out := CodeStep(Words(line), CodePass(writeAddr, writes), labels);
      && (r.Ok? <==> out.Ok?)
      && (r.Ok? ==> out.value == CodePass(r.value, after) && AllInRom(after) && rom[..] == ImageOf(after))
      && (r.Err? ==> r.error == out.error)
  {
    r := WriteLine(line, labels, writeAddr, rom);
    after := writes;
    if r.Ok? {
      var c := CodeLine(Words(line), writeAddr, labels).value;
      if c.1.Some? {
        ImageOfNext(writes, c.1.value);
        after := writes + [c.1.value];
      }
    }
  }

  /** The second pass on one more line, in the terms of the pass over the
      words of the lines, on an image holding the writes so far. */
  method SecondPassStep(ghost ws: seq<seq<string>>, i: nat, line: string, labels: seq<Label>, writeAddr: U32,
                        rom: array<U8>, ghost writes: seq<Placement>)
    returns (r: Result<U32>, ghost after: seq<Placement>)
    requires i < |ws| && ws[i] == Words(line)
    requires SecondPass(ws[..i], labels) == Ok(CodePass(writeAddr, writes))
    requires rom.Length == ROM_SIZE && rom[..] == ImageOf(writes)
    modifies rom
    ensures r.Ok? ==> SecondPass(ws[..i + 1], labels) == Ok(CodePass(r.value, after)) && rom[..] == ImageOf(after)
    ensures r.Err? ==> SecondPass(ws[..i + 1], labels) == Err(r.error)
  {
    TakeOneMore(ws, i);
    SecondPassNext(ws[..i], ws[i], labels);
    r, after := SecondPassLine(line, labels, writeAddr, rom, writes);
  }

  /** The second pass loop, writing into the zeroed image. */
  method RunSecondPass(lines: seq<string>, labels: seq<Label>, rom: array<U8>) returns (err: Option<Error>)
    requires rom[..] == Zeros()
    modifies rom
    ensures var out := SecondPass(LineWords(Readable(lines)), labels);
      && (err.None? <==> out.Ok?)
      && (err.None? ==> rom[..] == ImageOf(out.value.writes))
      && (err.Some? ==> err.value == out.error)
  {
    ghost var ws := LineWords(Readable(lines));
    ReadableWords(lines);
    ghost var writes: seq<Placement> := [];
    var writeAddr: U32 := 0;
    var i := 0;
    assert ws[..0] == [];
    while i < |lines| && |lines[i]| < LINE_BUF_SIZE
      invariant i <= FirstLong(lines) == |ws| && rom.Length == ROM_SIZE
      invariant SecondPass(ws[..i], labels) == Ok(CodePass(writeAddr, writes))
      invariant rom[..] == ImageOf(writes)
    {
      ReadsOn(lines, i);
      var out;
      out, writes := SecondPassStep(ws, i, lines[i], labels, writeAddr, rom, writes);
      if out.Err? {
        SecondPassFails(ws, labels, i + 1);
        return Some(out.error);
      }
      writeAddr := out.value;
      i := i + 1;
    }
    ReadsOn(lines, i);
    TakeAll(ws);
    return None;
  }

  /** `main` without its file and console I/O: the first pass over the
      lines, the reset of the address, and the second pass into the zeroed
      `rom_data`. */
  method Assemble(lines: seq<string>) returns (r: Result<array<U8>>)
    ensures r.Ok? <==> Assembled(lines).Ok?
    ensures r.Ok? ==> r.value[..] == Assembled(lines).value
    ensures r.Err? ==> r.error == Assembled(lines).error
  {
    var labels := new Array<Label>(MAX_LABELS);
    var names := new NameBuffer();
    var first := RunFirstPass(lines, labels, names);
    if first.Err? {
      return Err(first.error);
    }
    var rom := new U8[ROM_SIZE](_ => 0);
    assert rom[..] == Zeros();
    var table := labels.Contents();
    var err := RunSecondPass(lines, table, rom);
    if err.Some? {
      return Err(err.value);
    }
    return Ok(rom);
  }
}
