/**
 * The driver of `assembler.cpp`: the whole input is upper-cased in place,
 * then one scan over its words (a newline being a word of its own) builds a
 * label table and a list of instructions, and an encode loop writes every
 * instruction's word into the ROM image.
 */
module BufferAssembler {
  import opened Bits
  import opened Errors
  import opened CStrings
  import opened Isa
  import opened Tokenizer
  import opened Operands
  import opened Encoder
  import opened Image
  import opened Containers

  const MAX_INSTR: nat := ROM_SIZE / 2
  const MAX_LABELS: nat := 512

  /** An instruction as the scan records it: its address, its mnemonic and
      up to three operand words. */
  datatype Instr = Instr(addr: U32, op: string, args: seq<string>)

  /** The variables of the scan loop: whether a comment is being skipped,
      the next address, and the two arrays it fills. */
  datatype ScanState = ScanState(inComment: bool, nextAddr: U32, labels: seq<Label>, instrs: seq<Instr>)

  const Start := ScanState(false, 0, [], [])

  /** The words that end an instruction's operand list. */
  predicate EndsArgs(word: string)
  {
    IsComment(word) || CStrEq(word, "\n")
  }

  /** The operand loop after a mnemonic: `word` is the word just read and
      `ts` the words after it. Words are pushed until one ends the list;
      that one is consumed too. A fourth push overflows the three-slot
      argument array. */
  function Gather(word: string, ts: seq<string>, args: seq<string>): (r: Result<(seq<string>, seq<string>)>)
    requires |args| <= 3
    ensures EndsArgs(word) ==> r == Ok((args, ts))
    ensures r.Ok? ==> |r.value.0| <= 3 && args <= r.value.0
    ensures r.Ok? ==> |r.value.1| <= |ts|
    ensures r.Err? ==> r.error == CapacityExceeded
    decreases |ts| + 3 - |args|
  {
    if EndsArgs(word) then Ok((args, ts))
    else if |args| == 3 then Err(CapacityExceeded)
    else Gather(Head(ts), Tail(ts), args + [word])
  }

  /** The operands gathered are the words read before the first one that
      ends the list: none of them ends it. */
  lemma {:induction false} GatheredWords(word: string, ts: seq<string>, args: seq<string>)
    requires |args| <= 3 && Gather(word, ts, args).Ok?
    ensures forall k :: |args| <= k < |Gather(word, ts, args).value.0| ==> !EndsArgs(Gather(word, ts, args).value.0[k])
    decreases |ts| + 3 - |args|
  {
    if !EndsArgs(word) {
      GatheredWords(Head(ts), Tail(ts), args + [word]);
    }
  }

  /** The operands are the words up to the first that ends the list, in
      order, and the words after that one are left; more than three of them
      overflow the argument array. */
  lemma {:induction false} GatherCollects(ws: seq<string>, args: seq<string>, n: nat)
    requires |args| <= 3 && n < |ws| && EndsArgs(ws[n])
    requires forall k :: 0 <= k < n ==> !EndsArgs(ws[k])
    ensures Gather(Head(ws), Tail(ws), args)
         == if |args| + n <= 3 then Ok((args + ws[..n], ws[n + 1..])) else Err(CapacityExceeded)
    decreases n
  {
    assert Head(ws) == ws[0] && Tail(ws) == ws[1..];
    if n == 0 {
      assert args + ws[..0] == args;
    } else if |args| < 3 {
      GatherCollects(ws[1..], args + [ws[0]], n - 1);
      assert args + [ws[0]] + ws[1..][..n - 1] == args + ws[..n];
      assert ws[1..][n..] == ws[n + 1..];
    }
  }

  /** Operands that no word ends overflow the argument array. */
  lemma {:induction false} GatherUnended(ws: seq<string>, args: seq<string>)
    requires |args| <= 3
    requires forall k :: 0 <= k < |ws| ==> !EndsArgs(ws[k])
    ensures Gather(Head(ws), Tail(ws), args) == Err(CapacityExceeded)
    decreases |ws|
  {
    if ws == [] {
      assert !EndsArgs("");
      GatherAtEnd("", args);
    } else if |args| < 3 {
      assert Head(ws) == ws[0] && Tail(ws) == ws[1..];
      GatherUnended(ws[1..], args + [ws[0]]);
    }
  }

  /** At the end of the buffer `get_word` keeps returning the empty word,
      which ends no list, so a mnemonic whose operands are not closed by a
      newline overflows the argument array. */
  lemma {:induction false} GatherAtEnd(word: string, args: seq<string>)
    requires |args| <= 3 && !EndsArgs(word)
    ensures Gather(word, [], args) == Err(CapacityExceeded)
    decreases 3 - |args|
  {
    if |args| < 3 {
      assert !EndsArgs("");
      GatherAtEnd("", args + [word]);
    }
  }

  /** The instructions recorded so far can be handed to `parse_instruction`,
      and the arrays stay within their capacities. */
  predicate Consistent(st: ScanState)
  {
    |st.labels| <= MAX_LABELS
    && |st.instrs| <= MAX_INSTR
    && forall k :: 0 <= k < |st.instrs| ==> LookupOp(st.instrs[k].op).Some? && |st.instrs[k].args| <= 3
  }

  /** A label declaration: refused when the name is taken or the label
      array is full; otherwise the label gets the current address. */
  function Declare(labels: seq<Label>, name: string, addr: U32): (r: Result<seq<Label>>)
    ensures r.Ok? <==> !Declared(labels, name) && |labels| < MAX_LABELS
    ensures r.Ok? ==> r.value == labels + [Label(name, addr)]
    ensures r.Err? ==> r.error == (if Declared(labels, name) then DuplicateLabel else CapacityExceeded)
  {
    if Declared(labels, name) then Err(DuplicateLabel)
    else if |labels| >= MAX_LABELS then Err(CapacityExceeded)
    else Ok(labels + [Label(name, addr)])
  }

  /** A mnemonic: its operands are gathered from the words that follow, it
      is recorded at the current address, and the address advances by two,
      wrapping at 32 bits. */
  function Record(op: string, rest: seq<string>, st: ScanState): (r: Result<(seq<string>, ScanState)>)
    requires LookupOp(op).Some?
    ensures Consistent(st) && r.Ok? ==> Consistent(r.value.1)
    ensures r.Ok? ==> |r.value.0| <= |rest|
    ensures r.Ok? ==> |r.value.1.instrs| == |st.instrs| + 1
    ensures r.Ok? <==> Gather(Head(rest), Tail(rest), []).Ok? && |st.instrs| < MAX_INSTR
    ensures r.Ok? ==> var g := Gather(Head(rest), Tail(rest), []).value;
      r.value == (g.1, st.(instrs := st.instrs + [Instr(st.nextAddr, op, g.0)], nextAddr := AddrPlus2(st.nextAddr)))
  {
    var g :- Gather(Head(rest), Tail(rest), []);
    if |st.instrs| >= MAX_INSTR then Err(CapacityExceeded)
    else
      var instr := Instr(st.nextAddr, op, g.0);
      Ok((g.1, st.(instrs := st.instrs + [instr], nextAddr := AddrPlus2(st.nextAddr))))
  }

  /** A word read outside a comment, with the words `rest` after it. */
  function Statement(word: string, rest: seq<string>, st: ScanState): (r: Result<(seq<string>, ScanState)>)
    ensures Consistent(st) && r.Ok? ==> Consistent(r.value.1)
    ensures r.Ok? ==> |r.value.0| <= |rest|
    ensures r.Ok? ==> |st.labels| <= |r.value.1.labels| && |st.instrs| <= |r.value.1.instrs|
    ensures r.Ok? ==> st.labels <= r.value.1.labels && st.instrs <= r.value.1.instrs
    ensures r.Ok? ==> r.value.1.inComment == st.inComment
    ensures r.Ok? && !CStrEq(word, "ORG") && IsLabel(word) ==>
      r.value == (rest, st.(labels := st.labels + [Label(word[..|word| - 1], st.nextAddr)]))
  {
    if CStrEq(word, "ORG") then
      var n :- ParseNum(Head(rest), 16, false);
      Ok((Tail(rest), st.(nextAddr := n.value)))
    else if IsLabel(word) then
      var labels :- Declare(st.labels, word[..|word| - 1], st.nextAddr);
      Ok((rest, st.(labels := labels)))
    else if LookupOp(word).Some? then Record(word, rest, st)
    else Ok((rest, st))
  }

  /** `ORG` moves only the address, to a value that fits 16 bits. */
  lemma OrgSetsAddress(word: string, rest: seq<string>, st: ScanState)
    requires CStrEq(word, "ORG") && Statement(word, rest, st).Ok?
    ensures Statement(word, rest, st).value.1 == st.(nextAddr := Statement(word, rest, st).value.1.nextAddr)
    ensures Statement(word, rest, st).value.1.nextAddr < 0x1_0000
  {
    assert Pow2(8) == 256;
    Pow2Add(8, 8);
  }

  /** `ORG` followed by a well-formed literal sets the address to that
      literal, when it fits 16 bits, and is out of range otherwise. */
  lemma OrgSetsLiteral(word: string, rest: seq<string>, st: ScanState)
    requires CStrEq(word, "ORG")
    requires !BadPrefix(Unsigned(Head(rest))) && AllDigits(DigitsOf(Unsigned(Head(rest))), BaseOf(Unsigned(Head(rest))))
    requires Magnitude(Head(rest)) < 0x8000_0000
    ensures Statement(word, rest, st).Ok? <==> -0x1_0000 <= LiteralValue(Head(rest)) < 0x1_0000
    ensures Statement(word, rest, st).Ok? ==>
      Statement(word, rest, st).value == (Tail(rest), st.(nextAddr := LiteralValue(Head(rest)) % 0x1_0000))
    ensures Statement(word, rest, st).Err? ==> Statement(word, rest, st).error == OperandOutOfRange
  {
    assert Pow2(8) == 256;
    Pow2Add(8, 8);
    ParseNumValue(Head(rest), 16, false);
  }

  /** One turn of the scan loop on the words `ts`: the remaining words and
      the new state. */
  function Step(ts: seq<string>, st: ScanState): (r: Result<(seq<string>, ScanState)>)
    requires ts != []
    ensures Consistent(st) && r.Ok? ==> Consistent(r.value.1)
    ensures r.Ok? ==> |r.value.0| < |ts|
    ensures r.Ok? ==> st.labels <= r.value.1.labels && st.instrs <= r.value.1.instrs
  {
    if st.inComment && CStrEq(ts[0], "\n") then Ok((ts[1..], st.(inComment := false)))
    else if IsComment(ts[0]) then Ok((ts[1..], st.(inComment := true)))
    else Statement(ts[0], ts[1..], st)
  }

  /** The scan loop of `main` over the remaining words `ts`. */
  function ScanFrom(ts: seq<string>, st: ScanState): (r: Result<ScanState>)
    ensures Consistent(st) && r.Ok? ==> Consistent(r.value)
    decreases |ts|
  {
    if ts == [] then Ok(st)
    else
      var n :- Step(ts, st);
      ScanFrom(n.0, n.1)
  }

  /** The operand loop only reads on: the words left after it are words
      that followed the mnemonic. */
  lemma {:induction false} GatherReadsOn(word: string, ts: seq<string>, args: seq<string>)
    requires |args| <= 3 && Gather(word, ts, args).Ok?
    ensures forall t :: t in Gather(word, ts, args).value.1 ==> t in ts
    decreases |ts| + 3 - |args|
  {
    if !EndsArgs(word) {
      GatherReadsOn(Head(ts), Tail(ts), args + [word]);
      assert forall t :: t in Tail(ts) ==> t in ts;
    }
  }

  /** A turn of the scan loop only reads on. */
  lemma StepReadsOn(ts: seq<string>, st: ScanState)
    requires ts != [] && Step(ts, st).Ok?
    ensures forall t :: t in Step(ts, st).value.0 ==> t in ts
  {
    var rest := ts[1..];
    assert forall t :: t in Tail(rest) ==> t in ts;
    var w := ts[0];
    if !(st.inComment && CStrEq(w, "\n")) && !IsComment(w) && !CStrEq(w, "ORG") && !IsLabel(w) && LookupOp(w).Some? {
      GatherReadsOn(Head(rest), Tail(rest), []);
    }
  }

  /** No word the cursor returns starts with `;`, so the scan never enters
      the comment state: comment text is read like any other words. */
  lemma {:induction false} CommentFlagStaysClear(ts: seq<string>, st: ScanState)
    requires !st.inComment && forall t :: t in ts ==> !IsComment(t)
    ensures ScanFrom(ts, st).Ok? ==> !ScanFrom(ts, st).value.inComment
    decreases |ts|
  {
    if ts != [] {
      var n := Step(ts, st);
      if n.Ok? {
        assert n == Statement(ts[0], ts[1..], st);
        StepReadsOn(ts, st);
        CommentFlagStaysClear(n.value.0, n.value.1);
      }
    }
  }

  /** A label is declared only under a name not yet taken, so the scan
      keeps the label names distinct. */
  lemma {:induction false} LabelNamesStayUnique(ts: seq<string>, st: ScanState)
    requires UniqueNames(st.labels)
    ensures ScanFrom(ts, st).Ok? ==> UniqueNames(ScanFrom(ts, st).value.labels)
    decreases |ts|
  {
    if ts != [] {
      var n := Step(ts, st);
      if n.Ok? {
        StepKeepsNamesUnique(ts, st);
        LabelNamesStayUnique(n.value.0, n.value.1);
      }
    }
  }

  lemma StepKeepsNamesUnique(ts: seq<string>, st: ScanState)
    requires ts != [] && UniqueNames(st.labels) && Step(ts, st).Ok?
    ensures UniqueNames(Step(ts, st).value.1.labels)
  {
    var w := ts[0];
    if !(st.inComment && CStrEq(w, "\n")) && !IsComment(w) && !CStrEq(w, "ORG") && IsLabel(w) {
      var name := w[..|w| - 1];
      var d := Declare(st.labels, name, st.nextAddr);
      assert Step(ts, st).value.1.labels == d.value == st.labels + [Label(name, st.nextAddr)];
      assert !Declared(st.labels, name);
    }
  }

  /** Addresses as they run when nothing sets them: instruction `k` sits
      at `2k`, the next one goes after the last, and each label holds the
      address of an instruction recorded after it or of the end. */
  predicate Sequential(st: ScanState)
  {
    st.nextAddr == 2 * |st.instrs|
    && (forall k :: 0 <= k < |st.instrs| ==> st.instrs[k].addr == 2 * k)
    && (forall j :: 0 <= j < |st.labels| ==> st.labels[j].addr % 2 == 0 && st.labels[j].addr <= st.nextAddr)
  }

  lemma StepKeepsSequential(ts: seq<string>, st: ScanState)
    requires ts != [] && !CStrEq(ts[0], "ORG") && Consistent(st) && Sequential(st) && Step(ts, st).Ok?
    ensures Sequential(Step(ts, st).value.1)
  {
    var w := ts[0];
    var rest := ts[1..];
    if !(st.inComment && CStrEq(w, "\n")) && !IsComment(w) && !IsLabel(w) && LookupOp(w).Some? {
      var g := Gather(Head(rest), Tail(rest), []).value;
      AddrPlus2Wraps(st.nextAddr);
    }
  }

  /** Without `ORG`, the scan places instructions at consecutive even
      addresses from where it starts, and labels at instruction
      addresses. */
  lemma {:induction false} AddressesWithoutOrg(ts: seq<string>, st: ScanState)
    requires Consistent(st) && Sequential(st) && forall t :: t in ts ==> !CStrEq(t, "ORG")
    ensures ScanFrom(ts, st).Ok? ==> Sequential(ScanFrom(ts, st).value)
    decreases |ts|
  {
    if ts != [] {
      var n := Step(ts, st);
      if n.Ok? {
        StepKeepsSequential(ts, st);
        StepReadsOn(ts, st);
        AddressesWithoutOrg(n.value.0, n.value.1);
      }
    }
  }

  /** The scan only appends to the two arrays. */
  lemma {:induction false} ScanGrows(ts: seq<string>, st: ScanState)
    requires ScanFrom(ts, st).Ok?
    ensures st.labels <= ScanFrom(ts, st).value.labels && st.instrs <= ScanFrom(ts, st).value.instrs
    decreases |ts|
  {
    if ts != [] {
      var n := Step(ts, st).value;
      ScanGrows(n.0, n.1);
    }
  }

  /** Without `ORG`, a label names the address of the first instruction
      recorded after it, or the end when none follows. */
  lemma LabelMarksNextInstruction(ts: seq<string>, st: ScanState)
    requires ts != [] && !st.inComment && IsLabel(ts[0]) && !IsComment(ts[0])
    requires Consistent(st) && Sequential(st) && forall t :: t in ts ==> !CStrEq(t, "ORG")
    requires ScanFrom(ts, st).Ok?
    ensures var r := ScanFrom(ts, st).value;
      |st.labels| < |r.labels| && r.labels[|st.labels|] == Label(ts[0][..|ts[0]| - 1], st.nextAddr)
      && (if |st.instrs| < |r.instrs| then r.instrs[|st.instrs|].addr == st.nextAddr else r.nextAddr == st.nextAddr)
  {
    assert ts[0] in ts;
    var step := Step(ts, st);
    assert step == Statement(ts[0], ts[1..], st);
    var st1 := step.value.1;
    assert st1 == st.(labels := st.labels + [Label(ts[0][..|ts[0]| - 1], st.nextAddr)]);
    ScanGrows(step.value.0, st1);
    AddressesWithoutOrg(ts, st);
    var r := ScanFrom(ts, st).value;
    assert r.labels[|st.labels|] == st1.labels[|st.labels|];
  }

  // ---------------------------------------------------------------------
  // The scan loop

  /** The duplicate check and `labels.push` of a label declaration. */
  method DeclareLabel(labels: Array<Label>, name: string, addr: U32) returns (err: Option<Error>)
    requires labels.Valid() && labels.data.Length == MAX_LABELS
    modifies labels, labels.data
    ensures labels.Valid() && labels.data == old(labels.data)
    ensures err.None? <==> Declare(old(labels.Contents()), name, addr).Ok?
    ensures err.None? ==> labels.Contents() == Declare(old(labels.Contents()), name, addr).value
    ensures err.Some? ==> err.value == Declare(old(labels.Contents()), name, addr).error
  {
    var i := 0;
    while i < labels.size
      invariant i <= labels.size
      invariant forall j :: 0 <= j < i ==> labels.Contents()[j].name != name
      modifies {}
    {
      var entry := labels.Get(i);
      if entry.name == name {
        return Some(DuplicateLabel);
      }
      i := i + 1;
    }
    var ok := labels.Push(Label(name, addr));
    if !ok {
      return Some(CapacityExceeded);
    }
    return None;
  }

  /** The operand loop after a mnemonic, reading words from `pos` into a
      three-slot argument array. */
  method ReadArgs(s: seq<char>, pos: nat) returns (r: Result<(seq<string>, nat)>)
    requires pos <= |s|
    ensures var g := Gather(Head(Tokens(s, pos, true)), Tail(Tokens(s, pos, true)), []);
      && (r.Ok? <==> g.Ok?)
      && (r.Ok? ==> r.value.1 <= |s| && r.value.0 == g.value.0 && Tokens(s, r.value.1, true) == g.value.1)
      && (r.Err? ==> r.error == g.error)
  {
    var args := new Array<string>(3);
    ghost var ts := Tokens(s, pos, true);
    GetWordReadsTokens(s, pos, true);
    var word: string, next: nat := GetWord(s, pos, true);
    while !EndsArgs(word)
      invariant next <= |s| && args.Valid() && args.data.Length == 3 && fresh(args.data)
      invariant Gather(Head(ts), Tail(ts), []) == Gather(word, Tokens(s, next, true), args.Contents())
      decreases |Tokens(s, next, true)| + 3 - args.size
    {
      var ok := args.Push(word);
      if !ok {
        return Err(CapacityExceeded);
      }
      GetWordReadsTokens(s, next, true);
      word, next := GetWord(s, next, true);
    }
    return Ok((args.Contents(), next));
  }

  /** A mnemonic: its operands are read and the instruction is pushed at
      the current address; the cursor after the operands is returned. */
  method RecordInstruction(s: seq<char>, word: string, next: nat, nextAddr: U32, instructions: Array<Instr>, ghost st: ScanState)
    returns (r: Result<nat>)
    requires next <= |s| && LookupOp(word).Some?
    requires instructions.Valid() && instructions.data.Length == MAX_INSTR
    requires st.nextAddr == nextAddr && st.instrs == instructions.Contents()
    modifies instructions, instructions.data
    ensures instructions.Valid() && instructions.data == old(instructions.data)
    ensures var rec := Record(word, Tokens(s, next, true), st);
      && (r.Ok? <==> rec.Ok?)
      && (r.Ok? ==> r.value <= |s| && Tokens(s, r.value, true) == rec.value.0)
      && (r.Ok? ==> rec.value.1 == st.(instrs := instructions.Contents(), nextAddr := AddrPlus2(nextAddr)))
      && (r.Err? ==> r.error == rec.error)
  {
    ghost var rest := Tokens(s, next, true);
    var a := ReadArgs(s, next);
    if a.Err? {
      return Err(a.error);
    }
    ghost var g := Gather(Head(rest), Tail(rest), []).value;
    var ok := instructions.Push(Instr(nextAddr, word, a.value.0));
    if !ok {
      return Err(CapacityExceeded);
    }
    ghost var instrs := st.instrs + [Instr(nextAddr, word, g.0)];
    assert instructions.Contents() == instrs;
    return Ok(a.value.1);
  }

  /** A word read outside a comment, the cursor `next` standing after it. */
  method Act(s: seq<char>, word: string, next: nat, inComment: bool, nextAddr: U32, labels: Array<Label>, instructions: Array<Instr>)
    returns (r: Result<(U32, nat)>)
    requires next <= |s|
    requires labels.Valid() && labels.data.Length == MAX_LABELS
    requires instructions.Valid() && instructions.data.Length == MAX_INSTR
    modifies labels, labels.data, instructions, instructions.data
    ensures labels.Valid() && labels.data == old(labels.data)
    ensures instructions.Valid() && instructions.data == old(instructions.data)
    ensures var step := Statement(word, Tokens(s, next, true), ScanState(inComment, nextAddr, old(labels.Contents()), old(instructions.Contents())));
      && (r.Ok? <==> step.Ok?)
      && (r.Ok? ==> r.value.1 <= |s| && Tokens(s, r.value.1, true) == step.value.0)
      && (r.Ok? ==> step.value.1 == ScanState(inComment, r.value.0, labels.Contents(), instructions.Contents()))
      && (r.Err? ==> r.error == step.error)
  {
    ghost var rest := Tokens(s, next, true);
    ghost var st := ScanState(inComment, nextAddr, labels.Contents(), instructions.Contents());
    if CStrEq(word, "ORG") {
      GetWordReadsTokens(s, next, true);
      var operand: string, after: nat := GetWord(s, next, true);
      var n := ParseNum(operand, 16, false);
      if n.Err? {
        return Err(n.error);
      }
      assert Statement(word, rest, st) == Ok((Tail(rest), st.(nextAddr := n.value.value)));
      assert st.(nextAddr := n.value.value) == ScanState(inComment, n.value.value, labels.Contents(), instructions.Contents());
      assert Tokens(s, after, true) == Tail(rest);
      return Ok((n.value.value, after));
    } else if IsLabel(word) {
      var err := DeclareLabel(labels, word[..|word| - 1], nextAddr);
      if err.Some? {
        return Err(err.value);
      }
      assert Statement(word, rest, st) == Ok((rest, st.(labels := labels.Contents())));
      assert instructions.Contents() == st.instrs;
      return Ok((nextAddr, next));
    } else if LookupOp(word).Some? {
      var a := RecordInstruction(s, word, next, nextAddr, instructions, st);
      if a.Err? {
        return Err(a.error);
      }
      return Ok((AddrPlus2(nextAddr), a.value));
    }
    assert Statement(word, rest, st) == Ok((rest, st));
    return Ok((nextAddr, next));
  }

  /** One turn of the scan loop: reads the next word at `pos` and acts on
      it, returning the new comment flag, address and cursor. */
  method Turn(s: seq<char>, pos: nat, inComment: bool, nextAddr: U32, labels: Array<Label>, instructions: Array<Instr>)
    returns (r: Result<(bool, U32, nat)>)
    requires pos <= |s| && At(s, pos) != '\0'
    requires labels.Valid() && labels.data.Length == MAX_LABELS
    requires instructions.Valid() && instructions.data.Length == MAX_INSTR
    modifies labels, labels.data, instructions, instructions.data
    ensures labels.Valid() && labels.data == old(labels.data)
    ensures instructions.Valid() && instructions.data == old(instructions.data)
    ensures var step := Step(Tokens(s, pos, true), ScanState(inComment, nextAddr, old(labels.Contents()), old(instructions.Contents())));
      && (r.Ok? <==> step.Ok?)
      && (r.Ok? ==> r.value.2 <= |s| && Tokens(s, r.value.2, true) == step.value.0)
      && (r.Ok? ==> step.value.1 == ScanState(r.value.0, r.value.1, labels.Contents(), instructions.Contents()))
      && (r.Err? ==> r.error == step.error)
  {
    ghost var ts := Tokens(s, pos, true);
    ghost var st := ScanState(inComment, nextAddr, labels.Contents(), instructions.Contents());
    GetWordReadsTokens(s, pos, true);
    var word: string, next: nat := GetWord(s, pos, true);
    assert ts != [] && ts[0] == word && ts[1..] == Tokens(s, next, true);
    if inComment && CStrEq(word, "\n") {
      assert Step(ts, st) == Ok((ts[1..], st.(inComment := false)));
      return Ok((false, nextAddr, next));
    } else if IsComment(word) {
      assert Step(ts, st) == Ok((ts[1..], st.(inComment := true)));
      return Ok((true, nextAddr, next));
    }
    assert Step(ts, st) == Statement(word, ts[1..], st);
    var a := Act(s, word, next, inComment, nextAddr, labels, instructions);
    if a.Err? {
      return Err(a.error);
    }
    return Ok((inComment, a.value.0, a.value.1));
  }

  /** The scan loop of `main` over the upper-cased buffer `s`: it reads
      words until the terminating NUL and fills the label and instruction
      arrays. */
  method Scan(s: seq<char>) returns (r: Result<ScanState>)
    ensures r == ScanFrom(Tokens(s, 0, true), Start)
  {
    var labels := new Array<Label>(MAX_LABELS);
    var instructions := new Array<Instr>(MAX_INSTR);
    var inComment := false;
    var nextAddr: U32 := 0;
    var pos: nat := 0;
    while At(s, pos) != '\0'
      invariant pos <= |s| && fresh(labels.data) && fresh(instructions.data)
      invariant labels.Valid() && labels.data.Length == MAX_LABELS
      invariant instructions.Valid() && instructions.data.Length == MAX_INSTR
      invariant ScanFrom(Tokens(s, 0, true), Start)
             == ScanFrom(Tokens(s, pos, true), ScanState(inComment, nextAddr, labels.Contents(), instructions.Contents()))
      decreases |Tokens(s, pos, true)|
    {
      var t := Turn(s, pos, inComment, nextAddr, labels, instructions);
      if t.Err? {
        return Err(t.error);
      }
      inComment, nextAddr, pos := t.value.0, t.value.1, t.value.2;
    }
    return Ok(ScanState(inComment, nextAddr, labels.Contents(), instructions.Contents()));
  }

  // ---------------------------------------------------------------------
  // The encode loop

  /** Every recorded instruction names a mnemonic and has at most three
      operands, as `parse_instruction` needs. */
  predicate Encodable(instrs: seq<Instr>)
  {
    forall k :: 0 <= k < |instrs| ==> LookupOp(instrs[k].op).Some? && |instrs[k].args| <= 3
  }

  /** One instruction encoded against the final label table and placed at
      its address. */
  function EncodeOne(instr: Instr, labels: seq<Label>): (r: Result<Placement>)
    requires LookupOp(instr.op).Some? && |instr.args| <= 3
    ensures r.Ok? <==> ParseInstruction(instr.op, instr.args, labels, instr.addr).Ok? && instr.addr + 1 < ROM_SIZE
    ensures r.Ok? ==> r.value == Placement(instr.addr, ParseInstruction(instr.op, instr.args, labels, instr.addr).value)
  {
    var w :- ParseInstruction(instr.op, instr.args, labels, instr.addr);
    Place(instr.addr, w)
  }

  /** What `parse_instruction` and the two writes make of each
      instruction. */
  function Encodings(instrs: seq<Instr>, labels: seq<Label>): (rs: seq<Result<Placement>>)
    requires Encodable(instrs)
    ensures |rs| == |instrs| && forall k :: 0 <= k < |instrs| ==> rs[k] == EncodeOne(instrs[k], labels)
  {
    seq(|instrs|, k requires 0 <= k < |instrs| => EncodeOne(instrs[k], labels))
  }

  /** The encode loop: the instructions in order, stopping at the first
      that fails. */
  function EncodeAll(instrs: seq<Instr>, labels: seq<Label>): (r: Result<seq<Placement>>)
    requires Encodable(instrs)
    ensures r.Ok? ==> |r.value| == |instrs| && AllInRom(r.value)
  {
    var rs := Encodings(instrs, labels);
    CollectOk(rs);
    Collect(rs)
  }

  /** The loop succeeds exactly when every instruction encodes and fits
      the ROM, and then places each instruction's own word at its own
      address; otherwise it reports the error of the first instruction
      that fails. */
  lemma EncodeAllOk(instrs: seq<Instr>, labels: seq<Label>)
    requires Encodable(instrs)
    ensures EncodeAll(instrs, labels).Ok? <==> forall k :: 0 <= k < |instrs| ==> EncodeOne(instrs[k], labels).Ok?
    ensures EncodeAll(instrs, labels).Ok? ==>
      forall k :: 0 <= k < |instrs| ==> EncodeOne(instrs[k], labels) == Ok(EncodeAll(instrs, labels).value[k])
    ensures EncodeAll(instrs, labels).Err? ==>
      exists k :: 0 <= k < |instrs| && EncodeOne(instrs[k], labels).Err?
        && EncodeAll(instrs, labels).error == EncodeOne(instrs[k], labels).error
        && forall j :: 0 <= j < k ==> EncodeOne(instrs[j], labels).Ok?
  {
    var rs := Encodings(instrs, labels);
    CollectOk(rs);
    if Collect(rs).Err? {
      CollectErr(rs);
    }
  }

  /** The image holds, big-endian at each instruction's address, the word
      `parse_instruction` gives it, unless a later instruction overwrites
      one of the two bytes; every byte no instruction writes stays zero. */
  lemma ImageHolds(instrs: seq<Instr>, labels: seq<Label>, k: nat)
    requires Encodable(instrs) && EncodeAll(instrs, labels).Ok? && k < |instrs|
    requires forall j :: k < j < |instrs| ==>
      instrs[j].addr != instrs[k].addr && instrs[j].addr != instrs[k].addr + 1 && instrs[j].addr + 1 != instrs[k].addr
    ensures ParseInstruction(instrs[k].op, instrs[k].args, labels, instrs[k].addr).Ok? && instrs[k].addr + 1 < ROM_SIZE
    ensures WordAt(ImageOf(EncodeAll(instrs, labels).value), instrs[k].addr)
         == ParseInstruction(instrs[k].op, instrs[k].args, labels, instrs[k].addr).value
  {
    var ps := EncodeAll(instrs, labels).value;
    EncodeAllOk(instrs, labels);
    assert EncodeOne(instrs[k], labels) == Ok(ps[k]);
    forall j | k < j < |ps|
      ensures !Touches(ps[j], ps[k].addr) && !Touches(ps[j], ps[k].addr + 1)
    {
      assert EncodeOne(instrs[j], labels) == Ok(ps[j]);
    }
    LastWriteWins(ps, k);
  }

  /** The encode loop of `main`: each instruction is encoded and its two
      bytes are written into the zeroed `rom_data`, high byte first. */
  method EncodeLoop(instrs: seq<Instr>, labels: seq<Label>) returns (r: Result<array<U8>>)
    requires Encodable(instrs)
    ensures r.Ok? <==> EncodeAll(instrs, labels).Ok?
    ensures r.Ok? ==> fresh(r.value) && r.value[..] == ImageOf(EncodeAll(instrs, labels).value)
    ensures r.Err? ==> r.error == EncodeAll(instrs, labels).error
  {
    var rom := new U8[ROM_SIZE](_ => 0);
    ghost var rs := Encodings(instrs, labels);
    assert rom[..] == Zeros();
    assert rs[..0] == [];
    var i := 0;
    while i < |instrs|
      invariant i <= |instrs| && rom.Length == ROM_SIZE
      invariant Collect(rs[..i]).Ok? && |Collect(rs[..i]).value| == i && AllInRom(Collect(rs[..i]).value)
      invariant rom[..] == ImageOf(Collect(rs[..i]).value)
    {
      var instr := instrs[i];
      CollectNext(rs, i);
      var word := ParseInstruction(instr.op, instr.args, labels, instr.addr);
      if word.Err? {
        CollectPrefixFails(rs, i + 1);
        return Err(word.error);
      }
      var p := Place(instr.addr, word.value);
      if p.Err? {
        CollectPrefixFails(rs, i + 1);
        return Err(p.error);
      }
      assert Collect(rs[..i + 1]).value[..i] == Collect(rs[..i]).value;
      rom[p.value.addr] := (p.value.word / 256) as U8;
      rom[p.value.addr + 1] := (p.value.word % 256) as U8;
      i := i + 1;
    }
    assert rs[..i] == rs;
    return Ok(rom);
  }

  // ---------------------------------------------------------------------
  // The whole program

  /** The input buffer as `read_entire_file` leaves it, NUL-terminated, and
      as `to_upper` rewrites it. */
  function Prepared(text: seq<char>): seq<char>
  {
    Upper(text + ['\0'])
  }

  /** The ROM image the program writes for an input text, or the error it
      stops with. */
  function Assembled(text: seq<char>): (r: Result<seq<U8>>)
    ensures r.Ok? ==> |r.value| == ROM_SIZE
  {
    var st :- ScanFrom(Tokens(Prepared(text), 0, true), Start);
    var ps :- EncodeAll(st.instrs, st.labels);
    Ok(ImageOf(ps))
  }

  /** `main` without its file and console I/O: the text is copied into a
      NUL-terminated buffer, upper-cased in place, scanned, and encoded
      into `rom_data`. */
  method Assemble(text: seq<char>) returns (r: Result<array<U8>>)
    ensures r.Ok? <==> Assembled(text).Ok?
    ensures r.Ok? ==> fresh(r.value) && r.value[..] == Assembled(text).value
    ensures r.Err? ==> r.error == Assembled(text).error
  {
    var buf := new char[|text| + 1](i requires 0 <= i <= |text| => if i < |text| then text[i] else '\0');
    assert buf[..] == text + ['\0'];
    ToUpper(buf);
    var st := Scan(buf[..]);
    if st.Err? {
      return Err(st.error);
    }
    r := EncodeLoop(st.value.instrs, st.value.labels);
  }

  // ---------------------------------------------------------------------
  // Consequences for whole inputs

  /** Over any input, a successful scan ends outside the comment state
      and with distinct label names. */
  lemma ScanOutcome(text: seq<char>)
    ensures var r := ScanFrom(Tokens(Prepared(text), 0, true), Start);
      r.Ok? ==> !r.value.inComment && UniqueNames(r.value.labels)
  {
    var ts := Tokens(Prepared(text), 0, true);
    TokensNeverComments(Prepared(text), 0, true);
    CommentFlagStaysClear(ts, Start);
    LabelNamesStayUnique(ts, Start);
  }

  /** The words after a `;` are read as statements: `NOP ; OUT R1` ending a
      line records a `NOP` whose operands are the comment's words. */
  lemma CommentTextIsRead()
    ensures ScanFrom(["NOP", "OUT", "R1", "\n"], Start) == Ok(ScanState(false, 2, [], [Instr(0, "NOP", ["OUT", "R1"])]))
  {
    assert CStrEq("\n", "\n");
    assert !CStrEq("OUT", "\n") && !CStrEq("R1", "\n") && !CStrEq("NOP", "\n") && !CStrEq("NOP", "ORG");
    assert LookupOp("NOP") == Some(0);
    assert Gather("\n", [], ["OUT", "R1"]) == Ok((["OUT", "R1"], []));
    assert Head(["\n"]) == "\n" && Tail(["\n"]) == [] && ["OUT"] + ["R1"] == ["OUT", "R1"];
    assert Gather("R1", ["\n"], ["OUT"]) == Ok((["OUT", "R1"], []));
    assert Head(["R1", "\n"]) == "R1" && Tail(["R1", "\n"]) == ["\n"] && [] + ["OUT"] == ["OUT"];
    assert Gather("OUT", ["R1", "\n"], []) == Ok((["OUT", "R1"], []));
    var st := ScanState(false, 2, [], [Instr(0, "NOP", ["OUT", "R1"])]);
    assert Head(["OUT", "R1", "\n"]) == "OUT" && Tail(["OUT", "R1", "\n"]) == ["R1", "\n"];
    assert AddrPlus2(0) == 2 && [] + [Instr(0, "NOP", ["OUT", "R1"])] == [Instr(0, "NOP", ["OUT", "R1"])];
    assert !IsComment("NOP") && !IsLabel("NOP") && ["NOP", "OUT", "R1", "\n"][1..] == ["OUT", "R1", "\n"];
    assert Statement("NOP", ["OUT", "R1", "\n"], Start) == Ok(([], st));
    assert Step(["NOP", "OUT", "R1", "\n"], Start) == Ok(([], st));
    assert ScanFrom([], st) == Ok(st);
  }

  /** What that scan leads to: `NOP` takes no operands, so the encode loop
      stops with an arity error and no image is written. */
  lemma CommentTextFailsToEncode()
    ensures EncodeAll([Instr(0, "NOP", ["OUT", "R1"])], []) == Err(ArityMismatch)
  {
    var instr := Instr(0, "NOP", ["OUT", "R1"]);
    assert LookupOp("NOP") == Some(0);
    assert OpOf("NOP") == OpData("NOP", 0, A0, false);
    assert EncodeOne(instr, []) == Err(ArityMismatch);
    var rs := Encodings([instr], []);
    assert rs == [Err(ArityMismatch)];
    assert rs[..0] == [];
  }
}
