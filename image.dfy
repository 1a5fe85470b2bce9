/**
 * The ROM image: `rom_data`, a zero-initialised byte array of ROM_SIZE
 * bytes, into which every encoded instruction is written big-endian, its
 * high byte at the instruction's address and its low byte right after it.
 */
module Image {
  import opened Bits
  import opened Errors

  const ROM_SIZE: nat := 1024

  /** One encoded word and the address it is written to. */
  datatype Placement = Placement(addr: nat, word: U16)

  predicate InRom(p: Placement)
  {
    p.addr + 1 < ROM_SIZE
  }

  /** The two writes `rom_data[addr] = (instr >> 8) & 0xFF` and
      `rom_data[addr + 1] = instr & 0xFF`, refused when they would land
      outside the array. */
  function Place(addr: U32, word: U16): (r: Result<Placement>)
    ensures r.Ok? <==> addr + 1 < ROM_SIZE
    ensures r.Ok? ==> r.value == Placement(addr, word) && InRom(r.value)
    ensures r.Err? ==> r.error == AddressOutOfRange
  {
    if addr + 1 < ROM_SIZE then Ok(Placement(addr, word)) else Err(AddressOutOfRange)
  }

  function Zeros(): (rom: seq<U8>)
    ensures |rom| == ROM_SIZE && forall i :: 0 <= i < ROM_SIZE ==> rom[i] == 0
  {
    seq(ROM_SIZE, _ => 0)
  }

  /** The big-endian word stored at byte `a` of an image. */
  function WordAt(rom: seq<U8>, a: nat): int
    requires a + 1 < |rom|
  {
    (rom[a] as int) * 256 + rom[a + 1] as int
  }

  /** One placement written over a byte image. */
  function Write(rom: seq<U8>, p: Placement): (r: seq<U8>)
    requires |rom| == ROM_SIZE && InRom(p)
    ensures |r| == ROM_SIZE
    ensures WordAt(r, p.addr) == p.word
    ensures forall i :: 0 <= i < ROM_SIZE && i != p.addr && i != p.addr + 1 ==> r[i] == rom[i]
  {
    rom[p.addr := p.word / 256][p.addr + 1 := p.word % 256]
  }

  predicate AllInRom(ps: seq<Placement>)
  {
    forall k :: 0 <= k < |ps| ==> InRom(ps[k])
  }

  /** The zeroed image with the placements written in order. */
  function ImageOf(ps: seq<Placement>): (rom: seq<U8>)
    requires AllInRom(ps)
    ensures |rom| == ROM_SIZE
  {
    if ps == [] then Zeros()
    else Write(ImageOf(ps[..|ps| - 1]), ps[|ps| - 1])
  }

  /** One more placement is written over the image of the ones before. */
  lemma ImageOfNext(ps: seq<Placement>, p: Placement)
    requires AllInRom(ps) && InRom(p)
    ensures AllInRom(ps + [p]) && ImageOf(ps + [p]) == Write(ImageOf(ps), p)
  {
    assert (ps + [p])[..|ps|] == ps;
  }

  /** Byte `i` is one of the two bytes placement `p` writes. */
  predicate Touches(p: Placement, i: nat)
  {
    i == p.addr || i == p.addr + 1
  }

  /** A byte no placement writes stays zero. */
  lemma {:induction false} Untouched(ps: seq<Placement>, i: nat)
    requires AllInRom(ps) && i < ROM_SIZE
    requires forall k :: 0 <= k < |ps| ==> !Touches(ps[k], i)
    ensures ImageOf(ps)[i] == 0
  {
    if ps != [] {
      Untouched(ps[..|ps| - 1], i);
    }
  }

  /** Writes after the last one touching byte `i` leave it alone, so the
      byte holds what that last write put there. */
  lemma {:induction false} LaterWritesKeep(ps: seq<Placement>, k: nat, i: nat)
    requires AllInRom(ps) && k < |ps| && i < ROM_SIZE
    requires forall j :: k < j < |ps| ==> !Touches(ps[j], i)
    ensures ImageOf(ps)[i] == ImageOf(ps[..k + 1])[i]
    decreases |ps|
  {
    if k + 1 < |ps| {
      var init := ps[..|ps| - 1];
      assert init[..k + 1] == ps[..k + 1];
      LaterWritesKeep(init, k, i);
    } else {
      assert ps[..k + 1] == ps;
    }
  }

  /** The word at an address reads back, high byte first, as the last
      placement there, when no later placement overlaps it. */
  lemma LastWriteWins(ps: seq<Placement>, k: nat)
    requires AllInRom(ps) && k < |ps|
    requires forall j :: k < j < |ps| ==> !Touches(ps[j], ps[k].addr) && !Touches(ps[j], ps[k].addr + 1)
    ensures WordAt(ImageOf(ps), ps[k].addr) == ps[k].word
  {
    var a := ps[k].addr;
    LaterWritesKeep(ps, k, a);
    LaterWritesKeep(ps, k, a + 1);
    assert ps[..k + 1][..k] == ps[..k];
  }
}
