/** The code table of Players/scripts/LOMHash.c is one the scheme is made for, so its index is perfect. */
module LomTable {
  import opened HuffTable
  import opened LomHash

  /** `HuffCodeLOM` */
  const CODES: seq<bv16> := [
    0x0001, 0x0000, 0x0002, 0x0009, 0x0006, 0x0005, 0x000d, 0x000b, 0x0003, 0x001b, 0x0007, 0x0017, 0x0037,
    0x000f, 0x004f, 0x006f, 0x002f, 0x00ef, 0x001f, 0x005f, 0x015f, 0x009f, 0x00df, 0x01df, 0x003f, 0x013f,
    0x00bf, 0x01bf, 0x007f, 0x017f, 0x00ff, 0x01ff
  ]

  /** The slots of the codes. */
  const SLOTS: seq<nat> := [
    1, 0, 2, 9, 6, 5, 13, 11, 3, 27, 7, 23, 22, 15, 13, 12, 14, 8, 31, 29, 21, 27, 25, 17, 30, 22, 26, 18, 28,
    20, 24, 16
  ]

  /** The first code in each slot, 32 for the three slots no code has. */
  const FIRSTS: seq<nat> := [
    1, 0, 2, 8, 32, 5, 4, 10, 17, 3, 32, 7, 15, 6, 16, 13, 31, 23, 27, 32, 29, 20, 12, 11, 30, 22, 26, 9, 28,
    19, 24, 18
  ]

  lemma SlotsAre(i: nat)
    requires i < 32
    ensures CODES[i] < LIMIT && Slot(CODES[i]) == SLOTS[i]
  {
    if i == 0 { assert Slot(0x0001) == 1; }
    else if i == 1 { assert Slot(0x0000) == 0; }
    else if i == 2 { assert Slot(0x0002) == 2; }
    else if i == 3 { assert Slot(0x0009) == 9; }
    else if i == 4 { assert Slot(0x0006) == 6; }
    else if i == 5 { assert Slot(0x0005) == 5; }
    else if i == 6 { assert Slot(0x000d) == 13; }
    else if i == 7 { assert Slot(0x000b) == 11; }
    else if i == 8 { assert Slot(0x0003) == 3; }
    else if i == 9 { assert Slot(0x001b) == 27; }
    else if i == 10 { assert Slot(0x0007) == 7; }
    else if i == 11 { assert Slot(0x0017) == 23; }
    else if i == 12 { assert Slot(0x0037) == 22; }
    else if i == 13 { assert Slot(0x000f) == 15; }
    else if i == 14 { assert Slot(0x004f) == 13; }
    else if i == 15 { assert Slot(0x006f) == 12; }
    else if i == 16 { assert Slot(0x002f) == 14; }
    else if i == 17 { assert Slot(0x00ef) == 8; }
    else if i == 18 { assert Slot(0x001f) == 31; }
    else if i == 19 { assert Slot(0x005f) == 29; }
    else if i == 20 { assert Slot(0x015f) == 21; }
    else if i == 21 { assert Slot(0x009f) == 27; }
    else if i == 22 { assert Slot(0x00df) == 25; }
    else if i == 23 { assert Slot(0x01df) == 17; }
    else if i == 24 { assert Slot(0x003f) == 30; }
    else if i == 25 { assert Slot(0x013f) == 22; }
    else if i == 26 { assert Slot(0x00bf) == 26; }
    else if i == 27 { assert Slot(0x01bf) == 18; }
    else if i == 28 { assert Slot(0x007f) == 28; }
    else if i == 29 { assert Slot(0x017f) == 20; }
    else if i == 30 { assert Slot(0x00ff) == 24; }
    else if i == 31 { assert Slot(0x01ff) == 16; }
  }

  /** The codes at 14, 21 and 25 find their slots taken; every other code is the first in its slot. */
  lemma FirstsAre(i: nat)
    requires i < 32
    ensures SLOTS[i] < 32 && FIRSTS[SLOTS[i]] == if i == 14 then 6 else if i == 21 then 9 else if i == 25 then 12 else i
    ensures SLOTS[i] !in {4, 10, 19}
  {
  }

  lemma SameSlot(i: nat, j: nat)
    requires i < j < 32 && SLOTS[i] == SLOTS[j]
    ensures (i, j) in {(6, 14), (9, 21), (12, 25)}
    ensures CODES[i] != CODES[j]
  {
    FirstsAre(i);
    FirstsAre(j);
  }

  /** The table meets the conditions of the scheme. */
  lemma TableBuildable()
    ensures Buildable(CODES)
  {
    forall i | 0 <= i < 32 ensures CODES[i] < LIMIT && Slot(CODES[i]) == SLOTS[i] { SlotsAre(i); }
    forall i, j | 0 <= i < j < 32 ensures CODES[i] != CODES[j] {
      if SLOTS[i] == SLOTS[j] { SameSlot(i, j); }
    }
    TablePlaceable(Describe(CODES));
  }

  lemma TablePlaceable(cs: seq<Coded>)
    requires |cs| == 32
    requires forall i :: 0 <= i < 32 ==>
               cs[i].slot == SLOTS[i] && cs[i].side == SideSlot(CODES[i]) && cs[i].alone != EMPTY
    ensures Placeable(cs, SIZE)
  {
    assert SideSlot(0x004f) == 4 && SideSlot(0x009f) == 10 && SideSlot(0x013f) == 19;
    assert cs[14].side == 4 && cs[21].side == 10 && cs[25].side == 19;
    forall j | 0 <= j < 32 && Second(cs, j) ensures j in {14, 21, 25} {
      var i :| 0 <= i < j && cs[i].slot == cs[j].slot;
      SameSlot(i, j);
    }
    forall i | 0 <= i < 32 ensures SLOTS[i] < 32 && SLOTS[i] !in {4, 10, 19} { FirstsAre(i); }
    forall j, k | 0 <= j < k < 32 && Second(cs, j) ensures cs[j].slot != cs[k].slot {
      if cs[j].slot == cs[k].slot { SameSlot(j, k); }
    }
  }

  /** The program prints no failure: each of its 32 codes is looked up as its own number. */
  method PrintedIndex() returns (table: array<bv16>)
    ensures FindsAll(CODES, table[..])
  {
    TableBuildable();
    table := BuildAndCheck(CODES);
  }
}
