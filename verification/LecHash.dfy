/** Players/scripts/LECHash.c: the index of the codes for literals, end of block and copy offsets. */
module LecHash {
  import opened Wrappers
  import opened HuffTable

  const SIZE: nat := 512

  /** The number 511 in an unshared slot would look like an empty slot. */
  const MAX_CODES: nat := 511

  /** Codes have at most 13 bits. */
  const LIMIT: bv16 := 0x2000

  const TAB: seq<nat> := [511, 0, 508, 448, 494, 347, 486, 482]

  function Hash(key: bv16): bv16 {
    (key & 0x1ff) ^ (key >> 9) ^ (key >> 4) ^ (key >> 7)
  }

  function MiniHash(key: bv16): nat {
    var h: bv16 := (((key >> 8) ^ (key & 0xff)) >> 2) & 0xf;
    ((if key >> 9 != 0 then !h else h) as nat) % 12
  }

  function Slot(key: bv16): (r: nat)
    requires key < LIMIT
    ensures r < SIZE
  {
    assert Hash(key) < 512;
    Hash(key) as nat
  }

  /** The slot for a code whose own slot is taken; beyond the table when the second hash points outside `TAB`. */
  function SideSlot(key: bv16): nat {
    if MiniHash(key) < |TAB| then TAB[MiniHash(key)] else SIZE
  }

  function Word(i: nat): (w: bv16)
    requires i < MAX_CODES
    ensures w < 511
  {
    i as bv16
  }

  function Alone(number: bv16): bv16 { number ^ 0xfe00 }

  function TagBits(second: bv16): bv16 { (second & 0xfe00) ^ 0xfe00 }

  function Describe(codes: seq<bv16>): (cs: seq<Coded>)
    requires |codes| <= MAX_CODES && forall i :: 0 <= i < |codes| ==> codes[i] < LIMIT
    ensures |cs| == |codes|
  {
    seq(|codes|, i requires 0 <= i < |codes| =>
      Coded(Slot(codes[i]), SideSlot(codes[i]), Word(i), Alone(Word(i)), TagBits(codes[i])))
  }

  /** The code tables the scheme is made for: distinct codes, at most two in a slot, and for each second code a side
      slot of its own that is no code's slot. */
  ghost predicate Buildable(codes: seq<bv16>) {
    && |codes| <= MAX_CODES
    && (forall i :: 0 <= i < |codes| ==> codes[i] < LIMIT)
    && (forall i, j :: 0 <= i < j < |codes| ==> codes[i] != codes[j])
    && Placeable(Describe(codes), SIZE)
  }

  /** `buildhashtable`, on a table that starts out empty. */
  method BuildHashTable(codes: seq<bv16>) returns (table: array<bv16>)
    requires Buildable(codes)
    ensures fresh(table) && table.Length == SIZE
    ensures Indexed(Describe(codes), |codes|, table[..])
  {
    table := new bv16[SIZE](_ => EMPTY);
    for i := 0 to |codes|
      invariant Indexed(Describe(codes), i, table[..])
    {
      if table[Slot(codes[i])] != EMPTY {
        PutSecond(table, codes, i);
      } else {
        PutFirst(table, codes, i);
      }
    }
  }

  method PutFirst(table: array<bv16>, codes: seq<bv16>, i: nat)
    requires Buildable(codes) && i < |codes| && table.Length == SIZE
    requires Indexed(Describe(codes), i, table[..]) && table[Slot(codes[i])] == EMPTY
    modifies table
    ensures Indexed(Describe(codes), i + 1, table[..])
  {
    var h := Slot(codes[i]);
    table[h] := Word(i);
    table[h] := table[h] ^ 0xfe00;
    ghost var cs, before := Describe(codes), old(table[..]);
    assert table[..] == before[cs[i].slot := cs[i].alone];
    Free(cs, i, before);
    AddFirst(cs, i, before, table[..]);
  }

  method StoreSecond(table: array<bv16>, code: bv16, i: nat)
    requires table.Length == SIZE && code < LIMIT && i < MAX_CODES && SideSlot(code) < SIZE
    modifies table
    ensures table[..] == old(table[..])[Slot(code) := old(table[Slot(code)]) ^ TagBits(code)][SideSlot(code) := Word(i)]
  {
    var h := Slot(code);
    table[h] := table[h] ^ ((code & 0xfe00) ^ 0xfe00);
    table[TAB[MiniHash(code)]] := Word(i);
  }

  method PutSecond(table: array<bv16>, codes: seq<bv16>, i: nat)
    requires Buildable(codes) && i < |codes| && table.Length == SIZE
    requires Indexed(Describe(codes), i, table[..]) && table[Slot(codes[i])] != EMPTY
    modifies table
    ensures Indexed(Describe(codes), i + 1, table[..])
  {
    ghost var cs, before := Describe(codes), table[..];
    Taken(cs, i, before);
    assert cs[i].side == SideSlot(codes[i]) < SIZE;
    StoreSecond(table, codes[i], i);
    assert table[..] == before[cs[i].slot := before[cs[i].slot] ^ cs[i].tagBits][cs[i].side := cs[i].number];
    AddSecond(cs, i, before, table[..]);
  }

  /** The number in the word of a code's slot, or else what its side slot holds. */
  function Read(h: bv16, side: Option<bv16>, huff: bv16): Option<bv16> {
    if (h ^ huff) >> 9 != 0 then Some(h & 0x1ff) else side
  }

  /** `getvalue`; no result when the second hash points outside `TAB`, where C reads past the end of the array. */
  function GetValue(table: seq<bv16>, huff: bv16): Option<bv16>
    requires |table| == SIZE && huff < LIMIT
  {
    Read(table[Slot(huff)], if SideSlot(huff) < SIZE then Some(table[SideSlot(huff)]) else None, huff)
  }

  // ----- bits -----

  lemma SameNumber(a: bv16, b: bv16)
    requires a as nat == b as nat
    ensures a == b
  {
    assert (a as nat) as bv16 == a;
    assert (b as nat) as bv16 == b;
  }

  /** The hash together with the high bits determines a code. */
  lemma HashInjective(a: bv16, b: bv16)
    requires a < LIMIT && b < LIMIT && Hash(a) == Hash(b) && a >> 9 == b >> 9
    ensures a == b
  {
  }

  lemma HighBitsDiffer(a: bv16, b: bv16)
    requires a < LIMIT && b < LIMIT && a != b && Slot(a) == Slot(b)
    ensures a >> 9 != b >> 9
  {
    SameNumber(Hash(a), Hash(b));
    if a >> 9 == b >> 9 { HashInjective(a, b); }
  }

  /** An unshared word is read as its number, whatever code is looked up. */
  lemma AloneReads(number: bv16, key: bv16, side: Option<bv16>)
    requires number < 511 && key < LIMIT
    ensures Alone(number) != EMPTY
    ensures Read(Alone(number), side, key) == Some(number)
  {
  }

  /** A shared word sends the second code to its side slot, and codes with other high bits to the first number. */
  lemma SharedReads(number: bv16, first: bv16, second: bv16, side: Option<bv16>)
    requires number < 511 && first < LIMIT && second < LIMIT
    ensures Read(Alone(number) ^ TagBits(second), side, second) == side
    ensures first >> 9 != second >> 9 ==> Read(Alone(number) ^ TagBits(second), side, first) == Some(number)
  {
  }

  lemma FoundAlone(table: seq<bv16>, code: bv16, number: bv16)
    requires |table| == SIZE && code < LIMIT && number < 511 && table[Slot(code)] == Alone(number)
    ensures GetValue(table, code) == Some(number)
  {
    hide Alone, Read, Slot, MiniHash;
    AloneReads(number, code, if SideSlot(code) < SIZE then Some(table[SideSlot(code)]) else None);
  }

  lemma FoundFirst(table: seq<bv16>, code: bv16, second: bv16, number: bv16)
    requires |table| == SIZE && code < LIMIT && second < LIMIT && number < 511 && code != second
    requires Slot(code) == Slot(second) && table[Slot(code)] == Alone(number) ^ TagBits(second)
    ensures GetValue(table, code) == Some(number)
  {
    hide Alone, TagBits, Read, Slot, MiniHash;
    HighBitsDiffer(code, second);
    SharedReads(number, code, second, if SideSlot(code) < SIZE then Some(table[SideSlot(code)]) else None);
  }

  lemma FoundSecond(table: seq<bv16>, first: bv16, code: bv16, number: bv16)
    requires |table| == SIZE && first < LIMIT && code < LIMIT && number < 511 && SideSlot(code) < SIZE
    requires table[Slot(code)] == Alone(number) ^ TagBits(code)
    ensures GetValue(table, code) == Some(table[SideSlot(code)])
  {
    hide Alone, TagBits, Read, Slot, MiniHash;
    SharedReads(number, first, code, Some(table[SideSlot(code)]));
  }

  // The three ways a code stands in a finished table.

  ghost predicate StandsAlone(codes: seq<bv16>, table: seq<bv16>, i: nat)
    requires Buildable(codes) && |table| == SIZE && i < |codes|
  {
    table[Slot(codes[i])] == Alone(Word(i))
  }

  ghost predicate StandsFirst(codes: seq<bv16>, table: seq<bv16>, i: nat)
    requires Buildable(codes) && |table| == SIZE && i < |codes|
  {
    exists k :: i < k < |codes| && Slot(codes[k]) == Slot(codes[i])
                && table[Slot(codes[i])] == Alone(Word(i)) ^ TagBits(codes[k])
  }

  ghost predicate StandsSecond(codes: seq<bv16>, table: seq<bv16>, i: nat)
    requires Buildable(codes) && |table| == SIZE && i < |codes|
  {
    && SideSlot(codes[i]) < SIZE && table[SideSlot(codes[i])] == Word(i)
    && exists k :: 0 <= k < i && table[Slot(codes[i])] == Alone(Word(k)) ^ TagBits(codes[i])
  }

  lemma Stands(codes: seq<bv16>, table: seq<bv16>, i: nat)
    requires Buildable(codes) && |table| == SIZE && Indexed(Describe(codes), |codes|, table) && i < |codes|
    ensures StandsAlone(codes, table, i) || StandsFirst(codes, table, i) || StandsSecond(codes, table, i)
  {
    hide Slot, SideSlot, Word, Alone, TagBits, Placeable, Indexed;
    Lookup(Describe(codes), table, i);
  }

  /** The table is a perfect index: looking up any of its codes gives the number of that code. */
  lemma PerfectIndex(codes: seq<bv16>, table: seq<bv16>, i: nat)
    requires Buildable(codes) && |table| == SIZE && Indexed(Describe(codes), |codes|, table) && i < |codes|
    ensures GetValue(table, codes[i]) == Some(Word(i))
  {
    hide Slot, SideSlot, Word, Alone, TagBits, GetValue, Placeable, Indexed;
    Stands(codes, table, i);
    if StandsAlone(codes, table, i) {
      FoundAlone(table, codes[i], Word(i));
    } else if StandsFirst(codes, table, i) {
      var k :| i < k < |codes| && Slot(codes[k]) == Slot(codes[i])
        && table[Slot(codes[i])] == Alone(Word(i)) ^ TagBits(codes[k]);
      FoundFirst(table, codes[i], codes[k], Word(i));
    } else {
      var k :| 0 <= k < i && table[Slot(codes[i])] == Alone(Word(k)) ^ TagBits(codes[i]);
      FoundSecond(table, codes[k], codes[i], Word(k));
    }
  }

  /** Every code is found in the finished table. */
  ghost predicate FindsAll(codes: seq<bv16>, table: seq<bv16>) {
    && |table| == SIZE && |codes| <= MAX_CODES
    && forall i :: 0 <= i < |codes| ==> codes[i] < LIMIT && GetValue(table, codes[i]) == Some(Word(i))
  }

  lemma BuiltFindsAll(codes: seq<bv16>, table: seq<bv16>)
    requires Buildable(codes) && |table| == SIZE && Indexed(Describe(codes), |codes|, table)
    ensures FindsAll(codes, table)
  {
    forall i | 0 <= i < |codes| ensures GetValue(table, codes[i]) == Some(Word(i)) {
      PerfectIndex(codes, table, i);
    }
  }

  /** What `main` checks: after building the table, each code is looked up as its own number. */
  method BuildAndCheck(codes: seq<bv16>) returns (table: array<bv16>)
    requires Buildable(codes)
    ensures FindsAll(codes, table[..])
  {
    table := BuildHashTable(codes);
    BuiltFindsAll(codes, table[..]);
  }
}
