/** The packed index tables of Players/scripts/LECHash.c and Players/scripts/LOMHash.c, which turn a Huffman code of
    the RDP bulk compressor into its number. A slot holds the number of a code in its low bits. Its high bits are all
    ones, or, when a second code has the same hash, the high bits of that second code, whose number then stands in a
    side slot that a second, smaller hash selects. This module follows the slots; the modules of the two schemes add
    hashes and bits. */
module HuffTable {
  const EMPTY: bv16 := 0xffff

  /** All that the table uses of a code: its slot, the slot for a code that finds its own one taken, its number, and the
      words it stores. */
  datatype Coded = Coded(slot: nat, side: nat, number: bv16, alone: bv16, tagBits: bv16)

  /** The `j`-th code finds its slot taken by an earlier one. */
  ghost predicate Second(cs: seq<Coded>, j: nat)
    requires j < |cs|
  {
    exists i :: 0 <= i < j && cs[i].slot == cs[j].slot
  }

  /** At most two codes in a slot, and each second code with a side slot of its own that is no code's slot. */
  ghost predicate Placeable(cs: seq<Coded>, size: nat) {
    && (forall i :: 0 <= i < |cs| ==> cs[i].slot < size && cs[i].alone != EMPTY)
    && (forall j, k :: 0 <= j < k < |cs| && Second(cs, j) ==> cs[j].slot != cs[k].slot)
    && (forall j :: 0 <= j < |cs| && Second(cs, j) ==> cs[j].side < size)
    && (forall i, j :: 0 <= i < |cs| && 0 <= j < |cs| && Second(cs, j) ==> cs[j].side != cs[i].slot)
    && (forall j, k :: 0 <= k < j < |cs| && Second(cs, k) && Second(cs, j) ==> cs[j].side != cs[k].side)
  }

  /** What the table holds once the first `n` codes are in it. */
  ghost predicate Indexed(cs: seq<Coded>, n: nat, table: seq<bv16>)
    requires Placeable(cs, |table|) && n <= |cs|
  {
    && EmptyElsewhere(cs, n, table)
    && FirstsStored(cs, n, table)
    && SecondsStored(cs, n, table)
  }

  ghost predicate EmptyElsewhere(cs: seq<Coded>, n: nat, table: seq<bv16>)
    requires n <= |cs|
  {
    forall p :: 0 <= p < |table| && Unused(cs, n, p) ==> table[p] == EMPTY
  }

  ghost predicate FirstsStored(cs: seq<Coded>, n: nat, table: seq<bv16>)
    requires Placeable(cs, |table|) && n <= |cs|
  {
    forall i :: 0 <= i < n && !Second(cs, i) ==> FirstEntry(cs, n, table, i)
  }

  ghost predicate SecondsStored(cs: seq<Coded>, n: nat, table: seq<bv16>)
    requires Placeable(cs, |table|) && n <= |cs|
  {
    forall j :: 0 <= j < n && Second(cs, j) ==> table[cs[j].side] == cs[j].number
  }

  ghost predicate Unused(cs: seq<Coded>, n: nat, p: nat)
    requires n <= |cs|
  {
    forall i :: 0 <= i < n ==> cs[i].slot != p && (Second(cs, i) ==> cs[i].side != p)
  }

  /** The slot of the first code of a bucket. */
  ghost predicate FirstEntry(cs: seq<Coded>, n: nat, table: seq<bv16>, i: nat)
    requires Placeable(cs, |table|) && i < n <= |cs|
  {
    && ((forall j :: i < j < n ==> cs[j].slot != cs[i].slot) ==> table[cs[i].slot] == cs[i].alone)
    && (forall j :: i < j < n && cs[j].slot == cs[i].slot ==> table[cs[i].slot] == cs[i].alone ^ cs[j].tagBits)
  }

  // ----- one step -----

  /** A slot that is not empty is taken by an earlier code. */
  lemma Taken(cs: seq<Coded>, i: nat, table: seq<bv16>)
    requires Placeable(cs, |table|) && i < |cs| && Indexed(cs, i, table) && table[cs[i].slot] != EMPTY
    ensures Second(cs, i)
  {
    if !Second(cs, i) {
      assert Unused(cs, i, cs[i].slot);
    }
  }

  lemma Free(cs: seq<Coded>, i: nat, table: seq<bv16>)
    requires Placeable(cs, |table|) && i < |cs| && Indexed(cs, i, table) && table[cs[i].slot] == EMPTY
    ensures !Second(cs, i)
  {
    forall k | 0 <= k < i
      ensures cs[k].slot != cs[i].slot
    {
      if cs[k].slot == cs[i].slot { TakenIsFull(cs, i, table, k); }
    }
  }

  lemma TakenIsFull(cs: seq<Coded>, i: nat, table: seq<bv16>, k: nat)
    requires Placeable(cs, |table|) && k < i < |cs| && Indexed(cs, i, table) && cs[k].slot == cs[i].slot
    ensures table[cs[i].slot] == cs[k].alone != EMPTY
  {
    FirstOfBucket(cs, |table|, i, k);
    assert FirstEntry(cs, i, table, k);
  }

  /** The code before the `i`-th in its slot is the first there, and there are no others. */
  lemma FirstOfBucket(cs: seq<Coded>, size: nat, i: nat, k: nat)
    requires Placeable(cs, size) && k < i < |cs| && cs[k].slot == cs[i].slot
    ensures !Second(cs, k) && Second(cs, i)
    ensures forall j :: 0 <= j < |cs| && cs[j].slot == cs[k].slot ==> j == k || j == i
  {
    forall j | 0 <= j < |cs| && cs[j].slot == cs[k].slot
      ensures j == k || j == i
    {
      if k < j {
        assert Second(cs, j);
      }
    }
  }

  lemma StillEmpty(cs: seq<Coded>, i: nat, before: seq<bv16>, table: seq<bv16>)
    requires i < |cs| && EmptyElsewhere(cs, i, before) && |table| == |before|
    requires forall q :: 0 <= q < |table| && q != cs[i].slot && (Second(cs, i) ==> q != cs[i].side) ==>
               table[q] == before[q]
    ensures EmptyElsewhere(cs, i + 1, table)
  {
    forall q | 0 <= q < |table| && Unused(cs, i + 1, q)
      ensures table[q] == EMPTY
    {
      assert Unused(cs, i, q);
    }
  }

  lemma AddFirst(cs: seq<Coded>, i: nat, before: seq<bv16>, table: seq<bv16>)
    requires Placeable(cs, |before|) && i < |cs| && Indexed(cs, i, before) && !Second(cs, i)
    requires table == before[cs[i].slot := cs[i].alone]
    ensures Indexed(cs, i + 1, table)
  {
    StillEmpty(cs, i, before, table);
    FirstsWithNew(cs, i, before, table);
    SecondsKept(cs, i, before, table);
  }

  lemma SecondsKept(cs: seq<Coded>, i: nat, before: seq<bv16>, table: seq<bv16>)
    requires Placeable(cs, |before|) && i < |cs| && SecondsStored(cs, i, before) && !Second(cs, i)
    requires table == before[cs[i].slot := cs[i].alone]
    ensures SecondsStored(cs, i + 1, table)
  {
    forall j | 0 <= j < i + 1 && Second(cs, j)
      ensures table[cs[j].side] == cs[j].number
    {
      assert j < i && cs[j].side != cs[i].slot;
    }
  }

  lemma FirstsWithNew(cs: seq<Coded>, i: nat, before: seq<bv16>, table: seq<bv16>)
    requires Placeable(cs, |before|) && i < |cs| && FirstsStored(cs, i, before) && !Second(cs, i)
    requires table == before[cs[i].slot := cs[i].alone]
    ensures FirstsStored(cs, i + 1, table)
  {
    forall k | 0 <= k < i + 1 && !Second(cs, k)
      ensures FirstEntry(cs, i + 1, table, k)
    {
      if k < i {
        assert cs[k].slot != cs[i].slot;
        FirstUntouched(cs, i, before, table, k);
      }
    }
  }

  lemma AddSecond(cs: seq<Coded>, i: nat, before: seq<bv16>, table: seq<bv16>)
    requires Placeable(cs, |before|) && i < |cs| && Indexed(cs, i, before) && Second(cs, i)
    requires table == before[cs[i].slot := before[cs[i].slot] ^ cs[i].tagBits][cs[i].side := cs[i].number]
    ensures Indexed(cs, i + 1, table)
  {
    StillEmpty(cs, i, before, table);
    forall k | 0 <= k < i + 1 && !Second(cs, k)
      ensures FirstEntry(cs, i + 1, table, k)
    {
      FirstKept(cs, i, before, table, k);
    }
    SecondsWithNew(cs, i, before, table);
  }

  lemma SecondsWithNew(cs: seq<Coded>, i: nat, before: seq<bv16>, table: seq<bv16>)
    requires Placeable(cs, |before|) && i < |cs| && SecondsStored(cs, i, before) && Second(cs, i)
    requires table == before[cs[i].slot := before[cs[i].slot] ^ cs[i].tagBits][cs[i].side := cs[i].number]
    ensures SecondsStored(cs, i + 1, table)
  {
    forall j | 0 <= j < i + 1 && Second(cs, j)
      ensures table[cs[j].side] == cs[j].number
    {
    }
  }

  lemma FirstKept(cs: seq<Coded>, i: nat, before: seq<bv16>, table: seq<bv16>, k: nat)
    requires Placeable(cs, |before|) && i < |cs| && Indexed(cs, i, before) && Second(cs, i)
    requires table == before[cs[i].slot := before[cs[i].slot] ^ cs[i].tagBits][cs[i].side := cs[i].number]
    requires k < i && !Second(cs, k)
    ensures FirstEntry(cs, i + 1, table, k)
  {
    assert cs[i].side != cs[k].slot && cs[i].side != cs[i].slot;
    if cs[k].slot == cs[i].slot {
      FirstShared(cs, i, before, table, k);
    } else {
      FirstUntouched(cs, i, before, table, k);
    }
  }

  lemma FirstUntouched(cs: seq<Coded>, i: nat, before: seq<bv16>, table: seq<bv16>, k: nat)
    requires Placeable(cs, |before|) && |table| == |before| && k < i < |cs| && FirstEntry(cs, i, before, k)
    requires cs[k].slot != cs[i].slot && table[cs[k].slot] == before[cs[k].slot]
    ensures FirstEntry(cs, i + 1, table, k)
  {
  }

  lemma FirstShared(cs: seq<Coded>, i: nat, before: seq<bv16>, table: seq<bv16>, k: nat)
    requires Placeable(cs, |before|) && |table| == |before| && k < i < |cs| && Indexed(cs, i, before)
    requires cs[k].slot == cs[i].slot && table[cs[i].slot] == before[cs[i].slot] ^ cs[i].tagBits
    ensures FirstEntry(cs, i + 1, table, k)
  {
    FirstOfBucket(cs, |table|, i, k);
    TakenIsFull(cs, i, before, k);
  }

  // ----- lookup -----

  /** The words a lookup of the `i`-th code meets in the finished table: its own number, or, for a code that shares
      its slot with the `k`-th, the number of the first of the two marked with the second. */
  ghost predicate Meets(cs: seq<Coded>, table: seq<bv16>, i: nat)
    requires i < |cs|
  {
    && cs[i].slot < |table|
    && if Second(cs, i) then
         && cs[i].side < |table| && table[cs[i].side] == cs[i].number
         && exists k :: 0 <= k < i && cs[k].slot == cs[i].slot && table[cs[i].slot] == cs[k].alone ^ cs[i].tagBits
       else
         table[cs[i].slot] == cs[i].alone ||
         exists k :: i < k < |cs| && cs[k].slot == cs[i].slot && table[cs[i].slot] == cs[i].alone ^ cs[k].tagBits
  }

  lemma Lookup(cs: seq<Coded>, table: seq<bv16>, i: nat)
    requires Placeable(cs, |table|) && Indexed(cs, |cs|, table) && i < |cs|
    ensures Meets(cs, table, i)
  {
    if Second(cs, i) {
      var k :| 0 <= k < i && cs[k].slot == cs[i].slot;
      FirstOfBucket(cs, |table|, i, k);
      assert FirstEntry(cs, |cs|, table, k);
    } else {
      assert FirstEntry(cs, |cs|, table, i);
    }
  }
}
