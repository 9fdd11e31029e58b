/** The code table of Players/scripts/LECHash.c is one the scheme is made for, so its index is perfect. */
module LecTable {
  import opened Wrappers
  import opened HuffTable
  import opened LecHash

  const COUNT: nat := 293

  // ----- `HuffCodeLEC` -----

  function Code8(k: int, a: bv16, b: bv16, c: bv16, d: bv16, e: bv16, f: bv16, g: bv16, h: bv16): bv16 {
    if k < 4 then (if k < 2 then (if k == 0 then a else b) else if k == 2 then c else d)
    else if k < 6 then (if k == 4 then e else f)
    else if k == 6 then g
    else h
  }

  function First8(k: int, a: nat, b: nat, c: nat, d: nat, e: nat, f: nat, g: nat, h: nat): nat {
    if k < 4 then (if k < 2 then (if k == 0 then a else b) else if k == 2 then c else d)
    else if k < 6 then (if k == 4 then e else f)
    else if k == 6 then g
    else h
  }

  function CodeTo96(i: nat): bv16 {
    if i < 8 then Code8(i - 0, 0x0004, 0x0024, 0x0014, 0x0011, 0x0051, 0x0031, 0x0071, 0x0009)
    else if i < 16 then Code8(i - 8, 0x0049, 0x0029, 0x0069, 0x0015, 0x0095, 0x0055, 0x00d5, 0x0035)
    else if i < 24 then Code8(i - 16, 0x00b5, 0x0075, 0x001d, 0x00f5, 0x011d, 0x009d, 0x019d, 0x005d)
    else if i < 32 then Code8(i - 24, 0x000d, 0x008d, 0x015d, 0x00dd, 0x01dd, 0x003d, 0x013d, 0x00bd)
    else if i < 40 then Code8(i - 32, 0x004d, 0x01bd, 0x007d, 0x006b, 0x017d, 0x00fd, 0x01fd, 0x0003)
    else if i < 48 then Code8(i - 40, 0x0103, 0x0083, 0x0183, 0x026b, 0x0043, 0x016b, 0x036b, 0x00eb)
    else if i < 56 then Code8(i - 48, 0x0143, 0x00c3, 0x02eb, 0x01c3, 0x01eb, 0x0023, 0x03eb, 0x0123)
    else if i < 64 then Code8(i - 56, 0x00a3, 0x01a3, 0x001b, 0x021b, 0x0063, 0x011b, 0x0163, 0x00e3)
    else if i < 72 then Code8(i - 64, 0x00cd, 0x01e3, 0x0013, 0x0113, 0x0093, 0x031b, 0x009b, 0x029b)
    else if i < 80 then Code8(i - 72, 0x0193, 0x0053, 0x019b, 0x039b, 0x005b, 0x025b, 0x015b, 0x035b)
    else if i < 88 then Code8(i - 80, 0x0153, 0x00d3, 0x00db, 0x02db, 0x01db, 0x03db, 0x003b, 0x023b)
    else Code8(i - 88, 0x013b, 0x01d3, 0x033b, 0x00bb, 0x02bb, 0x01bb, 0x03bb, 0x007b)
  }

  function CodeTo192(i: nat): bv16 {
    if i < 104 then Code8(i - 96, 0x002d, 0x027b, 0x017b, 0x037b, 0x00fb, 0x02fb, 0x01fb, 0x03fb)
    else if i < 112 then Code8(i - 104, 0x0007, 0x0207, 0x0107, 0x0307, 0x0087, 0x0287, 0x0187, 0x0387)
    else if i < 120 then Code8(i - 112, 0x0033, 0x0047, 0x0247, 0x0147, 0x0347, 0x00c7, 0x02c7, 0x01c7)
    else if i < 128 then Code8(i - 120, 0x0133, 0x03c7, 0x0027, 0x0227, 0x0127, 0x0327, 0x00a7, 0x00b3)
    else if i < 136 then Code8(i - 128, 0x0019, 0x01b3, 0x0073, 0x02a7, 0x0173, 0x01a7, 0x03a7, 0x0067)
    else if i < 144 then Code8(i - 136, 0x00f3, 0x0267, 0x0167, 0x0367, 0x00e7, 0x02e7, 0x01e7, 0x03e7)
    else if i < 152 then Code8(i - 144, 0x01f3, 0x0017, 0x0217, 0x0117, 0x0317, 0x0097, 0x0297, 0x0197)
    else if i < 160 then Code8(i - 152, 0x0397, 0x0057, 0x0257, 0x0157, 0x0357, 0x00d7, 0x02d7, 0x01d7)
    else if i < 168 then Code8(i - 160, 0x03d7, 0x0037, 0x0237, 0x0137, 0x0337, 0x00b7, 0x02b7, 0x01b7)
    else if i < 176 then Code8(i - 168, 0x03b7, 0x0077, 0x0277, 0x07ff, 0x0177, 0x0377, 0x00f7, 0x02f7)
    else if i < 184 then Code8(i - 176, 0x01f7, 0x03f7, 0x03ff, 0x000f, 0x020f, 0x010f, 0x030f, 0x008f)
    else Code8(i - 184, 0x028f, 0x018f, 0x038f, 0x004f, 0x024f, 0x014f, 0x034f, 0x00cf)
  }

  function CodeTo293(i: nat): bv16 {
    if i < 200 then Code8(i - 192, 0x000b, 0x02cf, 0x01cf, 0x03cf, 0x002f, 0x022f, 0x010b, 0x012f)
    else if i < 208 then Code8(i - 200, 0x032f, 0x00af, 0x02af, 0x01af, 0x008b, 0x03af, 0x006f, 0x026f)
    else if i < 216 then Code8(i - 208, 0x018b, 0x016f, 0x036f, 0x00ef, 0x02ef, 0x01ef, 0x03ef, 0x001f)
    else if i < 224 then Code8(i - 216, 0x021f, 0x011f, 0x031f, 0x009f, 0x029f, 0x019f, 0x039f, 0x005f)
    else if i < 232 then Code8(i - 224, 0x004b, 0x025f, 0x015f, 0x035f, 0x00df, 0x02df, 0x01df, 0x03df)
    else if i < 240 then Code8(i - 232, 0x003f, 0x023f, 0x013f, 0x033f, 0x00bf, 0x02bf, 0x014b, 0x01bf)
    else if i < 248 then Code8(i - 240, 0x00ad, 0x00cb, 0x01cb, 0x03bf, 0x002b, 0x007f, 0x027f, 0x017f)
    else if i < 256 then Code8(i - 248, 0x012b, 0x037f, 0x00ff, 0x02ff, 0x00ab, 0x01ab, 0x006d, 0x0059)
    else if i < 264 then Code8(i - 256, 0x17ff, 0x0fff, 0x0039, 0x0079, 0x01ff, 0x0005, 0x0045, 0x0034)
    else if i < 272 then Code8(i - 264, 0x000c, 0x002c, 0x001c, 0x0000, 0x003c, 0x0002, 0x0022, 0x0010)
    else if i < 280 then Code8(i - 272, 0x0012, 0x0008, 0x0032, 0x000a, 0x002a, 0x001a, 0x003a, 0x0006)
    else if i < 288 then Code8(i - 280, 0x0026, 0x0016, 0x0036, 0x000e, 0x002e, 0x001e, 0x003e, 0x0001)
    else Code8(i - 288, 0x00ed, 0x0018, 0x0021, 0x0025, 0x0065, 0x0065, 0x0065, 0x0065)
  }

  function Code(i: nat): bv16 {
    if i < 96 then CodeTo96(i) else if i < 192 then CodeTo192(i) else CodeTo293(i)
  }

  const CODES: seq<bv16> := seq(COUNT, i requires 0 <= i < COUNT => Code(i))

  // ----- the first code in each slot, 293 for the slots no code has -----

  function FirstTo128(s: nat): nat {
    if s < 8 then First8(s - 0, 123, 287, 269, 39, 0, 261, 279, 104)
    else if s < 16 then First8(s - 8, 197, 7, 275, 192, 264, 24, 283, 179)
    else if s < 24 then First8(s - 16, 3, 162, 66, 272, 11, 2, 145, 281)
    else if s < 32 then First8(s - 24, 128, 233, 58, 277, 18, 87, 215, 285)
    else if s < 40 then First8(s - 32, 270, 53, 105, 290, 280, 122, 1, 291)
    else if s < 48 then First8(s - 40, 276, 244, 180, 9, 284, 196, 265, 96)
    else if s < 56 then First8(s - 48, 112, 274, 5, 146, 161, 282, 15, 263)
    else if s < 64 then First8(s - 56, 86, 278, 258, 216, 232, 286, 29, 59)
    else if s < 72 then First8(s - 64, 293, 262, 293, 113, 137, 293, 293, 44)
    else if s < 80 then First8(s - 72, 43, 32, 293, 187, 207, 8, 293, 224)
    else if s < 88 then First8(s - 80, 13, 293, 153, 293, 4, 170, 73, 293)
    else if s < 96 then First8(s - 88, 23, 97, 223, 293, 255, 246, 76, 293)
    else if s < 104 then First8(s - 96, 293, 135, 293, 292, 293, 60, 114, 293)
    else if s < 112 then First8(s - 104, 293, 206, 293, 254, 293, 35, 188, 10)
    else if s < 120 then First8(s - 112, 169, 293, 17, 293, 130, 293, 6, 154)
    else First8(s - 120, 245, 293, 34, 77, 95, 293, 259, 225)
  }

  function FirstTo256(s: nat): nat {
    if s < 136 then First8(s - 128, 293, 202, 204, 293, 25, 293, 183, 293)
    else if s < 144 then First8(s - 136, 293, 131, 41, 293, 293, 293, 108, 293)
    else if s < 152 then First8(s - 144, 237, 293, 293, 70, 92, 21, 293, 219)
    else if s < 160 then First8(s - 152, 166, 293, 293, 68, 293, 12, 293, 149)
    else if s < 168 then First8(s - 160, 252, 293, 293, 184, 201, 293, 240, 293)
    else if s < 176 then First8(s - 168, 56, 293, 293, 109, 126, 293, 293, 293)
    else if s < 184 then First8(s - 176, 293, 91, 220, 293, 293, 236, 71, 31)
    else if s < 192 then First8(s - 184, 293, 127, 150, 293, 293, 165, 293, 16)
    else if s < 200 then First8(s - 192, 64, 50, 191, 293, 293, 212, 241, 293)
    else if s < 208 then First8(s - 200, 293, 293, 117, 293, 293, 141, 49, 293)
    else if s < 216 then First8(s - 208, 101, 27, 293, 228, 251, 293, 293, 82)
    else if s < 224 then First8(s - 216, 293, 14, 293, 157, 175, 293, 293, 81)
    else if s < 232 then First8(s - 224, 211, 293, 288, 293, 47, 293, 293, 193)
    else if s < 240 then First8(s - 232, 140, 293, 293, 293, 63, 293, 293, 118)
    else if s < 248 then First8(s - 240, 293, 250, 83, 37, 293, 100, 229, 293)
    else First8(s - 248, 293, 174, 293, 19, 293, 136, 158, 293)
  }

  function FirstTo384(s: nat): nat {
    if s < 264 then First8(s - 256, 67, 293, 293, 164, 147, 293, 293, 293)
    else if s < 272 then First8(s - 264, 61, 293, 293, 235, 217, 293, 20, 90)
    else if s < 280 then First8(s - 272, 293, 40, 125, 293, 293, 106, 293, 293)
    else if s < 288 then First8(s - 280, 257, 198, 200, 293, 293, 181, 293, 293)
    else if s < 296 then First8(s - 288, 293, 148, 120, 293, 293, 293, 163, 293)
    else if s < 304 then First8(s - 296, 293, 218, 88, 293, 30, 69, 234, 293)
    else if s < 312 then First8(s - 304, 107, 293, 293, 55, 293, 293, 293, 124)
    else if s < 320 then First8(s - 312, 182, 293, 293, 248, 293, 293, 293, 199)
    else if s < 328 then First8(s - 320, 155, 293, 293, 293, 80, 293, 293, 173)
    else if s < 336 then First8(s - 328, 226, 293, 26, 99, 78, 293, 293, 249)
    else if s < 344 then First8(s - 336, 293, 115, 293, 293, 293, 48, 139, 293)
    else if s < 352 then First8(s - 344, 293, 189, 46, 293, 293, 238, 210, 293)
    else if s < 360 then First8(s - 352, 293, 293, 172, 293, 293, 156, 132, 293)
    else if s < 368 then First8(s - 360, 36, 79, 247, 293, 293, 227, 98, 293)
    else if s < 376 then First8(s - 368, 293, 293, 293, 138, 116, 293, 293, 62)
    else First8(s - 376, 293, 293, 293, 209, 190, 293, 293, 45)
  }

  function FirstTo512(s: nat): nat {
    if s < 392 then First8(s - 384, 293, 74, 243, 293, 293, 221, 94, 22)
    else if s < 400 then First8(s - 392, 293, 72, 168, 293, 171, 151, 293, 293)
    else if s < 408 then First8(s - 400, 208, 293, 293, 205, 185, 293, 293, 293)
    else if s < 416 then First8(s - 408, 42, 293, 293, 134, 110, 293, 293, 293)
    else if s < 424 then First8(s - 416, 222, 293, 293, 93, 75, 33, 293, 239)
    else if s < 432 then First8(s - 424, 152, 293, 293, 129, 293, 293, 293, 167)
    else if s < 440 then First8(s - 432, 293, 186, 253, 293, 293, 293, 203, 293)
    else if s < 448 then First8(s - 440, 293, 111, 57, 293, 293, 293, 133, 293)
    else if s < 456 then First8(s - 448, 293, 230, 103, 28, 293, 84, 178, 293)
    else if s < 464 then First8(s - 456, 293, 159, 293, 293, 293, 89, 177, 293)
    else if s < 472 then First8(s - 464, 194, 293, 293, 54, 242, 293, 293, 214)
    else if s < 480 then First8(s - 472, 119, 293, 293, 293, 51, 293, 293, 143)
    else if s < 488 then First8(s - 480, 85, 38, 293, 260, 231, 293, 293, 102)
    else if s < 496 then First8(s - 488, 293, 293, 293, 176, 160, 293, 293, 144)
    else if s < 504 then First8(s - 496, 293, 293, 213, 293, 293, 195, 52, 293)
    else First8(s - 504, 293, 293, 142, 293, 293, 121, 65, 293)
  }

  function First(s: nat): nat {
    if s < 256 then (if s < 128 then FirstTo128(s) else FirstTo256(s))
    else if s < 384 then FirstTo384(s)
    else FirstTo512(s)
  }

  /** Seven codes find their slots taken, by these codes. */
  function Twin(j: nat): nat {
    if j == 256 then 201
    else if j == 266 then 87
    else if j == 267 then 123
    else if j == 268 then 59
    else if j == 271 then 162
    else if j == 273 then 197
    else if j == 289 then 233
    else j
  }

  /** The codes from `i` to before `n` stand where the table of first codes says. */
  predicate Checked(i: nat, n: nat)
    decreases n - i
  {
    i >= n || (Code(i) < LIMIT && First(Slot(Code(i))) == Twin(i) && Checked(i + 1, n))
  }

  lemma Checked0() ensures Checked(0, 8) {}
  lemma Checked8() ensures Checked(8, 16) {}
  lemma Checked16() ensures Checked(16, 24) {}
  lemma Checked24() ensures Checked(24, 32) {}
  lemma Checked32() ensures Checked(32, 40) {}
  lemma Checked40() ensures Checked(40, 48) {}
  lemma Checked48() ensures Checked(48, 56) {}
  lemma Checked56() ensures Checked(56, 64) {}
  lemma Checked64() ensures Checked(64, 72) {}
  lemma Checked72() ensures Checked(72, 80) {}
  lemma Checked80() ensures Checked(80, 88) {}
  lemma Checked88() ensures Checked(88, 96) {}
  lemma Checked96() ensures Checked(96, 104) {}
  lemma Checked104() ensures Checked(104, 112) {}
  lemma Checked112() ensures Checked(112, 120) {}
  lemma Checked120() ensures Checked(120, 128) {}
  lemma Checked128() ensures Checked(128, 136) {}
  lemma Checked136() ensures Checked(136, 144) {}
  lemma Checked144() ensures Checked(144, 152) {}
  lemma Checked152() ensures Checked(152, 160) {}
  lemma Checked160() ensures Checked(160, 168) {}
  lemma Checked168() ensures Checked(168, 176) {}
  lemma Checked176() ensures Checked(176, 184) {}
  lemma Checked184() ensures Checked(184, 192) {}
  lemma Checked192() ensures Checked(192, 200) {}
  lemma Checked200() ensures Checked(200, 208) {}
  lemma Checked208() ensures Checked(208, 216) {}
  lemma Checked216() ensures Checked(216, 224) {}
  lemma Checked224() ensures Checked(224, 232) {}
  lemma Checked232() ensures Checked(232, 240) {}
  lemma Checked240() ensures Checked(240, 248) {}
  lemma Checked248() ensures Checked(248, 256) {}
  lemma Checked256() ensures Checked(256, 264) {}
  lemma Checked264() ensures Checked(264, 272) {}
  lemma Checked272() ensures Checked(272, 280) {}
  lemma Checked280() ensures Checked(280, 288) {}
  lemma Checked288() ensures Checked(288, 293) {}

  lemma {:induction false} CheckedUpTo(i: nat, n: nat, k: nat)
    requires Checked(i, n) && i <= k < n
    ensures Code(k) < LIMIT && First(Slot(Code(k))) == Twin(k)
    decreases k - i
  {
    hide Code, First, Slot, Twin;
    if i < k { CheckedUpTo(i + 1, n, k); }
  }

  lemma CheckedAt(k: nat)
    requires k < COUNT
    ensures Code(k) < LIMIT && First(Slot(Code(k))) == Twin(k)
  {
    hide Code, First, Slot, Twin, Checked;
    if k < 8 { Checked0(); CheckedUpTo(0, 8, k); }
    else if k < 16 { Checked8(); CheckedUpTo(8, 16, k); }
    else if k < 24 { Checked16(); CheckedUpTo(16, 24, k); }
    else if k < 32 { Checked24(); CheckedUpTo(24, 32, k); }
    else if k < 40 { Checked32(); CheckedUpTo(32, 40, k); }
    else if k < 48 { Checked40(); CheckedUpTo(40, 48, k); }
    else if k < 56 { Checked48(); CheckedUpTo(48, 56, k); }
    else if k < 64 { Checked56(); CheckedUpTo(56, 64, k); }
    else if k < 72 { Checked64(); CheckedUpTo(64, 72, k); }
    else if k < 80 { Checked72(); CheckedUpTo(72, 80, k); }
    else if k < 88 { Checked80(); CheckedUpTo(80, 88, k); }
    else if k < 96 { Checked88(); CheckedUpTo(88, 96, k); }
    else if k < 104 { Checked96(); CheckedUpTo(96, 104, k); }
    else if k < 112 { Checked104(); CheckedUpTo(104, 112, k); }
    else if k < 120 { Checked112(); CheckedUpTo(112, 120, k); }
    else if k < 128 { Checked120(); CheckedUpTo(120, 128, k); }
    else if k < 136 { Checked128(); CheckedUpTo(128, 136, k); }
    else if k < 144 { Checked136(); CheckedUpTo(136, 144, k); }
    else if k < 152 { Checked144(); CheckedUpTo(144, 152, k); }
    else if k < 160 { Checked152(); CheckedUpTo(152, 160, k); }
    else if k < 168 { Checked160(); CheckedUpTo(160, 168, k); }
    else if k < 176 { Checked168(); CheckedUpTo(168, 176, k); }
    else if k < 184 { Checked176(); CheckedUpTo(176, 184, k); }
    else if k < 192 { Checked184(); CheckedUpTo(184, 192, k); }
    else if k < 200 { Checked192(); CheckedUpTo(192, 200, k); }
    else if k < 208 { Checked200(); CheckedUpTo(200, 208, k); }
    else if k < 216 { Checked208(); CheckedUpTo(208, 216, k); }
    else if k < 224 { Checked216(); CheckedUpTo(216, 224, k); }
    else if k < 232 { Checked224(); CheckedUpTo(224, 232, k); }
    else if k < 240 { Checked232(); CheckedUpTo(232, 240, k); }
    else if k < 248 { Checked240(); CheckedUpTo(240, 248, k); }
    else if k < 256 { Checked248(); CheckedUpTo(248, 256, k); }
    else if k < 264 { Checked256(); CheckedUpTo(256, 264, k); }
    else if k < 272 { Checked264(); CheckedUpTo(264, 272, k); }
    else if k < 280 { Checked272(); CheckedUpTo(272, 280, k); }
    else if k < 288 { Checked280(); CheckedUpTo(280, 288, k); }
    else { Checked288(); CheckedUpTo(288, 293, k); }
  }

  /** Codes with the same slot are one of the seven second codes and the first one there. */
  lemma SameSlot(i: nat, j: nat)
    requires i < j < COUNT && Code(i) < LIMIT && Code(j) < LIMIT && Slot(Code(i)) == Slot(Code(j))
    ensures i == Twin(j) != j && Twin(i) == i && Code(i) != Code(j)
  {
    hide Code, First, Slot, Twin;
    CheckedAt(i);
    CheckedAt(j);
    SameTwin(i, j);
    TwinsDiffer(j);
  }

  lemma SameTwin(i: nat, j: nat)
    requires i < j && Twin(i) == Twin(j)
    ensures i == Twin(j) != j && Twin(i) == i
  {
  }

  lemma TwinsDiffer(j: nat)
    requires Twin(j) != j
    ensures Code(Twin(j)) != Code(j)
  {
    if j == 256 { assert Code(256) != Code(201); }
    else if j == 266 { assert Code(266) != Code(87); }
    else if j == 267 { assert Code(267) != Code(123); }
    else if j == 268 { assert Code(268) != Code(59); }
    else if j == 271 { assert Code(271) != Code(162); }
    else if j == 273 { assert Code(273) != Code(197); }
    else if j == 289 { assert Code(289) != Code(233); }
  }

  /** The side slots of the second codes: each has its own, and no code has it as its slot. */
  lemma SidesAre(j: nat)
    requires Twin(j) != j
    ensures SideSlot(Code(j)) ==
            if j == 256 then 347
            else if j == 266 then 482
            else if j == 267 then 511
            else if j == 268 then 448
            else if j == 271 then 494
            else if j == 273 then 508
            else 486
    ensures First(SideSlot(Code(j))) == COUNT
  {
    if j == 256 { assert SideSlot(Code(256)) == 347; }
    else if j == 266 { assert SideSlot(Code(266)) == 482; }
    else if j == 267 { assert SideSlot(Code(267)) == 511; }
    else if j == 268 { assert SideSlot(Code(268)) == 448; }
    else if j == 271 { assert SideSlot(Code(271)) == 494; }
    else if j == 273 { assert SideSlot(Code(273)) == 508; }
    else if j == 289 { assert SideSlot(Code(289)) == 486; }
  }

  /** The table meets the conditions of the scheme. */
  lemma TableBuildable()
    ensures Buildable(CODES)
  {
    hide Code, First, Slot, SideSlot, Placeable;
    forall i | 0 <= i < COUNT ensures CODES[i] < LIMIT { CheckedAt(i); }
    forall i, j | 0 <= i < j < COUNT ensures CODES[i] != CODES[j] {
      if CODES[i] == CODES[j] { SameSlot(i, j); }
    }
    var cs := Describe(CODES);
    forall i | 0 <= i < COUNT
      ensures Code(i) < LIMIT && cs[i].slot == Slot(Code(i)) && cs[i].side == SideSlot(Code(i)) && cs[i].alone != EMPTY
    {
      assert CODES[i] == Code(i);
      AloneReads(Word(i), 0, None);
    }
    TablePlaceable(cs);
  }

  lemma TablePlaceable(cs: seq<Coded>)
    requires |cs| == COUNT
    requires forall i :: 0 <= i < COUNT ==>
               Code(i) < LIMIT && cs[i].slot == Slot(Code(i)) && cs[i].side == SideSlot(Code(i)) && cs[i].alone != EMPTY
    ensures Placeable(cs, SIZE)
  {
    hide Code, First, Slot, SideSlot;
    forall j | 0 <= j < COUNT && Second(cs, j) ensures Twin(j) != j && cs[j].side < SIZE {
      var i :| 0 <= i < j && cs[i].slot == cs[j].slot;
      SameSlot(i, j);
      SidesAre(j);
    }
    forall i, j | 0 <= i < COUNT && 0 <= j < COUNT && Twin(j) != j ensures cs[j].side != cs[i].slot {
      CheckedAt(i);
      SidesAre(j);
    }
    forall j, k | 0 <= j < k < COUNT && Twin(j) != j
      ensures cs[j].slot != cs[k].slot
      ensures Twin(k) != k ==> cs[j].side != cs[k].side
    {
      if cs[j].slot == cs[k].slot { SameSlot(j, k); }
      SidesAre(j);
      if Twin(k) != k { SidesAre(k); }
    }
  }

  /** The program prints no failure: each of its 293 codes is looked up as its own number. */
  method PrintedIndex() returns (table: array<bv16>)
    ensures FindsAll(CODES, table[..])
  {
    TableBuildable();
    table := BuildAndCheck(CODES);
  }
}
