/** The lookup table of onewire_crc8, and that its entries are what the bitwise
    computation gives. */
module Crc8Table {

  // dscrc_table, sixteen entries to a row.
  const DSCRC_TABLE: seq<seq<bv8>> := [
    [0, 94, 188, 226, 97, 63, 221, 131, 194, 156, 126, 32, 163, 253, 31, 65],
    [157, 195, 33, 127, 252, 162, 64, 30, 95, 1, 227, 189, 62, 96, 130, 220],
    [35, 125, 159, 193, 66, 28, 254, 160, 225, 191, 93, 3, 128, 222, 60, 98],
    [190, 224, 2, 92, 223, 129, 99, 61, 124, 34, 192, 158, 29, 67, 161, 255],
    [70, 24, 250, 164, 39, 121, 155, 197, 132, 218, 56, 102, 229, 187, 89, 7],
    [219, 133, 103, 57, 186, 228, 6, 88, 25, 71, 165, 251, 120, 38, 196, 154],
    [101, 59, 217, 135, 4, 90, 184, 230, 167, 249, 27, 69, 198, 152, 122, 36],
    [248, 166, 68, 26, 153, 199, 37, 123, 58, 100, 134, 216, 91, 5, 231, 185],
    [140, 210, 48, 110, 237, 179, 81, 15, 78, 16, 242, 172, 47, 113, 147, 205],
    [17, 79, 173, 243, 112, 46, 204, 146, 211, 141, 111, 49, 178, 236, 14, 80],
    [175, 241, 19, 77, 206, 144, 114, 44, 109, 51, 209, 143, 12, 82, 176, 238],
    [50, 108, 142, 208, 83, 13, 239, 177, 240, 174, 76, 18, 145, 207, 45, 115],
    [202, 148, 118, 40, 171, 245, 23, 73, 8, 86, 180, 234, 105, 55, 213, 139],
    [87, 9, 235, 181, 54, 104, 138, 212, 149, 203, 41, 119, 244, 170, 72, 22],
    [233, 183, 85, 11, 136, 214, 52, 106, 43, 117, 151, 201, 74, 20, 246, 168],
    [116, 42, 200, 150, 21, 75, 169, 247, 182, 232, 10, 84, 215, 137, 107, 53]
  ]

  // One bit of polynomial division, least significant bit first.
  function Step(x: bv8): bv8 {
    if x & 1 == 1 then (x >> 1) ^ 0x8C else x >> 1
  }

  function Eight(x: bv8): bv8 {
    Step(Step(Step(Step(Step(Step(Step(Step(x))))))))
  }

  predicate TableShape(r: nat) {
    r < |DSCRC_TABLE| && |DSCRC_TABLE[r]| == 16
  }

  lemma TableIsSquare(r: nat)
    requires r < 16
    ensures TableShape(r)
  {
  }

  function Lookup(x: bv8): bv8 {
    TableIsSquare((x >> 4) as nat);
    DSCRC_TABLE[(x >> 4) as nat][(x & 0x0F) as nat]
  }

  function Xor(x: bv8, y: bv8): bv8 { x ^ y }

  // Division is linear over exclusive or.
  lemma StepXor(x: bv8, y: bv8)
    ensures Step(Xor(x, y)) == Xor(Step(x), Step(y))
  {
  }

  lemma EightXor(x: bv8, y: bv8)
    ensures Eight(Xor(x, y)) == Xor(Eight(x), Eight(y))
  {
    hide Step, Xor;
    var x2, y2 := Step(Step(x)), Step(Step(y));
    StepXor(x, y);
    StepXor(Step(x), Step(y));
    var x4, y4 := Step(Step(x2)), Step(Step(y2));
    StepXor(x2, y2);
    StepXor(Step(x2), Step(y2));
    var x6, y6 := Step(Step(x4)), Step(Step(y4));
    StepXor(x4, y4);
    StepXor(Step(x4), Step(y4));
    StepXor(x6, y6);
    StepXor(Step(x6), Step(y6));
  }

  lemma FirstRow(c: nat)
    requires c < 16
    ensures TableShape(0) && DSCRC_TABLE[0][c] == Eight(c as bv8)
  {
    match c
    case 0 => case 1 => case 2 => case 3 => case 4 => case 5 => case 6 => case 7 =>
    case 8 => case 9 => case 10 => case 11 => case 12 => case 13 => case 14 => case 15 =>
  }

  lemma FirstColumn(r: nat)
    requires r < 16
    ensures TableShape(r) && DSCRC_TABLE[r][0] == Eight((r as bv8) << 4)
  {
    match r
    case 0 => case 1 => case 2 => case 3 => case 4 => case 5 => case 6 => case 7 =>
    case 8 => case 9 => case 10 => case 11 => case 12 => case 13 => case 14 => case 15 =>
  }

  // Every entry is the sum of the heads of its row and its column.
  lemma RowsAndColumns(r: nat, c: nat)
    requires r < 16 && c < 16
    ensures TableShape(0) && TableShape(r) && DSCRC_TABLE[r][c] == DSCRC_TABLE[r][0] ^ DSCRC_TABLE[0][c]
  {
    match (r, c)
    case (0, 0) => case (0, 1) => case (0, 2) => case (0, 3) => case (0, 4) => case (0, 5) => case (0, 6) => case (0, 7) =>
    case (0, 8) => case (0, 9) => case (0, 10) => case (0, 11) => case (0, 12) => case (0, 13) => case (0, 14) => case (0, 15) =>
    case (1, 0) => case (1, 1) => case (1, 2) => case (1, 3) => case (1, 4) => case (1, 5) => case (1, 6) => case (1, 7) =>
    case (1, 8) => case (1, 9) => case (1, 10) => case (1, 11) => case (1, 12) => case (1, 13) => case (1, 14) => case (1, 15) =>
    case (2, 0) => case (2, 1) => case (2, 2) => case (2, 3) => case (2, 4) => case (2, 5) => case (2, 6) => case (2, 7) =>
    case (2, 8) => case (2, 9) => case (2, 10) => case (2, 11) => case (2, 12) => case (2, 13) => case (2, 14) => case (2, 15) =>
    case (3, 0) => case (3, 1) => case (3, 2) => case (3, 3) => case (3, 4) => case (3, 5) => case (3, 6) => case (3, 7) =>
    case (3, 8) => case (3, 9) => case (3, 10) => case (3, 11) => case (3, 12) => case (3, 13) => case (3, 14) => case (3, 15) =>
    case (4, 0) => case (4, 1) => case (4, 2) => case (4, 3) => case (4, 4) => case (4, 5) => case (4, 6) => case (4, 7) =>
    case (4, 8) => case (4, 9) => case (4, 10) => case (4, 11) => case (4, 12) => case (4, 13) => case (4, 14) => case (4, 15) =>
    case (5, 0) => case (5, 1) => case (5, 2) => case (5, 3) => case (5, 4) => case (5, 5) => case (5, 6) => case (5, 7) =>
    case (5, 8) => case (5, 9) => case (5, 10) => case (5, 11) => case (5, 12) => case (5, 13) => case (5, 14) => case (5, 15) =>
    case (6, 0) => case (6, 1) => case (6, 2) => case (6, 3) => case (6, 4) => case (6, 5) => case (6, 6) => case (6, 7) =>
    case (6, 8) => case (6, 9) => case (6, 10) => case (6, 11) => case (6, 12) => case (6, 13) => case (6, 14) => case (6, 15) =>
    case (7, 0) => case (7, 1) => case (7, 2) => case (7, 3) => case (7, 4) => case (7, 5) => case (7, 6) => case (7, 7) =>
    case (7, 8) => case (7, 9) => case (7, 10) => case (7, 11) => case (7, 12) => case (7, 13) => case (7, 14) => case (7, 15) =>
    case (8, 0) => case (8, 1) => case (8, 2) => case (8, 3) => case (8, 4) => case (8, 5) => case (8, 6) => case (8, 7) =>
    case (8, 8) => case (8, 9) => case (8, 10) => case (8, 11) => case (8, 12) => case (8, 13) => case (8, 14) => case (8, 15) =>
    case (9, 0) => case (9, 1) => case (9, 2) => case (9, 3) => case (9, 4) => case (9, 5) => case (9, 6) => case (9, 7) =>
    case (9, 8) => case (9, 9) => case (9, 10) => case (9, 11) => case (9, 12) => case (9, 13) => case (9, 14) => case (9, 15) =>
    case (10, 0) => case (10, 1) => case (10, 2) => case (10, 3) => case (10, 4) => case (10, 5) => case (10, 6) => case (10, 7) =>
    case (10, 8) => case (10, 9) => case (10, 10) => case (10, 11) => case (10, 12) => case (10, 13) => case (10, 14) => case (10, 15) =>
    case (11, 0) => case (11, 1) => case (11, 2) => case (11, 3) => case (11, 4) => case (11, 5) => case (11, 6) => case (11, 7) =>
    case (11, 8) => case (11, 9) => case (11, 10) => case (11, 11) => case (11, 12) => case (11, 13) => case (11, 14) => case (11, 15) =>
    case (12, 0) => case (12, 1) => case (12, 2) => case (12, 3) => case (12, 4) => case (12, 5) => case (12, 6) => case (12, 7) =>
    case (12, 8) => case (12, 9) => case (12, 10) => case (12, 11) => case (12, 12) => case (12, 13) => case (12, 14) => case (12, 15) =>
    case (13, 0) => case (13, 1) => case (13, 2) => case (13, 3) => case (13, 4) => case (13, 5) => case (13, 6) => case (13, 7) =>
    case (13, 8) => case (13, 9) => case (13, 10) => case (13, 11) => case (13, 12) => case (13, 13) => case (13, 14) => case (13, 15) =>
    case (14, 0) => case (14, 1) => case (14, 2) => case (14, 3) => case (14, 4) => case (14, 5) => case (14, 6) => case (14, 7) =>
    case (14, 8) => case (14, 9) => case (14, 10) => case (14, 11) => case (14, 12) => case (14, 13) => case (14, 14) => case (14, 15) =>
    case (15, 0) => case (15, 1) => case (15, 2) => case (15, 3) => case (15, 4) => case (15, 5) => case (15, 6) => case (15, 7) =>
    case (15, 8) => case (15, 9) => case (15, 10) => case (15, 11) => case (15, 12) => case (15, 13) => case (15, 14) => case (15, 15) =>
  }

  lemma EntryIsBitwise(r: nat, c: nat)
    requires r < 16 && c < 16
    ensures TableShape(r) && DSCRC_TABLE[r][c] == Eight(Xor((r as bv8) << 4, c as bv8))
  {
    hide Eight;
    FirstRow(c);
    FirstColumn(r);
    RowsAndColumns(r, c);
    EightXor((r as bv8) << 4, c as bv8);
  }

  lemma Nibbles(x: bv8)
    ensures ((x >> 4) as nat) as bv8 == x >> 4 && (x >> 4) as nat < 16
    ensures ((x & 0x0F) as nat) as bv8 == x & 0x0F && (x & 0x0F) as nat < 16
  {
    assert x >> 4 < 16;
    assert x & 0x0F < 16;
  }

  lemma Joined(x: bv8)
    ensures Xor((x >> 4) << 4, x & 0x0F) == x
  {
  }

  /** Every entry of the table is what eight bitwise steps compute. */
  lemma TableIsBitwise(x: bv8)
    ensures Lookup(x) == Eight(x)
  {
    Nibbles(x);
    Joined(x);
    hide Eight, Xor;
    EntryIsBitwise((x >> 4) as nat, (x & 0x0F) as nat);
  }
}
