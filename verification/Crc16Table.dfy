/** The table behind the client's CRC16, and why it is right: each entry is one register shift away
    from the entry for half its index. */
module Crc16Table {

  // 256 entries, eight to a row as the source lays them out.
  const ROW0: seq<nat> := [0x0000, 0x1021, 0x2042, 0x3063, 0x4084, 0x50a5, 0x60c6, 0x70e7]
  const ROW1: seq<nat> := [0x8108, 0x9129, 0xa14a, 0xb16b, 0xc18c, 0xd1ad, 0xe1ce, 0xf1ef]
  const ROW2: seq<nat> := [0x1231, 0x0210, 0x3273, 0x2252, 0x52b5, 0x4294, 0x72f7, 0x62d6]
  const ROW3: seq<nat> := [0x9339, 0x8318, 0xb37b, 0xa35a, 0xd3bd, 0xc39c, 0xf3ff, 0xe3de]
  const ROW4: seq<nat> := [0x2462, 0x3443, 0x0420, 0x1401, 0x64e6, 0x74c7, 0x44a4, 0x5485]
  const ROW5: seq<nat> := [0xa56a, 0xb54b, 0x8528, 0x9509, 0xe5ee, 0xf5cf, 0xc5ac, 0xd58d]
  const ROW6: seq<nat> := [0x3653, 0x2672, 0x1611, 0x0630, 0x76d7, 0x66f6, 0x5695, 0x46b4]
  const ROW7: seq<nat> := [0xb75b, 0xa77a, 0x9719, 0x8738, 0xf7df, 0xe7fe, 0xd79d, 0xc7bc]
  const ROW8: seq<nat> := [0x48c4, 0x58e5, 0x6886, 0x78a7, 0x0840, 0x1861, 0x2802, 0x3823]
  const ROW9: seq<nat> := [0xc9cc, 0xd9ed, 0xe98e, 0xf9af, 0x8948, 0x9969, 0xa90a, 0xb92b]
  const ROW10: seq<nat> := [0x5af5, 0x4ad4, 0x7ab7, 0x6a96, 0x1a71, 0x0a50, 0x3a33, 0x2a12]
  const ROW11: seq<nat> := [0xdbfd, 0xcbdc, 0xfbbf, 0xeb9e, 0x9b79, 0x8b58, 0xbb3b, 0xab1a]
  const ROW12: seq<nat> := [0x6ca6, 0x7c87, 0x4ce4, 0x5cc5, 0x2c22, 0x3c03, 0x0c60, 0x1c41]
  const ROW13: seq<nat> := [0xedae, 0xfd8f, 0xcdec, 0xddcd, 0xad2a, 0xbd0b, 0x8d68, 0x9d49]
  const ROW14: seq<nat> := [0x7e97, 0x6eb6, 0x5ed5, 0x4ef4, 0x3e13, 0x2e32, 0x1e51, 0x0e70]
  const ROW15: seq<nat> := [0xff9f, 0xefbe, 0xdfdd, 0xcffc, 0xbf1b, 0xaf3a, 0x9f59, 0x8f78]
  const ROW16: seq<nat> := [0x9188, 0x81a9, 0xb1ca, 0xa1eb, 0xd10c, 0xc12d, 0xf14e, 0xe16f]
  const ROW17: seq<nat> := [0x1080, 0x00a1, 0x30c2, 0x20e3, 0x5004, 0x4025, 0x7046, 0x6067]
  const ROW18: seq<nat> := [0x83b9, 0x9398, 0xa3fb, 0xb3da, 0xc33d, 0xd31c, 0xe37f, 0xf35e]
  const ROW19: seq<nat> := [0x02b1, 0x1290, 0x22f3, 0x32d2, 0x4235, 0x5214, 0x6277, 0x7256]
  const ROW20: seq<nat> := [0xb5ea, 0xa5cb, 0x95a8, 0x8589, 0xf56e, 0xe54f, 0xd52c, 0xc50d]
  const ROW21: seq<nat> := [0x34e2, 0x24c3, 0x14a0, 0x0481, 0x7466, 0x6447, 0x5424, 0x4405]
  const ROW22: seq<nat> := [0xa7db, 0xb7fa, 0x8799, 0x97b8, 0xe75f, 0xf77e, 0xc71d, 0xd73c]
  const ROW23: seq<nat> := [0x26d3, 0x36f2, 0x0691, 0x16b0, 0x6657, 0x7676, 0x4615, 0x5634]
  const ROW24: seq<nat> := [0xd94c, 0xc96d, 0xf90e, 0xe92f, 0x99c8, 0x89e9, 0xb98a, 0xa9ab]
  const ROW25: seq<nat> := [0x5844, 0x4865, 0x7806, 0x6827, 0x18c0, 0x08e1, 0x3882, 0x28a3]
  const ROW26: seq<nat> := [0xcb7d, 0xdb5c, 0xeb3f, 0xfb1e, 0x8bf9, 0x9bd8, 0xabbb, 0xbb9a]
  const ROW27: seq<nat> := [0x4a75, 0x5a54, 0x6a37, 0x7a16, 0x0af1, 0x1ad0, 0x2ab3, 0x3a92]
  const ROW28: seq<nat> := [0xfd2e, 0xed0f, 0xdd6c, 0xcd4d, 0xbdaa, 0xad8b, 0x9de8, 0x8dc9]
  const ROW29: seq<nat> := [0x7c26, 0x6c07, 0x5c64, 0x4c45, 0x3ca2, 0x2c83, 0x1ce0, 0x0cc1]
  const ROW30: seq<nat> := [0xef1f, 0xff3e, 0xcf5d, 0xdf7c, 0xaf9b, 0xbfba, 0x8fd9, 0x9ff8]
  const ROW31: seq<nat> := [0x6e17, 0x7e36, 0x4e55, 0x5e74, 0x2e93, 0x3eb2, 0x0ed1, 0x1ef0]

  const TABLE: seq<seq<nat>> := [
    ROW0, ROW1, ROW2, ROW3, ROW4, ROW5, ROW6, ROW7,
    ROW8, ROW9, ROW10, ROW11, ROW12, ROW13, ROW14, ROW15,
    ROW16, ROW17, ROW18, ROW19, ROW20, ROW21, ROW22, ROW23,
    ROW24, ROW25, ROW26, ROW27, ROW28, ROW29, ROW30, ROW31
  ]

  lemma TableShape()
    ensures |TABLE| == 32 && forall r :: 0 <= r < 32 ==> |TABLE[r]| == 8
  {}

  function Entry(x: nat): nat
    requires x < 256
  {
    TableShape();
    TABLE[x / 8][x % 8]
  }

  /** What changing the bit of weight `w` adds to `n`. */
  function Change(n: nat, w: nat): int
    requires w > 0
  {
    if n / w % 2 == 1 then 0 - w else w
  }

  /** One shift of a 16-bit register with feedback 0x1021, on numbers. */
  function Shift(crc: nat, bit: bool): int {
    var shifted := if crc < 0x8000 then crc * 2 else crc * 2 - 0x10000;
    if (crc >= 0x8000) != bit then shifted + Change(shifted, 0x1000) + Change(shifted, 0x20) + 1
    else shifted
  }

  /** The entries for `2 * x` and `2 * x + 1`, for four consecutive `x`. */
  function Children(parents: seq<nat>): seq<int>
    requires |parents| == 4
  {
    [Shift(parents[0], false), Shift(parents[0], true), Shift(parents[1], false), Shift(parents[1], true),
     Shift(parents[2], false), Shift(parents[2], true), Shift(parents[3], false), Shift(parents[3], true)]
  }

  lemma Rows0to3()
    ensures |ROW0| == 8 && ROW0 == Children(ROW0[..4])
    ensures |ROW0| == 8 && ROW1 == Children(ROW0[4..])
    ensures |ROW1| == 8 && ROW2 == Children(ROW1[..4])
    ensures |ROW1| == 8 && ROW3 == Children(ROW1[4..])
  {}

  lemma Rows4to7()
    ensures |ROW2| == 8 && ROW4 == Children(ROW2[..4])
    ensures |ROW2| == 8 && ROW5 == Children(ROW2[4..])
    ensures |ROW3| == 8 && ROW6 == Children(ROW3[..4])
    ensures |ROW3| == 8 && ROW7 == Children(ROW3[4..])
  {}

  lemma Rows8to11()
    ensures |ROW4| == 8 && ROW8 == Children(ROW4[..4])
    ensures |ROW4| == 8 && ROW9 == Children(ROW4[4..])
    ensures |ROW5| == 8 && ROW10 == Children(ROW5[..4])
    ensures |ROW5| == 8 && ROW11 == Children(ROW5[4..])
  {}

  lemma Rows12to15()
    ensures |ROW6| == 8 && ROW12 == Children(ROW6[..4])
    ensures |ROW6| == 8 && ROW13 == Children(ROW6[4..])
    ensures |ROW7| == 8 && ROW14 == Children(ROW7[..4])
    ensures |ROW7| == 8 && ROW15 == Children(ROW7[4..])
  {}

  lemma Rows16to19()
    ensures |ROW8| == 8 && ROW16 == Children(ROW8[..4])
    ensures |ROW8| == 8 && ROW17 == Children(ROW8[4..])
    ensures |ROW9| == 8 && ROW18 == Children(ROW9[..4])
    ensures |ROW9| == 8 && ROW19 == Children(ROW9[4..])
  {}

  lemma Rows20to23()
    ensures |ROW10| == 8 && ROW20 == Children(ROW10[..4])
    ensures |ROW10| == 8 && ROW21 == Children(ROW10[4..])
    ensures |ROW11| == 8 && ROW22 == Children(ROW11[..4])
    ensures |ROW11| == 8 && ROW23 == Children(ROW11[4..])
  {}

  lemma Rows24to27()
    ensures |ROW12| == 8 && ROW24 == Children(ROW12[..4])
    ensures |ROW12| == 8 && ROW25 == Children(ROW12[4..])
    ensures |ROW13| == 8 && ROW26 == Children(ROW13[..4])
    ensures |ROW13| == 8 && ROW27 == Children(ROW13[4..])
  {}

  lemma Rows28to31()
    ensures |ROW14| == 8 && ROW28 == Children(ROW14[..4])
    ensures |ROW14| == 8 && ROW29 == Children(ROW14[4..])
    ensures |ROW15| == 8 && ROW30 == Children(ROW15[..4])
    ensures |ROW15| == 8 && ROW31 == Children(ROW15[4..])
  {}

  lemma LowRowsFromParents(r: nat)
    requires r < 16
    ensures |TABLE| == 32 && |TABLE[r / 2]| == 8
    ensures TABLE[r] == Children(if r % 2 == 0 then TABLE[r / 2][..4] else TABLE[r / 2][4..])
  {
    hide Children, Shift;
    TableShape();
    if r < 4 { Rows0to3(); } else if r < 8 { Rows4to7(); } else if r < 12 { Rows8to11(); } else { Rows12to15(); }
  }

  lemma HighRowsFromParents(r: nat)
    requires 16 <= r < 32
    ensures |TABLE| == 32 && |TABLE[r / 2]| == 8
    ensures TABLE[r] == Children(if r % 2 == 0 then TABLE[r / 2][..4] else TABLE[r / 2][4..])
  {
    hide Children, Shift;
    TableShape();
    if r < 20 { Rows16to19(); } else if r < 24 { Rows20to23(); } else if r < 28 { Rows24to27(); } else { Rows28to31(); }
  }

  lemma EntryIsShift(x: nat)
    requires x < 256
    ensures Entry(x) == Shift(Entry(x / 2), x % 2 == 1)
  {
    hide TABLE, Shift;
    TableShape();
    if x < 128 { LowRowsFromParents(x / 8); } else { HighRowsFromParents(x / 8); }
    assert x / 2 / 8 == x / 8 / 2;
  }

  lemma EntryOfZero()
    ensures Entry(0) == 0
  {}
}
