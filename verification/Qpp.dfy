/**
 The internal interleaver of the turbo code, section 5.1.3.2.3 of 3GPP TS 36.212: the
 table of quadratic permutation polynomials, the closed form of the encoder, and the
 incremental loop of the decoder in both directions.
*/
module Qpp {
  import opened ModArith

  // ------------------------------------------------------------ the table

  // The number of turbo block sizes.
  const ROWS := 188

  // A block size with its polynomial. The source's table has no inverse column: inv shows that f1 is a unit modulo k.
  datatype TableRow = Row(k: nat, f1: nat, f2: nat, inv: nat) {
    // f1 has no factor in common with k, and every prime factor of k divides f2.
    predicate Permutes() {
      && 0 < k
      && f1 * inv % k == 1 % k
      && f2 * f2 * f2 * f2 * f2 * f2 * f2 % k == 0
    }
  }

  type TurboRow = r: TableRow | r.Permutes() witness Row(1, 0, 0, 0)

  function Rows0(i: nat): TurboRow {
    match i
    case 0 => Row(40, 3, 10, 27) case 1 => Row(48, 7, 12, 7) case 2 => Row(56, 19, 42, 3) case 3 => Row(64, 7, 16, 55)
    case 4 => Row(72, 7, 18, 31) case 5 => Row(80, 11, 20, 51) case 6 => Row(88, 5, 22, 53)
    case 7 => Row(96, 11, 24, 35) case 8 => Row(104, 7, 26, 15) case 9 => Row(112, 41, 84, 41)
    case 10 => Row(120, 103, 90, 7) case 11 => Row(128, 15, 32, 111) case 12 => Row(136, 9, 34, 121)
    case 13 => Row(144, 17, 108, 17) case 14 => Row(152, 9, 38, 17) case 15 => Row(160, 21, 120, 61)
    case 16 => Row(168, 101, 84, 5) case 17 => Row(176, 21, 44, 109) case 18 => Row(184, 57, 46, 113)
    case 19 => Row(192, 23, 48, 167) case 20 => Row(200, 13, 50, 77) case 21 => Row(208, 27, 52, 131)
    case 22 => Row(216, 11, 36, 59) case 23 => Row(224, 27, 56, 83) case 24 => Row(232, 85, 58, 101)
    case 25 => Row(240, 29, 60, 149) case 26 => Row(248, 33, 62, 233) case 27 => Row(256, 15, 32, 239)
    case 28 => Row(264, 17, 198, 233) case 29 => Row(272, 33, 68, 33) case 30 => Row(280, 103, 210, 87)
    case _ => Row(288, 19, 36, 91)
  }

  function Rows32(i: nat): TurboRow {
    match i
    case 0 => Row(296, 19, 74, 187) case 1 => Row(304, 37, 76, 189) case 2 => Row(312, 19, 78, 115)
    case 3 => Row(320, 21, 120, 61) case 4 => Row(328, 21, 82, 125) case 5 => Row(336, 115, 84, 187)
    case 6 => Row(344, 193, 86, 41) case 7 => Row(352, 21, 44, 285) case 8 => Row(360, 133, 90, 157)
    case 9 => Row(368, 81, 46, 209) case 10 => Row(376, 45, 94, 117) case 11 => Row(384, 23, 48, 167)
    case 12 => Row(392, 243, 98, 171) case 13 => Row(400, 151, 40, 151) case 14 => Row(408, 155, 102, 179)
    case 15 => Row(416, 25, 52, 233) case 16 => Row(424, 51, 106, 291) case 17 => Row(432, 47, 72, 239)
    case 18 => Row(440, 91, 110, 411) case 19 => Row(448, 29, 168, 309) case 20 => Row(456, 29, 114, 173)
    case 21 => Row(464, 247, 58, 263) case 22 => Row(472, 29, 118, 293) case 23 => Row(480, 89, 180, 329)
    case 24 => Row(488, 91, 122, 59) case 25 => Row(496, 157, 62, 357) case 26 => Row(504, 55, 84, 55)
    case 27 => Row(512, 31, 64, 479) case 28 => Row(528, 17, 66, 497) case 29 => Row(544, 35, 68, 171)
    case 30 => Row(560, 227, 420, 523) case _ => Row(576, 65, 96, 257)
  }

  function Rows64(i: nat): TurboRow {
    match i
    case 0 => Row(592, 19, 74, 187) case 1 => Row(608, 37, 76, 493) case 2 => Row(624, 41, 234, 137)
    case 3 => Row(640, 39, 80, 279) case 4 => Row(656, 185, 82, 617) case 5 => Row(672, 43, 252, 547)
    case 6 => Row(688, 21, 86, 557) case 7 => Row(704, 155, 44, 595) case 8 => Row(720, 79, 120, 319)
    case 9 => Row(736, 139, 92, 323) case 10 => Row(752, 23, 94, 327) case 11 => Row(768, 217, 48, 361)
    case 12 => Row(784, 25, 98, 345) case 13 => Row(800, 17, 80, 753) case 14 => Row(816, 127, 102, 559)
    case 15 => Row(832, 25, 52, 233) case 16 => Row(848, 239, 106, 479) case 17 => Row(864, 17, 48, 305)
    case 18 => Row(880, 137, 110, 713) case 19 => Row(896, 215, 112, 871) case 20 => Row(912, 29, 114, 629)
    case 21 => Row(928, 15, 58, 495) case 22 => Row(944, 147, 118, 411) case 23 => Row(960, 29, 60, 629)
    case 24 => Row(976, 59, 122, 579) case 25 => Row(992, 65, 124, 641) case 26 => Row(1008, 55, 84, 55)
    case 27 => Row(1024, 31, 64, 991) case 28 => Row(1056, 17, 66, 497) case 29 => Row(1088, 171, 204, 579)
    case 30 => Row(1120, 67, 140, 1003) case _ => Row(1152, 35, 72, 395)
  }

  function Rows96(i: nat): TurboRow {
    match i
    case 0 => Row(1184, 19, 74, 187) case 1 => Row(1216, 39, 76, 343) case 2 => Row(1248, 19, 78, 1051)
    case 3 => Row(1280, 199, 240, 759) case 4 => Row(1312, 21, 82, 125) case 5 => Row(1344, 211, 252, 1051)
    case 6 => Row(1376, 21, 86, 1245) case 7 => Row(1408, 43, 88, 131) case 8 => Row(1440, 149, 60, 29)
    case 9 => Row(1472, 45, 92, 229) case 10 => Row(1504, 49, 846, 1105) case 11 => Row(1536, 71, 48, 887)
    case 12 => Row(1568, 13, 28, 965) case 13 => Row(1600, 17, 80, 753) case 14 => Row(1632, 25, 102, 457)
    case 15 => Row(1664, 183, 104, 391) case 16 => Row(1696, 55, 954, 1511) case 17 => Row(1728, 127, 96, 1279)
    case 18 => Row(1760, 27, 110, 1043) case 19 => Row(1792, 29, 112, 309) case 20 => Row(1824, 29, 114, 629)
    case 21 => Row(1856, 57, 116, 521) case 22 => Row(1888, 45, 354, 965) case 23 => Row(1920, 31, 120, 991)
    case 24 => Row(1952, 59, 610, 1555) case 25 => Row(1984, 185, 124, 1673) case 26 => Row(2016, 113, 420, 785)
    case 27 => Row(2048, 31, 64, 991) case 28 => Row(2112, 17, 66, 497) case 29 => Row(2176, 171, 136, 1667)
    case 30 => Row(2240, 209, 420, 1329) case _ => Row(2304, 253, 216, 1621)
  }

  function Rows128(i: nat): TurboRow {
    match i
    case 0 => Row(2368, 367, 444, 271) case 1 => Row(2432, 265, 456, 569) case 2 => Row(2496, 181, 468, 1117)
    case 3 => Row(2560, 39, 80, 919) case 4 => Row(2624, 27, 164, 1555) case 5 => Row(2688, 127, 504, 127)
    case 6 => Row(2752, 143, 172, 943) case 7 => Row(2816, 43, 88, 131) case 8 => Row(2880, 29, 300, 1589)
    case 9 => Row(2944, 45, 92, 1701) case 10 => Row(3008, 157, 188, 2165) case 11 => Row(3072, 47, 96, 719)
    case 12 => Row(3136, 13, 28, 965) case 13 => Row(3200, 111, 240, 2191) case 14 => Row(3264, 443, 204, 2483)
    case 15 => Row(3328, 51, 104, 3067) case 16 => Row(3392, 51, 212, 3259) case 17 => Row(3456, 451, 192, 1387)
    case 18 => Row(3520, 257, 220, 2753) case 19 => Row(3584, 57, 336, 3081) case 20 => Row(3648, 313, 228, 1993)
    case 21 => Row(3712, 271, 232, 2671) case 22 => Row(3776, 179, 236, 443) case 23 => Row(3840, 331, 120, 1891)
    case 24 => Row(3904, 363, 244, 1667) case 25 => Row(3968, 375, 248, 455) case 26 => Row(4032, 127, 168, 127)
    case 27 => Row(4096, 31, 64, 3039) case 28 => Row(4160, 33, 130, 2017) case 29 => Row(4224, 43, 264, 2947)
    case 30 => Row(4288, 33, 134, 2209) case _ => Row(4352, 477, 408, 885)
  }

  function Rows160(i: nat): TurboRow {
    match i
    case 0 => Row(4416, 35, 138, 3659) case 1 => Row(4480, 233, 280, 4057) case 2 => Row(4544, 357, 142, 3373)
    case 3 => Row(4608, 337, 480, 1969) case 4 => Row(4672, 37, 146, 1389) case 5 => Row(4736, 71, 444, 2935)
    case 6 => Row(4800, 71, 120, 2231) case 7 => Row(4864, 37, 152, 1709) case 8 => Row(4928, 39, 462, 3159)
    case 9 => Row(4992, 127, 234, 511) case 10 => Row(5056, 39, 158, 1815) case 11 => Row(5120, 39, 80, 919)
    case 12 => Row(5184, 31, 96, 3679) case 13 => Row(5248, 113, 902, 2833) case 14 => Row(5312, 41, 166, 2073)
    case 15 => Row(5376, 251, 336, 2099) case 16 => Row(5440, 43, 170, 5187) case 17 => Row(5504, 21, 86, 2621)
    case 18 => Row(5568, 43, 174, 259) case 19 => Row(5632, 45, 176, 4005) case 20 => Row(5696, 45, 178, 2405)
    case 21 => Row(5760, 161, 120, 3041) case 22 => Row(5824, 89, 182, 4777) case 23 => Row(5888, 323, 184, 875)
    case 24 => Row(5952, 47, 186, 4559) case 25 => Row(6016, 23, 94, 1831) case 26 => Row(6080, 47, 190, 1423)
    case _ => Row(6144, 263, 480, 5303)
  }

  // Row i of table 5.1.3-3.
  function RowAt(i: nat): TurboRow
    requires i < ROWS
  {
    if i < 32 then Rows0(i)
    else if i < 64 then Rows32(i - 32)
    else if i < 96 then Rows64(i - 64)
    else if i < 128 then Rows96(i - 96)
    else if i < 160 then Rows128(i - 128)
    else Rows160(i - 160)
  }

  // ------------------------------------------------------------ the table of the decoder

  function Decoder0(i: nat): (int, int) {
    match i
    case 0 => (3, 10) case 1 => (7, 12) case 2 => (19, 42) case 3 => (7, 16) case 4 => (7, 18) case 5 => (11, 20)
    case 6 => (5, 22) case 7 => (11, 24) case 8 => (7, 26) case 9 => (41, 84) case 10 => (103, 90) case 11 => (15, 32)
    case 12 => (9, 34) case 13 => (17, 108) case 14 => (9, 38) case 15 => (21, 120) case 16 => (101, 84)
    case 17 => (21, 44) case 18 => (57, 46) case 19 => (23, 48) case 20 => (13, 50) case 21 => (27, 52)
    case 22 => (11, 36) case 23 => (27, 56) case 24 => (85, 58) case 25 => (29, 60) case 26 => (33, 62)
    case 27 => (15, 32) case 28 => (17, 198) case 29 => (33, 68) case 30 => (103, 210) case _ => (19, 36)
  }

  function Decoder32(i: nat): (int, int) {
    match i
    case 0 => (19, 74) case 1 => (37, 76) case 2 => (19, 78) case 3 => (21, 120) case 4 => (21, 82)
    case 5 => (115, 84) case 6 => (193, 86) case 7 => (21, 44) case 8 => (133, 90) case 9 => (81, 46)
    case 10 => (45, 94) case 11 => (23, 48) case 12 => (243, 98) case 13 => (151, 40) case 14 => (155, 102)
    case 15 => (25, 52) case 16 => (51, 106) case 17 => (47, 72) case 18 => (91, 110) case 19 => (29, 168)
    case 20 => (29, 114) case 21 => (247, 58) case 22 => (29, 118) case 23 => (89, 180) case 24 => (91, 122)
    case 25 => (157, 62) case 26 => (55, 84) case 27 => (31, 64) case 28 => (17, 66) case 29 => (35, 68)
    case 30 => (227, 420) case _ => (65, 96)
  }

  function Decoder64(i: nat): (int, int) {
    match i
    case 0 => (19, 74) case 1 => (37, 76) case 2 => (41, 234) case 3 => (39, 80) case 4 => (185, 82)
    case 5 => (43, 252) case 6 => (21, 86) case 7 => (155, 44) case 8 => (79, 120) case 9 => (139, 92)
    case 10 => (23, 94) case 11 => (217, 48) case 12 => (25, 98) case 13 => (17, 80) case 14 => (127, 102)
    case 15 => (25, 52) case 16 => (239, 106) case 17 => (17, 48) case 18 => (137, 110) case 19 => (215, 112)
    case 20 => (29, 114) case 21 => (15, 58) case 22 => (147, 118) case 23 => (29, 60) case 24 => (59, 122)
    case 25 => (65, 124) case 26 => (55, 84) case 27 => (31, 64) case 28 => (17, 66) case 29 => (171, 204)
    case 30 => (67, 140) case _ => (35, 72)
  }

  function Decoder96(i: nat): (int, int) {
    match i
    case 0 => (19, 74) case 1 => (39, 76) case 2 => (19, 78) case 3 => (199, 240) case 4 => (21, 82)
    case 5 => (211, 252) case 6 => (21, 86) case 7 => (43, 88) case 8 => (149, 60) case 9 => (45, 92)
    case 10 => (49, 846) case 11 => (71, 48) case 12 => (13, 28) case 13 => (17, 80) case 14 => (25, 102)
    case 15 => (183, 104) case 16 => (55, 954) case 17 => (127, 96) case 18 => (27, 110) case 19 => (29, 112)
    case 20 => (29, 114) case 21 => (57, 116) case 22 => (45, 354) case 23 => (31, 120) case 24 => (59, 610)
    case 25 => (185, 124) case 26 => (113, 420) case 27 => (31, 64) case 28 => (17, 66) case 29 => (171, 136)
    case 30 => (209, 420) case _ => (253, 216)
  }

  function Decoder128(i: nat): (int, int) {
    match i
    case 0 => (367, 444) case 1 => (265, 456) case 2 => (181, 468) case 3 => (39, 80) case 4 => (27, 164)
    case 5 => (127, 504) case 6 => (143, 172) case 7 => (43, 88) case 8 => (29, 300) case 9 => (45, 92)
    case 10 => (157, 188) case 11 => (47, 96) case 12 => (13, 28) case 13 => (111, 240) case 14 => (443, 204)
    case 15 => (51, 104) case 16 => (51, 212) case 17 => (451, 192) case 18 => (257, 220) case 19 => (57, 336)
    case 20 => (313, 228) case 21 => (271, 232) case 22 => (179, 236) case 23 => (331, 120) case 24 => (363, 244)
    case 25 => (375, 248) case 26 => (127, 168) case 27 => (31, 64) case 28 => (33, 130) case 29 => (43, 264)
    case 30 => (33, 134) case _ => (477, 408)
  }

  function Decoder160(i: nat): (int, int) {
    match i
    case 0 => (35, 138) case 1 => (233, 280) case 2 => (357, 142) case 3 => (337, 480) case 4 => (37, 146)
    case 5 => (71, 444) case 6 => (71, 120) case 7 => (37, 152) case 8 => (39, 462) case 9 => (127, 234)
    case 10 => (39, 158) case 11 => (39, 80) case 12 => (31, 96) case 13 => (113, 902) case 14 => (41, 166)
    case 15 => (251, 336) case 16 => (43, 170) case 17 => (21, 86) case 18 => (43, 174) case 19 => (45, 176)
    case 20 => (45, 178) case 21 => (161, 120) case 22 => (89, 182) case 23 => (323, 184) case 24 => (47, 186)
    case 25 => (23, 94) case 26 => (47, 190) case _ => (263, 480)
  }

  // f1 and f2 of row i as the decoder has them.
  function DecoderRow(i: nat): (int, int) {
    if i < 32 then Decoder0(i)
    else if i < 64 then Decoder32(i - 32)
    else if i < 96 then Decoder64(i - 64)
    else if i < 128 then Decoder96(i - 96)
    else if i < 160 then Decoder128(i - 128)
    else Decoder160(i - 160)
  }

  lemma Same0(i: nat)
    requires i < 32
    ensures Rows0(i).f1 == Decoder0(i).0 && Rows0(i).f2 == Decoder0(i).1
  {
  }

  lemma Same32(i: nat)
    requires i < 32
    ensures Rows32(i).f1 == Decoder32(i).0 && Rows32(i).f2 == Decoder32(i).1
  {
  }

  lemma Same64(i: nat)
    requires i < 32
    ensures Rows64(i).f1 == Decoder64(i).0 && Rows64(i).f2 == Decoder64(i).1
  {
  }

  lemma Same96(i: nat)
    requires i < 32
    ensures Rows96(i).f1 == Decoder96(i).0 && Rows96(i).f2 == Decoder96(i).1
  {
  }

  lemma Same128(i: nat)
    requires i < 32
    ensures Rows128(i).f1 == Decoder128(i).0 && Rows128(i).f2 == Decoder128(i).1
  {
  }

  lemma Same160(i: nat)
    requires i < 28
    ensures Rows160(i).f1 == Decoder160(i).0 && Rows160(i).f2 == Decoder160(i).1
  {
  }

  /** The encoder and the decoder, written in two languages, have the same table. */
  lemma TablesAgree(i: nat)
    requires i < ROWS
    ensures RowAt(i).f1 == DecoderRow(i).0 && RowAt(i).f2 == DecoderRow(i).1
  {
    hide Rows0, Rows32, Rows64, Rows96, Rows128, Rows160, Decoder0, Decoder32, Decoder64, Decoder96, Decoder128, Decoder160;
    if i < 32 {
      Same0(i);
    } else if i < 64 {
      Same32(i - 32);
    } else if i < 96 {
      Same64(i - 64);
    } else if i < 128 {
      Same96(i - 96);
    } else if i < 160 {
      Same128(i - 128);
    } else {
      Same160(i - 160);
    }
  }

  // The i-th block size: four ranges with steps 8, 16, 32 and 64.
  function SizeAt(i: nat): nat
    requires i < ROWS
  {
    if i < 60 then 40 + 8 * i
    else if i < 92 then 512 + 16 * (i - 59)
    else if i < 124 then 1024 + 32 * (i - 91)
    else 2048 + 64 * (i - 123)
  }

  predicate IsTurboSize(k: nat) {
    exists i :: 0 <= i < ROWS && SizeAt(i) == k
  }

  lemma Sizes0(i: nat)
    requires i < 32
    ensures Rows0(i).k == SizeAt(0 + i)
  {
  }

  lemma Sizes32(i: nat)
    requires i < 32
    ensures Rows32(i).k == SizeAt(32 + i)
  {
  }

  lemma Sizes64(i: nat)
    requires i < 32
    ensures Rows64(i).k == SizeAt(64 + i)
  {
  }

  lemma Sizes96(i: nat)
    requires i < 32
    ensures Rows96(i).k == SizeAt(96 + i)
  {
  }

  lemma Sizes128(i: nat)
    requires i < 32
    ensures Rows128(i).k == SizeAt(128 + i)
  {
  }

  lemma Sizes160(i: nat)
    requires i < 28
    ensures Rows160(i).k == SizeAt(160 + i)
  {
  }

  lemma RowSize(i: nat)
    requires i < ROWS
    ensures RowAt(i).k == SizeAt(i)
  {
    if i < 32 { Sizes0(i); }
    else if i < 64 { Sizes32(i - 32); }
    else if i < 96 { Sizes64(i - 64); }
    else if i < 128 { Sizes96(i - 96); }
    else if i < 160 { Sizes128(i - 128); }
    else { Sizes160(i - 160); }
  }

  // The source's shifts are divisions by powers of two.
  function FindIndK(k: nat): int {
    if k <= 512 then k / 8 - 5
    else if k <= 1024 then 59 + (k - 512) / 16
    else if k <= 2048 then 91 + (k - 1024) / 32
    else 123 + (k - 2048) / 64
  }

  /** The arithmetic row search finds the row of every legal block size. */
  lemma FindsRow(k: nat)
    requires IsTurboSize(k)
    ensures 0 <= FindIndK(k) < ROWS && RowAt(FindIndK(k)).k == k
  {
    var i :| 0 <= i < ROWS && SizeAt(i) == k;
    SearchInverts(i);
    RowSize(i);
  }

  lemma SearchInverts(i: nat)
    requires i < ROWS
    ensures FindIndK(SizeAt(i)) == i
  {
  }

  // The row the code uses for block size k.
  function RowOf(k: nat): (r: TurboRow)
    requires IsTurboSize(k)
    ensures r.k == k
  {
    FindsRow(k);
    RowAt(FindIndK(k))
  }

  // ------------------------------------------------------------ the permutation

  // The encoder's closed form.
  function Index(r: TurboRow, k: nat): (i: nat)
    ensures i < r.k
  {
    (r.f1 * k + r.f2 * k * k) % r.k
  }

  ghost predicate Cong(x: int, y: int, n: nat)
    requires 0 < n
  {
    exists q: int :: x == y + Multiple(q, n)
  }

  ghost function Multiple(q: int, n: nat): int { q * n }

  lemma CongFromMod(x: int, y: int, n: nat)
    requires 0 < n && x % n == y % n
    ensures Cong(x, y, n)
  {
    DivMod(x, n);
    DivMod(y, n);
    assert x == y + Multiple(x / n - y / n, n);
  }

  lemma CongMul(x: int, y: int, z: int, n: nat)
    requires 0 < n && Cong(x, y, n)
    ensures Cong(z * x, z * y, n)
  {
    var q: int :| x == y + Multiple(q, n);
    assert z * x == z * y + Multiple(z * q, n) by {
      assert z * (q * n) == z * q * n;
      assert z * (y + q * n) == z * y + z * (q * n);
    }
  }

  lemma CongTrans(x: int, y: int, z: int, n: nat)
    requires 0 < n && Cong(x, y, n) && Cong(y, z, n)
    ensures Cong(x, z, n)
  {
    var p: int :| x == y + Multiple(p, n);
    var q: int :| y == z + Multiple(q, n);
    assert x == z + Multiple(p + q, n);
  }

  lemma CongSym(x: int, y: int, n: nat)
    requires 0 < n && Cong(x, y, n)
    ensures Cong(y, x, n)
  {
    var q: int :| x == y + Multiple(q, n);
    assert y == x + Multiple(-q, n);
  }

  lemma CongZeroSmall(d: int, n: nat)
    requires 0 < n && Cong(d, 0, n) && d < n && -d < n
    ensures d == 0
  {
    var q: int :| d == 0 + Multiple(q, n);
    SmallMultiple(q, n);
  }

  ghost function Pow(b: int, e: nat): int {
    if e == 0 then 1 else b * Pow(b, e - 1)
  }

  lemma {:induction false} PowTimes(a: int, b: int, e: nat)
    ensures Pow(a * b, e) == Pow(a, e) * Pow(b, e)
  {
    if e > 0 {
      PowTimes(a, b, e - 1);
      Regroup(a, b, Pow(a, e - 1), Pow(b, e - 1));
    }
  }

  lemma Regroup(a: int, b: int, x: int, y: int)
    ensures a * b * (x * y) == a * x * (b * y)
  {
    assert a * b * (x * y) == a * (b * (x * y));
    assert b * (x * y) == x * (b * y);
    assert a * (x * (b * y)) == a * x * (b * y);
  }

  // If x d = y d modulo n then x^e d = y^e d.
  lemma {:induction false} CongPow(x: int, y: int, d: int, e: nat, n: nat)
    requires 0 < n && Cong(x * d, y * d, n)
    ensures Cong(Pow(x, e) * d, Pow(y, e) * d, n)
  {
    if e == 0 {
      assert d == d + Multiple(0, n);
    } else {
      CongPow(x, y, d, e - 1, n);
      var p, q := Pow(x, e - 1), Pow(y, e - 1);
      CongMul(p * d, q * d, x, n);
      CongMul(x * d, y * d, q, n);
      assert x * (p * d) == x * p * d && x * (q * d) == q * (x * d) && q * (y * d) == y * q * d;
      CongTrans(x * p * d, q * (x * d), y * q * d, n);
    }
  }

  /**
   What makes a polynomial f1 x + f2 x^2 permute the residues modulo n: f1 has the inverse
   inv, and n divides a power of f2, that is, every prime factor of n divides f2.
  */
  ghost predicate UnitAndNilpotent(n: nat, f1: int, f2: int, inv: int, e: nat) {
    0 < n && f1 * inv % n == 1 % n && Pow(f2, e) % n == 0
  }

  // A sum of a unit and a nilpotent can be cancelled.
  lemma CancelUnit(n: nat, f1: int, f2: int, inv: int, e: nat, s: int, d: int)
    requires UnitAndNilpotent(n, f1, f2, inv, e)
    requires Cong((f1 + f2 * s) * d, 0, n)
    ensures Cong(d, 0, n)
  {
    var y := -(f2 * s);
    assert (f1 + f2 * s) * d == f1 * d - y * d;
    var q: int :| f1 * d - y * d == 0 + Multiple(q, n);
    assert f1 * d == y * d + Multiple(q, n);
    CongPow(f1, y, d, e, n);
    NilpotentPower(n, f2, e, s, d);
    CongTrans(Pow(f1, e) * d, Pow(y, e) * d, 0, n);
    UnitPower(n, f1, inv, e, d);
  }

  lemma Pow7(b: int)
    ensures Pow(b, 7) == b * b * b * b * b * b * b
  {
    assert Pow(b, 1) == b * Pow(b, 0) == b;
    assert Pow(b, 2) == b * Pow(b, 1) == b * b;
    assert Pow(b, 3) == b * Pow(b, 2) == b * b * b;
    assert Pow(b, 4) == b * Pow(b, 3) == b * b * b * b;
    assert Pow(b, 5) == b * Pow(b, 4) == b * b * b * b * b;
    assert Pow(b, 6) == b * Pow(b, 5) == b * b * b * b * b * b;
  }

  lemma NilpotentPower(n: nat, f: int, e: nat, s: int, d: int)
    requires 0 < n && Pow(f, e) % n == 0
    ensures Cong(Pow(-(f * s), e) * d, 0, n)
  {
    CongFromMod(Pow(f, e), 0, n);
    assert -(f * s) == f * -s;
    PowTimes(f, -s, e);
    var z := Pow(-s, e) * d;
    CongMul(Pow(f, e), 0, z, n);
    assert Pow(f, e) * Pow(-s, e) * d == z * Pow(f, e);
  }

  lemma SwapFactors(p: int, q: int, d: int)
    ensures p * q * d == q * (p * d) && q * p == p * q
  {
  }

  lemma UnitPower(n: nat, f: int, inv: int, e: nat, d: int)
    requires 0 < n && f * inv % n == 1 % n && Cong(Pow(f, e) * d, 0, n)
    ensures Cong(d, 0, n)
  {
    var p, q := Pow(f, e), Pow(inv, e);
    CongMul(p * d, 0, q, n);
    CongFromMod(f * inv, 1, n);
    CongMul(f * inv, 1, d, n);
    SwapFactors(f * inv, d, 1);
    CongPow(f * inv, 1, d, e, n);
    PowTimes(f, inv, e);
    OnePower(e);
    SwapFactors(p, q, d);
    CongSym(p * q * d, 1 * d, n);
    CongTrans(d, p * q * d, 0, n);
  }

  lemma OnePower(e: nat)
    ensures Pow(1, e) == 1
  {
  }

  /** Such a polynomial takes no residue twice, for any n and any such coefficients. */
  lemma PolynomialInjective(n: nat, f1: int, f2: int, inv: int, e: nat, a: nat, b: nat)
    requires UnitAndNilpotent(n, f1, f2, inv, e) && a < n && b < n
    requires (f1 * a + f2 * a * a) % n == (f1 * b + f2 * b * b) % n
    ensures a == b
  {
    var x, y := f1 * a + f2 * a * a, f1 * b + f2 * b * b;
    CongFromMod(x, y, n);
    var q: int :| x == y + Multiple(q, n);
    FactorDifference(f1, f2, a, b);
    assert (f1 + f2 * (a + b)) * (a - b) == 0 + Multiple(q, n);
    CancelUnit(n, f1, f2, inv, e, a + b, a - b);
    CongZeroSmall(a - b, n);
  }

  /** The interleaver of a legal block size never hits an index twice. */
  lemma IndexInjective(r: TurboRow, a: nat, b: nat)
    requires a < r.k && b < r.k && Index(r, a) == Index(r, b)
    ensures a == b
  {
    Pow7(r.f2);
    PolynomialInjective(r.k, r.f1, r.f2, r.inv, 7, a, b);
  }

  lemma FactorDifference(f1: int, f2: int, a: int, b: int)
    ensures (f1 + f2 * (a + b)) * (a - b) == f1 * a + f2 * a * a - (f1 * b + f2 * b * b)
  {
    assert (f1 + f2 * (a + b)) * (a - b) == f1 * (a - b) + f2 * (a + b) * (a - b);
    assert f2 * (a + b) * (a - b) == f2 * ((a + b) * (a - b));
    assert (a + b) * (a - b) == a * a - b * b;
    assert f2 * (a * a - b * b) == f2 * a * a - f2 * b * b;
  }

  // The indices of the first n inputs.
  ghost function Image(r: TurboRow, n: nat): set<nat>
    requires n <= r.k
  {
    set k: nat | k < n :: Index(r, k)
  }

  lemma {:induction false} ImageSize(r: TurboRow, n: nat)
    requires n <= r.k
    ensures |Image(r, n)| == n
  {
    if n == 0 {
      assert Image(r, n) == {};
    } else {
      ImageSize(r, n - 1);
      forall k: nat | k < n - 1
        ensures Index(r, k) != Index(r, n - 1)
      {
        if Index(r, k) == Index(r, n - 1) {
          IndexInjective(r, k, n - 1);
        }
      }
      assert Image(r, n) == Image(r, n - 1) + {Index(r, n - 1)};
    }
  }

  ghost function Below(n: nat): (s: set<nat>)
    ensures |s| == n && forall i: nat :: i in s <==> i < n
  {
    if n == 0 then {} else Below(n - 1) + {n - 1}
  }

  lemma SubsetOfSameSize(a: set<nat>, b: set<nat>)
    requires a <= b && |a| == |b|
    ensures a == b
  {
    assert b == a + (b - a);
  }

  /** The polynomial hits every index: with injectivity, it is a permutation. */
  lemma IndexSurjective(r: TurboRow, m: nat) returns (k: nat)
    requires m < r.k
    ensures k < r.k && Index(r, k) == m
  {
    ImageSize(r, r.k);
    SubsetOfSameSize(Image(r, r.k), Below(r.k));
    assert m in Image(r, r.k);
    k :| k < r.k && Index(r, k) == m;
  }

  // ------------------------------------------------------------ the decoder's loop

  // One step of the incremental index.
  lemma IndexStep(r: TurboRow, k: nat)
    ensures (Index(r, k) + r.f1 + r.f2 * (2 * k + 1)) % r.k == Index(r, k + 1)
  {
    var x := r.f1 * k + r.f2 * k * k;
    ModAdd(x, r.f1 + r.f2 * (2 * k + 1), r.k);
    SquareStep(r.f1, r.f2, k);
  }

  lemma SquareStep(f1: int, f2: int, k: int)
    ensures f1 * k + f2 * k * k + (f1 + f2 * (2 * k + 1)) == f1 * (k + 1) + f2 * (k + 1) * (k + 1)
  {
    assert f2 * (k + 1) * (k + 1) == f2 * ((k + 1) * (k + 1));
    assert (k + 1) * (k + 1) == k * k + (2 * k + 1);
    assert f2 * (k * k + (2 * k + 1)) == f2 * k * k + f2 * (2 * k + 1);
  }

  // y is x read through the permutation.
  ghost predicate Interleaves<T>(r: TurboRow, x: seq<T>, y: seq<T>) {
    |x| == |y| == r.k && forall k :: 0 <= k < r.k ==> y[k] == x[Index(r, k)]
  }

  /** Both modes of the loop, for every legal block size. */
  method Interleave(output: array<int>, input: seq<int>, len: nat, deinterleave: bool)
    requires IsTurboSize(len) && output.Length == len == |input|
    modifies output
    ensures deinterleave ==> Interleaves(RowOf(len), output[..], input)
    ensures !deinterleave ==> Interleaves(RowOf(len), input, output[..])
  {
    var r := RowOf(len);
    InterleaveWith(output, input, r, deinterleave);
  }

  method InterleaveWith(output: array<int>, input: seq<int>, r: TurboRow, deinterleave: bool)
    requires output.Length == r.k == |input|
    modifies output
    ensures deinterleave ==> Interleaves(r, output[..], input)
    ensures !deinterleave ==> Interleaves(r, input, output[..])
  {
    var ind := 0;
    for k := 0 to r.k
      invariant ind == Index(r, k)
      invariant deinterleave ==> forall j :: 0 <= j < k ==> output[Index(r, j)] == input[j]
      invariant !deinterleave ==> forall j :: 0 <= j < k ==> output[j] == input[Index(r, j)]
    {
      if deinterleave {
        forall j | 0 <= j < k
          ensures Index(r, j) != Index(r, k)
        {
          if Index(r, j) == Index(r, k) {
            IndexInjective(r, j, k);
          }
        }
        output[ind] := input[k];
      } else {
        output[k] := input[ind];
      }
      IndexStep(r, k);
      ind := (ind + r.f1 + r.f2 * (2 * k + 1)) % r.k;
    }
  }

  /** The deinterleave mode undoes the interleave mode, and the other way round. */
  lemma DeinterleaveUndoes<T>(r: TurboRow, x: seq<T>, y: seq<T>, z: seq<T>)
    requires Interleaves(r, x, y) && Interleaves(r, z, y)
    ensures z == x
  {
    forall m | 0 <= m < r.k
      ensures z[m] == x[m]
    {
      var k := IndexSurjective(r, m);
    }
  }
}
