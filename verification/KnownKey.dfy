/** A known answer for the key schedule and the stream: a key of RFC 6229, with all rounds of its
    schedule. */
module KnownKey {
  import opened Bits
  import opened Rc4s
  import opened KeyStreams

  /** The 128-bit key of RFC 6229. */
  const KEY: seq<Byte> := [1, 2, 3, 4, 5, 6, 7, 8, 9, 10, 11, 12, 13, 14, 15, 16]

  /** Round n of its schedule, and place n: the place that round n exchanges with its own, what
      it finds in its own; and the rounds that exchange with place n: the
      last one before round n, the first one and the last one of all, with -1 and 256 for none. */
  function Trace(n: nat): (int, int, int, int, int) {
    if n < 64 then (if n < 16 then Rounds0(n) else if n < 32 then Rounds16(n) else if n < 48 then Rounds32(n) else Rounds48(n)) else
    if n < 128 then (if n < 80 then Rounds64(n) else if n < 96 then Rounds80(n) else if n < 112 then Rounds96(n) else Rounds112(n)) else
    if n < 192 then (if n < 144 then Rounds128(n) else if n < 160 then Rounds144(n) else if n < 176 then Rounds160(n) else Rounds176(n)) else
    if n < 208 then Rounds192(n) else if n < 224 then Rounds208(n) else if n < 240 then Rounds224(n) else Rounds240(n)
  }

  function Rounds0(n: nat): (int, int, int, int, int) {
    match n
    case 0 => (1, 0, -1, 256, -1) case 1 => (3, 0, 0, 0, 0) case 2 => (8, 2, -1, 26, 33) case 3 => (12, 0, 1, 1, 139)
    case 4 => (21, 4, -1, 64, 85) case 5 => (32, 5, -1, 75, 75) case 6 => (45, 6, -1, 256, -1) case 7 => (60, 7, -1, 234, 234)
    case 8 => (71, 2, 2, 2, 2) case 9 => (90, 9, -1, 189, 189) case 10 => (111, 10, -1, 108, 108) case 11 => (134, 11, -1, 256, -1)
    case 12 => (147, 0, 3, 3, 68) case 13 => (174, 13, -1, 191, 191) case 14 => (203, 14, -1, 17, 162) case _ => (234, 15, -1, 88, 88)
  }

  function Rounds16(n: nat): (int, int, int, int, int) {
    match n
    case 16 => (251, 16, -1, 256, -1) case 17 => (14, 17, -1, 126, 126) case 18 => (35, 18, -1, 256, -1) case 19 => (58, 19, -1, 185, 185)
    case 20 => (83, 20, -1, 256, -1) case 21 => (93, 4, 4, 4, 4) case 22 => (122, 22, -1, 59, 209) case 23 => (153, 23, -1, 256, -1)
    case 24 => (186, 24, -1, 147, 147) case 25 => (221, 25, -1, 40, 81) case 26 => (2, 26, -1, 106, 106) case 27 => (41, 27, -1, 256, -1)
    case 28 => (82, 28, -1, 171, 171) case 29 => (125, 29, -1, 256, -1) case 30 => (170, 30, -1, 130, 130) case _ => (217, 31, -1, 256, -1)
  }

  function Rounds32(n: nat): (int, int, int, int, int) {
    match n
    case 32 => (223, 5, 5, 5, 167) case 33 => (2, 33, -1, 128, 128) case 34 => (39, 34, -1, 256, -1) case 35 => (61, 18, 18, 18, 204)
    case 36 => (102, 36, -1, 183, 183) case 37 => (145, 37, -1, 103, 103) case 38 => (190, 38, -1, 114, 114) case 39 => (232, 34, 34, 34, 145)
    case 40 => (25, 40, -1, 121, 121) case 41 => (62, 27, 27, 27, 152) case 42 => (115, 42, -1, 60, 249) case 43 => (170, 43, -1, 256, -1)
    case 44 => (227, 44, -1, 256, -1) case 45 => (247, 6, 6, 6, 55) case 46 => (52, 46, -1, 196, 196) case _ => (115, 47, -1, 169, 250)
  }

  function Rounds48(n: nat): (int, int, int, int, int) {
    match n
    case 48 => (164, 48, -1, 256, -1) case 49 => (215, 49, -1, 256, -1) case 50 => (12, 50, -1, 95, 104) case 51 => (67, 51, -1, 256, -1)
    case 52 => (118, 46, 46, 46, 46) case 53 => (177, 53, -1, 256, -1) case 54 => (238, 54, -1, 256, -1) case 55 => (45, 55, -1, 256, -1)
    case 56 => (110, 56, -1, 82, 82) case 57 => (177, 57, -1, 256, -1) case 58 => (207, 19, 19, 19, 133) case 59 => (22, 59, -1, 164, 164)
    case 60 => (42, 7, 7, 7, 7) case 61 => (74, 18, 35, 35, 35) case 62 => (116, 27, 41, 41, 190) case _ => (195, 63, -1, 156, 156)
  }

  function Rounds64(n: nat): (int, int, int, int, int) {
    match n
    case 64 => (4, 64, -1, 256, -1) case 65 => (71, 65, -1, 256, -1) case 66 => (140, 66, -1, 256, -1) case 67 => (195, 51, 51, 51, 51)
    case 68 => (12, 68, -1, 216, 216) case 69 => (87, 69, -1, 256, -1) case 70 => (164, 70, -1, 159, 159) case 71 => (237, 65, 65, 8, 65)
    case 72 => (62, 72, -1, 201, 201) case 73 => (145, 73, -1, 122, 122) case 74 => (174, 18, 61, 61, 153) case 75 => (5, 75, -1, 251, 251)
    case 76 => (94, 76, -1, 149, 246) case 77 => (185, 77, -1, 213, 213) case 78 => (22, 78, -1, 256, -1) case _ => (117, 79, -1, 245, 245)
  }

  function Rounds80(n: nat): (int, int, int, int, int) {
    match n
    case 80 => (198, 80, -1, 83, 98) case 81 => (25, 81, -1, 256, -1) case 82 => (56, 28, 28, 28, 140) case 83 => (80, 20, 20, 20, 20)
    case 84 => (169, 84, -1, 176, 252) case 85 => (4, 85, -1, 256, -1) case 86 => (97, 86, -1, 92, 194) case 87 => (174, 69, 69, 69, 112)
    case 88 => (15, 88, -1, 256, -1) case 89 => (114, 89, -1, 115, 124) case 90 => (134, 9, 9, 9, 247) case 91 => (237, 91, -1, 243, 248)
    case 92 => (86, 92, -1, 256, -1) case 93 => (104, 4, 21, 21, 21) case 94 => (195, 76, 76, 76, 76) case _ => (50, 95, -1, 256, -1)
  }

  function Rounds96(n: nat): (int, int, int, int, int) {
    match n
    case 96 => (147, 96, -1, 256, -1) case 97 => (235, 86, 86, 86, 86) case 98 => (80, 98, -1, 256, -1) case 99 => (183, 99, -1, 215, 215)
    case 100 => (32, 100, -1, 242, 242) case 101 => (139, 101, -1, 170, 170) case 102 => (182, 36, 36, 36, 36) case 103 => (37, 103, -1, 256, -1)
    case 104 => (50, 4, 93, 93, 239) case 105 => (165, 105, -1, 161, 161) case 106 => (26, 106, -1, 136, 136) case 107 => (145, 107, -1, 256, -1)
    case 108 => (10, 108, -1, 208, 208) case 109 => (133, 109, -1, 256, -1) case 110 => (204, 56, 56, 56, 56) case _ => (230, 10, 10, 10, 241)
  }

  function Rounds112(n: nat): (int, int, int, int, int) {
    match n
    case 112 => (87, 112, -1, 256, -1) case 113 => (202, 113, -1, 166, 166) case 114 => (38, 89, 89, 89, 89) case 115 => (89, 47, 47, 42, 47)
    case 116 => (121, 27, 62, 62, 62) case 117 => (206, 79, 79, 79, 200) case 118 => (3, 46, 52, 52, 52) case 119 => (130, 119, -1, 256, -1)
    case 120 => (3, 120, -1, 256, -1) case 121 => (40, 27, 116, 116, 237) case 122 => (73, 22, 22, 22, 22) case 123 => (208, 123, -1, 256, -1)
    case 124 => (89, 124, -1, 240, 240) case 125 => (132, 29, 29, 29, 29) case 126 => (17, 126, -1, 256, -1) case _ => (160, 127, -1, 198, 198)
  }

  function Rounds128(n: nat): (int, int, int, int, int) {
    match n
    case 128 => (33, 128, -1, 256, -1) case 129 => (164, 129, -1, 256, -1) case 130 => (30, 119, 119, 119, 119) case 131 => (165, 131, -1, 256, -1)
    case 132 => (199, 29, 125, 125, 125) case 133 => (58, 109, 109, 109, 109) case 134 => (74, 9, 90, 11, 90) case 135 => (217, 135, -1, 256, -1)
    case 136 => (106, 136, -1, 151, 151) case 137 => (253, 137, -1, 256, -1) case 138 => (146, 138, -1, 142, 220) case 139 => (3, 101, 101, 101, 101)
    case 140 => (82, 66, 66, 66, 226) case 141 => (237, 141, -1, 256, -1) case 142 => (138, 142, -1, 181, 181) case _ => (41, 143, -1, 256, -1)
  }

  function Rounds144(n: nat): (int, int, int, int, int) {
    match n
    case 144 => (186, 144, -1, 173, 173) case 145 => (39, 107, 107, 37, 193) case 146 => (180, 138, 138, 138, 138) case 147 => (24, 96, 96, 12, 96)
    case 148 => (177, 148, -1, 256, -1) case 149 => (76, 149, -1, 227, 227) case 150 => (233, 150, -1, 155, 155) case 151 => (136, 151, -1, 158, 158)
    case 152 => (41, 152, -1, 256, -1) case 153 => (74, 23, 23, 23, 23) case 154 => (239, 154, -1, 256, -1) case 155 => (150, 155, -1, 212, 212)
    case 156 => (63, 156, -1, 256, -1) case 157 => (234, 157, -1, 229, 231) case 158 => (151, 158, -1, 256, -1) case _ => (70, 159, -1, 178, 178)
  }

  function Rounds160(n: nat): (int, int, int, int, int) {
    match n
    case 160 => (198, 127, 127, 127, 127) case 161 => (105, 161, -1, 219, 219) case 162 => (14, 162, -1, 256, -1) case 163 => (181, 163, -1, 175, 175)
    case 164 => (59, 129, 129, 48, 199) case 165 => (196, 131, 131, 105, 131) case 166 => (113, 166, -1, 195, 195) case 167 => (32, 167, -1, 225, 225)
    case 168 => (209, 168, -1, 256, -1) case 169 => (47, 84, 84, 84, 84) case 170 => (101, 43, 43, 30, 43) case 171 => (28, 171, -1, 256, -1)
    case 172 => (213, 172, -1, 256, -1) case 173 => (144, 173, -1, 256, -1) case 174 => (228, 69, 87, 13, 230) case _ => (163, 175, -1, 256, -1)
  }

  function Rounds176(n: nat): (int, int, int, int, int) {
    match n
    case 176 => (84, 176, -1, 256, -1) case 177 => (234, 148, 148, 53, 221) case 178 => (159, 178, -1, 256, -1) case 179 => (86, 179, -1, 256, -1)
    case 180 => (229, 138, 146, 146, 146) case 181 => (142, 163, 163, 163, 163) case 182 => (185, 36, 102, 102, 102) case 183 => (36, 99, 99, 99, 99)
    case 184 => (229, 184, -1, 256, -1) case 185 => (19, 36, 182, 77, 182) case 186 => (174, 144, 144, 24, 218) case 187 => (117, 187, -1, 256, -1)
    case 188 => (62, 188, -1, 256, -1) case 189 => (9, 189, -1, 256, -1) case 190 => (62, 38, 38, 38, 238) case _ => (13, 191, -1, 256, -1)
  }

  function Rounds192(n: nat): (int, int, int, int, int) {
    match n
    case 192 => (206, 192, -1, 256, -1) case 193 => (145, 193, -1, 256, -1) case 194 => (86, 194, -1, 211, 211) case 195 => (166, 76, 94, 63, 94)
    case 196 => (46, 131, 165, 165, 224) case 197 => (249, 197, -1, 256, -1) case 198 => (127, 127, 160, 80, 160) case 199 => (164, 29, 132, 132, 254)
    case 200 => (117, 200, -1, 232, 232) case 201 => (72, 201, -1, 256, -1) case 202 => (196, 113, 113, 113, 113) case 203 => (222, 14, 14, 14, 14)
    case 204 => (35, 56, 110, 110, 110) case 205 => (254, 205, -1, 206, 206) case 206 => (205, 192, 192, 117, 222) case _ => (240, 19, 58, 58, 58)
  }

  function Rounds208(n: nat): (int, int, int, int, int) {
    match n
    case 208 => (108, 123, 123, 123, 123) case 209 => (22, 168, 168, 168, 168) case 210 => (235, 210, -1, 256, -1) case 211 => (194, 211, -1, 256, -1)
    case 212 => (155, 212, -1, 256, -1) case 213 => (77, 172, 172, 172, 217) case 214 => (42, 214, -1, 255, 255) case 215 => (99, 49, 49, 49, 49)
    case 216 => (68, 216, -1, 256, -1) case 217 => (213, 135, 135, 31, 135) case 218 => (186, 218, -1, 256, -1) case 219 => (161, 219, -1, 256, -1)
    case 220 => (138, 220, -1, 256, -1) case 221 => (177, 25, 25, 25, 25) case 222 => (206, 14, 203, 203, 236) case _ => (227, 5, 32, 32, 228)
  }

  function Rounds224(n: nat): (int, int, int, int, int) {
    match n
    case 224 => (196, 224, -1, 256, -1) case 225 => (167, 225, -1, 256, -1) case 226 => (140, 226, -1, 256, -1) case 227 => (149, 5, 223, 44, 223)
    case 228 => (223, 69, 174, 174, 174) case 229 => (157, 184, 184, 180, 235) case 230 => (174, 10, 111, 111, 111) case 231 => (157, 231, -1, 256, -1)
    case 232 => (200, 34, 39, 39, 39) case 233 => (104, 150, 150, 150, 150) case 234 => (7, 148, 177, 15, 177) case 235 => (229, 210, 210, 97, 253)
    case 236 => (222, 236, -1, 256, -1) case 237 => (121, 141, 141, 71, 141) case 238 => (190, 54, 54, 54, 54) case _ => (104, 154, 154, 154, 154)
  }

  function Rounds240(n: nat): (int, int, int, int, int) {
    match n
    case 240 => (124, 19, 207, 207, 207) case 241 => (111, 241, -1, 256, -1) case 242 => (100, 242, -1, 256, -1) case 243 => (91, 243, -1, 256, -1)
    case 244 => (84, 244, -1, 256, -1) case 245 => (79, 245, -1, 256, -1) case 246 => (76, 246, -1, 256, -1) case 247 => (90, 6, 45, 45, 45)
    case 248 => (91, 248, -1, 256, -1) case 249 => (42, 197, 197, 197, 197) case 250 => (47, 250, -1, 256, -1) case 251 => (75, 16, 16, 16, 16)
    case 252 => (84, 252, -1, 256, -1) case 253 => (235, 137, 137, 137, 137) case 254 => (199, 205, 205, 205, 205) case _ => (214, 255, -1, 256, -1)
  }

  /** Round n does what the key schedule does if those before it do, and it is noted at the
      place it exchanges with. */
  predicate Agrees(n: nat, at: int, found: int, arrived: int) {
    && Trace(n).0 == at && Trace(n).1 == found && Trace(n).2 == arrived && 0 <= at < 256 && 0 <= found < 256
    && at == ((if n == 0 then 0 else Trace(n - 1).0) + found + n % 16 + 1) % 256
    && Trace(at).3 <= n <= Trace(at).4 && (at > n ==> Trace(at).2 >= n)
    && -1 <= arrived < n && (if arrived < 0 then found == n else Trace(arrived).0 == n && found == Trace(arrived).1)
  }

  ghost predicate Fits(n: nat) {
    exists at, found, arrived :: Agrees(n, at, found, arrived)
  }

  ghost predicate AllFit(n: nat) {
    forall k :: 0 <= k < n ==> Fits(k)
  }

  lemma Agrees0()
    ensures Agrees(0, 1, 0, -1) && Agrees(1, 3, 0, 0) && Agrees(2, 8, 2, -1) && Agrees(3, 12, 0, 1)
  {
  }

  lemma Agrees4()
    ensures Agrees(4, 21, 4, -1) && Agrees(5, 32, 5, -1) && Agrees(6, 45, 6, -1) && Agrees(7, 60, 7, -1)
  {
  }

  lemma Agrees8()
    ensures Agrees(8, 71, 2, 2) && Agrees(9, 90, 9, -1) && Agrees(10, 111, 10, -1) && Agrees(11, 134, 11, -1)
  {
  }

  lemma Agrees12()
    ensures Agrees(12, 147, 0, 3) && Agrees(13, 174, 13, -1) && Agrees(14, 203, 14, -1) && Agrees(15, 234, 15, -1)
  {
  }

  lemma Agrees16()
    ensures Agrees(16, 251, 16, -1) && Agrees(17, 14, 17, -1) && Agrees(18, 35, 18, -1) && Agrees(19, 58, 19, -1)
  {
  }

  lemma Agrees20()
    ensures Agrees(20, 83, 20, -1) && Agrees(21, 93, 4, 4) && Agrees(22, 122, 22, -1) && Agrees(23, 153, 23, -1)
  {
  }

  lemma Agrees24()
    ensures Agrees(24, 186, 24, -1) && Agrees(25, 221, 25, -1) && Agrees(26, 2, 26, -1) && Agrees(27, 41, 27, -1)
  {
  }

  lemma Agrees28()
    ensures Agrees(28, 82, 28, -1) && Agrees(29, 125, 29, -1) && Agrees(30, 170, 30, -1) && Agrees(31, 217, 31, -1)
  {
  }

  lemma Agrees32()
    ensures Agrees(32, 223, 5, 5) && Agrees(33, 2, 33, -1) && Agrees(34, 39, 34, -1) && Agrees(35, 61, 18, 18)
  {
  }

  lemma Agrees36()
    ensures Agrees(36, 102, 36, -1) && Agrees(37, 145, 37, -1) && Agrees(38, 190, 38, -1) && Agrees(39, 232, 34, 34)
  {
  }

  lemma Agrees40()
    ensures Agrees(40, 25, 40, -1) && Agrees(41, 62, 27, 27) && Agrees(42, 115, 42, -1) && Agrees(43, 170, 43, -1)
  {
  }

  lemma Agrees44()
    ensures Agrees(44, 227, 44, -1) && Agrees(45, 247, 6, 6) && Agrees(46, 52, 46, -1) && Agrees(47, 115, 47, -1)
  {
  }

  lemma Agrees48()
    ensures Agrees(48, 164, 48, -1) && Agrees(49, 215, 49, -1) && Agrees(50, 12, 50, -1) && Agrees(51, 67, 51, -1)
  {
  }

  lemma Agrees52()
    ensures Agrees(52, 118, 46, 46) && Agrees(53, 177, 53, -1) && Agrees(54, 238, 54, -1) && Agrees(55, 45, 55, -1)
  {
  }

  lemma Agrees56()
    ensures Agrees(56, 110, 56, -1) && Agrees(57, 177, 57, -1) && Agrees(58, 207, 19, 19) && Agrees(59, 22, 59, -1)
  {
  }

  lemma Agrees60()
    ensures Agrees(60, 42, 7, 7) && Agrees(61, 74, 18, 35) && Agrees(62, 116, 27, 41) && Agrees(63, 195, 63, -1)
  {
  }

  lemma Agrees64()
    ensures Agrees(64, 4, 64, -1) && Agrees(65, 71, 65, -1) && Agrees(66, 140, 66, -1) && Agrees(67, 195, 51, 51)
  {
  }

  lemma Agrees68()
    ensures Agrees(68, 12, 68, -1) && Agrees(69, 87, 69, -1) && Agrees(70, 164, 70, -1) && Agrees(71, 237, 65, 65)
  {
  }

  lemma Agrees72()
    ensures Agrees(72, 62, 72, -1) && Agrees(73, 145, 73, -1) && Agrees(74, 174, 18, 61) && Agrees(75, 5, 75, -1)
  {
  }

  lemma Agrees76()
    ensures Agrees(76, 94, 76, -1) && Agrees(77, 185, 77, -1) && Agrees(78, 22, 78, -1) && Agrees(79, 117, 79, -1)
  {
  }

  lemma Agrees80()
    ensures Agrees(80, 198, 80, -1) && Agrees(81, 25, 81, -1) && Agrees(82, 56, 28, 28) && Agrees(83, 80, 20, 20)
  {
  }

  lemma Agrees84()
    ensures Agrees(84, 169, 84, -1) && Agrees(85, 4, 85, -1) && Agrees(86, 97, 86, -1) && Agrees(87, 174, 69, 69)
  {
  }

  lemma Agrees88()
    ensures Agrees(88, 15, 88, -1) && Agrees(89, 114, 89, -1) && Agrees(90, 134, 9, 9) && Agrees(91, 237, 91, -1)
  {
  }

  lemma Agrees92()
    ensures Agrees(92, 86, 92, -1) && Agrees(93, 104, 4, 21) && Agrees(94, 195, 76, 76) && Agrees(95, 50, 95, -1)
  {
  }

  lemma Agrees96()
    ensures Agrees(96, 147, 96, -1) && Agrees(97, 235, 86, 86) && Agrees(98, 80, 98, -1) && Agrees(99, 183, 99, -1)
  {
  }

  lemma Agrees100()
    ensures Agrees(100, 32, 100, -1) && Agrees(101, 139, 101, -1) && Agrees(102, 182, 36, 36) && Agrees(103, 37, 103, -1)
  {
  }

  lemma Agrees104()
    ensures Agrees(104, 50, 4, 93) && Agrees(105, 165, 105, -1) && Agrees(106, 26, 106, -1) && Agrees(107, 145, 107, -1)
  {
  }

  lemma Agrees108()
    ensures Agrees(108, 10, 108, -1) && Agrees(109, 133, 109, -1) && Agrees(110, 204, 56, 56) && Agrees(111, 230, 10, 10)
  {
  }

  lemma Agrees112()
    ensures Agrees(112, 87, 112, -1) && Agrees(113, 202, 113, -1) && Agrees(114, 38, 89, 89) && Agrees(115, 89, 47, 47)
  {
  }

  lemma Agrees116()
    ensures Agrees(116, 121, 27, 62) && Agrees(117, 206, 79, 79) && Agrees(118, 3, 46, 52) && Agrees(119, 130, 119, -1)
  {
  }

  lemma Agrees120()
    ensures Agrees(120, 3, 120, -1) && Agrees(121, 40, 27, 116) && Agrees(122, 73, 22, 22) && Agrees(123, 208, 123, -1)
  {
  }

  lemma Agrees124()
    ensures Agrees(124, 89, 124, -1) && Agrees(125, 132, 29, 29) && Agrees(126, 17, 126, -1) && Agrees(127, 160, 127, -1)
  {
  }

  lemma Agrees128()
    ensures Agrees(128, 33, 128, -1) && Agrees(129, 164, 129, -1) && Agrees(130, 30, 119, 119) && Agrees(131, 165, 131, -1)
  {
  }

  lemma Agrees132()
    ensures Agrees(132, 199, 29, 125) && Agrees(133, 58, 109, 109) && Agrees(134, 74, 9, 90) && Agrees(135, 217, 135, -1)
  {
  }

  lemma Agrees136()
    ensures Agrees(136, 106, 136, -1) && Agrees(137, 253, 137, -1) && Agrees(138, 146, 138, -1) && Agrees(139, 3, 101, 101)
  {
  }

  lemma Agrees140()
    ensures Agrees(140, 82, 66, 66) && Agrees(141, 237, 141, -1) && Agrees(142, 138, 142, -1) && Agrees(143, 41, 143, -1)
  {
  }

  lemma Agrees144()
    ensures Agrees(144, 186, 144, -1) && Agrees(145, 39, 107, 107) && Agrees(146, 180, 138, 138) && Agrees(147, 24, 96, 96)
  {
  }

  lemma Agrees148()
    ensures Agrees(148, 177, 148, -1) && Agrees(149, 76, 149, -1) && Agrees(150, 233, 150, -1) && Agrees(151, 136, 151, -1)
  {
  }

  lemma Agrees152()
    ensures Agrees(152, 41, 152, -1) && Agrees(153, 74, 23, 23) && Agrees(154, 239, 154, -1) && Agrees(155, 150, 155, -1)
  {
  }

  lemma Agrees156()
    ensures Agrees(156, 63, 156, -1) && Agrees(157, 234, 157, -1) && Agrees(158, 151, 158, -1) && Agrees(159, 70, 159, -1)
  {
  }

  lemma Agrees160()
    ensures Agrees(160, 198, 127, 127) && Agrees(161, 105, 161, -1) && Agrees(162, 14, 162, -1) && Agrees(163, 181, 163, -1)
  {
  }

  lemma Agrees164()
    ensures Agrees(164, 59, 129, 129) && Agrees(165, 196, 131, 131) && Agrees(166, 113, 166, -1) && Agrees(167, 32, 167, -1)
  {
  }

  lemma Agrees168()
    ensures Agrees(168, 209, 168, -1) && Agrees(169, 47, 84, 84) && Agrees(170, 101, 43, 43) && Agrees(171, 28, 171, -1)
  {
  }

  lemma Agrees172()
    ensures Agrees(172, 213, 172, -1) && Agrees(173, 144, 173, -1) && Agrees(174, 228, 69, 87) && Agrees(175, 163, 175, -1)
  {
  }

  lemma Agrees176()
    ensures Agrees(176, 84, 176, -1) && Agrees(177, 234, 148, 148) && Agrees(178, 159, 178, -1) && Agrees(179, 86, 179, -1)
  {
  }

  lemma Agrees180()
    ensures Agrees(180, 229, 138, 146) && Agrees(181, 142, 163, 163) && Agrees(182, 185, 36, 102) && Agrees(183, 36, 99, 99)
  {
  }

  lemma Agrees184()
    ensures Agrees(184, 229, 184, -1) && Agrees(185, 19, 36, 182) && Agrees(186, 174, 144, 144) && Agrees(187, 117, 187, -1)
  {
  }

  lemma Agrees188()
    ensures Agrees(188, 62, 188, -1) && Agrees(189, 9, 189, -1) && Agrees(190, 62, 38, 38) && Agrees(191, 13, 191, -1)
  {
  }

  lemma Agrees192()
    ensures Agrees(192, 206, 192, -1) && Agrees(193, 145, 193, -1) && Agrees(194, 86, 194, -1) && Agrees(195, 166, 76, 94)
  {
  }

  lemma Agrees196()
    ensures Agrees(196, 46, 131, 165) && Agrees(197, 249, 197, -1) && Agrees(198, 127, 127, 160) && Agrees(199, 164, 29, 132)
  {
  }

  lemma Agrees200()
    ensures Agrees(200, 117, 200, -1) && Agrees(201, 72, 201, -1) && Agrees(202, 196, 113, 113) && Agrees(203, 222, 14, 14)
  {
  }

  lemma Agrees204()
    ensures Agrees(204, 35, 56, 110) && Agrees(205, 254, 205, -1) && Agrees(206, 205, 192, 192) && Agrees(207, 240, 19, 58)
  {
  }

  lemma Agrees208()
    ensures Agrees(208, 108, 123, 123) && Agrees(209, 22, 168, 168) && Agrees(210, 235, 210, -1) && Agrees(211, 194, 211, -1)
  {
  }

  lemma Agrees212()
    ensures Agrees(212, 155, 212, -1) && Agrees(213, 77, 172, 172) && Agrees(214, 42, 214, -1) && Agrees(215, 99, 49, 49)
  {
  }

  lemma Agrees216()
    ensures Agrees(216, 68, 216, -1) && Agrees(217, 213, 135, 135) && Agrees(218, 186, 218, -1) && Agrees(219, 161, 219, -1)
  {
  }

  lemma Agrees220()
    ensures Agrees(220, 138, 220, -1) && Agrees(221, 177, 25, 25) && Agrees(222, 206, 14, 203) && Agrees(223, 227, 5, 32)
  {
  }

  lemma Agrees224()
    ensures Agrees(224, 196, 224, -1) && Agrees(225, 167, 225, -1) && Agrees(226, 140, 226, -1) && Agrees(227, 149, 5, 223)
  {
  }

  lemma Agrees228()
    ensures Agrees(228, 223, 69, 174) && Agrees(229, 157, 184, 184) && Agrees(230, 174, 10, 111) && Agrees(231, 157, 231, -1)
  {
  }

  lemma Agrees232()
    ensures Agrees(232, 200, 34, 39) && Agrees(233, 104, 150, 150) && Agrees(234, 7, 148, 177) && Agrees(235, 229, 210, 210)
  {
  }

  lemma Agrees236()
    ensures Agrees(236, 222, 236, -1) && Agrees(237, 121, 141, 141) && Agrees(238, 190, 54, 54) && Agrees(239, 104, 154, 154)
  {
  }

  lemma Agrees240()
    ensures Agrees(240, 124, 19, 207) && Agrees(241, 111, 241, -1) && Agrees(242, 100, 242, -1) && Agrees(243, 91, 243, -1)
  {
  }

  lemma Agrees244()
    ensures Agrees(244, 84, 244, -1) && Agrees(245, 79, 245, -1) && Agrees(246, 76, 246, -1) && Agrees(247, 90, 6, 45)
  {
  }

  lemma Agrees248()
    ensures Agrees(248, 91, 248, -1) && Agrees(249, 42, 197, 197) && Agrees(250, 47, 250, -1) && Agrees(251, 75, 16, 16)
  {
  }

  lemma Agrees252()
    ensures Agrees(252, 84, 252, -1) && Agrees(253, 235, 137, 137) && Agrees(254, 199, 205, 205) && Agrees(255, 214, 255, -1)
  {
  }

  lemma FitTo32()
    ensures AllFit(32)
  {
    hide Agrees;
    Agrees0();
    Agrees4();
    Agrees8();
    Agrees12();
    Agrees16();
    Agrees20();
    Agrees24();
    Agrees28();
  }

  lemma FitTo64()
    ensures AllFit(64)
  {
    hide Agrees;
    FitTo32();
    Agrees32();
    Agrees36();
    Agrees40();
    Agrees44();
    Agrees48();
    Agrees52();
    Agrees56();
    Agrees60();
  }

  lemma FitTo96()
    ensures AllFit(96)
  {
    hide Agrees;
    FitTo64();
    Agrees64();
    Agrees68();
    Agrees72();
    Agrees76();
    Agrees80();
    Agrees84();
    Agrees88();
    Agrees92();
  }

  lemma FitTo128()
    ensures AllFit(128)
  {
    hide Agrees;
    FitTo96();
    Agrees96();
    Agrees100();
    Agrees104();
    Agrees108();
    Agrees112();
    Agrees116();
    Agrees120();
    Agrees124();
  }

  lemma FitTo160()
    ensures AllFit(160)
  {
    hide Agrees;
    FitTo128();
    Agrees128();
    Agrees132();
    Agrees136();
    Agrees140();
    Agrees144();
    Agrees148();
    Agrees152();
    Agrees156();
  }

  lemma FitTo192()
    ensures AllFit(192)
  {
    hide Agrees;
    FitTo160();
    Agrees160();
    Agrees164();
    Agrees168();
    Agrees172();
    Agrees176();
    Agrees180();
    Agrees184();
    Agrees188();
  }

  lemma FitTo224()
    ensures AllFit(224)
  {
    hide Agrees;
    FitTo192();
    Agrees192();
    Agrees196();
    Agrees200();
    Agrees204();
    Agrees208();
    Agrees212();
    Agrees216();
    Agrees220();
  }

  lemma FitTo256()
    ensures AllFit(256)
  {
    hide Agrees;
    FitTo224();
    Agrees224();
    Agrees228();
    Agrees232();
    Agrees236();
    Agrees240();
    Agrees244();
    Agrees248();
    Agrees252();
  }

  /** What the trace says about round n. */
  lemma RoundFits(n: nat)
    requires n < 256
    ensures
        var (at, found, arrived, first, last) := Trace(n);
        && 0 <= at < 256 && 0 <= found < 256
        && at == ((if n == 0 then 0 else Trace(n - 1).0) + found + KEY[n % 16]) % 256
        && Trace(at).3 <= n <= Trace(at).4 && (at > n ==> Trace(at).2 >= n)
        && -1 <= arrived < n && (if arrived < 0 then found == n else Trace(arrived).0 == n && found == Trace(arrived).1)
  {
    hide Trace;
    FitTo256();
    assert Fits(n);
    var at, found, arrived :| Agrees(n, at, found, arrived);
    KeyIs(n);
  }

  lemma KeyIs(n: nat)
    ensures KEY[n % 16] == n % 16 + 1
  {
  }

  /** Round k does what the trace says, and leaves place x alone. */
  ghost predicate Spares(k: nat, x: nat)
    requires k < 256
  {
    k != x && Schedule(KEY, k + 1).1 == Trace(k).0 && Trace(k).0 != x
  }

  /** Places that all rounds from a to b leave alone keep their entry. */
  lemma {:induction false} Stays(x: nat, a: nat, b: nat)
    requires x < 256 && a <= b <= 256
    requires forall k :: a <= k < b ==> Spares(k, x)
    ensures Schedule(KEY, b).0[x] == Schedule(KEY, a).0[x]
    decreases b
  {
    hide Schedule, Trace;
    if a < b {
      Stays(x, a, b - 1);
      RoundLaw(KEY, b - 1);
      assert Spares(b - 1, x);
    }
  }

  /** The schedule does what the trace says. */
  lemma {:induction false} Runs(n: nat)
    requires n <= 256
    ensures Schedule(KEY, n).1 == if n == 0 then 0 else Trace(n - 1).0
    ensures n < 256 ==> Schedule(KEY, n).0[n] == Trace(n).1
    decreases n
  {
    hide Schedule, Trace;
    RoundLaw(KEY, 0);
    forall k | 0 <= k < n
      ensures Schedule(KEY, k + 1).1 == Trace(k).0
    {
      Runs(k);
      RoundFits(k);
      RoundLaw(KEY, k);
    }
    if n < 256 {
      RoundFits(n);
      if Trace(n).2 >= 0 {
        Runs(Trace(n).2);
      }
      Arrival(n);
    }
  }

  /** What a round finds was put there by the last round that exchanged with its place. */
  lemma Arrival(n: nat)
    requires n < 256 && forall k :: 0 <= k < n ==> Schedule(KEY, k + 1).1 == Trace(k).0
    requires Trace(n).2 >= 0 && Trace(n).2 < n ==> Schedule(KEY, Trace(n).2).0[Trace(n).2] == Trace(Trace(n).2).1
    ensures Schedule(KEY, n).0[n] == Trace(n).1
  {
    hide Schedule, Trace;
    RoundLaw(KEY, 0);
    RoundFits(n);
    var m := Trace(n).2;
    forall k | 0 <= k < n && m < k
      ensures Spares(k, n)
    {
      RoundFits(k);
    }
    if m < 0 {
      Stays(n, 0, n);
    } else {
      RoundLaw(KEY, m);
      Stays(n, m + 1, n);
    }
  }

  lemma AllRun()
    ensures forall k :: 0 <= k < 256 ==> Schedule(KEY, k + 1).1 == Trace(k).0 && Schedule(KEY, k).0[k] == Trace(k).1
  {
    hide Schedule, Trace;
    forall k | 0 <= k < 256
      ensures Schedule(KEY, k + 1).1 == Trace(k).0 && Schedule(KEY, k).0[k] == Trace(k).1
    {
      Runs(k);
      Runs(k + 1);
    }
  }

  /** An entry that the last round to exchange with its place left there. */
  lemma LeftBy(x: nat, m: nat)
    requires x <= m < 256 && Trace(m).0 == x && Trace(x).4 == m
    ensures Initial(KEY).s[x] == Trace(m).1
  {
    hide Schedule, Trace;
    AllRun();
    RoundLaw(KEY, m);
    forall k | m < k < 256
      ensures Spares(k, x)
    {
      RoundFits(k);
    }
    Stays(x, m + 1, 256);
  }

  /** An entry that its own round took from a place that no round had exchanged with. */
  lemma Taken(x: nat)
    requires x < 256 && x < Trace(x).0 < 256 && Trace(Trace(x).0).3 >= x && Trace(x).4 <= x
    ensures Initial(KEY).s[x] == Trace(x).0
  {
    hide Schedule, Trace;
    var at := Trace(x).0;
    AllRun();
    RoundLaw(KEY, 0);
    RoundLaw(KEY, x);
    forall k | 0 <= k < 256
      ensures k < x ==> Spares(k, at)
      ensures k > x ==> Spares(k, x)
    {
      RoundFits(k);
    }
    Stays(at, 0, x);
    Stays(x, x + 1, 256);
  }

  /** Entries of its scheduled table. */
  lemma Entries()
    ensures
        var s := Initial(KEY).s;
        && s[1] == 3 && s[2] == 33 && s[3] == 101 && s[4] == 85 && s[36] == 99 && s[39] == 107
        && s[104] == 154 && s[110] == 204 && s[124] == 19 && s[132] == 199
  {
    hide Initial, Trace;
    LowEntries();
    HighEntries();
  }

  lemma LowEntries()
    ensures
        var s := Initial(KEY).s;
        s[1] == 3 && s[2] == 33 && s[3] == 101 && s[4] == 85 && s[36] == 99
  {
    hide Initial;
    Taken(1);
    LeftBy(2, 33);
    LeftBy(3, 139);
    LeftBy(4, 85);
    LeftBy(36, 183);
  }

  lemma HighEntries()
    ensures
        var s := Initial(KEY).s;
        s[39] == 107 && s[104] == 154 && s[110] == 204 && s[124] == 19 && s[132] == 199
  {
    hide Initial;
    LeftBy(39, 145);
    LeftBy(104, 239);
    Taken(110);
    LeftBy(124, 240);
    Taken(132);
  }

  /** One step with known entries at its indices and at their sum. */
  lemma KnownStep(st: State, j: nat, low: nat, high: nat, b: nat)
    requires |st.s| == 256 && st.i < 255 && j < 256 && st.i as int + 1 < j
    requires st.s[st.i as int + 1] == low && st.s[j] == high && j == (st.j as int + low) % 256
    requires (low + high) % 256 != st.i as int + 1 && (low + high) % 256 != j && st.s[(low + high) % 256] == b
    ensures
        var (after, given) := Step(st);
        && given == b && after.i == st.i as int + 1 && after.j == j && |after.s| == 256
        && after.s[j] == low && forall k :: 0 <= k < 256 && k != after.i && k != j ==> after.s[k] == st.s[k]
  {
    hide Step;
    StepLaw(st);
  }

  /** The first bytes of its stream, as section 2 of RFC 6229 lists them. */
  lemma StreamStarts()
    ensures KeyStream(Initial(KEY), 4) == [0x9A, 0xC7, 0xCC, 0x9A]
  {
    hide Initial, Step, KeyStream, After, Trace;
    var st := Initial(KEY);
    NoStream(st);
    StreamNext(st, 0);
    StreamNext(st, 1);
    StreamNext(st, 2);
    StreamNext(st, 3);
    FourSteps();
  }

  lemma FourSteps()
    ensures
        var st := Initial(KEY);
        && Step(st).1 == 0x9A && Step(Step(st).0).1 == 0xC7 && Step(Step(Step(st).0).0).1 == 0xCC
        && Step(Step(Step(Step(st).0).0).0).1 == 0x9A
  {
    hide Initial, Step, Trace;
    Entries();
    RoundLaw(KEY, 0);
    var st := Initial(KEY);
    FirstStep(st);
    SecondStep(Step(st).0);
    LastSteps(Step(Step(st).0).0);
  }

  lemma FirstStep(st: State)
    requires |st.s| == 256 && st.i == 0 && st.j == 0
    requires st.s[1] == 3 && st.s[2] == 33 && st.s[3] == 101 && st.s[4] == 85 && st.s[36] == 99 && st.s[39] == 107
    requires st.s[104] == 154 && st.s[110] == 204 && st.s[124] == 19 && st.s[132] == 199
    ensures
        var (after, b) := Step(st);
        && b == 0x9A && after.i == 1 && after.j == 3 && after.s[2] == 33 && after.s[3] == 3 && after.s[4] == 85
        && after.s[36] == 99 && after.s[39] == 107 && after.s[104] == 154 && after.s[110] == 204 && after.s[124] == 19
        && after.s[132] == 199
  {
    hide Step;
    KnownStep(st, 3, 3, 101, 154);
  }

  lemma SecondStep(st: State)
    requires |st.s| == 256 && st.i == 1 && st.j == 3
    requires st.s[2] == 33 && st.s[3] == 3 && st.s[4] == 85 && st.s[36] == 99 && st.s[39] == 107
    requires st.s[104] == 154 && st.s[110] == 204 && st.s[124] == 19 && st.s[132] == 199
    ensures
        var (after, b) := Step(st);
        && b == 0xC7 && after.i == 2 && after.j == 36 && after.s[3] == 3 && after.s[4] == 85 && after.s[39] == 107
        && after.s[104] == 154 && after.s[110] == 204 && after.s[124] == 19
  {
    hide Step;
    KnownStep(st, 36, 33, 99, 199);
  }

  lemma LastSteps(st: State)
    requires |st.s| == 256 && st.i == 2 && st.j == 36
    requires st.s[3] == 3 && st.s[4] == 85 && st.s[39] == 107 && st.s[104] == 154 && st.s[110] == 204 && st.s[124] == 19
    ensures Step(st).1 == 0xCC && Step(Step(st).0).1 == 0x9A
  {
    hide Step;
    KnownStep(st, 39, 3, 107, 204);
    KnownStep(Step(st).0, 124, 85, 19, 154);
  }
}
