/** CRC-32C as used on CSP packets (src/csp_crc32.c): the table-driven update equals the
    bit-at-a-time division by the polynomial of section 12.1 of RFC 3720, and it tells apart
    any two messages of equal length that differ only within four adjacent bytes. */
module Crc32c {
  import opened Bytes

  // ---- the definition: one message bit at a time ----

  /** Shift one bit out of the register; the constant is 0x1EDC6F41 with its bits reversed. */
  function Step(s: bv32): bv32 {
    if s & 1 == 1 then (s >> 1) ^ 0x82F63B78 else s >> 1
  }

  function Step4(s: bv32): bv32 {
    Step(Step(Step(Step(s))))
  }

  function Step8(s: bv32): bv32 {
    Step4(Step4(s))
  }

  function Widen(b: byte): bv32 {
    b as bv32
  }

  function ByteSpec(crc: bv32, b: byte): bv32 {
    Step8(Xor(crc, Widen(b)))
  }

  function Spec(crc: bv32, data: seq<byte>): bv32 {
    if data == [] then crc else ByteSpec(Spec(crc, data[..|data| - 1]), data[|data| - 1])
  }

  // ---- the table (src/csp_crc32.c:18-49) ----

  const ROW0: seq<bv32> := [
    0x00000000, 0xF26B8303, 0xE13B70F7, 0x1350F3F4, 0xC79A971F, 0x35F1141C, 0x26A1E7E8, 0xD4CA64EB,
    0x8AD958CF, 0x78B2DBCC, 0x6BE22838, 0x9989AB3B, 0x4D43CFD0, 0xBF284CD3, 0xAC78BF27, 0x5E133C24]
  const ROW1: seq<bv32> := [
    0x105EC76F, 0xE235446C, 0xF165B798, 0x030E349B, 0xD7C45070, 0x25AFD373, 0x36FF2087, 0xC494A384,
    0x9A879FA0, 0x68EC1CA3, 0x7BBCEF57, 0x89D76C54, 0x5D1D08BF, 0xAF768BBC, 0xBC267848, 0x4E4DFB4B]
  const ROW2: seq<bv32> := [
    0x20BD8EDE, 0xD2D60DDD, 0xC186FE29, 0x33ED7D2A, 0xE72719C1, 0x154C9AC2, 0x061C6936, 0xF477EA35,
    0xAA64D611, 0x580F5512, 0x4B5FA6E6, 0xB93425E5, 0x6DFE410E, 0x9F95C20D, 0x8CC531F9, 0x7EAEB2FA]
  const ROW3: seq<bv32> := [
    0x30E349B1, 0xC288CAB2, 0xD1D83946, 0x23B3BA45, 0xF779DEAE, 0x05125DAD, 0x1642AE59, 0xE4292D5A,
    0xBA3A117E, 0x4851927D, 0x5B016189, 0xA96AE28A, 0x7DA08661, 0x8FCB0562, 0x9C9BF696, 0x6EF07595]
  const ROW4: seq<bv32> := [
    0x417B1DBC, 0xB3109EBF, 0xA0406D4B, 0x522BEE48, 0x86E18AA3, 0x748A09A0, 0x67DAFA54, 0x95B17957,
    0xCBA24573, 0x39C9C670, 0x2A993584, 0xD8F2B687, 0x0C38D26C, 0xFE53516F, 0xED03A29B, 0x1F682198]
  const ROW5: seq<bv32> := [
    0x5125DAD3, 0xA34E59D0, 0xB01EAA24, 0x42752927, 0x96BF4DCC, 0x64D4CECF, 0x77843D3B, 0x85EFBE38,
    0xDBFC821C, 0x2997011F, 0x3AC7F2EB, 0xC8AC71E8, 0x1C661503, 0xEE0D9600, 0xFD5D65F4, 0x0F36E6F7]
  const ROW6: seq<bv32> := [
    0x61C69362, 0x93AD1061, 0x80FDE395, 0x72966096, 0xA65C047D, 0x5437877E, 0x4767748A, 0xB50CF789,
    0xEB1FCBAD, 0x197448AE, 0x0A24BB5A, 0xF84F3859, 0x2C855CB2, 0xDEEEDFB1, 0xCDBE2C45, 0x3FD5AF46]
  const ROW7: seq<bv32> := [
    0x7198540D, 0x83F3D70E, 0x90A324FA, 0x62C8A7F9, 0xB602C312, 0x44694011, 0x5739B3E5, 0xA55230E6,
    0xFB410CC2, 0x092A8FC1, 0x1A7A7C35, 0xE811FF36, 0x3CDB9BDD, 0xCEB018DE, 0xDDE0EB2A, 0x2F8B6829]
  const ROW8: seq<bv32> := [
    0x82F63B78, 0x709DB87B, 0x63CD4B8F, 0x91A6C88C, 0x456CAC67, 0xB7072F64, 0xA457DC90, 0x563C5F93,
    0x082F63B7, 0xFA44E0B4, 0xE9141340, 0x1B7F9043, 0xCFB5F4A8, 0x3DDE77AB, 0x2E8E845F, 0xDCE5075C]
  const ROW9: seq<bv32> := [
    0x92A8FC17, 0x60C37F14, 0x73938CE0, 0x81F80FE3, 0x55326B08, 0xA759E80B, 0xB4091BFF, 0x466298FC,
    0x1871A4D8, 0xEA1A27DB, 0xF94AD42F, 0x0B21572C, 0xDFEB33C7, 0x2D80B0C4, 0x3ED04330, 0xCCBBC033]
  const ROWA: seq<bv32> := [
    0xA24BB5A6, 0x502036A5, 0x4370C551, 0xB11B4652, 0x65D122B9, 0x97BAA1BA, 0x84EA524E, 0x7681D14D,
    0x2892ED69, 0xDAF96E6A, 0xC9A99D9E, 0x3BC21E9D, 0xEF087A76, 0x1D63F975, 0x0E330A81, 0xFC588982]
  const ROWB: seq<bv32> := [
    0xB21572C9, 0x407EF1CA, 0x532E023E, 0xA145813D, 0x758FE5D6, 0x87E466D5, 0x94B49521, 0x66DF1622,
    0x38CC2A06, 0xCAA7A905, 0xD9F75AF1, 0x2B9CD9F2, 0xFF56BD19, 0x0D3D3E1A, 0x1E6DCDEE, 0xEC064EED]
  const ROWC: seq<bv32> := [
    0xC38D26C4, 0x31E6A5C7, 0x22B65633, 0xD0DDD530, 0x0417B1DB, 0xF67C32D8, 0xE52CC12C, 0x1747422F,
    0x49547E0B, 0xBB3FFD08, 0xA86F0EFC, 0x5A048DFF, 0x8ECEE914, 0x7CA56A17, 0x6FF599E3, 0x9D9E1AE0]
  const ROWD: seq<bv32> := [
    0xD3D3E1AB, 0x21B862A8, 0x32E8915C, 0xC083125F, 0x144976B4, 0xE622F5B7, 0xF5720643, 0x07198540,
    0x590AB964, 0xAB613A67, 0xB831C993, 0x4A5A4A90, 0x9E902E7B, 0x6CFBAD78, 0x7FAB5E8C, 0x8DC0DD8F]
  const ROWE: seq<bv32> := [
    0xE330A81A, 0x115B2B19, 0x020BD8ED, 0xF0605BEE, 0x24AA3F05, 0xD6C1BC06, 0xC5914FF2, 0x37FACCF1,
    0x69E9F0D5, 0x9B8273D6, 0x88D28022, 0x7AB90321, 0xAE7367CA, 0x5C18E4C9, 0x4F48173D, 0xBD23943E]
  const ROWF: seq<bv32> := [
    0xF36E6F75, 0x0105EC76, 0x12551F82, 0xE03E9C81, 0x34F4F86A, 0xC69F7B69, 0xD5CF889D, 0x27A40B9E,
    0x79B737BA, 0x8BDCB4B9, 0x988C474D, 0x6AE7C44E, 0xBE2DA0A5, 0x4C4623A6, 0x5F16D052, 0xAD7D5351]

  function Row(h: byte): (r: seq<bv32>)
    requires h < 16
    ensures |r| == 16
  {
    if h == 0 then ROW0
    else if h == 1 then ROW1
    else if h == 2 then ROW2
    else if h == 3 then ROW3
    else if h == 4 then ROW4
    else if h == 5 then ROW5
    else if h == 6 then ROW6
    else if h == 7 then ROW7
    else if h == 8 then ROW8
    else if h == 9 then ROW9
    else if h == 10 then ROWA
    else if h == 11 then ROWB
    else if h == 12 then ROWC
    else if h == 13 then ROWD
    else if h == 14 then ROWE
    else ROWF
  }

  /** crc_tab[b]. */
  function Table(b: byte): bv32 {
    Row(b >> 4)[(b & 15) as int]
  }

  /** The sixteen register values that belong to the bytes h0, h1, ..., hF. */
  function Entries(h: byte): (r: seq<bv32>)
    requires h < 16
    ensures |r| == 16
  {
    var a: bv32 := Widen(h << 4);
    [Step8(a), Step8(a | 1), Step8(a | 2), Step8(a | 3), Step8(a | 4), Step8(a | 5), Step8(a | 6), Step8(a | 7),
     Step8(a | 8), Step8(a | 9), Step8(a | 10), Step8(a | 11), Step8(a | 12), Step8(a | 13), Step8(a | 14),
     Step8(a | 15)]
  }

  lemma Row0Ok() ensures ROW0 == Entries(0) {}
  lemma Row1Ok() ensures ROW1 == Entries(1) {}
  lemma Row2Ok() ensures ROW2 == Entries(2) {}
  lemma Row3Ok() ensures ROW3 == Entries(3) {}
  lemma Row4Ok() ensures ROW4 == Entries(4) {}
  lemma Row5Ok() ensures ROW5 == Entries(5) {}
  lemma Row6Ok() ensures ROW6 == Entries(6) {}
  lemma Row7Ok() ensures ROW7 == Entries(7) {}
  lemma Row8Ok() ensures ROW8 == Entries(8) {}
  lemma Row9Ok() ensures ROW9 == Entries(9) {}
  lemma RowAOk() ensures ROWA == Entries(10) {}
  lemma RowBOk() ensures ROWB == Entries(11) {}
  lemma RowCOk() ensures ROWC == Entries(12) {}
  lemma RowDOk() ensures ROWD == Entries(13) {}
  lemma RowEOk() ensures ROWE == Entries(14) {}
  lemma RowFOk() ensures ROWF == Entries(15) {}

  lemma RowOk(h: byte)
    requires h < 16
    ensures Row(h) == Entries(h)
  {
    hide Entries;
    Row0Ok(); Row1Ok(); Row2Ok(); Row3Ok(); Row4Ok(); Row5Ok(); Row6Ok(); Row7Ok();
    Row8Ok(); Row9Ok(); RowAOk(); RowBOk(); RowCOk(); RowDOk(); RowEOk(); RowFOk();
  }

  lemma PickLow(h: byte, l: byte)
    requires h < 16 && l < 8
    ensures (l as int) < 16 && Entries(h)[l as int] == Step8(Widen(h << 4) | Widen(l))
  {
    hide Step8;
    var a: bv32 := Widen(h << 4);
    OrZero(a);
    if l == 0 {
    } else if l == 1 {
    } else if l == 2 {
    } else if l == 3 {
    } else if l == 4 {
    } else if l == 5 {
    } else if l == 6 {
    } else {
      assert l == 7;
    }
  }

  lemma PickHigh(h: byte, l: byte)
    requires h < 16 && 8 <= l < 16
    ensures (l as int) < 16 && Entries(h)[l as int] == Step8(Widen(h << 4) | Widen(l))
  {
    hide Step8;
    if l == 8 {
    } else if l == 9 {
    } else if l == 10 {
    } else if l == 11 {
    } else if l == 12 {
    } else if l == 13 {
    } else if l == 14 {
    } else {
      assert l == 15;
    }
  }

  lemma PickEntry(h: byte, l: byte)
    requires h < 16 && l < 16
    ensures (l as int) < 16 && Entries(h)[l as int] == Step8(Widen(h << 4) | Widen(l))
  {
    hide Step8, Entries, Widen;
    if l < 8 { PickLow(h, l); } else { PickHigh(h, l); }
  }

  /** Every table entry is eight division steps on its index. */
  lemma TableEntry(b: byte)
    ensures Table(b) == Step8(Widen(b))
  {
    RowOk(b >> 4);
    PickEntry(b >> 4, b & 15);
    assert Widen((b >> 4) << 4) | Widen(b & 15) == Widen(b);
    hide Step8, Entries, Row;
  }

  // ---- the division is linear and reversible ----

  function Xor(a: bv32, b: bv32): bv32 {
    a ^ b
  }

  predicate Odd(x: bv32) {
    x & 1 == 1
  }

  function Down1(x: bv32): bv32 {
    x >> 1
  }

  const POLYNOMIAL: bv32 := 0x82F6_3B78

  lemma StepIs(x: bv32)
    ensures Step(x) == if Odd(x) then Xor(Down1(x), POLYNOMIAL) else Down1(x)
  {
  }

  lemma OddXor(x: bv32, y: bv32)
    ensures Odd(Xor(x, y)) == (Odd(x) != Odd(y))
  {
    OddBits(x, y);
  }

  lemma OddBits(x: bv32, y: bv32)
    ensures (x ^ y) & 1 == (x & 1) ^ (y & 1)
    ensures x & 1 == 0 || x & 1 == 1
    ensures y & 1 == 0 || y & 1 == 1
  {
  }

  lemma Down1Xor(x: bv32, y: bv32)
    ensures Down1(Xor(x, y)) == Xor(Down1(x), Down1(y))
  {
    Down1Bits(x, y);
  }

  lemma Down1Bits(x: bv32, y: bv32)
    ensures (x ^ y) >> 1 == (x >> 1) ^ (y >> 1)
  {
  }

  lemma XorMoves(a: bv32, b: bv32, p: bv32)
    ensures Xor(Xor(a, p), b) == Xor(Xor(a, b), p)
    ensures Xor(a, Xor(b, p)) == Xor(Xor(a, b), p)
    ensures Xor(Xor(a, p), Xor(b, p)) == Xor(a, b)
  {
    XorMoveBits(a, b, p);
  }

  lemma XorMoveBits(a: bv32, b: bv32, p: bv32)
    ensures (a ^ p) ^ b == (a ^ b) ^ p
    ensures a ^ (b ^ p) == (a ^ b) ^ p
    ensures (a ^ p) ^ (b ^ p) == a ^ b
  {
  }

  lemma StepXor(x: bv32, y: bv32)
    ensures Step(Xor(x, y)) == Xor(Step(x), Step(y))
  {
    hide Step, Odd, Down1, Xor;
    StepIs(x);
    StepIs(y);
    StepIs(Xor(x, y));
    OddXor(x, y);
    Down1Xor(x, y);
    XorMoves(Down1(x), Down1(y), POLYNOMIAL);
  }

  lemma Step4Xor(x: bv32, y: bv32)
    ensures Step4(Xor(x, y)) == Xor(Step4(x), Step4(y))
  {
    hide Step, Xor;
    StepXor(x, y);
    StepXor(Step(x), Step(y));
    StepXor(Step(Step(x)), Step(Step(y)));
    StepXor(Step(Step(Step(x))), Step(Step(Step(y))));
  }

  lemma Step8Xor(x: bv32, y: bv32)
    ensures Step8(Xor(x, y)) == Xor(Step8(x), Step8(y))
  {
    hide Step4, Xor;
    Step4Xor(x, y);
    Step4Xor(Step4(x), Step4(y));
  }

  function Down4(x: bv32): bv32 {
    x >> 4
  }

  predicate LowClear(x: bv32) {
    x & 15 == 0
  }

  lemma Step4High(x: bv32)
    requires LowClear(x)
    ensures Step4(x) == Down4(x)
  {
    assert Step(x) == x >> 1;
    assert (x >> 1) & 1 == 0 && Step(x >> 1) == x >> 2;
    assert (x >> 2) & 1 == 0 && Step(x >> 2) == x >> 3;
    assert (x >> 3) & 1 == 0 && Step(x >> 3) == x >> 4;
    hide Step;
  }

  lemma HighBits(x: bv32)
    ensures LowClear(x & 0xFFFF_FF00) && LowClear(Down4(x & 0xFFFF_FF00))
    ensures Down4(Down4(x & 0xFFFF_FF00)) == x >> 8
  {
  }

  /** Bits above the lowest eight are only moved by eight steps. */
  lemma Step8High(x: bv32)
    ensures Step8(x & 0xFFFF_FF00) == x >> 8
  {
    hide Step4, Down4, LowClear;
    HighBits(x);
    Step4High(x & 0xFFFF_FF00);
    Step4High(Down4(x & 0xFFFF_FF00));
  }

  function TableByte(crc: bv32, b: byte): bv32 {
    Xor(Table((Xor(crc, Widen(b)) & 0xFF) as bv8), crc >> 8)
  }

  lemma SplitWord(x: bv32)
    ensures x == Xor(x & 0xFF, x & 0xFFFF_FF00)
    ensures Widen((x & 0xFF) as bv8) == x & 0xFF
  {
  }

  lemma ByteOnlyTouchesLow(crc: bv32, b: byte)
    ensures Xor(crc, Widen(b)) >> 8 == crc >> 8
  {
  }

  /** One round of csp_crc32_update is one byte of the definition. */
  lemma TableByteExact(crc: bv32, b: byte)
    ensures TableByte(crc, b) == ByteSpec(crc, b)
  {
    hide Table, Step8, Widen, Xor;
    var x := Xor(crc, Widen(b));
    SplitWord(x);
    ByteOnlyTouchesLow(crc, b);
    TableEntry((x & 0xFF) as bv8);
    Step8Xor(x & 0xFF, x & 0xFFFF_FF00);
    Step8High(x);
  }

  /** csp_crc32_update: the loop over the bytes, by table. */
  method Update(crc: bv32, data: seq<byte>) returns (r: bv32)
    ensures r == Spec(crc, data)
  {
    hide TableByte, ByteSpec;
    r := crc;
    for i := 0 to |data|
      invariant r == Spec(crc, data[..i])
    {
      TableByteExact(r, data[i]);
      assert data[..i + 1][..i] == data[..i];
      r := TableByte(r, data[i]);
    }
    assert data[..|data|] == data;
  }

  /** A message may be fed in any number of pieces. */
  lemma {:induction false} SplitUpdates(crc: bv32, a: seq<byte>, b: seq<byte>)
    ensures Spec(Spec(crc, a), b) == Spec(crc, a + b)
    decreases |b|
  {
    hide ByteSpec;
    if b == [] {
      assert a + b == a;
    } else {
      SplitUpdates(crc, a, b[..|b| - 1]);
      assert (a + b)[..|a + b| - 1] == a + b[..|b| - 1];
    }
  }

  /** csp_crc32_memory: init, update, final. */
  function Checksum(data: seq<byte>): bv32 {
    Xor(Spec(0xFFFF_FFFF, data), 0xFFFF_FFFF)
  }

  method Memory(data: seq<byte>) returns (r: bv32)
    ensures r == Checksum(data)
  {
    var crc := Update(0xFFFF_FFFF, data);
    r := Xor(crc, 0xFFFF_FFFF);
  }

  // ---- bursts of up to 32 bits are always noticed ----

  predicate TopSet(x: bv32) {
    x & 0x8000_0000 != 0
  }

  function Up1(x: bv32): bv32 {
    x << 1
  }

  function Up1Set(x: bv32): bv32 {
    (x << 1) | 1
  }

  /** The step undone: its top bit says whether the polynomial was added. */
  function Unstep(s: bv32): bv32 {
    if TopSet(s) then Up1Set(Xor(s, POLYNOMIAL)) else Up1(s)
  }

  lemma DownBits(x: bv32)
    ensures (x >> 1) & 0x8000_0000 == 0
    ensures ((x >> 1) << 1) | (x & 1) == x
    ensures x & 1 == 0 || x & 1 == 1
  {
  }

  lemma OrZero(x: bv32)
    ensures x | 0 == x
  {
  }

  lemma DownUp(x: bv32)
    ensures !TopSet(Down1(x))
    ensures if Odd(x) then Up1Set(Down1(x)) == x else Up1(Down1(x)) == x
  {
    DownBits(x);
    OrZero((x >> 1) << 1);
  }

  lemma UpOddBits(x: bv32)
    ensures ((x << 1) | 1) & 1 == 1 && (x << 1) & 1 == 0
  {
  }

  lemma UpClearBits(x: bv32)
    requires x & 0x8000_0000 == 0
    ensures ((x << 1) | 1) >> 1 == x && (x << 1) >> 1 == x
  {
  }

  lemma UpDown(x: bv32)
    requires !TopSet(x)
    ensures Odd(Up1Set(x)) && Down1(Up1Set(x)) == x && !Odd(Up1(x)) && Down1(Up1(x)) == x
  {
    UpOddBits(x);
    UpClearBits(x);
  }

  lemma TopBits(x: bv32)
    ensures (x ^ 0x82F6_3B78) & 0x8000_0000 == (x & 0x8000_0000) ^ 0x8000_0000
    ensures x & 0x8000_0000 == 0 || x & 0x8000_0000 == 0x8000_0000
  {
  }

  lemma PolynomialTop(x: bv32)
    ensures TopSet(Xor(x, POLYNOMIAL)) <==> !TopSet(x)
  {
    TopBits(x);
  }

  lemma XorBack(x: bv32, y: bv32)
    ensures Xor(Xor(x, y), y) == x
  {
  }

  lemma UnstepStep(s: bv32)
    ensures Unstep(Step(s)) == s
  {
    hide Step, Odd, Down1, Xor, TopSet, Up1, Up1Set;
    StepIs(s);
    DownUp(s);
    PolynomialTop(Down1(s));
    XorBack(Down1(s), POLYNOMIAL);
  }

  lemma StepUnstep(s: bv32)
    ensures Step(Unstep(s)) == s
  {
    hide Step, Odd, Down1, Xor, TopSet, Up1, Up1Set;
    StepIs(Unstep(s));
    PolynomialTop(s);
    XorBack(s, POLYNOMIAL);
    if TopSet(s) { UpDown(Xor(s, POLYNOMIAL)); } else { UpDown(s); }
  }

  lemma Step8Injective(x: bv32, y: bv32)
    requires Step8(x) == Step8(y)
    ensures x == y
  {
    hide Step8, Step4, Step, Unstep;
    UnstepStep8(x);
    UnstepStep8(y);
  }

  function Unstep4(s: bv32): bv32 {
    Unstep(Unstep(Unstep(Unstep(s))))
  }

  lemma UnstepStep4(s: bv32)
    ensures Unstep4(Step4(s)) == s
  {
    hide Step, Unstep;
    UnstepStep(s);
    UnstepStep(Step(s));
    UnstepStep(Step(Step(s)));
    UnstepStep(Step(Step(Step(s))));
  }

  lemma UnstepStep8(s: bv32)
    ensures Unstep4(Unstep4(Step8(s))) == s
  {
    hide Step4, Unstep4;
    UnstepStep4(s);
    UnstepStep4(Step4(s));
  }

  lemma XorAssoc(a: bv32, b: bv32, c: bv32)
    ensures Xor(Xor(a, b), c) == Xor(a, Xor(b, c))
  {
  }

  lemma XorCancel(a: bv32, b: bv32, c: bv32)
    requires Xor(a, b) == Xor(a, c)
    ensures b == c
  {
    assert a ^ (a ^ b) == b && a ^ (a ^ c) == c;
  }

  /** The register eight places higher. */
  function Up(w: bv32): bv32 {
    w << 8
  }

  predicate Fits24(w: bv32) {
    w & 0xFF00_0000 == 0
  }

  lemma UpBits(w: bv32)
    requires Fits24(w)
    ensures LowClear(Up(w)) && LowClear(Down4(Up(w))) && Down4(Down4(Up(w))) == w
  {
  }

  lemma Step8Up(w: bv32)
    requires Fits24(w)
    ensures Step8(Up(w)) == w
  {
    hide Step4, Up, Fits24, Down4, LowClear;
    UpBits(w);
    Step4High(Up(w));
    Step4High(Down4(Up(w)));
  }

  /** Adding w after eight steps is adding w, eight places higher, before them. */
  lemma Absorb(z: bv32, w: bv32)
    requires Fits24(w)
    ensures Xor(Step8(z), w) == Step8(Xor(z, Up(w)))
  {
    hide Step8, Xor, Up, Fits24;
    Step8Xor(z, Up(w));
    Step8Up(w);
  }

  /** Four bytes, the first in the lowest place. */
  function WordOf(b0: byte, b1: byte, b2: byte, b3: byte): bv32 {
    Xor(Widen(b0), Xor(Up(Widen(b1)), Xor(Up(Up(Widen(b2))), Up(Up(Up(Widen(b3)))))))
  }

  function Word(x: seq<byte>): bv32
    requires |x| == 4
  {
    WordOf(x[0], x[1], x[2], x[3])
  }

  lemma WordBytes(b0: byte, b1: byte, b2: byte, b3: byte)
    ensures var w := WordOf(b0, b1, b2, b3);
            && (w & 0xFF) as bv8 == b0 && ((w >> 8) & 0xFF) as bv8 == b1
            && ((w >> 16) & 0xFF) as bv8 == b2 && ((w >> 24) & 0xFF) as bv8 == b3
  {
  }

  lemma WordInjective(x: seq<byte>, y: seq<byte>)
    requires |x| == |y| == 4 && Word(x) == Word(y)
    ensures x == y
  {
    hide WordOf;
    WordBytes(x[0], x[1], x[2], x[3]);
    WordBytes(y[0], y[1], y[2], y[3]);
  }

  lemma ByteFits(b: byte)
    ensures Fits24(Widen(b)) && Fits24(Up(Widen(b))) && Fits24(Up(Up(Widen(b))))
  {
  }

  lemma WordXor(c: bv32, b0: bv32, b1: bv32, b2: bv32, b3: bv32)
    ensures Xor(Xor(Xor(Xor(c, b0), b1), b2), b3) == Xor(c, Xor(b0, Xor(b1, Xor(b2, b3))))
  {
    hide Xor;
    XorAssoc(c, b0, b1);
    XorAssoc(c, Xor(b0, b1), b2);
    XorAssoc(c, Xor(Xor(b0, b1), b2), b3);
    XorAssoc(Xor(b0, b1), b2, b3);
    XorAssoc(b0, b1, Xor(b2, b3));
  }

  function Step32(s: bv32): bv32 {
    Step8(Step8(Step8(Step8(s))))
  }

  lemma FourBytes(c: bv32, b0: byte, b1: byte, b2: byte, b3: byte)
    ensures ByteSpec(ByteSpec(ByteSpec(ByteSpec(c, b0), b1), b2), b3) == Step32(Xor(c, WordOf(b0, b1, b2, b3)))
  {
    hide Step8, Xor, Widen, Up, Fits24;
    ByteFits(b1); ByteFits(b2); ByteFits(b3);
    var z0 := Xor(c, Widen(b0));
    Absorb(z0, Widen(b1));
    var z1 := Xor(z0, Up(Widen(b1)));
    Absorb(Step8(z1), Widen(b2));
    Absorb(z1, Up(Widen(b2)));
    var z2 := Xor(z1, Up(Up(Widen(b2))));
    Absorb(Step8(Step8(z2)), Widen(b3));
    Absorb(Step8(z2), Up(Widen(b3)));
    Absorb(z2, Up(Up(Widen(b3))));
    WordXor(c, Widen(b0), Up(Widen(b1)), Up(Up(Widen(b2))), Up(Up(Up(Widen(b3)))));
  }

  lemma SpecOfFour(c: bv32, x: seq<byte>)
    requires |x| == 4
    ensures Spec(c, x) == ByteSpec(ByteSpec(ByteSpec(ByteSpec(c, x[0]), x[1]), x[2]), x[3])
  {
    hide ByteSpec;
    assert x[..3][..2] == x[..2] && x[..3][2] == x[2];
    assert x[..2][..1] == x[..1] && x[..2][1] == x[1];
    assert x[..1][..0] == [] && x[..1][0] == x[0];
    assert Spec(c, x[..1]) == ByteSpec(c, x[0]);
    assert Spec(c, x[..2]) == ByteSpec(Spec(c, x[..1]), x[1]);
    assert Spec(c, x[..3]) == ByteSpec(Spec(c, x[..2]), x[2]);
  }

  lemma SpecIsWord(c: bv32, x: seq<byte>)
    requires |x| == 4
    ensures Spec(c, x) == Step32(Xor(c, Word(x)))
  {
    hide Spec, ByteSpec, Step32, Xor, WordOf;
    SpecOfFour(c, x);
    FourBytes(c, x[0], x[1], x[2], x[3]);
  }

  lemma FourBytesDiffer(c: bv32, x: seq<byte>, y: seq<byte>)
    requires |x| == |y| == 4 && Spec(c, x) == Spec(c, y)
    ensures x == y
  {
    hide Spec, Xor, Word, Step8;
    SpecIsWord(c, x);
    SpecIsWord(c, y);
    var p, q := Xor(c, Word(x)), Xor(c, Word(y));
    Step8Injective(Step8(Step8(Step8(p))), Step8(Step8(Step8(q))));
    Step8Injective(Step8(Step8(p)), Step8(Step8(q)));
    Step8Injective(Step8(p), Step8(q));
    Step8Injective(p, q);
    XorCancel(c, Word(x), Word(y));
    WordInjective(x, y);
  }

  /** Feeding the same bytes to different registers leaves them different. */
  lemma {:induction false} SuffixKeepsDifference(c: bv32, d: bv32, s: seq<byte>)
    requires Spec(c, s) == Spec(d, s)
    ensures c == d
    decreases |s|
  {
    if s != [] {
      var b, t := s[|s| - 1], s[..|s| - 1];
      hide Step8, Xor;
      Step8Injective(Xor(Spec(c, t), Widen(b)), Xor(Spec(d, t), Widen(b)));
      XorCancelRight(Spec(c, t), Spec(d, t), Widen(b));
      SuffixKeepsDifference(c, d, t);
    }
  }

  lemma XorCancelRight(a: bv32, b: bv32, c: bv32)
    requires Xor(a, c) == Xor(b, c)
    ensures a == b
  {
    assert (a ^ c) ^ c == a && (b ^ c) ^ c == b;
  }

  lemma BurstFromRegister(c: bv32, x: seq<byte>, y: seq<byte>)
    requires |x| == |y| <= 4 && Spec(c, x) == Spec(c, y)
    ensures x == y
  {
    hide Spec;
    var z := Zeros(4 - |x|);
    SplitUpdates(c, x, z);
    SplitUpdates(c, y, z);
    FourBytesDiffer(c, x + z, y + z);
    assert x == (x + z)[..|x|] && y == (y + z)[..|x|];
  }

  /** Two messages of equal length that differ only within four adjacent bytes never have the
      same checksum. */
  lemma BurstDetected(p: seq<byte>, x: seq<byte>, y: seq<byte>, s: seq<byte>)
    requires |x| == |y| <= 4 && x != y
    ensures Checksum(p + x + s) != Checksum(p + y + s)
  {
    hide Spec, Xor;
    var i: bv32 := 0xFFFF_FFFF;
    if Checksum(p + x + s) == Checksum(p + y + s) {
      XorCancelRight(Spec(i, p + x + s), Spec(i, p + y + s), i);
      SplitUpdates(i, p + x, s);
      SplitUpdates(i, p + y, s);
      SuffixKeepsDifference(Spec(i, p + x), Spec(i, p + y), s);
      SplitUpdates(i, p, x);
      SplitUpdates(i, p, y);
      BurstFromRegister(Spec(i, p), x, y);
    }
  }

  function LittleEndian(w: bv32): (s: seq<byte>)
    ensures |s| == 4
  {
    [(w & 0xFF) as bv8, ((w >> 8) & 0xFF) as bv8, ((w >> 16) & 0xFF) as bv8, ((w >> 24) & 0xFF) as bv8]
  }

  lemma WordLittleEndian(w: bv32)
    ensures Word(LittleEndian(w)) == w
  {
  }

  lemma StepUnstep4(s: bv32)
    ensures Step4(Unstep4(s)) == s
  {
    hide Step, Unstep;
    StepUnstep(s);
    StepUnstep(Unstep(s));
    StepUnstep(Unstep(Unstep(s)));
    StepUnstep(Unstep(Unstep(Unstep(s))));
  }

  function Unstep8(s: bv32): bv32 {
    Unstep4(Unstep4(s))
  }

  lemma StepUnstep8(s: bv32)
    ensures Step8(Unstep8(s)) == s
  {
    hide Step4, Unstep4;
    StepUnstep4(s);
    StepUnstep4(Unstep4(s));
  }

  function Unstep32(s: bv32): bv32 {
    Unstep8(Unstep8(Unstep8(Unstep8(s))))
  }

  lemma StepUnstep32(s: bv32)
    ensures Step32(Unstep32(s)) == s
  {
    hide Step8, Unstep8;
    StepUnstep8(s);
    StepUnstep8(Unstep8(s));
    StepUnstep8(Unstep8(Unstep8(s)));
    StepUnstep8(Unstep8(Unstep8(Unstep8(s))));
  }

  /** Four bytes take the register from any value to any other. */
  lemma FourBytesReach(c: bv32, target: bv32) returns (y: seq<byte>)
    ensures |y| == 4 && Spec(c, y) == target
  {
    hide Spec, Step32, Unstep32, Xor, Word, LittleEndian;
    var w := Xor(c, Unstep32(target));
    y := LittleEndian(w);
    WordLittleEndian(w);
    SpecIsWord(c, y);
    XorTwice(c, Unstep32(target));
    StepUnstep32(target);
  }

  /** Whatever comes before, four data bytes give any checksum. */
  lemma ChecksumReach(p: seq<byte>, sum: bv32) returns (y: seq<byte>)
    ensures |y| == 4 && Checksum(p + y) == sum
  {
    hide Spec, Xor;
    var i: bv32 := 0xFFFF_FFFF;
    y := FourBytesReach(Spec(i, p), Xor(sum, i));
    SplitUpdates(i, p, y);
    XorBack(sum, i);
  }

  lemma XorTwice(a: bv32, b: bv32)
    ensures Xor(a, Xor(a, b)) == b
  {
  }
}
