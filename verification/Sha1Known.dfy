/** A known answer: the digest of "abc" in section 7.3 of RFC 3174 fixes the constants that the definition
    and the code share. */
module Sha1Known {
  import opened Bytes
  import opened Sha1

  const ABC: seq<byte> := [0x61, 0x62, 0x63]

  function Pick(i: int, a: bv32, b: bv32, c: bv32, d: bv32): bv32 {
    if i == 0 then a else if i == 1 then b else if i == 2 then c else d
  }

  /** The eighty words of the schedule. */
  function W(t: nat): bv32 {
    if t < 4 then Pick(t, 0x6162_6380, 0x0000_0000, 0x0000_0000, 0x0000_0000)
    else if t < 8 then Pick(t - 4, 0x0000_0000, 0x0000_0000, 0x0000_0000, 0x0000_0000)
    else if t < 12 then Pick(t - 8, 0x0000_0000, 0x0000_0000, 0x0000_0000, 0x0000_0000)
    else if t < 16 then Pick(t - 12, 0x0000_0000, 0x0000_0000, 0x0000_0000, 0x0000_0018)
    else if t < 20 then Pick(t - 16, 0xC2C4_C700, 0x0000_0000, 0x0000_0030, 0x8589_8E01)
    else if t < 24 then Pick(t - 20, 0x0000_0000, 0x0000_0060, 0x0B13_1C03, 0x0000_0030)
    else if t < 28 then Pick(t - 24, 0x8589_8EC1, 0x1626_3806, 0x0000_0000, 0x0000_0180)
    else if t < 32 then Pick(t - 28, 0x2C4C_700C, 0x0000_00F0, 0x93AF_B507, 0x5898_E048)
    else if t < 36 then Pick(t - 32, 0x8E9A_9202, 0x0000_0600, 0xB131_C0F0, 0x1626_3BC6)
    else if t < 40 then Pick(t - 36, 0x4EBE_D41E, 0x6263_80A1, 0x1626_3806, 0x0000_18C0)
    else if t < 44 then Pick(t - 40, 0xD2E1_38C4, 0x0000_0F00, 0x3AFB_5079, 0x898E_04E5)
    else if t < 48 then Pick(t - 44, 0xE2BA_3C2B, 0x0000_60C0, 0x053A_37CD, 0x7445_8547)
    else if t < 52 then Pick(t - 48, 0xDA94_15ED, 0x2638_0A16, 0x6263_83A1, 0x4EBF_54DE)
    else if t < 56 then Pick(t - 52, 0x3835_B44B, 0x0000_F600, 0x1E84_C7A3, 0x98E0_4D98)
    else if t < 60 then Pick(t - 56, 0x651D_16A0, 0x6265_8CA1, 0x4585_44D6, 0x4458_4CB7)
    else if t < 64 then Pick(t - 60, 0x7BA0_6619, 0x6380_AEA2, 0x0AE5_5269, 0x627B_49A1)
    else if t < 68 then Pick(t - 64, 0x7CD4_5C9D, 0x000F_0000, 0xFB50_753A, 0xEC67_65E8)
    else if t < 72 then Pick(t - 68, 0xBA3C_2BE2, 0x0060_C000, 0x3A37_CD05, 0x4585_46F4)
    else if t < 76 then Pick(t - 72, 0xB859_9DD6, 0x380A_1A26, 0x01E0_2203, 0xE7CC_3456)
    else Pick(t - 76, 0xE6E6_0B69, 0x00F6_0A00, 0x5795_EF4F, 0x822E_0879)
  }

  /** What register a holds after t - 4 rounds; earlier values are those that give the first registers. */
  function A(t: nat): bv32 {
    if t < 4 then Pick(t, 0x0F4B_87C3, 0x40C9_51D8, 0x62EB_73FA, 0xEFCD_AB89)
    else if t < 8 then Pick(t - 4, 0x6745_2301, 0x0116_FC33, 0x8990_536D, 0xA139_0F08)
    else if t < 12 then Pick(t - 8, 0xCDD8_E11B, 0xCFD4_99DE, 0x3FC7_CA40, 0x993E_30C1)
    else if t < 16 then Pick(t - 12, 0x9E8C_07D4, 0x4B6A_E328, 0x8351_F929, 0xFBDA_9E89)
    else if t < 20 then Pick(t - 16, 0x6318_8FE4, 0x4607_B664, 0x9128_F695, 0x196B_EE77)
    else if t < 24 then Pick(t - 20, 0x20BD_D62F, 0x4E92_5823, 0x82AA_6728, 0xDC64_901D)
    else if t < 28 then Pick(t - 24, 0xFD9E_1D7D, 0x1A37_B0CA, 0x33A2_3BFC, 0x2128_3486)
    else if t < 32 then Pick(t - 28, 0xD541_F12D, 0xC756_7DC6, 0x4841_3BA4, 0xBE35_FBD5)
    else if t < 36 then Pick(t - 32, 0x4AA8_4D97, 0x8370_B52E, 0xC5FB_AF5D, 0x1267_B407)
    else if t < 40 then Pick(t - 36, 0x3B84_5D33, 0x046F_AA0A, 0x2C0E_BC11, 0x2179_6AD4)
    else if t < 44 then Pick(t - 40, 0xDCBB_B0CB, 0x0F51_1FD8, 0xDC63_973F, 0x4C98_6405)
    else if t < 48 then Pick(t - 44, 0x32DE_1CBA, 0xFC87_DEDF, 0x970A_0D5C, 0x7F19_3DC5)
    else if t < 52 then Pick(t - 48, 0xEE1B_1AAF, 0x40F2_8E09, 0x1C51_E1F2, 0xA01B_846C)
    else if t < 56 then Pick(t - 52, 0xBEAD_02CA, 0xBAF3_9337, 0x1207_31C5, 0x641D_B2CE)
    else if t < 60 then Pick(t - 56, 0x3847_AD66, 0xE490_436D, 0x27E9_F1D8, 0x7B71_F76D)
    else if t < 64 then Pick(t - 60, 0x5E64_56AF, 0xC846_093F, 0xD262_FF50, 0x09D7_85FD)
    else if t < 68 then Pick(t - 64, 0x3F52_DE5A, 0xD756_C147, 0x548C_9CB2, 0xB66C_020B)
    else if t < 72 then Pick(t - 68, 0x6B61_C9E1, 0x19DF_A7AC, 0x1016_55F9, 0x0C3D_F2B4)
    else if t < 76 then Pick(t - 72, 0x78DD_4D2B, 0x4970_93C0, 0x3F25_88C2, 0xC199_F8C7)
    else if t < 80 then Pick(t - 76, 0x3985_9DE7, 0xEDB4_2DE4, 0x1179_3F6F, 0x5EE7_6897)
    else if t < 84 then Pick(t - 80, 0x63F7_DAB7, 0xA079_B7D9, 0x860D_21CC, 0x5738_D5E1)
    else Pick(t - 84, 0x4254_1B35, 0x0000_0000, 0x0000_0000, 0x0000_0000)
  }

  function At(t: nat): Regs {
    Regs(A(t + 4), A(t + 3), Rol30(A(t + 2)), Rol30(A(t + 1)), Rol30(A(t)))
  }

  // ---- each step of the tables ----

  predicate Recurs(t: nat)
    requires 16 <= t
  {
    W(t) == Rol1(Xor(Xor(Xor(W(t - 3), W(t - 8)), W(t - 14)), W(t - 16)))
  }

  predicate Turns(t: nat)
    requires t < 80
  {
    Round(t, At(t), W(t)) == At(t + 1)
  }

  lemma Recurs0()
    ensures forall t :: 16 <= t < 20 ==> Recurs(t)
  {
    assert Recurs(16); assert Recurs(17); assert Recurs(18); assert Recurs(19);
  }

  lemma Recurs1()
    ensures forall t :: 20 <= t < 24 ==> Recurs(t)
  {
    assert Recurs(20); assert Recurs(21); assert Recurs(22); assert Recurs(23);
  }

  lemma Recurs2()
    ensures forall t :: 24 <= t < 28 ==> Recurs(t)
  {
    assert Recurs(24); assert Recurs(25); assert Recurs(26); assert Recurs(27);
  }

  lemma Recurs3()
    ensures forall t :: 28 <= t < 32 ==> Recurs(t)
  {
    assert Recurs(28); assert Recurs(29); assert Recurs(30); assert Recurs(31);
  }

  lemma Recurs4()
    ensures forall t :: 32 <= t < 36 ==> Recurs(t)
  {
    assert Recurs(32); assert Recurs(33); assert Recurs(34); assert Recurs(35);
  }

  lemma Recurs5()
    ensures forall t :: 36 <= t < 40 ==> Recurs(t)
  {
    assert Recurs(36); assert Recurs(37); assert Recurs(38); assert Recurs(39);
  }

  lemma Recurs6()
    ensures forall t :: 40 <= t < 44 ==> Recurs(t)
  {
    assert Recurs(40); assert Recurs(41); assert Recurs(42); assert Recurs(43);
  }

  lemma Recurs7()
    ensures forall t :: 44 <= t < 48 ==> Recurs(t)
  {
    assert Recurs(44); assert Recurs(45); assert Recurs(46); assert Recurs(47);
  }

  lemma Recurs8()
    ensures forall t :: 48 <= t < 52 ==> Recurs(t)
  {
    assert Recurs(48); assert Recurs(49); assert Recurs(50); assert Recurs(51);
  }

  lemma Recurs9()
    ensures forall t :: 52 <= t < 56 ==> Recurs(t)
  {
    assert Recurs(52); assert Recurs(53); assert Recurs(54); assert Recurs(55);
  }

  lemma Recurs10()
    ensures forall t :: 56 <= t < 60 ==> Recurs(t)
  {
    assert Recurs(56); assert Recurs(57); assert Recurs(58); assert Recurs(59);
  }

  lemma Recurs11()
    ensures forall t :: 60 <= t < 64 ==> Recurs(t)
  {
    assert Recurs(60); assert Recurs(61); assert Recurs(62); assert Recurs(63);
  }

  lemma Recurs12()
    ensures forall t :: 64 <= t < 68 ==> Recurs(t)
  {
    assert Recurs(64); assert Recurs(65); assert Recurs(66); assert Recurs(67);
  }

  lemma Recurs13()
    ensures forall t :: 68 <= t < 72 ==> Recurs(t)
  {
    assert Recurs(68); assert Recurs(69); assert Recurs(70); assert Recurs(71);
  }

  lemma Recurs14()
    ensures forall t :: 72 <= t < 76 ==> Recurs(t)
  {
    assert Recurs(72); assert Recurs(73); assert Recurs(74); assert Recurs(75);
  }

  lemma Recurs15()
    ensures forall t :: 76 <= t < 80 ==> Recurs(t)
  {
    assert Recurs(76); assert Recurs(77); assert Recurs(78); assert Recurs(79);
  }

  lemma Turns0()
    ensures forall t :: 0 <= t < 5 ==> Turns(t)
  {
    assert Turns(0); assert Turns(1); assert Turns(2); assert Turns(3); assert Turns(4);
  }

  lemma Turns1()
    ensures forall t :: 5 <= t < 10 ==> Turns(t)
  {
    assert Turns(5); assert Turns(6); assert Turns(7); assert Turns(8); assert Turns(9);
  }

  lemma Turns2()
    ensures forall t :: 10 <= t < 15 ==> Turns(t)
  {
    assert Turns(10); assert Turns(11); assert Turns(12); assert Turns(13); assert Turns(14);
  }

  lemma Turns3()
    ensures forall t :: 15 <= t < 20 ==> Turns(t)
  {
    assert Turns(15); assert Turns(16); assert Turns(17); assert Turns(18); assert Turns(19);
  }

  lemma Turns4()
    ensures forall t :: 20 <= t < 25 ==> Turns(t)
  {
    assert Turns(20); assert Turns(21); assert Turns(22); assert Turns(23); assert Turns(24);
  }

  lemma Turns5()
    ensures forall t :: 25 <= t < 30 ==> Turns(t)
  {
    assert Turns(25); assert Turns(26); assert Turns(27); assert Turns(28); assert Turns(29);
  }

  lemma Turns6()
    ensures forall t :: 30 <= t < 35 ==> Turns(t)
  {
    assert Turns(30); assert Turns(31); assert Turns(32); assert Turns(33); assert Turns(34);
  }

  lemma Turns7()
    ensures forall t :: 35 <= t < 40 ==> Turns(t)
  {
    assert Turns(35); assert Turns(36); assert Turns(37); assert Turns(38); assert Turns(39);
  }

  lemma Turns8()
    ensures forall t :: 40 <= t < 45 ==> Turns(t)
  {
    assert Turns(40); assert Turns(41); assert Turns(42); assert Turns(43); assert Turns(44);
  }

  lemma Turns9()
    ensures forall t :: 45 <= t < 50 ==> Turns(t)
  {
    assert Turns(45); assert Turns(46); assert Turns(47); assert Turns(48); assert Turns(49);
  }

  lemma Turns10()
    ensures forall t :: 50 <= t < 55 ==> Turns(t)
  {
    assert Turns(50); assert Turns(51); assert Turns(52); assert Turns(53); assert Turns(54);
  }

  lemma Turns11()
    ensures forall t :: 55 <= t < 60 ==> Turns(t)
  {
    assert Turns(55); assert Turns(56); assert Turns(57); assert Turns(58); assert Turns(59);
  }

  lemma Turns12()
    ensures forall t :: 60 <= t < 65 ==> Turns(t)
  {
    assert Turns(60); assert Turns(61); assert Turns(62); assert Turns(63); assert Turns(64);
  }

  lemma Turns13()
    ensures forall t :: 65 <= t < 70 ==> Turns(t)
  {
    assert Turns(65); assert Turns(66); assert Turns(67); assert Turns(68); assert Turns(69);
  }

  lemma Turns14()
    ensures forall t :: 70 <= t < 75 ==> Turns(t)
  {
    assert Turns(70); assert Turns(71); assert Turns(72); assert Turns(73); assert Turns(74);
  }

  lemma Turns15()
    ensures forall t :: 75 <= t < 80 ==> Turns(t)
  {
    assert Turns(75); assert Turns(76); assert Turns(77); assert Turns(78); assert Turns(79);
  }

  lemma AllRecur(t: nat)
    requires 16 <= t < 80
    ensures Recurs(t)
  {
    hide Recurs;
    Recurs0(); Recurs1(); Recurs2(); Recurs3(); Recurs4(); Recurs5(); Recurs6(); Recurs7();
    Recurs8(); Recurs9(); Recurs10(); Recurs11(); Recurs12(); Recurs13(); Recurs14(); Recurs15();
  }

  lemma AllTurn(t: nat)
    requires t < 80
    ensures Turns(t)
  {
    hide Turns;
    Turns0(); Turns1(); Turns2(); Turns3(); Turns4(); Turns5(); Turns6(); Turns7();
    Turns8(); Turns9(); Turns10(); Turns11(); Turns12(); Turns13(); Turns14(); Turns15();
  }

  // ---- the block ----

  lemma {:induction false} ScheduleIs(block: seq<byte>, n: nat)
    requires |block| == 64 && n <= 80
    requires forall t :: 0 <= t < 16 ==> Sha1.Word(block[4 * t..4 * t + 4]) == W(t)
    ensures forall t :: 0 <= t < n ==> Schedule(block, n)[t] == W(t)
  {
    hide W, Sha1.Word, Rol1, Xor;
    if n > 0 {
      ScheduleIs(block, n - 1);
      if n > 16 { AllRecur(n - 1); }
    }
  }

  lemma {:induction false} RoundsAre(w: seq<bv32>, n: nat)
    requires |w| == 80 && n <= 80 && forall t :: 0 <= t < 80 ==> w[t] == W(t)
    ensures Rounds(w, n, At(0)) == At(n)
  {
    hide W, At, Round;
    if n > 0 {
      RoundsAre(w, n - 1);
      AllTurn(n - 1);
    }
  }

  lemma Ends()
    ensures At(0) == INITIAL
    ensures Add(INITIAL, At(80)) == Regs(0xA999_3E36, 0x4706_816A, 0xBA3E_2571, 0x7850_C26C, 0x9CD0_D89D)
  {
  }

  // ---- the message ----

  lemma SmallBytes()
    ensures Byte(0) == 0 && Byte(24) == 24
  {
    assert Byte(3) == 3;
    assert Byte(6) == 6;
    assert Byte(9) == 9;
    assert Byte(12) == 12;
    assert Byte(15) == 15;
    assert Byte(18) == 18;
    assert Byte(21) == 21;
  }

  lemma LengthField()
    ensures Bits(3) == 24 && ToBE64(24) == [0, 0, 0, 0, 0, 0, 0, 24]
  {
    hide Byte;
    SmallBytes();
    assert ToBE16(0) == [0, 0] && ToBE16(24) == [0, 24];
  }

  lemma Padded()
    ensures var block := ABC + Padding(3);
            && |block| == 64 && block[..4] == [0x61, 0x62, 0x63, 0x80]
            && (forall i :: 4 <= i < 63 ==> block[i] == 0) && block[63] == 24
  {
    hide ToBE64, Zeros;
    LengthField();
    var z, l := Zeros(52), ToBE64(24);
    assert Padding(3) == [0x80] + z + l;
    var block := ABC + ([0x80] + z + l);
    forall i | 4 <= i < 56 ensures block[i] == 0 { assert block[i] == z[i - 4]; }
    forall i | 56 <= i < 64 ensures block[i] == l[i - 56] { }
  }

  lemma WordsOfMessage(block: seq<byte>, t: nat)
    requires |block| == 64 && block[..4] == [0x61, 0x62, 0x63, 0x80] && t < 16
    requires (forall i :: 4 <= i < 63 ==> block[i] == 0) && block[63] == 24
    ensures Sha1.Word(block[4 * t..4 * t + 4]) == W(t)
  {
    if t == 0 {
      FirstWord();
    } else {
      var s := block[4 * t..4 * t + 4];
      assert s == if t < 15 then [0, 0, 0, 0] else [0, 0, 0, 24];
      OtherWords(t);
    }
  }

  lemma FirstWord()
    ensures Sha1.Word([0x61, 0x62, 0x63, 0x80]) == W(0)
  {
  }

  lemma ZeroWord()
    ensures Sha1.Word([0, 0, 0, 0]) == 0 && Sha1.Word([0, 0, 0, 24]) == 24
  {
  }

  lemma TableStart()
    ensures W(1) == 0 && W(2) == 0 && W(3) == 0 && W(4) == 0 && W(5) == 0 && W(6) == 0 && W(7) == 0
    ensures W(8) == 0 && W(9) == 0 && W(10) == 0 && W(11) == 0 && W(12) == 0 && W(13) == 0 && W(14) == 0
    ensures W(15) == 24
  {
  }

  lemma OtherWords(t: nat)
    requires 0 < t < 16
    ensures W(t) == Sha1.Word(if t < 15 then [0, 0, 0, 0] else [0, 0, 0, 24])
  {
    hide W, Sha1.Word;
    TableStart();
    ZeroWord();
  }

  lemma BlockOfMessage()
    ensures var block := ABC + Padding(3);
            && |block| == 64
            && Block(INITIAL, block) == Regs(0xA999_3E36, 0x4706_816A, 0xBA3E_2571, 0x7850_C26C, 0x9CD0_D89D)
  {
    hide W, At, Padding, Sha1.Word, Add, Rounds, Schedule;
    Padded();
    var block := ABC + Padding(3);
    forall t | 0 <= t < 16 ensures Sha1.Word(block[4 * t..4 * t + 4]) == W(t) {
      WordsOfMessage(block, t);
    }
    ScheduleIs(block, 80);
    RoundsAre(Schedule(block, 80), 80);
    Ends();
  }

  /** SHA-1("abc"). */
  lemma KnownAnswer()
    ensures Digest(ABC) == [0xA9, 0x99, 0x3E, 0x36, 0x47, 0x06, 0x81, 0x6A, 0xBA, 0x3E,
                           0x25, 0x71, 0x78, 0x50, 0xC2, 0x6C, 0x9C, 0xD0, 0xD8, 0x9D]
  {
    hide Padding, Block;
    BlockOfMessage();
    var block := ABC + Padding(3);
    assert block[..64] == block && block[64..] == [];
    assert Blocks(INITIAL, block) == Block(INITIAL, block);
  }
}
