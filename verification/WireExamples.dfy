/** One packet in each wire format, byte for byte: the positions and constants that a sender and a receiver of
    the model share. */
module WireExamples {
  import opened Bytes
  import opened CspId
  import Kiss
  import Can1
  import Can2
  import C = CanPbuf
  import Sfp
  import Rdp
  import RoutingText

  const ID1 := Id(2, 1, 5, 10, 20, 40)
  const ID2 := Id(2, 1, 300, 1000, 20, 40)

  /** Priority 2, source 5, destination 10, ports 20 and 40, CRC flag (src/csp_id.c:26-64). */
  lemma HeaderOne()
    ensures Header(V1, ID1) == [0x8A, 0xA5, 0x28, 0x01]
  {
    assert Pack1(ID1) == 0x8AA5_2801;
  }

  /** Priority 2, destination 1000, source 300, ports 20 and 40, CRC flag (src/csp_id.c:113-148). */
  lemma HeaderTwo()
    ensures Header(V2, ID2) == [0x83, 0xE8, 0x04, 0xB1, 0x4A, 0x01]
  {
    assert Pack2(ID2) == 0x83E8_04B1_4A01;
  }

  /** The bytes C0 and DB are escaped, and a frame is C0 00 ... C0 (src/interfaces/csp_if_kiss.c:21-70). */
  lemma KissBytes(c: Kiss.Setup, p: Packet)
    ensures Kiss.Escape([0xC0, 0x41, 0xDB]) == [0xDB, 0xDC, 0x41, 0xDB, 0xDD]
    ensures var e := Kiss.Encode(c, p); |e| >= 3 && e[0] == 0xC0 && e[1] == 0x00 && e[|e| - 1] == 0xC0
  {
    assert [0xC0, 0x41, 0xDB][1..] == [0x41, 0xDB] && [0x41, 0xDB][1..] == [0xDB] && [0xDB][1..] == [];
    assert Kiss.Escape([0xDB]) == [0xDB, 0xDD];
    assert Kiss.Escape([0x41, 0xDB]) == [0x41, 0xDB, 0xDD];
    hide Kiss.Framed;
  }

  lemma SmallBytes()
    ensures Byte(0) == 0 && Byte(1) == 1 && Byte(2) == 2 && Byte(3) == 3 && Byte(4) == 4 && Byte(5) == 5
    ensures Byte(6) == 6
  {
  }

  lemma SmallWords()
    ensures ToBE16(3) == [0, 3] && ToBE32(0) == [0, 0, 0, 0] && ToBE32(1) == [0, 0, 0, 1]
    ensures ToBE32(2) == [0, 0, 0, 2] && ToBE32(3) == [0, 0, 0, 3] && ToBE32(4) == [0, 0, 0, 4]
    ensures ToBE32(5) == [0, 0, 0, 5] && ToBE32(6) == [0, 0, 0, 6]
  {
    hide Byte;
    SmallBytes();
  }

  /** Three bytes in two frames: the first carries the header, the length and two bytes
      (src/interfaces/csp_if_can.c:193-258). */
  lemma CanOne()
    ensures var p := Packet(ID1, [1, 2, 3]);
            var base := Can1.Base(5, 10, 3);
            && Can1.Last(3) == 1
            && Can1.Fragment(base, p, 0) == C.CanFrame(0x0550_0403, [0x8A, 0xA5, 0x28, 0x01, 0, 3, 1, 2])
            && Can1.Fragment(base, p, 1) == C.CanFrame(0x0554_0003, [3])
  {
    hide Byte, Header, ToBE16;
    HeaderOne();
    SmallBytes();
    SmallWords();
    var p := Packet(ID1, [1, 2, 3]);
    assert p.data[0..2] == [1, 2] && p.data[2..3] == [3];
  }

  /** Five bytes in two frames: the id carries priority, destination, sender 5, packet count 1 and the fragment
      number; the first frame the rest of the header and four bytes (src/interfaces/csp_if_can.c:384-455). */
  lemma CanTwo()
    ensures var p := Packet(ID2, [1, 2, 3, 4, 5]);
            var base := Can2.Base(ID2, 5, 1);
            && Can2.Last(5) == 1
            && Can2.Fragment(base, p, 0) == C.CanFrame(0x107D_02A2, [0x04, 0xB1, 0x4A, 0x01, 1, 2, 3, 4])
            && Can2.Fragment(base, p, 1) == C.CanFrame(0x107D_02A5, [5])
  {
    hide Byte, Split;
    SmallBytes();
    ExtensionBytes();
    var p := Packet(ID2, [1, 2, 3, 4, 5]);
    assert p.data[0..4] == [1, 2, 3, 4] && p.data[4..5] == [5];
  }

  lemma ExtensionBytes()
    ensures Split(Can2.Extension(ID2)) == [0x04, 0xB1, 0x4A, 0x01]
  {
    assert Can2.Extension(ID2) == 0x04B1_4A01;
  }

  /** Three bytes in packets of two, each followed by its offset and the total (src/csp_sfp.c:15-24, 75-95). */
  lemma SfpPieces()
    ensures Sfp.Pieces([9, 8, 7], 2, 0) ==
            [Sfp.Fragment(true, [9, 8, 0, 0, 0, 0, 0, 0, 0, 3]), Sfp.Fragment(true, [7, 0, 0, 0, 2, 0, 0, 0, 3])]
  {
    hide ToBE32;
    SmallWords();
    var b: seq<byte> := [9, 8, 7];
    assert b[0..2] == [9, 8] && b[2..3] == [7];
    assert Sfp.Piece(b, 0, 2) == Sfp.Fragment(true, [9, 8, 0, 0, 0, 0, 0, 0, 0, 3]);
    assert Sfp.Piece(b, 2, 3) == Sfp.Fragment(true, [7, 0, 0, 0, 2, 0, 0, 0, 3]);
    assert Sfp.Pieces(b, 2, 3) == [];
    assert Sfp.Pieces(b, 2, 2) == [Sfp.Piece(b, 2, 3)];
    assert Sfp.Pieces(b, 2, 0) == [Sfp.Piece(b, 0, 2)] + Sfp.Pieces(b, 2, 2);
  }

  /** The options of a SYN: window, connection timeout, packet timeout, delayed acknowledgements, acknowledgement
      timeout and count (src/csp_rdp.c:188-195). */
  lemma SynOptions()
    ensures Rdp.EncodeOptions(Rdp.Options(4, 3, 2, 1, 5, 6)) ==
            [0, 0, 0, 4, 0, 0, 0, 3, 0, 0, 0, 2, 0, 0, 0, 1, 0, 0, 0, 5, 0, 0, 0, 6]
  {
    hide ToBE32;
    SmallWords();
  }

  /** A route with a mask and one with a next hop (src/csp_rtable_stdio.c:121-159). */
  lemma RouteText()
    ensures RoutingText.Print(5, RoutingText.Line(8, 3, "CAN", RoutingText.NO_VIA_NUMBER)) == "8/3 CAN"
    ensures RoutingText.Print(5, RoutingText.Line(2, 5, "KISS", 7)) == "2 KISS 7"
  {
    assert RoutingText.Dec(8) == "8" && RoutingText.Dec(3) == "3" && RoutingText.Dec(2) == "2";
    assert RoutingText.Dec(7) == "7";
  }

  lemma Crc1() ensures Crc32c.ByteSpec(0xFFFF_FFFF, 0x31) == 0x6F0A_661C {}
  lemma Crc2() ensures Crc32c.ByteSpec(0x6F0A_661C, 0x32) == 0x8CAA_3B9F {}
  lemma Crc3() ensures Crc32c.ByteSpec(0x8CAA_3B9F, 0x33) == 0xEF84_D04D {}
  lemma Crc4() ensures Crc32c.ByteSpec(0xEF84_D04D, 0x34) == 0x09C5_0B11 {}
  lemma Crc5() ensures Crc32c.ByteSpec(0x09C5_0B11, 0x35) == 0xE72E_DCCA {}
  lemma Crc6() ensures Crc32c.ByteSpec(0xE72E_DCCA, 0x36) == 0xBECA_8E79 {}
  lemma Crc7() ensures Crc32c.ByteSpec(0xBECA_8E79, 0x37) == 0xEDBD_6815 {}
  lemma Crc8() ensures Crc32c.ByteSpec(0xEDBD_6815, 0x38) == 0x9F78_7F65 {}
  lemma Crc9() ensures Crc32c.ByteSpec(0x9F78_7F65, 0x39) == 0x1CF9_6D7C {}

  /** The check value of CRC-32C: the checksum of the digits 1 to 9. */
  lemma CrcCheck()
    ensures Crc32c.Checksum([0x31, 0x32, 0x33, 0x34, 0x35, 0x36, 0x37, 0x38, 0x39]) == 0xE306_9283
  {
    Crc1(); Crc2(); Crc3(); Crc4(); Crc5(); Crc6(); Crc7(); Crc8(); Crc9();
    hide Crc32c.ByteSpec;
    var d: seq<byte> := [0x31, 0x32, 0x33, 0x34, 0x35, 0x36, 0x37, 0x38, 0x39];
    CrcNext(d, 0, 0xFFFF_FFFF);
    CrcNext(d, 1, 0x6F0A_661C);
    CrcNext(d, 2, 0x8CAA_3B9F);
    CrcNext(d, 3, 0xEF84_D04D);
    CrcNext(d, 4, 0x09C5_0B11);
    CrcNext(d, 5, 0xE72E_DCCA);
    CrcNext(d, 6, 0xBECA_8E79);
    CrcNext(d, 7, 0xEDBD_6815);
    CrcNext(d, 8, 0x9F78_7F65);
    assert d[..9] == d;
  }

  lemma CrcNext(d: seq<byte>, i: nat, crc: bv32)
    requires i < |d| && Crc32c.Spec(0xFFFF_FFFF, d[..i]) == crc
    ensures Crc32c.Spec(0xFFFF_FFFF, d[..i + 1]) == Crc32c.ByteSpec(crc, d[i])
  {
    hide Crc32c.ByteSpec;
    assert d[..i + 1][..i] == d[..i];
  }

  /** The trailer is the checksum in network order (src/csp_crc32.c:92-116). */
  lemma CrcTrailer()
    ensures AppendCrc(100, [0x31, 0x32, 0x33, 0x34, 0x35, 0x36, 0x37, 0x38, 0x39]) ==
            Some([0x31, 0x32, 0x33, 0x34, 0x35, 0x36, 0x37, 0x38, 0x39, 0xE3, 0x06, 0x92, 0x83])
  {
    CrcCheck();
    hide Crc32c.Checksum, Split;
    TrailerBytes();
    var d, t: seq<byte> := [0x31, 0x32, 0x33, 0x34, 0x35, 0x36, 0x37, 0x38, 0x39], [0xE3, 0x06, 0x92, 0x83];
    assert d + t == [0x31, 0x32, 0x33, 0x34, 0x35, 0x36, 0x37, 0x38, 0x39, 0xE3, 0x06, 0x92, 0x83];
  }

  lemma TrailerBytes()
    ensures Split(0xE306_9283) == [0xE3, 0x06, 0x92, 0x83]
  {
  }

  /** The loopback interface is called LOOP (include/csp/interfaces/csp_if_lo.h:17). */
  lemma LoopbackName(r: RoutingText.R.Route)
    ensures RoutingText.Saved([r]) == if r.iface.name == "LOOP" then [] else [r]
  {
    assert [r][..0] == [];
    assert RoutingText.Saved([]) == [];
  }

  /** Over CAN the next hop is addressed, if there is one (src/interfaces/csp_if_can.c:181-191). */
  lemma NextHop(p: Packet)
    ensures Can1.Dest(7, p) == 7 && Can1.Dest(NO_VIA, Packet(ID1, [])) == 10
  {
  }
}
