/**
 A known answer for the hand-written SHA-1 (src/lib/core/KeyParsers.cpp:217-309): the message "abc" and its digest, as
 FIPS 180 publishes them, with the message schedule and the state after every fourth round on the way. The answer fixes
 the constants, the initial state, and the order of words and octets.
 */
module Sha1Answer {
  import opened ByteStrings
  import opened Der
  import opened Sha1

  const ABC: Bytes := [0x61, 0x62, 0x63]

  /** The one block of the padded message. */
  function Block(): (r: Bytes)
    ensures |r| == 64
  {
    ABC + [0x80] + Fill(52, 0) + [0, 0, 0, 0, 0, 0, 0, 24]
  }

  lemma BlockIsPadded()
    ensures Padded(ABC) == Block()
  {
    EightOctets();
    assert Zeros(3) == 52;
  }

  lemma EightOctets()
    ensures BeBytes(24, 8) == [0, 0, 0, 0, 0, 0, 0, 24]
  {
    NoOctets(7);
    assert BeBytes(24, 8) == BeBytes(0, 7) + [24];
    assert Fill(7, 0) == [0, 0, 0, 0, 0, 0, 0];
  }

  lemma {:induction false} NoOctets(k: nat)
    ensures BeBytes(0, k) == Fill(k, 0)
  {
    if k > 0 {
      NoOctets(k - 1);
      assert Fill(k - 1, 0) + [0] == Fill(k, 0);
    }
  }

  // ---- The schedule -----------------------------------------------------------------------------

  function W(t: nat): (w: bv32) { Schedule(Block(), t) }

  predicate Four(t: nat, a: bv32, b: bv32, c: bv32, d: bv32) {
    W(t) == a && W(t + 1) == b && W(t + 2) == c && W(t + 3) == d
  }

  predicate Starts(first: bv32, last: bv32) { W(0) == first && W(15) == last && forall t :: 1 <= t < 15 ==> W(t) == 0 }

  lemma FirstWords(t: nat)
    requires t < 16
    ensures W(t) == if t == 0 then 0x61626380 else if t == 15 then 24 else 0
  {
    var b := Block();
    OctetWords();
    WordOf(b, 4 * t);
    hide Word, Block;
    var four: Bytes := if t == 0 then [0x61, 0x62, 0x63, 0x80] else if t == 15 then [0, 0, 0, 24] else [0, 0, 0, 0];
    BlockPart(t, four);
  }

  lemma BlockPart(t: nat, four: Bytes)
    requires t < 16
    requires four == if t == 0 then [0x61, 0x62, 0x63, 0x80] else if t == 15 then [0, 0, 0, 24] else [0, 0, 0, 0]
    ensures Block()[4 * t..4 * t + 4] == four
  {
  }

  lemma OctetWords()
    ensures Word([0x61, 0x62, 0x63, 0x80], 0) == 0x61626380
    ensures Word([0, 0, 0, 24], 0) == 24
    ensures Word([0, 0, 0, 0], 0) == 0
  {
    hide Word;
    WordValue(0x61, 0x62, 0x63, 0x80);
    WordValue(0, 0, 0, 24);
    WordValue(0, 0, 0, 0);
  }

  lemma WordValue(a: Byte, b: Byte, c: Byte, d: Byte)
    ensures Word([a, b, c, d], 0) ==
      ((a as bv32) << 24) | ((b as bv32) << 16) | ((c as bv32) << 8) | (d as bv32)
  {
  }

  lemma WordOf(b: Bytes, i: nat)
    requires i + 4 <= |b|
    ensures Word(b, i) == Word(b[i..i + 4], 0)
  {
  }

  lemma NextWord(t: nat)
    requires t >= 16
    ensures W(t) == Mix(W(t - 3), W(t - 8), W(t - 14), W(t - 16))
  {
    hide Mix, Word;
  }

  lemma Words0()
    ensures Starts(0x61626380, 24)
  {
    hide W;
    forall t | 0 <= t < 16 ensures W(t) == if t == 0 then 0x61626380 else if t == 15 then 24 else 0 { FirstWords(t); }
  }

  lemma Words16()
    ensures Four(16, 0xC2C4C700, 0x00000000, 0x00000030, 0x85898E01)
    ensures Four(20, 0x00000000, 0x00000060, 0x0B131C03, 0x00000030)
  {
    hide W;
    Words0();
    NextWord(16); NextWord(17); NextWord(18); NextWord(19);
    NextWord(20); NextWord(21); NextWord(22); NextWord(23);
  }

  lemma Words24()
    ensures Four(24, 0x85898EC1, 0x16263806, 0x00000000, 0x00000180)
    ensures Four(28, 0x2C4C700C, 0x000000F0, 0x93AFB507, 0x5898E048)
  {
    hide W;
    Words0();
    Words16();
    NextWord(24); NextWord(25); NextWord(26); NextWord(27);
    NextWord(28); NextWord(29); NextWord(30); NextWord(31);
  }

  lemma Words32()
    ensures Four(32, 0x8E9A9202, 0x00000600, 0xB131C0F0, 0x16263BC6)
    ensures Four(36, 0x4EBED41E, 0x626380A1, 0x16263806, 0x000018C0)
  {
    hide W;
    Words16();
    Words24();
    NextWord(32); NextWord(33); NextWord(34); NextWord(35);
    NextWord(36); NextWord(37); NextWord(38); NextWord(39);
  }

  lemma Words40()
    ensures Four(40, 0xD2E138C4, 0x00000F00, 0x3AFB5079, 0x898E04E5)
    ensures Four(44, 0xE2BA3C2B, 0x000060C0, 0x053A37CD, 0x74458547)
  {
    hide W;
    Words24();
    Words32();
    NextWord(40); NextWord(41); NextWord(42); NextWord(43);
    NextWord(44); NextWord(45); NextWord(46); NextWord(47);
  }

  lemma Words48()
    ensures Four(48, 0xDA9415ED, 0x26380A16, 0x626383A1, 0x4EBF54DE)
    ensures Four(52, 0x3835B44B, 0x0000F600, 0x1E84C7A3, 0x98E04D98)
  {
    hide W;
    Words32();
    Words40();
    NextWord(48); NextWord(49); NextWord(50); NextWord(51);
    NextWord(52); NextWord(53); NextWord(54); NextWord(55);
  }

  lemma Words56()
    ensures Four(56, 0x651D16A0, 0x62658CA1, 0x458544D6, 0x44584CB7)
    ensures Four(60, 0x7BA06619, 0x6380AEA2, 0x0AE55269, 0x627B49A1)
  {
    hide W;
    Words40();
    Words48();
    NextWord(56); NextWord(57); NextWord(58); NextWord(59);
    NextWord(60); NextWord(61); NextWord(62); NextWord(63);
  }

  lemma Words64()
    ensures Four(64, 0x7CD45C9D, 0x000F0000, 0xFB50753A, 0xEC6765E8)
    ensures Four(68, 0xBA3C2BE2, 0x0060C000, 0x3A37CD05, 0x458546F4)
  {
    hide W;
    Words48();
    Words56();
    NextWord(64); NextWord(65); NextWord(66); NextWord(67);
    NextWord(68); NextWord(69); NextWord(70); NextWord(71);
  }

  lemma Words72()
    ensures Four(72, 0xB8599DD6, 0x380A1A26, 0x01E02203, 0xE7CC3456)
    ensures Four(76, 0xE6E60B69, 0x00F60A00, 0x5795EF4F, 0x822E0879)
  {
    hide W;
    Words56();
    Words64();
    NextWord(72); NextWord(73); NextWord(74); NextWord(75);
    NextWord(76); NextWord(77); NextWord(78); NextWord(79);
  }

  // ---- The rounds -------------------------------------------------------------------------------

  function R(t: nat): (s: State) { Rounds(INITIAL, Block(), t) }

  lemma Rounds0()
    ensures R(0) == State(0x67452301, 0xEFCDAB89, 0x98BADCFE, 0x10325476, 0xC3D2E1F0)
  {
  }

  lemma NextRound(t: nat)
    ensures R(t + 1) == Round(R(t), t, W(t))
  {
    hide Round, Schedule;
  }

  lemma Rounds4()
    ensures R(4) == State(0xCDD8E11B, 0xA1390F08, 0x626414DB, 0xC045BF0C, 0x59D148C0)
  {
    hide W, R;
    Rounds0();
    Words0();
    NextRound(0);
    NextRound(1);
    assert R(2) == State(0x8990536D, 0x0116FC33, 0x59D148C0, 0x7BF36AE2, 0x98BADCFE);
    NextRound(2);
    NextRound(3);
  }

  lemma Rounds8()
    ensures R(8) == State(0x9E8C07D4, 0x993E30C1, 0x0FF1F290, 0xB3F52677, 0xF3763846)
  {
    hide W, R;
    Rounds4();
    Words0();
    NextRound(4);
    NextRound(5);
    assert R(6) == State(0x3FC7CA40, 0xCFD499DE, 0xF3763846, 0x284E43C2, 0x626414DB);
    NextRound(6);
    NextRound(7);
  }

  lemma Rounds12()
    ensures R(12) == State(0x63188FE4, 0xFBDA9E89, 0x60D47E4A, 0x12DAB8CA, 0x27A301F5)
  {
    hide W, R;
    Rounds8();
    Words0();
    NextRound(8);
    NextRound(9);
    assert R(10) == State(0x8351F929, 0x4B6AE328, 0x27A301F5, 0x664F8C30, 0x0FF1F290);
    NextRound(10);
    NextRound(11);
  }

  lemma Rounds16()
    ensures R(16) == State(0x20BDD62F, 0x196BEE77, 0x644A3DA5, 0x1181ED99, 0x18C623F9)
  {
    hide W, R;
    Rounds12();
    Words0();
    NextRound(12);
    NextRound(13);
    assert R(14) == State(0x9128F695, 0x4607B664, 0x18C623F9, 0x7EF6A7A2, 0x60D47E4A);
    NextRound(14);
    NextRound(15);
  }

  lemma Rounds20()
    ensures R(20) == State(0xFD9E1D7D, 0xDC64901D, 0x20AA99CA, 0xD3A49608, 0xC82F758B)
  {
    hide W, R;
    Rounds16();
    Words16();
    NextRound(16);
    NextRound(17);
    assert R(18) == State(0x82AA6728, 0x4E925823, 0xC82F758B, 0xC65AFB9D, 0x644A3DA5);
    NextRound(18);
    NextRound(19);
  }

  lemma Rounds24()
    ensures R(24) == State(0xD541F12D, 0x21283486, 0x0CE88EFF, 0x868DEC32, 0x7F67875F)
  {
    hide W, R;
    Rounds20();
    Words16();
    NextRound(20);
    NextRound(21);
    assert R(22) == State(0x33A23BFC, 0x1A37B0CA, 0x7F67875F, 0x77192407, 0x20AA99CA);
    NextRound(22);
    NextRound(23);
  }

  lemma Rounds28()
    ensures R(28) == State(0x4AA84D97, 0xBE35FBD5, 0x12104EE9, 0xB1D59F71, 0x75507C4B)
  {
    hide W, R;
    Rounds24();
    Words24();
    NextRound(24);
    NextRound(25);
    assert R(26) == State(0x48413BA4, 0xC7567DC6, 0x75507C4B, 0x884A0D21, 0x0CE88EFF);
    NextRound(26);
    NextRound(27);
  }

  lemma Rounds32()
    ensures R(32) == State(0x3B845D33, 0x1267B407, 0x717EEBD7, 0xA0DC2D4B, 0xD2AA1365)
  {
    hide W, R;
    Rounds28();
    Words24();
    NextRound(28);
    NextRound(29);
    assert R(30) == State(0xC5FBAF5D, 0x8370B52E, 0xD2AA1365, 0x6F8D7EF5, 0x12104EE9);
    NextRound(30);
    NextRound(31);
  }

  lemma Rounds36()
    ensures R(36) == State(0xDCBBB0CB, 0x21796AD4, 0x4B03AF04, 0x811BEA82, 0xCEE1174C)
  {
    hide W, R;
    Rounds32();
    Words32();
    NextRound(32);
    NextRound(33);
    assert R(34) == State(0x2C0EBC11, 0x046FAA0A, 0xCEE1174C, 0xC499ED01, 0x717EEBD7);
    NextRound(34);
    NextRound(35);
  }

  lemma Rounds40()
    ensures R(40) == State(0x32DE1CBA, 0x4C986405, 0xF718E5CF, 0x03D447F6, 0xF72EEC32)
  {
    hide W, R;
    Rounds36();
    Words32();
    NextRound(36);
    NextRound(37);
    assert R(38) == State(0xDC63973F, 0x0F511FD8, 0xF72EEC32, 0x085E5AB5, 0x4B03AF04);
    NextRound(38);
    NextRound(39);
  }

  lemma Rounds44()
    ensures R(44) == State(0xEE1B1AAF, 0x7F193DC5, 0x25C28357, 0xFF21F7B7, 0x8CB7872E)
  {
    hide W, R;
    Rounds40();
    Words40();
    NextRound(40);
    NextRound(41);
    assert R(42) == State(0x970A0D5C, 0xFC87DEDF, 0x8CB7872E, 0x53261901, 0xF718E5CF);
    NextRound(42);
    NextRound(43);
  }

  lemma Rounds48()
    ensures R(48) == State(0xBEAD02CA, 0xA01B846C, 0x8714787C, 0x503CA382, 0xFB86C6AB)
  {
    hide W, R;
    Rounds44();
    Words40();
    NextRound(44);
    NextRound(45);
    assert R(46) == State(0x1C51E1F2, 0x40F28E09, 0xFB86C6AB, 0x5FC64F71, 0x25C28357);
    NextRound(46);
    NextRound(47);
  }

  lemma Rounds52()
    ensures R(52) == State(0x3847AD66, 0x641DB2CE, 0x4481CC71, 0xEEBCE4CD, 0xAFAB40B2)
  {
    hide W, R;
    Rounds48();
    Words48();
    NextRound(48);
    NextRound(49);
    assert R(50) == State(0x120731C5, 0xBAF39337, 0xAFAB40B2, 0x2806E11B, 0x8714787C);
    NextRound(50);
    NextRound(51);
  }

  lemma Rounds56()
    ensures R(56) == State(0x5E6456AF, 0x7B71F76D, 0x09FA7C76, 0x792410DB, 0x8E11EB59)
  {
    hide W, R;
    Rounds52();
    Words48();
    NextRound(52);
    NextRound(53);
    assert R(54) == State(0x27E9F1D8, 0xE490436D, 0x8E11EB59, 0x99076CB3, 0x4481CC71);
    NextRound(54);
    NextRound(55);
  }

  lemma Rounds60()
    ensures R(60) == State(0x3F52DE5A, 0x09D785FD, 0x3498BFD4, 0xF211824F, 0xD79915AB)
  {
    hide W, R;
    Rounds56();
    Words56();
    NextRound(56);
    NextRound(57);
    assert R(58) == State(0xD262FF50, 0xC846093F, 0xD79915AB, 0x5EDC7DDB, 0x09FA7C76);
    NextRound(58);
    NextRound(59);
  }

  lemma Rounds64()
    ensures R(64) == State(0x6B61C9E1, 0xB66C020B, 0x9523272C, 0xF5D5B051, 0x8FD4B796)
  {
    hide W, R;
    Rounds60();
    Words56();
    NextRound(60);
    NextRound(61);
    assert R(62) == State(0x548C9CB2, 0xD756C147, 0x8FD4B796, 0x4275E17F, 0x3498BFD4);
    NextRound(62);
    NextRound(63);
  }

  lemma Rounds68()
    ensures R(68) == State(0x78DD4D2B, 0x0C3DF2B4, 0x4405957E, 0x0677E9EB, 0x5AD87278)
  {
    hide W, R;
    Rounds64();
    Words64();
    NextRound(64);
    NextRound(65);
    assert R(66) == State(0x101655F9, 0x19DFA7AC, 0x5AD87278, 0xED9B0082, 0x9523272C);
    NextRound(66);
    NextRound(67);
  }

  lemma Rounds72()
    ensures R(72) == State(0x39859DE7, 0xC199F8C7, 0x8FC96230, 0x125C24F0, 0xDE37534A)
  {
    hide W, R;
    Rounds68();
    Words64();
    NextRound(68);
    NextRound(69);
    assert R(70) == State(0x3F2588C2, 0x497093C0, 0xDE37534A, 0x030F7CAD, 0x4405957E);
    NextRound(70);
    NextRound(71);
  }

  lemma Rounds76()
    ensures R(76) == State(0x63F7DAB7, 0x5EE76897, 0xC45E4FDB, 0x3B6D0B79, 0xCE616779)
  {
    hide W, R;
    Rounds72();
    Words72();
    NextRound(72);
    NextRound(73);
    assert R(74) == State(0x11793F6F, 0xEDB42DE4, 0xCE616779, 0xF0667E31, 0x8FC96230);
    NextRound(74);
    NextRound(75);
  }

  lemma Rounds80()
    ensures R(80) == State(0x42541B35, 0x5738D5E1, 0x21834873, 0x681E6DF6, 0xD8FDF6AD)
  {
    hide W, R;
    Rounds76();
    Words72();
    NextRound(76);
    NextRound(77);
    assert R(78) == State(0x860D21CC, 0xA079B7D9, 0xD8FDF6AD, 0xD7B9DA25, 0xC45E4FDB);
    NextRound(78);
    NextRound(79);
  }

  // ---- The answer -------------------------------------------------------------------------------

  const ANSWER: Bytes :=
    [0xA9, 0x99, 0x3E, 0x36, 0x47, 0x06, 0x81, 0x6A, 0xBA, 0x3E,
     0x25, 0x71, 0x78, 0x50, 0xC2, 0x6C, 0x9C, 0xD0, 0xD8, 0x9D]

  lemma AbcState()
    ensures Fold(INITIAL, Padded(ABC)) == State(0xA9993E36, 0x4706816A, 0xBA3E2571, 0x7850C26C, 0x9CD0D89D)
  {
    Rounds80();
    BlockIsPadded();
    hide Rounds, Block;
    FoldOne(INITIAL, Block());
  }

  lemma AbcDigest()
    ensures Digest(ABC) == ANSWER
  {
    hide Fold, Padded, INITIAL;
    AbcState();

  }
}
