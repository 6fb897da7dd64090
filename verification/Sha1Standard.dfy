/** What pins the definitions of `Sha1Spec` from outside: the padding of FIPS 180-4, section
    5.1.1, element by element, and the one-block example of the standard (the message "abc",
    appendix A.1 of FIPS 180-2), worked out word by word and round by round. */
module Sha1Standard {
  import opened Words
  import opened Sha1Spec
  import opened ByteCounter

  /** The message "abc", padded, as words */
  const ABC: seq<Word> := [
    Word(0x61626380), Word(0), Word(0), Word(0), Word(0), Word(0), Word(0), Word(0),
    Word(0), Word(0), Word(0), Word(0), Word(0), Word(0), Word(0), Word(0x00000018)]

  lemma NextWord(t: nat, a: Word, b: Word, c: Word, d: Word)
    requires t >= 16 && Schedule(ABC, t - 3) == a && Schedule(ABC, t - 8) == b
    requires Schedule(ABC, t - 14) == c && Schedule(ABC, t - 16) == d
    ensures Schedule(ABC, t) == Rotl1(Xor(Xor(Xor(a, b), c), d))
  {
    hide Rotl1, Xor;
  }

  lemma Words16()
    ensures Schedule(ABC, 16) == Word(0xC2C4C700) && Schedule(ABC, 17) == Word(0x00000000)
    ensures Schedule(ABC, 18) == Word(0x00000030) && Schedule(ABC, 19) == Word(0x85898E01)
    ensures Schedule(ABC, 20) == Word(0x00000000) && Schedule(ABC, 21) == Word(0x00000060)
    ensures Schedule(ABC, 22) == Word(0x0B131C03) && Schedule(ABC, 23) == Word(0x00000030)
  {
    FirstWords();
    LaterWords();
    hide Schedule;
    NextWord(16, Word(0x00000000), Word(0x00000000), Word(0x00000000), Word(0x61626380));
    NextWord(17, Word(0x00000000), Word(0x00000000), Word(0x00000000), Word(0x00000000));
    NextWord(18, Word(0x00000018), Word(0x00000000), Word(0x00000000), Word(0x00000000));
    NextWord(19, Word(0xC2C4C700), Word(0x00000000), Word(0x00000000), Word(0x00000000));
    NextWord(20, Word(0x00000000), Word(0x00000000), Word(0x00000000), Word(0x00000000));
    NextWord(21, Word(0x00000030), Word(0x00000000), Word(0x00000000), Word(0x00000000));
    NextWord(22, Word(0x85898E01), Word(0x00000000), Word(0x00000000), Word(0x00000000));
    NextWord(23, Word(0x00000000), Word(0x00000018), Word(0x00000000), Word(0x00000000));
  }

  lemma Words24()
    ensures Schedule(ABC, 24) == Word(0x85898EC1) && Schedule(ABC, 25) == Word(0x16263806)
    ensures Schedule(ABC, 26) == Word(0x00000000) && Schedule(ABC, 27) == Word(0x00000180)
    ensures Schedule(ABC, 28) == Word(0x2C4C700C) && Schedule(ABC, 29) == Word(0x000000F0)
    ensures Schedule(ABC, 30) == Word(0x93AFB507) && Schedule(ABC, 31) == Word(0x5898E048)
  {
    Words16();
    FirstWords();
    LaterWords();
    hide Schedule;
    NextWord(24, Word(0x00000060), Word(0xC2C4C700), Word(0x00000000), Word(0x00000000));
    NextWord(25, Word(0x0B131C03), Word(0x00000000), Word(0x00000000), Word(0x00000000));
    NextWord(26, Word(0x00000030), Word(0x00000030), Word(0x00000000), Word(0x00000000));
    NextWord(27, Word(0x85898EC1), Word(0x85898E01), Word(0x00000000), Word(0x00000000));
    NextWord(28, Word(0x16263806), Word(0x00000000), Word(0x00000000), Word(0x00000000));
    NextWord(29, Word(0x00000000), Word(0x00000060), Word(0x00000018), Word(0x00000000));
    NextWord(30, Word(0x00000180), Word(0x0B131C03), Word(0xC2C4C700), Word(0x00000000));
    NextWord(31, Word(0x2C4C700C), Word(0x00000030), Word(0x00000000), Word(0x00000018));
  }

  lemma Words32()
    ensures Schedule(ABC, 32) == Word(0x8E9A9202) && Schedule(ABC, 33) == Word(0x00000600)
    ensures Schedule(ABC, 34) == Word(0xB131C0F0) && Schedule(ABC, 35) == Word(0x16263BC6)
    ensures Schedule(ABC, 36) == Word(0x4EBED41E) && Schedule(ABC, 37) == Word(0x626380A1)
    ensures Schedule(ABC, 38) == Word(0x16263806) && Schedule(ABC, 39) == Word(0x000018C0)
  {
    Words16();
    Words24();
    hide Schedule;
    NextWord(32, Word(0x000000F0), Word(0x85898EC1), Word(0x00000030), Word(0xC2C4C700));
    NextWord(33, Word(0x93AFB507), Word(0x16263806), Word(0x85898E01), Word(0x00000000));
    NextWord(34, Word(0x5898E048), Word(0x00000000), Word(0x00000000), Word(0x00000030));
    NextWord(35, Word(0x8E9A9202), Word(0x00000180), Word(0x00000060), Word(0x85898E01));
    NextWord(36, Word(0x00000600), Word(0x2C4C700C), Word(0x0B131C03), Word(0x00000000));
    NextWord(37, Word(0xB131C0F0), Word(0x000000F0), Word(0x00000030), Word(0x00000060));
    NextWord(38, Word(0x16263BC6), Word(0x93AFB507), Word(0x85898EC1), Word(0x0B131C03));
    NextWord(39, Word(0x4EBED41E), Word(0x5898E048), Word(0x16263806), Word(0x00000030));
  }

  lemma Words40()
    ensures Schedule(ABC, 40) == Word(0xD2E138C4) && Schedule(ABC, 41) == Word(0x00000F00)
    ensures Schedule(ABC, 42) == Word(0x3AFB5079) && Schedule(ABC, 43) == Word(0x898E04E5)
    ensures Schedule(ABC, 44) == Word(0xE2BA3C2B) && Schedule(ABC, 45) == Word(0x000060C0)
    ensures Schedule(ABC, 46) == Word(0x053A37CD) && Schedule(ABC, 47) == Word(0x74458547)
  {
    Words24();
    Words32();
    hide Schedule;
    NextWord(40, Word(0x626380A1), Word(0x8E9A9202), Word(0x00000000), Word(0x85898EC1));
    NextWord(41, Word(0x16263806), Word(0x00000600), Word(0x00000180), Word(0x16263806));
    NextWord(42, Word(0x000018C0), Word(0xB131C0F0), Word(0x2C4C700C), Word(0x00000000));
    NextWord(43, Word(0xD2E138C4), Word(0x16263BC6), Word(0x000000F0), Word(0x00000180));
    NextWord(44, Word(0x00000F00), Word(0x4EBED41E), Word(0x93AFB507), Word(0x2C4C700C));
    NextWord(45, Word(0x3AFB5079), Word(0x626380A1), Word(0x5898E048), Word(0x000000F0));
    NextWord(46, Word(0x898E04E5), Word(0x16263806), Word(0x8E9A9202), Word(0x93AFB507));
    NextWord(47, Word(0xE2BA3C2B), Word(0x000018C0), Word(0x00000600), Word(0x5898E048));
  }

  lemma Words48()
    ensures Schedule(ABC, 48) == Word(0xDA9415ED) && Schedule(ABC, 49) == Word(0x26380A16)
    ensures Schedule(ABC, 50) == Word(0x626383A1) && Schedule(ABC, 51) == Word(0x4EBF54DE)
    ensures Schedule(ABC, 52) == Word(0x3835B44B) && Schedule(ABC, 53) == Word(0x0000F600)
    ensures Schedule(ABC, 54) == Word(0x1E84C7A3) && Schedule(ABC, 55) == Word(0x98E04D98)
  {
    Words32();
    Words40();
    hide Schedule;
    NextWord(48, Word(0x000060C0), Word(0xD2E138C4), Word(0xB131C0F0), Word(0x8E9A9202));
    NextWord(49, Word(0x053A37CD), Word(0x00000F00), Word(0x16263BC6), Word(0x00000600));
    NextWord(50, Word(0x74458547), Word(0x3AFB5079), Word(0x4EBED41E), Word(0xB131C0F0));
    NextWord(51, Word(0xDA9415ED), Word(0x898E04E5), Word(0x626380A1), Word(0x16263BC6));
    NextWord(52, Word(0x26380A16), Word(0xE2BA3C2B), Word(0x16263806), Word(0x4EBED41E));
    NextWord(53, Word(0x626383A1), Word(0x000060C0), Word(0x000018C0), Word(0x626380A1));
    NextWord(54, Word(0x4EBF54DE), Word(0x053A37CD), Word(0xD2E138C4), Word(0x16263806));
    NextWord(55, Word(0x3835B44B), Word(0x74458547), Word(0x00000F00), Word(0x000018C0));
  }

  lemma Words56()
    ensures Schedule(ABC, 56) == Word(0x651D16A0) && Schedule(ABC, 57) == Word(0x62658CA1)
    ensures Schedule(ABC, 58) == Word(0x458544D6) && Schedule(ABC, 59) == Word(0x44584CB7)
    ensures Schedule(ABC, 60) == Word(0x7BA06619) && Schedule(ABC, 61) == Word(0x6380AEA2)
    ensures Schedule(ABC, 62) == Word(0x0AE55269) && Schedule(ABC, 63) == Word(0x627B49A1)
  {
    Words40();
    Words48();
    hide Schedule;
    NextWord(56, Word(0x0000F600), Word(0xDA9415ED), Word(0x3AFB5079), Word(0xD2E138C4));
    NextWord(57, Word(0x1E84C7A3), Word(0x26380A16), Word(0x898E04E5), Word(0x00000F00));
    NextWord(58, Word(0x98E04D98), Word(0x626383A1), Word(0xE2BA3C2B), Word(0x3AFB5079));
    NextWord(59, Word(0x651D16A0), Word(0x4EBF54DE), Word(0x000060C0), Word(0x898E04E5));
    NextWord(60, Word(0x62658CA1), Word(0x3835B44B), Word(0x053A37CD), Word(0xE2BA3C2B));
    NextWord(61, Word(0x458544D6), Word(0x0000F600), Word(0x74458547), Word(0x000060C0));
    NextWord(62, Word(0x44584CB7), Word(0x1E84C7A3), Word(0xDA9415ED), Word(0x053A37CD));
    NextWord(63, Word(0x7BA06619), Word(0x98E04D98), Word(0x26380A16), Word(0x74458547));
  }

  lemma Words64()
    ensures Schedule(ABC, 64) == Word(0x7CD45C9D) && Schedule(ABC, 65) == Word(0x000F0000)
    ensures Schedule(ABC, 66) == Word(0xFB50753A) && Schedule(ABC, 67) == Word(0xEC6765E8)
    ensures Schedule(ABC, 68) == Word(0xBA3C2BE2) && Schedule(ABC, 69) == Word(0x0060C000)
    ensures Schedule(ABC, 70) == Word(0x3A37CD05) && Schedule(ABC, 71) == Word(0x458546F4)
  {
    Words48();
    Words56();
    hide Schedule;
    NextWord(64, Word(0x6380AEA2), Word(0x651D16A0), Word(0x626383A1), Word(0xDA9415ED));
    NextWord(65, Word(0x0AE55269), Word(0x62658CA1), Word(0x4EBF54DE), Word(0x26380A16));
    NextWord(66, Word(0x627B49A1), Word(0x458544D6), Word(0x3835B44B), Word(0x626383A1));
    NextWord(67, Word(0x7CD45C9D), Word(0x44584CB7), Word(0x0000F600), Word(0x4EBF54DE));
    NextWord(68, Word(0x000F0000), Word(0x7BA06619), Word(0x1E84C7A3), Word(0x3835B44B));
    NextWord(69, Word(0xFB50753A), Word(0x6380AEA2), Word(0x98E04D98), Word(0x0000F600));
    NextWord(70, Word(0xEC6765E8), Word(0x0AE55269), Word(0x651D16A0), Word(0x1E84C7A3));
    NextWord(71, Word(0xBA3C2BE2), Word(0x627B49A1), Word(0x62658CA1), Word(0x98E04D98));
  }

  lemma Words72()
    ensures Schedule(ABC, 72) == Word(0xB8599DD6) && Schedule(ABC, 73) == Word(0x380A1A26)
    ensures Schedule(ABC, 74) == Word(0x01E02203) && Schedule(ABC, 75) == Word(0xE7CC3456)
    ensures Schedule(ABC, 76) == Word(0xE6E60B69) && Schedule(ABC, 77) == Word(0x00F60A00)
    ensures Schedule(ABC, 78) == Word(0x5795EF4F) && Schedule(ABC, 79) == Word(0x822E0879)
  {
    Words56();
    Words64();
    hide Schedule;
    NextWord(72, Word(0x0060C000), Word(0x7CD45C9D), Word(0x458544D6), Word(0x651D16A0));
    NextWord(73, Word(0x3A37CD05), Word(0x000F0000), Word(0x44584CB7), Word(0x62658CA1));
    NextWord(74, Word(0x458546F4), Word(0xFB50753A), Word(0x7BA06619), Word(0x458544D6));
    NextWord(75, Word(0xB8599DD6), Word(0xEC6765E8), Word(0x6380AEA2), Word(0x44584CB7));
    NextWord(76, Word(0x380A1A26), Word(0xBA3C2BE2), Word(0x0AE55269), Word(0x7BA06619));
    NextWord(77, Word(0x01E02203), Word(0x0060C000), Word(0x627B49A1), Word(0x6380AEA2));
    NextWord(78, Word(0xE7CC3456), Word(0x3A37CD05), Word(0x7CD45C9D), Word(0x0AE55269));
    NextWord(79, Word(0xE6E60B69), Word(0x458546F4), Word(0x000F0000), Word(0x627B49A1));
  }

  lemma Given(t: nat, w: Word)
    requires t < 16 && ABC[t] == w
    ensures Schedule(ABC, t) == w
  {
  }

  lemma FirstWords()
    ensures Schedule(ABC, 0) == Word(0x61626380) && Schedule(ABC, 1) == Word(0x00000000)
    ensures Schedule(ABC, 2) == Word(0x00000000) && Schedule(ABC, 3) == Word(0x00000000)
    ensures Schedule(ABC, 4) == Word(0x00000000) && Schedule(ABC, 5) == Word(0x00000000)
    ensures Schedule(ABC, 6) == Word(0x00000000) && Schedule(ABC, 7) == Word(0x00000000)
  {
    hide Schedule;
    Given(0, Word(0x61626380));
    Given(1, Word(0x00000000));
    Given(2, Word(0x00000000));
    Given(3, Word(0x00000000));
    Given(4, Word(0x00000000));
    Given(5, Word(0x00000000));
    Given(6, Word(0x00000000));
    Given(7, Word(0x00000000));
  }

  lemma LaterWords()
    ensures Schedule(ABC, 8) == Word(0x00000000) && Schedule(ABC, 9) == Word(0x00000000)
    ensures Schedule(ABC, 10) == Word(0x00000000) && Schedule(ABC, 11) == Word(0x00000000)
    ensures Schedule(ABC, 12) == Word(0x00000000) && Schedule(ABC, 13) == Word(0x00000000)
    ensures Schedule(ABC, 14) == Word(0x00000000) && Schedule(ABC, 15) == Word(0x00000018)
  {
    hide Schedule;
    Given(8, Word(0x00000000));
    Given(9, Word(0x00000000));
    Given(10, Word(0x00000000));
    Given(11, Word(0x00000000));
    Given(12, Word(0x00000000));
    Given(13, Word(0x00000000));
    Given(14, Word(0x00000000));
    Given(15, Word(0x00000018));
  }

  function R(a: bv32, b: bv32, c: bv32, d: bv32, e: bv32): Regs {
    Regs(Word(a), Word(b), Word(c), Word(d), Word(e))
  }

  /** The working variables after `t` rounds */
  function After(t: nat): Regs {
    RoundsTo(INITIAL, ABC, t)
  }

  lemma NextRound(t: nat, w: Word, before: Regs, after: Regs)
    requires After(t) == before && Schedule(ABC, t) == w && Round(before, t, w) == after
    ensures After(t + 1) == after
  {
    hide Schedule, Round;
  }

  lemma Rounds0()
    ensures After(0) == R(0x67452301, 0xEFCDAB89, 0x98BADCFE, 0x10325476, 0xC3D2E1F0)
  {
  }

  lemma Rounds5()
    ensures After(5) == R(0xCFD499DE, 0xCDD8E11B, 0x284E43C2, 0x626414DB, 0xC045BF0C)
  {
    Rounds0();
    FirstWords();
    hide Schedule, After;
    NextRound(0, Word(0x61626380), R(0x67452301, 0xEFCDAB89, 0x98BADCFE, 0x10325476, 0xC3D2E1F0),
              R(0x0116FC33, 0x67452301, 0x7BF36AE2, 0x98BADCFE, 0x10325476));
    NextRound(1, Word(0x00000000), R(0x0116FC33, 0x67452301, 0x7BF36AE2, 0x98BADCFE, 0x10325476),
              R(0x8990536D, 0x0116FC33, 0x59D148C0, 0x7BF36AE2, 0x98BADCFE));
    NextRound(2, Word(0x00000000), R(0x8990536D, 0x0116FC33, 0x59D148C0, 0x7BF36AE2, 0x98BADCFE),
              R(0xA1390F08, 0x8990536D, 0xC045BF0C, 0x59D148C0, 0x7BF36AE2));
    NextRound(3, Word(0x00000000), R(0xA1390F08, 0x8990536D, 0xC045BF0C, 0x59D148C0, 0x7BF36AE2),
              R(0xCDD8E11B, 0xA1390F08, 0x626414DB, 0xC045BF0C, 0x59D148C0));
    NextRound(4, Word(0x00000000), R(0xCDD8E11B, 0xA1390F08, 0x626414DB, 0xC045BF0C, 0x59D148C0),
              R(0xCFD499DE, 0xCDD8E11B, 0x284E43C2, 0x626414DB, 0xC045BF0C));
  }

  lemma Rounds10()
    ensures After(10) == R(0x8351F929, 0x4B6AE328, 0x27A301F5, 0x664F8C30, 0x0FF1F290)
  {
    Rounds5();
    FirstWords();
    LaterWords();
    hide Schedule, After;
    NextRound(5, Word(0x00000000), R(0xCFD499DE, 0xCDD8E11B, 0x284E43C2, 0x626414DB, 0xC045BF0C),
              R(0x3FC7CA40, 0xCFD499DE, 0xF3763846, 0x284E43C2, 0x626414DB));
    NextRound(6, Word(0x00000000), R(0x3FC7CA40, 0xCFD499DE, 0xF3763846, 0x284E43C2, 0x626414DB),
              R(0x993E30C1, 0x3FC7CA40, 0xB3F52677, 0xF3763846, 0x284E43C2));
    NextRound(7, Word(0x00000000), R(0x993E30C1, 0x3FC7CA40, 0xB3F52677, 0xF3763846, 0x284E43C2),
              R(0x9E8C07D4, 0x993E30C1, 0x0FF1F290, 0xB3F52677, 0xF3763846));
    NextRound(8, Word(0x00000000), R(0x9E8C07D4, 0x993E30C1, 0x0FF1F290, 0xB3F52677, 0xF3763846),
              R(0x4B6AE328, 0x9E8C07D4, 0x664F8C30, 0x0FF1F290, 0xB3F52677));
    NextRound(9, Word(0x00000000), R(0x4B6AE328, 0x9E8C07D4, 0x664F8C30, 0x0FF1F290, 0xB3F52677),
              R(0x8351F929, 0x4B6AE328, 0x27A301F5, 0x664F8C30, 0x0FF1F290));
  }

  lemma Rounds15()
    ensures After(15) == R(0x196BEE77, 0x9128F695, 0x1181ED99, 0x18C623F9, 0x7EF6A7A2)
  {
    Rounds10();
    LaterWords();
    hide Schedule, After;
    NextRound(10, Word(0x00000000), R(0x8351F929, 0x4B6AE328, 0x27A301F5, 0x664F8C30, 0x0FF1F290),
              R(0xFBDA9E89, 0x8351F929, 0x12DAB8CA, 0x27A301F5, 0x664F8C30));
    NextRound(11, Word(0x00000000), R(0xFBDA9E89, 0x8351F929, 0x12DAB8CA, 0x27A301F5, 0x664F8C30),
              R(0x63188FE4, 0xFBDA9E89, 0x60D47E4A, 0x12DAB8CA, 0x27A301F5));
    NextRound(12, Word(0x00000000), R(0x63188FE4, 0xFBDA9E89, 0x60D47E4A, 0x12DAB8CA, 0x27A301F5),
              R(0x4607B664, 0x63188FE4, 0x7EF6A7A2, 0x60D47E4A, 0x12DAB8CA));
    NextRound(13, Word(0x00000000), R(0x4607B664, 0x63188FE4, 0x7EF6A7A2, 0x60D47E4A, 0x12DAB8CA),
              R(0x9128F695, 0x4607B664, 0x18C623F9, 0x7EF6A7A2, 0x60D47E4A));
    NextRound(14, Word(0x00000000), R(0x9128F695, 0x4607B664, 0x18C623F9, 0x7EF6A7A2, 0x60D47E4A),
              R(0x196BEE77, 0x9128F695, 0x1181ED99, 0x18C623F9, 0x7EF6A7A2));
  }

  lemma Rounds20()
    ensures After(20) == R(0xFD9E1D7D, 0xDC64901D, 0x20AA99CA, 0xD3A49608, 0xC82F758B)
  {
    Rounds15();
    LaterWords();
    Words16();
    hide Schedule, After;
    NextRound(15, Word(0x00000018), R(0x196BEE77, 0x9128F695, 0x1181ED99, 0x18C623F9, 0x7EF6A7A2),
              R(0x20BDD62F, 0x196BEE77, 0x644A3DA5, 0x1181ED99, 0x18C623F9));
    NextRound(16, Word(0xC2C4C700), R(0x20BDD62F, 0x196BEE77, 0x644A3DA5, 0x1181ED99, 0x18C623F9),
              R(0x4E925823, 0x20BDD62F, 0xC65AFB9D, 0x644A3DA5, 0x1181ED99));
    NextRound(17, Word(0x00000000), R(0x4E925823, 0x20BDD62F, 0xC65AFB9D, 0x644A3DA5, 0x1181ED99),
              R(0x82AA6728, 0x4E925823, 0xC82F758B, 0xC65AFB9D, 0x644A3DA5));
    NextRound(18, Word(0x00000030), R(0x82AA6728, 0x4E925823, 0xC82F758B, 0xC65AFB9D, 0x644A3DA5),
              R(0xDC64901D, 0x82AA6728, 0xD3A49608, 0xC82F758B, 0xC65AFB9D));
    NextRound(19, Word(0x85898E01), R(0xDC64901D, 0x82AA6728, 0xD3A49608, 0xC82F758B, 0xC65AFB9D),
              R(0xFD9E1D7D, 0xDC64901D, 0x20AA99CA, 0xD3A49608, 0xC82F758B));
  }

  lemma Rounds25()
    ensures After(25) == R(0xC7567DC6, 0xD541F12D, 0x884A0D21, 0x0CE88EFF, 0x868DEC32)
  {
    Rounds20();
    Words16();
    Words24();
    hide Schedule, After;
    NextRound(20, Word(0x00000000), R(0xFD9E1D7D, 0xDC64901D, 0x20AA99CA, 0xD3A49608, 0xC82F758B),
              R(0x1A37B0CA, 0xFD9E1D7D, 0x77192407, 0x20AA99CA, 0xD3A49608));
    NextRound(21, Word(0x00000060), R(0x1A37B0CA, 0xFD9E1D7D, 0x77192407, 0x20AA99CA, 0xD3A49608),
              R(0x33A23BFC, 0x1A37B0CA, 0x7F67875F, 0x77192407, 0x20AA99CA));
    NextRound(22, Word(0x0B131C03), R(0x33A23BFC, 0x1A37B0CA, 0x7F67875F, 0x77192407, 0x20AA99CA),
              R(0x21283486, 0x33A23BFC, 0x868DEC32, 0x7F67875F, 0x77192407));
    NextRound(23, Word(0x00000030), R(0x21283486, 0x33A23BFC, 0x868DEC32, 0x7F67875F, 0x77192407),
              R(0xD541F12D, 0x21283486, 0x0CE88EFF, 0x868DEC32, 0x7F67875F));
    NextRound(24, Word(0x85898EC1), R(0xD541F12D, 0x21283486, 0x0CE88EFF, 0x868DEC32, 0x7F67875F),
              R(0xC7567DC6, 0xD541F12D, 0x884A0D21, 0x0CE88EFF, 0x868DEC32));
  }

  lemma Rounds30()
    ensures After(30) == R(0xC5FBAF5D, 0x8370B52E, 0xD2AA1365, 0x6F8D7EF5, 0x12104EE9)
  {
    Rounds25();
    Words24();
    hide Schedule, After;
    NextRound(25, Word(0x16263806), R(0xC7567DC6, 0xD541F12D, 0x884A0D21, 0x0CE88EFF, 0x868DEC32),
              R(0x48413BA4, 0xC7567DC6, 0x75507C4B, 0x884A0D21, 0x0CE88EFF));
    NextRound(26, Word(0x00000000), R(0x48413BA4, 0xC7567DC6, 0x75507C4B, 0x884A0D21, 0x0CE88EFF),
              R(0xBE35FBD5, 0x48413BA4, 0xB1D59F71, 0x75507C4B, 0x884A0D21));
    NextRound(27, Word(0x00000180), R(0xBE35FBD5, 0x48413BA4, 0xB1D59F71, 0x75507C4B, 0x884A0D21),
              R(0x4AA84D97, 0xBE35FBD5, 0x12104EE9, 0xB1D59F71, 0x75507C4B));
    NextRound(28, Word(0x2C4C700C), R(0x4AA84D97, 0xBE35FBD5, 0x12104EE9, 0xB1D59F71, 0x75507C4B),
              R(0x8370B52E, 0x4AA84D97, 0x6F8D7EF5, 0x12104EE9, 0xB1D59F71));
    NextRound(29, Word(0x000000F0), R(0x8370B52E, 0x4AA84D97, 0x6F8D7EF5, 0x12104EE9, 0xB1D59F71),
              R(0xC5FBAF5D, 0x8370B52E, 0xD2AA1365, 0x6F8D7EF5, 0x12104EE9));
  }

  lemma Rounds35()
    ensures After(35) == R(0x21796AD4, 0x2C0EBC11, 0x811BEA82, 0xCEE1174C, 0xC499ED01)
  {
    Rounds30();
    Words24();
    Words32();
    hide Schedule, After;
    NextRound(30, Word(0x93AFB507), R(0xC5FBAF5D, 0x8370B52E, 0xD2AA1365, 0x6F8D7EF5, 0x12104EE9),
              R(0x1267B407, 0xC5FBAF5D, 0xA0DC2D4B, 0xD2AA1365, 0x6F8D7EF5));
    NextRound(31, Word(0x5898E048), R(0x1267B407, 0xC5FBAF5D, 0xA0DC2D4B, 0xD2AA1365, 0x6F8D7EF5),
              R(0x3B845D33, 0x1267B407, 0x717EEBD7, 0xA0DC2D4B, 0xD2AA1365));
    NextRound(32, Word(0x8E9A9202), R(0x3B845D33, 0x1267B407, 0x717EEBD7, 0xA0DC2D4B, 0xD2AA1365),
              R(0x046FAA0A, 0x3B845D33, 0xC499ED01, 0x717EEBD7, 0xA0DC2D4B));
    NextRound(33, Word(0x00000600), R(0x046FAA0A, 0x3B845D33, 0xC499ED01, 0x717EEBD7, 0xA0DC2D4B),
              R(0x2C0EBC11, 0x046FAA0A, 0xCEE1174C, 0xC499ED01, 0x717EEBD7));
    NextRound(34, Word(0xB131C0F0), R(0x2C0EBC11, 0x046FAA0A, 0xCEE1174C, 0xC499ED01, 0x717EEBD7),
              R(0x21796AD4, 0x2C0EBC11, 0x811BEA82, 0xCEE1174C, 0xC499ED01));
  }

  lemma Rounds40()
    ensures After(40) == R(0x32DE1CBA, 0x4C986405, 0xF718E5CF, 0x03D447F6, 0xF72EEC32)
  {
    Rounds35();
    Words32();
    hide Schedule, After;
    NextRound(35, Word(0x16263BC6), R(0x21796AD4, 0x2C0EBC11, 0x811BEA82, 0xCEE1174C, 0xC499ED01),
              R(0xDCBBB0CB, 0x21796AD4, 0x4B03AF04, 0x811BEA82, 0xCEE1174C));
    NextRound(36, Word(0x4EBED41E), R(0xDCBBB0CB, 0x21796AD4, 0x4B03AF04, 0x811BEA82, 0xCEE1174C),
              R(0x0F511FD8, 0xDCBBB0CB, 0x085E5AB5, 0x4B03AF04, 0x811BEA82));
    NextRound(37, Word(0x626380A1), R(0x0F511FD8, 0xDCBBB0CB, 0x085E5AB5, 0x4B03AF04, 0x811BEA82),
              R(0xDC63973F, 0x0F511FD8, 0xF72EEC32, 0x085E5AB5, 0x4B03AF04));
    NextRound(38, Word(0x16263806), R(0xDC63973F, 0x0F511FD8, 0xF72EEC32, 0x085E5AB5, 0x4B03AF04),
              R(0x4C986405, 0xDC63973F, 0x03D447F6, 0xF72EEC32, 0x085E5AB5));
    NextRound(39, Word(0x000018C0), R(0x4C986405, 0xDC63973F, 0x03D447F6, 0xF72EEC32, 0x085E5AB5),
              R(0x32DE1CBA, 0x4C986405, 0xF718E5CF, 0x03D447F6, 0xF72EEC32));
  }

  lemma Rounds45()
    ensures After(45) == R(0x40F28E09, 0xEE1B1AAF, 0x5FC64F71, 0x25C28357, 0xFF21F7B7)
  {
    Rounds40();
    Words40();
    hide Schedule, After;
    NextRound(40, Word(0xD2E138C4), R(0x32DE1CBA, 0x4C986405, 0xF718E5CF, 0x03D447F6, 0xF72EEC32),
              R(0xFC87DEDF, 0x32DE1CBA, 0x53261901, 0xF718E5CF, 0x03D447F6));
    NextRound(41, Word(0x00000F00), R(0xFC87DEDF, 0x32DE1CBA, 0x53261901, 0xF718E5CF, 0x03D447F6),
              R(0x970A0D5C, 0xFC87DEDF, 0x8CB7872E, 0x53261901, 0xF718E5CF));
    NextRound(42, Word(0x3AFB5079), R(0x970A0D5C, 0xFC87DEDF, 0x8CB7872E, 0x53261901, 0xF718E5CF),
              R(0x7F193DC5, 0x970A0D5C, 0xFF21F7B7, 0x8CB7872E, 0x53261901));
    NextRound(43, Word(0x898E04E5), R(0x7F193DC5, 0x970A0D5C, 0xFF21F7B7, 0x8CB7872E, 0x53261901),
              R(0xEE1B1AAF, 0x7F193DC5, 0x25C28357, 0xFF21F7B7, 0x8CB7872E));
    NextRound(44, Word(0xE2BA3C2B), R(0xEE1B1AAF, 0x7F193DC5, 0x25C28357, 0xFF21F7B7, 0x8CB7872E),
              R(0x40F28E09, 0xEE1B1AAF, 0x5FC64F71, 0x25C28357, 0xFF21F7B7));
  }

  lemma Rounds50()
    ensures After(50) == R(0x120731C5, 0xBAF39337, 0xAFAB40B2, 0x2806E11B, 0x8714787C)
  {
    Rounds45();
    Words40();
    Words48();
    hide Schedule, After;
    NextRound(45, Word(0x000060C0), R(0x40F28E09, 0xEE1B1AAF, 0x5FC64F71, 0x25C28357, 0xFF21F7B7),
              R(0x1C51E1F2, 0x40F28E09, 0xFB86C6AB, 0x5FC64F71, 0x25C28357));
    NextRound(46, Word(0x053A37CD), R(0x1C51E1F2, 0x40F28E09, 0xFB86C6AB, 0x5FC64F71, 0x25C28357),
              R(0xA01B846C, 0x1C51E1F2, 0x503CA382, 0xFB86C6AB, 0x5FC64F71));
    NextRound(47, Word(0x74458547), R(0xA01B846C, 0x1C51E1F2, 0x503CA382, 0xFB86C6AB, 0x5FC64F71),
              R(0xBEAD02CA, 0xA01B846C, 0x8714787C, 0x503CA382, 0xFB86C6AB));
    NextRound(48, Word(0xDA9415ED), R(0xBEAD02CA, 0xA01B846C, 0x8714787C, 0x503CA382, 0xFB86C6AB),
              R(0xBAF39337, 0xBEAD02CA, 0x2806E11B, 0x8714787C, 0x503CA382));
    NextRound(49, Word(0x26380A16), R(0xBAF39337, 0xBEAD02CA, 0x2806E11B, 0x8714787C, 0x503CA382),
              R(0x120731C5, 0xBAF39337, 0xAFAB40B2, 0x2806E11B, 0x8714787C));
  }

  lemma Rounds55()
    ensures After(55) == R(0x7B71F76D, 0x27E9F1D8, 0x792410DB, 0x8E11EB59, 0x99076CB3)
  {
    Rounds50();
    Words48();
    hide Schedule, After;
    NextRound(50, Word(0x626383A1), R(0x120731C5, 0xBAF39337, 0xAFAB40B2, 0x2806E11B, 0x8714787C),
              R(0x641DB2CE, 0x120731C5, 0xEEBCE4CD, 0xAFAB40B2, 0x2806E11B));
    NextRound(51, Word(0x4EBF54DE), R(0x641DB2CE, 0x120731C5, 0xEEBCE4CD, 0xAFAB40B2, 0x2806E11B),
              R(0x3847AD66, 0x641DB2CE, 0x4481CC71, 0xEEBCE4CD, 0xAFAB40B2));
    NextRound(52, Word(0x3835B44B), R(0x3847AD66, 0x641DB2CE, 0x4481CC71, 0xEEBCE4CD, 0xAFAB40B2),
              R(0xE490436D, 0x3847AD66, 0x99076CB3, 0x4481CC71, 0xEEBCE4CD));
    NextRound(53, Word(0x0000F600), R(0xE490436D, 0x3847AD66, 0x99076CB3, 0x4481CC71, 0xEEBCE4CD),
              R(0x27E9F1D8, 0xE490436D, 0x8E11EB59, 0x99076CB3, 0x4481CC71));
    NextRound(54, Word(0x1E84C7A3), R(0x27E9F1D8, 0xE490436D, 0x8E11EB59, 0x99076CB3, 0x4481CC71),
              R(0x7B71F76D, 0x27E9F1D8, 0x792410DB, 0x8E11EB59, 0x99076CB3));
  }

  lemma Rounds60()
    ensures After(60) == R(0x3F52DE5A, 0x09D785FD, 0x3498BFD4, 0xF211824F, 0xD79915AB)
  {
    Rounds55();
    Words48();
    Words56();
    hide Schedule, After;
    NextRound(55, Word(0x98E04D98), R(0x7B71F76D, 0x27E9F1D8, 0x792410DB, 0x8E11EB59, 0x99076CB3),
              R(0x5E6456AF, 0x7B71F76D, 0x09FA7C76, 0x792410DB, 0x8E11EB59));
    NextRound(56, Word(0x651D16A0), R(0x5E6456AF, 0x7B71F76D, 0x09FA7C76, 0x792410DB, 0x8E11EB59),
              R(0xC846093F, 0x5E6456AF, 0x5EDC7DDB, 0x09FA7C76, 0x792410DB));
    NextRound(57, Word(0x62658CA1), R(0xC846093F, 0x5E6456AF, 0x5EDC7DDB, 0x09FA7C76, 0x792410DB),
              R(0xD262FF50, 0xC846093F, 0xD79915AB, 0x5EDC7DDB, 0x09FA7C76));
    NextRound(58, Word(0x458544D6), R(0xD262FF50, 0xC846093F, 0xD79915AB, 0x5EDC7DDB, 0x09FA7C76),
              R(0x09D785FD, 0xD262FF50, 0xF211824F, 0xD79915AB, 0x5EDC7DDB));
    NextRound(59, Word(0x44584CB7), R(0x09D785FD, 0xD262FF50, 0xF211824F, 0xD79915AB, 0x5EDC7DDB),
              R(0x3F52DE5A, 0x09D785FD, 0x3498BFD4, 0xF211824F, 0xD79915AB));
  }

  lemma Rounds65()
    ensures After(65) == R(0x19DFA7AC, 0x6B61C9E1, 0xED9B0082, 0x9523272C, 0xF5D5B051)
  {
    Rounds60();
    Words56();
    Words64();
    hide Schedule, After;
    NextRound(60, Word(0x7BA06619), R(0x3F52DE5A, 0x09D785FD, 0x3498BFD4, 0xF211824F, 0xD79915AB),
              R(0xD756C147, 0x3F52DE5A, 0x4275E17F, 0x3498BFD4, 0xF211824F));
    NextRound(61, Word(0x6380AEA2), R(0xD756C147, 0x3F52DE5A, 0x4275E17F, 0x3498BFD4, 0xF211824F),
              R(0x548C9CB2, 0xD756C147, 0x8FD4B796, 0x4275E17F, 0x3498BFD4));
    NextRound(62, Word(0x0AE55269), R(0x548C9CB2, 0xD756C147, 0x8FD4B796, 0x4275E17F, 0x3498BFD4),
              R(0xB66C020B, 0x548C9CB2, 0xF5D5B051, 0x8FD4B796, 0x4275E17F));
    NextRound(63, Word(0x627B49A1), R(0xB66C020B, 0x548C9CB2, 0xF5D5B051, 0x8FD4B796, 0x4275E17F),
              R(0x6B61C9E1, 0xB66C020B, 0x9523272C, 0xF5D5B051, 0x8FD4B796));
    NextRound(64, Word(0x7CD45C9D), R(0x6B61C9E1, 0xB66C020B, 0x9523272C, 0xF5D5B051, 0x8FD4B796),
              R(0x19DFA7AC, 0x6B61C9E1, 0xED9B0082, 0x9523272C, 0xF5D5B051));
  }

  lemma Rounds70()
    ensures After(70) == R(0x3F2588C2, 0x497093C0, 0xDE37534A, 0x030F7CAD, 0x4405957E)
  {
    Rounds65();
    Words64();
    hide Schedule, After;
    NextRound(65, Word(0x000F0000), R(0x19DFA7AC, 0x6B61C9E1, 0xED9B0082, 0x9523272C, 0xF5D5B051),
              R(0x101655F9, 0x19DFA7AC, 0x5AD87278, 0xED9B0082, 0x9523272C));
    NextRound(66, Word(0xFB50753A), R(0x101655F9, 0x19DFA7AC, 0x5AD87278, 0xED9B0082, 0x9523272C),
              R(0x0C3DF2B4, 0x101655F9, 0x0677E9EB, 0x5AD87278, 0xED9B0082));
    NextRound(67, Word(0xEC6765E8), R(0x0C3DF2B4, 0x101655F9, 0x0677E9EB, 0x5AD87278, 0xED9B0082),
              R(0x78DD4D2B, 0x0C3DF2B4, 0x4405957E, 0x0677E9EB, 0x5AD87278));
    NextRound(68, Word(0xBA3C2BE2), R(0x78DD4D2B, 0x0C3DF2B4, 0x4405957E, 0x0677E9EB, 0x5AD87278),
              R(0x497093C0, 0x78DD4D2B, 0x030F7CAD, 0x4405957E, 0x0677E9EB));
    NextRound(69, Word(0x0060C000), R(0x497093C0, 0x78DD4D2B, 0x030F7CAD, 0x4405957E, 0x0677E9EB),
              R(0x3F2588C2, 0x497093C0, 0xDE37534A, 0x030F7CAD, 0x4405957E));
  }

  lemma Rounds75()
    ensures After(75) == R(0x5EE76897, 0x11793F6F, 0x3B6D0B79, 0xCE616779, 0xF0667E31)
  {
    Rounds70();
    Words64();
    Words72();
    hide Schedule, After;
    NextRound(70, Word(0x3A37CD05), R(0x3F2588C2, 0x497093C0, 0xDE37534A, 0x030F7CAD, 0x4405957E),
              R(0xC199F8C7, 0x3F2588C2, 0x125C24F0, 0xDE37534A, 0x030F7CAD));
    NextRound(71, Word(0x458546F4), R(0xC199F8C7, 0x3F2588C2, 0x125C24F0, 0xDE37534A, 0x030F7CAD),
              R(0x39859DE7, 0xC199F8C7, 0x8FC96230, 0x125C24F0, 0xDE37534A));
    NextRound(72, Word(0xB8599DD6), R(0x39859DE7, 0xC199F8C7, 0x8FC96230, 0x125C24F0, 0xDE37534A),
              R(0xEDB42DE4, 0x39859DE7, 0xF0667E31, 0x8FC96230, 0x125C24F0));
    NextRound(73, Word(0x380A1A26), R(0xEDB42DE4, 0x39859DE7, 0xF0667E31, 0x8FC96230, 0x125C24F0),
              R(0x11793F6F, 0xEDB42DE4, 0xCE616779, 0xF0667E31, 0x8FC96230));
    NextRound(74, Word(0x01E02203), R(0x11793F6F, 0xEDB42DE4, 0xCE616779, 0xF0667E31, 0x8FC96230),
              R(0x5EE76897, 0x11793F6F, 0x3B6D0B79, 0xCE616779, 0xF0667E31));
  }

  lemma Rounds80()
    ensures After(80) == R(0x42541B35, 0x5738D5E1, 0x21834873, 0x681E6DF6, 0xD8FDF6AD)
  {
    Rounds75();
    Words72();
    hide Schedule, After;
    NextRound(75, Word(0xE7CC3456), R(0x5EE76897, 0x11793F6F, 0x3B6D0B79, 0xCE616779, 0xF0667E31),
              R(0x63F7DAB7, 0x5EE76897, 0xC45E4FDB, 0x3B6D0B79, 0xCE616779));
    NextRound(76, Word(0xE6E60B69), R(0x63F7DAB7, 0x5EE76897, 0xC45E4FDB, 0x3B6D0B79, 0xCE616779),
              R(0xA079B7D9, 0x63F7DAB7, 0xD7B9DA25, 0xC45E4FDB, 0x3B6D0B79));
    NextRound(77, Word(0x00F60A00), R(0xA079B7D9, 0x63F7DAB7, 0xD7B9DA25, 0xC45E4FDB, 0x3B6D0B79),
              R(0x860D21CC, 0xA079B7D9, 0xD8FDF6AD, 0xD7B9DA25, 0xC45E4FDB));
    NextRound(78, Word(0x5795EF4F), R(0x860D21CC, 0xA079B7D9, 0xD8FDF6AD, 0xD7B9DA25, 0xC45E4FDB),
              R(0x5738D5E1, 0x860D21CC, 0x681E6DF6, 0xD8FDF6AD, 0xD7B9DA25));
    NextRound(79, Word(0x822E0879), R(0x5738D5E1, 0x860D21CC, 0x681E6DF6, 0xD8FDF6AD, 0xD7B9DA25),
              R(0x42541B35, 0x5738D5E1, 0x21834873, 0x681E6DF6, 0xD8FDF6AD));
  }

  // ------------------------------------------------------------------------- the padding

  /** A word as its four digits in base 256 */
  lemma WordDigits(w: nat)
    requires w < TWO_32
    ensures w == (((w / 0x100_0000 % 256) * 256 + w / 0x1_0000 % 256) * 256 + w / 0x100 % 256) * 256 + w / 1 % 256
  {
  }

  lemma NumOf(n: nat)
    requires n < 256
    ensures Num(Byte(n as bv8)) == n
  {
  }

  lemma CountByteNum(bits: nat, i: nat, word: nat, shift: nat)
    requires i < 8 && word == (if i < 4 then bits / TWO_32 % TWO_32 else bits % TWO_32)
    requires shift == [0x100_0000, 0x1_0000, 0x100, 1][i % 4]
    ensures Num(CountByte(bits, i)) == word / shift % 256
  {
    hide Num;
    NumOf(word / shift % 256);
  }

  lemma ValueOfFour(s: seq<Byte>, a: Byte, b: Byte, c: Byte, d: Byte)
    ensures Value(s + [a] + [b] + [c] + [d])
         == (((Value(s) * 256 + Num(a)) * 256 + Num(b)) * 256 + Num(c)) * 256 + Num(d)
  {
    hide Num, Value;
    ValueAppended(s, a);
    ValueAppended(s + [a], b);
    ValueAppended(s + [a] + [b], c);
    ValueAppended(s + [a] + [b] + [c], d);
  }

  /** The count of bits is written most significant byte first, modulo 2^64. */
  lemma CountValue(bits: nat)
    ensures Value(CountBytes(bits)) == bits % TWO_64
  {
    hide Num, Value, CountByte;
    var c := CountBytes(bits);
    var hi, lo := bits / TWO_32 % TWO_32, bits % TWO_32;
    CountHigh(bits, hi);
    CountLow(bits, lo, c[..4]);
    assert c == c[..4] + [c[4]] + [c[5]] + [c[6]] + [c[7]];
    assert c[..4] == [] + [c[0]] + [c[1]] + [c[2]] + [c[3]];
  }

  lemma Joined(v: nat, a: nat, b: nat, c: nat, d: nat)
    ensures (((v * 256 + a) * 256 + b) * 256 + c) * 256 + d == v * TWO_32 + (((a * 256 + b) * 256 + c) * 256 + d)
  {
  }

  lemma CountHigh(bits: nat, hi: nat)
    requires hi == bits / TWO_32 % TWO_32
    ensures Value([] + [CountByte(bits, 0)] + [CountByte(bits, 1)] + [CountByte(bits, 2)] + [CountByte(bits, 3)]) == hi
  {
    assert Value([]) == 0;
    hide Num, Value, CountByte;
    ValueOfFour([], CountByte(bits, 0), CountByte(bits, 1), CountByte(bits, 2), CountByte(bits, 3));
    CountByteNum(bits, 0, hi, 0x100_0000);
    CountByteNum(bits, 1, hi, 0x1_0000);
    CountByteNum(bits, 2, hi, 0x100);
    CountByteNum(bits, 3, hi, 1);
    WordDigits(hi);
  }

  lemma CountLow(bits: nat, lo: nat, front: seq<Byte>)
    requires lo == bits % TWO_32
    ensures Value(front + [CountByte(bits, 4)] + [CountByte(bits, 5)] + [CountByte(bits, 6)] + [CountByte(bits, 7)])
         == Value(front) * TWO_32 + lo
  {
    hide Num, Value, CountByte;
    ValueOfFour(front, CountByte(bits, 4), CountByte(bits, 5), CountByte(bits, 6), CountByte(bits, 7));
    CountByteNum(bits, 4, lo, 0x100_0000);
    CountByteNum(bits, 5, lo, 0x1_0000);
    CountByteNum(bits, 6, lo, 0x100);
    CountByteNum(bits, 7, lo, 1);
    WordDigits(lo);
    Joined(Value(front), lo / 0x100_0000 % 256, lo / 0x1_0000 % 256, lo / 0x100 % 256, lo / 1 % 256);
  }

  /** The padding of section 5.1.1: the message, the bit 1, as few zero bytes as make whole
      blocks with the count behind them, and the number of bits in eight bytes. */
  lemma PaddedIs(m: seq<Byte>)
    ensures var p := Padded(m);
      && |p| % 64 == 0 && |m| + 9 <= |p| < |m| + 73
      && p[..|m|] == m && p[|m|] == Byte(0x80)
      && (forall i :: |m| < i < |p| - 8 ==> p[i] == Byte(0))
      && Value(p[|p| - 8..]) == 8 * |m| % TWO_64
  {
    hide Value, CountBytes, Zeros;
    var p, n := Padded(m), ZerosFor(|m|);
    assert p == (m + [Byte(0x80)] + Zeros(n)) + CountBytes(8 * |m|);
    assert p[|p| - 8..] == CountBytes(8 * |m|);
    CountValue(8 * |m|);
    forall i | |m| < i < |p| - 8
      ensures p[i] == Byte(0)
    {
      assert p[i] == Zeros(n)[i - |m| - 1];
      ZerosAre(n, i - |m| - 1);
    }
  }

  // ------------------------------------------------------------------------- the example

  const MESSAGE: seq<Byte> := [Byte(0x61), Byte(0x62), Byte(0x63)]

  const DIGEST: seq<Byte> := [
    Byte(0xA9), Byte(0x99), Byte(0x3E), Byte(0x36),
    Byte(0x47), Byte(0x06), Byte(0x81), Byte(0x6A),
    Byte(0xBA), Byte(0x3E), Byte(0x25), Byte(0x71),
    Byte(0x78), Byte(0x50), Byte(0xC2), Byte(0x6C),
    Byte(0x9C), Byte(0xD0), Byte(0xD8), Byte(0x9D)]

  lemma CountIs()
    ensures forall i :: 0 <= i < 7 ==> CountBytes(24)[i] == Byte(0)
    ensures CountBytes(24)[7] == Byte(24)
  {
    forall i | 0 <= i < 7
      ensures CountBytes(24)[i] == Byte(0)
    {
      ByteIsZero(i);
    }
  }

  lemma ByteIsZero(i: nat)
    requires i < 7
    ensures CountByte(24, i) == Byte(0)
  {
    hide Num, CountByte;
    CountByteNum(24, i, if i < 4 then 0 else 24, [0x100_0000, 0x1_0000, 0x100, 1][i % 4]);
    NumOf(0);
    NumInjective(CountByte(24, i), Byte(0));
  }

  lemma Padding(p: seq<Byte>)
    requires p == Padded(MESSAGE)
    ensures |p| == 64 && p[0] == Byte(0x61) && p[1] == Byte(0x62) && p[2] == Byte(0x63) && p[3] == Byte(0x80)
    ensures p[63] == Byte(0x18) && forall i :: 4 <= i < 63 ==> p[i] == Byte(0)
  {
    CountIs();
    PaddedIs(MESSAGE);
    hide CountBytes, Value;
    assert ZerosFor(3) == 52;
    assert p == MESSAGE + [Byte(0x80)] + Zeros(52) + CountBytes(24);
    hide Padded, Zeros;
    assert p[56..] == CountBytes(24);
    forall i | 4 <= i < 63
      ensures p[i] == Byte(0)
    {
      if i >= 56 {
        assert p[i] == p[56..][i - 56];
      }
    }
    assert p[63] == p[56..][7];
  }

  lemma FirstWordOf()
    ensures BigEndian(Byte(0x61), Byte(0x62), Byte(0x63), Byte(0x80)) == Word(0x61626380)
    ensures BigEndian(Byte(0), Byte(0), Byte(0), Byte(0)) == Word(0)
    ensures BigEndian(Byte(0), Byte(0), Byte(0), Byte(0x18)) == Word(0x18)
  {
  }

  lemma BlockIs(p: seq<Byte>)
    requires p == Padded(MESSAGE)
    ensures |p| == 64 && BlockWords(p) == ABC
  {
    hide BigEndian, Padded;
    Padding(p);
    FirstWordOf();
    forall i | 0 <= i < 16
      ensures BlockWords(p)[i] == ABC[i]
    {
      assert BlockWords(p)[i] == BigEndian(p[4 * i], p[4 * i + 1], p[4 * i + 2], p[4 * i + 3]);
    }
  }

  lemma DigestIs()
    ensures DigestBytes(AddRegs(INITIAL, R(0x42541B35, 0x5738D5E1, 0x21834873, 0x681E6DF6, 0xD8FDF6AD))) == DIGEST
  {
  }

  lemma OneBlock(h: Regs, p: seq<Byte>)
    requires |p| == 64
    ensures Fold(h, p) == Compress(h, p)
  {
    hide Compress;
    assert p[..64] == p && p[64..] == [];
  }

  lemma Compressed(p: seq<Byte>)
    requires |p| == 64 && BlockWords(p) == ABC
    ensures Compress(INITIAL, p) == AddRegs(INITIAL, R(0x42541B35, 0x5738D5E1, 0x21834873, 0x681E6DF6, 0xD8FDF6AD))
  {
    Rounds80();
    hide BlockWords, RoundsTo, AddRegs;
  }

  /** SHA-1 of "abc" is A9993E36 4706816A BA3E2571 7850C26C 9CD0D89D, as the example of the
      standard says. */
  lemma StandardExample()
    ensures Sha1Of(MESSAGE) == DIGEST
  {
    var p := Padded(MESSAGE);
    BlockIs(p);
    Compressed(p);
    DigestIs();
    hide Padded, Compress, DigestBytes, AddRegs;
    OneBlock(INITIAL, p);
  }
}
