/** Values the hashes have: published ones, and those of the map the unit test of the hash changes one byte of. */
module KnownAnswers {
  import opened Words
  import opened Striping
  import opened Multiply
  import opened Xxh3Stripes
  import opened Xxh3Short
  import opened Xxh3Laws
  import Xxh32
  import C32 = Xxh32Changes
  import C64 = Xxh64Changes
  import Xxh64
  import Xxh3

  lemma Empty32()
    ensures Xxh32.Hash(0, []) == 0x02CC5D05
  {
  }

  lemma Empty64()
    ensures Xxh64.Hash(0, []) == 0xEF46DB3751D8E999
  {
  }

  lemma Secret56()
    ensures ReadLE64(KSecret(), 56) == 0x4C263A81E69035E0
  {
  }

  lemma Secret64()
    ensures ReadLE64(KSecret(), 64) == 0xCB00C391BB52283C
  {
  }

  lemma EmptyFlip()
    ensures ReadLE64(KSecret(), 56) ^ ReadLE64(KSecret(), 64) == 0x8726F9105DC21DDC
  {
    hide KSecret, ReadLE64;
    Secret56();
    Secret64();
  }

  lemma EmptyAvalanche()
    ensures Xxh64.Avalanche(0 ^ 0x8726F9105DC21DDC) == 0x2D06800538D394C2
  {
  }

  lemma Empty3()
    ensures Xxh3.Hash(Xxh3.Default, []) == 0x2D06800538D394C2
  {
    hide KSecret, ReadLE64, Xxh64.Avalanche;
    EmptyFlip();
    EmptyAvalanche();
  }

  /** A map of 64 bytes that is zero but for its eleventh byte. */
  function Bitmap(b: byte): (s: seq<byte>)
    ensures |s| == 64
  {
    seq(64, i => if i == 10 then b else 0)
  }

  lemma Lanes32()
    ensures Xxh32.InitLanes(0xA5B35705) == Xxh32.Lanes(0xC9D69B2D, 0x2B9F217C, 0xA5B35705, 0x77BDD54)
  {
  }

  lemma Block32_0()
    ensures Xxh32.RoundBlock(Xxh32.Lanes(0xC9D69B2D, 0x2B9F217C, 0xA5B35705, 0x77BDD54), Bitmap(1)[0..16])
         == Xxh32.Lanes(0xD5577B1A, 0xE0A39F83, 0x70ABAE75, 0x4D2D1C3F)
  {
    var b := Bitmap(1)[0..16];
    assert ReadLE32(b, 0) == 0x0 && ReadLE32(b, 4) == 0x0;
    assert ReadLE32(b, 8) == 0x10000 && ReadLE32(b, 12) == 0x0;
    hide Bitmap, ReadLE32;
  }

  lemma Block32_1()
    ensures Xxh32.RoundBlock(Xxh32.Lanes(0xD5577B1A, 0xE0A39F83, 0x70ABAE75, 0x4D2D1C3F), Bitmap(1)[16..32])
         == Xxh32.Lanes(0xE012098A, 0xD4373DD4, 0x80B14985, 0x56DA8815)
  {
    var b := Bitmap(1)[16..32];
    assert ReadLE32(b, 0) == 0x0 && ReadLE32(b, 4) == 0x0;
    assert ReadLE32(b, 8) == 0x0 && ReadLE32(b, 12) == 0x0;
    hide Bitmap, ReadLE32;
  }

  lemma Block32_2()
    ensures Xxh32.RoundBlock(Xxh32.Lanes(0xE012098A, 0xD4373DD4, 0x80B14985, 0x56DA8815), Bitmap(1)[32..48])
         == Xxh32.Lanes(0x680B8F62, 0x51D82CA6, 0xE69E2536, 0x24A6A46B)
  {
    var b := Bitmap(1)[32..48];
    assert ReadLE32(b, 0) == 0x0 && ReadLE32(b, 4) == 0x0;
    assert ReadLE32(b, 8) == 0x0 && ReadLE32(b, 12) == 0x0;
    hide Bitmap, ReadLE32;
  }

  lemma Block32_3()
    ensures Xxh32.RoundBlock(Xxh32.Lanes(0x680B8F62, 0x51D82CA6, 0xE69E2536, 0x24A6A46B), Bitmap(1)[48..64])
         == Xxh32.Lanes(0x9DFDB6B1, 0xC22B5CB, 0x811368E3, 0xBE187E54)
  {
    var b := Bitmap(1)[48..64];
    assert ReadLE32(b, 0) == 0x0 && ReadLE32(b, 4) == 0x0;
    assert ReadLE32(b, 8) == 0x0 && ReadLE32(b, 12) == 0x0;
    hide Bitmap, ReadLE32;
  }

  lemma Converged32()
    ensures Xxh32.Converge(Xxh32.Lanes(0x9DFDB6B1, 0xC22B5CB, 0x811368E3, 0xBE187E54)) == 0x7D37835B
  {
    assert Rotl32(0x9DFDB6B1, 1) == 0x3BFB6D63 && Rotl32(0xC22B5CB, 7) == 0x115AE586;
    assert Rotl32(0x811368E3, 12) == 0x368E3811 && Rotl32(0xBE187E54, 18) == 0xF952F861;
    hide Rotl32;
    assert Xxh32.Plus(0x3BFB6D63, 0x115AE586) == 0x4D5652E9;
    assert Xxh32.Plus(0x4D5652E9, 0x368E3811) == 0x83E48AFA;
    assert Xxh32.Plus(0x83E48AFA, 0xF952F861) == 0x7D37835B;
    hide Xxh32.Plus;
  }

  lemma Length32()
    ensures Xxh32.AddLength(0x7D37835B, 64) == 0x7D37839B
  {
    assert Wrap32(64) == 64;
    hide Wrap32;
    assert Xxh32.Plus(0x7D37835B, 64) == 0x7D37839B;
    hide Xxh32.Plus;
  }

  lemma Avalanche32()
    ensures Xxh32.Avalanche(0x7D37839B) == 0xF99DCE64
  {
    assert Xxh32.Fold15(0x7D37839B) == 0x7D3779F4 && Xxh32.Times2(0x7D3779F4) == 0xB200386C;
    assert Xxh32.Fold13(0xB200386C) == 0xB205A86D && Xxh32.Times3(0xB205A86D) == 0xF99D37F9;
    assert Xxh32.Fold16(0xF99D37F9) == 0xF99DCE64;
    hide Xxh32.Fold15, Xxh32.Times2, Xxh32.Fold13, Xxh32.Times3, Xxh32.Fold16;
  }

  lemma Finished32()
    ensures C32.Finished(0x7D37835B, 64, []) == 0xF99DCE64
  {
    hide Xxh32.AddLength, Xxh32.Avalanche;
    Length32();
    Avalanche32();
  }

  lemma Bitmap32()
    ensures Xxh32.Hash(0xA5B35705, Bitmap(1)) == 0xF99DCE64
  {
    hide Bitmap, Xxh32.RoundBlock, Xxh32.InitLanes, Xxh32.Converge, Fold, Xxh32.Hash, C32.Finished;
    var s := Bitmap(1);
    Lanes32();
    assert s[..0] == [];
    FoldNothing(16, Xxh32.RoundBlock, Xxh32.InitLanes(0xA5B35705));
    Block32_0();
    FoldStep(16, Xxh32.RoundBlock, Xxh32.InitLanes(0xA5B35705), s, 0, 0);
    Block32_1();
    FoldStep(16, Xxh32.RoundBlock, Xxh32.InitLanes(0xA5B35705), s, 1, 16);
    Block32_2();
    FoldStep(16, Xxh32.RoundBlock, Xxh32.InitLanes(0xA5B35705), s, 2, 32);
    Block32_3();
    FoldStep(16, Xxh32.RoundBlock, Xxh32.InitLanes(0xA5B35705), s, 3, 48);
    assert s[..64] == s && s[64..] == [];
    Converged32();
    C32.HashInParts(0xA5B35705, s, 64);
    Finished32();
  }

  lemma Lanes64()
    ensures Xxh64.InitLanes(0xA5B35705) == Xxh64.Lanes(0x60EA27EF53740CDB, 0xC2B2AE3DCD884254, 0xA5B35705, 0x61C8864F1FC78C7E)
  {
  }

  lemma Round64_00()
    ensures Xxh64.Round(0x60EA27EF53740CDB, 0x0) == 0x40FD4CB4163B6D41
  {
    assert Xxh64.Scale2(0x0) == 0x0 && Xxh64.Plus(0x60EA27EF53740CDB, 0x0) == 0x60EA27EF53740CDB;
    assert Rotl64(0x60EA27EF53740CDB, 31) == 0xA9BA066DB07513F7 && Xxh64.Scale1(0xA9BA066DB07513F7) == 0x40FD4CB4163B6D41;
    hide Xxh64.Scale2, Xxh64.Plus, Rotl64, Xxh64.Scale1;
  }

  lemma Round64_01()
    ensures Xxh64.Round(0xC2B2AE3DCD884254, 0x10000) == 0x50F5333BD4F50BBF
  {
    assert Xxh64.Scale2(0x10000) == 0xAE3D27D4EB4F0000 && Xxh64.Plus(0xC2B2AE3DCD884254, 0xAE3D27D4EB4F0000) == 0x70EFD612B8D74254;
    assert Rotl64(0x70EFD612B8D74254, 31) == 0x5C6BA12A3877EB09 && Xxh64.Scale1(0x5C6BA12A3877EB09) == 0x50F5333BD4F50BBF;
    hide Xxh64.Scale2, Xxh64.Plus, Rotl64, Xxh64.Scale1;
  }

  lemma Round64_02()
    ensures Xxh64.Round(0xA5B35705, 0x0) == 0x2F69EAD180000000
  {
    assert Xxh64.Scale2(0x0) == 0x0 && Xxh64.Plus(0xA5B35705, 0x0) == 0xA5B35705;
    assert Rotl64(0xA5B35705, 31) == 0x52D9AB8280000000 && Xxh64.Scale1(0x52D9AB8280000000) == 0x2F69EAD180000000;
    hide Xxh64.Scale2, Xxh64.Plus, Rotl64, Xxh64.Scale1;
  }

  lemma Round64_03()
    ensures Xxh64.Round(0x61C8864F1FC78C7E, 0x0) == 0x9CE4BD4ACD292F91
  {
    assert Xxh64.Scale2(0x0) == 0x0 && Xxh64.Plus(0x61C8864F1FC78C7E, 0x0) == 0x61C8864F1FC78C7E;
    assert Rotl64(0x61C8864F1FC78C7E, 31) == 0x8FE3C63F30E44327 && Xxh64.Scale1(0x8FE3C63F30E44327) == 0x9CE4BD4ACD292F91;
    hide Xxh64.Scale2, Xxh64.Plus, Rotl64, Xxh64.Scale1;
  }

  lemma Block64_0()
    ensures Xxh64.RoundBlock(Xxh64.Lanes(0x60EA27EF53740CDB, 0xC2B2AE3DCD884254, 0xA5B35705, 0x61C8864F1FC78C7E), Bitmap(1)[0..32])
         == Xxh64.Lanes(0x40FD4CB4163B6D41, 0x50F5333BD4F50BBF, 0x2F69EAD180000000, 0x9CE4BD4ACD292F91)
  {
    var b := Bitmap(1)[0..32];
    assert ReadLE64(b, 0) == 0x0 && ReadLE64(b, 8) == 0x10000;
    assert ReadLE64(b, 16) == 0x0 && ReadLE64(b, 24) == 0x0;
    hide Bitmap, ReadLE64, Xxh64.Round;
    Round64_00();
    Round64_01();
    Round64_02();
    Round64_03();
  }

  lemma Round64_10()
    ensures Xxh64.Round(0x40FD4CB4163B6D41, 0x0) == 0x8522BC4208AABD76
  {
    assert Xxh64.Scale2(0x0) == 0x0 && Xxh64.Plus(0x40FD4CB4163B6D41, 0x0) == 0x40FD4CB4163B6D41;
    assert Rotl64(0x40FD4CB4163B6D41, 31) == 0xB1DB6A0A07EA65A && Xxh64.Scale1(0xB1DB6A0A07EA65A) == 0x8522BC4208AABD76;
    hide Xxh64.Scale2, Xxh64.Plus, Rotl64, Xxh64.Scale1;
  }

  lemma Round64_11()
    ensures Xxh64.Round(0x50F5333BD4F50BBF, 0x0) == 0xC130D8C929FBE3CB
  {
    assert Xxh64.Scale2(0x0) == 0x0 && Xxh64.Plus(0x50F5333BD4F50BBF, 0x0) == 0x50F5333BD4F50BBF;
    assert Rotl64(0x50F5333BD4F50BBF, 31) == 0xEA7A85DFA87A999D && Xxh64.Scale1(0xEA7A85DFA87A999D) == 0xC130D8C929FBE3CB;
    hide Xxh64.Scale2, Xxh64.Plus, Rotl64, Xxh64.Scale1;
  }

  lemma Round64_12()
    ensures Xxh64.Round(0x2F69EAD180000000, 0x0) == 0x21DAAE45988979D8
  {
    assert Xxh64.Scale2(0x0) == 0x0 && Xxh64.Plus(0x2F69EAD180000000, 0x0) == 0x2F69EAD180000000;
    assert Rotl64(0x2F69EAD180000000, 31) == 0xC000000017B4F568 && Xxh64.Scale1(0xC000000017B4F568) == 0x21DAAE45988979D8;
    hide Xxh64.Scale2, Xxh64.Plus, Rotl64, Xxh64.Scale1;
  }

  lemma Round64_13()
    ensures Xxh64.Round(0x9CE4BD4ACD292F91, 0x0) == 0xF7F9D908B7751B03
  {
    assert Xxh64.Scale2(0x0) == 0x0 && Xxh64.Plus(0x9CE4BD4ACD292F91, 0x0) == 0x9CE4BD4ACD292F91;
    assert Rotl64(0x9CE4BD4ACD292F91, 31) == 0x669497C8CE725EA5 && Xxh64.Scale1(0x669497C8CE725EA5) == 0xF7F9D908B7751B03;
    hide Xxh64.Scale2, Xxh64.Plus, Rotl64, Xxh64.Scale1;
  }

  lemma Block64_1()
    ensures Xxh64.RoundBlock(Xxh64.Lanes(0x40FD4CB4163B6D41, 0x50F5333BD4F50BBF, 0x2F69EAD180000000, 0x9CE4BD4ACD292F91), Bitmap(1)[32..64])
         == Xxh64.Lanes(0x8522BC4208AABD76, 0xC130D8C929FBE3CB, 0x21DAAE45988979D8, 0xF7F9D908B7751B03)
  {
    var b := Bitmap(1)[32..64];
    assert ReadLE64(b, 0) == 0x0 && ReadLE64(b, 8) == 0x0;
    assert ReadLE64(b, 16) == 0x0 && ReadLE64(b, 24) == 0x0;
    hide Bitmap, ReadLE64, Xxh64.Round;
    Round64_10();
    Round64_11();
    Round64_12();
    Round64_13();
  }

  lemma Merge64_0()
    ensures Xxh64.MergeRound(0xB1B9147612F4C2D1, 0x8522BC4208AABD76) == 0x8395572CE2FFE3F4
  {
    assert Xxh64.Scale2(0x8522BC4208AABD76) == 0x340B3FB54853C96A && Xxh64.Plus(0, 0x340B3FB54853C96A) == 0x340B3FB54853C96A;
    assert Rotl64(0x340B3FB54853C96A, 31) == 0xA429E4B51A059FDA && Xxh64.Scale1(0xA429E4B51A059FDA) == 0x3399E0F928374FF6;
    assert Xxh64.Xor(0xB1B9147612F4C2D1, 0x3399E0F928374FF6) == 0x8220F48F3AC38D27 && Xxh64.Scale1(0x8220F48F3AC38D27) == 0xFDA98CB5204D3591;
    assert Xxh64.Plus(0xFDA98CB5204D3591, Xxh64.PRIME64_4) == 0x8395572CE2FFE3F4;
    hide Xxh64.Scale2, Xxh64.Plus, Rotl64, Xxh64.Scale1, Xxh64.Xor;
  }

  lemma Merge64_1()
    ensures Xxh64.MergeRound(0x8395572CE2FFE3F4, 0xC130D8C929FBE3CB) == 0x78D516506282871B
  {
    assert Xxh64.Scale2(0xC130D8C929FBE3CB) == 0x100EF549BFF2A4A5 && Xxh64.Plus(0, 0x100EF549BFF2A4A5) == 0x100EF549BFF2A4A5;
    assert Rotl64(0x100EF549BFF2A4A5, 31) == 0xDFF9525288077AA4 && Xxh64.Scale1(0xDFF9525288077AA4) == 0x713D99D46B43147C;
    assert Xxh64.Xor(0x8395572CE2FFE3F4, 0x713D99D46B43147C) == 0xF2A8CEF889BCF788 && Xxh64.Scale1(0xF2A8CEF889BCF788) == 0xF2E94BD89FCFD8B8;
    assert Xxh64.Plus(0xF2E94BD89FCFD8B8, Xxh64.PRIME64_4) == 0x78D516506282871B;
    hide Xxh64.Scale2, Xxh64.Plus, Rotl64, Xxh64.Scale1, Xxh64.Xor;
  }

  lemma Merge64_2()
    ensures Xxh64.MergeRound(0x78D516506282871B, 0x21DAAE45988979D8) == 0x1A90C61874ECA2F0
  {
    assert Xxh64.Scale2(0x21DAAE45988979D8) == 0x4E17C6611425E1A8 && Xxh64.Plus(0, 0x4E17C6611425E1A8) == 0x4E17C6611425E1A8;
    assert Rotl64(0x4E17C6611425E1A8, 31) == 0x8A12F0D4270BE330 && Xxh64.Scale1(0x8A12F0D4270BE330) == 0x19F72FD17598AE50;
    assert Xxh64.Xor(0x78D516506282871B, 0x19F72FD17598AE50) == 0x61223981171A294B && Xxh64.Scale1(0x61223981171A294B) == 0x94A4FBA0B239F48D;
    assert Xxh64.Plus(0x94A4FBA0B239F48D, Xxh64.PRIME64_4) == 0x1A90C61874ECA2F0;
    hide Xxh64.Scale2, Xxh64.Plus, Rotl64, Xxh64.Scale1, Xxh64.Xor;
  }

  lemma Merge64_3()
    ensures Xxh64.MergeRound(0x1A90C61874ECA2F0, 0xF7F9D908B7751B03) == 0x5358AE5BE0031FB6
  {
    assert Xxh64.Scale2(0xF7F9D908B7751B03) == 0x4CD937E7F06B16ED && Xxh64.Plus(0, 0x4CD937E7F06B16ED) == 0x4CD937E7F06B16ED;
    assert Rotl64(0x4CD937E7F06B16ED, 31) == 0xF8358B76A66C9BF3 && Xxh64.Scale1(0xF8358B76A66C9BF3) == 0xB0AC0B9EDD64FB25;
    assert Xxh64.Xor(0x1A90C61874ECA2F0, 0xB0AC0B9EDD64FB25) == 0xAA3CCD86A98859D5 && Xxh64.Scale1(0xAA3CCD86A98859D5) == 0xCD6CE3E41D507153;
    assert Xxh64.Plus(0xCD6CE3E41D507153, Xxh64.PRIME64_4) == 0x5358AE5BE0031FB6;
    hide Xxh64.Scale2, Xxh64.Plus, Rotl64, Xxh64.Scale1, Xxh64.Xor;
  }

  lemma Summed64()
    ensures Xxh64.Plus(Xxh64.Plus(Xxh64.Plus(Rotl64(0x8522BC4208AABD76, 1), Rotl64(0xC130D8C929FBE3CB, 7)), Rotl64(0x21DAAE45988979D8, 12)), Rotl64(0xF7F9D908B7751B03, 18))
         == 0xB1B9147612F4C2D1
  {
    assert Rotl64(0x8522BC4208AABD76, 1) == 0xA45788411557AED && Rotl64(0xC130D8C929FBE3CB, 7) == 0x986C6494FDF1E5E0;
    assert Rotl64(0x21DAAE45988979D8, 12) == 0xAAE45988979D821D && Rotl64(0xF7F9D908B7751B03, 18) == 0x6422DDD46C0FDFE7;
    hide Rotl64;
    assert Xxh64.Plus(0xA45788411557AED, 0x986C6494FDF1E5E0) == 0xA2B1DD190F4760CD && Xxh64.Plus(0xA2B1DD190F4760CD, 0xAAE45988979D821D) == 0x4D9636A1A6E4E2EA;
    assert Xxh64.Plus(0x4D9636A1A6E4E2EA, 0x6422DDD46C0FDFE7) == 0xB1B9147612F4C2D1;
    hide Xxh64.Plus;
  }

  lemma Converged64()
    ensures Xxh64.Converge(Xxh64.Lanes(0x8522BC4208AABD76, 0xC130D8C929FBE3CB, 0x21DAAE45988979D8, 0xF7F9D908B7751B03))
         == 0x5358AE5BE0031FB6
  {
    hide Rotl64, Xxh64.Plus, Xxh64.MergeRound;
    Summed64();
    Merge64_0();
    Merge64_1();
    Merge64_2();
    Merge64_3();
  }

  lemma Length64()
    ensures Xxh64.AddLength(0x5358AE5BE0031FB6, 64) == 0x5358AE5BE0031FF6
  {
    assert Wrap64(64) == 64;
    hide Wrap64;
    assert Xxh64.Plus(0x5358AE5BE0031FB6, 64) == 0x5358AE5BE0031FF6;
    hide Xxh64.Plus;
  }

  lemma Avalanche64()
    ensures Xxh64.Avalanche(0x5358AE5BE0031FF6) == 0x4F61BF655F5DA336
  {
    assert Xxh64.Fold33(0x5358AE5BE0031FF6) == 0x5358AE5BC9AF48DB && Xxh64.Scale2(0x5358AE5BC9AF48DB) == 0x50B7FFE7D7548495;
    assert Xxh64.Fold29(0x50B7FFE7D7548495) == 0x50B7FFE552EB7BAB && Xxh64.Scale3(0x50B7FFE552EB7BAB) == 0x4F61BF65103C1C53;
    assert Xxh64.Fold32(0x4F61BF65103C1C53) == 0x4F61BF655F5DA336;
    hide Xxh64.Fold33, Xxh64.Scale2, Xxh64.Fold29, Xxh64.Scale3, Xxh64.Fold32;
  }

  lemma Finished64()
    ensures C64.Finished(0x5358AE5BE0031FB6, 64, []) == 0x4F61BF655F5DA336
  {
    hide Xxh64.AddLength, Xxh64.Avalanche;
    Length64();
    Avalanche64();
  }

  lemma Bitmap64()
    ensures Xxh64.Hash(0xA5B35705, Bitmap(1)) == 0x4F61BF655F5DA336
  {
    hide Bitmap, Xxh64.RoundBlock, Xxh64.InitLanes, Xxh64.Converge, Fold, Xxh64.Hash, C64.Finished;
    var s := Bitmap(1);
    Lanes64();
    assert s[..0] == [];
    FoldNothing(32, Xxh64.RoundBlock, Xxh64.InitLanes(0xA5B35705));
    Block64_0();
    FoldStep(32, Xxh64.RoundBlock, Xxh64.InitLanes(0xA5B35705), s, 0, 0);
    Block64_1();
    FoldStep(32, Xxh64.RoundBlock, Xxh64.InitLanes(0xA5B35705), s, 1, 32);
    assert s[..64] == s && s[64..] == [];
    Converged64();
    C64.HashInParts(0xA5B35705, s, 64);
    Finished64();
  }

  /** The words of the map: zero, but for the byte that is set. */
  lemma BitmapWords(b: byte, at: nat)
    requires at in {0, 16, 32, 48}
    ensures ReadLE64(Bitmap(b), at) == 0 && ReadLE64(Bitmap(b), at + 8) == if at == 0 then b as u64 << 16 else 0
  {
  }

  lemma Secret32()
    ensures ReadLE64(KSecret(), 32) == 0x78E5C0CC4EE679CB
  {
  }

  lemma Secret40()
    ensures ReadLE64(KSecret(), 40) == 0x2172FFCC7DD05A82
  {
  }

  lemma Secret48()
    ensures ReadLE64(KSecret(), 48) == 0x8E2443F7744608B8
  {
  }

  lemma Secret16()
    ensures ReadLE64(KSecret(), 16) == 0xDB979083E96DD4DE
  {
  }

  lemma Secret24()
    ensures ReadLE64(KSecret(), 24) == 0x1F67B3B7A4A44072
  {
  }

  lemma Secret0()
    ensures ReadLE64(KSecret(), 0) == 0xBE4BA423396CFEB8
  {
  }

  lemma Secret8()
    ensures ReadLE64(KSecret(), 8) == 0x1CAD21F72C81017C
  {
  }

  lemma Start64()
    ensures StartAcc(64) == 0x8DDE6C617AF2A1C0
  {
    assert 64 as u64 == 0x40;
    assert 0x40 * Xxh64.PRIME64_1 == 0x8DDE6C617AF2A1C0;
  }

  lemma SumsZero()
    ensures Xxh64.Plus(Xxh64.Plus(0x8DDE6C617AF2A1C0, 0x62914E0BB579A55C), 0xFA4DE5819064BD65) == 0xEABD9FEEC0D10481
    ensures Xxh64.Plus(Xxh64.Plus(0xEABD9FEEC0D10481, 0xE66D33D47ACC9175), 0xEEA7EE2660ADF5B3) == 0xBFD2C1E99C4B8BA9
  {
  }

  lemma AvalancheZero()
    ensures Avalanche(0xBFD2C1E99C4B8BA9) == 0x2FFB6918C12C256E
  {
    assert XorShift(0xBFD2C1E99C4B8BA9, 37) == 0xBFD2C1E999B51DA6;
    assert 0xBFD2C1E999B51DA6 * PRIME_MX1 == 0x2FFB6918EED74C76;
    assert XorShift(0x2FFB6918EED74C76, 32) == 0x2FFB6918C12C256E;
    hide XorShift;
  }

  lemma SumsOne()
    ensures Xxh64.Plus(Xxh64.Plus(0x8DDE6C617AF2A1C0, 0x62914E0BB579A55C), 0xFA4DE5819064BD65) == 0xEABD9FEEC0D10481
    ensures Xxh64.Plus(Xxh64.Plus(0xEABD9FEEC0D10481, 0x5A4A6A497B87D32A), 0xEEA7EE2660ADF5B3) == 0x33AFF85E9D06CD5E
  {
  }

  lemma AvalancheOne()
    ensures Avalanche(0x33AFF85E9D06CD5E) == 0xF4FDF817669D8DAB
  {
    assert XorShift(0x33AFF85E9D06CD5E, 37) == 0x33AFF85E9C9BB29C;
    assert 0x33AFF85E9C9BB29C * PRIME_MX1 == 0xF4FDF817926075BC;
    assert XorShift(0xF4FDF817926075BC, 32) == 0xF4FDF817669D8DAB;
    hide XorShift;
  }

  /** The hash of the empty map. */
  lemma BitmapZero() {
    hide KSecret, Bitmap, ReadLE64, MulFold64, Xxh64.Plus, Less, Avalanche, StartAcc;
    Start64();
    assert Mix16B(Bitmap(0), 16, KSecret(), 32, 0) == 0x6D5AA2FC2BCB3716 ^ 0xFCBECF79EB2924A by {
      BitmapWords(0, 16);
      Secret32();
      Secret40();
      NoSeed(0x78E5C0CC4EE679CB);
      NoSeed(0x2172FFCC7DD05A82);
      assert Flipped(0x0, 0x78E5C0CC4EE679CB) == 0x78E5C0CC4EE679CB && Flipped(0x0, 0x2172FFCC7DD05A82) == 0x2172FFCC7DD05A82;
      MulFoldIsExact(0x78E5C0CC4EE679CB, 0x2172FFCC7DD05A82, 0x6D5AA2FC2BCB3716, 0xFCBECF79EB2924A);
    }
    assert Mix16B(Bitmap(0), 32, KSecret(), 48, 0) == 0xD00A1B8A7495B900 ^ 0x2A47FE0BE4F10465 by {
      BitmapWords(0, 32);
      Secret48();
      Secret56();
      NoSeed(0x8E2443F7744608B8);
      NoSeed(0x4C263A81E69035E0);
      assert Flipped(0x0, 0x8E2443F7744608B8) == 0x8E2443F7744608B8 && Flipped(0x0, 0x4C263A81E69035E0) == 0x4C263A81E69035E0;
      MulFoldIsExact(0x8E2443F7744608B8, 0x4C263A81E69035E0, 0xD00A1B8A7495B900, 0x2A47FE0BE4F10465);
    }
    assert Mix16B(Bitmap(0), 0, KSecret(), 0, 0) == 0xF33DCB8538821920 ^ 0x1550F851424E8855 by {
      BitmapWords(0, 0);
      Secret0();
      Secret8();
      NoSeed(0xBE4BA423396CFEB8);
      NoSeed(0x1CAD21F72C81017C);
      assert Flipped(0x0, 0xBE4BA423396CFEB8) == 0xBE4BA423396CFEB8 && Flipped(0x0, 0x1CAD21F72C81017C) == 0x1CAD21F72C81017C;
      MulFoldIsExact(0xBE4BA423396CFEB8, 0x1CAD21F72C81017C, 0xF33DCB8538821920, 0x1550F851424E8855);
    }
    assert Mix16B(Bitmap(0), 48, KSecret(), 16, 0) == 0xF457A085FE584ADC ^ 0x1AF04EA39EF5BF6F by {
      BitmapWords(0, 48);
      Secret16();
      Secret24();
      NoSeed(0xDB979083E96DD4DE);
      NoSeed(0x1F67B3B7A4A44072);
      assert Flipped(0x0, 0xDB979083E96DD4DE) == 0xDB979083E96DD4DE && Flipped(0x0, 0x1F67B3B7A4A44072) == 0x1F67B3B7A4A44072;
      MulFoldIsExact(0xDB979083E96DD4DE, 0x1F67B3B7A4A44072, 0xF457A085FE584ADC, 0x1AF04EA39EF5BF6F);
    }
    hide Mix16B, Flipped;
    SumsZero();
    AvalancheZero();
    assert Len17To128(Bitmap(0), KSecret(), 0) == 0x2FFB6918C12C256E;
  }

  /** Setting one byte, as the unit test of the hash does, changes it. */
  lemma BitmapOne() {
    hide KSecret, Bitmap, ReadLE64, MulFold64, Xxh64.Plus, Less, Avalanche, StartAcc;
    Start64();
    assert Mix16B(Bitmap(1), 16, KSecret(), 32, 0) == 0x6D5AA2FC2BCB3716 ^ 0xFCBECF79EB2924A by {
      BitmapWords(1, 16);
      Secret32();
      Secret40();
      NoSeed(0x78E5C0CC4EE679CB);
      NoSeed(0x2172FFCC7DD05A82);
      assert Flipped(0x0, 0x78E5C0CC4EE679CB) == 0x78E5C0CC4EE679CB && Flipped(0x0, 0x2172FFCC7DD05A82) == 0x2172FFCC7DD05A82;
      MulFoldIsExact(0x78E5C0CC4EE679CB, 0x2172FFCC7DD05A82, 0x6D5AA2FC2BCB3716, 0xFCBECF79EB2924A);
    }
    assert Mix16B(Bitmap(1), 32, KSecret(), 48, 0) == 0xD00A1B8A7495B900 ^ 0x2A47FE0BE4F10465 by {
      BitmapWords(1, 32);
      Secret48();
      Secret56();
      NoSeed(0x8E2443F7744608B8);
      NoSeed(0x4C263A81E69035E0);
      assert Flipped(0x0, 0x8E2443F7744608B8) == 0x8E2443F7744608B8 && Flipped(0x0, 0x4C263A81E69035E0) == 0x4C263A81E69035E0;
      MulFoldIsExact(0x8E2443F7744608B8, 0x4C263A81E69035E0, 0xD00A1B8A7495B900, 0x2A47FE0BE4F10465);
    }
    assert Mix16B(Bitmap(1), 0, KSecret(), 0, 0) == 0x4F1A921839CA1920 ^ 0x1550F851424DCA0A by {
      BitmapWords(1, 0);
      Secret0();
      Secret8();
      NoSeed(0xBE4BA423396CFEB8);
      NoSeed(0x1CAD21F72C81017C);
      assert Flipped(0x0, 0xBE4BA423396CFEB8) == 0xBE4BA423396CFEB8 && Flipped(0x10000, 0x1CAD21F72C81017C) == 0x1CAD21F72C80017C;
      MulFoldIsExact(0xBE4BA423396CFEB8, 0x1CAD21F72C80017C, 0x4F1A921839CA1920, 0x1550F851424DCA0A);
    }
    assert Mix16B(Bitmap(1), 48, KSecret(), 16, 0) == 0xF457A085FE584ADC ^ 0x1AF04EA39EF5BF6F by {
      BitmapWords(1, 48);
      Secret16();
      Secret24();
      NoSeed(0xDB979083E96DD4DE);
      NoSeed(0x1F67B3B7A4A44072);
      assert Flipped(0x0, 0xDB979083E96DD4DE) == 0xDB979083E96DD4DE && Flipped(0x0, 0x1F67B3B7A4A44072) == 0x1F67B3B7A4A44072;
      MulFoldIsExact(0xDB979083E96DD4DE, 0x1F67B3B7A4A44072, 0xF457A085FE584ADC, 0x1AF04EA39EF5BF6F);
    }
    hide Mix16B, Flipped;
    SumsOne();
    AvalancheOne();
    assert Len17To128(Bitmap(1), KSecret(), 0) == 0xF4FDF817669D8DAB;
  }

  // ----- Front parts of the default secret, hashed under it -----

  function Front(n: nat): (s: seq<byte>)
    requires n <= 192
    ensures |s| == n
  {
    KSecret()[..n]
  }

  lemma FrontWord(n: nat, at: nat)
    requires at + 8 <= n <= 192
    ensures ReadLE64(Front(n), at) == ReadLE64(KSecret(), at)
  {
    hide KSecret, ReadLE64;
    assert Front(n) <= KSecret();
    WordOfFront(KSecret(), n, at);
  }

  lemma Secret4()
    ensures ReadLE64(KSecret(), 4) == 0x2C81017CBE4BA423
  {
  }

  lemma Secret12()
    ensures ReadLE64(KSecret(), 12) == 0xE96DD4DE1CAD21F7
  {
  }

  lemma Words12()
    ensures ReadLE64(Front(12), 0) == 0xBE4BA423396CFEB8 && ReadLE64(Front(12), 4) == 0x2C81017CBE4BA423
  {
    hide KSecret, Front, ReadLE64;
    FrontWord(12, 0);
    FrontWord(12, 4);
    Secret0();
    Secret8();
    Secret4();
    Secret12();
  }

  lemma Flips12()
    ensures (ReadLE64(KSecret(), 24) ^ ReadLE64(KSecret(), 32)) + 0 == 0x6782737BEA4239B9
    ensures (ReadLE64(KSecret(), 40) ^ ReadLE64(KSecret(), 48)) - 0 == 0xAF56BC3B0996523A
  {
    hide KSecret, ReadLE64;
    Secret24();
    Secret32();
    Secret40();
    Secret48();
  }

  lemma Swapped12()
    ensures Swap64(0xD9C9D758D32EC701) == 0x1C72ED358D7C9D9
  {
  }

  lemma Avalanche12()
    ensures Avalanche(0x95CEAE56535A922C) == 0x4DA64C364A643458
  {
    assert XorShift(0x95CEAE56535A922C, 37) == 0x95CEAE5657F4E75E;
    assert 0x95CEAE5657F4E75E * PRIME_MX1 == 0x4DA64C3607C2786E;
    assert XorShift(0x4DA64C3607C2786E, 32) == 0x4DA64C364A643458;
    hide XorShift;
  }

  lemma Mixed12()
    ensures Len9To16(Front(12), KSecret(), 0) == 0x4DA64C364A643458
  {
    hide KSecret, Front, ReadLE64, Swap64, MulFold64, Avalanche;
    Words12();
    Flips12();
    Swapped12();
    MulFoldIsExact(0xD9C9D758D32EC701, 0x83D7BD47B7DDF619, 0x6006108615A96519, 0x7029D2BD570DB737);
    assert 12 as u64 + 0x1C72ED358D7C9D9 + 0x83D7BD47B7DDF619 + 0x102FC23B42A4D22E == 0x95CEAE56535A922C;
    Avalanche12();
  }

  lemma Hash12()
    ensures Xxh3.Hash(Xxh3.Default, Front(12)) == 0x4DA64C364A643458
  {
    hide KSecret, Front, ReadLE64, Swap64, MulFold64, Avalanche, Len9To16;
    assert Xxh3.Hash(Xxh3.Default, Front(12)) == Len9To16(Front(12), KSecret(), 0);
    Mixed12();
  }

  lemma Bitflip8()
    ensures Bitflip4To8(KSecret(), 0x123456789ABCDEF) == 0xD84BC2863C4107B3
  {
    assert Swap32(0x89ABCDEF) == 0xEFCDAB89;
    hide KSecret, ReadLE64, Swap32;
    Secret8();
    Secret16();
    Secret16();
    Secret24();
  }

  lemma Joined8()
    ensures Combined4To8(0x396CFEB8, 0xBE4BA423) == 0x396CFEB8BE4BA423 && Flipped(0x396CFEB8BE4BA423, 0xD84BC2863C4107B3)
         == 0xE1273C3E820AA390
  {
  }

  lemma Words8()
    ensures ReadLE32(Front(8), 0) == 0x396CFEB8 && ReadLE32(Front(8), 4) == 0xBE4BA423
  {
  }

  lemma Rrmxmx8()
    ensures Rrmxmx(0xE1273C3E820AA390, 8) == 0x1C848E62D00EBF6A
  {
    assert Rotl64(0xE1273C3E820AA390, 49) == 0x4721C24E787D0415 && Rotl64(0xE1273C3E820AA390, 24) == 0x3E820AA390E1273C;
    hide Rotl64;
    assert Spread(0xE1273C3E820AA390) == 0x9884F4D36A9680B9 && TimesMx2(0x9884F4D36A9680B9) == 0xEB977DD69DB9C1BD;
    assert AddTop(0xEB977DD69DB9C1BD, 8) == 0xEB977DD680CB2E7F && TimesMx2(0xEB977DD680CB2E7F) == 0x1C848E631846595B;
    assert XorShift(0x1C848E631846595B, 28) == 0x1C848E62D00EBF6A;
    hide Spread, TimesMx2, AddTop, XorShift;
  }

  lemma Mixed8()
    ensures Len4To8(Front(8), KSecret(), 0x123456789ABCDEF) == 0x1C848E62D00EBF6A
  {
    hide KSecret, Front, ReadLE32, Bitflip4To8, Combined4To8, Flipped, Rrmxmx;
    Words8();
    Bitflip8();
    Joined8();
    Rrmxmx8();
  }

  lemma Hash8()
    ensures Xxh3.Hash(Xxh3.Seeded(0x123456789ABCDEF), Front(8)) == 0x1C848E62D00EBF6A
  {
    hide KSecret, Front, Len4To8;
    Mixed8();
  }
}
