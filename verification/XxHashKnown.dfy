/** Known answers of XXH64: the published hashes of short strings, and one seeded hash of a whole stripe,
    worked out operation by operation. */
module XxHashKnown {
  import opened Width
  import opened Word64
  import opened MachineWords
  import opened XxHashSpec
  import opened XxHashKeys
  import opened XxHashEval

  // ---- no bytes ----

  lemma EmptyXor1()
    ensures Xors(0x27D4_EB2F_1656_67C5, 0x13EA_7597, 0x27D4_EB2F_05BC_1252)
  {
    Witness(Octets(0x27, 0xD4, 0xEB, 0x2F, 0x16, 0x56, 0x67, 0xC5), Octets(0, 0, 0, 0, 0x13, 0xEA, 0x75, 0x97),
            0x27D4_EB2F_1656_67C5, 0x13EA_7597, 0x27D4_EB2F_05BC_1252);
  }

  lemma EmptyXor2()
    ensures Xors(0xBEB1_3DDA_13C2_ED4E, 0x5_F589_EED0, 0xBEB1_3DDF_E64B_039E)
  {
    Witness(Octets(0xBE, 0xB1, 0x3D, 0xDA, 0x13, 0xC2, 0xED, 0x4E), Octets(0, 0, 0, 0x05, 0xF5, 0x89, 0xEE, 0xD0),
            0xBEB1_3DDA_13C2_ED4E, 0x5_F589_EED0, 0xBEB1_3DDF_E64B_039E);
  }

  lemma EmptyXor3()
    ensures Xors(0xEF46_DB37_BE9E_32AE, 0xEF46_DB37, 0xEF46_DB37_51D8_E999)
  {
    Witness(Octets(0xEF, 0x46, 0xDB, 0x37, 0xBE, 0x9E, 0x32, 0xAE), Octets(0, 0, 0, 0, 0xEF, 0x46, 0xDB, 0x37),
            0xEF46_DB37_BE9E_32AE, 0xEF46_DB37, 0xEF46_DB37_51D8_E999);
  }

  lemma EmptySteps()
    ensures 0x27D4_EB2F_1656_67C5 / 0x2_0000_0000 == 0x13EA_7597
    ensures Mul(0x27D4_EB2F_05BC_1252, PRIME2) == 0xBEB1_3DDA_13C2_ED4E
    ensures 0xBEB1_3DDA_13C2_ED4E / 0x2000_0000 == 0x5_F589_EED0
    ensures Mul(0xBEB1_3DDF_E64B_039E, PRIME3) == 0xEF46_DB37_BE9E_32AE
    ensures 0xEF46_DB37_BE9E_32AE / TWO_32 == 0xEF46_DB37
  {
    QuotientIs(0x27D4_EB2F_1656_67C5, 0x2_0000_0000, 0x13EA_7597, 0x1_1656_67C5);
    MulIs(0x27D4_EB2F_05BC_1252, PRIME2, 0x1E4B_2761_64D3_1384, 0xBEB1_3DDA_13C2_ED4E);
    QuotientIs(0xBEB1_3DDA_13C2_ED4E, 0x2000_0000, 0x5_F589_EED0, 0x13C2_ED4E);
    MulIs(0xBEB1_3DDF_E64B_039E, PRIME3, 0x10A3_9819_A54D_6418, 0xEF46_DB37_BE9E_32AE);
    QuotientIs(0xEF46_DB37_BE9E_32AE, TWO_32, 0xEF46_DB37, 0xBE9E_32AE);
  }

  lemma EmptyAvalanche()
    ensures Avalanche(SPECIFIED, 0x27D4_EB2F_1656_67C5) == 0xEF46_DB37_51D8_E999
  {
    EmptySteps();
    EmptyXor1();
    EmptyXor2();
    EmptyXor3();
    FinishIs(0x27D4_EB2F_1656_67C5, 0x13EA_7597, 0x27D4_EB2F_05BC_1252, 0xBEB1_3DDA_13C2_ED4E, 0x5_F589_EED0,
             0xBEB1_3DDF_E64B_039E, 0xEF46_DB37_BE9E_32AE, 0xEF46_DB37, 0xEF46_DB37_51D8_E999);
  }

  lemma HashOfEmpty()
    ensures Xxh64([], 0) == 0xEF46_DB37_51D8_E999
  {
    HashOfNothing(0);
    EmptyAvalanche();
  }

  // ---- one byte: "a" ----

  lemma ByteXor1()
    ensures Xors(0x27D4_EB2F_1656_67C6, 0x17AD_1CD7_76BD_51A5, 0x3079_F7F8_60EB_3663)
  {
    Witness(Octets(0x27, 0xD4, 0xEB, 0x2F, 0x16, 0x56, 0x67, 0xC6),
            Octets(0x17, 0xAD, 0x1C, 0xD7, 0x76, 0xBD, 0x51, 0xA5), 0x27D4_EB2F_1656_67C6, 0x17AD_1CD7_76BD_51A5,
            0x3079_F7F8_60EB_3663);
  }

  lemma ByteMixSteps()
    ensures Mul(0x61, PRIME5) == 0x17AD_1CD7_76BD_51A5
    ensures Turn(0x3079_F7F8_60EB_3663, 0x800, 0x20_0000_0000_0000) == 0xCFBF_C307_59B3_1983
    ensures Mul(0xCFBF_C307_59B3_1983, PRIME1) == 0xB865_97E4_19D4_D215
  {
    MulIs(0x61, PRIME5, 0xF, 0x17AD_1CD7_76BD_51A5);
    TurnOf(0x3079_F7F8_60EB_3663, 0x800, 0x20_0000_0000_0000, 0x183, 0x19_F7F8_60EB_3663, 0xCFBF_C307_59B3_1983);
    MulIs(0xCFBF_C307_59B3_1983, PRIME1, 0x8065_5F53_2363_1A69, 0xB865_97E4_19D4_D215);
  }

  lemma ByteMix()
    ensures Mix1(SPECIFIED, 0x27D4_EB2F_1656_67C6, 0x61) == 0xB865_97E4_19D4_D215
  {
    ByteXor1();
    ByteMixSteps();
    Mix1Is(0x27D4_EB2F_1656_67C6, 0x61, 0x17AD_1CD7_76BD_51A5, 0x3079_F7F8_60EB_3663, 0xCFBF_C307_59B3_1983,
           0xB865_97E4_19D4_D215);
  }

  lemma ByteXor2()
    ensures Xors(0xB865_97E4_19D4_D215, 0x5C32_CBF2, 0xB865_97E4_45E6_19E7)
  {
    Witness(Octets(0xB8, 0x65, 0x97, 0xE4, 0x19, 0xD4, 0xD2, 0x15), Octets(0, 0, 0, 0, 0x5C, 0x32, 0xCB, 0xF2),
            0xB865_97E4_19D4_D215, 0x5C32_CBF2, 0xB865_97E4_45E6_19E7);
  }

  lemma ByteXor3()
    ensures Xors(0xD785_8A26_7015_0B49, 0x6_BC2C_5133, 0xD785_8A20_CC39_5A7A)
  {
    Witness(Octets(0xD7, 0x85, 0x8A, 0x26, 0x70, 0x15, 0x0B, 0x49), Octets(0, 0, 0, 0x06, 0xBC, 0x2C, 0x51, 0x33),
            0xD785_8A26_7015_0B49, 0x6_BC2C_5133, 0xD785_8A20_CC39_5A7A);
  }

  lemma ByteXor4()
    ensures Xors(0xD24E_C4F1_7BC2_AAAA, 0xD24E_C4F1, 0xD24E_C4F1_A98C_6E5B)
  {
    Witness(Octets(0xD2, 0x4E, 0xC4, 0xF1, 0x7B, 0xC2, 0xAA, 0xAA), Octets(0, 0, 0, 0, 0xD2, 0x4E, 0xC4, 0xF1),
            0xD24E_C4F1_7BC2_AAAA, 0xD24E_C4F1, 0xD24E_C4F1_A98C_6E5B);
  }

  lemma ByteSteps()
    ensures 0xB865_97E4_19D4_D215 / 0x2_0000_0000 == 0x5C32_CBF2
    ensures Mul(0xB865_97E4_45E6_19E7, PRIME2) == 0xD785_8A26_7015_0B49
    ensures 0xD785_8A26_7015_0B49 / 0x2000_0000 == 0x6_BC2C_5133
    ensures Mul(0xD785_8A20_CC39_5A7A, PRIME3) == 0xD24E_C4F1_7BC2_AAAA
    ensures 0xD24E_C4F1_7BC2_AAAA / TWO_32 == 0xD24E_C4F1
  {
    QuotientIs(0xB865_97E4_19D4_D215, 0x2_0000_0000, 0x5C32_CBF2, 0x19D4_D215);
    MulIs(0xB865_97E4_45E6_19E7, PRIME2, 0x8C3D_B13F_B3D4_2A49, 0xD785_8A26_7015_0B49);
    QuotientIs(0xD785_8A26_7015_0B49, 0x2000_0000, 0x6_BC2C_5133, 0x1015_0B49);
    MulIs(0xD785_8A20_CC39_5A7A, PRIME3, 0x12CE_3807_7BAC_5B83, 0xD24E_C4F1_7BC2_AAAA);
    QuotientIs(0xD24E_C4F1_7BC2_AAAA, TWO_32, 0xD24E_C4F1, 0x7BC2_AAAA);
  }

  lemma ByteAvalanche()
    ensures Avalanche(SPECIFIED, 0xB865_97E4_19D4_D215) == 0xD24E_C4F1_A98C_6E5B
  {
    ByteSteps();
    ByteXor2();
    ByteXor3();
    ByteXor4();
    FinishIs(0xB865_97E4_19D4_D215, 0x5C32_CBF2, 0xB865_97E4_45E6_19E7, 0xD785_8A26_7015_0B49, 0x6_BC2C_5133,
             0xD785_8A20_CC39_5A7A, 0xD24E_C4F1_7BC2_AAAA, 0xD24E_C4F1, 0xD24E_C4F1_A98C_6E5B);
  }

  lemma HashOfA()
    ensures Xxh64([0x61], 0) == 0xD24E_C4F1_A98C_6E5B
  {
    HashOfByte([0x61], 0);
    Lane1Is([0x61]);
    ByteMix();
    ByteAvalanche();
  }

  // ---- four bytes: "abcd" ----

  lemma FourXor1()
    ensures Xors(0x27D4_EB2F_1656_67C9, 0x9791_F6D4_1014_6B27, 0xB045_1DFB_0642_0CEE)
  {
    Witness(Octets(0x27, 0xD4, 0xEB, 0x2F, 0x16, 0x56, 0x67, 0xC9),
            Octets(0x97, 0x91, 0xF6, 0xD4, 0x10, 0x14, 0x6B, 0x27), 0x27D4_EB2F_1656_67C9, 0x9791_F6D4_1014_6B27,
            0xB045_1DFB_0642_0CEE);
  }

  lemma FourMixSteps()
    ensures Mul(0x6463_6261, PRIME1) == 0x9791_F6D4_1014_6B27
    ensures Turn(0xB045_1DFB_0642_0CEE, 0x80_0000, 0x200_0000_0000) == 0xFD83_2106_7758_228E
    ensures Mul(0xFD83_2106_7758_228E, PRIME2) == 0xEA8A_22A2_FB83_03D2
    ensures Add(0xEA8A_22A2_FB83_03D2, PRIME3) == 0xE0_8A54_99BA_7DCB
  {
    MulIs(0x6463_6261, PRIME1, 0x3E0B_17CA, 0x9791_F6D4_1014_6B27);
    TurnOf(0xB045_1DFB_0642_0CEE, 0x80_0000, 0x200_0000_0000, 0x58_228E, 0x1FB_0642_0CEE, 0xFD83_2106_7758_228E);
    MulIs(0xFD83_2106_7758_228E, PRIME2, 0xC0CE_50BF_8D12_DCC4, 0xEA8A_22A2_FB83_03D2);
    AddIs(0xEA8A_22A2_FB83_03D2, PRIME3, 1, 0xE0_8A54_99BA_7DCB);
  }

  lemma FourMix()
    ensures Mix4(SPECIFIED, 0x27D4_EB2F_1656_67C9, 0x6463_6261) == 0xE0_8A54_99BA_7DCB
  {
    FourXor1();
    FourMixSteps();
    Mix4Is(0x27D4_EB2F_1656_67C9, 0x6463_6261, 0x9791_F6D4_1014_6B27, 0xB045_1DFB_0642_0CEE, 0xFD83_2106_7758_228E,
           0xEA8A_22A2_FB83_03D2, 0xE0_8A54_99BA_7DCB);
  }

  lemma FourXor2()
    ensures Xors(0xE0_8A54_99BA_7DCB, 0x70_452A, 0xE0_8A54_99CA_38E1)
  {
    Witness(Octets(0, 0xE0, 0x8A, 0x54, 0x99, 0xBA, 0x7D, 0xCB), Octets(0, 0, 0, 0, 0, 0x70, 0x45, 0x2A),
            0xE0_8A54_99BA_7DCB, 0x70_452A, 0xE0_8A54_99CA_38E1);
  }

  lemma FourXor3()
    ensures Xors(0xFC0D_FF06_78F2_186F, 0x7_E06F_F833, 0xFC0D_FF01_989D_E05C)
  {
    Witness(Octets(0xFC, 0x0D, 0xFF, 0x06, 0x78, 0xF2, 0x18, 0x6F), Octets(0, 0, 0, 0x07, 0xE0, 0x6F, 0xF8, 0x33),
            0xFC0D_FF06_78F2_186F, 0x7_E06F_F833, 0xFC0D_FF01_989D_E05C);
  }

  lemma FourXor4()
    ensures Xors(0xDE03_27B0_0C5E_B57C, 0xDE03_27B0, 0xDE03_27B0_D25D_92CC)
  {
    Witness(Octets(0xDE, 0x03, 0x27, 0xB0, 0x0C, 0x5E, 0xB5, 0x7C), Octets(0, 0, 0, 0, 0xDE, 0x03, 0x27, 0xB0),
            0xDE03_27B0_0C5E_B57C, 0xDE03_27B0, 0xDE03_27B0_D25D_92CC);
  }

  lemma FourSteps()
    ensures 0xE0_8A54_99BA_7DCB / 0x2_0000_0000 == 0x70_452A
    ensures Mul(0xE0_8A54_99CA_38E1, PRIME2) == 0xFC0D_FF06_78F2_186F
    ensures 0xFC0D_FF06_78F2_186F / 0x2000_0000 == 0x7_E06F_F833
    ensures Mul(0xFC0D_FF01_989D_E05C, PRIME3) == 0xDE03_27B0_0C5E_B57C
    ensures 0xDE03_27B0_0C5E_B57C / TWO_32 == 0xDE03_27B0
  {
    QuotientIs(0xE0_8A54_99BA_7DCB, 0x2_0000_0000, 0x70_452A, 0x99BA_7DCB);
    MulIs(0xE0_8A54_99CA_38E1, PRIME2, 0xAA_C58D_1F07_9439, 0xFC0D_FF06_78F2_186F);
    QuotientIs(0xFC0D_FF06_78F2_186F, 0x2000_0000, 0x7_E06F_F833, 0x18F2_186F);
    MulIs(0xFC0D_FF01_989D_E05C, PRIME3, 0x15FE_46B6_50B5_0D4F, 0xDE03_27B0_0C5E_B57C);
    QuotientIs(0xDE03_27B0_0C5E_B57C, TWO_32, 0xDE03_27B0, 0xC5E_B57C);
  }

  lemma FourAvalanche()
    ensures Avalanche(SPECIFIED, 0xE0_8A54_99BA_7DCB) == 0xDE03_27B0_D25D_92CC
  {
    FourSteps();
    FourXor2();
    FourXor3();
    FourXor4();
    FinishIs(0xE0_8A54_99BA_7DCB, 0x70_452A, 0xE0_8A54_99CA_38E1, 0xFC0D_FF06_78F2_186F, 0x7_E06F_F833,
             0xFC0D_FF01_989D_E05C, 0xDE03_27B0_0C5E_B57C, 0xDE03_27B0, 0xDE03_27B0_D25D_92CC);
  }

  lemma HashOfAbcd()
    ensures Xxh64([0x61, 0x62, 0x63, 0x64], 0) == 0xDE03_27B0_D25D_92CC
  {
    var x: seq<Byte> := [0x61, 0x62, 0x63, 0x64];
    HashOfFour(x, 0);
    Lane4Is(x);
    assert Lane(x) == 0x6463_6261;
    FourMix();
    FourAvalanche();
  }

  // ---- eight bytes: "abcdefgh" ----

  lemma EightXor1()
    ensures Xors(0x27D4_EB2F_1656_67CD, 0xD582_9FA7_0A0F_CC74, 0xF256_7488_1C59_ABB9)
  {
    Witness(Octets(0x27, 0xD4, 0xEB, 0x2F, 0x16, 0x56, 0x67, 0xCD),
            Octets(0xD5, 0x82, 0x9F, 0xA7, 0x0A, 0x0F, 0xCC, 0x74), 0x27D4_EB2F_1656_67CD, 0xD582_9FA7_0A0F_CC74,
            0xF256_7488_1C59_ABB9);
  }

  lemma EightMixSteps()
    ensures Mul(0x6867_6665_6463_6261, PRIME2) == 0xC328_51D8_754E_66EF
    ensures Turn(0xC328_51D8_754E_66EF, 0x8000_0000, 0x2_0000_0000) == 0x3AA7_3377_E194_28EC
    ensures Mul(0x3AA7_3377_E194_28EC, PRIME1) == 0xD582_9FA7_0A0F_CC74
    ensures Turn(0xF256_7488_1C59_ABB9, 0x800_0000, 0x20_0000_0000) == 0x40E2_CD5D_CF92_B3A4
    ensures Mul(0x40E2_CD5D_CF92_B3A4, PRIME1) == 0x1B2D_CDA5_53A8_237C
    ensures Add(0x1B2D_CDA5_53A8_237C, PRIME4) == 0xA119_981D_165A_D1DF
  {
    MulIs(0x6867_6665_6463_6261, PRIME2, 0x4F67_3A8D_410E_043D, 0xC328_51D8_754E_66EF);
    TurnOf(0xC328_51D8_754E_66EF, 0x8000_0000, 0x2_0000_0000, 0x6194_28EC, 0x754E_66EF, 0x3AA7_3377_E194_28EC);
    MulIs(0x3AA7_3377_E194_28EC, PRIME1, 0x243F_E791_BF98_0B38, 0xD582_9FA7_0A0F_CC74);
    TurnOf(0xF256_7488_1C59_ABB9, 0x800_0000, 0x20_0000_0000, 0x792_B3A4, 0x8_1C59_ABB9, 0x40E2_CD5D_CF92_B3A4);
    MulIs(0x40E2_CD5D_CF92_B3A4, PRIME1, 0x281A_0A52_3717_1096, 0x1B2D_CDA5_53A8_237C);
    AddIs(0x1B2D_CDA5_53A8_237C, PRIME4, 0, 0xA119_981D_165A_D1DF);
  }

  lemma EightMix()
    ensures Mix8(SPECIFIED, 0x27D4_EB2F_1656_67CD, 0x6867_6665_6463_6261) == 0xA119_981D_165A_D1DF
  {
    EightXor1();
    EightMixSteps();
    Mix8Is(0x27D4_EB2F_1656_67CD, 0x6867_6665_6463_6261, 0xC328_51D8_754E_66EF, 0x3AA7_3377_E194_28EC,
           0xD582_9FA7_0A0F_CC74, 0xF256_7488_1C59_ABB9, 0x40E2_CD5D_CF92_B3A4, 0x1B2D_CDA5_53A8_237C,
           0xA119_981D_165A_D1DF);
  }

  lemma EightXor2()
    ensures Xors(0xA119_981D_165A_D1DF, 0x508C_CC0E, 0xA119_981D_46D6_1DD1)
  {
    Witness(Octets(0xA1, 0x19, 0x98, 0x1D, 0x16, 0x5A, 0xD1, 0xDF), Octets(0, 0, 0, 0, 0x50, 0x8C, 0xCC, 0x0E),
            0xA119_981D_165A_D1DF, 0x508C_CC0E, 0xA119_981D_46D6_1DD1);
  }

  lemma EightXor3()
    ensures Xors(0x2A2D_41B7_F186_0E7F, 0x1_516A_0DBF, 0x2A2D_41B6_A0EC_03C0)
  {
    Witness(Octets(0x2A, 0x2D, 0x41, 0xB7, 0xF1, 0x86, 0x0E, 0x7F), Octets(0, 0, 0, 0x01, 0x51, 0x6A, 0x0D, 0xBF),
            0x2A2D_41B7_F186_0E7F, 0x1_516A_0DBF, 0x2A2D_41B6_A0EC_03C0);
  }

  lemma EightXor4()
    ensures Xors(0x3AD3_5177_6195_65C0, 0x3AD3_5177, 0x3AD3_5177_5B46_34B7)
  {
    Witness(Octets(0x3A, 0xD3, 0x51, 0x77, 0x61, 0x95, 0x65, 0xC0), Octets(0, 0, 0, 0, 0x3A, 0xD3, 0x51, 0x77),
            0x3AD3_5177_6195_65C0, 0x3AD3_5177, 0x3AD3_5177_5B46_34B7);
  }

  lemma EightSteps()
    ensures 0xA119_981D_165A_D1DF / 0x2_0000_0000 == 0x508C_CC0E
    ensures Mul(0xA119_981D_46D6_1DD1, PRIME2) == 0x2A2D_41B7_F186_0E7F
    ensures 0x2A2D_41B7_F186_0E7F / 0x2000_0000 == 0x1_516A_0DBF
    ensures Mul(0x2A2D_41B6_A0EC_03C0, PRIME3) == 0x3AD3_5177_6195_65C0
    ensures 0x3AD3_5177_6195_65C0 / TWO_32 == 0x3AD3_5177
  {
    QuotientIs(0xA119_981D_165A_D1DF, 0x2_0000_0000, 0x508C_CC0E, 0x1_165A_D1DF);
    MulIs(0xA119_981D_46D6_1DD1, PRIME2, 0x7A85_D6B7_D597_8C0B, 0x2A2D_41B7_F186_0E7F);
    QuotientIs(0x2A2D_41B7_F186_0E7F, 0x2000_0000, 0x1_516A_0DBF, 0x1186_0E7F);
    MulIs(0x2A2D_41B6_A0EC_03C0, PRIME3, 0x3AE_1FEF_3DFA_5400, 0x3AD3_5177_6195_65C0);
    QuotientIs(0x3AD3_5177_6195_65C0, TWO_32, 0x3AD3_5177, 0x6195_65C0);
  }

  lemma EightAvalanche()
    ensures Avalanche(SPECIFIED, 0xA119_981D_165A_D1DF) == 0x3AD3_5177_5B46_34B7
  {
    EightSteps();
    EightXor2();
    EightXor3();
    EightXor4();
    FinishIs(0xA119_981D_165A_D1DF, 0x508C_CC0E, 0xA119_981D_46D6_1DD1, 0x2A2D_41B7_F186_0E7F, 0x1_516A_0DBF,
             0x2A2D_41B6_A0EC_03C0, 0x3AD3_5177_6195_65C0, 0x3AD3_5177, 0x3AD3_5177_5B46_34B7);
  }

  lemma HashOfAbcdefgh()
    ensures Xxh64([0x61, 0x62, 0x63, 0x64, 0x65, 0x66, 0x67, 0x68], 0) == 0x3AD3_5177_5B46_34B7
  {
    var x: seq<Byte> := [0x61, 0x62, 0x63, 0x64, 0x65, 0x66, 0x67, 0x68];
    HashOfEight(x, 0);
    Lane8Is(x);
    assert Lane(x) == 0x6867_6665_6463_6261;
    EightMix();
    EightAvalanche();
  }

  // ---- a stripe: "abcdefghijklmnopqrstuvwxyz012345", with a seed ----

  const LANE1: seq<Byte> := [0x61, 0x62, 0x63, 0x64, 0x65, 0x66, 0x67, 0x68]

  const LANE2: seq<Byte> := [0x69, 0x6A, 0x6B, 0x6C, 0x6D, 0x6E, 0x6F, 0x70]

  const LANE3: seq<Byte> := [0x71, 0x72, 0x73, 0x74, 0x75, 0x76, 0x77, 0x78]

  const LANE4: seq<Byte> := [0x79, 0x7A, 0x30, 0x31, 0x32, 0x33, 0x34, 0x35]

  const STRIPE: seq<Byte> := LANE1 + LANE2 + LANE3 + LANE4

  function StripeInitial(): Accumulators<Word> {
    Accumulators(0x60EA_27EF_4BF8_2F87, 0xC2B2_AE3D_C60C_6500, 0x9E37_79B1, 0x61C8_864F_184B_AF2A)
  }

  lemma StripeStart()
    ensures Initial(SPECIFIED, 0x9E37_79B1) == StripeInitial()
  {}

  lemma StripeLane1()
    ensures Lane(LANE1) == 0x6867_6665_6463_6261
  {
    Lane8Is(LANE1);
  }

  lemma StripeRound1()
    ensures Round(SPECIFIED, 0x60EA_27EF_4BF8_2F87, 0x6867_6665_6463_6261) == 0x1401_0771_A04B_39B5
  {
    MulIs(0x6867_6665_6463_6261, PRIME2, 0x4F67_3A8D_410E_043D, 0xC328_51D8_754E_66EF);
    AddIs(0x60EA_27EF_4BF8_2F87, 0xC328_51D8_754E_66EF, 1, 0x2412_79C7_C146_9676);
    TurnOf(0x2412_79C7_C146_9676, 0x8000_0000, 0x2_0000_0000, 0x1209_3CE3, 0x1_C146_9676, 0xE0A3_4B3B_1209_3CE3);
    MulIs(0xE0A3_4B3B_1209_3CE3, PRIME1, 0x8AD5_764C_93CC_40A1, 0x1401_0771_A04B_39B5);
    RoundIs(0x60EA_27EF_4BF8_2F87, 0x6867_6665_6463_6261, 0xC328_51D8_754E_66EF, 0x2412_79C7_C146_9676,
            0xE0A3_4B3B_1209_3CE3, 0x1401_0771_A04B_39B5);
  }

  lemma StripeLane2()
    ensures Lane(LANE2) == 0x706F_6E6D_6C6B_6A69
  {
    Lane8Is(LANE2);
  }

  lemma StripeRound2()
    ensures Round(SPECIFIED, 0xC2B2_AE3D_C60C_6500, 0x706F_6E6D_6C6B_6A69) == 0xE31F_176B_7FA3_007D
  {
    MulIs(0x706F_6E6D_6C6B_6A69, PRIME2, 0x5582_EBB0_4D58_F68A, 0x81D1_657A_2DC8_3967);
    AddIs(0xC2B2_AE3D_C60C_6500, 0x81D1_657A_2DC8_3967, 1, 0x4484_13B7_F3D4_9E67);
    TurnOf(0x4484_13B7_F3D4_9E67, 0x8000_0000, 0x2_0000_0000, 0x2242_09DB, 0x1_F3D4_9E67, 0xF9EA_4F33_A242_09DB);
    MulIs(0xF9EA_4F33_A242_09DB, PRIME1, 0x9A74_C505_EF69_B39C, 0xE31F_176B_7FA3_007D);
    RoundIs(0xC2B2_AE3D_C60C_6500, 0x706F_6E6D_6C6B_6A69, 0x81D1_657A_2DC8_3967, 0x4484_13B7_F3D4_9E67,
            0xF9EA_4F33_A242_09DB, 0xE31F_176B_7FA3_007D);
  }

  lemma StripeLane3()
    ensures Lane(LANE3) == 0x7877_7675_7473_7271
  {
    Lane8Is(LANE3);
  }

  lemma StripeRound3()
    ensures Round(SPECIFIED, 0x9E37_79B1, 0x7877_7675_7473_7271) == 0x88AA_05D3_AE6C_FAE2
  {
    MulIs(0x7877_7675_7473_7271, PRIME2, 0x5B9E_9CD3_59A3_E8D7, 0x407A_791B_E642_0BDF);
    AddIs(0x9E37_79B1, 0x407A_791B_E642_0BDF, 0, 0x407A_791C_8479_8590);
    TurnOf(0x407A_791C_8479_8590, 0x8000_0000, 0x2_0000_0000, 0x203D_3C8E, 0x8479_8590, 0x423C_C2C8_203D_3C8E);
    MulIs(0x423C_C2C8_203D_3C8E, PRIME1, 0x28EF_DAC2_039E_8F82, 0x88AA_05D3_AE6C_FAE2);
    RoundIs(0x9E37_79B1, 0x7877_7675_7473_7271, 0x407A_791B_E642_0BDF, 0x407A_791C_8479_8590, 0x423C_C2C8_203D_3C8E,
            0x88AA_05D3_AE6C_FAE2);
  }

  lemma StripeLane4()
    ensures Lane(LANE4) == 0x3534_3332_3130_7A79
  {
    Lane8Is(LANE4);
  }

  lemma StripeRound4()
    ensures Round(SPECIFIED, 0x61C8_864F_184B_AF2A, 0x3534_3332_3130_7A79) == 0x74F5_67BC_EAB5_610D
  {
    MulIs(0x3534_3332_3130_7A79, PRIME2, 0x2876_B14D_D2B0_74D7, 0xE717_6B47_8996_DE57);
    AddIs(0x61C8_864F_184B_AF2A, 0xE717_6B47_8996_DE57, 1, 0x48DF_F196_A1E2_8D81);
    TurnOf(0x48DF_F196_A1E2_8D81, 0x8000_0000, 0x2_0000_0000, 0x246F_F8CB, 0xA1E2_8D81, 0x50F1_46C0_A46F_F8CB);
    MulIs(0x50F1_46C0_A46F_F8CB, PRIME1, 0x3206_73FB_447B_4FCD, 0x74F5_67BC_EAB5_610D);
    RoundIs(0x61C8_864F_184B_AF2A, 0x3534_3332_3130_7A79, 0xE717_6B47_8996_DE57, 0x48DF_F196_A1E2_8D81,
            0x50F1_46C0_A46F_F8CB, 0x74F5_67BC_EAB5_610D);
  }

  function StripeAccumulators(): Accumulators<Word> {
    Accumulators(0x1401_0771_A04B_39B5, 0xE31F_176B_7FA3_007D, 0x88AA_05D3_AE6C_FAE2, 0x74F5_67BC_EAB5_610D)
  }

  lemma StripeIsAbsorbed()
    ensures Stripe(SPECIFIED, StripeInitial(), STRIPE) == StripeAccumulators()
  {
    assert STRIPE[..8] == LANE1 && STRIPE[8..16] == LANE2 && STRIPE[16..24] == LANE3 && STRIPE[24..] == LANE4;
    StripeLane1();
    StripeRound1();
    StripeLane2();
    StripeRound2();
    StripeLane3();
    StripeRound3();
    StripeLane4();
    StripeRound4();
  }

  lemma StripeSumSteps()
    ensures Turn(0x1401_0771_A04B_39B5, 2, 0x8000_0000_0000_0000) == 0x2802_0EE3_4096_736A
    ensures Turn(0xE31F_176B_7FA3_007D, 0x80, 0x200_0000_0000_0000) == 0x8F8B_B5BF_D180_3EF1
    ensures Turn(0x88AA_05D3_AE6C_FAE2, 0x1000, 0x10_0000_0000_0000) == 0xA05D_3AE6_CFAE_288A
    ensures Turn(0x74F5_67BC_EAB5_610D, 0x4_0000, 0x4000_0000_0000) == 0x9EF3_AAD5_8435_D3D5
    ensures Add(0x2802_0EE3_4096_736A, 0x8F8B_B5BF_D180_3EF1) == 0xB78D_C4A3_1216_B25B
    ensures Add(0xB78D_C4A3_1216_B25B, 0xA05D_3AE6_CFAE_288A) == 0x57EA_FF89_E1C4_DAE5
    ensures Add(0x57EA_FF89_E1C4_DAE5, 0x9EF3_AAD5_8435_D3D5) == 0xF6DE_AA5F_65FA_AEBA
  {
    TurnOf(0x1401_0771_A04B_39B5, 2, 0x8000_0000_0000_0000, 0, 0x1401_0771_A04B_39B5, 0x2802_0EE3_4096_736A);
    TurnOf(0xE31F_176B_7FA3_007D, 0x80, 0x200_0000_0000_0000, 0x71, 0x11F_176B_7FA3_007D, 0x8F8B_B5BF_D180_3EF1);
    TurnOf(0x88AA_05D3_AE6C_FAE2, 0x1000, 0x10_0000_0000_0000, 0x88A, 0xA_05D3_AE6C_FAE2, 0xA05D_3AE6_CFAE_288A);
    TurnOf(0x74F5_67BC_EAB5_610D, 0x4_0000, 0x4000_0000_0000, 0x1_D3D5, 0x27BC_EAB5_610D, 0x9EF3_AAD5_8435_D3D5);
    AddIs(0x2802_0EE3_4096_736A, 0x8F8B_B5BF_D180_3EF1, 0, 0xB78D_C4A3_1216_B25B);
    AddIs(0xB78D_C4A3_1216_B25B, 0xA05D_3AE6_CFAE_288A, 1, 0x57EA_FF89_E1C4_DAE5);
    AddIs(0x57EA_FF89_E1C4_DAE5, 0x9EF3_AAD5_8435_D3D5, 0, 0xF6DE_AA5F_65FA_AEBA);
  }

  lemma StripeXor1()
    ensures Xors(0xF6DE_AA5F_65FA_AEBA, 0x9033_A042_DD1A_BE7A, 0x66ED_0A1D_B8E0_10C0)
  {
    Witness(Octets(0xF6, 0xDE, 0xAA, 0x5F, 0x65, 0xFA, 0xAE, 0xBA),
            Octets(0x90, 0x33, 0xA0, 0x42, 0xDD, 0x1A, 0xBE, 0x7A), 0xF6DE_AA5F_65FA_AEBA, 0x9033_A042_DD1A_BE7A,
            0x66ED_0A1D_B8E0_10C0);
  }

  lemma StripeMergeSteps1()
    ensures Mul(0x1401_0771_A04B_39B5, PRIME2) == 0x34AA_946C_E213_F5DB
    ensures Turn(0x34AA_946C_E213_F5DB, 0x8000_0000, 0x2_0000_0000) == 0x7109_FAED_9A55_4A36
    ensures Mul(0x7109_FAED_9A55_4A36, PRIME1) == 0x9033_A042_DD1A_BE7A
    ensures Mul(0x66ED_0A1D_B8E0_10C0, PRIME1) == 0xDF67_3CB0_6BA0_5540
    ensures Add(0xDF67_3CB0_6BA0_5540, PRIME4) == 0x6553_0728_2E53_03A3
  {
    MulIs(0x1401_0771_A04B_39B5, PRIME2, 0xF36_BDF8_C2E5_426F, 0x34AA_946C_E213_F5DB);
    TurnOf(0x34AA_946C_E213_F5DB, 0x8000_0000, 0x2_0000_0000, 0x1A55_4A36, 0xE213_F5DB, 0x7109_FAED_9A55_4A36);
    MulIs(0x7109_FAED_9A55_4A36, PRIME1, 0x45DC_A7BF_A8EF_E54E, 0x9033_A042_DD1A_BE7A);
    MulIs(0x66ED_0A1D_B8E0_10C0, PRIME1, 0x3F9C_9A18_EE01_00AF, 0xDF67_3CB0_6BA0_5540);
    AddIs(0xDF67_3CB0_6BA0_5540, PRIME4, 1, 0x6553_0728_2E53_03A3);
  }

  lemma StripeMerge1()
    ensures Merge(SPECIFIED, 0xF6DE_AA5F_65FA_AEBA, 0x1401_0771_A04B_39B5) == 0x6553_0728_2E53_03A3
  {
    StripeXor1();
    StripeMergeSteps1();
    MergeIs(0xF6DE_AA5F_65FA_AEBA, 0x1401_0771_A04B_39B5, 0x34AA_946C_E213_F5DB, 0x7109_FAED_9A55_4A36,
            0x9033_A042_DD1A_BE7A, 0x66ED_0A1D_B8E0_10C0, 0xDF67_3CB0_6BA0_5540, 0x6553_0728_2E53_03A3);
  }

  lemma StripeXor2()
    ensures Xors(0x6553_0728_2E53_03A3, 0xD0BE_235D_2D67_8021, 0xB5ED_2475_0334_8382)
  {
    Witness(Octets(0x65, 0x53, 0x07, 0x28, 0x2E, 0x53, 0x03, 0xA3),
            Octets(0xD0, 0xBE, 0x23, 0x5D, 0x2D, 0x67, 0x80, 0x21), 0x6553_0728_2E53_03A3, 0xD0BE_235D_2D67_8021,
            0xB5ED_2475_0334_8382);
  }

  lemma StripeMergeSteps2()
    ensures Mul(0xE31F_176B_7FA3_007D, PRIME2) == 0xABA5_842F_7743_E593
    ensures Turn(0xABA5_842F_7743_E593, 0x8000_0000, 0x2_0000_0000) == 0xBBA1_F2C9_D5D2_C217
    ensures Mul(0xBBA1_F2C9_D5D2_C217, PRIME1) == 0xD0BE_235D_2D67_8021
    ensures Mul(0xB5ED_2475_0334_8382, PRIME1) == 0xD74C_26A5_62CB_ED8E
    ensures Add(0xD74C_26A5_62CB_ED8E, PRIME4) == 0x5D37_F11D_257E_9BF1
  {
    MulIs(0xE31F_176B_7FA3_007D, PRIME2, 0xACBC_15F3_2322_8E27, 0xABA5_842F_7743_E593);
    TurnOf(0xABA5_842F_7743_E593, 0x8000_0000, 0x2_0000_0000, 0x55D2_C217, 0x1_7743_E593, 0xBBA1_F2C9_D5D2_C217);
    MulIs(0xBBA1_F2C9_D5D2_C217, PRIME1, 0x73F6_9CD5_6437_3CEC, 0xD0BE_235D_2D67_8021);
    MulIs(0xB5ED_2475_0334_8382, PRIME1, 0x706F_C8EE_4B7B_616B, 0xD74C_26A5_62CB_ED8E);
    AddIs(0xD74C_26A5_62CB_ED8E, PRIME4, 1, 0x5D37_F11D_257E_9BF1);
  }

  lemma StripeMerge2()
    ensures Merge(SPECIFIED, 0x6553_0728_2E53_03A3, 0xE31F_176B_7FA3_007D) == 0x5D37_F11D_257E_9BF1
  {
    StripeXor2();
    StripeMergeSteps2();
    MergeIs(0x6553_0728_2E53_03A3, 0xE31F_176B_7FA3_007D, 0xABA5_842F_7743_E593, 0xBBA1_F2C9_D5D2_C217,
            0xD0BE_235D_2D67_8021, 0xB5ED_2475_0334_8382, 0xD74C_26A5_62CB_ED8E, 0x5D37_F11D_257E_9BF1);
  }

  lemma StripeXor3()
    ensures Xors(0x5D37_F11D_257E_9BF1, 0xE562_F54A_8AF9_6AA7, 0xB855_0457_AF87_F156)
  {
    Witness(Octets(0x5D, 0x37, 0xF1, 0x1D, 0x25, 0x7E, 0x9B, 0xF1),
            Octets(0xE5, 0x62, 0xF5, 0x4A, 0x8A, 0xF9, 0x6A, 0xA7), 0x5D37_F11D_257E_9BF1, 0xE562_F54A_8AF9_6AA7,
            0xB855_0457_AF87_F156);
  }

  lemma StripeMergeSteps3()
    ensures Mul(0x88AA_05D3_AE6C_FAE2, PRIME2) == 0xAA51_8DC3_0F16_E1BE
    ensures Turn(0xAA51_8DC3_0F16_E1BE, 0x8000_0000, 0x2_0000_0000) == 0x878B_70DF_5528_C6E1
    ensures Mul(0x878B_70DF_5528_C6E1, PRIME1) == 0xE562_F54A_8AF9_6AA7
    ensures Mul(0xB855_0457_AF87_F156, PRIME1) == 0x607B_BF61_0D10_205A
    ensures Add(0x607B_BF61_0D10_205A, PRIME4) == 0xE667_89D8_CFC2_CEBD
  {
    MulIs(0x88AA_05D3_AE6C_FAE2, PRIME2, 0x67F0_3BA6_AD1A_B332, 0xAA51_8DC3_0F16_E1BE);
    TurnOf(0xAA51_8DC3_0F16_E1BE, 0x8000_0000, 0x2_0000_0000, 0x5528_C6E1, 0x1_0F16_E1BE, 0x878B_70DF_5528_C6E1);
    MulIs(0x878B_70DF_5528_C6E1, PRIME1, 0x53C5_6F0D_FD35_5A0B, 0xE562_F54A_8AF9_6AA7);
    MulIs(0xB855_0457_AF87_F156, PRIME1, 0x71EC_6A92_0F70_02E0, 0x607B_BF61_0D10_205A);
    AddIs(0x607B_BF61_0D10_205A, PRIME4, 0, 0xE667_89D8_CFC2_CEBD);
  }

  lemma StripeMerge3()
    ensures Merge(SPECIFIED, 0x5D37_F11D_257E_9BF1, 0x88AA_05D3_AE6C_FAE2) == 0xE667_89D8_CFC2_CEBD
  {
    StripeXor3();
    StripeMergeSteps3();
    MergeIs(0x5D37_F11D_257E_9BF1, 0x88AA_05D3_AE6C_FAE2, 0xAA51_8DC3_0F16_E1BE, 0x878B_70DF_5528_C6E1,
            0xE562_F54A_8AF9_6AA7, 0xB855_0457_AF87_F156, 0x607B_BF61_0D10_205A, 0xE667_89D8_CFC2_CEBD);
  }

  lemma StripeXor4()
    ensures Xors(0xE667_89D8_CFC2_CEBD, 0x821A_F267_5EF3_046D, 0x647D_7BBF_9131_CAD0)
  {
    Witness(Octets(0xE6, 0x67, 0x89, 0xD8, 0xCF, 0xC2, 0xCE, 0xBD),
            Octets(0x82, 0x1A, 0xF2, 0x67, 0x5E, 0xF3, 0x04, 0x6D), 0xE667_89D8_CFC2_CEBD, 0x821A_F267_5EF3_046D,
            0x647D_7BBF_9131_CAD0);
  }

  lemma StripeMergeSteps4()
    ensures Mul(0x74F5_67BC_EAB5_610D, PRIME2) == 0x9862_64D7_47D3_E203
    ensures Turn(0x9862_64D7_47D3_E203, 0x8000_0000, 0x2_0000_0000) == 0xA3E9_F101_CC31_326B
    ensures Mul(0xA3E9_F101_CC31_326B, PRIME1) == 0x821A_F267_5EF3_046D
    ensures Mul(0x647D_7BBF_9131_CAD0, PRIME1) == 0x14_1B7A_183A_13B0
    ensures Add(0x14_1B7A_183A_13B0, PRIME4) == 0x85FF_E5F1_DAEC_C213
  {
    MulIs(0x74F5_67BC_EAB5_610D, PRIME2, 0x58F3_9ADA_0867_6EBD, 0x9862_64D7_47D3_E203);
    TurnOf(0x9862_64D7_47D3_E203, 0x8000_0000, 0x2_0000_0000, 0x4C31_326B, 0x1_47D3_E203, 0xA3E9_F101_CC31_326B);
    MulIs(0xA3E9_F101_CC31_326B, PRIME1, 0x654D_E7ED_20D2_3B14, 0x821A_F267_5EF3_046D);
    MulIs(0x647D_7BBF_9131_CAD0, PRIME1, 0x3E1B_391A_D096_C7EE, 0x14_1B7A_183A_13B0);
    AddIs(0x14_1B7A_183A_13B0, PRIME4, 0, 0x85FF_E5F1_DAEC_C213);
  }

  lemma StripeMerge4()
    ensures Merge(SPECIFIED, 0xE667_89D8_CFC2_CEBD, 0x74F5_67BC_EAB5_610D) == 0x85FF_E5F1_DAEC_C213
  {
    StripeXor4();
    StripeMergeSteps4();
    MergeIs(0xE667_89D8_CFC2_CEBD, 0x74F5_67BC_EAB5_610D, 0x9862_64D7_47D3_E203, 0xA3E9_F101_CC31_326B,
            0x821A_F267_5EF3_046D, 0x647D_7BBF_9131_CAD0, 0x14_1B7A_183A_13B0, 0x85FF_E5F1_DAEC_C213);
  }

  lemma StripeConverge()
    ensures Converge(SPECIFIED, StripeAccumulators()) == 0x85FF_E5F1_DAEC_C213
  {
    StripeSumSteps();
    SumIs(StripeAccumulators(), 0x2802_0EE3_4096_736A, 0x8F8B_B5BF_D180_3EF1, 0xA05D_3AE6_CFAE_288A,
          0x9EF3_AAD5_8435_D3D5, 0xB78D_C4A3_1216_B25B, 0x57EA_FF89_E1C4_DAE5, 0xF6DE_AA5F_65FA_AEBA);
    StripeMerge1();
    StripeMerge2();
    StripeMerge3();
    StripeMerge4();
  }

  lemma StripeXor5()
    ensures Xors(0x85FF_E5F1_DAEC_C233, 0x42FF_F2F8, 0x85FF_E5F1_9813_30CB)
  {
    Witness(Octets(0x85, 0xFF, 0xE5, 0xF1, 0xDA, 0xEC, 0xC2, 0x33), Octets(0, 0, 0, 0, 0x42, 0xFF, 0xF2, 0xF8),
            0x85FF_E5F1_DAEC_C233, 0x42FF_F2F8, 0x85FF_E5F1_9813_30CB);
  }

  lemma StripeXor6()
    ensures Xors(0x872C_32D9_E0D2_67A5, 0x4_3961_96CF, 0x872C_32DD_D9B3_F16A)
  {
    Witness(Octets(0x87, 0x2C, 0x32, 0xD9, 0xE0, 0xD2, 0x67, 0xA5), Octets(0, 0, 0, 0x04, 0x39, 0x61, 0x96, 0xCF),
            0x872C_32D9_E0D2_67A5, 0x4_3961_96CF, 0x872C_32DD_D9B3_F16A);
  }

  lemma StripeXor7()
    ensures Xors(0x5936_BAA1_16E6_EA1A, 0x5936_BAA1, 0x5936_BAA1_4FD0_50BB)
  {
    Witness(Octets(0x59, 0x36, 0xBA, 0xA1, 0x16, 0xE6, 0xEA, 0x1A), Octets(0, 0, 0, 0, 0x59, 0x36, 0xBA, 0xA1),
            0x5936_BAA1_16E6_EA1A, 0x5936_BAA1, 0x5936_BAA1_4FD0_50BB);
  }

  lemma StripeSteps()
    ensures 0x85FF_E5F1_DAEC_C233 / 0x2_0000_0000 == 0x42FF_F2F8
    ensures Mul(0x85FF_E5F1_9813_30CB, PRIME2) == 0x872C_32D9_E0D2_67A5
    ensures 0x872C_32D9_E0D2_67A5 / 0x2000_0000 == 0x4_3961_96CF
    ensures Mul(0x872C_32DD_D9B3_F16A, PRIME3) == 0x5936_BAA1_16E6_EA1A
    ensures 0x5936_BAA1_16E6_EA1A / TWO_32 == 0x5936_BAA1
  {
    QuotientIs(0x85FF_E5F1_DAEC_C233, 0x2_0000_0000, 0x42FF_F2F8, 0x1_DAEC_C233);
    MulIs(0x85FF_E5F1_9813_30CB, PRIME2, 0x65E9_7362_E857_B75D, 0x872C_32D9_E0D2_67A5);
    QuotientIs(0x872C_32D9_E0D2_67A5, 0x2000_0000, 0x4_3961_96CF, 0xD2_67A5);
    MulIs(0x872C_32DD_D9B3_F16A, PRIME3, 0xBCB_6BF8_B8CD_9978, 0x5936_BAA1_16E6_EA1A);
    QuotientIs(0x5936_BAA1_16E6_EA1A, TWO_32, 0x5936_BAA1, 0x16E6_EA1A);
  }

  lemma StripeAvalanche()
    ensures Avalanche(SPECIFIED, 0x85FF_E5F1_DAEC_C233) == 0x5936_BAA1_4FD0_50BB
  {
    StripeSteps();
    StripeXor5();
    StripeXor6();
    StripeXor7();
    FinishIs(0x85FF_E5F1_DAEC_C233, 0x42FF_F2F8, 0x85FF_E5F1_9813_30CB, 0x872C_32D9_E0D2_67A5, 0x4_3961_96CF,
             0x872C_32DD_D9B3_F16A, 0x5936_BAA1_16E6_EA1A, 0x5936_BAA1, 0x5936_BAA1_4FD0_50BB);
  }

  lemma HashOfStripeAndSeed()
    ensures Xxh64(STRIPE, 0x9E37_79B1) == 0x5936_BAA1_4FD0_50BB
  {
    HashOfStripe(STRIPE, 0x9E37_79B1);
    StripeStart();
    StripeIsAbsorbed();
    StripeConverge();
    StripeAvalanche();
  }
}
