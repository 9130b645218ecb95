/** The table of crc64.c, and that each entry is its index shifted eight times through the polynomial. */
module Crc64Table {
  import opened Crc64Shift

  /** Entries 0 to 15 of crc64_tab. */
  function Row0(col: bv64): bv64 {
    if col == 0 then 0x0000_0000_0000_0000 else
    if col == 1 then 0x7ad8_70c8_3035_8979 else
    if col == 2 then 0xf5b0_e190_606b_12f2 else
    if col == 3 then 0x8f68_9158_505e_9b8b else
    if col == 4 then 0xc038_e573_9841_b68f else
    if col == 5 then 0xbae0_95bb_a874_3ff6 else
    if col == 6 then 0x3588_04e3_f82a_a47d else
    if col == 7 then 0x4f50_742b_c81f_2d04 else
    if col == 8 then 0xab28_ecb4_6814_fe75 else
    if col == 9 then 0xd1f0_9c7c_5821_770c else
    if col == 10 then 0x5e98_0d24_087f_ec87 else
    if col == 11 then 0x2440_7dec_384a_65fe else
    if col == 12 then 0x6b10_09c7_f055_48fa else
    if col == 13 then 0x11c8_790f_c060_c183 else
    if col == 14 then 0x9ea0_e857_903e_5a08 else
    0xe478_989f_a00b_d371
  }

  /** Entries 16 to 31 of crc64_tab. */
  function Row1(col: bv64): bv64 {
    if col == 0 then 0x7d08_ff3b_88be_6f81 else
    if col == 1 then 0x07d0_8ff3_b88b_e6f8 else
    if col == 2 then 0x88b8_1eab_e8d5_7d73 else
    if col == 3 then 0xf260_6e63_d8e0_f40a else
    if col == 4 then 0xbd30_1a48_10ff_d90e else
    if col == 5 then 0xc7e8_6a80_20ca_5077 else
    if col == 6 then 0x4880_fbd8_7094_cbfc else
    if col == 7 then 0x3258_8b10_40a1_4285 else
    if col == 8 then 0xd620_138f_e0aa_91f4 else
    if col == 9 then 0xacf8_6347_d09f_188d else
    if col == 10 then 0x2390_f21f_80c1_8306 else
    if col == 11 then 0x5948_82d7_b0f4_0a7f else
    if col == 12 then 0x1618_f6fc_78eb_277b else
    if col == 13 then 0x6cc0_8634_48de_ae02 else
    if col == 14 then 0xe3a8_176c_1880_3589 else
    0x9970_67a4_28b5_bcf0
  }

  /** Entries 32 to 47 of crc64_tab. */
  function Row2(col: bv64): bv64 {
    if col == 0 then 0xfa11_fe77_117c_df02 else
    if col == 1 then 0x80c9_8ebf_2149_567b else
    if col == 2 then 0x0fa1_1fe7_7117_cdf0 else
    if col == 3 then 0x7579_6f2f_4122_4489 else
    if col == 4 then 0x3a29_1b04_893d_698d else
    if col == 5 then 0x40f1_6bcc_b908_e0f4 else
    if col == 6 then 0xcf99_fa94_e956_7b7f else
    if col == 7 then 0xb541_8a5c_d963_f206 else
    if col == 8 then 0x5139_12c3_7968_2177 else
    if col == 9 then 0x2be1_620b_495d_a80e else
    if col == 10 then 0xa489_f353_1903_3385 else
    if col == 11 then 0xde51_839b_2936_bafc else
    if col == 12 then 0x9101_f7b0_e129_97f8 else
    if col == 13 then 0xebd9_8778_d11c_1e81 else
    if col == 14 then 0x64b1_1620_8142_850a else
    0x1e69_66e8_b177_0c73
  }

  /** Entries 48 to 63 of crc64_tab. */
  function Row3(col: bv64): bv64 {
    if col == 0 then 0x8719_014c_99c2_b083 else
    if col == 1 then 0xfdc1_7184_a9f7_39fa else
    if col == 2 then 0x72a9_e0dc_f9a9_a271 else
    if col == 3 then 0x0871_9014_c99c_2b08 else
    if col == 4 then 0x4721_e43f_0183_060c else
    if col == 5 then 0x3df9_94f7_31b6_8f75 else
    if col == 6 then 0xb291_05af_61e8_14fe else
    if col == 7 then 0xc849_7567_51dd_9d87 else
    if col == 8 then 0x2c31_edf8_f1d6_4ef6 else
    if col == 9 then 0x56e9_9d30_c1e3_c78f else
    if col == 10 then 0xd981_0c68_91bd_5c04 else
    if col == 11 then 0xa359_7ca0_a188_d57d else
    if col == 12 then 0xec09_088b_6997_f879 else
    if col == 13 then 0x96d1_7843_59a2_7100 else
    if col == 14 then 0x19b9_e91b_09fc_ea8b else
    0x6361_99d3_39c9_63f2
  }

  /** Entries 64 to 79 of crc64_tab. */
  function Row4(col: bv64): bv64 {
    if col == 0 then 0xdf7a_dabd_7a6e_2d6f else
    if col == 1 then 0xa5a2_aa75_4a5b_a416 else
    if col == 2 then 0x2aca_3b2d_1a05_3f9d else
    if col == 3 then 0x5012_4be5_2a30_b6e4 else
    if col == 4 then 0x1f42_3fce_e22f_9be0 else
    if col == 5 then 0x659a_4f06_d21a_1299 else
    if col == 6 then 0xeaf2_de5e_8244_8912 else
    if col == 7 then 0x902a_ae96_b271_006b else
    if col == 8 then 0x7452_3609_127a_d31a else
    if col == 9 then 0x0e8a_46c1_224f_5a63 else
    if col == 10 then 0x81e2_d799_7211_c1e8 else
    if col == 11 then 0xfb3a_a751_4224_4891 else
    if col == 12 then 0xb46a_d37a_8a3b_6595 else
    if col == 13 then 0xceb2_a3b2_ba0e_ecec else
    if col == 14 then 0x41da_32ea_ea50_7767 else
    0x3b02_4222_da65_fe1e
  }

  /** Entries 80 to 95 of crc64_tab. */
  function Row5(col: bv64): bv64 {
    if col == 0 then 0xa272_2586_f2d0_42ee else
    if col == 1 then 0xd8aa_554e_c2e5_cb97 else
    if col == 2 then 0x57c2_c416_92bb_501c else
    if col == 3 then 0x2d1a_b4de_a28e_d965 else
    if col == 4 then 0x624a_c0f5_6a91_f461 else
    if col == 5 then 0x1892_b03d_5aa4_7d18 else
    if col == 6 then 0x97fa_2165_0afa_e693 else
    if col == 7 then 0xed22_51ad_3acf_6fea else
    if col == 8 then 0x095a_c932_9ac4_bc9b else
    if col == 9 then 0x7382_b9fa_aaf1_35e2 else
    if col == 10 then 0xfcea_28a2_faaf_ae69 else
    if col == 11 then 0x8632_586a_ca9a_2710 else
    if col == 12 then 0xc962_2c41_0285_0a14 else
    if col == 13 then 0xb3ba_5c89_32b0_836d else
    if col == 14 then 0x3cd2_cdd1_62ee_18e6 else
    0x460a_bd19_52db_919f
  }

  /** Entries 96 to 111 of crc64_tab. */
  function Row6(col: bv64): bv64 {
    if col == 0 then 0x256b_24ca_6b12_f26d else
    if col == 1 then 0x5fb3_5402_5b27_7b14 else
    if col == 2 then 0xd0db_c55a_0b79_e09f else
    if col == 3 then 0xaa03_b592_3b4c_69e6 else
    if col == 4 then 0xe553_c1b9_f353_44e2 else
    if col == 5 then 0x9f8b_b171_c366_cd9b else
    if col == 6 then 0x10e3_2029_9338_5610 else
    if col == 7 then 0x6a3b_50e1_a30d_df69 else
    if col == 8 then 0x8e43_c87e_0306_0c18 else
    if col == 9 then 0xf49b_b8b6_3333_8561 else
    if col == 10 then 0x7bf3_29ee_636d_1eea else
    if col == 11 then 0x012b_5926_5358_9793 else
    if col == 12 then 0x4e7b_2d0d_9b47_ba97 else
    if col == 13 then 0x34a3_5dc5_ab72_33ee else
    if col == 14 then 0xbbcb_cc9d_fb2c_a865 else
    0xc113_bc55_cb19_211c
  }

  /** Entries 112 to 127 of crc64_tab. */
  function Row7(col: bv64): bv64 {
    if col == 0 then 0x5863_dbf1_e3ac_9dec else
    if col == 1 then 0x22bb_ab39_d399_1495 else
    if col == 2 then 0xadd3_3a61_83c7_8f1e else
    if col == 3 then 0xd70b_4aa9_b3f2_0667 else
    if col == 4 then 0x985b_3e82_7bed_2b63 else
    if col == 5 then 0xe283_4e4a_4bd8_a21a else
    if col == 6 then 0x6deb_df12_1b86_3991 else
    if col == 7 then 0x1733_afda_2bb3_b0e8 else
    if col == 8 then 0xf34b_3745_8bb8_6399 else
    if col == 9 then 0x8993_478d_bb8d_eae0 else
    if col == 10 then 0x06fb_d6d5_ebd3_716b else
    if col == 11 then 0x7c23_a61d_dbe6_f812 else
    if col == 12 then 0x3373_d236_13f9_d516 else
    if col == 13 then 0x49ab_a2fe_23cc_5c6f else
    if col == 14 then 0xc6c3_33a6_7392_c7e4 else
    0xbc1b_436e_43a7_4e9d
  }

  /** Entries 128 to 143 of crc64_tab. */
  function Row8(col: bv64): bv64 {
    if col == 0 then 0x95ac_9329_ac4b_c9b5 else
    if col == 1 then 0xef74_e3e1_9c7e_40cc else
    if col == 2 then 0x601c_72b9_cc20_db47 else
    if col == 3 then 0x1ac4_0271_fc15_523e else
    if col == 4 then 0x5594_765a_340a_7f3a else
    if col == 5 then 0x2f4c_0692_043f_f643 else
    if col == 6 then 0xa024_97ca_5461_6dc8 else
    if col == 7 then 0xdafc_e702_6454_e4b1 else
    if col == 8 then 0x3e84_7f9d_c45f_37c0 else
    if col == 9 then 0x445c_0f55_f46a_beb9 else
    if col == 10 then 0xcb34_9e0d_a434_2532 else
    if col == 11 then 0xb1ec_eec5_9401_ac4b else
    if col == 12 then 0xfebc_9aee_5c1e_814f else
    if col == 13 then 0x8464_ea26_6c2b_0836 else
    if col == 14 then 0x0b0c_7b7e_3c75_93bd else
    0x71d4_0bb6_0c40_1ac4
  }

  /** Entries 144 to 159 of crc64_tab. */
  function Row9(col: bv64): bv64 {
    if col == 0 then 0xe8a4_6c12_24f5_a634 else
    if col == 1 then 0x927c_1cda_14c0_2f4d else
    if col == 2 then 0x1d14_8d82_449e_b4c6 else
    if col == 3 then 0x67cc_fd4a_74ab_3dbf else
    if col == 4 then 0x289c_8961_bcb4_10bb else
    if col == 5 then 0x5244_f9a9_8c81_99c2 else
    if col == 6 then 0xdd2c_68f1_dcdf_0249 else
    if col == 7 then 0xa7f4_1839_ecea_8b30 else
    if col == 8 then 0x438c_80a6_4ce1_5841 else
    if col == 9 then 0x3954_f06e_7cd4_d138 else
    if col == 10 then 0xb63c_6136_2c8a_4ab3 else
    if col == 11 then 0xcce4_11fe_1cbf_c3ca else
    if col == 12 then 0x83b4_65d5_d4a0_eece else
    if col == 13 then 0xf96c_151d_e495_67b7 else
    if col == 14 then 0x7604_8445_b4cb_fc3c else
    0x0cdc_f48d_84fe_7545
  }

  /** Entries 160 to 175 of crc64_tab. */
  function Row10(col: bv64): bv64 {
    if col == 0 then 0x6fbd_6d5e_bd37_16b7 else
    if col == 1 then 0x1565_1d96_8d02_9fce else
    if col == 2 then 0x9a0d_8cce_dd5c_0445 else
    if col == 3 then 0xe0d5_fc06_ed69_8d3c else
    if col == 4 then 0xaf85_882d_2576_a038 else
    if col == 5 then 0xd55d_f8e5_1543_2941 else
    if col == 6 then 0x5a35_69bd_451d_b2ca else
    if col == 7 then 0x20ed_1975_7528_3bb3 else
    if col == 8 then 0xc495_81ea_d523_e8c2 else
    if col == 9 then 0xbe4d_f122_e516_61bb else
    if col == 10 then 0x3125_607a_b548_fa30 else
    if col == 11 then 0x4bfd_10b2_857d_7349 else
    if col == 12 then 0x04ad_6499_4d62_5e4d else
    if col == 13 then 0x7e75_1451_7d57_d734 else
    if col == 14 then 0xf11d_8509_2d09_4cbf else
    0x8bc5_f5c1_1d3c_c5c6
  }

  /** Entries 176 to 191 of crc64_tab. */
  function Row11(col: bv64): bv64 {
    if col == 0 then 0x12b5_9265_3589_7936 else
    if col == 1 then 0x686d_e2ad_05bc_f04f else
    if col == 2 then 0xe705_73f5_55e2_6bc4 else
    if col == 3 then 0x9ddd_033d_65d7_e2bd else
    if col == 4 then 0xd28d_7716_adc8_cfb9 else
    if col == 5 then 0xa855_07de_9dfd_46c0 else
    if col == 6 then 0x273d_9686_cda3_dd4b else
    if col == 7 then 0x5de5_e64e_fd96_5432 else
    if col == 8 then 0xb99d_7ed1_5d9d_8743 else
    if col == 9 then 0xc345_0e19_6da8_0e3a else
    if col == 10 then 0x4c2d_9f41_3df6_95b1 else
    if col == 11 then 0x36f5_ef89_0dc3_1cc8 else
    if col == 12 then 0x79a5_9ba2_c5dc_31cc else
    if col == 13 then 0x037d_eb6a_f5e9_b8b5 else
    if col == 14 then 0x8c15_7a32_a5b7_233e else
    0xf6cd_0afa_9582_aa47
  }

  /** Entries 192 to 207 of crc64_tab. */
  function Row12(col: bv64): bv64 {
    if col == 0 then 0x4ad6_4994_d625_e4da else
    if col == 1 then 0x300e_395c_e610_6da3 else
    if col == 2 then 0xbf66_a804_b64e_f628 else
    if col == 3 then 0xc5be_d8cc_867b_7f51 else
    if col == 4 then 0x8aee_ace7_4e64_5255 else
    if col == 5 then 0xf036_dc2f_7e51_db2c else
    if col == 6 then 0x7f5e_4d77_2e0f_40a7 else
    if col == 7 then 0x0586_3dbf_1e3a_c9de else
    if col == 8 then 0xe1fe_a520_be31_1aaf else
    if col == 9 then 0x9b26_d5e8_8e04_93d6 else
    if col == 10 then 0x144e_44b0_de5a_085d else
    if col == 11 then 0x6e96_3478_ee6f_8124 else
    if col == 12 then 0x21c6_4053_2670_ac20 else
    if col == 13 then 0x5b1e_309b_1645_2559 else
    if col == 14 then 0xd476_a1c3_461b_bed2 else
    0xaeae_d10b_762e_37ab
  }

  /** Entries 208 to 223 of crc64_tab. */
  function Row13(col: bv64): bv64 {
    if col == 0 then 0x37de_b6af_5e9b_8b5b else
    if col == 1 then 0x4d06_c667_6eae_0222 else
    if col == 2 then 0xc26e_573f_3ef0_99a9 else
    if col == 3 then 0xb8b6_27f7_0ec5_10d0 else
    if col == 4 then 0xf7e6_53dc_c6da_3dd4 else
    if col == 5 then 0x8d3e_2314_f6ef_b4ad else
    if col == 6 then 0x0256_b24c_a6b1_2f26 else
    if col == 7 then 0x788e_c284_9684_a65f else
    if col == 8 then 0x9cf6_5a1b_368f_752e else
    if col == 9 then 0xe62e_2ad3_06ba_fc57 else
    if col == 10 then 0x6946_bb8b_56e4_67dc else
    if col == 11 then 0x139e_cb43_66d1_eea5 else
    if col == 12 then 0x5cce_bf68_aece_c3a1 else
    if col == 13 then 0x2616_cfa0_9efb_4ad8 else
    if col == 14 then 0xa97e_5ef8_cea5_d153 else
    0xd3a6_2e30_fe90_582a
  }

  /** Entries 224 to 239 of crc64_tab. */
  function Row14(col: bv64): bv64 {
    if col == 0 then 0xb0c7_b7e3_c759_3bd8 else
    if col == 1 then 0xca1f_c72b_f76c_b2a1 else
    if col == 2 then 0x4577_5673_a732_292a else
    if col == 3 then 0x3faf_26bb_9707_a053 else
    if col == 4 then 0x70ff_5290_5f18_8d57 else
    if col == 5 then 0x0a27_2258_6f2d_042e else
    if col == 6 then 0x854f_b300_3f73_9fa5 else
    if col == 7 then 0xff97_c3c8_0f46_16dc else
    if col == 8 then 0x1bef_5b57_af4d_c5ad else
    if col == 9 then 0x6137_2b9f_9f78_4cd4 else
    if col == 10 then 0xee5f_bac7_cf26_d75f else
    if col == 11 then 0x9487_ca0f_ff13_5e26 else
    if col == 12 then 0xdbd7_be24_370c_7322 else
    if col == 13 then 0xa10f_ceec_0739_fa5b else
    if col == 14 then 0x2e67_5fb4_5767_61d0 else
    0x54bf_2f7c_6752_e8a9
  }

  /** Entries 240 to 255 of crc64_tab. */
  function Row15(col: bv64): bv64 {
    if col == 0 then 0xcdcf_48d8_4fe7_5459 else
    if col == 1 then 0xb717_3810_7fd2_dd20 else
    if col == 2 then 0x387f_a948_2f8c_46ab else
    if col == 3 then 0x42a7_d980_1fb9_cfd2 else
    if col == 4 then 0x0df7_adab_d7a6_e2d6 else
    if col == 5 then 0x772f_dd63_e793_6baf else
    if col == 6 then 0xf847_4c3b_b7cd_f024 else
    if col == 7 then 0x829f_3cf3_87f8_795d else
    if col == 8 then 0x66e7_a46c_27f3_aa2c else
    if col == 9 then 0x1c3f_d4a4_17c6_2355 else
    if col == 10 then 0x9357_45fc_4798_b8de else
    if col == 11 then 0xe98f_3534_77ad_31a7 else
    if col == 12 then 0xa6df_411f_bfb2_1ca3 else
    if col == 13 then 0xdc07_31d7_8f87_95da else
    if col == 14 then 0x536f_a08f_dfd9_0e51 else
    0x29b7_d047_efec_8728
  }

  /** crc64_tab */
  function Tab(i: bv64): bv64 {
    var row, col := i >> 4, i & 15;
    if row == 0 then Row0(col) else
    if row == 1 then Row1(col) else
    if row == 2 then Row2(col) else
    if row == 3 then Row3(col) else
    if row == 4 then Row4(col) else
    if row == 5 then Row5(col) else
    if row == 6 then Row6(col) else
    if row == 7 then Row7(col) else
    if row == 8 then Row8(col) else
    if row == 9 then Row9(col) else
    if row == 10 then Row10(col) else
    if row == 11 then Row11(col) else
    if row == 12 then Row12(col) else
    if row == 13 then Row13(col) else
    if row == 14 then Row14(col) else
    Row15(col)
  }

  lemma {:induction false} Nibble(x: bv64)
    requires x & 15 == x
    ensures x == 0 || x == 1 || x == 2 || x == 3 || x == 4 || x == 5 || x == 6 || x == 7
            || x == 8 || x == 9 || x == 10 || x == 11 || x == 12 || x == 13 || x == 14 || x == 15
  {
  }

  // ----- the entries for single bits -----

  lemma {:induction false} Halves()
    ensures Shift(2) == 1 && Shift(4) == 2 && Shift(8) == 4 && Shift(16) == 8
    ensures Shift(32) == 16 && Shift(64) == 32 && Shift(128) == 64
  {
  }

  /** The polynomial shifted on and on. */
  lemma {:induction false} PolyShifted()
    ensures Shift(1) == POLY
    ensures Shift(0x95ac_9329_ac4b_c9b5) == 0xdf7a_dabd_7a6e_2d6f
    ensures Shift(0xdf7a_dabd_7a6e_2d6f) == 0xfa11_fe77_117c_df02
    ensures Shift(0xfa11_fe77_117c_df02) == 0x7d08_ff3b_88be_6f81
    ensures Shift(0x7d08_ff3b_88be_6f81) == 0xab28_ecb4_6814_fe75
    ensures Shift(0xab28_ecb4_6814_fe75) == 0xc038_e573_9841_b68f
    ensures Shift(0xc038_e573_9841_b68f) == 0xf5b0_e190_606b_12f2
    ensures Shift(0xf5b0_e190_606b_12f2) == 0x7ad8_70c8_3035_8979
  {
  }

  lemma {:induction false} Bits()
    ensures Shift8(1) == 0x7ad8_70c8_3035_8979
    ensures Shift8(2) == 0xf5b0_e190_606b_12f2
    ensures Shift8(4) == 0xc038_e573_9841_b68f
    ensures Shift8(8) == 0xab28_ecb4_6814_fe75
    ensures Shift8(16) == 0x7d08_ff3b_88be_6f81
    ensures Shift8(32) == 0xfa11_fe77_117c_df02
    ensures Shift8(64) == 0xdf7a_dabd_7a6e_2d6f
    ensures Shift8(128) == 0x95ac_9329_ac4b_c9b5
    ensures Shift8(0) == 0
  {
    Halves();
    PolyShifted();
    assert Shift(0) == 0;
    hide Shift;
  }

  // ----- all entries, as sums of those -----

  /** Entries a, b and a ^ b. */
  lemma {:induction false} Sum(a: bv64, b: bv64, c: bv64, x: bv64, y: bv64, z: bv64)
    requires Shift8(a) == x && Shift8(b) == y && c == a ^ b && z == x ^ y
    ensures Shift8(c) == z
  {
    hide Shift8;
    Shift8Xor(a, b);
  }

  /** The first row. */
  lemma {:induction false} FirstRow()
    ensures Shift8(0) == 0x0000_0000_0000_0000
    ensures Shift8(1) == 0x7ad8_70c8_3035_8979
    ensures Shift8(2) == 0xf5b0_e190_606b_12f2
    ensures Shift8(3) == 0x8f68_9158_505e_9b8b
    ensures Shift8(4) == 0xc038_e573_9841_b68f
    ensures Shift8(5) == 0xbae0_95bb_a874_3ff6
    ensures Shift8(6) == 0x3588_04e3_f82a_a47d
    ensures Shift8(7) == 0x4f50_742b_c81f_2d04
    ensures Shift8(8) == 0xab28_ecb4_6814_fe75
    ensures Shift8(9) == 0xd1f0_9c7c_5821_770c
    ensures Shift8(10) == 0x5e98_0d24_087f_ec87
    ensures Shift8(11) == 0x2440_7dec_384a_65fe
    ensures Shift8(12) == 0x6b10_09c7_f055_48fa
    ensures Shift8(13) == 0x11c8_790f_c060_c183
    ensures Shift8(14) == 0x9ea0_e857_903e_5a08
    ensures Shift8(15) == 0xe478_989f_a00b_d371
  {
    Bits();
    hide Shift8;
    Sum(2, 1, 3, 0xf5b0_e190_606b_12f2, 0x7ad8_70c8_3035_8979, 0x8f68_9158_505e_9b8b);
    Sum(4, 1, 5, 0xc038_e573_9841_b68f, 0x7ad8_70c8_3035_8979, 0xbae0_95bb_a874_3ff6);
    Sum(4, 2, 6, 0xc038_e573_9841_b68f, 0xf5b0_e190_606b_12f2, 0x3588_04e3_f82a_a47d);
    Sum(4, 3, 7, 0xc038_e573_9841_b68f, 0x8f68_9158_505e_9b8b, 0x4f50_742b_c81f_2d04);
    Sum(8, 1, 9, 0xab28_ecb4_6814_fe75, 0x7ad8_70c8_3035_8979, 0xd1f0_9c7c_5821_770c);
    Sum(8, 2, 10, 0xab28_ecb4_6814_fe75, 0xf5b0_e190_606b_12f2, 0x5e98_0d24_087f_ec87);
    Sum(8, 3, 11, 0xab28_ecb4_6814_fe75, 0x8f68_9158_505e_9b8b, 0x2440_7dec_384a_65fe);
    Sum(8, 4, 12, 0xab28_ecb4_6814_fe75, 0xc038_e573_9841_b68f, 0x6b10_09c7_f055_48fa);
    Sum(8, 5, 13, 0xab28_ecb4_6814_fe75, 0xbae0_95bb_a874_3ff6, 0x11c8_790f_c060_c183);
    Sum(8, 6, 14, 0xab28_ecb4_6814_fe75, 0x3588_04e3_f82a_a47d, 0x9ea0_e857_903e_5a08);
    Sum(8, 7, 15, 0xab28_ecb4_6814_fe75, 0x4f50_742b_c81f_2d04, 0xe478_989f_a00b_d371);
  }

  /** The first column. */
  lemma {:induction false} FirstCol()
    ensures Shift8(0) == 0x0000_0000_0000_0000
    ensures Shift8(16) == 0x7d08_ff3b_88be_6f81
    ensures Shift8(32) == 0xfa11_fe77_117c_df02
    ensures Shift8(48) == 0x8719_014c_99c2_b083
    ensures Shift8(64) == 0xdf7a_dabd_7a6e_2d6f
    ensures Shift8(80) == 0xa272_2586_f2d0_42ee
    ensures Shift8(96) == 0x256b_24ca_6b12_f26d
    ensures Shift8(112) == 0x5863_dbf1_e3ac_9dec
    ensures Shift8(128) == 0x95ac_9329_ac4b_c9b5
    ensures Shift8(144) == 0xe8a4_6c12_24f5_a634
    ensures Shift8(160) == 0x6fbd_6d5e_bd37_16b7
    ensures Shift8(176) == 0x12b5_9265_3589_7936
    ensures Shift8(192) == 0x4ad6_4994_d625_e4da
    ensures Shift8(208) == 0x37de_b6af_5e9b_8b5b
    ensures Shift8(224) == 0xb0c7_b7e3_c759_3bd8
    ensures Shift8(240) == 0xcdcf_48d8_4fe7_5459
  {
    Bits();
    hide Shift8;
    Sum(32, 16, 48, 0xfa11_fe77_117c_df02, 0x7d08_ff3b_88be_6f81, 0x8719_014c_99c2_b083);
    Sum(64, 16, 80, 0xdf7a_dabd_7a6e_2d6f, 0x7d08_ff3b_88be_6f81, 0xa272_2586_f2d0_42ee);
    Sum(64, 32, 96, 0xdf7a_dabd_7a6e_2d6f, 0xfa11_fe77_117c_df02, 0x256b_24ca_6b12_f26d);
    Sum(64, 48, 112, 0xdf7a_dabd_7a6e_2d6f, 0x8719_014c_99c2_b083, 0x5863_dbf1_e3ac_9dec);
    Sum(128, 16, 144, 0x95ac_9329_ac4b_c9b5, 0x7d08_ff3b_88be_6f81, 0xe8a4_6c12_24f5_a634);
    Sum(128, 32, 160, 0x95ac_9329_ac4b_c9b5, 0xfa11_fe77_117c_df02, 0x6fbd_6d5e_bd37_16b7);
    Sum(128, 48, 176, 0x95ac_9329_ac4b_c9b5, 0x8719_014c_99c2_b083, 0x12b5_9265_3589_7936);
    Sum(128, 64, 192, 0x95ac_9329_ac4b_c9b5, 0xdf7a_dabd_7a6e_2d6f, 0x4ad6_4994_d625_e4da);
    Sum(128, 80, 208, 0x95ac_9329_ac4b_c9b5, 0xa272_2586_f2d0_42ee, 0x37de_b6af_5e9b_8b5b);
    Sum(128, 96, 224, 0x95ac_9329_ac4b_c9b5, 0x256b_24ca_6b12_f26d, 0xb0c7_b7e3_c759_3bd8);
    Sum(128, 112, 240, 0x95ac_9329_ac4b_c9b5, 0x5863_dbf1_e3ac_9dec, 0xcdcf_48d8_4fe7_5459);
  }

  lemma {:induction false} Row0Is(col: bv64)
    requires col & 15 == col
    ensures Row0(col) == Shift8(0 ^ col)
  {
    hide Shift8;
    FirstRow();
    FirstCol();
    Nibble(col);
    Sum(0, col, 0 ^ col, 0x0000_0000_0000_0000, Row0(col), Row0(col));
  }

  lemma {:induction false} Row1Is(col: bv64)
    requires col & 15 == col
    ensures Row1(col) == Shift8(16 ^ col)
  {
    hide Shift8;
    FirstRow();
    FirstCol();
    Nibble(col);
    Sum(16, col, 16 ^ col, 0x7d08_ff3b_88be_6f81, Row0(col), Row1(col));
  }

  lemma {:induction false} Row2Is(col: bv64)
    requires col & 15 == col
    ensures Row2(col) == Shift8(32 ^ col)
  {
    hide Shift8;
    FirstRow();
    FirstCol();
    Nibble(col);
    Sum(32, col, 32 ^ col, 0xfa11_fe77_117c_df02, Row0(col), Row2(col));
  }

  lemma {:induction false} Row3Is(col: bv64)
    requires col & 15 == col
    ensures Row3(col) == Shift8(48 ^ col)
  {
    hide Shift8;
    FirstRow();
    FirstCol();
    Nibble(col);
    Sum(48, col, 48 ^ col, 0x8719_014c_99c2_b083, Row0(col), Row3(col));
  }

  lemma {:induction false} Row4Is(col: bv64)
    requires col & 15 == col
    ensures Row4(col) == Shift8(64 ^ col)
  {
    hide Shift8;
    FirstRow();
    FirstCol();
    Nibble(col);
    Sum(64, col, 64 ^ col, 0xdf7a_dabd_7a6e_2d6f, Row0(col), Row4(col));
  }

  lemma {:induction false} Row5Is(col: bv64)
    requires col & 15 == col
    ensures Row5(col) == Shift8(80 ^ col)
  {
    hide Shift8;
    FirstRow();
    FirstCol();
    Nibble(col);
    Sum(80, col, 80 ^ col, 0xa272_2586_f2d0_42ee, Row0(col), Row5(col));
  }

  lemma {:induction false} Row6Is(col: bv64)
    requires col & 15 == col
    ensures Row6(col) == Shift8(96 ^ col)
  {
    hide Shift8;
    FirstRow();
    FirstCol();
    Nibble(col);
    Sum(96, col, 96 ^ col, 0x256b_24ca_6b12_f26d, Row0(col), Row6(col));
  }

  lemma {:induction false} Row7Is(col: bv64)
    requires col & 15 == col
    ensures Row7(col) == Shift8(112 ^ col)
  {
    hide Shift8;
    FirstRow();
    FirstCol();
    Nibble(col);
    Sum(112, col, 112 ^ col, 0x5863_dbf1_e3ac_9dec, Row0(col), Row7(col));
  }

  lemma {:induction false} Row8Is(col: bv64)
    requires col & 15 == col
    ensures Row8(col) == Shift8(128 ^ col)
  {
    hide Shift8;
    FirstRow();
    FirstCol();
    Nibble(col);
    Sum(128, col, 128 ^ col, 0x95ac_9329_ac4b_c9b5, Row0(col), Row8(col));
  }

  lemma {:induction false} Row9Is(col: bv64)
    requires col & 15 == col
    ensures Row9(col) == Shift8(144 ^ col)
  {
    hide Shift8;
    FirstRow();
    FirstCol();
    Nibble(col);
    Sum(144, col, 144 ^ col, 0xe8a4_6c12_24f5_a634, Row0(col), Row9(col));
  }

  lemma {:induction false} Row10Is(col: bv64)
    requires col & 15 == col
    ensures Row10(col) == Shift8(160 ^ col)
  {
    hide Shift8;
    FirstRow();
    FirstCol();
    Nibble(col);
    Sum(160, col, 160 ^ col, 0x6fbd_6d5e_bd37_16b7, Row0(col), Row10(col));
  }

  lemma {:induction false} Row11Is(col: bv64)
    requires col & 15 == col
    ensures Row11(col) == Shift8(176 ^ col)
  {
    hide Shift8;
    FirstRow();
    FirstCol();
    Nibble(col);
    Sum(176, col, 176 ^ col, 0x12b5_9265_3589_7936, Row0(col), Row11(col));
  }

  lemma {:induction false} Row12Is(col: bv64)
    requires col & 15 == col
    ensures Row12(col) == Shift8(192 ^ col)
  {
    hide Shift8;
    FirstRow();
    FirstCol();
    Nibble(col);
    Sum(192, col, 192 ^ col, 0x4ad6_4994_d625_e4da, Row0(col), Row12(col));
  }

  lemma {:induction false} Row13Is(col: bv64)
    requires col & 15 == col
    ensures Row13(col) == Shift8(208 ^ col)
  {
    hide Shift8;
    FirstRow();
    FirstCol();
    Nibble(col);
    Sum(208, col, 208 ^ col, 0x37de_b6af_5e9b_8b5b, Row0(col), Row13(col));
  }

  lemma {:induction false} Row14Is(col: bv64)
    requires col & 15 == col
    ensures Row14(col) == Shift8(224 ^ col)
  {
    hide Shift8;
    FirstRow();
    FirstCol();
    Nibble(col);
    Sum(224, col, 224 ^ col, 0xb0c7_b7e3_c759_3bd8, Row0(col), Row14(col));
  }

  lemma {:induction false} Row15Is(col: bv64)
    requires col & 15 == col
    ensures Row15(col) == Shift8(240 ^ col)
  {
    hide Shift8;
    FirstRow();
    FirstCol();
    Nibble(col);
    Sum(240, col, 240 ^ col, 0xcdcf_48d8_4fe7_5459, Row0(col), Row15(col));
  }

  lemma {:induction false} Split(i: bv64)
    requires i & 255 == i
    ensures (i >> 4) & 15 == i >> 4 && (i & 15) & 15 == i & 15 && i == ((i >> 4) << 4) ^ (i & 15)
  {
  }

  /** The table has, for every byte, the byte shifted eight times. */
  lemma {:induction false} TabIs(i: bv64)
    requires i & 255 == i
    ensures Tab(i) == Shift8(i)
  {
    hide Shift8, Row0, Row1, Row2, Row3, Row4, Row5, Row6, Row7, Row8, Row9, Row10, Row11, Row12, Row13, Row14, Row15;
    Split(i);
    var row, col := i >> 4, i & 15;
    Nibble(row);
    Row0Is(col);
    Row1Is(col);
    Row2Is(col);
    Row3Is(col);
    Row4Is(col);
    Row5Is(col);
    Row6Is(col);
    Row7Is(col);
    Row8Is(col);
    Row9Is(col);
    Row10Is(col);
    Row11Is(col);
    Row12Is(col);
    Row13Is(col);
    Row14Is(col);
    Row15Is(col);
  }
}
