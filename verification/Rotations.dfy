/** Every rotation of a 64-bit word can be undone: distance by distance, then for all. */
module Rotations {
  import opened Words64

  lemma Rot1(x: bv64) ensures Rot64(Rot64(x, 1), 63) == x {}
  lemma Rot2(x: bv64) ensures Rot64(Rot64(x, 2), 62) == x {}
  lemma Rot3(x: bv64) ensures Rot64(Rot64(x, 3), 61) == x {}
  lemma Rot4(x: bv64) ensures Rot64(Rot64(x, 4), 60) == x {}
  lemma Rot5(x: bv64) ensures Rot64(Rot64(x, 5), 59) == x {}
  lemma Rot6(x: bv64) ensures Rot64(Rot64(x, 6), 58) == x {}
  lemma Rot7(x: bv64) ensures Rot64(Rot64(x, 7), 57) == x {}
  lemma Rot8(x: bv64) ensures Rot64(Rot64(x, 8), 56) == x {}
  lemma Rot9(x: bv64) ensures Rot64(Rot64(x, 9), 55) == x {}
  lemma Rot10(x: bv64) ensures Rot64(Rot64(x, 10), 54) == x {}
  lemma Rot11(x: bv64) ensures Rot64(Rot64(x, 11), 53) == x {}
  lemma Rot12(x: bv64) ensures Rot64(Rot64(x, 12), 52) == x {}
  lemma Rot13(x: bv64) ensures Rot64(Rot64(x, 13), 51) == x {}
  lemma Rot14(x: bv64) ensures Rot64(Rot64(x, 14), 50) == x {}
  lemma Rot15(x: bv64) ensures Rot64(Rot64(x, 15), 49) == x {}
  lemma Rot16(x: bv64) ensures Rot64(Rot64(x, 16), 48) == x {}
  lemma Rot17(x: bv64) ensures Rot64(Rot64(x, 17), 47) == x {}
  lemma Rot18(x: bv64) ensures Rot64(Rot64(x, 18), 46) == x {}
  lemma Rot19(x: bv64) ensures Rot64(Rot64(x, 19), 45) == x {}
  lemma Rot20(x: bv64) ensures Rot64(Rot64(x, 20), 44) == x {}
  lemma Rot21(x: bv64) ensures Rot64(Rot64(x, 21), 43) == x {}
  lemma Rot22(x: bv64) ensures Rot64(Rot64(x, 22), 42) == x {}
  lemma Rot23(x: bv64) ensures Rot64(Rot64(x, 23), 41) == x {}
  lemma Rot24(x: bv64) ensures Rot64(Rot64(x, 24), 40) == x {}
  lemma Rot25(x: bv64) ensures Rot64(Rot64(x, 25), 39) == x {}
  lemma Rot26(x: bv64) ensures Rot64(Rot64(x, 26), 38) == x {}
  lemma Rot27(x: bv64) ensures Rot64(Rot64(x, 27), 37) == x {}
  lemma Rot28(x: bv64) ensures Rot64(Rot64(x, 28), 36) == x {}
  lemma Rot29(x: bv64) ensures Rot64(Rot64(x, 29), 35) == x {}
  lemma Rot30(x: bv64) ensures Rot64(Rot64(x, 30), 34) == x {}
  lemma Rot31(x: bv64) ensures Rot64(Rot64(x, 31), 33) == x {}
  lemma Rot32(x: bv64) ensures Rot64(Rot64(x, 32), 32) == x {}
  lemma Rot33(x: bv64) ensures Rot64(Rot64(x, 33), 31) == x {}
  lemma Rot34(x: bv64) ensures Rot64(Rot64(x, 34), 30) == x {}
  lemma Rot35(x: bv64) ensures Rot64(Rot64(x, 35), 29) == x {}
  lemma Rot36(x: bv64) ensures Rot64(Rot64(x, 36), 28) == x {}
  lemma Rot37(x: bv64) ensures Rot64(Rot64(x, 37), 27) == x {}
  lemma Rot38(x: bv64) ensures Rot64(Rot64(x, 38), 26) == x {}
  lemma Rot39(x: bv64) ensures Rot64(Rot64(x, 39), 25) == x {}
  lemma Rot40(x: bv64) ensures Rot64(Rot64(x, 40), 24) == x {}
  lemma Rot41(x: bv64) ensures Rot64(Rot64(x, 41), 23) == x {}
  lemma Rot42(x: bv64) ensures Rot64(Rot64(x, 42), 22) == x {}
  lemma Rot43(x: bv64) ensures Rot64(Rot64(x, 43), 21) == x {}
  lemma Rot44(x: bv64) ensures Rot64(Rot64(x, 44), 20) == x {}
  lemma Rot45(x: bv64) ensures Rot64(Rot64(x, 45), 19) == x {}
  lemma Rot46(x: bv64) ensures Rot64(Rot64(x, 46), 18) == x {}
  lemma Rot47(x: bv64) ensures Rot64(Rot64(x, 47), 17) == x {}
  lemma Rot48(x: bv64) ensures Rot64(Rot64(x, 48), 16) == x {}
  lemma Rot49(x: bv64) ensures Rot64(Rot64(x, 49), 15) == x {}
  lemma Rot50(x: bv64) ensures Rot64(Rot64(x, 50), 14) == x {}
  lemma Rot51(x: bv64) ensures Rot64(Rot64(x, 51), 13) == x {}
  lemma Rot52(x: bv64) ensures Rot64(Rot64(x, 52), 12) == x {}
  lemma Rot53(x: bv64) ensures Rot64(Rot64(x, 53), 11) == x {}
  lemma Rot54(x: bv64) ensures Rot64(Rot64(x, 54), 10) == x {}
  lemma Rot55(x: bv64) ensures Rot64(Rot64(x, 55), 9) == x {}
  lemma Rot56(x: bv64) ensures Rot64(Rot64(x, 56), 8) == x {}
  lemma Rot57(x: bv64) ensures Rot64(Rot64(x, 57), 7) == x {}
  lemma Rot58(x: bv64) ensures Rot64(Rot64(x, 58), 6) == x {}
  lemma Rot59(x: bv64) ensures Rot64(Rot64(x, 59), 5) == x {}
  lemma Rot60(x: bv64) ensures Rot64(Rot64(x, 60), 4) == x {}
  lemma Rot61(x: bv64) ensures Rot64(Rot64(x, 61), 3) == x {}
  lemma Rot62(x: bv64) ensures Rot64(Rot64(x, 62), 2) == x {}
  lemma Rot63(x: bv64) ensures Rot64(Rot64(x, 63), 1) == x {}

  lemma RotBack(x: bv64, k: Distance)
    ensures Rot64(Rot64(x, k), 64 - k) == x
  {
    hide Rot64;
    if k < 32 { RotBackLow(x, k); } else { RotBackHigh(x, k); }
  }

  lemma RotBackLow(x: bv64, k: Distance)
    requires k < 32
    ensures Rot64(Rot64(x, k), 64 - k) == x
  {
    hide Rot64;
    if k == 1 { Rot1(x); }
    else if k == 2 { Rot2(x); }
    else if k == 3 { Rot3(x); }
    else if k == 4 { Rot4(x); }
    else if k == 5 { Rot5(x); }
    else if k == 6 { Rot6(x); }
    else if k == 7 { Rot7(x); }
    else if k == 8 { Rot8(x); }
    else if k == 9 { Rot9(x); }
    else if k == 10 { Rot10(x); }
    else if k == 11 { Rot11(x); }
    else if k == 12 { Rot12(x); }
    else if k == 13 { Rot13(x); }
    else if k == 14 { Rot14(x); }
    else if k == 15 { Rot15(x); }
    else if k == 16 { Rot16(x); }
    else if k == 17 { Rot17(x); }
    else if k == 18 { Rot18(x); }
    else if k == 19 { Rot19(x); }
    else if k == 20 { Rot20(x); }
    else if k == 21 { Rot21(x); }
    else if k == 22 { Rot22(x); }
    else if k == 23 { Rot23(x); }
    else if k == 24 { Rot24(x); }
    else if k == 25 { Rot25(x); }
    else if k == 26 { Rot26(x); }
    else if k == 27 { Rot27(x); }
    else if k == 28 { Rot28(x); }
    else if k == 29 { Rot29(x); }
    else if k == 30 { Rot30(x); }
    else { Rot31(x); }
  }

  lemma RotBackHigh(x: bv64, k: Distance)
    requires k >= 32
    ensures Rot64(Rot64(x, k), 64 - k) == x
  {
    hide Rot64;
    if k == 32 { Rot32(x); }
    else if k == 33 { Rot33(x); }
    else if k == 34 { Rot34(x); }
    else if k == 35 { Rot35(x); }
    else if k == 36 { Rot36(x); }
    else if k == 37 { Rot37(x); }
    else if k == 38 { Rot38(x); }
    else if k == 39 { Rot39(x); }
    else if k == 40 { Rot40(x); }
    else if k == 41 { Rot41(x); }
    else if k == 42 { Rot42(x); }
    else if k == 43 { Rot43(x); }
    else if k == 44 { Rot44(x); }
    else if k == 45 { Rot45(x); }
    else if k == 46 { Rot46(x); }
    else if k == 47 { Rot47(x); }
    else if k == 48 { Rot48(x); }
    else if k == 49 { Rot49(x); }
    else if k == 50 { Rot50(x); }
    else if k == 51 { Rot51(x); }
    else if k == 52 { Rot52(x); }
    else if k == 53 { Rot53(x); }
    else if k == 54 { Rot54(x); }
    else if k == 55 { Rot55(x); }
    else if k == 56 { Rot56(x); }
    else if k == 57 { Rot57(x); }
    else if k == 58 { Rot58(x); }
    else if k == 59 { Rot59(x); }
    else if k == 60 { Rot60(x); }
    else if k == 61 { Rot61(x); }
    else if k == 62 { Rot62(x); }
    else { Rot63(x); }
  }

  lemma RotInjective(x: bv64, y: bv64, k: Distance)
    requires Rot64(x, k) == Rot64(y, k)
    ensures x == y
  {
    hide Rot64;
    RotBack(x, k);
    RotBack(y, k);
  }
}
