/** The map of the maze program (`MAZE` in `tasks/maze/maze.cpp`), one 64-bit mask per row. */
module MazeMap {
  /**
   * Row `y` of `MAZE` as a 64-bit mask: reading the hex digits from the
   * left follows the row, and a set bit is a '#'.
   */
  function RowMask(y: int): bv64 {
    if y == 0 then 0xFFFF_FFFF_FFFF_FFFF
    else if y == 1 then 0xC040_0404_4040_0041
    else if y == 2 then 0xDFDF_F5D5_57DD_FF75
    else if y == 3 then 0xD010_0515_1045_1115
    else if y == 4 then 0xD7F7_FF75_FF75_5DDD
    else if y == 5 then 0xD111_0045_1104_4405
    else if y == 6 then 0xDD5D_77DD_55FF_F7F5
    else if y == 7 then 0xC141_4405_4400_5051
    else if y == 8 then 0xDF7F_5FFD_7DFF_5F5D
    else if y == 9 then 0xC510_4000_4145_1051
    else if y == 10 then 0xF5DF_DF7F_FD55_D7D7
    else if y == 11 then 0xD440_5140_4514_5411
    else if y == 12 then 0xD77F_55DF_57F5_557D
    else if y == 13 then 0xD140_5451_1015_5511
    else if y == 14 then 0xDD57_F757_FFD5_5757
    else if y == 15 then 0xC454_1110_0115_1151
    else if y == 16 then 0xF75D_DDF7_FD75_FD5D
    else if y == 17 then 0xC141_4544_4145_1151
    else if y == 18 then 0xDF7F_755F_5D5D_5757
    else if y == 19 then 0xD050_1141_5151_5545
    else if y == 20 then 0xD7D7_DF7D_5F57_757D
    else if y == 21 then 0xD404_4040_4110_4511
    else if y == 22 then 0xD5FF_7DDF_FDFF_5DD5
    else if y == 23 then 0xD511_1401_0444_5055
    else if y == 24 then 0xD555_57FF_7557_DDD7
    else if y == 25 then 0xC444_4040_5151_1111
    else if y == 26 then 0xDFFF_F7DF_DF5D_777D
    else if y == 27 then 0xD000_4411_0454_4041
    else if y == 28 then 0xD7DD_DDFD_75D7_DFD7
    else if y == 29 then 0xD444_0441_4510_4451
    else if y == 30 then 0xDD77_FF5D_5D77_75DD
    else if y == 31 then 0xD111_0051_4511_0411
    else if y == 32 then 0xD7DF_7FDF_755F_F775
    else if y == 33 then 0xC441_0111_4550_1145
    else if y == 34 then 0xFDFD_F5D5_55D7_DDDD
    else if y == 35 then 0xC005_1444_5455_1011
    else if y == 36 then 0xDFDD_5F5F_D755_7F7F
    else if y == 37 then 0xC051_4150_1545_0141
    else if y == 38 then 0xFF57_7D57_F55D_FDDD
    else if y == 39 then 0xD044_0454_1140_0411
    else if y == 40 then 0xD7FF_F7D5_DD7F_7DF7
    else if y == 41 then 0xD100_0450_4504_4511
    else if y == 42 then 0xDD7D_7D7F_D5F7_D55D
    else if y == 43 then 0xC105_4110_5514_1551
    else if y == 44 then 0xDFF5_DFD7_7755_F757
    else if y == 45 then 0xD055_1011_1054_5151
    else if y == 46 then 0xD755_777D_DDD7_5D55
    else if y == 47 then 0xC444_1440_4511_4455
    else if y == 48 then 0xFDF7_F5DF_F75D_57DD
    else if y == 49 then 0xC514_0511_0445_5051
    else if y == 50 then 0xDD5D_7F75_7DF5_57D5
    else if y == 51 then 0xC541_4044_5044_5015
    else if y == 52 then 0xD57F_DFDF_D77F_DFF5
    else if y == 53 then 0xD544_5450_1100_5005
    else if y == 54 then 0xD555_5557_5DFF_57DD
    else if y == 55 then 0xD111_4511_5501_5451
    else if y == 56 then 0xDFF7_75FF_55F5_5557
    else if y == 57 then 0xC411_4440_4415_1155
    else if y == 58 then 0xF5DF_5F5D_FFDD_FFD5
    else if y == 59 then 0xD141_1045_0110_4115
    else if y == 60 then 0xDF7D_F7D7_7D77_7575
    else if y == 61 then 0xC000_0410_0404_0441
    else if y == 62 then 0xFFFF_FFFF_FFFF_FFFF
    else 0xFFFF_FFFF_FFFF_FFFF
  }

  /** Column `x` of row `y` is a '#'. */
  predicate WallAt(x: int, y: int)
    requires 0 <= x < 64
  {
    (RowMask(y) >> (63 - x)) & 1 == 1
  }

  /** The first and last columns are walls. */
  lemma SideWalls()
    ensures forall y :: 0 <= y < 64 ==> WallAt(0, y) && WallAt(63, y)
  {
  }

  /** The first and last rows are walls. */
  lemma TopAndBottomWalls()
    ensures forall x :: 0 <= x < 64 ==> WallAt(x, 0) && WallAt(x, 63)
  {
  }
}
