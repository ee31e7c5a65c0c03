/** Randomised blocks (randtable.c and the BZ_RAND macros of bzlib_private.h):
    which bytes of a block have their lowest bit flipped. */
module Randomise {
  import opened Arith
  import opened Rotations

  // ---------- BZ2_rNums ----------

  function Rows0(r: nat): (s: seq<nat>)
    ensures |s| == 16 && forall k :: 0 <= k < 16 ==> 50 <= s[k] <= 999
  {
    match r
    case 0 => [619, 720, 127, 481, 931, 816, 813, 233, 566, 247, 985, 724, 205, 454, 863, 491]
    case 1 => [741, 242, 949, 214, 733, 859, 335, 708, 621, 574, 73, 654, 730, 472, 419, 436]
    case 2 => [278, 496, 867, 210, 399, 680, 480, 51, 878, 465, 811, 169, 869, 675, 611, 697]
    case _ => [867, 561, 862, 687, 507, 283, 482, 129, 807, 591, 733, 623, 150, 238, 59, 379]
  }

  function Rows1(r: nat): (s: seq<nat>)
    ensures |s| == 16 && forall k :: 0 <= k < 16 ==> 50 <= s[k] <= 999
  {
    match r
    case 0 => [684, 877, 625, 169, 643, 105, 170, 607, 520, 932, 727, 476, 693, 425, 174, 647]
    case 1 => [73, 122, 335, 530, 442, 853, 695, 249, 445, 515, 909, 545, 703, 919, 874, 474]
    case 2 => [882, 500, 594, 612, 641, 801, 220, 162, 819, 984, 589, 513, 495, 799, 161, 604]
    case _ => [958, 533, 221, 400, 386, 867, 600, 782, 382, 596, 414, 171, 516, 375, 682, 485]
  }

  function Rows2(r: nat): (s: seq<nat>)
    ensures |s| == 16 && forall k :: 0 <= k < 16 ==> 50 <= s[k] <= 999
  {
    match r
    case 0 => [911, 276, 98, 553, 163, 354, 666, 933, 424, 341, 533, 870, 227, 730, 475, 186]
    case 1 => [263, 647, 537, 686, 600, 224, 469, 68, 770, 919, 190, 373, 294, 822, 808, 206]
    case 2 => [184, 943, 795, 384, 383, 461, 404, 758, 839, 887, 715, 67, 618, 276, 204, 918]
    case _ => [873, 777, 604, 560, 951, 160, 578, 722, 79, 804, 96, 409, 713, 940, 652, 934]
  }

  function Rows3(r: nat): (s: seq<nat>)
    ensures |s| == 16 && forall k :: 0 <= k < 16 ==> 50 <= s[k] <= 999
  {
    match r
    case 0 => [970, 447, 318, 353, 859, 672, 112, 785, 645, 863, 803, 350, 139, 93, 354, 99]
    case 1 => [820, 908, 609, 772, 154, 274, 580, 184, 79, 626, 630, 742, 653, 282, 762, 623]
    case 2 => [680, 81, 927, 626, 789, 125, 411, 521, 938, 300, 821, 78, 343, 175, 128, 250]
    case _ => [170, 774, 972, 275, 999, 639, 495, 78, 352, 126, 857, 956, 358, 619, 580, 124]
  }

  function Rows4(r: nat): (s: seq<nat>)
    ensures |s| == 16 && forall k :: 0 <= k < 16 ==> 50 <= s[k] <= 999
  {
    match r
    case 0 => [737, 594, 701, 612, 669, 112, 134, 694, 363, 992, 809, 743, 168, 974, 944, 375]
    case 1 => [748, 52, 600, 747, 642, 182, 862, 81, 344, 805, 988, 739, 511, 655, 814, 334]
    case 2 => [249, 515, 897, 955, 664, 981, 649, 113, 974, 459, 893, 228, 433, 837, 553, 268]
    case _ => [926, 240, 102, 654, 459, 51, 686, 754, 806, 760, 493, 403, 415, 394, 687, 700]
  }

  function Rows5(r: nat): (s: seq<nat>)
    ensures |s| == 16 && forall k :: 0 <= k < 16 ==> 50 <= s[k] <= 999
  {
    match r
    case 0 => [946, 670, 656, 610, 738, 392, 760, 799, 887, 653, 978, 321, 576, 617, 626, 502]
    case 1 => [894, 679, 243, 440, 680, 879, 194, 572, 640, 724, 926, 56, 204, 700, 707, 151]
    case 2 => [457, 449, 797, 195, 791, 558, 945, 679, 297, 59, 87, 824, 713, 663, 412, 693]
    case _ => [342, 606, 134, 108, 571, 364, 631, 212, 174, 643, 304, 329, 343, 97, 430, 751]
  }

  function Rows6(r: nat): (s: seq<nat>)
    ensures |s| == 16 && forall k :: 0 <= k < 16 ==> 50 <= s[k] <= 999
  {
    match r
    case 0 => [497, 314, 983, 374, 822, 928, 140, 206, 73, 263, 980, 736, 876, 478, 430, 305]
    case 1 => [170, 514, 364, 692, 829, 82, 855, 953, 676, 246, 369, 970, 294, 750, 807, 827]
    case 2 => [150, 790, 288, 923, 804, 378, 215, 828, 592, 281, 565, 555, 710, 82, 896, 831]
    case _ => [547, 261, 524, 462, 293, 465, 502, 56, 661, 821, 976, 991, 658, 869, 905, 758]
  }

  function Rows7(r: nat): (s: seq<nat>)
    ensures |s| == 16 && forall k :: 0 <= k < 16 ==> 50 <= s[k] <= 999
  {
    match r
    case 0 => [745, 193, 768, 550, 608, 933, 378, 286, 215, 979, 792, 961, 61, 688, 793, 644]
    case 1 => [986, 403, 106, 366, 905, 644, 372, 567, 466, 434, 645, 210, 389, 550, 919, 135]
    case 2 => [780, 773, 635, 389, 707, 100, 626, 958, 165, 504, 920, 176, 193, 713, 857, 265]
    case _ => [203, 50, 668, 108, 645, 990, 626, 197, 510, 357, 358, 850, 858, 364, 936, 638]
  }

  /** BZ2_rNums[i]. */
  function RNum(i: nat): (n: nat)
    requires i < 512
    ensures 50 <= n <= 999
  {
    var r := i / 16 % 4;
    match i / 64
    case 0 => Rows0(r)[i % 16]
    case 1 => Rows1(r)[i % 16]
    case 2 => Rows2(r)[i % 16]
    case 3 => Rows3(r)[i % 16]
    case 4 => Rows4(r)[i % 16]
    case 5 => Rows5(r)[i % 16]
    case 6 => Rows6(r)[i % 16]
    case _ => Rows7(r)[i % 16]
  }

  // ---------- The mask ----------

  /** rNToGo and rTPos. */
  datatype Mask = Mask(toGo: nat, tPos: nat)

  /** BZ_RAND_UPD_MASK. */
  function Updated(m: Mask): (r: Mask)
    requires m.tPos < 512
    ensures r.tPos < 512
  {
    if m.toGo == 0 then Mask(RNum(m.tPos) - 1, if m.tPos + 1 == 512 then 0 else m.tPos + 1)
    else Mask(m.toGo - 1, m.tPos)
  }

  /** The counters after k bytes of the block have been got. */
  function After(k: nat): (m: Mask)
    ensures m.tPos < 512
  {
    if k == 0 then Mask(0, 0) else Updated(After(k - 1))
  }

  /** BZ_RAND_MASK for byte k of the block. */
  predicate Flips(k: nat) {
    After(k + 1).toGo == 1
  }

  /** c ^ 1. */
  function Flip(c: Byte): (r: Byte)
    ensures r != c && r / 2 == c / 2
  {
    if c % 2 == 0 then c + 1 else c - 1
  }

  /** What a block really holds. */
  function Unmasked(s: Block, rand: bool): (r: Block)
    ensures |r| == |s| && forall i :: 0 <= i < |r| ==> r[i] == if rand && Flips(i) then Flip(s[i]) else s[i]
  {
    seq(|s|, i requires 0 <= i < |s| => if rand && Flips(i) then Flip(s[i]) else s[i])
  }

  lemma UnmaskedPrefix(s: Block, n: nat, rand: bool)
    requires n <= |s|
    ensures Unmasked(s, rand)[..n] == Unmasked(s[..n], rand)
  {
    hide Flips;
  }

  lemma PlainStays(s: Block)
    ensures Unmasked(s, false) == s
  {
  }

  /** Masking twice restores the block: the sender's mask is the receiver's. */
  lemma UnmaskedTwice(s: Block)
    ensures Unmasked(Unmasked(s, true), true) == s
  {
    hide Flips;
    forall i | 0 <= i < |s| ensures Unmasked(Unmasked(s, true), true)[i] == s[i] {
      FlipTwice(s[i]);
    }
  }

  lemma FlipTwice(c: Byte)
    ensures Flip(Flip(c)) == c
  {
  }

  // ---------- Where the flips are ----------

  /** The sum of the first j numbers of the table, which repeats. */
  function Span(j: nat): nat {
    if j == 0 then 0 else Span(j - 1) + RNum((j - 1) % 512)
  }

  lemma AfterNext(k: nat)
    ensures After(k + 1) == Updated(After(k)) && After(0) == Mask(0, 0)
  {
    hide Updated;
  }

  lemma {:induction false} AfterSpan(j: nat, i: nat)
    requires i < RNum(j % 512)
    ensures After(Span(j) + i + 1) == Mask(RNum(j % 512) - 1 - i, (j + 1) % 512)
    decreases j, i
  {
    hide RNum, After;
    AfterNext(Span(j) + i);
    NextPlace(j);
    if i > 0 {
      AfterSpan(j, i - 1);
    } else if j > 0 {
      AfterSpan(j - 1, RNum((j - 1) % 512) - 1);
      assert Span(j) == Span(j - 1) + RNum((j - 1) % 512);
    }
  }

  lemma NextPlace(j: nat)
    ensures (j + 1) % 512 == if j % 512 + 1 == 512 then 0 else j % 512 + 1
  {
  }

  /** Stretches of the lengths in the table follow each other, and the last byte
      but one of each is flipped. */
  lemma FlipsInSpan(j: nat, i: nat)
    requires i < RNum(j % 512)
    ensures Flips(Span(j) + i) <==> i == RNum(j % 512) - 2
  {
    hide RNum, After, Span;
    AfterSpan(j, i);
  }
}
