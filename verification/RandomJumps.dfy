/** Where large numbers of steps of `XorShift32` lead from the state 1, computed with polynomials. */
module RandomJumps {
  import opened RandomSpec
  import opened RandomPolynomials

  // ---------------------------------------------------------------------------------------------
  // Acting on the state 1, by a table of states

  /** The sum of the states that `q` picks from those after `i`, `i + d`, `i + 2 * d`, ... steps. */
  function Total(q: bv32, i: nat, d: nat): bv32
    decreases q
  {
    if q == 0 then 0 else Plus(Pick(q, Iter(1, i)), Total(Half(q), i + d, d))
  }

  lemma TotalUnfolds(q: bv32, i: nat, d: nat)
    ensures Total(q, i, d) == Plus(Pick(q, Iter(1, i)), Total(Half(q), i + d, d))
  {
    hide Iter;
    if q == 0 {
      assert Half(0) == 0;
      PlusZero(0);
    }
  }

  lemma {:induction false} TotalActs(q: bv32, i: nat, d: nat)
    ensures Total(q, i, d) == Act(q, Iter(1, i), d)
    decreases q
  {
    if q != 0 {
      HalfIsLess(q);
      hide *;
      TotalUnfolds(q, i, d);
      TotalActs(Half(q), i + d, d);
      IterAdds(1, d, i);
      ActIters(Half(q), Iter(1, i), d, d);
      ActUnfolds(q, Iter(1, i), d);
    }
  }

  function Down8(q: bv32): bv32 {
    q >> 8
  }

  lemma EightHalves(q: bv32)
    ensures Half(Half(Half(Half(Half(Half(Half(Half(q)))))))) == Down8(q)
  {
  }

  lemma DownsToZero(q: bv32)
    ensures Down8(Down8(Down8(Down8(q)))) == 0
  {
  }

  function PickBit(q: bv32, mask: bv32, v: bv32): bv32 {
    if q & mask != 0 then v else 0
  }

  lemma Odd0(q: bv32)
    ensures IsOdd(q) <==> q & 0x01 != 0
  {
  }

  lemma Odd1(q: bv32)
    ensures IsOdd(Half(q)) <==> q & 0x02 != 0
  {
  }

  lemma Odd2(q: bv32)
    ensures IsOdd(Half(Half(q))) <==> q & 0x04 != 0
  {
  }

  lemma Odd3(q: bv32)
    ensures IsOdd(Half(Half(Half(q)))) <==> q & 0x08 != 0
  {
  }

  lemma Odd4(q: bv32)
    ensures IsOdd(Half(Half(Half(Half(q))))) <==> q & 0x10 != 0
  {
  }

  lemma Odd5(q: bv32)
    ensures IsOdd(Half(Half(Half(Half(Half(q)))))) <==> q & 0x20 != 0
  {
  }

  lemma Odd6(q: bv32)
    ensures IsOdd(Half(Half(Half(Half(Half(Half(q))))))) <==> q & 0x40 != 0
  {
  }

  lemma Odd7(q: bv32)
    ensures IsOdd(Half(Half(Half(Half(Half(Half(Half(q)))))))) <==> q & 0x80 != 0
  {
  }

  /** The lowest eight coefficients, read off by their masks. */
  lemma PicksBits(q: bv32, v: bv32)
    ensures Pick(q, v) == PickBit(q, 0x01, v)
    ensures Pick(Half(q), v) == PickBit(q, 0x02, v)
    ensures Pick(Half(Half(q)), v) == PickBit(q, 0x04, v)
    ensures Pick(Half(Half(Half(q))), v) == PickBit(q, 0x08, v)
    ensures Pick(Half(Half(Half(Half(q)))), v) == PickBit(q, 0x10, v)
    ensures Pick(Half(Half(Half(Half(Half(q))))), v) == PickBit(q, 0x20, v)
    ensures Pick(Half(Half(Half(Half(Half(Half(q)))))), v) == PickBit(q, 0x40, v)
    ensures Pick(Half(Half(Half(Half(Half(Half(Half(q))))))), v) == PickBit(q, 0x80, v)
  {
    hide Half, IsOdd;
    Odd0(q);
    Odd1(q);
    Odd2(q);
    Odd3(q);
    Odd4(q);
    Odd5(q);
    Odd6(q);
    Odd7(q);
  }

  /** Eight terms of a total. */
  function Eight(q: bv32, k0: bv32, k1: bv32, k2: bv32, k3: bv32, k4: bv32, k5: bv32, k6: bv32, k7: bv32, rest: bv32)
    : bv32
  {
    Plus(PickBit(q, 0x01, k0), Plus(PickBit(q, 0x02, k1), Plus(PickBit(q, 0x04, k2), Plus(PickBit(q, 0x08, k3),
      Plus(PickBit(q, 0x10, k4), Plus(PickBit(q, 0x20, k5), Plus(PickBit(q, 0x40, k6),
        Plus(PickBit(q, 0x80, k7), rest))))))))
  }

  lemma EightIs(q: bv32, i: nat, d: nat)
    ensures Total(q, i, d)
         == Eight(q, Iter(1, i), Iter(1, i + d), Iter(1, i + 2 * d), Iter(1, i + 3 * d), Iter(1, i + 4 * d),
                  Iter(1, i + 5 * d), Iter(1, i + 6 * d), Iter(1, i + 7 * d), Total(Down8(q), i + 8 * d, d))
  {
    hide Total, Half, Plus, Pick, PickBit, Iter, Down8;
    var q1 := Half(q);
    var q2 := Half(q1);
    var q3 := Half(q2);
    var q4 := Half(q3);
    var q5 := Half(q4);
    var q6 := Half(q5);
    var q7 := Half(q6);
    EightHalves(q);
    TotalUnfolds(q, i, d);
    PicksBits(q, Iter(1, i));
    TotalUnfolds(q1, i + d, d);
    PicksBits(q, Iter(1, i + d));
    TotalUnfolds(q2, i + 2 * d, d);
    PicksBits(q, Iter(1, i + 2 * d));
    TotalUnfolds(q3, i + 3 * d, d);
    PicksBits(q, Iter(1, i + 3 * d));
    TotalUnfolds(q4, i + 4 * d, d);
    PicksBits(q, Iter(1, i + 4 * d));
    TotalUnfolds(q5, i + 5 * d, d);
    PicksBits(q, Iter(1, i + 5 * d));
    TotalUnfolds(q6, i + 6 * d, d);
    PicksBits(q, Iter(1, i + 6 * d));
    TotalUnfolds(q7, i + 7 * d, d);
    PicksBits(q, Iter(1, i + 7 * d));
  }

  lemma StartState()
    ensures Iter(1, 0) == 1
  {
  }

  lemma NextState(i: nat, a: bv32, b: bv32)
    requires Iter(1, i) == a && Shift32(a) == b
    ensures Iter(1, i + 1) == b
  {
  }

  function Step4(a: bv32): bv32 {
    Shift32(Shift32(Shift32(Shift32(a))))
  }

  lemma Step4Is(i: nat, a: bv32)
    requires Iter(1, i) == a
    ensures Iter(1, i + 4) == Step4(a)
  {
    hide Shift32;
    assert Iter(1, i + 2) == Shift32(Shift32(a));
  }

  lemma FarState(i: nat, a: bv32, b: bv32)
    requires Iter(1, i) == a && Step4(Step4(Step4(Step4(a)))) == b
    ensures Iter(1, i + 16) == b
  {
    hide Iter, Step4;
    Step4Is(i, a);
    Step4Is(i + 4, Step4(a));
    Step4Is(i + 8, Step4(Step4(a)));
    Step4Is(i + 12, Step4(Step4(Step4(a))));
  }

  lemma NearStates0()
    ensures Iter(1, 0) == 0x00000001 && Iter(1, 1) == 0x00042021
    ensures Iter(1, 2) == 0x04080601 && Iter(1, 3) == 0x9dcca8c5
    ensures Iter(1, 4) == 0x1255994f && Iter(1, 5) == 0x8ef917d1
    ensures Iter(1, 6) == 0x2c6f5bd0 && Iter(1, 7) == 0x25b2331a
    ensures Iter(1, 8) == 0x19f91cb2
  {
    hide Iter;
    StartState();
    NextState(0, 0x00000001, 0x00042021);
    NextState(1, 0x00042021, 0x04080601);
    NextState(2, 0x04080601, 0x9dcca8c5);
    NextState(3, 0x9dcca8c5, 0x1255994f);
    NextState(4, 0x1255994f, 0x8ef917d1);
    NextState(5, 0x8ef917d1, 0x2c6f5bd0);
    NextState(6, 0x2c6f5bd0, 0x25b2331a);
    NextState(7, 0x25b2331a, 0x19f91cb2);
  }

  lemma NearStates1()
    ensures Iter(1, 8) == 0x19f91cb2 && Iter(1, 9) == 0x77877125
    ensures Iter(1, 10) == 0xadd02374 && Iter(1, 11) == 0x9e6002cb
    ensures Iter(1, 12) == 0x591c9737 && Iter(1, 13) == 0xb4b84b8a
    ensures Iter(1, 14) == 0x04e3f8ae && Iter(1, 15) == 0x0536aff5
    ensures Iter(1, 16) == 0xc9c495b1
  {
    hide Iter;
    NearStates0();
    NextState(8, 0x19f91cb2, 0x77877125);
    NextState(9, 0x77877125, 0xadd02374);
    NextState(10, 0xadd02374, 0x9e6002cb);
    NextState(11, 0x9e6002cb, 0x591c9737);
    NextState(12, 0x591c9737, 0xb4b84b8a);
    NextState(13, 0xb4b84b8a, 0x04e3f8ae);
    NextState(14, 0x04e3f8ae, 0x0536aff5);
    NextState(15, 0x0536aff5, 0xc9c495b1);
  }

  lemma NearStates2()
    ensures Iter(1, 16) == 0xc9c495b1 && Iter(1, 17) == 0x35219908
    ensures Iter(1, 18) == 0xc613db08 && Iter(1, 19) == 0x13223391
    ensures Iter(1, 20) == 0xff571e19 && Iter(1, 21) == 0x8e123a33
    ensures Iter(1, 22) == 0xe3d3edb9 && Iter(1, 23) == 0x52f4d3eb
    ensures Iter(1, 24) == 0xd9b3224f
  {
    hide Iter;
    NearStates1();
    NextState(16, 0xc9c495b1, 0x35219908);
    NextState(17, 0x35219908, 0xc613db08);
    NextState(18, 0xc613db08, 0x13223391);
    NextState(19, 0x13223391, 0xff571e19);
    NextState(20, 0xff571e19, 0x8e123a33);
    NextState(21, 0x8e123a33, 0xe3d3edb9);
    NextState(22, 0xe3d3edb9, 0x52f4d3eb);
    NextState(23, 0x52f4d3eb, 0xd9b3224f);
  }

  lemma NearStates3()
    ensures Iter(1, 24) == 0xd9b3224f && Iter(1, 25) == 0x02a90af2
    ensures Iter(1, 26) == 0x5d1c3a29 && Iter(1, 27) == 0x917797a5
    ensures Iter(1, 28) == 0x13e3cae4 && Iter(1, 29) == 0x3d5088db
    ensures Iter(1, 30) == 0xa534213e && Iter(1, 31) == 0x036dc757
  {
    hide Iter;
    NearStates2();
    NextState(24, 0xd9b3224f, 0x02a90af2);
    NextState(25, 0x02a90af2, 0x5d1c3a29);
    NextState(26, 0x5d1c3a29, 0x917797a5);
    NextState(27, 0x917797a5, 0x13e3cae4);
    NextState(28, 0x13e3cae4, 0x3d5088db);
    NextState(29, 0x3d5088db, 0xa534213e);
    NextState(30, 0xa534213e, 0x036dc757);
  }

  lemma FarStates0()
    ensures Iter(1, 0) == 0x00000001 && Iter(1, 16) == 0xc9c495b1
    ensures Iter(1, 32) == 0xcb682814 && Iter(1, 48) == 0x8d596f54
    ensures Iter(1, 64) == 0x379686c7 && Iter(1, 80) == 0xb95185d0
    ensures Iter(1, 96) == 0x5a1952da && Iter(1, 112) == 0xbd89590d
    ensures Iter(1, 128) == 0x7fcbb52d
  {
    hide Iter;
    StartState();
    FarState(0, 0x00000001, 0xc9c495b1);
    FarState(16, 0xc9c495b1, 0xcb682814);
    FarState(32, 0xcb682814, 0x8d596f54);
    FarState(48, 0x8d596f54, 0x379686c7);
    FarState(64, 0x379686c7, 0xb95185d0);
    FarState(80, 0xb95185d0, 0x5a1952da);
    FarState(96, 0x5a1952da, 0xbd89590d);
    FarState(112, 0xbd89590d, 0x7fcbb52d);
  }

  lemma FarStates1()
    ensures Iter(1, 128) == 0x7fcbb52d && Iter(1, 144) == 0x5a9ca56e
    ensures Iter(1, 160) == 0x8f487559 && Iter(1, 176) == 0x40f63cd8
    ensures Iter(1, 192) == 0x0739d14f && Iter(1, 208) == 0x3a26edb0
    ensures Iter(1, 224) == 0xc333d023 && Iter(1, 240) == 0x6ef77b42
    ensures Iter(1, 256) == 0x54eda13c
  {
    hide Iter;
    FarStates0();
    FarState(128, 0x7fcbb52d, 0x5a9ca56e);
    FarState(144, 0x5a9ca56e, 0x8f487559);
    FarState(160, 0x8f487559, 0x40f63cd8);
    FarState(176, 0x40f63cd8, 0x0739d14f);
    FarState(192, 0x0739d14f, 0x3a26edb0);
    FarState(208, 0x3a26edb0, 0xc333d023);
    FarState(224, 0xc333d023, 0x6ef77b42);
    FarState(240, 0x6ef77b42, 0x54eda13c);
  }

  lemma FarStates2()
    ensures Iter(1, 256) == 0x54eda13c && Iter(1, 272) == 0x1f8721ea
    ensures Iter(1, 288) == 0x30f34190 && Iter(1, 304) == 0xb2d5b204
    ensures Iter(1, 320) == 0xe8d0da1a && Iter(1, 336) == 0x4e78960e
    ensures Iter(1, 352) == 0x522769a6 && Iter(1, 368) == 0x92cb45a2
    ensures Iter(1, 384) == 0xf95a5e80
  {
    hide Iter;
    FarStates1();
    FarState(256, 0x54eda13c, 0x1f8721ea);
    FarState(272, 0x1f8721ea, 0x30f34190);
    FarState(288, 0x30f34190, 0xb2d5b204);
    FarState(304, 0xb2d5b204, 0xe8d0da1a);
    FarState(320, 0xe8d0da1a, 0x4e78960e);
    FarState(336, 0x4e78960e, 0x522769a6);
    FarState(352, 0x522769a6, 0x92cb45a2);
    FarState(368, 0x92cb45a2, 0xf95a5e80);
  }

  lemma FarStates3()
    ensures Iter(1, 384) == 0xf95a5e80 && Iter(1, 400) == 0xef35280a
    ensures Iter(1, 416) == 0x6ad674ff && Iter(1, 432) == 0xa16d1138
    ensures Iter(1, 448) == 0xa7ef3f00 && Iter(1, 464) == 0x1f3a4fa2
    ensures Iter(1, 480) == 0x2931c9b8 && Iter(1, 496) == 0x77af78d7
  {
    hide Iter;
    FarStates2();
    FarState(384, 0xf95a5e80, 0xef35280a);
    FarState(400, 0xef35280a, 0x6ad674ff);
    FarState(416, 0x6ad674ff, 0xa16d1138);
    FarState(432, 0xa16d1138, 0xa7ef3f00);
    FarState(448, 0xa7ef3f00, 0x1f3a4fa2);
    FarState(464, 0x1f3a4fa2, 0x2931c9b8);
    FarState(480, 0x2931c9b8, 0x77af78d7);
  }

  /** The first thirty-two states, ... */
  function Near0(q: bv32, rest: bv32): bv32 {
    Eight(q, 0x00000001, 0x00042021, 0x04080601, 0x9dcca8c5, 0x1255994f, 0x8ef917d1, 0x2c6f5bd0, 0x25b2331a, rest)
  }

  lemma Near0Is(q: bv32)
    ensures Total(q, 0, 1) == Near0(q, Total(Down8(q), 8, 1))
  {
    hide Total, Eight, Iter, Down8;
    NearStates0();
    EightIs(q, 0, 1);
  }

  function Near1(q: bv32, rest: bv32): bv32 {
    Eight(q, 0x19f91cb2, 0x77877125, 0xadd02374, 0x9e6002cb, 0x591c9737, 0xb4b84b8a, 0x04e3f8ae, 0x0536aff5, rest)
  }

  lemma Near1Is(q: bv32)
    ensures Total(q, 8, 1) == Near1(q, Total(Down8(q), 16, 1))
  {
    hide Total, Eight, Iter, Down8;
    NearStates1();
    EightIs(q, 8, 1);
  }

  function Near2(q: bv32, rest: bv32): bv32 {
    Eight(q, 0xc9c495b1, 0x35219908, 0xc613db08, 0x13223391, 0xff571e19, 0x8e123a33, 0xe3d3edb9, 0x52f4d3eb, rest)
  }

  lemma Near2Is(q: bv32)
    ensures Total(q, 16, 1) == Near2(q, Total(Down8(q), 24, 1))
  {
    hide Total, Eight, Iter, Down8;
    NearStates2();
    EightIs(q, 16, 1);
  }

  function Near3(q: bv32, rest: bv32): bv32 {
    Eight(q, 0xd9b3224f, 0x02a90af2, 0x5d1c3a29, 0x917797a5, 0x13e3cae4, 0x3d5088db, 0xa534213e, 0x036dc757, rest)
  }

  lemma Near3Is(q: bv32)
    ensures Total(q, 24, 1) == Near3(q, Total(Down8(q), 32, 1))
  {
    hide Total, Eight, Iter, Down8;
    NearStates3();
    EightIs(q, 24, 1);
  }

  /** ... and every sixteenth one. */
  function Far0(q: bv32, rest: bv32): bv32 {
    Eight(q, 0x00000001, 0xc9c495b1, 0xcb682814, 0x8d596f54, 0x379686c7, 0xb95185d0, 0x5a1952da, 0xbd89590d, rest)
  }

  lemma Far0Is(q: bv32)
    ensures Total(q, 0, 16) == Far0(q, Total(Down8(q), 128, 16))
  {
    hide Total, Eight, Iter, Down8;
    FarStates0();
    EightIs(q, 0, 16);
  }

  function Far1(q: bv32, rest: bv32): bv32 {
    Eight(q, 0x7fcbb52d, 0x5a9ca56e, 0x8f487559, 0x40f63cd8, 0x0739d14f, 0x3a26edb0, 0xc333d023, 0x6ef77b42, rest)
  }

  lemma Far1Is(q: bv32)
    ensures Total(q, 128, 16) == Far1(q, Total(Down8(q), 256, 16))
  {
    hide Total, Eight, Iter, Down8;
    FarStates1();
    EightIs(q, 128, 16);
  }

  function Far2(q: bv32, rest: bv32): bv32 {
    Eight(q, 0x54eda13c, 0x1f8721ea, 0x30f34190, 0xb2d5b204, 0xe8d0da1a, 0x4e78960e, 0x522769a6, 0x92cb45a2, rest)
  }

  lemma Far2Is(q: bv32)
    ensures Total(q, 256, 16) == Far2(q, Total(Down8(q), 384, 16))
  {
    hide Total, Eight, Iter, Down8;
    FarStates2();
    EightIs(q, 256, 16);
  }

  function Far3(q: bv32, rest: bv32): bv32 {
    Eight(q, 0xf95a5e80, 0xef35280a, 0x6ad674ff, 0xa16d1138, 0xa7ef3f00, 0x1f3a4fa2, 0x2931c9b8, 0x77af78d7, rest)
  }

  lemma Far3Is(q: bv32)
    ensures Total(q, 384, 16) == Far3(q, Total(Down8(q), 512, 16))
  {
    hide Total, Eight, Iter, Down8;
    FarStates3();
    EightIs(q, 384, 16);
  }

  lemma TotalOfZero(i: nat, d: nat)
    ensures Total(0, i, d) == 0
  {
  }

  /** What `q` makes of the state 1, ... */
  function Once(q: bv32): bv32 {
    var q1 := Down8(q);
    var q2 := Down8(q1);
    Near0(q, Near1(q1, Near2(q2, Near3(Down8(q2), 0))))
  }

  lemma OnceIs(q: bv32)
    ensures Once(q) == Act(q, 1, 1)
  {
    hide Total, Down8, Act, Iter, Near0, Near1, Near2, Near3;
    StartState();
    TotalActs(q, 0, 1);
    DownsToZero(q);
    TotalOfZero(32, 1);
    Near0Is(q);
    Near1Is(Down8(q));
    Near2Is(Down8(Down8(q)));
    Near3Is(Down8(Down8(Down8(q))));
  }

  /** ... and with steps sixteen times as long. */
  function Sixteenfold(q: bv32): bv32 {
    var q1 := Down8(q);
    var q2 := Down8(q1);
    Far0(q, Far1(q1, Far2(q2, Far3(Down8(q2), 0))))
  }

  lemma SixteenfoldIs(q: bv32)
    ensures Sixteenfold(q) == Act(q, 1, 16)
  {
    hide Total, Down8, Act, Iter, Far0, Far1, Far2, Far3;
    StartState();
    TotalActs(q, 0, 16);
    DownsToZero(q);
    TotalOfZero(512, 16);
    Far0Is(q);
    Far1Is(Down8(q));
    Far2Is(Down8(Down8(q)));
    Far3Is(Down8(Down8(Down8(q))));
  }

  // The same one byte at a time, so that each step computes with numbers.

  lemma OnceBy(q: bv32, c3: bv32, c2: bv32, c1: bv32, a: bv32)
    requires Near3(Down8(Down8(Down8(q))), 0) == c3 && Near2(Down8(Down8(q)), c3) == c2
    requires Near1(Down8(q), c2) == c1 && Near0(q, c1) == a
    ensures Once(q) == a
  {
  }

  lemma SixteenfoldBy(q: bv32, c3: bv32, c2: bv32, c1: bv32, a: bv32)
    requires Far3(Down8(Down8(Down8(q))), 0) == c3 && Far2(Down8(Down8(q)), c3) == c2
    requires Far1(Down8(q), c2) == c1 && Far0(q, c1) == a
    ensures Sixteenfold(q) == a
  {
  }

  lemma PowerIs(q: bv32, m: nat)
    ensures IsPower(q, m) <==> Act(q, 1, 1) == Iter(1, m)
  {
  }

  /** From `m` steps to sixteen times as many: `s` is the polynomial that gives the same state. */
  lemma Jump(q: bv32, m: nat, s: bv32, a: bv32)
    requires IsPower(q, m) && Sixteenfold(q) == a && Once(s) == a
    ensures IsPower(s, 16 * m) && Iter(1, 16 * m) == a
  {
    hide *;
    SixteenfoldIs(q);
    OnceIs(s);
    PowerSpreads(q, m);
    PowerIs(s, 16 * m);
  }

  // ---------------------------------------------------------------------------------------------
  // Acting on any state

  lemma ActSteps(q: bv32, v: bv32)
    ensures Act(q, v, 1) == Plus(Pick(q, v), Shift32(Act(Half(q), v, 1)))
  {
    hide Plus, Pick, Shift32, Act, Half;
    ActUnfolds(q, v, 1);
    var a := Act(Half(q), v, 1);
    assert Iter(a, 1) == Shift32(Iter(a, 0));
  }

  function ActBit(q: bv32, mask: bv32, v: bv32, a: bv32): bv32 {
    Plus(PickBit(q, mask, v), Shift32(a))
  }

  function ActLow(q: bv32, v: bv32, a: bv32): bv32 {
    ActBit(q, 0x01, v, ActBit(q, 0x02, v, ActBit(q, 0x04, v, ActBit(q, 0x08, v, a))))
  }

  function ActHigh(q: bv32, v: bv32, a: bv32): bv32 {
    ActBit(q, 0x10, v, ActBit(q, 0x20, v, ActBit(q, 0x40, v, ActBit(q, 0x80, v, a))))
  }

  function ActEight(q: bv32, v: bv32, a: bv32): bv32 {
    ActLow(q, v, ActHigh(q, v, a))
  }

  lemma ActEightIs(q: bv32, v: bv32)
    ensures Act(q, v, 1) == ActEight(q, v, Act(Down8(q), v, 1))
  {
    hide Act, Half, Plus, Pick, PickBit, Shift32, Down8;
    var q1 := Half(q);
    var q2 := Half(q1);
    var q3 := Half(q2);
    var q4 := Half(q3);
    var q5 := Half(q4);
    var q6 := Half(q5);
    var q7 := Half(q6);
    EightHalves(q);
    PicksBits(q, v);
    ActSteps(q, v);
    ActSteps(q1, v);
    ActSteps(q2, v);
    ActSteps(q3, v);
    ActSteps(q4, v);
    ActSteps(q5, v);
    ActSteps(q6, v);
    ActSteps(q7, v);
  }

  function ActFast(q: bv32, v: bv32): bv32 {
    var q1 := Down8(q);
    var q2 := Down8(q1);
    ActEight(q, v, ActEight(q1, v, ActEight(q2, v, ActEight(Down8(q2), v, 0))))
  }

  lemma ActOfNothing(v: bv32)
    ensures Act(0, v, 1) == 0
  {
  }

  lemma ActFastIs(q: bv32, v: bv32)
    ensures ActFast(q, v) == Act(q, v, 1)
  {
    hide Act, Down8, ActEight;
    DownsToZero(q);
    ActOfNothing(v);
    ActEightIs(q, v);
    ActEightIs(Down8(q), v);
    ActEightIs(Down8(Down8(q)), v);
    ActEightIs(Down8(Down8(Down8(q))), v);
  }

  lemma ByteBy(q: bv32, v: bv32, a: bv32, h: bv32, b: bv32)
    requires ActHigh(q, v, a) == h && ActLow(q, v, h) == b
    ensures ActEight(q, v, a) == b
  {
  }

  lemma BytesBy(q: bv32, q1: bv32, q2: bv32, q3: bv32, v: bv32, c3: bv32, c2: bv32, c1: bv32, a: bv32)
    requires Down8(q) == q1 && Down8(q1) == q2 && Down8(q2) == q3
    requires ActEight(q3, v, 0) == c3 && ActEight(q2, v, c3) == c2
    requires ActEight(q1, v, c2) == c1 && ActEight(q, v, c1) == a
    ensures ActFast(q, v) == a
  {
    hide ActEight, Down8;
  }

  /** `m` more steps from where `n` have led. */
  lemma Move(q: bv32, m: nat, n: nat, a: bv32, b: bv32)
    requires IsPower(q, m) && Iter(1, n) == a && ActFast(q, a) == b
    ensures Iter(1, m + n) == b
  {
    hide *;
    ActFastIs(q, a);
    ActIters(q, 1, 1, n);
    IterAdds(1, n, m);
    PowerIs(q, m);
  }

  /** The polynomial that leads to a known state. */
  lemma Found(q: bv32, m: nat, a: bv32)
    requires Iter(1, m) == a && Once(q) == a
    ensures IsPower(q, m)
  {
    hide *;
    OnceIs(q);
    PowerIs(q, m);
  }

  // ---------------------------------------------------------------------------------------------
  // 2^32 steps from the state 1, and some others on the way

  lemma One()
    ensures Iter(1, 1) == 0x00042021
  {
    hide Iter;
    NearStates0();
  }

  lemma Power8()
    ensures IsPower(0x8f64cbe9, 0x100)
  {
    hide IsPower, Iter, Act, Once;
    FarStates2();
    OnceBy(0x8f64cbe9, 0x141c4266, 0xbfce4ee4, 0x4e0576e3, 0x54eda13c);
    Found(0x8f64cbe9, 0x100, 0x54eda13c);
  }

  lemma Power12()
    ensures IsPower(0x58d49ae1, 0x1000)
  {
    hide IsPower, Iter, Act, Once, Sixteenfold, ActFast, ActEight;
    Power8();
    SixteenfoldBy(0x8f64cbe9, 0xaa7b6b9a, 0x86d7d5a2, 0x4eb25258, 0x9d2ab30a);
    OnceBy(0x58d49ae1, 0x27a07c7f, 0xafc3873c, 0x1a0ecc10, 0x9d2ab30a);
    Jump(0x8f64cbe9, 0x100, 0x58d49ae1, 0x9d2ab30a);
  }

  lemma Power16()
    ensures IsPower(0x80ad6e7a, 0x10000) && Iter(1, 0x10000) == 0x1a19edb3
  {
    hide IsPower, Iter, Act, Once, Sixteenfold, ActFast, ActEight;
    Power12();
    SixteenfoldBy(0x58d49ae1, 0x2fb3e780, 0x377c500e, 0x44d863b5, 0x1a19edb3);
    OnceBy(0x80ad6e7a, 0x036dc757, 0xc37e53a7, 0x3712b019, 0x1a19edb3);
    Jump(0x58d49ae1, 0x1000, 0x80ad6e7a, 0x1a19edb3);
  }

  lemma Power20()
    ensures IsPower(0x3d998ff3, 0x100000)
  {
    hide IsPower, Iter, Act, Once, Sixteenfold, ActFast, ActEight;
    Power16();
    SixteenfoldBy(0x80ad6e7a, 0x77af78d7, 0x7dd7f9d3, 0x11e028af, 0x81a38387);
    OnceBy(0x3d998ff3, 0x3b6bcdfc, 0x4c2ea62e, 0x14d645f3, 0x81a38387);
    Jump(0x80ad6e7a, 0x10000, 0x3d998ff3, 0x81a38387);
  }

  lemma Power24()
    ensures IsPower(0x17ec2bc1, 0x1000000)
  {
    hide IsPower, Iter, Act, Once, Sixteenfold, ActFast, ActEight;
    Power20();
    SixteenfoldBy(0x3d998ff3, 0x8a344be5, 0x1617c765, 0x9209e5e5, 0x329a7895);
    OnceBy(0x17ec2bc1, 0x95e5d870, 0x7fe13488, 0x3b47105e, 0x329a7895);
    Jump(0x3d998ff3, 0x100000, 0x17ec2bc1, 0x329a7895);
  }

  lemma Power28()
    ensures IsPower(0xe772825f, 0x10000000)
  {
    hide IsPower, Iter, Act, Once, Sixteenfold, ActFast, ActEight;
    Power24();
    SixteenfoldBy(0x17ec2bc1, 0xdb563d75, 0xd7e474eb, 0x8863b5c0, 0x6ff3be16);
    OnceBy(0xe772825f, 0x1d0f7c26, 0xbab82cbd, 0xc809f26d, 0x6ff3be16);
    Jump(0x17ec2bc1, 0x1000000, 0xe772825f, 0x6ff3be16);
  }

  lemma Power32()
    ensures Iter(1, 0x1_0000_0000) == 0x00042021
  {
    hide IsPower, Iter, Act, Sixteenfold;
    Power28();
    SixteenfoldBy(0xe772825f, 0x3d1dfcb8, 0xd615f8e0, 0xe27e26cc, 0x00042021);
    SixteenfoldIs(0xe772825f);
    PowerSpreads(0xe772825f, 0x1000_0000);
  }

  /** 2^16 + 1 steps, and 2^8 times as many. */
  lemma Power65537()
    ensures IsPower(0x01641eb5, 65537) && Iter(1, 65537) == 0xd25c52e4
  {
    hide IsPower, Iter, Act, Once, Sixteenfold, ActFast, ActEight;
    Power16();
    NextState(65536, 0x1a19edb3, 0xd25c52e4);
    OnceBy(0x01641eb5, 0xd9b3224f, 0x72612ecd, 0x6f4ae960, 0xd25c52e4);
    Found(0x01641eb5, 65537, 0xd25c52e4);
  }

  lemma PowerShifted4()
    ensures IsPower(0x95c6629c, 16 * 65537)
  {
    hide IsPower, Iter, Act, Once, Sixteenfold, ActFast, ActEight;
    Power65537();
    SixteenfoldBy(0x01641eb5, 0xf95a5e80, 0xd5f6e0b8, 0x47eddd18, 0xbfcbaf17);
    OnceBy(0x95c6629c, 0x942115d5, 0xd6346987, 0x11e8ab86, 0xbfcbaf17);
    Jump(0x01641eb5, 65537, 0x95c6629c, 0xbfcbaf17);
  }

  lemma PowerShifted8()
    ensures IsPower(0x65ce33c4, 256 * 65537) && Iter(1, 256 * 65537) == 0xc3f321a1
  {
    hide IsPower, Iter, Act, Once, Sixteenfold, ActFast, ActEight;
    PowerShifted4();
    SixteenfoldBy(0x95c6629c, 0x43cc6da8, 0xac5421d6, 0x0fddb92b, 0xc3f321a1);
    OnceBy(0x65ce33c4, 0x1ccbb183, 0x4dfcfe40, 0xce264f6a, 0xc3f321a1);
    Jump(0x95c6629c, 16 * 65537, 0x65ce33c4, 0xc3f321a1);
  }

  /** 257 * 65537 steps, and 2^4 times as many. */
  lemma Power257()
    ensures IsPower(0xeea520a5, 257 * 65537) && Iter(1, 257 * 65537) == 0x9d0107ec
  {
    hide IsPower, Iter, Act, Once, Sixteenfold, ActFast, ActEight;
    Power65537();
    PowerShifted8();
    ByteBy(0x00000065, 0xd25c52e4, 0x00000000, 0x6e335789, 0xe1c260d9);
    ByteBy(0x000065ce, 0xd25c52e4, 0xe1c260d9, 0xc486ab76, 0x1bfc6fff);
    ByteBy(0x0065ce33, 0xd25c52e4, 0x1bfc6fff, 0xdb3473f5, 0xbe3d902c);
    ByteBy(0x65ce33c4, 0xd25c52e4, 0xbe3d902c, 0xb42de450, 0x9d0107ec);
    BytesBy(0x65ce33c4, 0x0065ce33, 0x000065ce, 0x00000065, 0xd25c52e4,
            0xe1c260d9, 0x1bfc6fff, 0xbe3d902c, 0x9d0107ec);
    Move(0x65ce33c4, 256 * 65537, 65537, 0xd25c52e4, 0x9d0107ec);
    OnceBy(0xeea520a5, 0x55cbc9cc, 0x86fa6ead, 0x32422527, 0x9d0107ec);
    Found(0xeea520a5, 257 * 65537, 0x9d0107ec);
  }

  lemma Power257Shifted4()
    ensures IsPower(0xcbc88a25, 16 * 257 * 65537) && Iter(1, 16 * 257 * 65537) == 0x28119978
  {
    hide IsPower, Iter, Act, Once, Sixteenfold, ActFast, ActEight;
    Power257();
    SixteenfoldBy(0xeea520a5, 0x652ab300, 0xdd878000, 0xe7a16db0, 0x28119978);
    OnceBy(0xcbc88a25, 0xec345971, 0x4e3154b2, 0xa2e088a9, 0x28119978);
    Jump(0xeea520a5, 257 * 65537, 0xcbc88a25, 0x28119978);
  }

  /** 17 * 257 * 65537 steps, ... */
  lemma Power17()
    ensures IsPower(0x900ec41f, 17 * 257 * 65537) && Iter(1, 17 * 257 * 65537) == 0xd70e1fa6
  {
    hide IsPower, Iter, Act, Once, Sixteenfold, ActFast, ActEight;
    Power257();
    Power257Shifted4();
    ByteBy(0x000000cb, 0x9d0107ec, 0x00000000, 0xc41a26cf, 0x399d961e);
    ByteBy(0x0000cbc8, 0x9d0107ec, 0x399d961e, 0xd8bdd71e, 0x1de28717);
    ByteBy(0x00cbc88a, 0x9d0107ec, 0x1de28717, 0xdd4f7943, 0x7ee3e31f);
    ByteBy(0xcbc88a25, 0x9d0107ec, 0x7ee3e31f, 0xb8d64cd6, 0xd70e1fa6);
    BytesBy(0xcbc88a25, 0x00cbc88a, 0x0000cbc8, 0x000000cb, 0x9d0107ec,
            0x399d961e, 0x1de28717, 0x7ee3e31f, 0xd70e1fa6);
    Move(0xcbc88a25, 16 * 257 * 65537, 257 * 65537, 0x9d0107ec, 0xd70e1fa6);
    OnceBy(0x900ec41f, 0x108e0db3, 0xf09e7c22, 0x5c9b080d, 0xd70e1fa6);
    Found(0x900ec41f, 17 * 257 * 65537, 0xd70e1fa6);
  }

  /** ... and two to five times as many. */
  lemma Twice17()
    ensures Iter(1, 2 * 17 * 257 * 65537) == 0xa4ca8e22
  {
    hide IsPower, Iter, Act, ActFast, ActEight;
    Power17();
    ByteBy(0x00000090, 0xd70e1fa6, 0x00000000, 0xa5f66b51, 0x4b18f462);
    ByteBy(0x0000900e, 0xd70e1fa6, 0x4b18f462, 0x1a87d211, 0x32aa1d0d);
    ByteBy(0x00900ec4, 0xd70e1fa6, 0x32aa1d0d, 0x72b5899b, 0x2e1ae13f);
    ByteBy(0x900ec41f, 0xd70e1fa6, 0x2e1ae13f, 0xd013a44d, 0xa4ca8e22);
    BytesBy(0x900ec41f, 0x00900ec4, 0x0000900e, 0x00000090, 0xd70e1fa6,
            0x4b18f462, 0x32aa1d0d, 0x2e1ae13f, 0xa4ca8e22);
    Move(0x900ec41f, 17 * 257 * 65537, 17 * 257 * 65537, 0xd70e1fa6, 0xa4ca8e22);
  }

  lemma Thrice17()
    ensures Iter(1, 3 * 17 * 257 * 65537) == 0x11da10b6
  {
    hide IsPower, Iter, Act, ActFast, ActEight;
    Power17();
    Twice17();
    ByteBy(0x00000090, 0xa4ca8e22, 0x00000000, 0xb7312bb9, 0x92b37103);
    ByteBy(0x0000900e, 0xa4ca8e22, 0x92b37103, 0x3e98d3ad, 0x6b0c82b7);
    ByteBy(0x00900ec4, 0xa4ca8e22, 0x6b0c82b7, 0x40236e45, 0x5a45b5bf);
    ByteBy(0x900ec41f, 0xa4ca8e22, 0x5a45b5bf, 0x3e6c830e, 0x11da10b6);
    BytesBy(0x900ec41f, 0x00900ec4, 0x0000900e, 0x00000090, 0xa4ca8e22,
            0x92b37103, 0x6b0c82b7, 0x5a45b5bf, 0x11da10b6);
    Move(0x900ec41f, 17 * 257 * 65537, 2 * 17 * 257 * 65537, 0xa4ca8e22, 0x11da10b6);
  }

  lemma Four17()
    ensures Iter(1, 4 * 17 * 257 * 65537) == 0x11da10b7
  {
    hide IsPower, Iter, Act, ActFast, ActEight;
    Power17();
    Thrice17();
    ByteBy(0x00000090, 0x11da10b6, 0x00000000, 0x3f6f4cb5, 0x3140d07f);
    ByteBy(0x0000900e, 0x11da10b6, 0x3140d07f, 0x9402937f, 0x3b76337f);
    ByteBy(0x00900ec4, 0x11da10b6, 0x3b76337f, 0x11e745a1, 0x2c3f5755);
    ByteBy(0x900ec41f, 0x11da10b6, 0x2c3f5755, 0x00488135, 0x11da10b7);
    BytesBy(0x900ec41f, 0x00900ec4, 0x0000900e, 0x00000090, 0x11da10b6,
            0x3140d07f, 0x3b76337f, 0x2c3f5755, 0x11da10b7);
    Move(0x900ec41f, 17 * 257 * 65537, 3 * 17 * 257 * 65537, 0x11da10b6, 0x11da10b7);
  }

  lemma Five17()
    ensures Iter(1, 5 * 17 * 257 * 65537) == 0xc6d40f11
  {
    hide IsPower, Iter, Act, ActFast, ActEight;
    Power17();
    Four17();
    ByteBy(0x00000090, 0x11da10b7, 0x00000000, 0xa2a3e471, 0x06a77a2a);
    ByteBy(0x0000900e, 0x11da10b7, 0x06a77a2a, 0x139b8d06, 0xfe9c8558);
    ByteBy(0x00900ec4, 0x11da10b7, 0xfe9c8558, 0xd5e1325e, 0xc87ea4f6);
    ByteBy(0x900ec41f, 0x11da10b7, 0xc87ea4f6, 0xe23e5260, 0xc6d40f11);
    BytesBy(0x900ec41f, 0x00900ec4, 0x0000900e, 0x00000090, 0x11da10b7,
            0x06a77a2a, 0xfe9c8558, 0xc87ea4f6, 0xc6d40f11);
    Move(0x900ec41f, 17 * 257 * 65537, 4 * 17 * 257 * 65537, 0x11da10b7, 0xc6d40f11);
  }
}
