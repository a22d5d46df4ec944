/** The Bech32 checksum (section "Bech32" of BIP 173) as `_bech32_polymod` in airdrop/tools/common.py computes it. */
module Bech32Checksum {

  /** The running checksum: six 5-bit symbols. */
  type Check = bv30

  type Symbol = bv5

  function Feed(top: bv5): Check
  {
    (if top & 1 == 1 then 0x3B6A57B2 else 0)
    ^ (if top & 2 == 2 then 0x26508E6D else 0)
    ^ (if top & 4 == 4 then 0x1EA119FA else 0)
    ^ (if top & 8 == 8 then 0x3D4233DD else 0)
    ^ (if top & 16 == 16 then 0x2A1462B3 else 0)
  }

  function Top(c: Check): bv5 { (c >> 25) as bv5 }

  function Shift(c: Check, v: Symbol, f: Check): Check { (c << 5) ^ (v as bv30) ^ f }

  function Step(c: Check, v: Symbol): Check { Shift(c, v, Feed(Top(c))) }

  /** The checksum after `vs`, starting from `c`. */
  function Fold(c: Check, vs: seq<Symbol>): Check
    decreases |vs|
  {
    if vs == [] then c else Fold(Step(c, vs[0]), vs[1..])
  }

  method Polymod(values: seq<Symbol>) returns (chk: Check)
    ensures chk == Fold(1, values)
  {
    hide Step;
    chk := 1;
    var i := 0;
    assert values[0..] == values;
    while i < |values|
      invariant i <= |values|
      invariant Fold(chk, values[i..]) == Fold(1, values)
    {
      assert values[i..][1..] == values[i + 1..];
      chk := Step(chk, values[i]);
      i := i + 1;
    }
  }

  // ----- linearity

  function Add(a: Check, b: Check): Check { a ^ b }

  function AddSymbol(u: Symbol, v: Symbol): Symbol { u ^ v }

  lemma BitXor(x: bv5, y: bv5, m: bv5)
    requires m == 1 || m == 2 || m == 4 || m == 8 || m == 16
    ensures (x ^ y) & m == m <==> ((x & m == m) != (y & m == m))
  {
  }

  lemma FeedLinear(x: bv5, y: bv5)
    ensures Feed(x ^ y) == Feed(x) ^ Feed(y)
  {
    BitXor(x, y, 1);
    BitXor(x, y, 2);
    BitXor(x, y, 4);
    BitXor(x, y, 8);
    BitXor(x, y, 16);
  }

  lemma TopLinear(a: Check, b: Check)
    ensures Top(a ^ b) == Top(a) ^ Top(b)
  {
  }

  lemma ShiftBits(a: Check, b: Check, u: Symbol, v: Symbol, f: Check, g: Check)
    ensures ((a ^ b) << 5) ^ ((u ^ v) as bv30) ^ (f ^ g) == ((a << 5) ^ (u as bv30) ^ f) ^ ((b << 5) ^ (v as bv30) ^ g)
  {
  }

  lemma ShiftLinear(a: Check, b: Check, u: Symbol, v: Symbol, f: Check, g: Check)
    ensures Shift(a ^ b, u ^ v, f ^ g) == Shift(a, u, f) ^ Shift(b, v, g)
  {
    ShiftBits(a, b, u, v, f, g);
  }

  /** One step is linear over exclusive or. */
  lemma StepLinear(a: Check, b: Check, u: Symbol, v: Symbol)
    ensures Step(Add(a, b), AddSymbol(u, v)) == Add(Step(a, u), Step(b, v))
  {
    hide Feed, Shift, Top;
    TopLinear(a, b);
    FeedLinear(Top(a), Top(b));
    ShiftLinear(a, b, u, v, Feed(Top(a)), Feed(Top(b)));
  }

  function Xor(u: seq<Symbol>, v: seq<Symbol>): (r: seq<Symbol>)
    requires |u| == |v|
    ensures |r| == |u|
  {
    if u == [] then [] else [AddSymbol(u[0], v[0])] + Xor(u[1..], v[1..])
  }

  lemma XorStep(u: seq<Symbol>, v: seq<Symbol>)
    requires |u| == |v| && u != []
    ensures Xor(u, v)[0] == AddSymbol(u[0], v[0]) && Xor(u, v)[1..] == Xor(u[1..], v[1..])
  {
  }

  lemma FoldStep(c: Check, vs: seq<Symbol>)
    requires vs != []
    ensures Fold(c, vs) == Fold(Step(c, vs[0]), vs[1..])
  {
  }

  /** So is the whole checksum. */
  lemma {:induction false} FoldLinear(a: Check, b: Check, u: seq<Symbol>, v: seq<Symbol>)
    requires |u| == |v|
    ensures Fold(Add(a, b), Xor(u, v)) == Add(Fold(a, u), Fold(b, v))
    decreases |u|
  {
    hide Step, Add, AddSymbol;
    if u != [] {
      XorStep(u, v);
      FoldStep(Add(a, b), Xor(u, v));
      FoldStep(a, u);
      FoldStep(b, v);
      hide Fold, Xor;
      StepLinear(a, b, u[0], v[0]);
      FoldLinear(Step(a, u[0]), Step(b, v[0]), u[1..], v[1..]);
    }
  }

  lemma {:induction false} FoldConcat(c: Check, u: seq<Symbol>, v: seq<Symbol>)
    ensures Fold(c, u + v) == Fold(Fold(c, u), v)
    decreases |u|
  {
    hide Step;
    if u == [] {
      assert u + v == v;
    } else {
      FoldConcat(Step(c, u[0]), u[1..], v);
      assert (u + v)[1..] == u[1..] + v;
    }
  }

  // ----- the six checksum symbols

  function Pick(p: Check, i: nat): Symbol
    requires i < 6
  {
    match i
    case 0 => (p >> 25) as bv5
    case 1 => ((p >> 20) & 31) as bv5
    case 2 => ((p >> 15) & 31) as bv5
    case 3 => ((p >> 10) & 31) as bv5
    case 4 => ((p >> 5) & 31) as bv5
    case _ => (p & 31) as bv5
  }

  function Tail(p: Check): seq<Symbol>
  {
    [Pick(p, 0), Pick(p, 1), Pick(p, 2), Pick(p, 3), Pick(p, 4), Pick(p, 5)]
  }

  function Zeros6(): seq<Symbol> { [0, 0, 0, 0, 0, 0] }

  function Assemble(a: Symbol, b: Symbol, c: Symbol, d: Symbol, e: Symbol, f: Symbol): Check
  {
    ((a as bv30) << 25) | ((b as bv30) << 20) | ((c as bv30) << 15) | ((d as bv30) << 10) | ((e as bv30) << 5) | (f as bv30)
  }

  /** From zero, six symbols are taken in without feedback. */
  lemma SixSteps(a: Symbol, b: Symbol, c: Symbol, d: Symbol, e: Symbol, f: Symbol)
    ensures Step(Step(Step(Step(Step(Step(0, a), b), c), d), e), f)
         == Assemble(a, b, c, d, e, f)
  {
  }

  lemma PickBits(p: Check)
    ensures ((((p >> 25) as bv5) as bv30) << 25) | (((((p >> 20) & 31) as bv5) as bv30) << 20)
          | (((((p >> 15) & 31) as bv5) as bv30) << 15) | (((((p >> 10) & 31) as bv5) as bv30) << 10)
          | (((((p >> 5) & 31) as bv5) as bv30) << 5) | (((p & 31) as bv5) as bv30) == p
  {
  }

  function Six(s: seq<Symbol>): Check
    requires |s| == 6
  {
    Step(Step(Step(Step(Step(Step(0, s[0]), s[1]), s[2]), s[3]), s[4]), s[5])
  }

  lemma FoldSix(s: seq<Symbol>)
    requires |s| == 6
    ensures Fold(0, s) == Six(s)
  {
    hide Step;
    var s1, s2, s3, s4, s5 := s[1..], s[2..], s[3..], s[4..], s[5..];
    assert s1[1..] == s2 && s2[1..] == s3 && s3[1..] == s4 && s4[1..] == s5 && s5[1..] == [];
    var c1 := Step(0, s[0]);
    var c2 := Step(c1, s[1]);
    var c3 := Step(c2, s[2]);
    var c4 := Step(c3, s[3]);
    var c5 := Step(c4, s[4]);
    assert Fold(c3, s3) == Fold(c4, s4) == Fold(c5, s5) == Six(s);
    assert Fold(0, s) == Fold(c1, s1) == Fold(c2, s2) == Fold(c3, s3);
  }

  lemma SixOfTail(p: Check)
    ensures Six(Tail(p)) == p
  {
    SixSteps(Pick(p, 0), Pick(p, 1), Pick(p, 2), Pick(p, 3), Pick(p, 4), Pick(p, 5));
    PickBits(p);
    hide Step;
  }

  lemma SixInjective(s: seq<Symbol>, t: seq<Symbol>)
    requires |s| == |t| == 6 && Six(s) == Six(t)
    ensures s == t
  {
    SixSteps(s[0], s[1], s[2], s[3], s[4], s[5]);
    SixSteps(t[0], t[1], t[2], t[3], t[4], t[5]);
    hide Step, Assemble;
    SixBits(s[0], s[1], s[2], s[3], s[4], s[5], t[0], t[1], t[2], t[3], t[4], t[5]);
  }

  lemma SixBits(a: Symbol, b: Symbol, c: Symbol, d: Symbol, e: Symbol, f: Symbol,
                p: Symbol, q: Symbol, r: Symbol, s: Symbol, t: Symbol, u: Symbol)
    requires Assemble(a, b, c, d, e, f) == Assemble(p, q, r, s, t, u)
    ensures a == p && b == q && c == r && d == s && e == t && f == u
  {
  }

  lemma AddZero(a: Check)
    ensures Add(a, 0) == a == Add(0, a) && Add(a, a) == 0
  {
  }

  lemma AddCancels(a: Check, b: Check)
    requires Add(a, b) == 1
    ensures b == Add(a, 1)
  {
  }

  lemma AddOne(a: Check)
    ensures Add(a, Add(a, 1)) == 1
  {
  }

  lemma XorZeros(s: seq<Symbol>)
    requires |s| == 6
    ensures Xor(Zeros6(), s) == s
  {
    XorZerosFrom(s, 0);
    assert s[0..] == s && Zeros6()[0..] == Zeros6();
  }

  lemma {:induction false} XorZerosFrom(s: seq<Symbol>, i: nat)
    requires |s| == 6 && i <= 6
    ensures Xor(Zeros6()[i..], s[i..]) == s[i..]
    decreases 6 - i
  {
    if i < 6 {
      XorZerosFrom(s, i + 1);
      assert Zeros6()[i..][1..] == Zeros6()[i + 1..] && s[i..][1..] == s[i + 1..];
      SymbolZero(s[i]);
      assert s[i..] == [s[i]] + s[i + 1..];
    }
  }

  lemma SymbolZero(v: Symbol)
    ensures AddSymbol(0, v) == v && AddSymbol(v, v) == 0
  {
  }

  /** After any symbols, exactly one choice of the last six makes the checksum 1: the one `to_one1` computes. */
  lemma TailIsUnique(c: Check, s: seq<Symbol>)
    requires |s| == 6
    ensures Fold(c, s) == 1 <==> s == Tail(Add(Fold(c, Zeros6()), 1))
  {
    var p := Fold(c, Zeros6());
    FoldLinear(c, 0, Zeros6(), s);
    XorZeros(s);
    FoldSix(s);
    AddZero(c);
    SixOfTail(Add(p, 1));
    hide Fold, Six, Tail, Add, Xor, Zeros6;
    assert Fold(c, s) == Add(p, Six(s));
    AddOne(p);
    if Fold(c, s) == 1 {
      AddCancels(p, Six(s));
      SixInjective(s, Tail(Add(p, 1)));
    }
  }

  // ----- errors in one or two symbols

  function Drift(c: Check): Check { Step(c, 0) }

  /** Multiplies each of the six symbols by the generator of GF(32), the field of BIP 173. */
  function Times(c: Check): Check { Add(Low(c), Carry(c)) }

  function Low(c: Check): Check { (c << 1) & 0x3DEF7BDE }

  function Carry(c: Check): Check { ((c & 0x21084210) >> 4) ^ ((c & 0x21084210) >> 1) }

  /** A nonzero checksum never drifts to zero. */
  lemma DriftKernel(c: Check)
    ensures Drift(c) == 0 ==> c == 0
  {
  }

  lemma LowLinear(a: Check, b: Check)
    ensures Low(Add(a, b)) == Add(Low(a), Low(b))
  {
  }

  lemma CarryBits(a: Check, b: Check)
    ensures (((a ^ b) & 0x21084210) >> 4) ^ (((a ^ b) & 0x21084210) >> 1)
         == (((a & 0x21084210) >> 4) ^ ((a & 0x21084210) >> 1)) ^ (((b & 0x21084210) >> 4) ^ ((b & 0x21084210) >> 1))
  {
  }

  lemma CarryLinear(a: Check, b: Check)
    ensures Carry(Add(a, b)) == Add(Carry(a), Carry(b))
  {
    CarryBits(a, b);
  }

  lemma AddAssociative(a: Check, b: Check, c: Check)
    ensures Add(Add(a, b), c) == Add(a, Add(b, c))
  {
  }

  lemma AddCommutes(a: Check, b: Check)
    ensures Add(a, b) == Add(b, a)
  {
  }

  lemma TimesFeed(x: bv5)
    ensures Times(Feed(x)) == Feed(Times(x as bv30) as bv5)
  {
    if x & 1 == 1 {
      if x & 2 == 2 {
        assert x & 3 == 3;
      } else {
        assert x & 3 == 1;
      }
    } else {
      if x & 2 == 2 {
        assert x & 3 == 2;
      } else {
        assert x & 3 == 0;
      }
    }
  }

  function Up(c: Check): Check { c << 5 }

  lemma LowShifted(c: Check)
    ensures Low(c << 5) == Low(c) << 5
  {
  }

  lemma UpShifts(c: Check)
    ensures Up(c) == c << 5
  {
  }

  lemma CarryUp(c: Check)
    ensures Carry(Up(c)) == Up(Carry(c))
  {
  }

  lemma AddUp(a: Check, b: Check)
    ensures Add(Up(a), Up(b)) == Up(Add(a, b))
  {
  }

  lemma TimesTop(c: Check)
    ensures Times(Top(c) as bv30) as bv5 == Top(Times(c))
  {
  }

  lemma ShiftNothing(c: Check, f: Check)
    ensures Shift(c, 0, f) == Add(Up(c), f)
  {
  }

  lemma DriftParts(c: Check)
    ensures Drift(c) == Add(Up(c), Feed(Top(c)))
  {
    hide Feed, Top, Shift, Add, Up;
    ShiftNothing(c, Feed(Top(c)));
  }

  /** Drifting commutes with multiplication by the generator. */
  lemma TimesDrift(c: Check)
    ensures Times(Drift(c)) == Drift(Times(c))
  {
    DriftParts(c);
    DriftParts(Times(c));
    hide Drift, Low, Carry, Feed, Add, Top, Up;
    // multiplication is linear
    var x, y := Up(c), Feed(Top(c));
    LowLinear(x, y);
    CarryLinear(x, y);
    AddAssociative(Low(x), Low(y), Add(Carry(x), Carry(y)));
    AddAssociative(Low(y), Carry(x), Carry(y));
    AddCommutes(Low(y), Carry(x));
    AddAssociative(Carry(x), Low(y), Carry(y));
    AddAssociative(Low(x), Carry(x), Add(Low(y), Carry(y)));
    // and commutes with the shift and with the feedback
    LowShifted(c);
    UpShifts(c);
    UpShifts(Low(c));
    CarryUp(c);
    AddUp(Low(c), Carry(c));
    TimesTop(c);
    TimesFeed(Top(c));
  }

  /** Multiplication keeps the five high symbols zero only where they were. */
  lemma TimesHigh(c: Check)
    requires c >= 32
    ensures Times(c) >= 32
  {
  }

  function Drifts(m: nat, c: Check): Check
  {
    if m == 0 then c else Drift(Drifts(m - 1, c))
  }

  /** In up to 88 steps, the longest word of BIP 173, `c` does not come back to a single symbol. */
  ghost predicate StaysHigh(c: Check)
  {
    forall m :: 1 <= m <= 88 ==> Drifts(m, c) >= 32
  }

  lemma Leap(m: nat, c: Check, d: Check)
    requires Drifts(m, 1) == c && Drift(c) == d && d >= 32
    ensures Drifts(m + 1, 1) == d && Drifts(m + 1, 1) >= 32
  {
  }

  /** The orbit of the symbol 1. */
  lemma OrbitStart()
    ensures Drifts(19, 1) == 0xA6E061 && forall m :: 1 <= m <= 19 ==> Drifts(m, 1) >= 32
  {
    assert Drifts(0, 1) == 1;
    hide Drifts;
    Leap(0, 0x1, 0x20); Leap(1, 0x20, 0x400); Leap(2, 0x400, 0x8000); Leap(3, 0x8000, 0x100000);
    Leap(4, 0x100000, 0x2000000); Leap(5, 0x2000000, 0x3B6A57B2); Leap(6, 0x3B6A57B2, 0x1FD7E966); Leap(7, 0x1FD7E966, 0x424DF38);
    Leap(8, 0x424DF38, 0x22CB696D); Leap(9, 0x22CB696D, 0x81318A1); Leap(10, 0x81318A1, 0x1CC20DDA); Leap(11, 0x1CC20DDA, 0x1DF21F0A);
    Leap(12, 0x1DF21F0A, 0x3BF0450A); Leap(13, 0x3BF0450A, 0xC95BE66); Leap(14, 0xC95BE66, 0x2A465B57); Leap(15, 0x2A465B57, 0x714461B);
    Leap(16, 0x714461B, 0x3FB21ABF); Leap(17, 0x3FB21ABF, 0x228EC6AB); Leap(18, 0x228EC6AB, 0xA6E061);
  }

  lemma OrbitOn()
    ensures Drifts(36, 1) == 0x18EFD0DE && forall m :: 1 <= m <= 36 ==> Drifts(m, 1) >= 32
  {
    hide Drifts;
    OrbitStart();
    Leap(19, 0xA6E061, 0x14DC0C20); Leap(20, 0x14DC0C20, 0x9339B0); Leap(21, 0x9339B0, 0x12673600); Leap(22, 0x12673600, 0xACEA46F);
    Leap(23, 0xACEA46F, 0x3C1FC3A8); Leap(24, 0x3C1FC3A8, 0x2C5FB3F9); Leap(25, 0x2C5FB3F9, 0x19138A04); Leap(26, 0x19138A04, 0x1926AA7);
    Leap(27, 0x1926AA7, 0x324D54E0); Leap(28, 0x324D54E0, 0x25969ADC); Leap(29, 0x25969ADC, 0x3E97B75E); Leap(30, 0x3E97B75E, 0x63B7A8B);
    Leap(31, 0x63B7A8B, 0x1A5588BF); Leap(32, 0x1A5588BF, 0x12386A75); Leap(33, 0x12386A75, 0x1252ACF); Leap(34, 0x1252ACF, 0x24A559E0);
    Leap(35, 0x24A559E0, 0x18EFD0DE);
  }

  lemma OrbitFurther()
    ensures Drifts(53, 1) == 0x22F41EB3 && forall m :: 1 <= m <= 53 ==> Drifts(m, 1) >= 32
  {
    hide Drifts;
    OrbitOn();
    Leap(36, 0x18EFD0DE, 0x3E1931E7); Leap(37, 0x3E1931E7, 0x17EBADAB); Leap(38, 0x17EBADAB, 0x1D0D5F62); Leap(39, 0x1D0D5F62, 0x2418480A);
    Leap(40, 0x2418480A, 0xF4DED9E); Leap(41, 0xF4DED9E, 0x2A2673E5); Leap(42, 0x2A2673E5, 0xB11505B); Leap(43, 0xB11505B, 0x7E14528);
    Leap(44, 0x7E14528, 0x21127CDF); Leap(45, 0x21127CDF, 0x85BF953); Leap(46, 0x85BF953, 0x15DE339A); Leap(47, 0x15DE339A, 0x20D4CEF0);
    Leap(48, 0x20D4CEF0, 0x308DBCB3); Leap(49, 0x308DBCB3, 0x6E1C70E); Leap(50, 0x6E1C70E, 0x102381F); Leap(51, 0x102381F, 0x204703E0);
    Leap(52, 0x204703E0, 0x22F41EB3);
  }

  lemma OrbitLate()
    ensures Drifts(70, 1) == 0x1FBFD2EF && forall m :: 1 <= m <= 70 ==> Drifts(m, 1) >= 32
  {
    hide Drifts;
    OrbitFurther();
    Leap(53, 0x22F41EB3, 0xFFDE361); Leap(54, 0xFFDE361, 0x3C27AC05); Leap(55, 0x3C27AC05, 0x2B524659); Leap(56, 0x2B524659, 0x2597E7DB);
    Leap(57, 0x2597E7DB, 0x3EB817BE); Leap(58, 0x3EB817BE, 0x3CF668B); Leap(59, 0x3CF668B, 0x28686D2); Leap(60, 0x28686D2, 0x2BBA8DF2);
    Leap(61, 0x2BBA8DF2, 0x388E92BB); Leap(62, 0x388E92BB, 0x18251FF4); Leap(63, 0x18251FF4, 0x2740D4A7); Leap(64, 0x2740D4A7, 0x1F342F8C);
    Leap(65, 0x1F342F8C, 0x185C0278); Leap(66, 0x185C0278, 0x28636527); Leap(67, 0x28636527, 0x38D9DFA9); Leap(68, 0x38D9DFA9, 0x12CCBDB4);
    Leap(69, 0x12CCBDB4, 0x1FBFD2EF);
  }

  lemma OneStaysHigh()
    ensures StaysHigh(1)
  {
    hide Drifts;
    OrbitLate();
    Leap(70, 0x1FBFD2EF, 0x923AE18); Leap(71, 0x923AE18, 0x3AD4DAFA); Leap(72, 0x3AD4DAFA, 0x28064066); Leap(73, 0x28064066, 0x347D7789);
    Leap(74, 0x347D7789, 0x3EA82E23); Leap(75, 0x3EA82E23, 0x1C8552B); Leap(76, 0x1C8552B, 0x390AA560); Leap(77, 0x390AA560, 0x28A3E494);
    Leap(78, 0x28A3E494, 0x20C9E9C9); Leap(79, 0x20C9E9C9, 0x33295B93); Leap(80, 0x33295B93, 0x91774BC); Leap(81, 0x91774BC, 0x3C4F8E7A);
    Leap(82, 0x3C4F8E7A, 0x265609B9); Leap(83, 0x265609B9, 0x3DEF8C4C); Leap(84, 0x3DEF8C4C, 0x12564F79); Leap(85, 0x12564F79, 0xCE18B4F);
    Leap(86, 0xCE18B4F, 0x24C0FE77); Leap(87, 0x24C0FE77, 0x145B223E);
  }

  lemma {:induction false} TimesDrifts(m: nat, c: Check)
    ensures Drifts(m, Times(c)) == Times(Drifts(m, c))
  {
    hide Drift, Times;
    if m > 0 {
      TimesDrifts(m - 1, c);
      TimesDrift(Drifts(m - 1, c));
    }
  }

  lemma Carries(c: Check, d: Check)
    requires StaysHigh(c) && Times(c) == d
    ensures StaysHigh(d)
  {
    hide Drifts, Times;
    forall m | 1 <= m <= 88 ensures Drifts(m, d) >= 32 {
      TimesDrifts(m, c);
      TimesHigh(Drifts(m, c));
    }
  }

  /** Every nonzero symbol is a power of the generator, so its orbit is high as well. */
  lemma SymbolsStayHigh(d: Check)
    requires 0 < d < 32
    ensures StaysHigh(d)
  {
    OneStaysHigh();
    hide StaysHigh;
    Carries(1, 2); Carries(2, 4); Carries(4, 8); Carries(8, 16); Carries(16, 9); Carries(9, 18);
    Carries(18, 13); Carries(13, 26); Carries(26, 29); Carries(29, 19); Carries(19, 15); Carries(15, 30);
    Carries(30, 21); Carries(21, 3); Carries(3, 6); Carries(6, 12); Carries(12, 24); Carries(24, 25);
    Carries(25, 27); Carries(27, 31); Carries(31, 23); Carries(23, 7); Carries(7, 14); Carries(14, 28);
    Carries(28, 17); Carries(17, 11); Carries(11, 22); Carries(22, 5); Carries(5, 10); Carries(10, 20);
  }

  /** How many symbols are not zero. */
  function Weight(e: seq<Symbol>): nat
  {
    if e == [] then 0 else (if e[0] == 0 then 0 else 1) + Weight(e[1..])
  }

  lemma {:induction false} QuietKeeps(c: Check, e: seq<Symbol>)
    requires c != 0 && Weight(e) == 0
    ensures Fold(c, e) != 0
    decreases |e|
  {
    hide Step;
    if e != [] {
      DriftKernel(c);
      assert Step(c, e[0]) == Drift(c);
      QuietKeeps(Step(c, e[0]), e[1..]);
    }
  }

  lemma Disturbed(c: Check, v: Symbol)
    requires Drift(c) >= 32
    ensures Step(c, v) != 0
  {
    hide Feed, Top;
    var f := Feed(Top(c));
    DisturbedBits(c, v, f);
  }

  lemma DisturbedBits(c: Check, v: Symbol, f: Check)
    requires (c << 5) ^ ((0 as bv5) as bv30) ^ f >= 32
    ensures (c << 5) ^ (v as bv30) ^ f != 0
  {
  }

  /** One more error cannot cancel a symbol that has drifted. */
  lemma {:induction false} OneErrorShows(d: Check, m: nat, e: seq<Symbol>)
    requires 0 < d < 32 && m + |e| <= 88 && Weight(e) <= 1
    ensures Fold(Drifts(m, d), e) != 0
    decreases |e|
  {
    hide Step;
    SymbolsStayHigh(d);
    var c := Drifts(m, d);
    if e == [] {
      assert m == 0 ==> c == d;
    } else if e[0] == 0 {
      assert Drifts(m + 1, d) == Drift(c);
      OneErrorShows(d, m + 1, e[1..]);
    } else {
      assert Drifts(m + 1, d) == Drift(c);
      Disturbed(c, e[0]);
      QuietKeeps(Step(c, e[0]), e[1..]);
    }
  }

  /** Errors in one or two symbols out of up to 89 always change the checksum. */
  lemma {:induction false} TwoErrorsShow(e: seq<Symbol>)
    requires 1 <= Weight(e) <= 2 && |e| <= 89
    ensures Fold(0, e) != 0
  {
    hide Step;
    FirstSymbol(e[0]);
    if e[0] == 0 {
      TwoErrorsShow(e[1..]);
    } else {
      OneErrorShows(Step(0, e[0]), 0, e[1..]);
    }
  }

  lemma FirstSymbol(v: Symbol)
    ensures Step(0, v) == v as bv30 && (v == 0 ==> Step(0, v) == 0) && (v != 0 ==> 0 < Step(0, v) < 32)
  {
  }

  function Distance(u: seq<Symbol>, v: seq<Symbol>): nat
    requires |u| == |v|
  {
    if u == [] then 0 else (if u[0] == v[0] then 0 else 1) + Distance(u[1..], v[1..])
  }

  lemma {:induction false} DistanceIsWeight(u: seq<Symbol>, v: seq<Symbol>)
    requires |u| == |v|
    ensures Weight(Xor(u, v)) == Distance(u, v)
  {
    if u != [] {
      DistanceIsWeight(u[1..], v[1..]);
      XorStep(u, v);
      SymbolDiffers(u[0], v[0]);
      hide AddSymbol;
    }
  }

  lemma SymbolDiffers(u: Symbol, v: Symbol)
    ensures AddSymbol(u, v) == 0 <==> u == v
  {
  }

  /** Two different words with the same checksum differ in at least three symbols. */
  lemma WordsFarApart(c: Check, u: seq<Symbol>, v: seq<Symbol>)
    requires |u| == |v| <= 89 && Fold(c, u) == Fold(c, v)
    ensures u == v || Distance(u, v) >= 3
  {
    hide Step;
    FoldLinear(c, c, u, v);
    AddZero(c);
    AddZero(Fold(c, u));
    DistanceIsWeight(u, v);
    if 1 <= Distance(u, v) <= 2 {
      TwoErrorsShow(Xor(u, v));
    } else if Distance(u, v) == 0 {
      NoDistance(u, v);
    }
  }

  lemma {:induction false} NoDistance(u: seq<Symbol>, v: seq<Symbol>)
    requires |u| == |v| && Distance(u, v) == 0
    ensures u == v
  {
    if u != [] {
      NoDistance(u[1..], v[1..]);
      assert u == [u[0]] + u[1..] && v == [v[0]] + v[1..];
    }
  }
}
