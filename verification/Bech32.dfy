/** Harmony's one1... form of an address (`to_one1` and `from_one1` in airdrop/tools/common.py). */
module Bech32 {
  import opened Bytes
  import opened Bech32Checksum
  import opened Lists
  import opened Options

  // ----- 5-bit digits

  /** The number a list of symbols writes, most significant first. */
  function Value(ds: seq<Symbol>): nat
  {
    if ds == [] then 0 else Value(ds[..|ds| - 1]) * 32 + (ds[|ds| - 1] as nat)
  }

  function Digits(v: nat, n: nat): (ds: seq<Symbol>)
    ensures |ds| == n
  {
    if n == 0 then [] else Digits(v / 32, n - 1) + [(v % 32) as bv5]
  }

  lemma DigitIs(v: nat)
    ensures ((v % 32) as bv5) as nat == v % 32
  {
  }

  lemma SymbolSmall(d: Symbol)
    ensures (d as nat) < 32 && ((d as nat) as bv5) == d
  {
  }

  lemma {:induction false} ValueOfDigits(v: nat, n: nat)
    requires v < P2(5 * n)
    ensures Value(Digits(v, n)) == v
  {
    if n > 0 {
      P2Sum(5, 5 * (n - 1));
      FiveBits();
      ValueOfDigits(v / 32, n - 1);
      DigitIs(v);
      assert Digits(v, n)[..n - 1] == Digits(v / 32, n - 1);
    }
  }

  lemma FiveBits()
    ensures P2(5) == 32 && P2(8) == 256
  {
  }

  lemma {:induction false} DigitsOfValue(ds: seq<Symbol>)
    ensures Value(ds) < P2(5 * |ds|) && Digits(Value(ds), |ds|) == ds
  {
    if ds != [] {
      var n, front, last := |ds|, ds[..|ds| - 1], ds[|ds| - 1];
      P2Sum(5, 5 * (n - 1));
      FiveBits();
      DigitsOfValue(front);
      SymbolSmall(last);
      assert Value(ds) / 32 == Value(front) && Value(ds) % 32 == last as nat;
      assert ds == front + [last];
    }
  }

  lemma {:induction false} BytesBound(b: Bytes)
    ensures FromBytes(b) < P2(8 * |b|)
  {
    if b != [] {
      var n := |b|;
      BytesBound(b[..n - 1]);
      P2Sum(8, 8 * (n - 1));
      FiveBits();
    }
  }

  lemma {:induction false} Pow256IsP2(n: nat)
    ensures Pow256(n) == P2(8 * n)
  {
    if n > 0 {
      Pow256IsP2(n - 1);
      P2Sum(8, 8 * (n - 1));
      FiveBits();
    }
  }

  // ----- regrouping bits

  lemma {:induction false} DivideOnce(acc: nat, bits: nat, k: nat)
    ensures acc / P2(bits) / P2(k) == acc / P2(bits + k)
  {
    if k > 0 {
      DivideOnce(acc, bits, k - 1);
      HalfDiv(acc / P2(bits), P2(k - 1));
      HalfDiv(acc, P2(bits + k - 1));
    }
  }

  lemma HalfDiv(a: nat, m: nat)
    requires m > 0
    ensures a / m / 2 == a / (2 * m)
  {
    var q := a / m;
    var r := q / 2;
    assert a == m * q + a % m;
    if q == 2 * r {
      assert m * q == (2 * m) * r;
      QuotientIs(a, 2 * m, r, a % m);
    } else {
      assert q == 2 * r + 1;
      assert m * q == (2 * m) * r + m;
      QuotientIs(a, 2 * m, r, m + a % m);
    }
  }

  /** Taking the next `k` bits off an accumulator. */
  lemma TakeBits(acc: nat, bits: nat, k: nat)
    ensures acc / P2(bits) == acc / P2(bits + k) * P2(k) + acc / P2(bits) % P2(k)
  {
    DivideOnce(acc, bits, k);
  }

  /** Appending a digit of `k` bits to an accumulator leaves what is above it alone. */
  lemma PutBits(acc: nat, bits: nat, k: nat, d: nat)
    requires d < P2(k)
    ensures (acc * P2(k) + d) / P2(bits + k) == acc / P2(bits)
  {
    DivideOnce(acc * P2(k) + d, k, bits);
    QuotientIs(acc * P2(k) + d, P2(k), acc, d);
  }

  /** The next five bits of the accumulator, written after the symbols so far. */
  lemma NextSymbol(data: seq<Symbol>, acc: nat, bits: nat)
    requires Value(data) == acc / P2(bits + 5)
    ensures Value(data + [(acc / P2(bits) % 32) as bv5]) == acc / P2(bits)
  {
    FiveBits();
    hide P2;
    TakeBits(acc, bits, 5);
    DigitIs(acc / P2(bits));
    var more := data + [(acc / P2(bits) % 32) as bv5];
    assert more[..|more| - 1] == data;
  }

  /** The bits left over, filled up with zeros. */
  lemma LastSymbol(data: seq<Symbol>, acc: nat, bits: nat)
    requires 0 < bits < 5 && Value(data) == acc / P2(bits)
    ensures Value(data + [(acc * P2(5 - bits) % 32) as bv5]) == acc * P2(5 - bits)
  {
    hide P2;
    Pad(acc, bits);
    DigitIs(acc * P2(5 - bits));
    var more := data + [(acc * P2(5 - bits) % 32) as bv5];
    assert more[..|more| - 1] == data;
  }

  lemma NextByte(a: Bytes, i: nat)
    requires i < |a|
    ensures FromBytes(a[..i + 1]) == FromBytes(a[..i]) * 256 + a[i]
  {
    assert a[..i + 1][..i] == a[..i];
  }

  lemma NothingRead()
    ensures FromBytes([]) == 0 && Value([]) == 0
  {
  }

  lemma POne()
    ensures P2(0) == 1
  {
  }

  /** The loop of `to_one1` over the bytes. */
  method ToSymbols(a: Bytes) returns (data: seq<Symbol>)
    ensures exists pad: nat :: pad < 5 && 5 * |data| == 8 * |a| + pad && Value(data) == FromBytes(a) * P2(pad)
  {
    hide P2, FromBytes, Value;
    FiveBits();
    POne();
    NothingRead();
    data := [];
    var acc: nat, bits: nat, i := 0, 0, 0;
    assert a[..0] == [];
    while i < |a|
      invariant i <= |a| && bits < 5 && 5 * |data| + bits == 8 * i
      invariant acc == FromBytes(a[..i]) && Value(data) == acc / P2(bits)
    {
      PutBits(acc, bits, 8, a[i]);
      NextByte(a, i);
      acc, bits, i := acc * 256 + a[i], bits + 8, i + 1;
      while bits >= 5
        invariant 5 * |data| + bits == 8 * i && Value(data) == acc / P2(bits)
      {
        bits := bits - 5;
        NextSymbol(data, acc, bits);
        data := data + [(acc / P2(bits) % 32) as bv5];
      }
    }
    assert a[..i] == a;
    ghost var pad := 0;
    if bits > 0 {
      LastSymbol(data, acc, bits);
      data := data + [(acc * P2(5 - bits) % 32) as bv5];
      pad := 5 - bits;
    }
    assert pad < 5 && 5 * |data| == 8 * |a| + pad && Value(data) == FromBytes(a) * P2(pad);
  }

  lemma Pad(acc: nat, bits: nat)
    requires 0 < bits < 5
    ensures acc / P2(bits) * 32 + acc * P2(5 - bits) % 32 == acc * P2(5 - bits)
  {
    FiveBits();
    POne();
    var x := acc * P2(5 - bits);
    DivideOnce(x, 5 - bits, bits);
    QuotientIs(x, P2(5 - bits), acc, 0);
  }

  /** The loop of `from_one1` over the symbols. */
  method ToOctets(data: seq<Symbol>) returns (out: Bytes)
    ensures |out| == 5 * |data| / 8 && FromBytes(out) == Value(data) / P2(5 * |data| % 8)
  {
    hide P2;
    FiveBits();
    POne();
    out := [];
    var acc: nat, bits: nat, i := 0, 0, 0;
    while i < |data|
      invariant i <= |data| && bits < 8 && 8 * |out| + bits == 5 * i
      invariant acc == Value(data[..i]) && FromBytes(out) == acc / P2(bits)
    {
      SymbolSmall(data[i]);
      PutBits(acc, bits, 5, data[i] as nat);
      assert data[..i + 1][..i] == data[..i];
      acc, bits, i := acc * 32 + data[i] as nat, bits + 5, i + 1;
      while bits >= 8
        invariant 8 * |out| + bits == 5 * i && FromBytes(out) == acc / P2(bits)
      {
        bits := bits - 8;
        TakeBits(acc, bits, 8);
        ghost var was := out;
        out := out + [acc / P2(bits) % 256];
        assert out[..|out| - 1] == was;
      }
    }
    assert data[..i] == data;
  }

  // ----- characters

  const CHARSET: string := "qpzry9x8gf2tvdw0s3jn54khce6mua7l"

  lemma CharsetDistinct()
    ensures |CHARSET| == 32 && forall i, j :: 0 <= i < j < 32 ==> CHARSET[i] != CHARSET[j]
  {
  }

  function CharOf(d: Symbol): char
  {
    CharsetDistinct();
    SymbolSmall(d);
    CHARSET[d as nat]
  }

  /** `_BECH32_CHARSET.index`. */
  function SymbolOf(c: char): (r: Option<Symbol>)
    ensures r.Some? ==> CharOf(r.value) == c
    ensures r.None? ==> c !in CHARSET
  {
    IndexFrom(c, 0)
  }

  function IndexFrom(c: char, i: nat): (r: Option<Symbol>)
    requires i <= 32 && forall k :: 0 <= k < i ==> CHARSET[k] != c
    ensures r.Some? ==> CharOf(r.value) == c
    ensures r.None? ==> c !in CHARSET
    decreases 32 - i
  {
    CharsetDistinct();
    if i == 32 then None
    else if CHARSET[i] == c then
      SmallSymbol(i);
      Some(i as bv5)
    else IndexFrom(c, i + 1)
  }

  lemma SmallSymbol(i: nat)
    requires i < 32
    ensures (i as bv5) as nat == i
  {
  }

  lemma CharOfInjective(d: Symbol, e: Symbol)
    requires CharOf(d) == CharOf(e)
    ensures d == e
  {
    CharsetDistinct();
    SymbolSmall(d);
    SymbolSmall(e);
  }

  lemma SymbolOfChar(d: Symbol)
    ensures SymbolOf(CharOf(d)) == Some(d)
  {
    CharsetDistinct();
    SymbolSmall(d);
    var r := SymbolOf(CharOf(d));
    assert CHARSET[d as nat] in CHARSET;
    CharOfInjective(r.value, d);
  }

  function Chars(ds: seq<Symbol>): (t: string)
    ensures |t| == |ds|
  {
    if ds == [] then "" else [CharOf(ds[0])] + Chars(ds[1..])
  }

  function Symbols(t: string): (r: Option<seq<Symbol>>)
    ensures r.Some? ==> |r.value| == |t|
  {
    if t == "" then Some([])
    else
      match (SymbolOf(t[0]), Symbols(t[1..]))
      case (Some(d), Some(rest)) => Some([d] + rest)
      case _ => None
  }

  lemma {:induction false} SymbolsIff(t: string, ds: seq<Symbol>)
    ensures Symbols(t) == Some(ds) <==> t == Chars(ds)
  {
    hide SymbolOf, CharOf;
    if |t| == |ds| && t != "" {
      var rest := ds[1..];
      SymbolsIff(t[1..], rest);
      SymbolOfChar(ds[0]);
      if t == Chars(ds) {
        assert t[1..] == Chars(rest);
        assert [ds[0]] + rest == ds;
      }
      if Symbols(t) == Some(ds) {
        assert SymbolOf(t[0]) == Some(ds[0]) && Symbols(t[1..]) == Some(rest);
        assert t == [t[0]] + t[1..];
      }
    }
  }

  /** In how many places two texts of the same length differ. */
  function Differences(t: string, u: string): nat
    requires |t| == |u|
  {
    if t == "" then 0 else (if t[0] == u[0] then 0 else 1) + Differences(t[1..], u[1..])
  }

  lemma {:induction false} CharsDiffer(u: seq<Symbol>, v: seq<Symbol>)
    requires |u| == |v|
    ensures Differences(Chars(u), Chars(v)) == Distance(u, v)
  {
    hide CharOf;
    if u != [] {
      CharsDiffer(u[1..], v[1..]);
      assert Chars(u)[1..] == Chars(u[1..]) && Chars(v)[1..] == Chars(v[1..]);
      if CharOf(u[0]) == CharOf(v[0]) {
        CharOfInjective(u[0], v[0]);
      }
    }
  }

  lemma {:induction false} DifferencesConcat(p: string, t: string, u: string)
    requires |t| == |u|
    ensures Differences(p + t, p + u) == Differences(t, u)
  {
    if p == "" {
      assert p + t == t && p + u == u;
    } else {
      DifferencesConcat(p[1..], t, u);
      assert (p + t)[1..] == p[1..] + t && (p + u)[1..] == p[1..] + u;
    }
  }

  // ----- addresses

  predicate Ascii(hrp: string) { forall i :: 0 <= i < |hrp| ==> (hrp[i] as int) < 128 }

  function High(hrp: string): seq<Symbol>
    requires Ascii(hrp)
  {
    if hrp == "" then [] else [((hrp[0] as int) / 32) as bv5] + High(hrp[1..])
  }

  function LowBits(hrp: string): seq<Symbol>
  {
    if hrp == "" then [] else [((hrp[0] as int) % 32) as bv5] + LowBits(hrp[1..])
  }

  function Expanded(hrp: string): seq<Symbol>
    requires Ascii(hrp)
  {
    High(hrp) + [0] + LowBits(hrp)
  }

  function Checksum(hrp: string, data: seq<Symbol>): (r: seq<Symbol>)
    requires Ascii(hrp)
    ensures |r| == 6
  {
    Tail(Add(Fold(1, Expanded(hrp) + data + Zeros6()), 1))
  }

  /** The text of an address, by its number: 32 digits in base 32, then the checksum. */
  function Encode(hrp: string, a: Bytes): string
    requires Ascii(hrp) && |a| == 20
  {
    var data := Digits(FromBytes(a), 32);
    hrp + "1" + Chars(data + Checksum(hrp, data))
  }

  /** The address a text stands for. */
  function Decode(hrp: string, text: string): Option<Bytes>
    requires Ascii(hrp)
  {
    var n := |hrp| + 1;
    if |text| < n || text[..n] != hrp + "1" then None
    else
      match Symbols(text[n..])
      case None => None
      case Some(data) =>
        if |data| != 38 || Fold(1, Expanded(hrp) + data) != 1 then None
        else
          OctetsFit(data[..32]);
          Some(ToBytes(Value(data[..32]), 20))
  }

  lemma OctetsFit(ds: seq<Symbol>)
    requires |ds| == 32
    ensures Value(ds) < Pow256(20)
  {
    DigitsOfValue(ds);
    Pow256IsP2(20);
    assert 5 * |ds| == 8 * 20;
  }

  /** With 38 symbols whose first 32 are `data`, the checksum holds exactly when the last six are the ones written. */
  lemma ChecksumIff(hrp: string, data: seq<Symbol>, tail: seq<Symbol>)
    requires Ascii(hrp) && |tail| == 6
    ensures Fold(1, Expanded(hrp) + (data + tail)) == 1 <==> tail == Checksum(hrp, data)
  {
    hide Fold, Tail, Add, Zeros6, Expanded;
    var before := Expanded(hrp) + data;
    Associative(Expanded(hrp), data, tail);
    FoldConcat(1, before, tail);
    FoldConcat(1, before, Zeros6());
    TailIsUnique(Fold(1, before), tail);
  }

  /** Reading undoes writing, and only what is written is read: `from_one1` accepts a text exactly when it is the form
      `to_one1` gives to the 20-byte address it returns. */
  lemma DecodeIff(hrp: string, text: string, a: Bytes)
    requires Ascii(hrp)
    ensures Decode(hrp, text) == Some(a) <==> |a| == 20 && text == Encode(hrp, a)
  {
    hide Fold, Expanded, Checksum, Chars, Symbols, Digits, Value, FromBytes, ToBytes, Pow256;
    var n := |hrp| + 1;
    if Decode(hrp, text) == Some(a) {
      var data := Symbols(text[n..]).value;
      SymbolsIff(text[n..], data);
      Halves(data);
      ChecksumIff(hrp, data[..32], data[32..]);
      DigitsOfValue(data[..32]);
      OctetsFit(data[..32]);
      assert text == text[..n] + text[n..];
    }
    if |a| == 20 && text == Encode(hrp, a) {
      var data := Digits(FromBytes(a), 32);
      var all := data + Checksum(hrp, data);
      assert text[..n] == hrp + "1" && text[n..] == Chars(all);
      SymbolsIff(text[n..], all);
      ChecksumIff(hrp, data, Checksum(hrp, data));
      assert all[..32] == data;
      AddressDigits(a);
    }
  }

  lemma Halves(data: seq<Symbol>)
    requires |data| == 38
    ensures data == data[..32] + data[32..] && |data[32..]| == 6
  {
  }

  lemma AddressDigits(a: Bytes)
    requires |a| == 20
    ensures Value(Digits(FromBytes(a), 32)) == FromBytes(a) && FromBytes(a) < Pow256(20) && ToBytes(FromBytes(a), 20) == a
  {
    hide P2, Digits, Value;
    ToFromBytes(a);
    BytesBound(a);
    assert 8 * |a| == 5 * 32;
    ValueOfDigits(FromBytes(a), 32);
  }

  /** Mistyping one or two characters of a valid address never gives a valid one. */
  lemma TyposRejected(hrp: string, text: string, other: string)
    requires Ascii(hrp) && Decode(hrp, text).Some? && |other| == |text| && 1 <= Differences(text, other) <= 2
    ensures Decode(hrp, other).None?
  {
    hide Fold, Expanded, Chars, Symbols, Value, ToBytes, Pow256, Distance;
    if Decode(hrp, other).Some? {
      var n := |hrp| + 1;
      var u, v := Symbols(text[n..]).value, Symbols(other[n..]).value;
      SymbolsIff(text[n..], u);
      SymbolsIff(other[n..], v);
      CharsDiffer(u, v);
      DifferencesConcat(text[..n], text[n..], other[n..]);
      assert text == text[..n] + text[n..] && other == text[..n] + other[n..];
      FoldConcat(1, Expanded(hrp), u);
      FoldConcat(1, Expanded(hrp), v);
      WordsFarApart(Fold(1, Expanded(hrp)), u, v);
      NoDifferences(text);
    }
  }

  lemma {:induction false} NoDifferences(t: string)
    ensures Differences(t, t) == 0
  {
    if t != "" {
      NoDifferences(t[1..]);
    }
  }

  lemma {:induction false} DistanceConcat(u: seq<Symbol>, u': seq<Symbol>, v: seq<Symbol>, v': seq<Symbol>)
    requires |u| == |u'| && |v| == |v'|
    ensures Distance(u + v, u' + v') == Distance(u, u') + Distance(v, v')
  {
    if u == [] {
      assert u + v == v && u' + v' == v';
    } else {
      DistanceConcat(u[1..], u'[1..], v, v');
      assert (u + v)[1..] == u[1..] + v && (u' + v')[1..] == u'[1..] + v';
    }
  }

  lemma {:induction false} SameDistance(u: seq<Symbol>)
    ensures Distance(u, u) == 0
  {
    if u != [] {
      SameDistance(u[1..]);
    }
  }

  /** One character of a prefix is two symbols of its expansion. */
  lemma {:induction false} PrefixDistance(p: string, q: string)
    requires Ascii(p) && Ascii(q) && |p| == |q|
    ensures |High(p)| == |High(q)| == |LowBits(p)| == |LowBits(q)| == |p|
    ensures Distance(High(p), High(q)) <= Differences(p, q) && Distance(LowBits(p), LowBits(q)) <= Differences(p, q)
    ensures Differences(p, q) <= Distance(High(p), High(q)) + Distance(LowBits(p), LowBits(q))
  {
    if p != "" {
      var a, b := p[0] as int, q[0] as int;
      assert a == a / 32 * 32 + a % 32 && b == b / 32 * 32 + b % 32;
      PrefixDistance(p[1..], q[1..]);
      FirstSymbols(p);
      FirstSymbols(q);
      SymbolCast(a / 32, b / 32);
      SymbolCast(a % 32, b % 32);
    }
  }

  lemma FirstSymbols(p: string)
    requires p != "" && Ascii(p)
    ensures High(p)[0] == ((p[0] as int) / 32) as bv5 && High(p)[1..] == High(p[1..])
    ensures LowBits(p)[0] == ((p[0] as int) % 32) as bv5 && LowBits(p)[1..] == LowBits(p[1..])
  {
  }

  lemma SymbolCast(x: int, y: int)
    requires 0 <= x < 32 && 0 <= y < 32
    ensures x as bv5 == y as bv5 <==> x == y
  {
    assert (x as bv5) as int == x && (y as bv5) as int == y;
  }

  /** Mistyping one character of the prefix does not give a valid address of another chain. */
  lemma PrefixMatters(hrp: string, other: string, rest: string)
    requires Ascii(hrp) && Ascii(other) && |hrp| == |other| <= 25 && Differences(hrp, other) == 1
    requires Decode(hrp, hrp + "1" + rest).Some?
    ensures Decode(other, other + "1" + rest).None?
  {
    hide Fold, High, LowBits, Symbols, Value, ToBytes, Pow256, Distance, Differences;
    var n := |hrp| + 1;
    var text, text' := hrp + "1" + rest, other + "1" + rest;
    assert text[..n] == hrp + "1" && text[n..] == rest && text'[n..] == rest;
    var data := Symbols(rest).value;
    PrefixDistance(hrp, other);
    var u, v := Expanded(hrp), Expanded(other);
    DistanceConcat(High(hrp) + [0], High(other) + [0], LowBits(hrp), LowBits(other));
    DistanceConcat(High(hrp), High(other), [0], [0]);
    DistanceConcat(u, v, data, data);
    SameDistance([0]);
    SameDistance(data);
    if Decode(other, text').Some? {
      WordsFarApart(1, u + data, v + data);
      SameDistance(u + data);
    }
  }

  // ----- the source's own loops meet this

  method ToOne1(hrp: string, a: Bytes) returns (text: string)
    requires Ascii(hrp) && |a| == 20
    ensures text == Encode(hrp, a)
  {
    hide Fold, Expanded, Chars, Digits, Value, FromBytes, P2, Tail, Zeros6, Add;
    var data := ToSymbols(a);
    WholeSymbols(a, data);
    var polymod := Polymod(Expanded(hrp) + data + Zeros6());
    var checksum := Tail(Add(polymod, 1));
    text := hrp + "1" + Chars(data + checksum);
  }

  lemma WholeSymbols(a: Bytes, data: seq<Symbol>)
    requires |a| == 20
    requires exists pad: nat :: pad < 5 && 5 * |data| == 8 * |a| + pad && Value(data) == FromBytes(a) * P2(pad)
    ensures data == Digits(FromBytes(a), 32)
  {
    POne();
    DigitsOfValue(data);
    hide P2, Digits, Value, FromBytes;
    var pad: nat :| pad < 5 && 5 * |data| == 8 * |a| + pad && Value(data) == FromBytes(a) * P2(pad);
    assert pad == 0 && |data| == 32;
  }

  method FromOne1(hrp: string, text: string) returns (r: Option<Bytes>)
    requires Ascii(hrp)
    ensures r == Decode(hrp, text)
  {
    hide Fold, Expanded, Symbols, Value, FromBytes, ToBytes, Pow256, P2;
    var n := |hrp| + 1;
    if |text| < n || text[..n] != hrp + "1" {
      return None;
    }
    var found := Symbols(text[n..]);
    if found.None? {
      return None;
    }
    var data := found.value;
    var polymod := Polymod(Expanded(hrp) + data);
    if |data| != 38 || polymod != 1 {
      return None;
    }
    var out := ToOctets(data[..32]);
    WholeOctets(data[..32], out);
    r := Some(out);
  }

  lemma WholeOctets(data: seq<Symbol>, out: Bytes)
    requires |data| == 32 && |out| == 5 * |data| / 8 && FromBytes(out) == Value(data) / P2(5 * |data| % 8)
    ensures Value(data) < Pow256(20) && out == ToBytes(Value(data), 20)
  {
    hide P2, Value, FromBytes, ToBytes, Pow256;
    var n := |out|;
    assert n == 20;
    POne();
    OctetsFit(data);
    ToFromBytes(out);
    assert ToBytes(FromBytes(out), n) == out;
  }
}
