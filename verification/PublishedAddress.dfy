/** A published address: the first vault deployed by the airdrop (airdrop/vault/deployments-20261011T222022Z.csv). */
module PublishedAddress {
  import opened Bech32Checksum
  import opened Bech32
  import opened Options

  lemma One(c: Check, v: Symbol, rest: seq<Symbol>)
    ensures Fold(c, [v] + rest) == Fold(Step(c, v), rest)
    ensures Chars([v] + rest) == [CharOf(v)] + Chars(rest)
  {
    hide Step, CharOf;
    assert ([v] + rest)[0] == v && ([v] + rest)[1..] == rest;
  }

  /** `word` has the letters `text`, and leads the checksum from `c` to 1. */
  ghost predicate Reads(c: Check, word: seq<Symbol>, text: string)
  {
    Fold(c, word) == 1 && Chars(word) == text
  }

  lemma ReadsEnd()
    ensures Reads(1, [], "")
  {
  }

  lemma ReadsOne(c: Check, v: Symbol, letter: char, d: Check, rest: seq<Symbol>, text: string)
    requires Step(c, v) == d && CharOf(v) == letter && Reads(d, rest, text)
    ensures Reads(c, [v] + rest, [letter] + text)
  {
    hide Step, CharOf;
    One(c, v, rest);
  }

  lemma SomeLetters()
    ensures CharOf(3) == 'r' && CharOf(6) == 'x' && CharOf(7) == '8' && CharOf(9) == 'f' && CharOf(11) == 't' && CharOf(12) == 'v'
         && CharOf(13) == 'd' && CharOf(14) == 'w' && CharOf(15) == '0' && CharOf(16) == 's'
  {
  }

  lemma OtherLetters()
    ensures CharOf(19) == 'n' && CharOf(20) == '5' && CharOf(21) == '4' && CharOf(24) == 'c' && CharOf(25) == 'e' && CharOf(26) == '6'
         && CharOf(27) == 'm' && CharOf(28) == 'u' && CharOf(29) == 'a' && CharOf(30) == '7' && CharOf(31) == 'l'
  {
  }

  lemma Part1(rest: seq<Symbol>, text: string) returns (word: seq<Symbol>, letters: string)
    requires Reads(0x5BFE172, rest, text)
    ensures Reads(0x4DD0D7C, word, letters) && letters == "v0n7nw6c4f" + text
  {
    hide Reads, CharOf;
    SomeLetters();
    OtherLetters();
    word, letters := rest, text;
    ReadsOne(0x2A53066C, 9, 'f', 0x5BFE172, word, letters);
    word, letters := [9] + word, ['f'] + letters;
    ReadsOne(0x3C2FA604, 21, '4', 0x2A53066C, word, letters);
    word, letters := [21] + word, ['4'] + letters;
    ReadsOne(0x32809D06, 24, 'c', 0x3C2FA604, word, letters);
    word, letters := [24] + word, ['c'] + letters;
    ReadsOne(0x32F5E4DE, 26, '6', 0x32809D06, word, letters);
    word, letters := [26] + word, ['6'] + letters;
    ReadsOne(0x154F3ACB, 14, 'w', 0x32F5E4DE, word, letters);
    word, letters := [14] + word, ['w'] + letters;
    ReadsOne(0x1F5CB649, 19, 'n', 0x154F3ACB, word, letters);
    word, letters := [19] + word, ['n'] + letters;
    ReadsOne(0xD3D690E, 30, '7', 0x1F5CB649, word, letters);
    word, letters := [30] + word, ['7'] + letters;
    ReadsOne(0x1183FAD6, 19, 'n', 0xD3D690E, word, letters);
    word, letters := [19] + word, ['n'] + letters;
    ReadsOne(0x3DF121E1, 15, '0', 0x1183FAD6, word, letters);
    word, letters := [15] + word, ['0'] + letters;
    ReadsOne(0x4DD0D7C, 12, 'v', 0x3DF121E1, word, letters);
    word, letters := [12] + word, ['v'] + letters;
  }

  lemma Part2(rest: seq<Symbol>, text: string) returns (word: seq<Symbol>, letters: string)
    requires Reads(0x92ED9EB, rest, text)
    ensures Reads(0x5BFE172, word, letters) && letters == "e88xnuasr0" + text
  {
    hide Reads, CharOf;
    SomeLetters();
    OtherLetters();
    word, letters := rest, text;
    ReadsOne(0x2CDE5966, 15, '0', 0x92ED9EB, word, letters);
    word, letters := [15] + word, ['0'] + letters;
    ReadsOne(0xF7A2CCA, 3, 'r', 0x2CDE5966, word, letters);
    word, letters := [3] + word, ['r'] + letters;
    ReadsOne(0x88ED9A9, 16, 's', 0xF7A2CCA, word, letters);
    word, letters := [16] + word, ['s'] + letters;
    ReadsOne(0x380BCC89, 29, 'a', 0x88ED9A9, word, letters);
    word, letters := [29] + word, ['a'] + letters;
    ReadsOne(0x1B041588, 28, 'u', 0x380BCC89, word, letters);
    word, letters := [28] + word, ['u'] + letters;
    ReadsOne(0x2AA6D9CB, 19, 'n', 0x1B041588, word, letters);
    word, letters := [19] + word, ['n'] + letters;
    ReadsOne(0x467B2BD, 6, 'x', 0x2AA6D9CB, word, letters);
    word, letters := [6] + word, ['x'] + letters;
    ReadsOne(0x8D6355A, 7, '8', 0x467B2BD, word, letters);
    word, letters := [7] + word, ['8'] + letters;
    ReadsOne(0x11ACA034, 7, '8', 0x8D6355A, word, letters);
    word, letters := [7] + word, ['8'] + letters;
    ReadsOne(0x5BFE172, 25, 'e', 0x11ACA034, word, letters);
    word, letters := [25] + word, ['e'] + letters;
  }

  lemma Part3(rest: seq<Symbol>, text: string) returns (word: seq<Symbol>, letters: string)
    requires Reads(0x127FB6CA, rest, text)
    ensures Reads(0x92ED9EB, word, letters) && letters == "d65luult0" + text
  {
    hide Reads, CharOf;
    SomeLetters();
    OtherLetters();
    word, letters := rest, text;
    ReadsOne(0xE8F23B7, 15, '0', 0x127FB6CA, word, letters);
    word, letters := [15] + word, ['0'] + letters;
    ReadsOne(0x3315992B, 11, 't', 0xE8F23B7, word, letters);
    word, letters := [11] + word, ['t'] + letters;
    ReadsOne(0x39D7168D, 31, 'l', 0x3315992B, word, letters);
    word, letters := [31] + word, ['l'] + letters;
    ReadsOne(0x379DDCF1, 28, 'u', 0x39D7168D, word, letters);
    word, letters := [28] + word, ['u'] + letters;
    ReadsOne(0x48E6A94, 28, 'u', 0x379DDCF1, word, letters);
    word, letters := [28] + word, ['u'] + letters;
    ReadsOne(0x3E821FDE, 31, 'l', 0x48E6A94, word, letters);
    word, letters := [31] + word, ['l'] + letters;
    ReadsOne(0x1DD98DDC, 20, '5', 0x3E821FDE, word, letters);
    word, letters := [20] + word, ['5'] + letters;
    ReadsOne(0x3B7A2497, 26, '6', 0x1DD98DDC, word, letters);
    word, letters := [26] + word, ['6'] + letters;
    ReadsOne(0x92ED9EB, 13, 'd', 0x3B7A2497, word, letters);
    word, letters := [13] + word, ['d'] + letters;
  }

  lemma Part4(rest: seq<Symbol>, text: string) returns (word: seq<Symbol>, letters: string)
    requires Reads(0x1, rest, text)
    ensures Reads(0x127FB6CA, word, letters) && letters == "fvclvvxmf" + text
  {
    hide Reads, CharOf;
    SomeLetters();
    OtherLetters();
    word, letters := rest, text;
    ReadsOne(0xB2E5A72, 9, 'f', 0x1, word, letters);
    word, letters := [9] + word, ['f'] + letters;
    ReadsOne(0x29FCD909, 27, 'm', 0xB2E5A72, word, letters);
    word, letters := [27] + word, ['m'] + letters;
    ReadsOne(0x137EA5EB, 6, 'x', 0x29FCD909, word, letters);
    word, letters := [6] + word, ['x'] + letters;
    ReadsOne(0x1984EC7E, 12, 'v', 0x137EA5EB, word, letters);
    word, letters := [12] + word, ['v'] + letters;
    ReadsOne(0x31775DE, 12, 'v', 0x1984EC7E, word, letters);
    word, letters := [12] + word, ['v'] + letters;
    ReadsOne(0x22934A06, 31, 'l', 0x31775DE, word, letters);
    word, letters := [31] + word, ['l'] + letters;
    ReadsOne(0x2576BD36, 24, 'c', 0x22934A06, word, letters);
    word, letters := [24] + word, ['c'] + letters;
    ReadsOne(0x9DEBD26, 12, 'v', 0x2576BD36, word, letters);
    word, letters := [12] + word, ['v'] + letters;
    ReadsOne(0x127FB6CA, 9, 'f', 0x9DEBD26, word, letters);
    word, letters := [9] + word, ['f'] + letters;
  }

  lemma PrefixExpands()
    ensures Ascii("one") && Expanded("one") == [3] + ([3] + ([3] + ([0] + ([15] + ([14] + ([5] + []))))))
  {
    assert High("one") == [3] + High("ne") && High("ne") == [3] + High("e") && High("e") == [3] + High("");
    assert LowBits("one") == [15] + LowBits("ne") && LowBits("ne") == [14] + LowBits("e") && LowBits("e") == [5] + LowBits("");
  }

  /** The checksum after the prefix. */
  lemma PrefixState()
    ensures Ascii("one") && Fold(1, Expanded("one")) == 0x4DD0D7C
  {
    PrefixExpands();
    hide Expanded;
    One(0x1, 3, [3] + ([3] + ([0] + ([15] + ([14] + ([5] + []))))));
    One(0x23, 3, [3] + ([0] + ([15] + ([14] + ([5] + [])))));
    One(0x463, 3, [0] + ([15] + ([14] + ([5] + []))));
    One(0x8C63, 0, [15] + ([14] + ([5] + [])));
    One(0x118C60, 15, [14] + ([5] + []));
    One(0x2318C0F, 14, [5] + []);
    One(0x3D5BD65C, 5, []);
  }

  /** It is accepted: prefix, letters and checksum are those of the published text. */
  lemma PublishedIsAccepted()
    ensures Ascii("one") && Decode("one", "one1v0n7nw6c4fe88xnuasr0d65luult0fvclvvxmf").Some?
  {
    PrefixState();
    hide Expanded, Fold, Chars, Symbols, CharOf, Value, Reads;
    ReadsEnd();
    var word, letters := Part4([], "");
    word, letters := Part3(word, letters);
    word, letters := Part2(word, letters);
    word, letters := Part1(word, letters);
    Accepted(word, letters, "one1v0n7nw6c4fe88xnuasr0d65luult0fvclvvxmf");
  }

  lemma Accepted(word: seq<Symbol>, letters: string, text: string)
    requires Ascii("one") && Fold(1, Expanded("one")) == 0x4DD0D7C && Reads(0x4DD0D7C, word, letters)
    requires text == "one1" + letters && |letters| == 38
    ensures Decode("one", text).Some?
  {
    hide Expanded, Fold, Chars, Symbols, CharOf, Value;
    FoldConcat(1, Expanded("one"), word);
    assert text[..4] == "one" + "1" && text[4..] == letters;
    SymbolsIff(letters, word);
  }
}
