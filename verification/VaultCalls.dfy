/** The calls of the validator vaults (airdrop/tools/vault_batch.py): their call data and the decoders a signer
    relies on. Each decoder accepts exactly the canonical encoding of what it returns. */
module VaultCalls {
  import opened Bytes
  import opened Options
  import opened MultiSend

  /** Fixed parts of a deployment: selectors, contracts and the audited creation code. */
  datatype Setup = Setup(
    approve: Bytes, deposit: Bytes, multisend: Bytes,    // 4-byte selectors
    factory: Address, token: Address, official: set<Address>, creation: Bytes)
  {
    predicate Valid()
    {
      && |approve| == 4 && |deposit| == 4 && |multisend| == 4
      && factory < Pow256(20) && token < Pow256(20) && factory != token
    }
  }

  predicate IsAddress(a: nat) { a < Pow256(20) }

  // ----- words

  function ToWords(a: Bytes): seq<nat>
    requires |a| % 32 == 0
  {
    if a == [] then [] else [FromBytes(a[..32])] + ToWords(a[32..])
  }

  lemma {:induction false} WordsOfToWords(a: Bytes)
    requires |a| % 32 == 0
    ensures AllFit(ToWords(a)) && Words(ToWords(a)) == a && 32 * |ToWords(a)| == |a|
  {
    hide FromBytes, ToBytes, Pow256;
    if a != [] {
      ToFromBytes(a[..32]);
      WordsOfToWords(a[32..]);
      assert a == a[..32] + a[32..];
    }
  }

  lemma {:induction false} ToWordsOfWords(vs: seq<nat>)
    requires AllFit(vs)
    ensures ToWords(Words(vs)) == vs
  {
    hide FromBytes, ToBytes, Pow256;
    if vs != [] {
      ToWordsOfWords(vs[1..]);
      var w := Words(vs);
      assert w[..32] == Word(vs[0]) && w[32..] == Words(vs[1..]);
    }
  }

  /** The check `any(word[:12])` asks whether a word is more than an address. */
  lemma AddressWordIff(w: Bytes)
    requires |w| == 32
    ensures IsAddress(FromBytes(w)) <==> (forall i :: 0 <= i < 12 ==> w[i] == 0)
  {
    HighBytesZero(w, 12);
  }

  lemma {:induction false} HighBytesZero(w: Bytes, n: nat)
    requires n <= |w|
    ensures FromBytes(w) < Pow256(|w| - n) <==> (forall i :: 0 <= i < n ==> w[i] == 0)
  {
    ToFromBytes(w);
    if |w| > n {
      var v := w[..|w| - 1];
      HighBytesZero(v, n);
      assert forall i :: 0 <= i < n ==> v[i] == w[i];
    } else {
      AllZero(w);
    }
  }

  lemma {:induction false} AllZero(w: Bytes)
    ensures FromBytes(w) == 0 <==> (forall i :: 0 <= i < |w| ==> w[i] == 0)
  {
    if w != [] {
      AllZero(w[..|w| - 1]);
    }
  }

  // ----- an address and an amount: approve(address,uint256) and transfer(address,uint256)

  function PairData(selector: Bytes, to: Address, amount: nat): Bytes
    requires Fits(to) && Fits(amount)
  {
    selector + Words([to, amount])
  }

  /** `decode_approve` and `decode_transfer`, which differ in the selector. */
  function DecodePair(selector: Bytes, body: Bytes): Option<(Address, nat)>
  {
    if |body| != 68 || body[..4] != selector then None
    else
      var w := ToWords(body[4..]);
      if |w| == 2 && IsAddress(w[0]) then Some((w[0], w[1])) else None
  }

  lemma PairIff(selector: Bytes, body: Bytes, to: Address, amount: nat)
    requires |selector| == 4
    ensures DecodePair(selector, body) == Some((to, amount))
       <==> IsAddress(to) && Fits(to) && Fits(amount) && body == PairData(selector, to, amount)
  {
    hide Words, ToWords, Pow256;
    if |body| == 68 {
      WordsOfToWords(body[4..]);
      assert body == body[..4] + body[4..];
      var w := ToWords(body[4..]);
      assert |w| == 2 && w == [w[0], w[1]];
    }
    if Fits(to) && Fits(amount) {
      ToWordsOfWords([to, amount]);
      var data := PairData(selector, to, amount);
      assert data[..4] == selector && data[4..] == Words([to, amount]);
    }
  }

  // ----- depositBatch(uint256[],address[])

  function DepositWords(amounts: seq<nat>, delegators: seq<Address>): seq<nat>
  {
    var n := |amounts|;
    [64, 96 + 32 * n, n] + amounts + [n] + delegators
  }

  function DepositData(s: Setup, amounts: seq<nat>, delegators: seq<Address>): Bytes
    requires AllFit(DepositWords(amounts, delegators))
  {
    s.deposit + Words(DepositWords(amounts, delegators))
  }

  /** The words of a canonical batch: two arrays of the same length, the second of addresses. */
  function DepositParts(w: seq<nat>): Option<(seq<nat>, seq<Address>)>
  {
    if |w| < 4 || w[0] != 64 then None
    else
      var n := w[2];
      if w[1] != 96 + 32 * n || |w| != 4 + 2 * n || w[3 + n] != n then None
      else if exists i :: 4 + n <= i < 4 + 2 * n && !IsAddress(w[i]) then None
      else Some((w[3..3 + n], w[4 + n..]))
  }

  function DecodeDeposit(s: Setup, body: Bytes): Option<(seq<nat>, seq<Address>)>
  {
    if |body| < 4 || body[..4] != s.deposit || |body[4..]| % 32 != 0 then None else DepositParts(ToWords(body[4..]))
  }

  predicate Addresses(ds: seq<Address>) { forall i :: 0 <= i < |ds| ==> IsAddress(ds[i]) }

  lemma DepositSlices(head: seq<nat>, amounts: seq<nat>, mid: seq<nat>, delegators: seq<nat>)
    requires |head| == 3 && |mid| == 1
    ensures var w, n := head + amounts + mid + delegators, |amounts|;
            w[..3] == head && w[3..3 + n] == amounts && w[3 + n] == mid[0] && w[4 + n..] == delegators
  {
    var n := |amounts|;
    SliceLeft(head + amounts + mid, delegators, 3, 3 + n);
    SliceLeft(head + amounts, mid, 3, 3 + n);
    SliceRight(head, amounts, 0, n);
  }

  lemma DepositPartsIff(w: seq<nat>, amounts: seq<nat>, delegators: seq<Address>)
    ensures DepositParts(w) == Some((amounts, delegators))
       <==> |amounts| == |delegators| && Addresses(delegators) && w == DepositWords(amounts, delegators)
  {
    hide Pow256;
    if DepositParts(w) == Some((amounts, delegators)) {
      var n := w[2];
      assert w == w[..3] + w[3..3 + n] + [w[3 + n]] + w[4 + n..];
      assert w[..3] == [64, 96 + 32 * n, n];
      forall i | 0 <= i < |delegators| ensures IsAddress(delegators[i]) {
        assert delegators[i] == w[4 + n + i];
      }
    }
    if |amounts| == |delegators| && Addresses(delegators) && w == DepositWords(amounts, delegators) {
      var n := |amounts|;
      DepositSlices([64, 96 + 32 * n, n], amounts, [n], delegators);
      forall i | 4 + n <= i < 4 + 2 * n ensures IsAddress(w[i]) {
        assert w[i] == delegators[i - 4 - n];
      }
    }
  }

  /** `decode_deposit_batch` accepts a body exactly when it is the canonical encoding of what it returns. */
  lemma DepositIff(s: Setup, body: Bytes, amounts: seq<nat>, delegators: seq<Address>)
    requires s.Valid()
    ensures DecodeDeposit(s, body) == Some((amounts, delegators))
       <==> && |amounts| == |delegators| && Addresses(delegators) && AllFit(DepositWords(amounts, delegators))
            && body == DepositData(s, amounts, delegators)
  {
    hide Words, ToWords, Pow256, DepositParts, DepositWords, AllFit;
    var w := DepositWords(amounts, delegators);
    if |body| >= 4 && |body[4..]| % 32 == 0 {
      WordsOfToWords(body[4..]);
      assert body == body[..4] + body[4..];
      DepositPartsIff(ToWords(body[4..]), amounts, delegators);
    }
    if AllFit(w) {
      ToWordsOfWords(w);
      var data := DepositData(s, amounts, delegators);
      assert data[..4] == s.deposit && data[4..] == Words(w);
      DepositPartsIff(w, amounts, delegators);
    }
  }

  // ----- vault deployment

  function InitCode(s: Setup, governor: Address): Bytes
    requires Fits(s.token) && Fits(governor)
  {
    s.creation + Words([s.token, governor])
  }

  /** `vault_address`: the CREATE2 address of section "Specification" of EIP-1014. */
  function VaultAddress(h: Keccak, s: Setup, validator: Address, governor: Address): Address
    requires s.Valid() && Fits(s.token) && Fits(validator) && Fits(governor)
  {
    FromBytes(h([255] + ToBytes(s.factory, 20) + Word(validator) + h(InitCode(s, governor)))[12..])
  }

  function DeployData(s: Setup, validator: Address, governor: Address): Bytes
    requires Fits(s.token) && Fits(validator) && Fits(governor)
  {
    Word(validator) + InitCode(s, governor)
  }

  /** CREATE2 (section "Specification" of EIP-1014). */
  function Create2(h: Keccak, deployer: Address, salt: Bytes, init: Bytes): Address
    requires IsAddress(deployer)
  {
    FromBytes(h([255] + ToBytes(deployer, 20) + salt + h(init))[12..])
  }

  /** The deployment proxy takes the first 32 bytes of its call data as the salt and the rest as the init code; the vault is
      where it then creates a contract. */
  lemma DeployedAt(h: Keccak, s: Setup, validator: Address, governor: Address)
    requires s.Valid() && Fits(s.token) && Fits(validator) && Fits(governor)
    ensures var data := DeployData(s, validator, governor);
            |data| >= 32 && VaultAddress(h, s, validator, governor) == Create2(h, s.factory, data[..32], data[32..])
  {
    hide ToBytes, FromBytes, Words, Pow256;
    var data := DeployData(s, validator, governor);
    assert data[..32] == Word(validator) && data[32..] == InitCode(s, governor);
  }

  /** The validator and governor of a vault deployment; `None` for every reason `decode_deploy` gives. */
  function DecodeDeploy(s: Setup, body: Bytes): Option<(Address, Address)>
  {
    var n := |s.creation|;
    if |body| != 96 + n || body[32..32 + n] != s.creation then None
    else
      var validator, args := FromBytes(body[..32]), ToWords(body[32 + n..]);
      if |args| != 2 || !IsAddress(validator) || !IsAddress(args[0]) || !IsAddress(args[1]) then None
      else if args[0] != s.token || args[1] == 0 then None
      else Some((validator, args[1]))
  }

  lemma DeployIff(s: Setup, body: Bytes, validator: Address, governor: Address)
    requires s.Valid() && Fits(s.token)
    ensures DecodeDeploy(s, body) == Some((validator, governor))
       <==> && IsAddress(validator) && IsAddress(governor) && governor != 0 && Fits(validator) && Fits(governor)
            && body == DeployData(s, validator, governor)
  {
    hide Words, ToWords, Pow256, ToBytes, FromBytes;
    var n := |s.creation|;
    if |body| == 96 + n {
      ToFromBytes(body[..32]);
      WordsOfToWords(body[32 + n..]);
      assert body == body[..32] + (body[32..32 + n] + body[32 + n..]);
      var args := ToWords(body[32 + n..]);
      assert |args| == 2 && args == [args[0], args[1]];
    }
    if Fits(validator) && Fits(governor) {
      ToWordsOfWords([s.token, governor]);
      var data := DeployData(s, validator, governor);
      assert data[..32] == Word(validator) && data[32..32 + n] == s.creation && data[32 + n..] == Words([s.token, governor]);
    }
  }
}
