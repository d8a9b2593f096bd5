/** The packed multi-hop path of adapters/dex_packs/evm_univ3.py: address, 3-byte fee, address, ... */
module UniV3Path {
  import opened BotStates

  type Byte = b: int | 0 <= b < 256

  type Address = a: seq<Byte> | |a| == 20 witness seq(20, _ => 0)

  datatype EncodeError = IndexError | OverflowError

  datatype Result<+T> = Ok(value: T) | Err(error: EncodeError)

  datatype Path = Path(tokens: seq<Address>, fees: seq<int>)

  predicate FeeFits(fee: int) { 0 <= fee < 0x100_0000 }

  /** The shape `_path_cfg` insists on before a configured path is used. */
  predicate ShapeOk(p: Path) { |p.tokens| >= 2 && |p.fees| == |p.tokens| - 1 }

  function PathCfg(configured: Option<Path>): (r: Option<Path>)
    ensures r.Some? ==> r == configured && ShapeOk(r.value)
    ensures r.None? ==> configured.None? || !ShapeOk(configured.value)
  {
    if configured.Some? && ShapeOk(configured.value) then configured else None
  }

  /** `fee.to_bytes(3, "big")` for a fee that fits. */
  function FeeBytes(fee: int): (b: seq<Byte>)
    requires FeeFits(fee)
    ensures |b| == 3
  {
    [fee / 65_536, fee / 256 % 256, fee % 256]
  }

  function FeeOf(b: seq<Byte>): (fee: int)
    requires |b| == 3
    ensures FeeFits(fee)
  {
    b[0] as int * 65_536 + b[1] as int * 256 + b[2]
  }

  lemma FeeBytesInverse(fee: int, b: seq<Byte>)
    ensures FeeFits(fee) ==> FeeOf(FeeBytes(fee)) == fee
    ensures |b| == 3 ==> FeeBytes(FeeOf(b)) == b
  {
    if |b| == 3 {
      var f := FeeOf(b);
      assert f / 256 == b[0] as int * 256 + b[1];
      assert f / 65_536 == b[0];
      assert b == [b[0], b[1], b[2]];
    }
  }

  /** The hops in front of the final address. */
  function EncodeHops(tokens: seq<Address>, fees: seq<int>): (out: seq<Byte>)
    requires |fees| <= |tokens| && forall f :: f in fees ==> FeeFits(f)
    ensures |out| == 23 * |fees|
  {
    if fees == [] then [] else tokens[0] + FeeBytes(fees[0]) + EncodeHops(tokens[1..], fees[1..])
  }

  lemma {:induction false} EncodeHopsSnoc(tokens: seq<Address>, fees: seq<int>, i: nat)
    requires i < |fees| && i < |tokens| && forall f :: f in fees[..i + 1] ==> FeeFits(f)
    ensures EncodeHops(tokens[..i + 1], fees[..i + 1])
            == EncodeHops(tokens[..i], fees[..i]) + tokens[i] + FeeBytes(fees[i])
  {
    if i == 0 {
      assert fees[..1] == [fees[0]] && tokens[..1] == [tokens[0]] && fees[..1][1..] == [];
    } else {
      assert tokens[..i + 1][1..] == tokens[1..][..i] && fees[..i + 1][1..] == fees[1..][..i];
      assert tokens[..i][1..] == tokens[1..][..i - 1] && fees[..i][1..] == fees[1..][..i - 1];
      EncodeHopsSnoc(tokens[1..], fees[1..], i - 1);
    }
  }

  /** The 23 bytes of the i-th hop: the address, then the fee with its highest byte first. */
  ghost predicate HopAt(p: Path, out: seq<Byte>, i: nat)
    requires i < |p.fees| && i < |p.tokens| && 23 * |p.fees| <= |out|
  {
    && out[23 * i..23 * i + 20] == p.tokens[i]
    && out[23 * i + 20] as int * 65_536 + out[23 * i + 21] as int * 256 + out[23 * i + 22] == p.fees[i]
  }

  /** The layout: one hop after the other, and the last address behind them. */
  ghost predicate Packed(p: Path, out: seq<Byte>)
    requires p.tokens != [] && |p.fees| <= |p.tokens|
  {
    && |out| == 23 * |p.fees| + 20 && out[23 * |p.fees|..] == p.tokens[|p.tokens| - 1]
    && forall i: nat :: i < |p.fees| ==> HopAt(p, out, i)
  }

  lemma EncodedIsPacked(p: Path)
    requires Encodable(p)
    ensures Packed(p, Encode(p))
  {
    var hops, last := EncodeHops(p.tokens, p.fees), p.tokens[|p.tokens| - 1];
    assert (hops + last)[23 * |p.fees|..] == last;
    forall i: nat | i < |p.fees| ensures HopAt(p, hops + last, i) {
      HopsPacked(p, i);
      assert (hops + last)[23 * i..23 * i + 20] == hops[23 * i..23 * i + 20];
    }
  }

  lemma {:induction false} HopsPacked(p: Path, i: nat)
    requires Encodable(p) && i < |p.fees|
    ensures HopAt(p, EncodeHops(p.tokens, p.fees), i)
    decreases i
  {
    var head, tail := p.tokens[0] + FeeBytes(p.fees[0]), EncodeHops(p.tokens[1..], p.fees[1..]);
    if i == 0 {
      FirstHop(p.tokens[0], p.fees[0], tail);
    } else {
      var rest := Path(p.tokens[1..], p.fees[1..]);
      HopsPacked(rest, i - 1);
      LaterHop(rest, head, tail, i - 1);
    }
  }

  lemma FirstHop(token: Address, fee: int, tail: seq<Byte>)
    requires FeeFits(fee)
    ensures var out := token + FeeBytes(fee) + tail;
            out[0..20] == token && out[20] as int * 65_536 + out[21] as int * 256 + out[22] == fee
  {
    FeeBytesInverse(fee, []);
  }

  lemma LaterHop(rest: Path, head: seq<Byte>, tail: seq<Byte>, i: nat)
    requires i < |rest.fees| && i < |rest.tokens| && 23 * |rest.fees| <= |tail| && |head| == 23 && HopAt(rest, tail, i)
    ensures var out, k := head + tail, 23 * (i + 1);
            && out[k..k + 20] == rest.tokens[i]
            && out[k + 20] as int * 65_536 + out[k + 21] as int * 256 + out[k + 22] == rest.fees[i]
  {
    assert (head + tail)[23 * (i + 1)..23 * (i + 1) + 20] == tail[23 * i..23 * i + 20];
  }

  /** `_encode_path`. It needs a last token and a token for each fee, and every fee must fit three
      bytes; the error is the first one met. */
  method EncodePath(p: Path) returns (r: Result<seq<Byte>>)
    ensures r.Ok? <==> p.tokens != [] && |p.fees| <= |p.tokens| && forall f :: f in p.fees ==> 0 <= f < 16_777_216
    ensures r.Ok? ==> Packed(p, r.value) && r.value == EncodeHops(p.tokens, p.fees) + p.tokens[|p.tokens| - 1]
    ensures r.Err? ==>
              (r.error.OverflowError? <==>
                exists i :: 0 <= i < |p.fees| && i < |p.tokens| && !FeeFits(p.fees[i]))
  {
    var out: seq<Byte> := [];
    var i := 0;
    while i < |p.fees|
      invariant 0 <= i <= |p.fees| && i <= |p.tokens|
      invariant forall k :: 0 <= k < i ==> FeeFits(p.fees[k])
      invariant out == EncodeHops(p.tokens[..i], p.fees[..i])
    {
      if i >= |p.tokens| { return Err(IndexError); }
      if !FeeFits(p.fees[i]) {
        assert p.fees[i] in p.fees;
        return Err(OverflowError);
      }
      EncodeHopsSnoc(p.tokens, p.fees, i);
      out := out + p.tokens[i];
      out := out + FeeBytes(p.fees[i]);
      i := i + 1;
    }
    if p.tokens == [] { return Err(IndexError); }
    assert p.fees[..i] == p.fees;
    HopsIgnoreRest(p.tokens, p.fees);
    EncodedIsPacked(p);
    r := Ok(out + p.tokens[|p.tokens| - 1]);
  }

  lemma {:induction false} HopsIgnoreRest(tokens: seq<Address>, fees: seq<int>)
    requires |fees| <= |tokens| && forall f :: f in fees ==> FeeFits(f)
    ensures EncodeHops(tokens[..|fees|], fees) == EncodeHops(tokens, fees)
  {
    if fees != [] {
      HopsIgnoreRest(tokens[1..], fees[1..]);
      assert tokens[..|fees|][1..] == tokens[1..][..|fees| - 1];
    }
  }

  ghost predicate Encodable(p: Path)
  {
    p.tokens != [] && |p.fees| <= |p.tokens| && forall f :: f in p.fees ==> FeeFits(f)
  }

  /** The bytes `EncodePath` returns. */
  function Encode(p: Path): (out: seq<Byte>)
    requires Encodable(p)
    ensures |out| == 23 * |p.fees| + 20
  {
    EncodeHops(p.tokens, p.fees) + p.tokens[|p.tokens| - 1]
  }

  /** Reads a packed path in strides of 23 bytes. */
  function Decode(b: seq<Byte>): (r: Option<Path>)
    ensures r.Some? ==> |r.value.fees| == |r.value.tokens| - 1 && forall f :: f in r.value.fees ==> FeeFits(f)
    ensures r.Some? <==> |b| % 23 == 20
    decreases |b|
  {
    if |b| < 20 then None
    else if |b| == 20 then Some(Path([b], []))
    else if |b| < 43 then None
    else
      var head: Address, fee := b[..20], FeeOf(b[20..23]);
      match Decode(b[23..])
      case None => None
      case Some(rest) => Some(Path([head] + rest.tokens, [fee] + rest.fees))
  }

  lemma {:induction false} DecodeOfEncode(p: Path)
    requires Encodable(p) && |p.fees| == |p.tokens| - 1
    ensures Decode(Encode(p)) == Some(p)
    decreases |p.fees|
  {
    var b := Encode(p);
    if p.fees == [] {
      assert p.tokens == [p.tokens[0]] && b == p.tokens[0];
    } else {
      var rest := Path(p.tokens[1..], p.fees[1..]);
      assert b == p.tokens[0] + FeeBytes(p.fees[0]) + Encode(rest);
      assert b[..20] == p.tokens[0] && b[20..23] == FeeBytes(p.fees[0]) && b[23..] == Encode(rest);
      FeeBytesInverse(p.fees[0], []);
      DecodeOfEncode(rest);
      assert [p.tokens[0]] + rest.tokens == p.tokens && [p.fees[0]] + rest.fees == p.fees;
    }
  }

  /** Every byte string of length 23k+20 is the encoding of exactly the path it decodes to. */
  lemma {:induction false} EncodeOfDecode(b: seq<Byte>)
    requires Decode(b).Some?
    ensures Encodable(Decode(b).value) && Encode(Decode(b).value) == b
    decreases |b|
  {
    if |b| > 20 {
      var head: Address := b[..20];
      var p, rest := Decode(b).value, Decode(b[23..]).value;
      EncodeOfDecode(b[23..]);
      FeeBytesInverse(0, b[20..23]);
      assert p.tokens[1..] == rest.tokens && p.fees[1..] == rest.fees;
      assert b == head + b[20..23] + b[23..];
    }
  }

  /** A packed path decodes to what was encoded exactly when it has one fee between each two
      neighbouring tokens: the shape check is what makes the encoding faithful. */
  lemma DecodeRecoversIff(p: Path)
    requires Encodable(p)
    ensures Decode(Encode(p)) == Some(p) <==> |p.fees| == |p.tokens| - 1
  {
    if |p.fees| == |p.tokens| - 1 { DecodeOfEncode(p); }
  }

  /** Two configurations that `_path_cfg` lets through are the same path if their bytes are. */
  lemma EncodeInjective(p: Path, q: Path)
    requires PathCfg(Some(p)).Some? && PathCfg(Some(q)).Some?
    requires Encodable(p) && Encodable(q) && Encode(p) == Encode(q)
    ensures p == q
  {
    DecodeOfEncode(p);
    DecodeOfEncode(q);
  }

  /** Without the check the encoding merges different configurations: a middle token is dropped. */
  lemma UncheckedPathsCollide(a: Address, skipped: Address, z: Address)
    ensures var p, q := Path([a, skipped, z], []), Path([z], []);
            Encodable(p) && Encodable(q) && p != q && Encode(p) == Encode(q)
  {
    assert |Path([a, skipped, z], []).tokens| == 3;
  }
}
