/**
 A serializer that fits: IndexContainer asks of a serializer only that the end of an object
 shows from the object itself, as it does in the MessagePack formats. This one is built
 from natural numbers, pairs and lists with their lengths in front.
 */
module Serializer {
  import opened Common
  import opened ScatteredRead
  import opened LogIndex
  import opened IndexContainer

  /** Decoding bytes that begin with an object, or end within it. */
  ghost predicate Decodes<T>(codec: Codec<T>, x: T, b: Bytes) {
    && (codec.encode(x) <= b ==> codec.decode(b) == Some((x, |codec.encode(x)|)))
    && (b < codec.encode(x) ==> codec.decode(b) == None)
  }

  ghost predicate Prefixed<T(!new)>(codec: Codec<T>) {
    forall x, b :: Decodes(codec, x, b)
  }

  lemma PrefixedDelimits<T(!new)>(codec: Codec<T>)
    requires Prefixed(codec)
    ensures SelfDelimiting(codec)
  {
    forall x: T, rest: Bytes ensures codec.decode(codec.encode(x) + rest) == Some((x, |codec.encode(x)|)) {
      assert Decodes(codec, x, codec.encode(x) + rest);
    }
    forall x: T, k: nat | k < |codec.encode(x)| ensures codec.decode(codec.encode(x)[..k]) == None {
      assert Decodes(codec, x, codec.encode(x)[..k]);
    }
  }

  // ---------- Numbers ----------

  function EncodeNat(n: nat): Bytes {
    if n == 0 then [0] else [1] + EncodeNat(n - 1)
  }

  function DecodeNat(b: Bytes): Option<(nat, nat)> {
    if b == [] then None
    else if b[0] == 0 then Some((0, 1))
    else
      match DecodeNat(b[1..])
      case None => None
      case Some((n, l)) => Some((n + 1, l + 1))
  }

  const NATS: Codec<nat> := Codec(EncodeNat, DecodeNat)

  lemma {:induction false} NatComplete(n: nat, b: Bytes)
    requires EncodeNat(n) <= b
    ensures DecodeNat(b) == Some((n, |EncodeNat(n)|))
  {
    if n > 0 { NatComplete(n - 1, b[1..]); }
  }

  lemma {:induction false} NatIncomplete(n: nat, b: Bytes)
    requires b < EncodeNat(n)
    ensures DecodeNat(b) == None
  {
    if n > 0 && b != [] { NatIncomplete(n - 1, b[1..]); }
  }

  lemma NatsDelimit()
    ensures Prefixed(NATS)
  {
    forall n: nat, b: Bytes ensures Decodes(NATS, n, b) {
      if EncodeNat(n) <= b { NatComplete(n, b); }
      if b < EncodeNat(n) { NatIncomplete(n, b); }
    }
  }

  // ---------- Pairs ----------

  function EncodePair<A, B>(a: Codec<A>, b: Codec<B>, x: (A, B)): Bytes {
    a.encode(x.0) + b.encode(x.1)
  }

  function DecodePair<A, B>(a: Codec<A>, b: Codec<B>, bytes: Bytes): Option<((A, B), nat)> {
    match a.decode(bytes)
    case None => None
    case Some((x, k)) =>
      match b.decode(From(bytes, k))
      case None => None
      case Some((y, l)) => Some(((x, y), k + l))
  }

  function Pairs<A, B>(a: Codec<A>, b: Codec<B>): Codec<(A, B)> {
    Codec(x => EncodePair(a, b, x), bytes => DecodePair(a, b, bytes))
  }

  /** Bytes that begin with two objects, or end within them. */
  lemma SplitPrefix(p: Bytes, q: Bytes, b: Bytes)
    ensures p + q <= b ==> p <= b && q <= From(b, |p|)
    ensures b < p + q ==> b < p || (p <= b && From(b, |p|) < q)
  {
    if b < p + q && |p| <= |b| {
      assert b[..|p|] == (p + q)[..|p|] == p;
    }
  }

  lemma PairDecodes<A(!new), B(!new)>(a: Codec<A>, b: Codec<B>, x: (A, B), bytes: Bytes)
    requires Prefixed(a) && Prefixed(b)
    ensures Decodes(Pairs(a, b), x, bytes)
  {
    var code := a.encode(x.0);
    SplitPrefix(code, b.encode(x.1), bytes);
    assert Decodes(a, x.0, bytes);
    assert Decodes(b, x.1, From(bytes, |code|));
  }

  lemma PairsDelimit<A(!new), B(!new)>(a: Codec<A>, b: Codec<B>)
    requires Prefixed(a) && Prefixed(b)
    ensures Prefixed(Pairs(a, b))
  {
    forall x: (A, B), bytes: Bytes ensures Decodes(Pairs(a, b), x, bytes) {
      PairDecodes(a, b, x, bytes);
    }
  }

  // ---------- Lists ----------

  function EncodeAll<T>(c: Codec<T>, xs: seq<T>): Bytes {
    if xs == [] then [] else c.encode(xs[0]) + EncodeAll(c, xs[1..])
  }

  function DecodeAll<T>(c: Codec<T>, n: nat, b: Bytes): Option<(seq<T>, nat)> {
    if n == 0 then Some(([], 0))
    else
      match c.decode(b)
      case None => None
      case Some((x, k)) =>
        match DecodeAll(c, n - 1, From(b, k))
        case None => None
        case Some((xs, l)) => Some(([x] + xs, k + l))
  }

  lemma {:induction false} AllComplete<T(!new)>(c: Codec<T>, xs: seq<T>, b: Bytes)
    requires Prefixed(c) && EncodeAll(c, xs) <= b
    ensures DecodeAll(c, |xs|, b) == Some((xs, |EncodeAll(c, xs)|))
  {
    if xs != [] {
      var code := c.encode(xs[0]);
      SplitPrefix(code, EncodeAll(c, xs[1..]), b);
      assert Decodes(c, xs[0], b);
      AllComplete(c, xs[1..], From(b, |code|));
      assert [xs[0]] + xs[1..] == xs;
    }
  }

  lemma {:induction false} AllIncomplete<T(!new)>(c: Codec<T>, xs: seq<T>, b: Bytes)
    requires Prefixed(c) && b < EncodeAll(c, xs)
    ensures DecodeAll(c, |xs|, b) == None
  {
    var code := c.encode(xs[0]);
    SplitPrefix(code, EncodeAll(c, xs[1..]), b);
    assert Decodes(c, xs[0], b);
    if code <= b {
      AllIncomplete(c, xs[1..], From(b, |code|));
    }
  }

  function EncodeList<T>(c: Codec<T>, xs: seq<T>): Bytes {
    EncodeNat(|xs|) + EncodeAll(c, xs)
  }

  function DecodeList<T>(c: Codec<T>, bytes: Bytes): Option<(seq<T>, nat)> {
    DecodeCounted(c, DecodeNat(bytes), bytes)
  }

  function DecodeCounted<T>(c: Codec<T>, count: Option<(nat, nat)>, bytes: Bytes): Option<(seq<T>, nat)> {
    match count
    case None => None
    case Some((n, k)) =>
      match DecodeAll(c, n, From(bytes, k))
      case None => None
      case Some((xs, l)) => Some((xs, k + l))
  }

  function Lists<T>(c: Codec<T>): Codec<seq<T>> {
    Codec(xs => EncodeList(c, xs), bytes => DecodeList(c, bytes))
  }

  lemma CountedComplete<T(!new)>(c: Codec<T>, xs: seq<T>, k: nat, b: Bytes)
    requires Prefixed(c) && EncodeAll(c, xs) <= From(b, k)
    ensures DecodeCounted(c, Some((|xs|, k)), b) == Some((xs, k + |EncodeAll(c, xs)|))
  {
    AllComplete(c, xs, From(b, k));
  }

  lemma ListComplete<T(!new)>(c: Codec<T>, xs: seq<T>, b: Bytes)
    requires Prefixed(c) && EncodeList(c, xs) <= b
    ensures DecodeList(c, b) == Some((xs, |EncodeList(c, xs)|))
  {
    var code := EncodeNat(|xs|);
    SplitPrefix(code, EncodeAll(c, xs), b);
    NatComplete(|xs|, b);
    CountedComplete(c, xs, |code|, b);
  }

  lemma ListIncomplete<T(!new)>(c: Codec<T>, xs: seq<T>, b: Bytes)
    requires Prefixed(c) && b < EncodeList(c, xs)
    ensures DecodeList(c, b) == None
  {
    var code := EncodeNat(|xs|);
    SplitPrefix(code, EncodeAll(c, xs), b);
    if code <= b {
      NatComplete(|xs|, b);
      AllIncomplete(c, xs, From(b, |code|));
    } else {
      NatIncomplete(|xs|, b);
    }
  }

  lemma ListsDelimit<T(!new)>(c: Codec<T>)
    requires Prefixed(c)
    ensures Prefixed(Lists(c))
  {
    forall xs: seq<T>, b: Bytes ensures Decodes(Lists(c), xs, b) {
      if EncodeList(c, xs) <= b { ListComplete(c, xs, b); }
      if b < EncodeList(c, xs) { ListIncomplete(c, xs, b); }
    }
  }

  // ---------- Other values, by what they are made of ----------

  function Via<A, B>(c: Codec<B>, to: A -> B, back: B -> A): Codec<A> {
    Codec(x => c.encode(to(x)),
          bytes => var y := c.decode(bytes); if y.None? then None else Some((back(y.value.0), y.value.1)))
  }

  lemma ViaDelimits<A(!new), B(!new)>(c: Codec<B>, to: A -> B, back: B -> A)
    requires Prefixed(c) && forall x :: back(to(x)) == x
    ensures Prefixed(Via(c, to, back))
  {
    forall x: A, b: Bytes ensures Decodes(Via(c, to, back), x, b) {
      assert Decodes(c, to(x), b);
    }
  }

  function CharToNat(c: char): nat {
    c as nat
  }

  function NatToChar(n: nat): char {
    if n < 0xD800 || 0xE000 <= n < 0x110000 then n as char else ' '
  }

  function OptionToList(x: Option<string>): seq<string> {
    if x.None? then [] else [x.value]
  }

  function ListToOption(xs: seq<string>): Option<string> {
    if xs == [] then None else Some(xs[0])
  }

  function BlockToPair(b: Block): (nat, nat) {
    (b.start, b.end)
  }

  function PairToBlock(p: (nat, nat)): Block {
    Block(p.0, p.1)
  }

  type EntryParts = ((seq<Block>, seq<Option<string>>), seq<nat>)

  function EntryToParts(e: IndexEntry): EntryParts {
    ((e.blocks, e.values), e.mapping)
  }

  function PartsToEntry(p: EntryParts): IndexEntry {
    IndexEntry(p.0.0, p.0.1, p.1)
  }

  const STRINGS: Codec<string> := Lists(Via(NATS, CharToNat, NatToChar))

  const BLOCKS: Codec<seq<Block>> := Lists(Via(Pairs(NATS, NATS), BlockToPair, PairToBlock))

  const VALUES: Codec<seq<Option<string>>> := Lists(Via(Lists(STRINGS), OptionToList, ListToOption))

  const ENTRIES: Codec<IndexEntry> := Via(Pairs(Pairs(BLOCKS, VALUES), Lists(NATS)), EntryToParts, PartsToEntry)

  const TOCS: Codec<Toc> := Lists(Lists(Pairs(STRINGS, NATS)))

  lemma StringsDelimit()
    ensures Prefixed(STRINGS)
  {
    NatsDelimit();
    ViaDelimits(NATS, CharToNat, NatToChar);
    ListsDelimit(Via(NATS, CharToNat, NatToChar));
  }

  lemma TocsDelimit()
    ensures Prefixed(TOCS)
  {
    NatsDelimit();
    StringsDelimit();
    PairsDelimit(STRINGS, NATS);
    ListsDelimit(Pairs(STRINGS, NATS));
    ListsDelimit(Lists(Pairs(STRINGS, NATS)));
  }

  lemma BlocksDelimit()
    ensures Prefixed(BLOCKS)
  {
    NatsDelimit();
    PairsDelimit(NATS, NATS);
    ViaDelimits(Pairs(NATS, NATS), BlockToPair, PairToBlock);
    ListsDelimit(Via(Pairs(NATS, NATS), BlockToPair, PairToBlock));
  }

  lemma ValuesDelimit()
    ensures Prefixed(VALUES)
  {
    StringsDelimit();
    ListsDelimit(STRINGS);
    ViaDelimits(Lists(STRINGS), OptionToList, ListToOption);
    ListsDelimit(Via(Lists(STRINGS), OptionToList, ListToOption));
  }

  lemma EntriesDelimit()
    ensures Prefixed(ENTRIES)
  {
    NatsDelimit();
    BlocksDelimit();
    ValuesDelimit();
    ListsDelimit(NATS);
    PairsDelimit(BLOCKS, VALUES);
    PairsDelimit(Pairs(BLOCKS, VALUES), Lists(NATS));
    ViaDelimits(Pairs(Pairs(BLOCKS, VALUES), Lists(NATS)), EntryToParts, PartsToEntry);
  }

  /** There are serializers as the log index needs them. */
  lemma SoundSerializer()
    ensures Sound(Codecs(TOCS, ENTRIES))
  {
    TocsDelimit();
    EntriesDelimit();
    PrefixedDelimits(TOCS);
    PrefixedDelimits(ENTRIES);
  }
}
