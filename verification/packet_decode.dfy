/** The generic encode/decode capability and the list containers built on it
    (`PacketDecode.cs`).

    An element type's capability is a `Codec`: an encoder to bytes and a
    decoder from a reader. The containers are generic in the element codec,
    and their round trips hold for every codec that satisfies `RoundTrips`.

    Of the three integer wrappers only `I8` implements `IListLength`, so it is
    the only length or index type the containers can be instantiated with;
    the containers below are therefore written for `I8`.
 */
module PacketDecode {
  import opened Wrappers
  import opened Bytes
  import opened Packet

  // ---------------------------------------------------------------------------
  // Integer wrappers
  // ---------------------------------------------------------------------------

  /** A one-byte list length or index. */
  datatype I8 = I8(inner: byte) {

    function Length(): int
    {
      inner
    }

    /** `IListLength.IsTerminal`: the index that ends an index list. */
    predicate IsTerminal()
    {
      Length() == 0
    }
  }

  /** `new I8 { Length = n }`: the init accessor truncates to a byte. */
  function I8OfLength(n: int): (l: I8)
    ensures 0 <= l.Length() < 256 && (n - l.Length()) % 256 == 0
    ensures 0 <= n < 256 ==> l.Length() == n
    ensures l.IsTerminal() <==> n % 256 == 0
  {
    I8(Wrap8(n))
  }

  function EncodeI8(l: I8): (bs: seq<byte>)
    ensures bs == [l.inner]
  {
    WriteByte(l.inner)
  }

  function DecodeI8(r: Reader): (res: Result<Parsed<I8>>)
    ensures res.Ok? <==> 1 <= Remaining(r)
    ensures res.Ok? ==> At(r, EncodeI8(res.value.value)) && res.value.next == Skip(r, 1)
  {
    var b :- ReadByte(r);
    Ok(Parsed(I8(b.value), b.next))
  }

  datatype I16 = I16(inner: i16) {
    function Length(): int
    {
      inner
    }
  }

  /** `new I16 { Length = n }`: the init accessor truncates to a short. */
  function I16OfLength(n: int): (l: I16)
    ensures (n - l.Length()) % 0x1_0000 == 0
    ensures -0x8000 <= n < 0x8000 ==> l.Length() == n
  {
    I16(Wrap16(n))
  }

  function EncodeI16(l: I16): (bs: seq<byte>)
    ensures |bs| == 2 && DecodeSigned(bs) == l.inner
  {
    WriteShort(l.inner)
  }

  function DecodeI16(r: Reader): (res: Result<Parsed<I16>>)
    ensures res.Ok? <==> 2 <= Remaining(r)
    ensures res.Ok? ==> At(r, EncodeI16(res.value.value)) && res.value.next == Skip(r, 2)
  {
    var s :- ReadShort(r);
    Ok(Parsed(I16(s.value), s.next))
  }

  datatype I32 = I32(inner: i32) {
    function Length(): int
    {
      inner
    }
  }

  function EncodeI32(l: I32): (bs: seq<byte>)
    ensures |bs| == 4 && DecodeSigned(bs) == l.inner
  {
    WriteInt(l.inner)
  }

  function DecodeI32(r: Reader): (res: Result<Parsed<I32>>)
    ensures res.Ok? <==> 4 <= Remaining(r)
    ensures res.Ok? ==> At(r, EncodeI32(res.value.value)) && res.value.next == Skip(r, 4)
  {
    var s :- ReadInt(r);
    Ok(Parsed(I32(s.value), s.next))
  }

  lemma IntWrappersRoundTrip(r: Reader, a: I8, b: I16, c: I32)
    ensures At(r, EncodeI8(a)) ==> DecodeI8(r) == Ok(Parsed(a, Skip(r, 1)))
    ensures At(r, EncodeI16(b)) ==> DecodeI16(r) == Ok(Parsed(b, Skip(r, 2)))
    ensures At(r, EncodeI32(c)) ==> DecodeI32(r) == Ok(Parsed(c, Skip(r, 4)))
  {
    if At(r, EncodeI8(a)) {
      ReadWriteByte(r, a.inner);
    }
    if At(r, EncodeI16(b)) {
      ReadWriteShort(r, b.inner);
    }
    if At(r, EncodeI32(c)) {
      ReadWriteInt(r, c.inner);
    }
  }

  // ---------------------------------------------------------------------------
  // Element codecs and the laws the containers rely on
  // ---------------------------------------------------------------------------

  /** The `IEncodePacket`/`IDecodePacket` pair of an element type. */
  datatype Codec<!T> = Codec(encode: T -> seq<byte>, decode: Reader -> Result<Parsed<T>>)

  /** Decoding an element's encoding gives the element back and consumes
      exactly its bytes, whatever follows them. */
  ghost predicate RoundTrips<T(!new)>(c: Codec<T>)
  {
    forall x: T, r: Reader {:trigger At(r, c.encode(x))} ::
      At(r, c.encode(x)) ==> c.decode(r) == Ok(Parsed(x, Skip(r, |c.encode(x)|)))
  }

  /** A decoder only moves its reader forward over the same buffer. */
  ghost predicate Advancing<T>(c: Codec<T>)
  {
    forall r: Reader :: c.decode(r).Ok? ==>
      c.decode(r).value.next.data == r.data && r.pos <= c.decode(r).value.next.pos
  }

  /** The bytes left in `r` are a strict prefix of `bs`: the buffer ends
      before `bs` is complete. */
  predicate EndsInside(r: Reader, bs: seq<byte>)
  {
    Remaining(r) < |bs| && r.data[r.pos..] == bs[..Remaining(r)]
  }

  /** A decoder fails on every truncated encoding. */
  ghost predicate FailsWhenTruncated<T(!new)>(c: Codec<T>)
  {
    forall x: T, r: Reader :: EndsInside(r, c.encode(x)) ==> c.decode(r).Err?
  }

  lemma EndsInsideSplit(r: Reader, a: seq<byte>, b: seq<byte>)
    requires EndsInside(r, a + b) && |a| <= Remaining(r)
    ensures At(r, a) && EndsInside(Skip(r, |a|), b)
  {
    assert r.data[r.pos..][..|a|] == (a + b)[..|a|];
    assert r.data[r.pos + |a|..] == r.data[r.pos..][|a|..];
  }

  lemma EndsInsideHead(r: Reader, a: seq<byte>, b: seq<byte>)
    requires EndsInside(r, a + b) && Remaining(r) < |a|
    ensures EndsInside(r, a)
  {
  }

  // ---------------------------------------------------------------------------
  // ShroomList: an I8 count, then that many elements
  // ---------------------------------------------------------------------------

  function EncodeItems<T>(c: Codec<T>, items: seq<T>): seq<byte>
  {
    if |items| == 0 then [] else c.encode(items[0]) + EncodeItems(c, items[1..])
  }

  /** The count is written as `(byte)items.Count`, then every element. */
  function EncodeList<T>(c: Codec<T>, items: seq<T>): (bs: seq<byte>)
    ensures |bs| == 1 + |EncodeItems(c, items)| && bs[0] == |items| % 256
    ensures bs[1..] == EncodeItems(c, items)
  {
    EncodeI8(I8OfLength(|items|)) + EncodeItems(c, items)
  }

  /** Exactly `n` elements, in order. */
  function DecodeItems<T>(c: Codec<T>, r: Reader, n: nat): (res: Result<Parsed<seq<T>>>)
    ensures res.Ok? ==> |res.value.value| == n
    decreases n
  {
    if n == 0 then Ok(Parsed([], r))
    else
      var x :- c.decode(r);
      var rest :- DecodeItems(c, x.next, n - 1);
      Ok(Parsed([x.value] + rest.value, rest.next))
  }

  /** The count byte, then exactly that many elements. */
  function DecodeList<T>(c: Codec<T>, r: Reader): (res: Result<Parsed<seq<T>>>)
    ensures Remaining(r) == 0 ==> res == Err(Truncated)
    ensures res.Ok? ==> |res.value.value| == r.data[r.pos]
  {
    var len :- DecodeI8(r);
    DecodeItems(c, len.next, len.value.Length())
  }

  lemma {:induction false} ItemsRoundTrip<T(!new)>(c: Codec<T>, r: Reader, items: seq<T>)
    requires RoundTrips(c)
    requires At(r, EncodeItems(c, items))
    ensures DecodeItems(c, r, |items|) == Ok(Parsed(items, Skip(r, |EncodeItems(c, items)|)))
    decreases |items|
  {
    if |items| > 0 {
      var head := c.encode(items[0]);
      AtSplit(r, head, EncodeItems(c, items[1..]));
      ItemsRoundTrip(c, Skip(r, |head|), items[1..]);
      assert [items[0]] + items[1..] == items;
    }
  }

  lemma {:induction false} ItemsSplit<T>(c: Codec<T>, items: seq<T>, k: nat)
    requires k <= |items|
    ensures EncodeItems(c, items) == EncodeItems(c, items[..k]) + EncodeItems(c, items[k..])
  {
    if k > 0 {
      ItemsSplit(c, items[1..], k - 1);
      assert items[1..][..k - 1] == items[1..k];
      assert items[..k][1..] == items[1..k];
      assert items[1..][k - 1..] == items[k..];
    }
  }

  /** Lists of up to 255 elements round-trip. */
  lemma ListRoundTrip<T(!new)>(c: Codec<T>, r: Reader, items: seq<T>)
    requires RoundTrips(c)
    requires |items| < 256
    requires At(r, EncodeList(c, items))
    ensures DecodeList(c, r) == Ok(Parsed(items, Skip(r, |EncodeList(c, items)|)))
  {
    var count := I8OfLength(|items|);
    AtSplit(r, EncodeI8(count), EncodeItems(c, items));
    ReadWriteByte(r, count.inner);
    ItemsRoundTrip(c, Skip(r, 1), items);
  }

  /** A longer list has its count wrapped modulo 256: decoding reads only the
      first `|items| % 256` elements and leaves the rest unread. */
  lemma ListCountWraps<T(!new)>(c: Codec<T>, r: Reader, items: seq<T>)
    requires RoundTrips(c)
    requires At(r, EncodeList(c, items))
    ensures var k := |items| % 256; var res := DecodeList(c, r);
      res.Ok? && res.value.value == items[..k] && res.value.next.pos == r.pos + 1 + |EncodeItems(c, items[..k])|
  {
    var k := |items| % 256;
    var count := I8OfLength(|items|);
    ItemsSplit(c, items, k);
    AtSplit(r, EncodeI8(count), EncodeItems(c, items));
    ReadWriteByte(r, count.inner);
    AtSplit(Skip(r, 1), EncodeItems(c, items[..k]), EncodeItems(c, items[k..]));
    ItemsRoundTrip(c, Skip(r, 1), items[..k]);
  }

  lemma {:induction false} ItemsTruncated<T(!new)>(c: Codec<T>, r: Reader, items: seq<T>)
    requires RoundTrips(c) && FailsWhenTruncated(c)
    requires EndsInside(r, EncodeItems(c, items))
    ensures DecodeItems(c, r, |items|).Err?
    decreases |items|
  {
    var head := c.encode(items[0]);
    var tail := EncodeItems(c, items[1..]);
    if Remaining(r) < |head| {
      EndsInsideHead(r, head, tail);
    } else {
      EndsInsideSplit(r, head, tail);
      ItemsTruncated(c, Skip(r, |head|), items[1..]);
    }
  }

  /** A buffer that ends before the last element is complete fails to decode. */
  lemma ListTruncated<T(!new)>(c: Codec<T>, r: Reader, items: seq<T>)
    requires RoundTrips(c) && FailsWhenTruncated(c)
    requires |items| < 256
    requires EndsInside(r, EncodeList(c, items))
    ensures DecodeList(c, r).Err?
  {
    var count := I8OfLength(|items|);
    if Remaining(r) > 0 {
      EndsInsideSplit(r, EncodeI8(count), EncodeItems(c, items));
      ReadWriteByte(r, count.inner);
      ItemsTruncated(c, Skip(r, 1), items);
    }
  }

  // ---------------------------------------------------------------------------
  // ShroomIndexList: (index, element) pairs, ended by a terminal index
  // ---------------------------------------------------------------------------

  function EncodeEntries<T>(c: Codec<T>, items: seq<(I8, T)>): seq<byte>
  {
    if |items| == 0 then []
    else EncodeI8(items[0].0) + c.encode(items[0].1) + EncodeEntries(c, items[1..])
  }

  /** Every pair, then an index of length 0 as terminal. */
  function EncodeIndexList<T>(c: Codec<T>, items: seq<(I8, T)>): (bs: seq<byte>)
    ensures |bs| == |EncodeEntries(c, items)| + 1 && bs[|bs| - 1] == 0
    ensures bs[..|bs| - 1] == EncodeEntries(c, items)
  {
    EncodeEntries(c, items) + EncodeI8(I8OfLength(0))
  }

  /** Pairs up to the first terminal index, which is consumed but not kept. */
  function DecodeIndexList<T>(c: Codec<T>, r: Reader): (res: Result<Parsed<seq<(I8, T)>>>)
    requires Advancing(c)
    ensures Remaining(r) == 0 ==> res == Err(Truncated)
    ensures res.Ok? ==> NoTerminalIndex(res.value.value)
    decreases Remaining(r)
  {
    var ix :- DecodeI8(r);
    if ix.value.IsTerminal() then Ok(Parsed([], ix.next))
    else
      var v :- c.decode(ix.next);
      var rest :- DecodeIndexList(c, v.next);
      Ok(Parsed([(ix.value, v.value)] + rest.value, rest.next))
  }

  predicate NoTerminalIndex<T>(items: seq<(I8, T)>)
  {
    forall i :: 0 <= i < |items| ==> !items[i].0.IsTerminal()
  }

  lemma Regroup(a: seq<byte>, b: seq<byte>, c: seq<byte>, d: seq<byte>)
    ensures a + b + c + d == a + (b + (c + d))
  {
  }

  lemma EntrySplit<T>(c: Codec<T>, r: Reader, items: seq<(I8, T)>, tail: seq<byte>)
    requires |items| > 0
    requires At(r, EncodeEntries(c, items) + tail)
    ensures At(r, EncodeI8(items[0].0))
    ensures At(Skip(r, 1), c.encode(items[0].1))
    ensures At(Skip(Skip(r, 1), |c.encode(items[0].1)|), EncodeEntries(c, items[1..]) + tail)
  {
    var ix := EncodeI8(items[0].0);
    var v := c.encode(items[0].1);
    var rest := EncodeEntries(c, items[1..]);
    assert EncodeEntries(c, items) == ix + v + rest;
    Regroup(ix, v, rest, tail);
    AtSplit(r, ix, v + (rest + tail));
    AtSplit(Skip(r, 1), v, rest + tail);
  }

  lemma EntriesLength<T>(c: Codec<T>, items: seq<(I8, T)>)
    requires |items| > 0
    ensures |EncodeEntries(c, items)| == 1 + |c.encode(items[0].1)| + |EncodeEntries(c, items[1..])|
  {
  }

  /** A lone terminal index decodes to the empty list. */
  lemma TerminalOnly<T>(c: Codec<T>, r: Reader)
    requires Advancing(c) && At(r, [0])
    ensures var res := DecodeIndexList(c, r);
      res.Ok? && res.value.value == [] && res.value.next.data == r.data && res.value.next.pos == r.pos + 1
  {
    ReadWriteByte(r, 0);
    assert DecodeI8(r) == Ok(Parsed(I8(0), Skip(r, 1)));
  }

  /** The first pair of a non-empty entry list, decoded in front of the rest. */
  lemma EntriesHead<T>(c: Codec<T>, r: Reader, items: seq<(I8, T)>, r2: Reader)
    requires Advancing(c) && NoTerminalIndex(items) && |items| > 0
    requires At(r, EncodeI8(items[0].0))
    requires c.decode(Skip(r, 1)) == Ok(Parsed(items[0].1, r2))
    requires var rest := DecodeIndexList(c, r2);
      rest.Ok? && rest.value.value == items[1..] && rest.value.next.data == r.data &&
      rest.value.next.pos == r.pos + 1 + |c.encode(items[0].1)| + |EncodeEntries(c, items[1..])| + 1
    ensures var res := DecodeIndexList(c, r);
      res.Ok? && res.value.value == items && res.value.next.data == r.data &&
      res.value.next.pos == r.pos + |EncodeEntries(c, items)| + 1
  {
    ReadWriteByte(r, items[0].0.inner);
    assert [(items[0].0, items[0].1)] + items[1..] == items;
    EntriesLength(c, items);
  }

  /** Decoding the entries and terminal gives the entries, the reader after them. */
  lemma {:induction false} EntriesRoundTrip<T(!new)>(c: Codec<T>, r: Reader, items: seq<(I8, T)>)
    requires RoundTrips(c) && Advancing(c)
    requires At(r, EncodeEntries(c, items) + [0])
    requires NoTerminalIndex(items)
    ensures var res := DecodeIndexList(c, r);
      res.Ok? && res.value.value == items && res.value.next.data == r.data &&
      res.value.next.pos == r.pos + |EncodeEntries(c, items)| + 1
    decreases |items|
  {
    if |items| == 0 {
      TerminalOnly(c, r);
    } else {
      var r1 := Skip(r, 1);
      var r2 := Skip(r1, |c.encode(items[0].1)|);
      EntrySplit(c, r, items, [0]);
      EntriesRoundTrip(c, r2, items[1..]);
      EntriesHead(c, r, items, r2);
    }
  }

  /** An index list without a zero index round-trips. */
  lemma IndexListRoundTrip<T(!new)>(c: Codec<T>, r: Reader, items: seq<(I8, T)>)
    requires RoundTrips(c) && Advancing(c)
    requires NoTerminalIndex(items)
    requires At(r, EncodeIndexList(c, items))
    ensures DecodeIndexList(c, r) == Ok(Parsed(items, Skip(r, |EncodeIndexList(c, items)|)))
  {
    EntriesRoundTrip(c, r, items);
  }

  /** A zero index among the stored pairs reads as the terminal: decoding
      stops there and returns only the pairs before it. */
  lemma {:induction false} IndexListCut<T(!new)>(c: Codec<T>, r: Reader, items: seq<(I8, T)>, k: nat)
    requires RoundTrips(c) && Advancing(c)
    requires k < |items| && items[k].0.IsTerminal() && NoTerminalIndex(items[..k])
    requires At(r, EncodeEntries(c, items))
    ensures var res := DecodeIndexList(c, r);
      res.Ok? && res.value.value == items[..k] && res.value.next.pos == r.pos + |EncodeEntries(c, items[..k])| + 1
    decreases k
  {
    assert EncodeEntries(c, items) == EncodeEntries(c, items) + [];
    EntrySplit(c, r, items, []);
    var ix := items[0].0;
    ReadWriteByte(r, ix.inner);
    assert DecodeI8(r) == Ok(Parsed(ix, Skip(r, 1)));
    if k > 0 {
      var x := items[0].1;
      var n := |c.encode(x)|;
      var r1 := Skip(r, 1);
      assert c.decode(r1) == Ok(Parsed(x, Skip(r1, n)));
      var r2 := Skip(r1, n);
      assert items[1..][..k - 1] == items[..k][1..];
      assert EncodeEntries(c, items) + [] == EncodeEntries(c, items);
      IndexListCut(c, r2, items[1..], k - 1);
      assert [items[0]] + items[1..][..k - 1] == items[..k];
      assert |EncodeEntries(c, items[..k])| == 1 + n + |EncodeEntries(c, items[..k][1..])|;
    } else {
      assert ix.IsTerminal();
    }
  }

  /** Decoding the encoding of an index list gives the list back exactly when
      no stored index is zero. */
  lemma IndexListRoundTripIff<T(!new)>(c: Codec<T>, items: seq<(I8, T)>)
    requires RoundTrips(c) && Advancing(c)
    ensures var bs := EncodeIndexList(c, items);
      var res := DecodeIndexList(c, Start(bs));
      (res.Ok? && res.value.value == items) <==> NoTerminalIndex(items)
  {
    var bs := EncodeIndexList(c, items);
    if NoTerminalIndex(items) {
      IndexListRoundTrip(c, Start(bs), items);
    } else {
      var k :| 0 <= k < |items| && items[k].0.IsTerminal();
      k := FirstTerminal(items, k);
      AtSplit(Start(bs), EncodeEntries(c, items), EncodeI8(I8OfLength(0)));
      IndexListCut(c, Start(bs), items, k);
    }
  }

  /** The position of the first terminal index, at or before `k`. */
  lemma {:induction false} FirstTerminal<T>(items: seq<(I8, T)>, k: nat) returns (j: nat)
    requires k < |items| && items[k].0.IsTerminal()
    ensures j <= k && items[j].0.IsTerminal() && NoTerminalIndex(items[..j])
    decreases k
  {
    if NoTerminalIndex(items[..k]) {
      j := k;
    } else {
      var i :| 0 <= i < k && items[..k][i].0.IsTerminal();
      j := FirstTerminal(items, i);
    }
  }

  lemma {:induction false} EntriesTruncated<T(!new)>(c: Codec<T>, r: Reader, items: seq<(I8, T)>)
    requires RoundTrips(c) && Advancing(c) && FailsWhenTruncated(c)
    requires NoTerminalIndex(items)
    requires EndsInside(r, EncodeEntries(c, items) + [0])
    ensures DecodeIndexList(c, r).Err?
    decreases |items|
  {
    if |items| > 0 && Remaining(r) > 0 {
      var ix := EncodeI8(items[0].0);
      var v := c.encode(items[0].1);
      var rest := EncodeEntries(c, items[1..]) + [0];
      assert EncodeEntries(c, items) + [0] == ix + (v + rest);
      EndsInsideSplit(r, ix, v + rest);
      ReadWriteByte(r, items[0].0.inner);
      if Remaining(Skip(r, 1)) < |v| {
        EndsInsideHead(Skip(r, 1), v, rest);
      } else {
        EndsInsideSplit(Skip(r, 1), v, rest);
        EntriesTruncated(c, Skip(r, 1 + |v|), items[1..]);
      }
    }
  }

  /** A buffer that ends before the terminal index fails to decode. */
  lemma IndexListTruncated<T(!new)>(c: Codec<T>, r: Reader, items: seq<(I8, T)>)
    requires RoundTrips(c) && Advancing(c) && FailsWhenTruncated(c)
    requires NoTerminalIndex(items)
    requires EndsInside(r, EncodeIndexList(c, items))
    ensures DecodeIndexList(c, r).Err?
  {
    EntriesTruncated(c, r, items);
  }
}
