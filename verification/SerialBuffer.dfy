/**
 The libtrpc serial buffer: a growing byte stack. Writers push integers in network byte order
 (Appendix B of RFC 791) and length-suffixed strings; readers pop them in reverse.
 */
module SerialBuffer {
  import opened Wrappers
  import opened Division

  type Byte = x: int | 0 <= x < 256

  type Width = w: nat | w == 1 || w == 2 || w == 4 || w == 8 witness 1

  const INITIAL_SIZE: nat := 32

  const U32: nat := 0x1_0000_0000

  // ----- integers as big-endian bytes

  function Pow256(k: nat): (p: nat)
    ensures p > 0
  {
    if k == 0 then 1 else 256 * Pow256(k - 1)
  }

  function BigEndian(v: nat, k: nat): (bs: seq<Byte>)
    ensures |bs| == k
  {
    if k == 0 then [] else BigEndian(v / 256, k - 1) + [v % 256]
  }

  function FromBigEndian(bs: seq<Byte>): nat
  {
    if bs == [] then 0 else FromBigEndian(bs[..|bs| - 1]) * 256 + bs[|bs| - 1]
  }

  /** The value of an integer stored in w unsigned bytes, two's complement for negative ones. */
  function Wrap(v: int, w: Width): (n: nat)
    ensures n < Pow256(w)
  {
    v % Pow256(w)
  }

  lemma {:induction false} BigEndianRoundTrip(v: nat, k: nat)
    requires v < Pow256(k)
    ensures FromBigEndian(BigEndian(v, k)) == v
  {
    if k > 0 {
      BigEndianRoundTrip(v / 256, k - 1);
      var bs := BigEndian(v, k);
      assert bs[..k - 1] == BigEndian(v / 256, k - 1);
    }
  }

  lemma {:induction false} BytesRoundTrip(bs: seq<Byte>)
    ensures FromBigEndian(bs) < Pow256(|bs|) && BigEndian(FromBigEndian(bs), |bs|) == bs
  {
    if bs != [] {
      var init, b := bs[..|bs| - 1], bs[|bs| - 1];
      BytesRoundTrip(init);
      assert FromBigEndian(bs) / 256 == FromBigEndian(init) && FromBigEndian(bs) % 256 == b;
      assert bs == init + [b];
    }
  }

  /** Network byte order: the most significant byte comes first. */
  lemma {:induction false} MostSignificantByteFirst(v: nat, k: nat)
    requires 0 < k && v < Pow256(k)
    ensures BigEndian(v, k)[0] == v / Pow256(k - 1)
    ensures BigEndian(v, k)[1..] == BigEndian(v % Pow256(k - 1), k - 1)
  {
    if k > 1 {
      var p := Pow256(k - 2);
      MostSignificantByteFirst(v / 256, k - 1);
      SplitPower(v, p);
      var bs, head := BigEndian(v, k), BigEndian(v / 256, k - 1);
      assert bs[1..] == head[1..] + [v % 256];
    } else {
      assert v < 256;
    }
  }

  lemma SplitPower(v: nat, p: nat)
    requires p > 0
    ensures (v / 256) / p == v / (256 * p)
    ensures (v % (256 * p)) / 256 == (v / 256) % p && (v % (256 * p)) % 256 == v % 256
  {
    var q, r := (v / 256) / p, (v / 256) % p;
    var low := 256 * r + v % 256;
    assert v / 256 == p * q + r;
    assert v == (256 * p) * q + low by {
      assert v == 256 * (p * q + r) + v % 256;
      assert 256 * (p * q) == (256 * p) * q;
    }
    assert 0 <= low < 256 * p;
    UniqueQuotient(v, 256 * p, q, low);
  }

  lemma WidthLimits()
    ensures Pow256(1) == 0x100 && Pow256(2) == 0x1_0000 && Pow256(4) == U32
    ensures Pow256(8) == 0x1_0000_0000_0000_0000
  {
  }

  // ----- the stack of bytes as a value

  /** The characters before the first NUL. */
  function CStr(t: seq<Byte>): (s: seq<Byte>)
    ensures s <= t && 0 !in s
    ensures |s| < |t| ==> t[|s|] == 0
  {
    if t == [] || t[0] == 0 then [] else [t[0]] + CStr(t[1..])
  }

  /** A blob length is passed as 32 bits, so that many leading bytes are stored. */
  function Stored(t: seq<Byte>): seq<Byte>
  {
    t[..|t| % U32]
  }

  function PushInt(bs: seq<Byte>, v: int, w: Width): seq<Byte>
  {
    bs + BigEndian(Wrap(v, w), w)
  }

  function PushBlob(bs: seq<Byte>, t: seq<Byte>): seq<Byte>
  {
    bs + Stored(t) + BigEndian(|Stored(t)|, 4)
  }

  function PushStr(bs: seq<Byte>, t: seq<Byte>): seq<Byte>
  {
    PushBlob(bs, CStr(t))
  }

  function PopInt(bs: seq<Byte>, w: Width): Option<(nat, seq<Byte>)>
  {
    if |bs| < w then None
    else Some((FromBigEndian(bs[|bs| - w..]), bs[..|bs| - w]))
  }

  function PopBlob(bs: seq<Byte>): Option<(seq<Byte>, seq<Byte>)>
  {
    var (n, rest) :- PopInt(bs, 4);
    if |rest| < n then None else Some((rest[|rest| - n..], rest[..|rest| - n]))
  }

  lemma PopIntUndoesPush(bs: seq<Byte>, v: int, w: Width)
    ensures PopInt(PushInt(bs, v, w), w) == Some((Wrap(v, w), bs))
  {
    var pushed := PushInt(bs, v, w);
    assert pushed[|pushed| - w..] == BigEndian(Wrap(v, w), w);
    assert pushed[..|pushed| - w] == bs;
    BigEndianRoundTrip(Wrap(v, w), w);
  }

  lemma PopBlobUndoesPush(bs: seq<Byte>, t: seq<Byte>)
    ensures PopBlob(PushBlob(bs, t)) == Some((Stored(t), bs))
  {
    var s := Stored(t);
    WidthLimits();
    assert Wrap(|s|, 4) == |s|;
    assert PushBlob(bs, t) == PushInt(bs + s, |s|, 4);
    PopIntUndoesPush(bs + s, |s|, 4);
    assert (bs + s)[|bs|..] == s && (bs + s)[..|bs|] == bs;
  }

  /** A string comes back up to its first NUL; 2^32 characters or more are cut as any blob is. */
  lemma PopStrUndoesPush(bs: seq<Byte>, t: seq<Byte>)
    ensures PopBlob(PushStr(bs, t)) == Some((Stored(CStr(t)), bs))
  {
    PopBlobUndoesPush(bs, CStr(t));
  }

  lemma ShortIsStoredWhole(t: seq<Byte>)
    requires |t| < U32
    ensures Stored(t) == t
  {
  }

  // ----- lists: pushed front to back, popped back to front

  function PushEach<T>(push: (seq<Byte>, T) -> seq<Byte>, bs: seq<Byte>, xs: seq<T>): seq<Byte>
  {
    if xs == [] then bs else push(PushEach(push, bs, xs[..|xs| - 1]), xs[|xs| - 1])
  }

  /** Pops n values; each goes to the front of the list, as in a singly linked list. */
  function PopEach<V>(pop: seq<Byte> -> Option<(V, seq<Byte>)>, bs: seq<Byte>, n: nat, list: seq<V>)
    : Option<(seq<V>, seq<Byte>)>
    decreases n
  {
    if n == 0 then Some((list, bs)) else
      var (v, rest) :- pop(bs);
      PopEach(pop, rest, n - 1, [v] + list)
  }

  lemma {:induction false} PushEachInParts<T>(push: (seq<Byte>, T) -> seq<Byte>, bs: seq<Byte>, xs: seq<T>, ys: seq<T>)
    ensures PushEach(push, PushEach(push, bs, xs), ys) == PushEach(push, bs, xs + ys)
  {
    if ys == [] {
      assert xs + ys == xs;
    } else {
      PushEachInParts(push, bs, xs, ys[..|ys| - 1]);
      assert (xs + ys)[..|xs + ys| - 1] == xs + ys[..|ys| - 1];
    }
  }

  lemma {:induction false} PushEachOnlyAppends<T(!new)>(push: (seq<Byte>, T) -> seq<Byte>, bs: seq<Byte>, xs: seq<T>)
    requires forall b, x :: b <= push(b, x)
    ensures bs <= PushEach(push, bs, xs)
  {
    if xs != [] {
      PushEachOnlyAppends(push, bs, xs[..|xs| - 1]);
    }
  }

  function Map<T, V>(f: T -> V, xs: seq<T>): seq<V>
  {
    seq(|xs|, i requires 0 <= i < |xs| => f(xs[i]))
  }

  /** If one pop undoes one push, then popping a whole list restores its order: popping reverses it
      and building the list from the front reverses it back. */
  lemma {:induction false} PopEachUndoesPush<T(!new), V>(push: (seq<Byte>, T) -> seq<Byte>,
      pop: seq<Byte> -> Option<(V, seq<Byte>)>, view: T -> V, bs: seq<Byte>, xs: seq<T>, list: seq<V>)
    requires forall b, x :: pop(push(b, x)) == Some((view(x), b))
    ensures PopEach(pop, PushEach(push, bs, xs), |xs|, list) == Some((Map(view, xs) + list, bs))
  {
    if xs == [] {
      assert Map(view, xs) + list == list;
    } else {
      var init, x := xs[..|xs| - 1], xs[|xs| - 1];
      PopEachUndoesPush(push, pop, view, bs, init, [view(x)] + list);
      assert Map(view, xs) + list == Map(view, init) + ([view(x)] + list);
    }
  }

  // ----- any sequence of pushes, popped in reverse

  datatype Item = Number(value: int, width: Width) | Blob(bytes: seq<Byte>) | Text(chars: seq<Byte>)

  datatype Kind = NumberKind(width: Width) | BlobKind

  datatype Value = NumberValue(n: nat) | BytesValue(bytes: seq<Byte>)

  function Push(bs: seq<Byte>, item: Item): seq<Byte>
  {
    match item
    case Number(v, w) => PushInt(bs, v, w)
    case Blob(t) => PushBlob(bs, t)
    case Text(t) => PushStr(bs, t)
  }

  function KindOf(item: Item): Kind
  {
    if item.Number? then NumberKind(item.width) else BlobKind
  }

  /** What the reader gets for a pushed item. */
  function ValueOf(item: Item): Value
  {
    match item
    case Number(v, w) => NumberValue(Wrap(v, w))
    case Blob(t) => BytesValue(Stored(t))
    case Text(t) => BytesValue(Stored(CStr(t)))
  }

  function Pop(bs: seq<Byte>, kind: Kind): Option<(Value, seq<Byte>)>
  {
    match kind
    case NumberKind(w) =>
      var (n, rest) :- PopInt(bs, w);
      Some((NumberValue(n), rest))
    case BlobKind =>
      var (t, rest) :- PopBlob(bs);
      Some((BytesValue(t), rest))
  }

  function PushAll(bs: seq<Byte>, items: seq<Item>): seq<Byte>
  {
    PushEach(Push, bs, items)
  }

  /** Pops the last kind first; the values come back in push order. */
  function PopAll(bs: seq<Byte>, kinds: seq<Kind>): Option<(seq<Value>, seq<Byte>)>
    decreases |kinds|
  {
    if kinds == [] then Some(([], bs)) else
      var (v, rest) :- Pop(bs, kinds[|kinds| - 1]);
      var (vs, bottom) :- PopAll(rest, kinds[..|kinds| - 1]);
      Some((vs + [v], bottom))
  }

  function Kinds(items: seq<Item>): seq<Kind>
  {
    seq(|items|, i requires 0 <= i < |items| => KindOf(items[i]))
  }

  function Values(items: seq<Item>): seq<Value>
  {
    seq(|items|, i requires 0 <= i < |items| => ValueOf(items[i]))
  }

  lemma PopUndoesPush(bs: seq<Byte>, item: Item)
    ensures Pop(Push(bs, item), KindOf(item)) == Some((ValueOf(item), bs))
  {
    match item
    case Number(v, w) => PopIntUndoesPush(bs, v, w);
    case Blob(t) => PopBlobUndoesPush(bs, t);
    case Text(t) => PopBlobUndoesPush(bs, CStr(t));
  }

  /** Any pushes followed by the matching pops in reverse give the values back and leave the bytes
      that were there before. */
  lemma {:induction false} StackRoundTrip(bs: seq<Byte>, items: seq<Item>)
    ensures PopAll(PushAll(bs, items), Kinds(items)) == Some((Values(items), bs))
  {
    if items == [] {
      assert Kinds(items) == [] && Values(items) == [];
    } else {
      var init, item := items[..|items| - 1], items[|items| - 1];
      var below := PushAll(bs, init);
      StackRoundTrip(bs, init);
      SplitLast(items);
      PopLast(below, item, Kinds(items), Values(init), bs);
    }
  }

  lemma SplitLast(items: seq<Item>)
    requires items != []
    ensures var init, item := items[..|items| - 1], items[|items| - 1];
      && Kinds(items)[..|items| - 1] == Kinds(init) && Kinds(items)[|items| - 1] == KindOf(item)
      && Values(items) == Values(init) + [ValueOf(item)]
  {
  }

  lemma {:induction false} PopLast(below: seq<Byte>, item: Item, kinds: seq<Kind>, vs: seq<Value>, bottom: seq<Byte>)
    requires kinds != [] && kinds[|kinds| - 1] == KindOf(item)
    requires PopAll(below, kinds[..|kinds| - 1]) == Some((vs, bottom))
    ensures PopAll(Push(below, item), kinds) == Some((vs + [ValueOf(item)], bottom))
  {
    PopUndoesPush(below, item);
  }

  lemma TopItem(below: seq<Byte>, items: seq<Item>, i: nat)
    requires i < |items|
    ensures Pop(PushAll(below, items[..i + 1]), KindOf(items[i])) ==
            Some((ValueOf(items[i]), PushAll(below, items[..i])))
    ensures Values(items)[i..] == [ValueOf(items[i])] + Values(items)[i + 1..]
  {
    assert items[..i + 1][..i] == items[..i];
    PopUndoesPush(PushAll(below, items[..i]), items[i]);
  }

  /** A signed integer of w bytes is recovered exactly by reading its pattern as two's complement. */
  lemma SignedValueRecovered(v: int, w: Width)
    requires -(Pow256(w) / 2) <= v < Pow256(w) / 2
    ensures v == if Wrap(v, w) < Pow256(w) / 2 then Wrap(v, w) else Wrap(v, w) - Pow256(w)
  {
  }

  // ----- the buffer in place

  class SerialBuf {
    var data: array<Byte>
    var pos: nat

    ghost predicate Valid()
      reads this
    {
      pos <= data.Length
    }

    ghost function Contents(): seq<Byte>
      requires Valid()
      reads this, data
    {
      data[..pos]
    }

    constructor New(size: nat)
      ensures Valid() && fresh(data) && Contents() == []
      ensures data.Length == if size == 0 then 32 else size
    {
      data := new Byte[if size == 0 then INITIAL_SIZE else size];
      pos := 0;
    }

    constructor Make(bytes: array<Byte>)
      ensures Valid() && data == bytes && Contents() == bytes[..]
    {
      data := bytes;
      pos := bytes.Length;
    }

    /** Make room for n more bytes: double the buffer, and add n where doubling is not enough. */
    method Reserve(n: nat)
      requires Valid()
      modifies this`data
      ensures Valid() && Contents() == old(Contents())
      ensures pos + n <= data.Length
      ensures data == old(data) || fresh(data)
    {
      if pos + n > data.Length {
        var newSize := data.Length * 2;
        if pos + n > newSize {
          newSize := newSize + n;
        }
        var bigger := new Byte[newSize];
        forall i | 0 <= i < data.Length {
          bigger[i] := data[i];
        }
        data := bigger;
      }
    }

    method Append(bytes: seq<Byte>)
      requires Valid() && pos + |bytes| <= data.Length
      modifies this`pos, data
      ensures Valid() && Contents() == old(Contents()) + bytes
    {
      forall i | 0 <= i < |bytes| {
        data[pos + i] := bytes[i];
      }
      pos := pos + |bytes|;
      assert data[..pos] == old(data[..pos]) + bytes;
    }

    method SerializeInt(v: int, w: Width)
      requires Valid()
      modifies this, data
      ensures Valid() && Contents() == PushInt(old(Contents()), v, w)
      ensures data == old(data) || fresh(data)
    {
      Reserve(w);
      Append(BigEndian(Wrap(v, w), w));
    }

    method SerializeBlob(t: seq<Byte>)
      requires Valid()
      modifies this, data
      ensures Valid() && Contents() == PushBlob(old(Contents()), t)
      ensures data == old(data) || fresh(data)
    {
      var stored := t[..|t| % U32];
      Reserve(|stored| + 4);
      Append(stored);
      Append(BigEndian(|stored|, 4));
    }

    method SerializeStr(t: seq<Byte>)
      requires Valid()
      modifies this, data
      ensures Valid() && Contents() == PushStr(old(Contents()), t)
      ensures data == old(data) || fresh(data)
    {
      SerializeBlob(CStr(t));
    }

    method DeserializeInt(w: Width) returns (ok: bool, v: nat)
      requires Valid()
      modifies this`pos
      ensures Valid()
      ensures ok == PopInt(old(Contents()), w).Some?
      ensures ok ==> PopInt(old(Contents()), w) == Some((v, Contents()))
      ensures !ok ==> Contents() == old(Contents())
    {
      v := 0;
      if pos < w {
        return false, v;
      }
      pos := pos - w;
      v := FromBigEndian(data[pos..pos + w]);
      assert data[..pos + w][pos..] == data[pos..pos + w];
      assert data[..pos + w][..pos] == data[..pos];
      ok := true;
    }

    /** A length that exceeds what is left is refused after the length itself was consumed. */
    method DeserializeBlob() returns (ok: bool, t: seq<Byte>)
      requires Valid()
      modifies this`pos
      ensures Valid()
      ensures ok == PopBlob(old(Contents())).Some?
      ensures ok ==> PopBlob(old(Contents())) == Some((t, Contents()))
      ensures !ok ==> Contents() <= old(Contents())
    {
      t := [];
      var n;
      ok, n := DeserializeInt(4);
      if !ok {
        return;
      }
      if pos < n {
        return false, t;
      }
      pos := pos - n;
      t := data[pos..pos + n];
      assert data[..pos + n][pos..] == data[pos..pos + n];
      assert data[..pos + n][..pos] == data[..pos];
    }

    method SerializeItem(item: Item)
      requires Valid()
      modifies this, data
      ensures Valid() && Contents() == Push(old(Contents()), item)
      ensures data == old(data) || fresh(data)
    {
      match item
      case Number(v, w) => SerializeInt(v, w);
      case Blob(t) => SerializeBlob(t);
      case Text(t) => SerializeStr(t);
    }

    method DeserializeItem(kind: Kind) returns (r: Option<Value>)
      requires Valid()
      modifies this`pos
      ensures Valid()
      ensures r.Some? == Pop(old(Contents()), kind).Some?
      ensures r.Some? ==> Pop(old(Contents()), kind) == Some((r.value, Contents()))
    {
      match kind
      case NumberKind(w) =>
        var ok, v := DeserializeInt(w);
        r := if ok then Some(NumberValue(v)) else None;
      case BlobKind =>
        var ok, t := DeserializeBlob();
        r := if ok then Some(BytesValue(t)) else None;
    }

    method SerializeAll(items: seq<Item>)
      requires Valid()
      modifies this, data
      ensures Valid() && Contents() == PushAll(old(Contents()), items)
      ensures data == old(data) || fresh(data)
    {
      for i := 0 to |items|
        invariant Valid() && Contents() == PushAll(old(Contents()), items[..i])
        invariant data == old(data) || fresh(data)
      {
        assert items[..i + 1][..i] == items[..i];
        SerializeItem(items[i]);
      }
      assert items[..|items|] == items;
    }

    /** Pops everything that was pushed as items: same values, same bytes underneath, however often
        the storage moved in between. */
    method DeserializeAll(items: seq<Item>, ghost below: seq<Byte>) returns (values: seq<Value>)
      requires Valid() && Contents() == PushAll(below, items)
      modifies this`pos
      ensures Valid() && Contents() == below
      ensures values == Values(items)
    {
      values := [];
      assert items[..|items|] == items;
      for i := |items| downto 0
        invariant Valid() && Contents() == PushAll(below, items[..i])
        invariant values == Values(items)[i..]
      {
        TopItem(below, items, i);
        var v := DeserializeItem(KindOf(items[i]));
        values := [v.value] + values;
      }
    }
  }
}
