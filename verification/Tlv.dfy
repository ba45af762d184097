/**
 The three length-prefixed formats the scan decoder of iw/scan.c walks: information elements
 (id, 8-bit length), WPS attributes (type and length 16 bits, big-endian) and P2P attributes
 (8-bit type, 16-bit little-endian length).
 */
module Tlv {
  type Byte = b: int | 0 <= b < 0x100

  datatype Format = Element | Wps | P2p

  datatype Item = Item(id: nat, body: seq<Byte>)

  datatype Parsed = Parsed(items: seq<Item>, tail: seq<Byte>)

  /** `(high << 8) + low`, which fits the 16-bit variable it is assigned to. */
  function U16(high: nat, low: nat): (n: nat)
    requires high < 0x100 && low < 0x100
    ensures n < 0x1_0000
  {
    high * 0x100 + low
  }

  // ----- Serialising

  function HeaderLen(f: Format): (n: nat)
    ensures 2 <= n <= 4
  {
    match f case Element => 2 case Wps => 4 case P2p => 3
  }

  /** Ids and lengths the header has room for. */
  predicate Fits(f: Format, item: Item) {
    && item.id < (if f.Wps? then 0x1_0000 else 0x100)
    && |item.body| < (if f.Element? then 0x100 else 0x1_0000)
  }

  function Header(f: Format, item: Item): (h: seq<Byte>)
    requires Fits(f, item)
    ensures |h| == HeaderLen(f)
  {
    var len := |item.body|;
    match f
    case Element => [item.id, len]
    case Wps => [item.id / 0x100, item.id % 0x100, len / 0x100, len % 0x100]
    case P2p => [item.id, len % 0x100, len / 0x100]
  }

  predicate AllFit(f: Format, items: seq<Item>) {
    forall i | 0 <= i < |items| :: Fits(f, items[i])
  }

  function Serialise(f: Format, items: seq<Item>): seq<Byte>
    requires AllFit(f, items)
  {
    if items == [] then [] else Header(f, items[0]) + items[0].body + Serialise(f, items[1..])
  }

  // ----- Parsing

  /** The id in the header at the front of `data`. */
  function HeadId(f: Format, data: seq<Byte>): (id: nat)
    requires |data| >= HeaderLen(f)
  {
    match f
    case Element => data[0]
    case Wps => U16(data[0], data[1])
    case P2p => data[0]
  }

  function HeadLength(f: Format, data: seq<Byte>): (len: nat)
    requires |data| >= HeaderLen(f)
  {
    match f
    case Element => data[1]
    case Wps => U16(data[2], data[3])
    case P2p => U16(data[2], data[1])
  }

  /** A whole item stands at the front of `data`. */
  predicate Complete(f: Format, data: seq<Byte>) {
    |data| >= HeaderLen(f) && HeaderLen(f) + HeadLength(f, data) <= |data|
  }

  function Head(f: Format, data: seq<Byte>): (item: Item)
    requires Complete(f, data)
  {
    Item(HeadId(f, data), data[HeaderLen(f)..HeaderLen(f) + HeadLength(f, data)])
  }

  function Rest(f: Format, data: seq<Byte>): seq<Byte>
    requires Complete(f, data)
  {
    data[HeaderLen(f) + HeadLength(f, data)..]
  }

  function Parse(f: Format, data: seq<Byte>): Parsed
    decreases |data|
  {
    if !Complete(f, data) then Parsed([], data)
    else
      var p := Parse(f, Rest(f, data));
      Parsed([Head(f, data)] + p.items, p.tail)
  }

  // ----- Parsing and serialising undo each other

  lemma HeadSerialised(f: Format, data: seq<Byte>)
    requires Complete(f, data)
    ensures Fits(f, Head(f, data))
    ensures data == Header(f, Head(f, data)) + Head(f, data).body + Rest(f, data)
  {
    var h := Header(f, Head(f, data));
    assert data[..HeaderLen(f)] == h;
  }

  lemma SerialisedHead(f: Format, item: Item, rest: seq<Byte>)
    requires Fits(f, item)
    ensures var data := Header(f, item) + item.body + rest;
            Complete(f, data) && Head(f, data) == item && Rest(f, data) == rest
  {
    var data := Header(f, item) + item.body + rest;
    var n := HeaderLen(f);
    assert data[..n] == Header(f, item);
    HeaderRead(f, item, data);
    assert data[n..n + |item.body|] == item.body;
  }

  lemma HeaderRead(f: Format, item: Item, data: seq<Byte>)
    requires Fits(f, item) && |data| >= HeaderLen(f) && data[..HeaderLen(f)] == Header(f, item)
    ensures HeadId(f, data) == item.id && HeadLength(f, data) == |item.body|
  {
    var h := Header(f, item);
    assert forall i | 0 <= i < HeaderLen(f) :: data[i] == h[i];
  }

  lemma RestShorter(f: Format, data: seq<Byte>)
    requires Complete(f, data)
    ensures |Rest(f, data)| < |data|
  {
  }

  lemma {:induction false} ParsedItemsFit(f: Format, data: seq<Byte>)
    ensures AllFit(f, Parse(f, data).items) && !Complete(f, Parse(f, data).tail)
    decreases |data|
  {
    if Complete(f, data) {
      hide Head, Rest, Fits, HeadLength;
      RestShorter(f, data);
      HeadSerialised(f, data);
      ParsedItemsFit(f, Rest(f, data));
    }
  }

  lemma SerialiseCons(f: Format, item: Item, items: seq<Item>)
    requires Fits(f, item) && AllFit(f, items)
    ensures AllFit(f, [item] + items)
    ensures Serialise(f, [item] + items) == Header(f, item) + item.body + Serialise(f, items)
  {
    hide Header, Fits;
    assert ([item] + items)[1..] == items;
  }

  /** On any bytes: what was consumed, serialised again, and the reported tail are the input. */
  lemma {:induction false} NothingLost(f: Format, data: seq<Byte>)
    ensures var p := Parse(f, data);
            AllFit(f, p.items) && Serialise(f, p.items) + p.tail == data
    decreases |data|
  {
    ParsedItemsFit(f, data);
    if Complete(f, data) {
      hide Head, Rest, Fits, HeadLength, Serialise;
      var rest := Rest(f, data);
      RestShorter(f, data);
      HeadSerialised(f, data);
      NothingLost(f, rest);
      SerialiseCons(f, Head(f, data), Parse(f, rest).items);
    }
  }

  lemma ParsePrepend(f: Format, item: Item, rest: seq<Byte>)
    requires Fits(f, item)
    ensures var p := Parse(f, rest);
            Parse(f, Header(f, item) + item.body + rest) == Parsed([item] + p.items, p.tail)
  {
    hide Header, Fits;
    SerialisedHead(f, item, rest);
  }

  /** The headers in numbers: id and length, or two bytes each, high first in WPS and low first in P2P. */
  predicate Announces(f: Format, h: seq<Byte>, id: nat, len: nat) {
    match f
    case Element => |h| == 2 && id == h[0] && len == h[1]
    case Wps => |h| == 4 && id == 256 * (h[0] as nat) + h[1] && len == 256 * (h[2] as nat) + h[3]
    case P2p => |h| == 3 && id == h[0] && len == h[1] + 256 * (h[2] as nat)
  }

  /** A header and the body it announces are the first item. */
  lemma ReadsFirst(f: Format, h: seq<Byte>, id: nat, body: seq<Byte>, rest: seq<Byte>)
    requires Announces(f, h, id, |body|)
    ensures var p := Parse(f, rest); Parse(f, h + body + rest) == Parsed([Item(id, body)] + p.items, p.tail)
  {
    hide Parse;
    assert Header(f, Item(id, body)) == h;
    ParsePrepend(f, Item(id, body), rest);
  }

  /** Nothing is read when the header is cut short, or announces more than there is. */
  lemma ReadsNothing(f: Format, data: seq<Byte>, h: seq<Byte>, id: nat, len: nat)
    requires |data| < 2 || (f != Element && |data| < 3) || (f.Wps? && |data| < 4)
          || (h <= data && Announces(f, h, id, len) && |h| + len > |data|)
    ensures Parse(f, data) == Parsed([], data)
  {
  }

  lemma Reassociate(a: seq<Byte>, b: seq<Byte>, c: seq<Byte>, d: seq<Byte>)
    ensures a + b + c + d == a + b + (c + d)
  {
  }

  /** The front item of a serialised list, and what parsing the rest gives. */
  lemma ParseSerialised(f: Format, first: Item, others: seq<Item>, tail: seq<Byte>)
    requires Fits(f, first) && AllFit(f, others)
    ensures AllFit(f, [first] + others)
    ensures var p := Parse(f, Serialise(f, others) + tail);
            Parse(f, Serialise(f, [first] + others) + tail) == Parsed([first] + p.items, p.tail)
  {
    hide Serialise, Header, Fits, Parse, AllFit;
    SerialiseCons(f, first, others);
    ParsePrepend(f, first, Serialise(f, others) + tail);
    Reassociate(Header(f, first), first.body, Serialise(f, others), tail);
  }

  /** Serialised items come back unchanged, followed by whatever does not start another item. */
  lemma {:induction false} RoundTrip(f: Format, items: seq<Item>, tail: seq<Byte>)
    requires AllFit(f, items) && !Complete(f, tail)
    ensures Parse(f, Serialise(f, items) + tail) == Parsed(items, tail)
  {
    if items == [] {
      assert Serialise(f, items) + tail == tail;
    } else {
      hide Serialise, Fits, Complete, Parse;
      assert items == [items[0]] + items[1..];
      RoundTrip(f, items[1..], tail);
      ParseSerialised(f, items[0], items[1..], tail);
    }
  }

  /** The items found are the maximal well-formed prefix: any other reading of the bytes stops earlier. */
  lemma {:induction false} MaximalPrefix(f: Format, items: seq<Item>, rest: seq<Byte>)
    requires AllFit(f, items)
    ensures items <= Parse(f, Serialise(f, items) + rest).items
    decreases items
  {
    if items != [] {
      hide Serialise, Fits, Parse;
      assert items == [items[0]] + items[1..];
      MaximalPrefix(f, items[1..], rest);
      ParseSerialised(f, items[0], items[1..], rest);
    }
  }

  // ----- print_wifi_wps and print_p2p

  /** One turn of a walker at `pos`. */
  lemma ParseAt(f: Format, data: seq<Byte>, pos: nat, n: nat)
    requires pos + HeaderLen(f) <= |data| && n == HeaderLen(f) + HeadLength(f, data[pos..])
    ensures pos + n > |data| ==> Parse(f, data[pos..]) == Parsed([], data[pos..])
    ensures pos + n <= |data| ==>
              var p := Parse(f, data[pos + n..]);
              Parse(f, data[pos..])
              == Parsed([Item(HeadId(f, data[pos..]), data[pos + HeaderLen(f)..pos + n])] + p.items, p.tail)
  {
    hide HeadId, HeadLength;
    var here := data[pos..];
    if pos + n <= |data| {
      assert Rest(f, here) == data[pos + n..];
      assert Head(f, here).body == data[pos + HeaderLen(f)..pos + n];
    }
  }

  lemma NoWrap(n: nat)
    requires n < 0x100
    ensures n % 0x100 == n
  {
  }

  /** `data` is a body handed over by print_vendor, `len` its length as the 8-bit parameter receives it. */
  method PrintWifiWps(data: seq<Byte>) returns (items: seq<Item>, tail: seq<Byte>)
    requires |data| < 0x100
    ensures Parsed(items, tail) == Parse(Wps, data)
  {
    hide Parse, U16;
    var len: nat, pos: nat := |data|, 0;
    items := [];
    assert data[0..] == data;
    while len >= 4
      invariant pos + len == |data|
      invariant var p := Parse(Wps, data[pos..]); Parse(Wps, data) == Parsed(items + p.items, p.tail)
    {
      var subtype := U16(data[pos], data[pos + 1]);
      var sublen := U16(data[pos + 2], data[pos + 3]);
      ParseAt(Wps, data, pos, sublen + 4);
      if sublen > len - 4 {
        break;
      }
      items := items + [Item(subtype, data[pos + 4..pos + 4 + sublen])];
      pos := pos + sublen + 4;
      NoWrap(len - (sublen + 4));
      len := (len - (sublen + 4)) % 0x100;
    }
    if len < 4 { ParseShort(Wps, data[pos..]); }
    tail := data[pos..pos + len];
  }

  lemma ParseShort(f: Format, data: seq<Byte>)
    requires |data| < HeaderLen(f)
    ensures Parse(f, data) == Parsed([], data)
  {
  }

  method PrintP2p(data: seq<Byte>) returns (items: seq<Item>, tail: seq<Byte>)
    requires |data| < 0x100
    ensures Parsed(items, tail) == Parse(P2p, data)
  {
    hide Parse, U16;
    var len: nat, pos: nat := |data|, 0;
    items := [];
    assert data[0..] == data;
    while len >= 3
      invariant pos + len == |data|
      invariant var p := Parse(P2p, data[pos..]); Parse(P2p, data) == Parsed(items + p.items, p.tail)
    {
      var subtype := data[pos];
      var sublen := U16(data[pos + 2], data[pos + 1]);
      ParseAt(P2p, data, pos, sublen + 3);
      if sublen > len - 3 {
        break;
      }
      items := items + [Item(subtype, data[pos + 3..pos + 3 + sublen])];
      pos := pos + sublen + 3;
      NoWrap(len - (sublen + 3));
      len := (len - (sublen + 3)) % 0x100;
    }
    if len < 3 { ParseShort(P2p, data[pos..]); }
    tail := data[pos..pos + len];
  }
}
