/** A netlink message under construction: attributes with named or numbered types, and nests. */
module Netlink {
  /** Attribute types. nl80211.h numbers the named ones; within one nest they are distinct. */
  datatype Id =
    | Index(n: nat)
    | SCHED_SCAN_INTERVAL | SCHED_SCAN_DELAY | SCHED_SCAN_MATCH | SCHED_SCAN_PLANS
    | MATCH_SSID | PLAN_INTERVAL | PLAN_ITERATIONS
    | MAC | MAC_MASK | SCAN_SSIDS | SCAN_FREQUENCIES | SCAN_FLAGS
    | WOWLAN_TRIGGERS | WOWLAN_NET_DETECT | WOWLAN_PKT_PATTERN | WOWLAN_TRIGGER(name: string)
    | PKTPAT_MASK | PKTPAT_PATTERN | PKTPAT_OFFSET
    | TX_RATES | BAND_2GHZ | BAND_5GHZ | BAND_6GHZ
    | TXRATE_LEGACY | TXRATE_HT | TXRATE_VHT | TXRATE_HE | TXRATE_EHT | TXRATE_GI
    | TXRATE_HE_GI | TXRATE_HE_LTF | TXRATE_EHT_GI | TXRATE_EHT_LTF
    | TID_CONFIG | TID_TIDS | TID_OVERRIDE | TID_AMPDU_CTRL | TID_AMSDU_CTRL | TID_NOACK | TID_RTSCTS_CTRL
    | TID_RETRY_SHORT | TID_RETRY_LONG | TID_TX_RATE_TYPE | TID_TX_RATE

  datatype Attr<V> = Leaf(id: Id, value: V) | Nest(id: Id, attrs: seq<Attr<V>>)

  /** A nest still open: its type, and the attributes before it on the level it was opened on. */
  datatype Open<V> = Open(id: Id, before: seq<Attr<V>>)

  class Message<V> {
    var outer: seq<Open<V>>
    var attrs: seq<Attr<V>>

    constructor ()
      ensures outer == [] && attrs == []
    {
      outer, attrs := [], [];
    }

    method Put(id: Id, value: V)
      modifies this
      ensures outer == old(outer) && attrs == old(attrs) + [Leaf(id, value)]
    {
      attrs := attrs + [Leaf(id, value)];
    }

    method NestStart(id: Id) returns (nest: nat)
      modifies this
      ensures nest == |old(outer)|
      ensures outer == old(outer) + [Open(id, old(attrs))] && attrs == []
    {
      nest := |outer|;
      outer, attrs := outer + [Open(id, attrs)], [];
    }

    /** Closes the innermost nest; no caller modelled here closes any other. */
    method NestEnd(nest: nat)
      requires |outer| == nest + 1
      modifies this
      ensures outer == old(outer)[..nest]
      ensures attrs == old(outer)[nest].before + [Nest(old(outer)[nest].id, old(attrs))]
    {
      attrs := outer[nest].before + [Nest(outer[nest].id, attrs)];
      outer := outer[..nest];
    }

    method PutNested(id: Id, nested: Message<V>)
      requires nested != this && nested.outer == []
      modifies this
      ensures outer == old(outer) && attrs == old(attrs) + [Nest(id, nested.attrs)]
    {
      attrs := attrs + [Nest(id, nested.attrs)];
    }
  }
}
