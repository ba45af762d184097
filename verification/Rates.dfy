/**
 MCS masks, as parse_rate_chunk and setup_vht, setup_he and setup_eht of iw/bitrate.c build them
 from arguments such as "2:0-7" and "1:3,5,9".
 */
module Rates {
  import opened Wrappers

  datatype Mode = VHT | HE | EHT

  /**
   What sscanf reads in an argument: with a '-', all three numbers or not; else the stream count and
   the MCS numbers.
   */
  datatype Chunk = Range(nss: nat, first: nat, last: nat) | NoRange | List(nss: nat, values: seq<nat>)

  function MaxMcs(mode: Mode): nat {
    match mode case VHT => 9 case HE => 11 case EHT => 15
  }

  function MaxNss(mode: Mode): nat {
    match mode case VHT => 8 case HE => 8 case EHT => 16
  }

  // ----- What a chunk names

  datatype RateSet = RateSet(nss: nat, mcs: set<nat>)

  /** sscanf stores no more numbers than there are MCSs. */
  function Scanned(values: seq<nat>, mode: Mode): seq<nat> {
    if |values| > MaxMcs(mode) + 1 then values[..MaxMcs(mode) + 1] else values
  }

  function Between(first: nat, last: nat): set<nat> {
    set m | m in Spelled(first, last)
  }

  function Numbers(values: seq<nat>): set<nat> {
    set m | m in values
  }

  predicate AllUpTo(values: seq<nat>, max: nat) {
    forall i | 0 <= i < |values| :: values[i] <= max
  }

  function Read(chunk: Chunk, mode: Mode): Option<RateSet> {
    match chunk
    case NoRange => None
    case Range(nss, first, last) =>
      if 1 <= nss <= MaxNss(mode) && first <= last <= MaxMcs(mode)
      then Some(RateSet(nss, Between(first, last))) else None
    case List(nss, values) =>
      var kept := Scanned(values, mode);
      if kept != [] && 1 <= nss <= MaxNss(mode) && AllUpTo(kept, MaxMcs(mode))
      then Some(RateSet(nss, Numbers(kept))) else None
  }

  /** The numbers from `first` to `last`, spelled out. */
  function Spelled(first: nat, last: nat): (s: seq<nat>)
    ensures |s| == if first <= last then last - first + 1 else 0
    ensures forall i | 0 <= i < |s| :: s[i] == first + i
    decreases last + 1 - first
  {
    if first > last then [] else [first] + Spelled(first + 1, last)
  }

  lemma SpelledNumbers(first: nat, last: nat)
    ensures Numbers(Spelled(first, last)) == Between(first, last)
    ensures forall m: nat :: m in Between(first, last) <==> first <= m <= last
  {
    var s := Spelled(first, last);
    forall m: nat | first <= m <= last ensures m in s {
      assert s[m - first] == m;
    }
  }

  /**
   A range names what the spelled-out list names, unless the list starts at 0 and runs past the
   last MCS: then the range is rejected, while the list is cut off where the MCSs end and accepted.
   */
  lemma RangeIsList(nss: nat, first: nat, last: nat, mode: Mode)
    ensures Read(Range(nss, first, last), mode) == Read(List(nss, Spelled(first, last)), mode)
      <==> !(first == 0 && last > MaxMcs(mode) && 1 <= nss <= MaxNss(mode))
  {
    hide Numbers, Between;
    var s := Spelled(first, last);
    var kept := Scanned(s, mode);
    SpelledNumbers(first, last);
    if first <= last <= MaxMcs(mode) {
      assert kept == s && AllUpTo(s, MaxMcs(mode));
    } else if first <= last && first > 0 {
      assert kept[|kept| - 1] > MaxMcs(mode);
    } else if first <= last {
      assert AllUpTo(kept, MaxMcs(mode));
    }
  }

  /** The last MCS and the most streams of a mode. */
  predicate Limits(mode: Mode, last: nat, streams: nat) {
    match mode case VHT => last == 9 && streams == 8 case HE => last == 11 && streams == 8
               case EHT => last == 15 && streams == 16
  }

  /** A range in numbers: when it is accepted, and what it then names. */
  lemma RangeRead(nss: nat, first: nat, last: nat, mode: Mode, top: nat, streams: nat)
    requires Limits(mode, top, streams)
    ensures var r := Read(Range(nss, first, last), mode);
            && (r.Some? <==> 1 <= nss <= streams && first <= last <= top)
            && (r.Some? ==> r.value.nss == nss && forall m: nat :: m in r.value.mcs <==> first <= m <= last)
  {
    SpelledNumbers(first, last);
  }

  /** A list likewise; only the first numbers, as many as there are MCSs, count. */
  lemma ListRead(nss: nat, values: seq<nat>, mode: Mode, top: nat, streams: nat)
    requires Limits(mode, top, streams)
    ensures var r, stored := Read(List(nss, values), mode), values[..if |values| > top then top + 1 else |values|];
            && (r.Some? <==> 1 <= nss <= streams && values != []
                             && forall i | 0 <= i <= top && i < |values| :: values[i] <= top)
            && (r.Some? ==> r.value.nss == nss && forall m: nat :: m in r.value.mcs <==> m in stored)
  {
    var kept := values[..if |values| > top then top + 1 else |values|];
    assert Scanned(values, mode) == kept;
    forall i | 0 <= i < |kept| ensures kept[i] == values[i] {
    }
  }

  /** The list can be used: of the numbers that are stored there is one, and none is too large. */
  predicate ListFine(nss: nat, values: seq<nat>, mode: Mode) {
    Scanned(values, mode) != [] && 1 <= nss <= MaxNss(mode) && AllUpTo(Scanned(values, mode), MaxMcs(mode))
  }

  /** Of the numbers that are stored, only which they are matters, not their order or how often they are given. */
  lemma ListsReadAlikeExactlyWhen(nss: nat, a: seq<nat>, b: seq<nat>, mode: Mode)
    ensures Read(List(nss, a), mode) == Read(List(nss, b), mode)
      <==> || Numbers(Scanned(a, mode)) == Numbers(Scanned(b, mode))
           || (!ListFine(nss, a, mode) && !ListFine(nss, b, mode))
  {
    var keptA, keptB := Scanned(a, mode), Scanned(b, mode);
    if Numbers(keptA) == Numbers(keptB) {
      UpToIn(keptA, keptB, MaxMcs(mode));
      UpToIn(keptB, keptA, MaxMcs(mode));
    }
  }

  lemma UpToIn(a: seq<nat>, b: seq<nat>, max: nat)
    requires Numbers(a) == Numbers(b)
    ensures a != [] ==> b != []
    ensures AllUpTo(a, max) ==> AllUpTo(b, max)
  {
    if a != [] { assert a[0] in Numbers(a); }
    if AllUpTo(a, max) {
      forall i | 0 <= i < |b| ensures b[i] <= max {
        assert b[i] in Numbers(a);
      }
    }
  }

  /** A list of which every number is read and checked. */
  function ReadFull(nss: nat, values: seq<nat>, mode: Mode): Option<RateSet> {
    if values != [] && 1 <= nss <= MaxNss(mode) && AllUpTo(values, MaxMcs(mode))
    then Some(RateSet(nss, Numbers(values))) else None
  }

  /**
   Numbers after as many as there are MCSs are neither read nor checked. That goes unnoticed
   exactly when there are none, when the list is rejected anyway, or when they only repeat.
   */
  lemma ListReadInFullExactlyWhen(nss: nat, values: seq<nat>, mode: Mode)
    ensures var n := MaxMcs(mode) + 1;
      Read(List(nss, values), mode) == ReadFull(nss, values, mode)
      <==> || |values| <= n || !(1 <= nss <= MaxNss(mode)) || !AllUpTo(values[..n], MaxMcs(mode))
           || forall i | n <= i < |values| :: values[i] in values[..n]
  {
    var max := MaxMcs(mode);
    var n := max + 1;
    if |values| > n && 1 <= nss <= MaxNss(mode) {
      var kept := values[..n];
      assert kept == Scanned(values, mode);
      if !AllUpTo(kept, max) { KeptUpTo(values, n, max); }
      if forall i | n <= i < |values| :: values[i] in kept {
        RepeatsAdd(values, n, max);
      } else {
        var i :| n <= i < |values| && values[i] !in kept;
        assert values[i] in Numbers(values) && values[i] !in Numbers(kept);
      }
    }
  }

  lemma KeptUpTo(values: seq<nat>, n: nat, max: nat)
    requires n <= |values| && !AllUpTo(values[..n], max)
    ensures !AllUpTo(values, max)
  {
    var i :| 0 <= i < n && values[..n][i] > max;
    assert values[i] > max;
  }

  lemma RepeatsAdd(values: seq<nat>, n: nat, max: nat)
    requires n <= |values| && forall i | n <= i < |values| :: values[i] in values[..n]
    ensures Numbers(values) == Numbers(values[..n]) && (AllUpTo(values, max) <==> AllUpTo(values[..n], max))
  {
    var kept := values[..n];
    forall i | 0 <= i < |values| ensures values[i] in kept {
      if i < n { assert kept[i] == values[i]; }
    }
    assert Numbers(values) == Numbers(kept);
    UpToIn(values, kept, max);
    UpToIn(kept, values, max);
  }

  /** For one, a number after ten others in a VHT list. */
  lemma LongListCutOff(extra: nat)
    ensures Read(List(1, [0, 0, 0, 0, 0, 0, 0, 0, 0, 0, extra]), VHT) == Some(RateSet(1, {0}))
  {
    var kept := Scanned([0, 0, 0, 0, 0, 0, 0, 0, 0, 0, extra], VHT);
    assert kept == [0, 0, 0, 0, 0, 0, 0, 0, 0, 0];
    assert Numbers(kept) == {0} by {
      assert kept[0] == 0;
    }
  }

  // ----- What a list of chunks names

  predicate AllRead(chunks: seq<Chunk>, mode: Mode) {
    forall i | 0 <= i < |chunks| :: Read(chunks[i], mode).Some?
  }

  /** Some chunk names this MCS for this number of streams. */
  predicate Named(chunks: seq<Chunk>, mode: Mode, nss: nat, m: nat) {
    exists i | 0 <= i < |chunks| :: Names(chunks[i], mode, nss, m)
  }

  predicate Names(chunk: Chunk, mode: Mode, nss: nat, m: nat) {
    Read(chunk, mode).Some? && Read(chunk, mode).value.nss == nss && m in Read(chunk, mode).value.mcs
  }

  // ----- Masks, as the numbers they are

  /** `1 << i` */
  function Bit(i: nat): (b: nat)
    ensures b > 0
  {
    if i == 0 then 1 else 2 * Bit(i - 1)
  }

  /** `a | b` */
  function Or(a: nat, b: nat): nat {
    if a == 0 && b == 0 then 0 else (if a % 2 == 1 || b % 2 == 1 then 1 else 0) + 2 * Or(a / 2, b / 2)
  }

  predicate Has(mask: nat, m: nat) {
    if m == 0 then mask % 2 == 1 else Has(mask / 2, m - 1)
  }

  lemma OrHalves(a: nat, b: nat)
    ensures Or(a, b) / 2 == Or(a / 2, b / 2)
    ensures Or(a, b) % 2 == 1 <==> a % 2 == 1 || b % 2 == 1
  {
  }

  lemma {:induction false} OrHas(a: nat, b: nat, m: nat)
    ensures Has(Or(a, b), m) <==> Has(a, m) || Has(b, m)
    decreases m
  {
    hide Or;
    OrHalves(a, b);
    if m > 0 { OrHas(a / 2, b / 2, m - 1); }
  }

  lemma {:induction false} NoBits(m: nat)
    ensures !Has(0, m)
  {
    if m > 0 { NoBits(m - 1); }
  }

  lemma {:induction false} BitHas(i: nat, m: nat)
    ensures Has(Bit(i), m) <==> m == i
    decreases m
  {
    if i > 0 && m > 0 {
      BitHas(i - 1, m - 1);
      assert Bit(i) / 2 == Bit(i - 1);
    } else if m > 0 {
      NoBits(m - 1);
    }
  }

  lemma OrBit(mask: nat, i: nat, m: nat)
    ensures Has(Or(mask, Bit(i)), m) <==> Has(mask, m) || m == i
  {
    OrHas(mask, Bit(i), m);
    BitHas(i, m);
  }

  /** A mask with bits below `n` only fits in `n` bits. */
  lemma {:induction false} MaskBound(mask: nat, n: nat)
    requires forall m: nat | Has(mask, m) :: m < n
    ensures mask < Bit(n)
    decreases n, mask
  {
    if mask > 0 {
      if n == 0 {
        var m := LowestBit(mask);
        assert false;
      } else {
        forall m: nat | Has(mask / 2, m) ensures m < n - 1 {
          assert Has(mask, m + 1);
        }
        MaskBound(mask / 2, n - 1);
      }
    }
  }

  lemma {:induction false} LowestBit(mask: nat) returns (m: nat)
    requires mask > 0
    ensures Has(mask, m)
  {
    if mask % 2 == 1 {
      m := 0;
    } else {
      m := LowestBit(mask / 2);
      m := m + 1;
    }
  }

  lemma {:induction false} SameBits(a: nat, b: nat)
    requires forall m: nat :: Has(a, m) <==> Has(b, m)
    ensures a == b
    decreases a + b
  {
    if a + b > 0 {
      forall m: nat ensures Has(a / 2, m) <==> Has(b / 2, m) {
        assert Has(a, m + 1) <==> Has(b, m + 1);
      }
      SameBits(a / 2, b / 2);
      assert Has(a, 0) <==> Has(b, 0);
    }
  }

  /** The mask of the numbers in `s` from `i` to `n`, as bits from 0 on. */
  function MaskFrom(s: set<nat>, i: nat, n: nat): nat
    decreases n - i
  {
    if i >= n then 0 else (if i in s then 1 else 0) + 2 * MaskFrom(s, i + 1, n)
  }

  lemma {:induction false} MaskFromHas(s: set<nat>, i: nat, n: nat, m: nat)
    ensures Has(MaskFrom(s, i, n), m) <==> i + m < n && i + m in s
    decreases m
  {
    if i >= n {
      NoBits(m);
    } else if m > 0 {
      MaskFromHas(s, i + 1, n, m - 1);
      assert MaskFrom(s, i, n) / 2 == MaskFrom(s, i + 1, n);
    }
  }

  function NamedSet(chunks: seq<Chunk>, mode: Mode, nss: nat): set<nat> {
    set m | 0 <= m <= MaxMcs(mode) && Named(chunks, mode, nss, m)
  }

  /** The mask for `nss` streams: the union of what the chunks name. */
  function Slot(chunks: seq<Chunk>, mode: Mode, nss: nat): nat {
    MaskFrom(NamedSet(chunks, mode, nss), 0, MaxMcs(mode) + 1)
  }

  function Masks(chunks: seq<Chunk>, mode: Mode): (masks: seq<nat>)
    ensures |masks| == MaxNss(mode)
  {
    seq(MaxNss(mode), j requires 0 <= j < MaxNss(mode) => Slot(chunks, mode, j + 1))
  }

  lemma NamesBound(chunk: Chunk, mode: Mode, nss: nat, m: nat)
    requires Names(chunk, mode, nss, m)
    ensures m <= MaxMcs(mode) && 1 <= nss <= MaxNss(mode)
  {
    if chunk.Range? { SpelledNumbers(chunk.first, chunk.last); }
  }

  /** A bit is set exactly when some chunk names that MCS for that number of streams; no other bits are. */
  lemma SlotHas(chunks: seq<Chunk>, mode: Mode, nss: nat, m: nat)
    ensures Has(Slot(chunks, mode, nss), m) <==> Named(chunks, mode, nss, m)
  {
    hide Names, MaxMcs;
    MaskFromHas(NamedSet(chunks, mode, nss), 0, MaxMcs(mode) + 1, m);
    if Named(chunks, mode, nss, m) {
      var i :| 0 <= i < |chunks| && Names(chunks[i], mode, nss, m);
      NamesBound(chunks[i], mode, nss, m);
    }
  }

  /** Masks stay within 10, 12 and 16 bits. */
  lemma SlotBound(chunks: seq<Chunk>, mode: Mode, nss: nat)
    ensures Slot(chunks, mode, nss) < match mode case VHT => 0x400 case HE => 0x1000 case EHT => 0x1_0000
  {
    hide Slot, Named, MaxMcs;
    forall m: nat | Has(Slot(chunks, mode, nss), m) ensures m < MaxMcs(mode) + 1 {
      SlotHas(chunks, mode, nss, m);
      NamedBound(chunks, mode, nss, m);
    }
    MaskBound(Slot(chunks, mode, nss), MaxMcs(mode) + 1);
    BitsAbove(mode);
  }

  lemma BitsAbove(mode: Mode)
    ensures Bit(MaxMcs(mode) + 1) == match mode case VHT => 0x400 case HE => 0x1000 case EHT => 0x1_0000
  {
    assert Bit(4) == 16;
    assert Bit(8) == 256;
    assert Bit(12) == 4096;
  }

  lemma NamedBound(chunks: seq<Chunk>, mode: Mode, nss: nat, m: nat)
    requires Named(chunks, mode, nss, m)
    ensures m <= MaxMcs(mode)
  {
    hide Names;
    var i :| 0 <= i < |chunks| && Names(chunks[i], mode, nss, m);
    NamesBound(chunks[i], mode, nss, m);
  }

  /** Only which chunks there are matters, not their order or how often they are given. */
  lemma OrderIrrelevant(a: seq<Chunk>, b: seq<Chunk>, mode: Mode)
    requires forall c :: c in a <==> c in b
    ensures Masks(a, mode) == Masks(b, mode)
    ensures AllRead(a, mode) <==> AllRead(b, mode)
  {
    hide Names, Read, MaxNss, Slot, Named;
    forall nss: nat ensures Slot(a, mode, nss) == Slot(b, mode, nss) {
      forall m: nat ensures Has(Slot(a, mode, nss), m) <==> Has(Slot(b, mode, nss), m) {
        SlotHas(a, mode, nss, m);
        SlotHas(b, mode, nss, m);
        NamedIn(a, b, mode, nss, m);
        NamedIn(b, a, mode, nss, m);
      }
      SameBits(Slot(a, mode, nss), Slot(b, mode, nss));
    }
    AllReadIn(a, b, mode);
    AllReadIn(b, a, mode);
  }

  lemma NamedIn(a: seq<Chunk>, b: seq<Chunk>, mode: Mode, nss: nat, m: nat)
    requires forall c :: c in a ==> c in b
    ensures Named(a, mode, nss, m) ==> Named(b, mode, nss, m)
  {
    hide Names;
    if Named(a, mode, nss, m) {
      var i :| 0 <= i < |a| && Names(a[i], mode, nss, m);
      assert a[i] in b;
    }
  }

  lemma AllReadIn(a: seq<Chunk>, b: seq<Chunk>, mode: Mode)
    requires forall c :: c in b ==> c in a
    ensures AllRead(a, mode) ==> AllRead(b, mode)
  {
    hide Read;
    if AllRead(a, mode) {
      forall i | 0 <= i < |b| ensures Read(b[i], mode).Some? {
        assert b[i] in a;
      }
    }
  }

  lemma NamedSnoc(chunks: seq<Chunk>, c: Chunk, mode: Mode, nss: nat, m: nat)
    ensures Named(chunks + [c], mode, nss, m) <==> Named(chunks, mode, nss, m) || Names(c, mode, nss, m)
  {
    hide Names;
    var all := chunks + [c];
    assert all[|chunks|] == c;
    if Named(chunks, mode, nss, m) {
      var i :| 0 <= i < |chunks| && Names(chunks[i], mode, nss, m);
      assert all[i] == chunks[i];
    }
  }

  /** One chunk more: its mask goes into the slot it names. */
  lemma SlotSnoc(chunks: seq<Chunk>, c: Chunk, mode: Mode, nss: nat, mcs: nat)
    requires Read(c, mode).Some?
    requires forall m: nat :: Has(mcs, m) <==> m in Read(c, mode).value.mcs
    ensures Slot(chunks + [c], mode, nss) ==
      if Read(c, mode).value.nss == nss then Or(Slot(chunks, mode, nss), mcs) else Slot(chunks, mode, nss)
  {
    hide Slot, Named, Or, Has, Read;
    var before, after := Slot(chunks, mode, nss), Slot(chunks + [c], mode, nss);
    var new_ := if Read(c, mode).value.nss == nss then Or(before, mcs) else before;
    forall m: nat ensures Has(after, m) <==> Has(new_, m) {
      SlotHas(chunks, mode, nss, m);
      SlotHas(chunks + [c], mode, nss, m);
      NamedSnoc(chunks, c, mode, nss, m);
      OrHas(before, mcs, m);
    }
    SameBits(after, new_);
  }

  // ----- parse_rate_chunk

  method ParseRateChunk(chunk: Chunk, mode: Mode) returns (ok: bool, nss: nat, mcs: nat)
    ensures ok <==> Read(chunk, mode).Some?
    ensures ok ==> nss == Read(chunk, mode).value.nss
    ensures ok ==> forall m: nat :: Has(mcs, m) <==> m in Read(chunk, mode).value.mcs
  {
    hide Has, Or, Bit;
    nss, mcs := 0, 0;
    var maxMcs, maxNss := MaxMcs(mode), MaxNss(mode);
    forall m: nat ensures !Has(0, m) { NoBits(m); }
    match chunk {
      case NoRange =>
        return false, nss, mcs;
      case Range(inss, first, last) =>
        if inss < 1 || inss > maxNss {
          return false, nss, mcs;
        }
        if first > last {
          return false, nss, mcs;
        }
        if first > maxMcs || last > maxMcs {
          return false, nss, mcs;
        }
        nss := inss;
        SpelledNumbers(first, last);
        var i := first;
        while i <= last
          invariant first <= i <= last + 1
          invariant forall m: nat :: Has(mcs, m) <==> first <= m < i
        {
          forall m: nat ensures Has(Or(mcs, Bit(i)), m) <==> Has(mcs, m) || m == i { OrBit(mcs, i, m); }
          mcs := Or(mcs, Bit(i));
          i := i + 1;
        }
      case List(inss, values) =>
        var tab := Scanned(values, mode);
        var count := 1 + |tab|;
        if count < 2 {
          return false, nss, mcs;
        }
        if inss < 1 || inss > maxNss {
          return false, nss, mcs;
        }
        nss := inss;
        var i := 0;
        while i < count - 1
          invariant 0 <= i <= |tab|
          invariant AllUpTo(tab[..i], maxMcs)
          invariant forall m: nat :: Has(mcs, m) <==> m in tab[..i]
        {
          if tab[i] > maxMcs {
            return false, nss, mcs;
          }
          forall m: nat ensures Has(Or(mcs, Bit(tab[i])), m) <==> Has(mcs, m) || m == tab[i] { OrBit(mcs, tab[i], m); }
          mcs := Or(mcs, Bit(tab[i]));
          assert tab[..i + 1] == tab[..i] + [tab[i]];
          i := i + 1;
        }
        assert tab[..i] == tab;
    }
    ok := true;
  }

  // ----- setup_vht, setup_he and setup_eht, which differ in the mode only

  method Setup(mode: Mode, txrate: array<nat>, chunks: seq<Chunk>) returns (ok: bool)
    requires txrate.Length == MaxNss(mode)
    modifies txrate
    ensures ok <==> AllRead(chunks, mode)
    ensures ok ==> txrate[..] == Masks(chunks, mode)
  {
    hide Slot, Or, Has, Read, Named;
    var j := 0;
    while j < txrate.Length
      invariant 0 <= j <= txrate.Length
      invariant forall k | 0 <= k < j :: txrate[k] == 0
    {
      txrate[j] := 0;
      j := j + 1;
    }
    forall nss: nat ensures Slot([], mode, nss) == 0 { EmptySlot(mode, nss); }
    var i := 0;
    while i < |chunks|
      invariant 0 <= i <= |chunks| && AllRead(chunks[..i], mode)
      invariant forall k | 0 <= k < txrate.Length :: txrate[k] == Slot(chunks[..i], mode, k + 1)
    {
      var read, nss, mcs := ParseRateChunk(chunks[i], mode);
      if !read {
        return false;
      }
      ReadBounds(chunks[i], mode);
      assert chunks[..i + 1] == chunks[..i] + [chunks[i]];
      forall k | 0 <= k < txrate.Length ensures
        Slot(chunks[..i + 1], mode, k + 1) == if nss == k + 1 then Or(txrate[k], mcs) else txrate[k]
      {
        SlotSnoc(chunks[..i], chunks[i], mode, k + 1, mcs);
      }
      nss := nss - 1;
      txrate[nss] := Or(txrate[nss], mcs);
      i := i + 1;
    }
    assert chunks[..i] == chunks;
    ok := true;
  }

  lemma EmptySlot(mode: Mode, nss: nat)
    ensures Slot([], mode, nss) == 0
  {
    hide Slot, Has;
    forall m: nat ensures Has(Slot([], mode, nss), m) <==> Has(0, m) {
      SlotHas([], mode, nss, m);
      NoBits(m);
    }
    SameBits(Slot([], mode, nss), 0);
  }

  lemma ReadBounds(chunk: Chunk, mode: Mode)
    requires Read(chunk, mode).Some?
    ensures 1 <= Read(chunk, mode).value.nss <= MaxNss(mode)
  {
  }
}
