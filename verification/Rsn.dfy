/**
 The RSN element (IEEE 802.11-2016, section 9.4.2.25) as _print_rsn_ie of iw/scan.c reads it,
 with an 8-bit length that counts down while the data pointer moves up.
 */
module Rsn {
  import opened Tlv
  import opened Wrappers

  type Suite = s: seq<Byte> | |s| == 4 witness [0, 0, 0, 0]
  type Pmkid = s: seq<Byte> | |s| == 16 witness seq(16, _ => 0)
  type Count = n: nat | n < 0x1_0000

  /** Every field but the first may be missing, together with all that follow it. */
  datatype RsnInfo = RsnInfo(
    version: Option<Count>,
    group: Option<Suite>,
    pairwise: Option<seq<Suite>>,
    akm: Option<seq<Suite>>,
    capabilities: Option<Count>,
    pmkids: Option<seq<Pmkid>>,
    groupMgmt: Option<Suite>)

  /** The list counts fit their 16 bits. */
  predicate Counted(r: RsnInfo) {
    && (r.pairwise.Some? ==> |r.pairwise.value| < 0x1_0000)
    && (r.akm.Some? ==> |r.akm.value| < 0x1_0000)
    && (r.pmkids.Some? ==> |r.pmkids.value| < 0x1_0000)
  }

  predicate WellFormed(r: RsnInfo, isOsen: bool) {
    && Counted(r)
    && (r.version.None? <==> isOsen)
    && (r.pairwise.Some? ==> r.group.Some?)
    && (r.akm.Some? ==> r.pairwise.Some?)
    && (r.capabilities.Some? ==> r.akm.Some?)
    && (r.pmkids.Some? ==> r.capabilities.Some?)
    && (r.groupMgmt.Some? ==> r.pmkids.Some?)
  }

  // ----- Serialising

  function LittleEndian(n: nat): (s: seq<Byte>)
    requires n < 0x1_0000
    ensures |s| == 2
  {
    [n % 0x100, n / 0x100]
  }

  function Concat(parts: seq<seq<Byte>>): seq<Byte> {
    if parts == [] then [] else parts[0] + Concat(parts[1..])
  }

  function NumberField(n: Option<Count>): seq<Byte> { if n.Some? then LittleEndian(n.value) else [] }

  function SuiteField(s: Option<Suite>): seq<Byte> { if s.Some? then s.value else [] }

  function ListField(parts: seq<seq<Byte>>): seq<Byte>
    requires |parts| < 0x1_0000
  {
    LittleEndian(|parts|) + Concat(parts)
  }

  function SuitesField(s: Option<seq<Suite>>): seq<Byte>
    requires s.Some? ==> |s.value| < 0x1_0000
  {
    if s.Some? then ListField(s.value) else []
  }

  function PmkidsField(s: Option<seq<Pmkid>>): seq<Byte>
    requires s.Some? ==> |s.value| < 0x1_0000
  {
    if s.Some? then ListField(s.value) else []
  }

  /** The bytes of the optional fields from each field on. */
  function FromGroupMgmt(r: RsnInfo): seq<Byte> { SuiteField(r.groupMgmt) }

  function FromPmkids(r: RsnInfo): seq<Byte>
    requires Counted(r)
  {
    PmkidsField(r.pmkids) + FromGroupMgmt(r)
  }

  function FromCapabilities(r: RsnInfo): seq<Byte>
    requires Counted(r)
  {
    NumberField(r.capabilities) + FromPmkids(r)
  }

  function FromAkm(r: RsnInfo): seq<Byte>
    requires Counted(r)
  {
    SuitesField(r.akm) + FromCapabilities(r)
  }

  function FromPairwise(r: RsnInfo): seq<Byte>
    requires Counted(r)
  {
    SuitesField(r.pairwise) + FromAkm(r)
  }

  function FromGroup(r: RsnInfo): seq<Byte>
    requires Counted(r)
  {
    SuiteField(r.group) + FromPairwise(r)
  }

  function Serialised(r: RsnInfo): seq<Byte>
    requires Counted(r)
  {
    NumberField(r.version) + FromGroup(r)
  }

  // ----- Lists with a 16-bit count

  function Number(data: seq<Byte>): (n: Count)
    requires |data| >= 2
  {
    U16(data[1], data[0])
  }

  predicate CanSplit(data: seq<Byte>, size: nat, count: nat) {
    count == 0 || (size <= |data| && CanSplit(data[size..], size, count - 1))
  }

  /** The first `count` pieces of `size` bytes, and what follows them. */
  function Split(data: seq<Byte>, size: nat, count: nat): (parts: seq<seq<Byte>>)
    requires CanSplit(data, size, count)
    ensures |parts| == count && forall i | 0 <= i < count :: |parts[i]| == size
  {
    if count == 0 then [] else [data[..size]] + Split(data[size..], size, count - 1)
  }

  function Drop(data: seq<Byte>, size: nat, count: nat): seq<Byte>
    requires CanSplit(data, size, count)
  {
    if count == 0 then data else Drop(data[size..], size, count - 1)
  }

  /** The count at the front of `data` promises no more than `data` holds. */
  predicate ListFits(data: seq<Byte>, size: nat) {
    |data| >= 2 && CanSplit(data[2..], size, Number(data))
  }

  function ListItems(data: seq<Byte>, size: nat): (parts: seq<seq<Byte>>)
    requires ListFits(data, size)
    ensures |parts| == Number(data) && forall i | 0 <= i < |parts| :: |parts[i]| == size
  {
    Split(data[2..], size, Number(data))
  }

  function AfterList(data: seq<Byte>, size: nat): seq<Byte>
    requires ListFits(data, size)
  {
    Drop(data[2..], size, Number(data))
  }

  lemma NumberRoundTrip(n: Count, rest: seq<Byte>)
    ensures Number(LittleEndian(n) + rest) == n && (LittleEndian(n) + rest)[2..] == rest
  {
  }

  lemma NumberRead(data: seq<Byte>)
    requires |data| >= 2
    ensures data == LittleEndian(Number(data)) + data[2..]
  {
  }

  lemma {:induction false} SplitConcat(parts: seq<seq<Byte>>, size: nat, rest: seq<Byte>)
    requires forall i | 0 <= i < |parts| :: |parts[i]| == size
    ensures var all := Concat(parts) + rest;
            && CanSplit(all, size, |parts|)
            && Split(all, size, |parts|) == parts
            && Drop(all, size, |parts|) == rest
  {
    var all := Concat(parts) + rest;
    if parts == [] {
      assert all == rest;
    } else {
      var more := parts[1..];
      SplitConcat(more, size, rest);
      assert all[..size] == parts[0] && all[size..] == Concat(more) + rest;
    }
  }

  lemma {:induction false} ConcatSplit(data: seq<Byte>, size: nat, count: nat)
    requires CanSplit(data, size, count)
    ensures Concat(Split(data, size, count)) + Drop(data, size, count) == data
  {
    if count != 0 {
      var more := Split(data[size..], size, count - 1);
      ConcatSplit(data[size..], size, count - 1);
      assert ([data[..size]] + more)[1..] == more;
    }
  }

  /** The same by multiplication, as the C code computes it. */
  lemma {:induction false} SplitByIndex(data: seq<Byte>, size: nat, count: nat)
    ensures CanSplit(data, size, count) <==> count * size <= |data|
    ensures CanSplit(data, size, count) ==> Drop(data, size, count) == data[count * size..]
  {
    if count != 0 {
      ProductStep(count, size);
      if size <= |data| {
        SplitByIndex(data[size..], size, count - 1);
        if CanSplit(data, size, count) {
          assert data[size..][(count - 1) * size..] == data[count * size..];
        }
      }
    }
  }

  lemma ProductStep(count: nat, size: nat)
    requires count > 0
    ensures count * size == size + (count - 1) * size && (count - 1) * size >= 0
  {
  }

  lemma {:induction false} SplitPiece(data: seq<Byte>, size: nat, count: nat, i: nat)
    requires CanSplit(data, size, count) && i < count
    ensures (i + 1) * size <= |data| && Split(data, size, count)[i] == data[i * size..(i + 1) * size]
  {
    if i > 0 {
      ProductStep(i, size);
      ProductStep(i + 1, size);
      SplitPiece(data[size..], size, count - 1, i - 1);
      assert data[size..][(i - 1) * size..i * size] == data[i * size..(i + 1) * size];
    }
  }

  lemma ListFitsLong(data: seq<Byte>, size: nat)
    requires ListFits(data, size)
    ensures |data| >= 2 && |ListItems(data, size)| < 0x1_0000
  {
  }

  lemma ListRoundTrip(parts: seq<seq<Byte>>, size: nat, rest: seq<Byte>)
    requires |parts| < 0x1_0000 && forall i | 0 <= i < |parts| :: |parts[i]| == size
    ensures var data := ListField(parts) + rest;
            ListFits(data, size) && ListItems(data, size) == parts && AfterList(data, size) == rest
  {
    hide Number, LittleEndian, Split, Concat, CanSplit, Drop;
    assert ListField(parts) + rest == LittleEndian(|parts|) + (Concat(parts) + rest);
    NumberRoundTrip(|parts|, Concat(parts) + rest);
    SplitConcat(parts, size, rest);
  }

  lemma ListRead(data: seq<Byte>, size: nat)
    requires ListFits(data, size)
    ensures data == ListField(ListItems(data, size)) + AfterList(data, size)
  {
    hide Number, LittleEndian, Split, Concat, CanSplit, Drop;
    NumberRead(data);
    ConcatSplit(data[2..], size, Number(data));
  }

  // ----- Parsing

  /** `reported`: the function reached the code that prints a bogus tail. */
  datatype Outcome = Outcome(info: RsnInfo, tail: seq<Byte>, reported: bool)

  const NOTHING := RsnInfo(None, None, None, None, None, None, None)

  function ParseRsn(data: seq<Byte>, isOsen: bool): Outcome
    requires !isOsen ==> |data| >= 2
  {
    if isOsen then ParseGroup(data, NOTHING)
    else ParseGroup(data[2..], NOTHING.(version := Some(Number(data))))
  }

  function ParseGroup(d: seq<Byte>, r: RsnInfo): Outcome {
    if |d| < 4 then Outcome(r, d, false)
    else ParsePairwise(d[4..], r.(group := Some(d[..4])))
  }

  function ParsePairwise(d: seq<Byte>, r: RsnInfo): Outcome {
    if |d| < 2 then Outcome(r, d, false)
    else if !ListFits(d, 4) then Outcome(r, d, true)
    else ParseAkm(AfterList(d, 4), r.(pairwise := Some(ListItems(d, 4))))
  }

  function ParseAkm(d: seq<Byte>, r: RsnInfo): Outcome {
    if |d| < 2 then Outcome(r, d, false)
    else if !ListFits(d, 4) then Outcome(r, d, true)
    else ParseCapabilities(AfterList(d, 4), r.(akm := Some(ListItems(d, 4))))
  }

  function ParseCapabilities(d: seq<Byte>, r: RsnInfo): Outcome {
    if |d| < 2 then Outcome(r, d, true)
    else ParsePmkids(d[2..], r.(capabilities := Some(Number(d))))
  }

  function ParsePmkids(d: seq<Byte>, r: RsnInfo): Outcome {
    if |d| < 2 || !ListFits(d, 16) then Outcome(r, d, true)
    else ParseGroupMgmt(AfterList(d, 16), r.(pmkids := Some(ListItems(d, 16))))
  }

  function ParseGroupMgmt(d: seq<Byte>, r: RsnInfo): Outcome {
    if |d| < 4 then Outcome(r, d, true)
    else Outcome(r.(groupMgmt := Some(d[..4])), d[4..], true)
  }

  // ----- Every well-formed element is read back whole

  /** What is known when a stage starts: its own field and all later ones still missing. */
  function CutGroup(r: RsnInfo): RsnInfo { CutPairwise(r).(group := None) }
  function CutPairwise(r: RsnInfo): RsnInfo { CutAkm(r).(pairwise := None) }
  function CutAkm(r: RsnInfo): RsnInfo { CutCapabilities(r).(akm := None) }
  function CutCapabilities(r: RsnInfo): RsnInfo { CutPmkids(r).(capabilities := None) }
  function CutPmkids(r: RsnInfo): RsnInfo { CutGroupMgmt(r).(pmkids := None) }
  function CutGroupMgmt(r: RsnInfo): RsnInfo { r.(groupMgmt := None) }

  lemma GroupMgmtBack(r: RsnInfo)
    ensures var o := ParseGroupMgmt(FromGroupMgmt(r), CutGroupMgmt(r)); o.info == r && o.tail == []
  {
    if r.groupMgmt.Some? {
      assert FromGroupMgmt(r)[..4] == r.groupMgmt.value;
    }
  }

  lemma PmkidsBack(r: RsnInfo, isOsen: bool)
    requires WellFormed(r, isOsen)
    ensures var o := ParsePmkids(FromPmkids(r), CutPmkids(r)); o.info == r && o.tail == []
  {
    hide ListFits, AfterList, ListItems, ListField, ParseGroupMgmt;
    GroupMgmtBack(r);
    if r.pmkids.Some? {
      ListRoundTrip(r.pmkids.value, 16, FromGroupMgmt(r));
      ListFitsLong(FromPmkids(r), 16);
    }
  }

  lemma CapabilitiesBack(r: RsnInfo, isOsen: bool)
    requires WellFormed(r, isOsen)
    ensures var o := ParseCapabilities(FromCapabilities(r), CutCapabilities(r)); o.info == r && o.tail == []
  {
    hide ParsePmkids, Number, LittleEndian;
    if r.capabilities.Some? {
      NumberRoundTrip(r.capabilities.value, FromPmkids(r));
      PmkidsBack(r, isOsen);
    }
  }

  lemma AkmBack(r: RsnInfo, isOsen: bool)
    requires WellFormed(r, isOsen)
    ensures var o := ParseAkm(FromAkm(r), CutAkm(r)); o.info == r && o.tail == []
  {
    hide ParseCapabilities, ListFits, AfterList, ListItems, ListField;
    if r.akm.Some? {
      ListRoundTrip(r.akm.value, 4, FromCapabilities(r));
      ListFitsLong(FromAkm(r), 4);
      CapabilitiesBack(r, isOsen);
    }
  }

  lemma PairwiseBack(r: RsnInfo, isOsen: bool)
    requires WellFormed(r, isOsen)
    ensures var o := ParsePairwise(FromPairwise(r), CutPairwise(r)); o.info == r && o.tail == []
  {
    hide ParseAkm, ListFits, AfterList, ListItems, ListField;
    if r.pairwise.Some? {
      ListRoundTrip(r.pairwise.value, 4, FromAkm(r));
      ListFitsLong(FromPairwise(r), 4);
      AkmBack(r, isOsen);
    }
  }

  lemma GroupBack(r: RsnInfo, isOsen: bool)
    requires WellFormed(r, isOsen)
    ensures var o := ParseGroup(FromGroup(r), CutGroup(r)); o.info == r && o.tail == []
  {
    hide ParsePairwise;
    if r.group.Some? {
      assert FromGroup(r)[..4] == r.group.value && FromGroup(r)[4..] == FromPairwise(r);
      PairwiseBack(r, isOsen);
    }
  }

  /** Any number of suites and PMKIDs: parsing recovers every field and leaves no byte over. */
  lemma RsnRoundTrip(r: RsnInfo, isOsen: bool)
    requires WellFormed(r, isOsen)
    ensures isOsen || |Serialised(r)| >= 2
    ensures var o := ParseRsn(Serialised(r), isOsen); o.info == r && o.tail == []
  {
    hide ParseGroup, Number, LittleEndian;
    GroupBack(r, isOsen);
    if isOsen {
      assert [] + FromGroup(r) == FromGroup(r);
    } else {
      NumberRoundTrip(r.version.value, FromGroup(r));
    }
  }

  lemma ListBytes(a: Suite, b: Suite, pmkid: Pmkid)
    ensures ListField([a, b]) == [2, 0] + a + b && ListField([a]) == [1, 0] + a && ListField([pmkid]) == [1, 0] + pmkid
  {
    assert Concat([]) == [];
    assert [pmkid][1..] == [] && pmkid + [] == pmkid && Concat([pmkid]) == pmkid;
    assert [a][1..] == [] && a + [] == a && Concat([a]) == a;
    assert [b][1..] == [] && b + [] == b && Concat([b]) == b;
    assert [a, b][1..] == [b] && Concat([a, b]) == a + b;
    assert [2, 0] + (a + b) == [2, 0] + a + b;
  }

  lemma FieldBytes(v: Count, g: Suite, p: Suite, k: Suite, c: Count, pmkid: Pmkid, m: Suite)
    ensures var r := RsnInfo(Some(v), Some(g), Some([p, g]), Some([k]), Some(c), Some([pmkid]), Some(m));
            Serialised(r)
            == [v % 256, v / 256] + g + [2, 0] + p + g + [1, 0] + k + [c % 256, c / 256] + [1, 0] + pmkid + m
  {
    hide ListField;
    ListBytes(p, g, pmkid);
    ListBytes(k, g, pmkid);
    var x := [1, 0] + pmkid + m;
    var y := [c % 256, c / 256] + x;
    var z := [1, 0] + k + y;
    assert z == [1, 0] + k + [c % 256, c / 256] + [1, 0] + pmkid + m;
    var w := [2, 0] + p + g + z;
    assert w == [2, 0] + p + g + [1, 0] + k + [c % 256, c / 256] + [1, 0] + pmkid + m;
  }

  /** Field by field: numbers low byte first, lists after their count, and the order of the fields. */
  lemma RsnLayout(v: Count, g: Suite, p: Suite, k: Suite, c: Count, pmkid: Pmkid, m: Suite)
    ensures var data := [v % 256, v / 256] + g + [2, 0] + p + g + [1, 0] + k + [c % 256, c / 256] + [1, 0] + pmkid + m;
            var o := ParseRsn(data, false);
            && o.info == RsnInfo(Some(v), Some(g), Some([p, g]), Some([k]), Some(c), Some([pmkid]), Some(m))
            && o.tail == []
  {
    hide Serialised, ParseRsn;
    FieldBytes(v, g, p, k, c, pmkid, m);
    RsnRoundTrip(RsnInfo(Some(v), Some(g), Some([p, g]), Some([k]), Some(c), Some([pmkid]), Some(m)), false);
  }

  // ----- On any bytes, fields and tail are the input

  lemma Join(a: seq<Byte>, b: seq<Byte>, c: seq<Byte>)
    ensures a + b + c == a + (b + c)
  {
  }

  lemma NothingFollowsAkm(r: RsnInfo)
    requires Counted(r) && r == CutAkm(r)
    ensures FromAkm(r) == [] && FromCapabilities(r) == []
  {
  }

  lemma NothingFollowsPairwise(r: RsnInfo)
    requires Counted(r) && r == CutPairwise(r)
    ensures FromPairwise(r) == [] && FromAkm(r) == []
  {
  }

  lemma NothingFollowsGroup(r: RsnInfo)
    requires Counted(r) && r == CutGroup(r)
    ensures FromGroup(r) == [] && FromPairwise(r) == []
  {
  }

  lemma PmkidsKept(d: seq<Byte>, r: RsnInfo, isOsen: bool)
    requires WellFormed(r, isOsen) && r == CutPmkids(r) && r.capabilities.Some?
    ensures var o := ParsePmkids(d, r);
            && WellFormed(o.info, isOsen) && CutPmkids(o.info) == r && o.reported
            && FromPmkids(o.info) + o.tail == d
  {
    hide ListFits, AfterList, ListItems, ListField;
    if |d| >= 2 && ListFits(d, 16) {
      ListRead(d, 16);
    }
  }

  lemma CapabilitiesKept(d: seq<Byte>, r: RsnInfo, isOsen: bool)
    requires WellFormed(r, isOsen) && r == CutCapabilities(r) && r.akm.Some?
    ensures var o := ParseCapabilities(d, r);
            && WellFormed(o.info, isOsen) && CutCapabilities(o.info) == r && o.reported
            && FromCapabilities(o.info) + o.tail == d
  {
    hide ParsePmkids, Number, LittleEndian;
    if |d| >= 2 {
      NumberRead(d);
      PmkidsKept(d[2..], r.(capabilities := Some(Number(d))), isOsen);
    }
  }

  lemma AkmKept(d: seq<Byte>, r: RsnInfo, isOsen: bool)
    requires WellFormed(r, isOsen) && r == CutAkm(r) && r.pairwise.Some?
    ensures var o := ParseAkm(d, r);
            && WellFormed(o.info, isOsen) && CutAkm(o.info) == r
            && FromAkm(o.info) + o.tail == d
  {
    hide ParseCapabilities, ListFits, AfterList, ListItems, ListField, FromCapabilities;
    if |d| >= 2 && ListFits(d, 4) {
      ListRead(d, 4);
      CapabilitiesKept(AfterList(d, 4), r.(akm := Some(ListItems(d, 4))), isOsen);
      var o := ParseAkm(d, r);
      Join(ListField(ListItems(d, 4)), FromCapabilities(o.info), o.tail);
    } else {
      NothingFollowsAkm(r);
    }
  }

  lemma PairwiseKept(d: seq<Byte>, r: RsnInfo, isOsen: bool)
    requires WellFormed(r, isOsen) && r == CutPairwise(r) && r.group.Some?
    ensures var o := ParsePairwise(d, r);
            && WellFormed(o.info, isOsen) && CutPairwise(o.info) == r
            && FromPairwise(o.info) + o.tail == d
  {
    hide ParseAkm, ListFits, AfterList, ListItems, ListField, FromAkm;
    if |d| >= 2 && ListFits(d, 4) {
      ListRead(d, 4);
      AkmKept(AfterList(d, 4), r.(pairwise := Some(ListItems(d, 4))), isOsen);
      var o := ParsePairwise(d, r);
      Join(ListField(ListItems(d, 4)), FromAkm(o.info), o.tail);
    } else {
      NothingFollowsPairwise(r);
    }
  }

  lemma GroupKept(d: seq<Byte>, r: RsnInfo, isOsen: bool)
    requires WellFormed(r, isOsen) && r == CutGroup(r)
    ensures var o := ParseGroup(d, r);
            && WellFormed(o.info, isOsen) && CutGroup(o.info) == r
            && FromGroup(o.info) + o.tail == d
  {
    hide ParsePairwise, FromPairwise;
    if |d| >= 4 {
      PairwiseKept(d[4..], r.(group := Some(d[..4])), isOsen);
      var o := ParseGroup(d, r);
      Join(d[..4], FromPairwise(o.info), o.tail);
    } else {
      NothingFollowsGroup(r);
    }
  }

  // ----- When the rest is reported

  /** What the element holds after the version. */
  function AfterVersion(data: seq<Byte>, isOsen: bool): seq<Byte>
    requires !isOsen ==> |data| >= 2
  {
    if isOsen then data else data[2..]
  }

  /** No group cipher, no pairwise count, or a complete pairwise list with no AKM count after it. */
  predicate StopsEarly(d: seq<Byte>) {
    |d| < 6 || (ListFits(d[4..], 4) && |AfterList(d[4..], 4)| < 2)
  }

  /** Of these, the ones with bytes left over. */
  predicate Vanishes(d: seq<Byte>) {
    0 < |d| < 4 || |d| == 5 || (|d| >= 6 && ListFits(d[4..], 4) && |AfterList(d[4..], 4)| == 1)
  }

  lemma CapabilitiesReported(d: seq<Byte>, r: RsnInfo)
    ensures ParseCapabilities(d, r).reported
  {
    hide ListFits, AfterList, ListItems, Number;
  }

  lemma GroupReported(d: seq<Byte>, r: RsnInfo)
    ensures var o := ParseGroup(d, r);
            && (!o.reported <==> StopsEarly(d))
            && (!o.reported && o.tail != [] <==> Vanishes(d))
  {
    hide ListFits, AfterList, ListItems, ParseCapabilities;
    if |d| >= 6 && ListFits(d[4..], 4) {
      var p := r.(group := Some(d[..4])).(pairwise := Some(ListItems(d[4..], 4)));
      var rest := AfterList(d[4..], 4);
      if |rest| >= 2 && ListFits(rest, 4) {
        CapabilitiesReported(AfterList(rest, 4), p.(akm := Some(ListItems(rest, 4))));
      }
    }
  }

  /**
   On any bytes: the fields found, serialised again, and what is left over are the element. What is
   left over is printed as a bogus tail, unless the function stops early; the bytes that then vanish
   are fewer than the four of a group cipher or the two of a suite count.
   */
  lemma RsnKept(data: seq<Byte>, isOsen: bool)
    requires !isOsen ==> |data| >= 2
    ensures var o := ParseRsn(data, isOsen);
            && WellFormed(o.info, isOsen)
            && Serialised(o.info) + o.tail == data
            && (!o.reported <==> StopsEarly(AfterVersion(data, isOsen)))
            && (!o.reported && o.tail != [] <==> Vanishes(AfterVersion(data, isOsen)))
  {
    hide ParseGroup, Number, LittleEndian, FromGroup, StopsEarly, Vanishes;
    if isOsen {
      GroupKept(data, NOTHING, isOsen);
      GroupReported(data, NOTHING);
    } else {
      NumberRead(data);
      GroupReported(data[2..], NOTHING.(version := Some(Number(data))));
      GroupKept(data[2..], NOTHING.(version := Some(Number(data))), isOsen);
      var o := ParseRsn(data, isOsen);
      var v := LittleEndian(Number(data));
      assert Serialised(o.info) == v + FromGroup(o.info);
      assert v + FromGroup(o.info) + o.tail == v + (FromGroup(o.info) + o.tail);
    }
  }

  /** Three bytes after the version disappear without being reported. */
  lemma TailMayVanish(a: Byte, b: Byte, c: Byte)
    ensures var o := ParseRsn([1, 0, a, b, c], false); o.tail == [a, b, c] && !o.reported
  {
    assert [1, 0, a, b, c][2..] == [a, b, c];
  }

  // ----- _print_rsn_ie

  /** At `pos`, in the terms the C code uses. */
  lemma ListAt(data: seq<Byte>, pos: nat, size: nat)
    requires pos + 2 <= |data|
    ensures Number(data[pos..]) == U16(data[pos + 1], data[pos])
    ensures var n := 2 + Number(data[pos..]) * size;
            && (ListFits(data[pos..], size) <==> pos + n <= |data|)
            && (ListFits(data[pos..], size) ==> AfterList(data[pos..], size) == data[pos + n..])
  {
    hide CanSplit, Drop;
    var d := data[pos..];
    assert d[2..] == data[pos + 2..];
    SplitByIndex(d[2..], size, Number(d));
    if ListFits(d, size) {
      assert d[2..][Number(d) * size..] == data[pos + 2 + Number(d) * size..];
    }
  }

  lemma ItemAt(data: seq<Byte>, pos: nat, size: nat, i: nat)
    requires pos + 2 <= |data| && ListFits(data[pos..], size) && i < Number(data[pos..])
    ensures 0 <= i * size && pos + 2 + (i + 1) * size <= |data|
    ensures ListItems(data[pos..], size)[i] == data[pos + 2 + i * size..pos + 2 + (i + 1) * size]
  {
    hide CanSplit;
    var d := data[pos..];
    assert d[2..] == data[pos + 2..];
    ProductStep(i + 1, size);
    SplitPiece(d[2..], size, Number(d), i);
    assert data[pos + 2..][i * size..(i + 1) * size] == data[pos + 2 + i * size..pos + 2 + (i + 1) * size];
  }

  method ReadSuites(data: seq<Byte>, pos: nat) returns (suites: seq<Suite>)
    requires pos + 2 <= |data| && ListFits(data[pos..], 4)
    ensures suites == ListItems(data[pos..], 4)
  {
    hide ListFits, ListItems;
    ghost var all := ListItems(data[pos..], 4);
    ListAt(data, pos, 4);
    var count := U16(data[pos + 1], data[pos]);
    suites := [];
    var i := 0;
    while i < count
      invariant i <= count && suites == all[..i]
    {
      ItemAt(data, pos, 4, i);
      suites := suites + [data[pos + 2 + i * 4..pos + 2 + (i + 1) * 4]];
      i := i + 1;
    }
  }

  /**
   `len` is the 8-bit parameter, `pos` how far the data pointer has moved: together they span the
   element at every step, so `len` never wraps and the bogus tail is the unparsed suffix.
   */
  method PrintRsnIe(data: seq<Byte>, isOsen: bool) returns (info: RsnInfo, tail: seq<Byte>, reported: bool)
    requires |data| < 0x100 && (!isOsen ==> |data| >= 2)
    ensures Outcome(info, tail, reported) == ParseRsn(data, isOsen)
  {
    hide ParseGroup, Number, ListFits;
    var len: nat, pos: nat := |data|, 0;
    info := NOTHING;
    if !isOsen {
      NumberAt(data, 0);
      info := info.(version := Some(U16(data[1], data[0])));
      pos := 2;
      len := (len - 2) % 0x100;
    }
    assert ParseRsn(data, isOsen) == ParseGroup(data[pos..], info);
    info, tail, reported := PrintFromGroup(data, pos, len, info);
  }

  // The rest of the function, cut at each field for the verifier.

  method PrintFromGroup(data: seq<Byte>, pos: nat, len: nat, known: RsnInfo)
    returns (info: RsnInfo, tail: seq<Byte>, reported: bool)
    requires |data| < 0x100 && pos + len == |data|
    ensures Outcome(info, tail, reported) == ParseGroup(data[pos..], known)
  {
    hide ParsePairwise;
    if len < 4 {
      return known, data[pos..], false;
    }
    info := known.(group := Some(data[pos..pos + 4]));
    assert data[pos..][..4] == data[pos..pos + 4] && data[pos..][4..] == data[pos + 4..];
    info, tail, reported := PrintFromPairwise(data, pos + 4, (len - 4) % 0x100, info);
  }

  method PrintFromPairwise(data: seq<Byte>, pos: nat, len: nat, known: RsnInfo)
    returns (info: RsnInfo, tail: seq<Byte>, reported: bool)
    requires |data| < 0x100 && pos + len == |data|
    ensures Outcome(info, tail, reported) == ParsePairwise(data[pos..], known)
  {
    hide Number, ListFits, ListItems, AfterList, ParseAkm;
    if len < 2 {
      return known, data[pos..], false;
    }
    ListAt(data, pos, 4);
    var count := U16(data[pos + 1], data[pos]);
    if 2 + count * 4 > len {
      return known, data[pos..], true;
    }
    var pairwise := ReadSuites(data, pos);
    info := known.(pairwise := Some(pairwise));
    info, tail, reported := PrintFromAkm(data, pos + 2 + count * 4, (len - (2 + count * 4)) % 0x100, info);
  }

  method PrintFromAkm(data: seq<Byte>, pos: nat, len: nat, known: RsnInfo)
    returns (info: RsnInfo, tail: seq<Byte>, reported: bool)
    requires |data| < 0x100 && pos + len == |data|
    ensures Outcome(info, tail, reported) == ParseAkm(data[pos..], known)
  {
    hide Number, ListFits, ListItems, AfterList, ParseCapabilities;
    if len < 2 {
      return known, data[pos..], false;
    }
    ListAt(data, pos, 4);
    var count := U16(data[pos + 1], data[pos]);
    if 2 + count * 4 > len {
      return known, data[pos..], true;
    }
    var akm := ReadSuites(data, pos);
    info := known.(akm := Some(akm));
    info, tail, reported := PrintFromCapabilities(data, pos + 2 + count * 4, (len - (2 + count * 4)) % 0x100, info);
  }

  method PrintFromCapabilities(data: seq<Byte>, pos: nat, len: nat, known: RsnInfo)
    returns (info: RsnInfo, tail: seq<Byte>, reported: bool)
    requires |data| < 0x100 && pos + len == |data|
    ensures Outcome(info, tail, reported) == ParseCapabilities(data[pos..], known)
  {
    hide Number, ParsePmkids;
    if len < 2 {
      return known, data[pos..], true;
    }
    NumberAt(data, pos);
    info := known.(capabilities := Some(U16(data[pos + 1], data[pos])));
    info, tail, reported := PrintFromPmkids(data, pos + 2, (len - 2) % 0x100, info);
  }

  method PrintFromPmkids(data: seq<Byte>, pos: nat, len: nat, known: RsnInfo)
    returns (info: RsnInfo, tail: seq<Byte>, reported: bool)
    requires |data| < 0x100 && pos + len == |data|
    ensures Outcome(info, tail, reported) == ParsePmkids(data[pos..], known)
  {
    hide Number, ListFits, ListItems, AfterList, ParseGroupMgmt;
    if len < 2 {
      return known, data[pos..], true;
    }
    ListAt(data, pos, 16);
    var count := U16(data[pos + 1], data[pos]);
    if len < 2 + 16 * count {
      return known, data[pos..], true;
    }
    info := known.(pmkids := Some(ListItems(data[pos..], 16)));
    info, tail, reported := PrintGroupMgmt(data, pos + 2 + 16 * count, (len - (2 + 16 * count)) % 0x100, info);
  }

  method PrintGroupMgmt(data: seq<Byte>, from: nat, rest: nat, known: RsnInfo)
    returns (info: RsnInfo, tail: seq<Byte>, reported: bool)
    requires |data| < 0x100 && from + rest == |data|
    ensures Outcome(info, tail, reported) == ParseGroupMgmt(data[from..], known)
  {
    var pos, len := from, rest;
    info := known;
    if len >= 4 {
      info := info.(groupMgmt := Some(data[pos..pos + 4]));
      assert data[pos..][..4] == data[pos..pos + 4] && data[pos..][4..] == data[pos + 4..];
      pos := pos + 4;
      len := (len - 4) % 0x100;
    }
    reported := true;
    tail := data[pos..pos + len];
  }

  lemma NumberAt(data: seq<Byte>, pos: nat)
    requires pos + 2 <= |data|
    ensures Number(data[pos..]) == U16(data[pos + 1], data[pos]) && data[pos..][2..] == data[pos + 2..]
  {
  }
}
