/**
 set_bitrates of iw/bitrate.c: a loop that files each argument under the keyword before it, then
 checks, then one nest of rates for each band.
 */
module Bitrates {
  import opened Netlink
  import opened Rates
  import opened Wrappers

  const EINVAL: int := -22
  const MCS_ARGS_MAX := 100

  datatype Band = B24 | B5 | B6

  /** The keywords, such as "vht-mcs-5"; Gi and Ltf are "he-gi-5" or "eht-gi-5" and so on. */
  datatype Key = Legacy(b: Band) | Ht(b: Band) | Mcs(mode: Mode, b: Band) | Sgi(b: Band) | Lgi(b: Band)
               | Gi(eht: bool, b: Band) | Ltf(eht: bool, b: Band)

  /**
   What an argument that is no keyword is read as: the byte kept for a legacy rate in range, the
   whole number strtol reads, MCS numbers, and the code of a guard interval.
   */
  datatype Reading = Reading(rate: Option<nat>, number: Option<int>, chunk: Chunk, gi: Option<nat>)

  /** Only the newer rates have keywords for 6 GHz. */
  predicate Exists(k: Key) {
    k.b.B6? ==> k.Gi? || k.Ltf? || (k.Mcs? && !k.mode.VHT?)
  }

  type Keyword = k: Key | Exists(k) witness Legacy(B24)

  datatype Arg = Word(key: Keyword) | Text(reading: Reading)

  datatype Value = Byte(n: int) | Bytes(s: seq<int>) | McsMasks(masks: seq<nat>) | U16(n: int) | Mac(addr: nat) | Flag

  type Attrs = seq<Attr<Value>>

  // ----- What the arguments say

  /**
   What the loop has found: parser_state with the arrays its pointers select (the last keyword),
   the keywords given, what is filed under each, and one guard interval and one LTF for all bands.
   */
  datatype View = View(
    current: Option<Key>, have: set<Key>, lists: map<Key, seq<Reading>>,
    heGi: Option<Reading>, ehtGi: Option<Reading>, heLtf: int, ehtLtf: int)

  const NOTHING := View(None, {}, map[], None, None, 0, 0)

  function Filed(v: View, k: Key): seq<Reading> {
    if k in v.lists then v.lists[k] else []
  }

  function NumberOf(r: Reading): int {
    if r.number.Some? then r.number.value else 0
  }

  /** What assigning a long to an int keeps: the low 32 bits, with their sign. */
  function Int32(n: int): (i: int)
    ensures -0x8000_0000 <= i < 0x8000_0000 && (n - i) % 0x1_0000_0000 == 0
  {
    (n + 0x8000_0000) % 0x1_0000_0000 - 0x8000_0000
  }

  /** The number an LTF variable gets. */
  function LtfOf(r: Reading): int { Int32(NumberOf(r)) }

  function File(v: View, k: Key, r: Reading): View {
    match k
    case Sgi(_) => v
    case Lgi(_) => v
    case Gi(eht, _) => if eht then v.(ehtGi := Some(r)) else v.(heGi := Some(r))
    case Ltf(eht, _) => if eht then v.(ehtLtf := LtfOf(r) / 2) else v.(heLtf := LtfOf(r) / 2)
    case _ => v.(lists := v.lists[k := Filed(v, k) + [r]])
  }

  function Plus(v: View, a: Arg): View {
    match a
    case Word(k) => v.(current := Some(k), have := v.have + {k})
    case Text(r) => if v.current.None? then v else File(v, v.current.value, r)
  }

  function Look(args: seq<Arg>): View {
    if args == [] then NOTHING else Plus(Look(args[..|args| - 1]), args[|args| - 1])
  }

  // ----- Checks

  predicate NumberIn(r: Reading, low: int, high: int) {
    r.number.Some? && low <= r.number.value <= high
  }

  /** Keywords that may be given only once. */
  predicate Once(k: Key) { k.Legacy? || k.Ht? || k.Mcs? }

  predicate TextFine(k: Key, count: nat, r: Reading) {
    match k
    case Legacy(_) => r.rate.Some?
    case Ht(_) => NumberIn(r, 0, 255)
    case Mcs(_, _) => count < MCS_ARGS_MAX
    case Ltf(eht, _) =>
      r.number.Some? && if eht then 1 <= LtfOf(r) <= 8 && (LtfOf(r) == 1 || LtfOf(r) % 2 == 0) else 0 <= LtfOf(r) <= 4
    case _ => true
  }

  predicate ArgFine(v: View, a: Arg) {
    match a
    case Word(k) => Once(k) ==> k !in v.have
    case Text(r) => v.current.Some? && TextFine(v.current.value, |Filed(v, v.current.value)|, r)
  }

  predicate LoopFine(args: seq<Arg>) {
    forall i | 0 <= i < |args| :: ArgFine(Look(args[..i]), args[i])
  }

  function Chunks(readings: seq<Reading>): seq<Chunk> {
    seq(|readings|, i requires 0 <= i < |readings| => readings[i].chunk)
  }

  predicate McsFine(v: View, k: Key)
    requires k.Mcs?
  {
    k in v.have ==> AllRead(Chunks(Filed(v, k)), k.mode)
  }

  predicate AllMcsFine(v: View) {
    && McsFine(v, Mcs(VHT, B24)) && McsFine(v, Mcs(VHT, B5))
    && McsFine(v, Mcs(HE, B24)) && McsFine(v, Mcs(HE, B5)) && McsFine(v, Mcs(HE, B6))
    && McsFine(v, Mcs(EHT, B24)) && McsFine(v, Mcs(EHT, B5)) && McsFine(v, Mcs(EHT, B6))
  }

  predicate GiFine(r: Option<Reading>) {
    r.Some? ==> r.value.gi.Some?
  }

  predicate ChoicesFine(v: View) {
    && !(Sgi(B5) in v.have && Lgi(B5) in v.have) && !(Sgi(B24) in v.have && Lgi(B24) in v.have)
    && GiFine(v.heGi) && GiFine(v.ehtGi)
  }

  // ----- The message

  function IdOf(k: Key): Id {
    match k
    case Legacy(_) => TXRATE_LEGACY
    case Ht(_) => TXRATE_HT
    case Mcs(mode, _) => (match mode case VHT => TXRATE_VHT case HE => TXRATE_HE case EHT => TXRATE_EHT)
    case Sgi(_) => TXRATE_GI
    case Lgi(_) => TXRATE_GI
    case Gi(eht, _) => if eht then TXRATE_EHT_GI else TXRATE_HE_GI
    case Ltf(eht, _) => if eht then TXRATE_EHT_LTF else TXRATE_HE_LTF
  }

  function GiCode(r: Option<Reading>): nat {
    if r.Some? && r.value.gi.Some? then r.value.gi.value else 0
  }

  function RateBytes(readings: seq<Reading>): seq<int> {
    seq(|readings|, i requires 0 <= i < |readings| => if readings[i].rate.Some? then readings[i].rate.value else 0)
  }

  function NumberBytes(readings: seq<Reading>): seq<int> {
    seq(|readings|, i requires 0 <= i < |readings| => NumberOf(readings[i]))
  }

  function ValueOf(v: View, k: Key): Value {
    match k
    case Legacy(_) => Bytes(RateBytes(Filed(v, k)))
    case Ht(_) => Bytes(NumberBytes(Filed(v, k)))
    case Mcs(mode, _) => McsMasks(Masks(Chunks(Filed(v, k)), mode))
    case Sgi(_) => Byte(1)
    case Lgi(_) => Byte(2)
    case Gi(eht, _) => Byte(GiCode(if eht then v.ehtGi else v.heGi))
    case Ltf(eht, _) => Byte(if eht then v.ehtLtf else v.heLtf)
  }

  function Part(v: View, k: Key): Attrs {
    if k in v.have then [Leaf(IdOf(k), ValueOf(v, k))] else []
  }

  function RateParts(v: View, b: Band): Attrs {
    Part(v, Legacy(b)) + Part(v, Ht(b)) + Part(v, Mcs(VHT, b)) + Part(v, Mcs(HE, b)) + Part(v, Mcs(EHT, b))
  }

  function GuardParts(v: View, b: Band): Attrs {
    Part(v, Sgi(b)) + Part(v, Lgi(b)) + Part(v, Gi(false, b)) + Part(v, Ltf(false, b)) + Part(v, Gi(true, b))
        + Part(v, Ltf(true, b))
  }

  function BandId(b: Band): Id {
    match b case B24 => BAND_2GHZ case B5 => BAND_5GHZ case B6 => BAND_6GHZ
  }

  predicate AnyOf(v: View, b: Band) {
    || Legacy(b) in v.have || Ht(b) in v.have || Mcs(VHT, b) in v.have || Mcs(HE, b) in v.have
    || Sgi(b) in v.have || Lgi(b) in v.have || Gi(false, b) in v.have || Ltf(false, b) in v.have
    || Mcs(EHT, b) in v.have || Gi(true, b) in v.have || Ltf(true, b) in v.have
  }

  function BandPart(v: View, b: Band): Attrs {
    if AnyOf(v, b) then [Nest(BandId(b), RateParts(v, b) + GuardParts(v, b))] else []
  }

  function RatesNest(v: View, attr: Id): Attr<Value> {
    Nest(attr, BandPart(v, B24) + BandPart(v, B5) + BandPart(v, B6))
  }

  // ----- set_bitrates as a function

  datatype Outcome = Fails(err: int) | Puts(ret: nat, nest: Attr<Value>)

  /** Without a keyword first, nothing is taken; otherwise the loop never comes back to its first state. */
  function Taken(args: seq<Arg>): seq<Arg> {
    if args != [] && args[0].Text? then [] else args
  }

  /** After the loop. */
  function Concluded(v: View, ret: nat, attr: Id): Outcome {
    if !AllMcsFine(v) then Fails(EINVAL)
    else if !ChoicesFine(v) then Fails(1)
    else Puts(ret, RatesNest(v, attr))
  }

  function SetBitratesOf(args: seq<Arg>, attr: Id): (r: Outcome)
    ensures if r.Puts? then r.ret <= |args| else r.err in {1, EINVAL}
  {
    var taken := Taken(args);
    if attr == TX_RATES && taken != args then Fails(1)
    else if !LoopFine(taken) then Fails(1)
    else Concluded(Look(taken), if attr == TX_RATES then 0 else |taken|, attr)
  }

  // ----- What follows

  /** The last keyword in `args`. */
  function LastKey(args: seq<Arg>): Option<Key> {
    if args == [] then None
    else if args[|args| - 1].Word? then Some(args[|args| - 1].key)
    else LastKey(args[..|args| - 1])
  }

  predicate FiledUnder(args: seq<Arg>, i: nat, k: Key, r: Reading)
    requires i < |args|
  {
    args[i] == Text(r) && LastKey(args[..i]) == Some(k)
  }

  /** `r` is a text after `k` with no other keyword between. */
  predicate Given(args: seq<Arg>, k: Key, r: Reading) {
    exists i | 0 <= i < |args| :: FiledUnder(args, i, k, r)
  }

  lemma GivenSnoc(args: seq<Arg>, a: Arg, k: Key, r: Reading)
    ensures Given(args + [a], k, r) <==> Given(args, k, r) || (a == Text(r) && LastKey(args) == Some(k))
  {
    hide LastKey;
    var all := args + [a];
    forall i | 0 <= i < |args| ensures FiledUnder(all, i, k, r) <==> FiledUnder(args, i, k, r) {
      assert all[..i] == args[..i];
    }
    assert all[..|args|] == args;
    assert FiledUnder(all, |args|, k, r) <==> a == Text(r) && LastKey(args) == Some(k);
  }

  /**
   Where the loop files an argument, said without the loop: a rate is filed under the last keyword
   before it, and under nothing else.
   */
  lemma {:induction false} LookFiles(args: seq<Arg>, k: Key, r: Reading)
    ensures Look(args).current == LastKey(args)
    ensures Once(k) ==> (r in Filed(Look(args), k) <==> Given(args, k, r))
  {
    if args != [] {
      hide Given, Filed, File;
      var n := |args| - 1;
      LookFiles(args[..n], k, r);
      assert args == args[..n] + [args[n]];
      GivenSnoc(args[..n], args[n], k, r);
      if Once(k) { FiledPlus(Look(args[..n]), args[n], k, r); }
    } else {
      NothingGiven(k, r);
    }
  }

  lemma NothingGiven(k: Key, r: Reading)
    ensures !Given([], k, r) && Filed(NOTHING, k) == []
  {
  }

  lemma FiledPlus(v: View, a: Arg, k: Key, r: Reading)
    requires Once(k)
    ensures r in Filed(Plus(v, a), k) <==> r in Filed(v, k) || (a == Text(r) && v.current == Some(k))
  {
  }

  /**
   With the TID configuration's attribute a successful call takes all arguments or, when the first
   is no keyword, none. Its result does not tell one argument taken from an error.
   */
  lemma TakesAllOrNothing(args: seq<Arg>, attr: Id)
    requires attr != TX_RATES && SetBitratesOf(args, attr).Puts?
    ensures SetBitratesOf(args, attr).ret == if args != [] && args[0].Word? then |args| else 0
  {
  }

  lemma LookSnoc(args: seq<Arg>, a: Arg)
    ensures Look(args + [a]) == Plus(Look(args), a)
    ensures LoopFine(args + [a]) <==> LoopFine(args) && ArgFine(Look(args), a)
  {
    hide Plus, ArgFine;
    var all := args + [a];
    assert all[..|args|] == args;
    forall i | 0 <= i < |args| ensures all[..i] == args[..i] && all[i] == args[i] {
    }
    if LoopFine(all) {
      forall i | 0 <= i < |args| ensures ArgFine(Look(args[..i]), args[i]) {
        assert ArgFine(Look(all[..i]), all[i]);
      }
      assert ArgFine(Look(all[..|args|]), all[|args|]);
    }
  }

  lemma SgiIgnores(v: View, r: Reading)
    requires v.current.Some? && (v.current.value.Sgi? || v.current.value.Lgi?)
    ensures ArgFine(v, Text(r)) && Plus(v, Text(r)) == v
  {
  }

  lemma SgiIgnoresOne(args: seq<Arg>, before: seq<Arg>, r: Reading)
    requires LoopFine(before) && Look(before) == Look(args)
    requires Look(args).current.Some? && (Look(args).current.value.Sgi? || Look(args).current.value.Lgi?)
    ensures LoopFine(before + [Text(r)]) && Look(before + [Text(r)]) == Look(args)
  {
    hide LoopFine, Look, ArgFine, Plus;
    LookSnoc(before, Text(r));
    SgiIgnores(Look(args), r);
  }

  /** After "sgi-5" and the like, every argument that is no keyword is accepted and ignored. */
  lemma {:induction false} GiSwallows(args: seq<Arg>, ignored: seq<Arg>)
    requires LoopFine(args) && Look(args).current.Some?
    requires Look(args).current.value.Sgi? || Look(args).current.value.Lgi?
    requires forall i | 0 <= i < |ignored| :: ignored[i].Text?
    ensures LoopFine(args + ignored) && Look(args + ignored) == Look(args)
    decreases |ignored|
  {
    hide LoopFine, Look;
    if ignored == [] {
      assert args + ignored == args;
    } else {
      var n := |ignored| - 1;
      GiSwallows(args, ignored[..n]);
      SgiIgnoresOne(args, args + ignored[..n], ignored[n].reading);
      assert args + ignored == args + ignored[..n] + [Text(ignored[n].reading)];
    }
  }

  /** A call such as "sgi-5 tids 2 noack on" does what "sgi-5" alone does, and takes everything. */
  lemma SgiTakesTheRest(k: Keyword, ignored: seq<Arg>, attr: Id)
    requires attr != TX_RATES && (k.Sgi? || k.Lgi?)
    requires forall i | 0 <= i < |ignored| :: ignored[i].Text?
    ensures var r := SetBitratesOf([Word(k)] + ignored, attr);
            r == Puts(1 + |ignored|, RatesNest(Plus(NOTHING, Word(k)), attr))
  {
    hide RatesNest, LoopFine, Look;
    assert LoopFine([]) && Look([]) == NOTHING by { NothingFine(); }
    LookSnoc([], Word(k));
    assert [] + [Word(k)] == [Word(k)];
    GiSwallows([Word(k)], ignored);
  }

  lemma NothingFine()
    ensures LoopFine([]) && Look([]) == NOTHING
  {
  }

  // ----- Masks in the message

  /** The message holds `leaf` in the nest of band `b`. */
  predicate Carries(nest: Attr<Value>, b: Band, leaf: Attr<Value>) {
    nest.Nest? && exists i | 0 <= i < |nest.attrs| :: InBand(nest.attrs[i], b, leaf)
  }

  predicate InBand(band: Attr<Value>, b: Band, leaf: Attr<Value>) {
    && band.Nest? && leaf in band.attrs
    && band.id == match b case B24 => BAND_2GHZ case B5 => BAND_5GHZ case B6 => BAND_6GHZ
  }

  /**
   Every list of MCS numbers arrives: the nest of its band holds its masks, in which a bit is set
   exactly when an argument given under the keyword names it.
   */
  lemma MaskSaysWhatWasGiven(args: seq<Arg>, k: Keyword, attr: Id) returns (masks: seq<nat>)
    requires k.Mcs? && Word(k) in args && args[0].Word? && SetBitratesOf(args, attr).Puts?
    ensures var id := match k.mode case VHT => TXRATE_VHT case HE => TXRATE_HE case EHT => TXRATE_EHT;
            && |masks| == (if k.mode == EHT then 16 else 8)
            && Carries(SetBitratesOf(args, attr).nest, k.b, Leaf(id, McsMasks(masks)))
    ensures forall nss: nat, m: nat | 1 <= nss <= |masks| :: Has(masks[nss - 1], m) <==> GivenRate(args, k, nss, m)
  {
    hide Look, LoopFine, AllMcsFine, ChoicesFine, Slot, Has, Names, Filed, GivenRate, RatesNest, Carries;
    var v := Look(args);
    masks := Masks(Chunks(Filed(v, k)), k.mode);
    HaveIsGiven(args, k);
    LeafCarried(v, k, attr);
    forall nss: nat, m: nat | 1 <= nss <= MaxNss(k.mode)
      ensures Has(masks[nss - 1], m) <==> GivenRate(args, k, nss, m)
    {
      SlotSaysWhatWasGiven(args, k, nss, m);
    }
  }

  /** Some argument given under `k` names this MCS for this number of streams. */
  ghost predicate GivenRate(args: seq<Arg>, k: Key, nss: nat, m: nat)
    requires k.Mcs?
  {
    exists r: Reading :: Given(args, k, r) && Names(r.chunk, k.mode, nss, m)
  }

  lemma SlotSaysWhatWasGiven(args: seq<Arg>, k: Key, nss: nat, m: nat)
    requires k.Mcs?
    ensures Has(Slot(Chunks(Filed(Look(args), k)), k.mode, nss), m) <==> GivenRate(args, k, nss, m)
  {
    hide Slot, Has, Names, Look, Given, Filed;
    var readings := Filed(Look(args), k);
    var chunks := Chunks(readings);
    SlotHas(chunks, k.mode, nss, m);
    if Named(chunks, k.mode, nss, m) {
      var i :| 0 <= i < |chunks| && Names(chunks[i], k.mode, nss, m);
      LookFiles(args, k, readings[i]);
      assert Given(args, k, readings[i]) && Names(readings[i].chunk, k.mode, nss, m);
    }
    forall r: Reading | Given(args, k, r) && Names(r.chunk, k.mode, nss, m) ensures Named(chunks, k.mode, nss, m) {
      LookFiles(args, k, r);
      var i :| 0 <= i < |readings| && readings[i] == r;
      assert Names(chunks[i], k.mode, nss, m);
    }
  }

  lemma {:induction false} HaveIsGiven(args: seq<Arg>, k: Keyword)
    ensures k in Look(args).have <==> Word(k) in args
  {
    if args != [] {
      hide File;
      var n := |args| - 1;
      HaveIsGiven(args[..n], k);
      assert args == args[..n] + [args[n]];
      HavePlus(Look(args[..n]), args[n]);
    }
  }

  lemma HavePlus(v: View, a: Arg)
    ensures Plus(v, a).have == v.have + if a.Word? then {a.key} else {}
  {
  }

  lemma LeafCarried(v: View, k: Keyword, attr: Id)
    requires k.Mcs? && k in v.have
    ensures Carries(RatesNest(v, attr), k.b, Leaf(IdOf(k), ValueOf(v, k)))
  {
    hide ValueOf, GuardParts, RateParts, RatesNest, Carries;
    LeafInParts(v, k);
    CarriedInBand(v, k.b, Leaf(IdOf(k), ValueOf(v, k)), attr);
  }

  /** A leaf is in the nest of a band exactly when it is among what is put for that band. */
  lemma CarriedInBand(v: View, b: Band, leaf: Attr<Value>, attr: Id)
    ensures Carries(RatesNest(v, attr), b, leaf)
      <==> AnyOf(v, b) && leaf in RateParts(v, b) + GuardParts(v, b)
  {
    hide RateParts, GuardParts, AnyOf;
    var nest := RatesNest(v, attr);
    var at := match b case B24 => 0 case B5 => |BandPart(v, B24)| case B6 => |BandPart(v, B24)| + |BandPart(v, B5)|;
    assert AnyOf(v, b) ==> nest.attrs[at] == BandPart(v, b)[0];
    forall i | 0 <= i < |nest.attrs|
      ensures InBand(nest.attrs[i], b, leaf) ==> AnyOf(v, b) && nest.attrs[i] == BandPart(v, b)[0]
    {
    }
    if AnyOf(v, b) && leaf in RateParts(v, b) + GuardParts(v, b) {
      assert InBand(nest.attrs[at], b, leaf);
    }
  }

  lemma LeafInParts(v: View, k: Keyword)
    requires k.Mcs? && k in v.have
    ensures Leaf(IdOf(k), ValueOf(v, k)) in RateParts(v, k.b) && AnyOf(v, k.b)
  {
    hide ValueOf;
    match k.mode
    case VHT =>
    case HE =>
    case EHT =>
  }

  // ----- One guard interval and one LTF for all bands

  predicate IsShared(k: Option<Key>, ltf: bool, eht: bool) {
    k.Some? && (if ltf then k.value.Ltf? else k.value.Gi?) && k.value.eht == eht
  }

  function SharedKey(ltf: bool, eht: bool, b: Band): Key {
    if ltf then Ltf(eht, b) else Gi(eht, b)
  }

  /** What is put for a reading, or by default. */
  function Code(ltf: bool, r: Option<Reading>): int {
    if !ltf then GiCode(r) else if r.Some? then LtfOf(r.value) / 2 else 0
  }

  /** Argument `i` is a text after such a keyword of any band. */
  predicate TextUnder(args: seq<Arg>, i: nat, ltf: bool, eht: bool)
    requires i < |args|
  {
    args[i].Text? && IsShared(LastKey(args[..i]), ltf, eht)
  }

  /** The last text after such a keyword of any band. */
  function LastText(args: seq<Arg>, ltf: bool, eht: bool): Option<Reading> {
    if args == [] then None
    else if TextUnder(args, |args| - 1, ltf, eht) then Some(args[|args| - 1].reading)
    else LastText(args[..|args| - 1], ltf, eht)
  }

  /** The last text after the keyword of band `b`. */
  function OwnText(args: seq<Arg>, ltf: bool, eht: bool, b: Band): Option<Reading> {
    if args == [] then None
    else
      var n := |args| - 1;
      if args[n].Text? && LastKey(args[..n]) == Some(SharedKey(ltf, eht, b)) then Some(args[n].reading)
      else OwnText(args[..n], ltf, eht, b)
  }

  lemma {:induction false} LookShares(args: seq<Arg>, eht: bool)
    ensures Look(args).current == LastKey(args)
    ensures (if eht then Look(args).ehtGi else Look(args).heGi) == LastText(args, false, eht)
    ensures (if eht then Look(args).ehtLtf else Look(args).heLtf) == Code(true, LastText(args, true, eht))
  {
    if args != [] {
      LookShares(args[..|args| - 1], eht);
    }
  }

  lemma PartShares(args: seq<Arg>, ltf: bool, eht: bool, b: Band)
    ensures var k := SharedKey(ltf, eht, b);
            k in Look(args).have ==> ValueOf(Look(args), k) == Byte(Code(ltf, LastText(args, ltf, eht)))
  {
    hide Look, LastText;
    LookShares(args, eht);
  }

  /** Of all that is put for a band, only the key's own part has its attribute type. */
  lemma SharedLeaf(v: View, ltf: bool, eht: bool, b: Band, x: Value)
    ensures var k := SharedKey(ltf, eht, b);
            AnyOf(v, b) && Leaf(IdOf(k), x) in RateParts(v, b) + GuardParts(v, b)
            <==> k in v.have && x == ValueOf(v, k)
  {
    hide ValueOf, IdOf, SharedKey, AnyOf, RateParts, GuardParts;
    NoRateLeaf(v, ltf, eht, b, x);
    GuardLeaf(v, ltf, eht, b, x);
    SharedIsAny(v, ltf, eht, b);
  }

  lemma LeafInPart(v: View, k: Key, leaf: Attr<Value>)
    ensures leaf in Part(v, k) <==> k in v.have && leaf == Leaf(IdOf(k), ValueOf(v, k))
  {
    hide ValueOf, IdOf;
  }

  lemma NoRateLeaf(v: View, ltf: bool, eht: bool, b: Band, x: Value)
    ensures Leaf(IdOf(SharedKey(ltf, eht, b)), x) !in RateParts(v, b)
  {
    hide ValueOf, Part;
    var leaf := Leaf(IdOf(SharedKey(ltf, eht, b)), x);
    LeafInPart(v, Legacy(b), leaf);
    LeafInPart(v, Ht(b), leaf);
    LeafInPart(v, Mcs(VHT, b), leaf);
    LeafInPart(v, Mcs(HE, b), leaf);
    LeafInPart(v, Mcs(EHT, b), leaf);
  }

  lemma GuardLeaf(v: View, ltf: bool, eht: bool, b: Band, x: Value)
    ensures var k := SharedKey(ltf, eht, b);
            Leaf(IdOf(k), x) in GuardParts(v, b) <==> k in v.have && x == ValueOf(v, k)
  {
    hide ValueOf, Part;
    var leaf := Leaf(IdOf(SharedKey(ltf, eht, b)), x);
    LeafInPart(v, Sgi(b), leaf);
    LeafInPart(v, Lgi(b), leaf);
    LeafInPart(v, Gi(false, b), leaf);
    LeafInPart(v, Ltf(false, b), leaf);
    LeafInPart(v, Gi(true, b), leaf);
    LeafInPart(v, Ltf(true, b), leaf);
  }

  lemma SharedIsAny(v: View, ltf: bool, eht: bool, b: Band)
    ensures SharedKey(ltf, eht, b) in v.have ==> AnyOf(v, b)
  {
  }

  /**
   What is given last for any band is put into the nest of every band that has the keyword: of this
   type the message holds that for the band, and nothing else.
   */
  lemma SharedByAllBands(args: seq<Arg>, k: Keyword, attr: Id)
    requires (k.Gi? || k.Ltf?) && args != [] && args[0].Word? && SetBitratesOf(args, attr).Puts?
    ensures forall x ::
              (Carries(SetBitratesOf(args, attr).nest, k.b, Leaf(IdOf(k), x))
               <==> Word(k) in args && x == Byte(Code(k.Ltf?, LastText(args, k.Ltf?, k.eht))))
  {
    hide SetBitratesOf, Look, LoopFine, RatesNest, Carries, Code, LastText, ValueOf, AllMcsFine, ChoicesFine;
    TakenWhole(args, attr);
    HaveIsGiven(args, k);
    PartShares(args, k.Ltf?, k.eht, k.b);
    var v := Look(args);
    forall x ensures Carries(RatesNest(v, attr), k.b, Leaf(IdOf(k), x)) <==> k in v.have && x == ValueOf(v, k) {
      CarriedInBand(v, k.b, Leaf(IdOf(k), x), attr);
      SharedLeaf(v, k.Ltf?, k.eht, k.b, x);
    }
  }

  /**
   The last text of all was given for another band than `b`, and differs from what was given last
   for `b`, or from the default if nothing was.
   */
  predicate Overridden(args: seq<Arg>, ltf: bool, eht: bool, b: Band) {
    exists i | 0 <= i < |args| :: Overrides(args, i, ltf, eht, b)
  }

  predicate Overrides(args: seq<Arg>, i: nat, ltf: bool, eht: bool, b: Band)
    requires i < |args|
  {
    && TextUnder(args, i, ltf, eht) && LastKey(args[..i]) != Some(SharedKey(ltf, eht, b))
    && (forall j | i < j < |args| :: !TextUnder(args, j, ltf, eht))
    && Code(ltf, Some(args[i].reading)) != Code(ltf, OwnText(args, ltf, eht, b))
  }

  lemma {:induction false} SharedIsOwn(args: seq<Arg>, ltf: bool, eht: bool, b: Band)
    ensures Code(ltf, LastText(args, ltf, eht)) == Code(ltf, OwnText(args, ltf, eht, b))
          <==> !Overridden(args, ltf, eht, b)
  {
    if args != [] {
      hide Code, LastKey, Overridden, TextUnder, IsShared;
      var n := |args| - 1;
      if TextUnder(args, n, ltf, eht) {
        LastTextDecides(args, ltf, eht, b);
        UnderKey(args, n, ltf, eht, b);
      } else {
        SharedIsOwn(args[..n], ltf, eht, b);
        OthersDecide(args, ltf, eht, b);
        UnderKey(args, n, ltf, eht, b);
      }
    } else {
      NothingOverridden(ltf, eht, b);
    }
  }

  lemma NothingOverridden(ltf: bool, eht: bool, b: Band)
    ensures !Overridden([], ltf, eht, b)
  {
  }

  lemma UnderKey(args: seq<Arg>, i: nat, ltf: bool, eht: bool, b: Band)
    requires i < |args|
    ensures args[i].Text? && LastKey(args[..i]) == Some(SharedKey(ltf, eht, b)) ==> TextUnder(args, i, ltf, eht)
  {
  }

  lemma LastTextDecides(args: seq<Arg>, ltf: bool, eht: bool, b: Band)
    requires args != [] && TextUnder(args, |args| - 1, ltf, eht)
    ensures var n := |args| - 1;
            Overridden(args, ltf, eht, b) <==>
              && LastKey(args[..n]) != Some(SharedKey(ltf, eht, b))
              && Code(ltf, Some(args[n].reading)) != Code(ltf, OwnText(args, ltf, eht, b))
  {
    hide Code, LastKey, TextUnder, OwnText;
    var n := |args| - 1;
    forall i | 0 <= i < n ensures !Overrides(args, i, ltf, eht, b) {
      assert TextUnder(args, n, ltf, eht);
    }
    assert Overridden(args, ltf, eht, b) <==> Overrides(args, n, ltf, eht, b);
  }

  lemma OthersDecide(args: seq<Arg>, ltf: bool, eht: bool, b: Band)
    requires args != [] && !TextUnder(args, |args| - 1, ltf, eht)
    ensures Overridden(args, ltf, eht, b) <==> Overridden(args[..|args| - 1], ltf, eht, b)
  {
    hide Code, LastKey, OwnText, IsShared;
    var n := |args| - 1;
    var before := args[..n];
    UnderKey(args, n, ltf, eht, b);
    OwnTextBefore(args, ltf, eht, b);
    forall i | 0 <= i < n
      ensures TextUnder(args, i, ltf, eht) == TextUnder(before, i, ltf, eht) && before[..i] == args[..i]
    {
      assert before[..i] == args[..i];
    }
    forall i | 0 <= i < n ensures Overrides(args, i, ltf, eht, b) <==> Overrides(before, i, ltf, eht, b) {
    }
  }

  lemma OwnTextBefore(args: seq<Arg>, ltf: bool, eht: bool, b: Band)
    requires args != [] && !TextUnder(args, |args| - 1, ltf, eht)
    ensures OwnText(args, ltf, eht, b) == OwnText(args[..|args| - 1], ltf, eht, b)
  {
  }

  /** In the message a band has what was given for it exactly when nothing given for another band overrides it. */
  lemma BandGetsItsOwnExactlyWhen(args: seq<Arg>, k: Keyword, attr: Id)
    requires (k.Gi? || k.Ltf?) && Word(k) in args && args[0].Word? && SetBitratesOf(args, attr).Puts?
    ensures var own := Byte(Code(k.Ltf?, OwnText(args, k.Ltf?, k.eht, k.b)));
            Carries(SetBitratesOf(args, attr).nest, k.b, Leaf(IdOf(k), own))
            <==> !Overridden(args, k.Ltf?, k.eht, k.b)
  {
    hide SetBitratesOf, Carries, Code, LastText, OwnText, Overridden;
    SharedByAllBands(args, k, attr);
    SharedIsOwn(args, k.Ltf?, k.eht, k.b);
  }

  // ----- Texts that are ignored

  /** Like the words of the TID configuration command: no rate, no number, no MCS numbers, no guard interval. */
  predicate Meaningless(r: Reading) {
    && r.rate.None? && r.number.None? && r.gi.None?
    && Read(r.chunk, VHT).None? && Read(r.chunk, HE).None? && Read(r.chunk, EHT).None?
  }

  /** Argument `i` comes after "sgi" or "lgi", or after a guard interval keyword whose last text reads as one. */
  predicate Ignored(args: seq<Arg>, i: nat)
    requires i < |args|
  {
    match LastKey(args[..i])
    case Some(Sgi(_)) => true
    case Some(Lgi(_)) => true
    case Some(Gi(eht, _)) =>
      var last := LastText(args, false, eht);
      last.Some? && last.value.gi.Some?
    case _ => false
  }

  function WithGi(v: View, eht: bool, r: Reading): View {
    if eht then v.(ehtGi := Some(r)) else v.(heGi := Some(r))
  }

  lemma WithGiPlus(v: View, eht: bool, r: Reading, a: Arg)
    ensures ArgFine(WithGi(v, eht, r), a) == ArgFine(v, a)
    ensures Plus(WithGi(v, eht, r), a) == Plus(v, a) || Plus(WithGi(v, eht, r), a) == WithGi(Plus(v, a), eht, r)
  {
  }

  predicate Silent(k: Key) { k.Sgi? || k.Lgi? || k.Gi? }

  /** The guard interval a silent keyword leaves in place of its text, if any. */
  predicate SameButGi(v: View, w: View, k: Key, r: Reading) {
    v == w || (k.Gi? && v == WithGi(w, k.eht, r))
  }

  lemma {:induction false} DropSilent(before: seq<Arg>, k: Key, r: Reading, after: seq<Arg>)
    requires LastKey(before) == Some(k) && Silent(k)
    ensures var all, without := before + [Text(r)] + after, before + after;
            (LoopFine(all) <==> LoopFine(without)) && SameButGi(Look(all), Look(without), k, r)
    decreases |after|
  {
    hide LoopFine, Look, ArgFine, Plus, WithGi;
    if after == [] {
      LookShares(before, false);
      LookSnoc(before, Text(r));
      SilentText(Look(before), k, r);
      assert before + [Text(r)] + after == before + [Text(r)] && before + after == before;
    } else {
      var n := |after| - 1;
      DropSilent(before, k, r, after[..n]);
      var all, without := before + [Text(r)] + after[..n], before + after[..n];
      LookSnoc(all, after[n]);
      LookSnoc(without, after[n]);
      if k.Gi? { WithGiPlus(Look(without), k.eht, r, after[n]); }
      assert before + [Text(r)] + after == all + [after[n]] && before + after == without + [after[n]];
    }
  }

  lemma SilentText(v: View, k: Key, r: Reading)
    requires v.current == Some(k) && Silent(k)
    ensures ArgFine(v, Text(r)) && SameButGi(Plus(v, Text(r)), v, k, r)
  {
  }

  lemma {:induction false} LoopFinePrefix(args: seq<Arg>, more: seq<Arg>)
    requires LoopFine(args + more)
    ensures LoopFine(args)
  {
    hide Look, ArgFine;
    var all := args + more;
    forall i | 0 <= i < |args| ensures ArgFine(Look(args[..i]), args[i]) {
      assert all[..i] == args[..i] && all[i] == args[i];
    }
  }

  /** After any other keyword a meaningless text is an error, at once or when the MCS numbers are read. */
  lemma MeaninglessFails(before: seq<Arg>, k: Key, r: Reading, after: seq<Arg>)
    requires LastKey(before) == Some(k) && !Silent(k) && Meaningless(r)
    ensures var all := before + [Text(r)] + after;
            LoopFine(all) ==> !AllMcsFine(Look(all))
  {
    hide LoopFine, Look, AllMcsFine, Meaningless;
    var all := before + [Text(r)] + after;
    if LoopFine(all) {
      LoopFinePrefix(before + [Text(r)], after);
      LookSnoc(before, Text(r));
      LookShares(before, false);
      MeaninglessIsFine(Look(before), k, r);
      assert all[..|before|] == before && FiledUnder(all, |before|, k, r);
      LookFiles(all, k, r);
      KeyIsGiven(before, k);
      assert Word(k) in all;
      HaveIsGiven(all, k);
      UnreadFails(Look(all), k, r);
    }
  }

  lemma MeaninglessIsFine(v: View, k: Key, r: Reading)
    requires v.current == Some(k) && !Silent(k) && Meaningless(r) && ArgFine(v, Text(r))
    ensures k.Mcs?
  {
  }

  lemma {:induction false} KeyIsGiven(args: seq<Arg>, k: Key)
    requires LastKey(args) == Some(k)
    ensures Exists(k) && Word(k) in args
  {
    if args[|args| - 1].Text? {
      KeyIsGiven(args[..|args| - 1], k);
    }
  }

  lemma UnreadFails(v: View, k: Keyword, r: Reading)
    requires k.Mcs? && k in v.have && r in Filed(v, k) && Meaningless(r)
    ensures !AllMcsFine(v)
  {
    hide McsFine, Filed, Read;
    var readings := Filed(v, k);
    var i :| 0 <= i < |readings| && readings[i] == r;
    assert Chunks(readings)[i] == r.chunk;
    assert Read(r.chunk, k.mode).None? by { match k.mode case VHT => case HE => case EHT => }
    assert !McsFine(v, k) by { McsFails(v, k, i); }
    EightKeys(k);
  }

  lemma McsFails(v: View, k: Key, i: nat)
    requires k.Mcs? && k in v.have && i < |Filed(v, k)| && Read(Filed(v, k)[i].chunk, k.mode).None?
    ensures !McsFine(v, k)
  {
    hide Read, Filed;
    assert Chunks(Filed(v, k))[i] == Filed(v, k)[i].chunk;
  }

  /**
   Exactly when a meaningless text is accepted: it is ignored, so that the call does what it would
   do without it, or else the call fails.
   */
  lemma IgnoredExactlyWhen(args: seq<Arg>, i: nat, attr: Id)
    requires i < |args| && args[0].Word? && args[i].Text? && Meaningless(args[i].reading)
    ensures var r, s := SetBitratesOf(args, attr), SetBitratesOf(args[..i] + args[i + 1..], attr);
            && (r.Puts? <==> s.Puts? && Ignored(args, i))
            && (r.Puts? ==> r.nest == s.nest && r.ret == if attr == TX_RATES then 0 else s.ret + 1)
  {
    hide SetBitratesOf, LoopFine, Look, AllMcsFine, ChoicesFine, RatesNest, Meaningless, LastText;
    var before, r, after := args[..i], args[i].reading, args[i + 1..];
    var without := before + after;
    assert args == before + [Text(r)] + after && without[0] == args[0];
    TakenWhole(args, attr);
    TakenWhole(without, attr);
    SomeKey(before);
    var k := LastKey(before).value;
    if !Silent(k) {
      MeaninglessFails(before, k, r, after);
    } else {
      DropSilent(before, k, r, after);
      if k.Gi? { GiDecides(args, i, without, k); }
    }
  }

  lemma TakenWhole(args: seq<Arg>, attr: Id)
    requires args != [] && args[0].Word?
    ensures SetBitratesOf(args, attr) ==
      if !LoopFine(args) then Fails(1)
      else Concluded(Look(args), if attr == TX_RATES then 0 else |args|, attr)
  {
    hide LoopFine, Look, Concluded;
  }

  /** With an unreadable text after a guard interval keyword, only another text later makes the choices fine. */
  lemma GiDecides(args: seq<Arg>, i: nat, without: seq<Arg>, k: Key)
    requires i < |args| && args[i].Text? && LastKey(args[..i]) == Some(k) && k.Gi?
    requires Meaningless(args[i].reading) && SameButGi(Look(args), Look(without), k, args[i].reading)
    ensures Ignored(args, i) ==> Look(args) == Look(without)
    ensures ChoicesFine(Look(args)) ==> Ignored(args, i)
  {
    hide Look, Meaningless, LastText;
    LookShares(args, k.eht);
    TextIsLast(args, i, k.eht);
    UnreadGi(Look(args), Look(without), k, args[i].reading);
  }

  lemma {:induction false} SomeKey(args: seq<Arg>)
    requires args != [] && args[0].Word?
    ensures LastKey(args).Some?
  {
    if args[|args| - 1].Text? {
      SomeKey(args[..|args| - 1]);
    }
  }

  /** Where there is a text under such a keyword, there is a last one. */
  lemma {:induction false} TextIsLast(args: seq<Arg>, i: nat, eht: bool)
    requires i < |args| && TextUnder(args, i, false, eht)
    ensures LastText(args, false, eht).Some?
    decreases |args|
  {
    var n := |args| - 1;
    if i < n {
      assert args[..n][..i] == args[..i];
      TextIsLast(args[..n], i, eht);
    }
  }

  lemma UnreadGi(v: View, w: View, k: Key, r: Reading)
    requires k.Gi? && Meaningless(r) && SameButGi(v, w, k, r)
    ensures var gi := if k.eht then v.ehtGi else v.heGi;
            gi.Some? && gi.value.gi.Some? ==> v == w
  {
  }

  /** A guard interval keyword takes all the texts after it, whatever they are, if the last reads as an interval. */
  lemma GiTakesTheRest(k: Keyword, texts: seq<Arg>, attr: Id)
    requires attr != TX_RATES && k.Gi? && texts != [] && forall i | 0 <= i < |texts| :: texts[i].Text?
    ensures var r, last := SetBitratesOf([Word(k)] + texts, attr), texts[|texts| - 1].reading;
            if last.gi.None? then r.Fails?
            else r == Puts(1 + |texts|, RatesNest(Plus(Plus(NOTHING, Word(k)), Text(last)), attr))
  {
    hide SetBitratesOf, RatesNest, LoopFine, Look;
    GiTexts(k, texts);
    assert ([Word(k)] + texts)[0] == Word(k);
    TakenWhole([Word(k)] + texts, attr);
  }

  lemma {:induction false} GiTexts(k: Keyword, texts: seq<Arg>)
    requires k.Gi? && forall i | 0 <= i < |texts| :: texts[i].Text?
    ensures LoopFine([Word(k)] + texts)
    ensures var v := Plus(NOTHING, Word(k));
            Look([Word(k)] + texts) == if texts == [] then v else Plus(v, texts[|texts| - 1])
  {
    hide LoopFine, Look;
    if texts == [] {
      NothingFine();
      LookSnoc([], Word(k));
      assert [] + [Word(k)] == [Word(k)] + texts;
    } else {
      var n := |texts| - 1;
      GiTexts(k, texts[..n]);
      LookSnoc([Word(k)] + texts[..n], texts[n]);
      assert [Word(k)] + texts == [Word(k)] + texts[..n] + [texts[n]];
    }
  }

  /** Two bands, two settings: the message puts the second for both. */
  lemma TwoBandsShare(ltf: bool, eht: bool, first: Reading, second: Reading)
    requires var k := SharedKey(ltf, eht, B24); TextFine(k, 0, first) && TextFine(k, 0, second)
    requires ltf || second.gi.Some?
    ensures var k24, k5 := SharedKey(ltf, eht, B24), SharedKey(ltf, eht, B5);
            var leaf := Leaf(IdOf(k5), Byte(Code(ltf, Some(second))));
            SetBitratesOf([Word(k24), Text(first), Word(k5), Text(second)], TX_RATES)
            == Puts(0, Nest(TX_RATES, [Nest(BAND_2GHZ, [leaf]), Nest(BAND_5GHZ, [leaf])]))
  {
    hide SetBitratesOf, Look, LoopFine, RatesNest, Plus, ArgFine, ValueOf, ChoicesFine, AllMcsFine;
    var k24, k5 := SharedKey(ltf, eht, B24), SharedKey(ltf, eht, B5);
    var a, b, c, d := Word(k24), Text(first), Word(k5), Text(second);
    NothingFine();
    LookSnoc([], a);
    LookSnoc([a], b);
    LookSnoc([a, b], c);
    LookSnoc([a, b, c], d);
    assert [] + [a] == [a] && [a] + [b] == [a, b] && [a, b] + [c] == [a, b, c] && [a, b, c] + [d] == [a, b, c, d];
    FourSteps(ltf, eht, first, second);
    TwoBands(Look([a, b, c, d]), ltf, eht);
    TakenWhole([a, b, c, d], TX_RATES);
  }

  lemma FourSteps(ltf: bool, eht: bool, first: Reading, second: Reading)
    requires var k := SharedKey(ltf, eht, B24); TextFine(k, 0, first) && TextFine(k, 0, second)
    requires ltf || second.gi.Some?
    ensures var k24, k5 := SharedKey(ltf, eht, B24), SharedKey(ltf, eht, B5);
            var v1 := Plus(NOTHING, Word(k24));
            var v2 := Plus(v1, Text(first));
            var v3 := Plus(v2, Word(k5));
            var v4 := Plus(v3, Text(second));
            && ArgFine(NOTHING, Word(k24)) && ArgFine(v1, Text(first))
            && ArgFine(v2, Word(k5)) && ArgFine(v3, Text(second))
            && v4.have == {k24, k5} && ChoicesFine(v4)
            && ValueOf(v4, k24) == ValueOf(v4, k5) == Byte(Code(ltf, Some(second)))
  {
  }

  lemma TwoBands(v: View, ltf: bool, eht: bool)
    requires v.have == {SharedKey(ltf, eht, B24), SharedKey(ltf, eht, B5)}
    requires ValueOf(v, SharedKey(ltf, eht, B24)) == ValueOf(v, SharedKey(ltf, eht, B5))
    ensures var k := SharedKey(ltf, eht, B5);
            var leaf := Leaf(IdOf(k), ValueOf(v, k));
            && AllMcsFine(v)
            && RatesNest(v, TX_RATES) == Nest(TX_RATES, [Nest(BAND_2GHZ, [leaf]), Nest(BAND_5GHZ, [leaf])])
  {
    hide ValueOf, BandPart, AllMcsFine;
    var leaf := Leaf(IdOf(SharedKey(ltf, eht, B5)), ValueOf(v, SharedKey(ltf, eht, B5)));
    OneBand(v, ltf, eht, B24);
    OneBand(v, ltf, eht, B5);
    NothingElse(v, ltf, eht);
    assert [Nest(BAND_2GHZ, [leaf])] + [Nest(BAND_5GHZ, [leaf])] + []
        == [Nest(BAND_2GHZ, [leaf]), Nest(BAND_5GHZ, [leaf])];
  }

  lemma NothingElse(v: View, ltf: bool, eht: bool)
    requires v.have == {SharedKey(ltf, eht, B24), SharedKey(ltf, eht, B5)}
    ensures AllMcsFine(v) && BandPart(v, B6) == []
  {
    hide AllRead, RateParts, GuardParts;
  }

  lemma OneBand(v: View, ltf: bool, eht: bool, b: Band)
    requires b != B6 && v.have == {SharedKey(ltf, eht, B24), SharedKey(ltf, eht, B5)}
    ensures var k := SharedKey(ltf, eht, b);
            BandPart(v, b) == [Nest(BandId(b), [Leaf(IdOf(k), ValueOf(v, k))])]
  {
    hide ValueOf;
    var k := SharedKey(ltf, eht, b);
    assert RateParts(v, b) == [];
    assert GuardParts(v, b) == [Leaf(IdOf(k), ValueOf(v, k))];
    assert [] + [Leaf(IdOf(k), ValueOf(v, k))] == [Leaf(IdOf(k), ValueOf(v, k))];
  }

  // ----- set_bitrates

  method SetBitrates(msg: Message<Value>, args: seq<Arg>, attr: Id) returns (ret: int)
    modifies msg
    ensures msg.outer == old(msg.outer)
    ensures match SetBitratesOf(args, attr)
            case Fails(err) => ret == err && msg.attrs == old(msg.attrs)
            case Puts(n, nest) => ret == n && msg.attrs == old(msg.attrs) + [nest]
  {
    hide Look, LoopFine, Concluded;
    NothingFine();
    var v := NOTHING;
    var i := 0;
    while i < |args|
      invariant 0 <= i <= |args| && v == Look(args[..i]) && LoopFine(args[..i])
      invariant i > 0 ==> v.current.Some? && args[0].Word?
      invariant forall k | k in v.have :: Exists(k)
      invariant msg.outer == old(msg.outer) && msg.attrs == old(msg.attrs)
    {
      assert args[..i + 1] == args[..i] + [args[i]];
      LookSnoc(args[..i], args[i]);
      if args[i].Word? {
        var k := args[i].key;
        if Once(k) && k in v.have {
          FailsAt(args, i);
          return 1;
        }
        v := v.(current := Some(k), have := v.have + {k});
      } else if v.current.None? {
        if attr != TX_RATES {
          break;
        }
        return 1;
      } else {
        var fine;
        fine, v := FileText(v, args[i].reading);
        if !fine {
          FailsAt(args, i);
          return 1;
        }
      }
      i := i + 1;
    }
    assert args[..i] == Taken(args);
    ret := if attr != TX_RATES then i else 0;
    ret := Conclude(msg, v, ret, attr);
  }

  lemma FailsAt(args: seq<Arg>, i: nat)
    requires i < |args| && !LoopFine(args[..i + 1])
    ensures !LoopFine(args)
  {
    hide Look, ArgFine;
    var start := args[..i + 1];
    if LoopFine(args) {
      forall j | 0 <= j < |start| ensures ArgFine(Look(start[..j]), start[j]) {
        assert start[..j] == args[..j] && start[j] == args[j];
      }
    }
  }

  /** The switch on parser_state. */
  method FileText(v: View, r: Reading) returns (fine: bool, after: View)
    requires v.current.Some?
    ensures fine == ArgFine(v, Text(r))
    ensures fine ==> after == Plus(v, Text(r))
  {
    var k := v.current.value;
    after := v;
    match k {
      case Legacy(_) =>
        if r.rate.None? {
          return false, v;
        }
        after := v.(lists := v.lists[k := Filed(v, k) + [r]]);
      case Ht(_) =>
        if r.number.None? {
          return false, v;
        }
        if r.number.value < 0 || r.number.value > 255 {
          return false, v;
        }
        after := v.(lists := v.lists[k := Filed(v, k) + [r]]);
      case Mcs(_, _) =>
        if |Filed(v, k)| >= MCS_ARGS_MAX {
          return false, v;
        }
        after := v.(lists := v.lists[k := Filed(v, k) + [r]]);
      case Sgi(_) =>
      case Lgi(_) =>
      case Gi(eht, _) =>
        after := if eht then v.(ehtGi := Some(r)) else v.(heGi := Some(r));
      case Ltf(eht, _) =>
        if r.number.None? {
          return false, v;
        }
        var ltf := Int32(r.number.value);
        if eht {
          if ltf < 1 || ltf > 8 {
            return false, v;
          }
          if ltf != 1 && ltf % 2 != 0 {
            return false, v;
          }
          after := v.(ehtLtf := ltf / 2);
        } else {
          if ltf < 0 || ltf > 4 {
            return false, v;
          }
          after := v.(heLtf := ltf / 2);
        }
    }
    fine := true;
  }

  /** The txrate structures: a mask list for every MCS keyword given. */
  predicate Filled(v: View, txrates: map<Key, seq<nat>>, k: Key)
    requires k.Mcs?
  {
    k in v.have ==> k in txrates && txrates[k] == Masks(Chunks(Filed(v, k)), k.mode)
  }

  method SetupOne(v: View, k: Key, txrates: map<Key, seq<nat>>) returns (ok: bool, after: map<Key, seq<nat>>)
    requires k.Mcs?
    ensures ok == McsFine(v, k)
    ensures ok ==> Filled(v, after, k)
    ensures forall other | other in txrates && other != k :: other in after && after[other] == txrates[other]
  {
    hide Masks, AllRead;
    after := txrates;
    ok := true;
    if k in v.have {
      var txrate := new nat[MaxNss(k.mode)];
      ok := Setup(k.mode, txrate, Chunks(Filed(v, k)));
      after := txrates[k := txrate[..]];
    }
  }

  ghost predicate AllFilled(v: View, txrates: map<Key, seq<nat>>) {
    forall k: Key | k.Mcs? && Exists(k) :: Filled(v, txrates, k)
  }

  method SetupAll(v: View) returns (ok: bool, txrates: map<Key, seq<nat>>)
    ensures ok == AllMcsFine(v)
    ensures ok ==> AllFilled(v, txrates)
  {
    hide McsFine, Masks, Filed;
    ok, txrates := SetupOne(v, Mcs(VHT, B24), map[]);
    if !ok { return; }
    ok, txrates := SetupOne(v, Mcs(VHT, B5), txrates);
    if !ok { return; }
    ok, txrates := SetupOne(v, Mcs(HE, B24), txrates);
    if !ok { return; }
    ok, txrates := SetupOne(v, Mcs(HE, B5), txrates);
    if !ok { return; }
    ok, txrates := SetupOne(v, Mcs(HE, B6), txrates);
    if !ok { return; }
    ok, txrates := SetupOne(v, Mcs(EHT, B24), txrates);
    if !ok { return; }
    ok, txrates := SetupOne(v, Mcs(EHT, B5), txrates);
    if !ok { return; }
    ok, txrates := SetupOne(v, Mcs(EHT, B6), txrates);
    if ok {
      forall k: Key | k.Mcs? && Exists(k) ensures Filled(v, txrates, k) { EightKeys(k); }
    }
  }

  lemma EightKeys(k: Key)
    requires k.Mcs? && Exists(k)
    ensures k in {Mcs(VHT, B24), Mcs(VHT, B5), Mcs(HE, B24), Mcs(HE, B5), Mcs(HE, B6), Mcs(EHT, B24), Mcs(EHT, B5),
          Mcs(EHT, B6)}
  {
    match (k.mode, k.b)
    case (VHT, B24) =>
    case (VHT, B5) =>
    case (VHT, B6) =>
    case (HE, B24) =>
    case (HE, B5) =>
    case (HE, B6) =>
    case (EHT, B24) =>
    case (EHT, B5) =>
    case (EHT, B6) =>
  }

  method PutPart(msg: Message<Value>, v: View, txrates: map<Key, seq<nat>>, k: Key)
    requires k.Mcs? ==> Filled(v, txrates, k)
    modifies msg
    ensures msg.outer == old(msg.outer) && msg.attrs == old(msg.attrs) + Part(v, k)
  {
    hide Masks;
    if k !in v.have {
      assert msg.attrs + [] == msg.attrs;
      return;
    }
    match k {
      case Legacy(_) => msg.Put(TXRATE_LEGACY, Bytes(RateBytes(Filed(v, k))));
      case Ht(_) => msg.Put(TXRATE_HT, Bytes(NumberBytes(Filed(v, k))));
      case Mcs(mode, _) => msg.Put(IdOf(k), McsMasks(txrates[k]));
      case Sgi(_) => msg.Put(TXRATE_GI, Byte(1));
      case Lgi(_) => msg.Put(TXRATE_GI, Byte(2));
      case Gi(eht, _) => msg.Put(IdOf(k), Byte(GiCode(if eht then v.ehtGi else v.heGi)));
      case Ltf(eht, _) => msg.Put(IdOf(k), Byte(if eht then v.ehtLtf else v.heLtf));
    }
  }

  method PutRates(msg: Message<Value>, v: View, txrates: map<Key, seq<nat>>, b: Band)
    requires AllFilled(v, txrates) && forall k | k in v.have :: Exists(k)
    requires msg.attrs == []
    modifies msg
    ensures msg.outer == old(msg.outer) && msg.attrs == RateParts(v, b)
  {
    hide Part, Masks, Filed;
    PutPart(msg, v, txrates, Legacy(b));
    PutPart(msg, v, txrates, Ht(b));
    PutPart(msg, v, txrates, Mcs(VHT, b));
    PutPart(msg, v, txrates, Mcs(HE, b));
    PutPart(msg, v, txrates, Mcs(EHT, b));
  }

  method PutGuards(msg: Message<Value>, v: View, txrates: map<Key, seq<nat>>, b: Band)
    modifies msg
    ensures msg.outer == old(msg.outer) && msg.attrs == old(msg.attrs) + GuardParts(v, b)
  {
    hide Part, Masks, Filed;
    PutPart(msg, v, txrates, Sgi(b));
    PutPart(msg, v, txrates, Lgi(b));
    PutPart(msg, v, txrates, Gi(false, b));
    PutPart(msg, v, txrates, Ltf(false, b));
    PutPart(msg, v, txrates, Gi(true, b));
    PutPart(msg, v, txrates, Ltf(true, b));
    SixParts(old(msg.attrs), Part(v, Sgi(b)), Part(v, Lgi(b)), Part(v, Gi(false, b)), Part(v, Ltf(false, b)),
      Part(v, Gi(true, b)), Part(v, Ltf(true, b)));
  }

  lemma SixParts(z: Attrs, a: Attrs, b: Attrs, c: Attrs, d: Attrs, e: Attrs, f: Attrs)
    ensures z + a + b + c + d + e + f == z + (a + b + c + d + e + f)
  {
  }

  method PutBand(msg: Message<Value>, v: View, txrates: map<Key, seq<nat>>, b: Band)
    requires AllFilled(v, txrates) && forall k | k in v.have :: Exists(k)
    modifies msg
    ensures msg.outer == old(msg.outer) && msg.attrs == old(msg.attrs) + BandPart(v, b)
  {
    hide RateParts, GuardParts, Filled;
    if AnyOf(v, b) {
      var band := msg.NestStart(BandId(b));
      PutRates(msg, v, txrates, b);
      PutGuards(msg, v, txrates, b);
      msg.NestEnd(band);
    } else {
      assert msg.attrs + [] == msg.attrs;
    }
  }

  /** The checks after the loop, and the message. */
  method Conclude(msg: Message<Value>, v: View, n: nat, attr: Id) returns (ret: int)
    requires forall k | k in v.have :: Exists(k)
    modifies msg
    ensures msg.outer == old(msg.outer)
    ensures match Concluded(v, n, attr)
            case Fails(err) => ret == err && msg.attrs == old(msg.attrs)
            case Puts(m, nest) => ret == m && msg.attrs == old(msg.attrs) + [nest]
  {
    hide BandPart, AllMcsFine, AllFilled;
    var ok, txrates := SetupAll(v);
    if !ok {
      return EINVAL;
    }
    if Sgi(B5) in v.have && Lgi(B5) in v.have {
      return 1;
    }
    if Sgi(B24) in v.have && Lgi(B24) in v.have {
      return 1;
    }
    if v.heGi.Some? && v.heGi.value.gi.None? {
      return 1;
    }
    if v.ehtGi.Some? && v.ehtGi.value.gi.None? {
      return 1;
    }
    var rates := msg.NestStart(attr);
    PutBand(msg, v, txrates, B24);
    PutBand(msg, v, txrates, B5);
    PutBand(msg, v, txrates, B6);
    assert msg.attrs == BandPart(v, B24) + BandPart(v, B5) + BandPart(v, B6);
    msg.NestEnd(rates);
    ret := n;
  }
}
