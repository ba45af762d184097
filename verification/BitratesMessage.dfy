/**
 What set_bitrates accepts and what its message says, read off the arguments: which calls succeed,
 and for every type of attribute in the nest of a band when it is there and what it holds.
 */
module BitratesMessage {
  import opened Bitrates
  import opened Netlink
  import opened Rates
  import opened Wrappers

  /** The texts after `k`, with no other keyword between, in order. */
  function GivenList(args: seq<Arg>, k: Key): seq<Reading> {
    if args == [] then []
    else
      var n := |args| - 1;
      GivenList(args[..n], k)
      + if args[n].Text? && LastKey(args[..n]) == Some(k) then [args[n].reading] else []
  }

  lemma FiledGrows(v: View, a: Arg, k: Key)
    requires Once(k)
    ensures Filed(Plus(v, a), k) == Filed(v, k) + if a.Text? && v.current == Some(k) then [a.reading] else []
  {
  }

  lemma {:induction false} FiledIsGiven(args: seq<Arg>, k: Key)
    requires Once(k)
    ensures Filed(Look(args), k) == GivenList(args, k)
  {
    if args == [] {
      NothingFiled(k);
    } else {
      hide Filed, Plus, Once;
      var n := |args| - 1;
      FiledIsGiven(args[..n], k);
      FiledGrows(Look(args[..n]), args[n], k);
      CurrentIsLast(args[..n]);
    }
  }

  lemma NothingFiled(k: Key)
    ensures Filed(Look([]), k) == []
  {
  }

  lemma {:induction false} CurrentIsLast(args: seq<Arg>)
    ensures Look(args).current == LastKey(args)
  {
    if args != [] {
      CurrentIsLast(args[..|args| - 1]);
    }
  }

  // ----- Which calls succeed

  /** What a text after `k` must read as: numbers in range, and half of an LTF a power of two. */
  predicate TextFits(k: Key, r: Reading) {
    match k
    case Legacy(_) => r.rate.Some?
    case Ht(_) => r.number.Some? && 0 <= r.number.value <= 255
    case Ltf(eht, _) =>
      r.number.Some? && var n := Int32(r.number.value); if eht then n in {1, 2, 4, 6, 8} else n in {0, 1, 2, 3, 4}
    case _ => true
  }

  /** Argument `i` fits the arguments before it. */
  predicate Fits(args: seq<Arg>, i: nat)
    requires i < |args|
  {
    match args[i]
    case Word(k) => k.Sgi? || k.Lgi? || k.Gi? || k.Ltf? || Word(k) !in args[..i]
    case Text(r) =>
      match LastKey(args[..i])
      case None => false
      case Some(k) => TextFits(k, r) && (k.Mcs? ==> |GivenList(args[..i], k)| < 100)
  }

  predicate AllFit(args: seq<Arg>) {
    forall i | 0 <= i < |args| :: Fits(args, i)
  }

  /** Every text under an MCS keyword names rates of its mode. */
  predicate RatesRead(args: seq<Arg>) {
    forall i | 0 <= i < |args| :: RateRead(args, i)
  }

  predicate RateRead(args: seq<Arg>, i: nat)
    requires i < |args|
  {
    args[i].Text? ==> match LastKey(args[..i])
      case Some(Mcs(mode, _)) => Read(args[i].reading.chunk, mode).Some?
      case _ => true
  }

  /** No band has a short and a long guard interval, and the last interval given for HE and for EHT reads as one. */
  ghost predicate ChoicesMade(args: seq<Arg>) {
    && (forall b: Band | b != B6 :: !(Word(Sgi(b)) in args && Word(Lgi(b)) in args))
    && IntervalRead(LastText(args, false, false)) && IntervalRead(LastText(args, false, true))
  }

  predicate IntervalRead(r: Option<Reading>) {
    r == None || r.value.gi != None
  }

  lemma FitsIsFine(args: seq<Arg>, i: nat)
    requires i < |args|
    ensures Fits(args, i) <==> ArgFine(Look(args[..i]), args[i])
  {
    hide Look, LastKey, GivenList, Filed, TextFine, TextFits;
    var before := args[..i];
    CurrentIsLast(before);
    match args[i]
    case Word(k) => HaveIsGiven(before, k);
    case Text(r) =>
      if LastKey(before).Some? {
        var k := LastKey(before).value;
        if k.Mcs? { FiledIsGiven(before, k); }
        TextFitsIsFine(k, |Filed(Look(before), k)|, r);
      }
  }

  lemma TextFitsIsFine(k: Key, count: nat, r: Reading)
    ensures TextFine(k, count, r) <==> TextFits(k, r) && (k.Mcs? ==> count < 100)
  {
  }

  lemma AllFitIsFine(args: seq<Arg>)
    ensures AllFit(args) <==> LoopFine(args)
  {
    hide Fits, ArgFine, Look;
    forall i | 0 <= i < |args| ensures Fits(args, i) <==> ArgFine(Look(args[..i]), args[i]) {
      FitsIsFine(args, i);
    }
  }

  /** A keyword for which everything given reads. */
  predicate KeyReads(args: seq<Arg>, k: Key)
    requires k.Mcs?
  {
    forall i | 0 <= i < |args| :: UnderReads(args, i, k)
  }

  predicate UnderReads(args: seq<Arg>, i: nat, k: Key)
    requires i < |args| && k.Mcs?
  {
    args[i].Text? && LastKey(args[..i]) == Some(k) ==> Read(args[i].reading.chunk, k.mode).Some?
  }

  lemma {:induction false} GivenReads(args: seq<Arg>, k: Key)
    requires k.Mcs?
    ensures AllRead(Chunks(GivenList(args, k)), k.mode) <==> KeyReads(args, k)
  {
    if args != [] {
      hide LastKey, AllRead, Chunks, KeyReads;
      var n := |args| - 1;
      GivenReads(args[..n], k);
      KeyReadsLast(args, k);
      if args[n].Text? && LastKey(args[..n]) == Some(k) {
        AllReadSnoc(GivenList(args[..n], k), args[n].reading, k.mode);
      } else {
        assert GivenList(args, k) == GivenList(args[..n], k);
      }
    }
  }

  lemma KeyReadsLast(args: seq<Arg>, k: Key)
    requires args != [] && k.Mcs?
    ensures var n := |args| - 1;
            KeyReads(args, k) <==> KeyReads(args[..n], k) && UnderReads(args, n, k)
  {
    hide UnderReads;
    var n := |args| - 1;
    forall i | 0 <= i < n ensures UnderReads(args, i, k) <==> UnderReads(args[..n], i, k) {
      UnderReadsBefore(args, i, k);
    }
    if KeyReads(args, k) {
      forall i | 0 <= i < n ensures UnderReads(args[..n], i, k) {
        assert UnderReads(args, i, k);
      }
    }
  }

  lemma UnderReadsBefore(args: seq<Arg>, i: nat, k: Key)
    requires i < |args| - 1 && k.Mcs?
    ensures UnderReads(args, i, k) <==> UnderReads(args[..|args| - 1], i, k)
  {
    hide LastKey, Read;
    assert args[..|args| - 1][..i] == args[..i];
  }

  lemma AllReadSnoc(readings: seq<Reading>, r: Reading, mode: Mode)
    ensures AllRead(Chunks(readings + [r]), mode) <==> AllRead(Chunks(readings), mode) && Read(r.chunk, mode).Some?
  {
    hide Read;
    var c, d := Chunks(readings), Chunks(readings + [r]);
    assert forall i | 0 <= i < |c| :: d[i] == c[i];
    assert d[|c|] == r.chunk;
  }

  lemma McsFineIsRead(args: seq<Arg>, k: Keyword)
    requires k.Mcs?
    ensures McsFine(Look(args), k) <==> KeyReads(args, k)
  {
    hide Look, AllRead, Filed;
    HaveIsGiven(args, k);
    FiledIsGiven(args, k);
    GivenReads(args, k);
    if Word(k) !in args {
      NeverUnder(args, k);
    }
  }

  lemma {:induction false} LastKeyIsGiven(args: seq<Arg>)
    ensures LastKey(args).Some? ==> Exists(LastKey(args).value) && Word(LastKey(args).value) in args
  {
    if args != [] {
      LastKeyIsGiven(args[..|args| - 1]);
    }
  }

  lemma NeverUnder(args: seq<Arg>, k: Keyword)
    requires k.Mcs? && Word(k) !in args
    ensures KeyReads(args, k)
  {
    hide LastKey, Read;
    forall i | 0 <= i < |args| ensures UnderReads(args, i, k) {
      LastKeyIsGiven(args[..i]);
    }
  }

  lemma AllMcsIsRead(args: seq<Arg>)
    ensures AllMcsFine(Look(args)) <==> RatesRead(args)
  {
    hide McsFine, KeyReads, Look, LastKey, Read;
    McsFineIsRead(args, Mcs(VHT, B24));
    McsFineIsRead(args, Mcs(VHT, B5));
    McsFineIsRead(args, Mcs(HE, B24));
    McsFineIsRead(args, Mcs(HE, B5));
    McsFineIsRead(args, Mcs(HE, B6));
    McsFineIsRead(args, Mcs(EHT, B24));
    McsFineIsRead(args, Mcs(EHT, B5));
    McsFineIsRead(args, Mcs(EHT, B6));
    EightRead(args);
  }

  lemma EightRead(args: seq<Arg>)
    ensures RatesRead(args) <==>
      && KeyReads(args, Mcs(VHT, B24)) && KeyReads(args, Mcs(VHT, B5))
      && KeyReads(args, Mcs(HE, B24)) && KeyReads(args, Mcs(HE, B5)) && KeyReads(args, Mcs(HE, B6))
      && KeyReads(args, Mcs(EHT, B24)) && KeyReads(args, Mcs(EHT, B5)) && KeyReads(args, Mcs(EHT, B6))
  {
    hide LastKey, Read;
    forall k: Key | k.Mcs? && Exists(k) && RatesRead(args) ensures KeyReads(args, k) {
      forall i | 0 <= i < |args| ensures UnderReads(args, i, k) {
        assert RateRead(args, i);
      }
    }
    if forall k: Key | k.Mcs? && Exists(k) :: KeyReads(args, k) {
      forall i | 0 <= i < |args| ensures RateRead(args, i) {
        LastKeyIsGiven(args[..i]);
        var k := LastKey(args[..i]);
        if k.Some? && k.value.Mcs? {
          assert UnderReads(args, i, k.value);
        }
      }
    }
    forall k: Key | k.Mcs? && Exists(k)
      ensures k in {Mcs(VHT, B24), Mcs(VHT, B5), Mcs(HE, B24), Mcs(HE, B5), Mcs(HE, B6), Mcs(EHT, B24), Mcs(EHT, B5),
              Mcs(EHT, B6)}
    {
      EightKeys(k);
    }
  }

  lemma ChoicesAreMade(args: seq<Arg>)
    ensures ChoicesFine(Look(args)) <==> ChoicesMade(args)
  {
    hide Look, LastText;
    LookShares(args, false);
    LookShares(args, true);
    HaveIsGiven(args, Sgi(B24));
    HaveIsGiven(args, Lgi(B24));
    HaveIsGiven(args, Sgi(B5));
    HaveIsGiven(args, Lgi(B5));
  }

  /**
   A call whose first argument is a keyword succeeds exactly when no rate keyword is repeated, every text
   fits its keyword, all MCS numbers can be read, no band has both "sgi" and "lgi", and the last guard
   interval reads as one. Unreadable MCS numbers have an error code of their own.
   */
  lemma SucceedsExactlyWhen(args: seq<Arg>, attr: Id)
    requires args != [] && args[0].Word?
    ensures SetBitratesOf(args, attr).Puts? <==> AllFit(args) && RatesRead(args) && ChoicesMade(args)
    ensures SetBitratesOf(args, attr) == Fails(-22) <==> AllFit(args) && !RatesRead(args)
    ensures var r := SetBitratesOf(args, attr);
            if r.Puts? then r.ret == (if attr == TX_RATES then 0 else |args|) else r.err == 1 || r.err == -22
  {
    hide Look, LoopFine, AllMcsFine, ChoicesFine, AllFit, RatesRead, ChoicesMade, RatesNest;
    AllFitIsFine(args);
    AllMcsIsRead(args);
    ChoicesAreMade(args);
  }

  /** Without a keyword first: an error for the command itself, and nothing taken and put for a TID configuration. */
  lemma WithoutKeyword(args: seq<Arg>, attr: Id)
    requires args == [] || args[0].Text?
    ensures SetBitratesOf(args, attr)
         == if args != [] && attr == TX_RATES then Fails(1) else Outcome.Puts(0, Nest(attr, []))
  {
    hide Masks;
    assert LoopFine([]) && Look([]) == NOTHING;
    assert RatesNest(NOTHING, attr) == Nest(attr, []);
  }

  // ----- What the message holds

  /** All there is in the nest of a band is put under one of its keywords. */
  lemma PartsHave(v: View, b: Band, leaf: Attr<Value>)
    ensures leaf in RateParts(v, b) + GuardParts(v, b) <==>
      || leaf in Part(v, Legacy(b)) || leaf in Part(v, Ht(b))
      || leaf in Part(v, Mcs(VHT, b)) || leaf in Part(v, Mcs(HE, b)) || leaf in Part(v, Mcs(EHT, b))
      || leaf in Part(v, Sgi(b)) || leaf in Part(v, Lgi(b)) || leaf in Part(v, Gi(false, b))
      || leaf in Part(v, Ltf(false, b)) || leaf in Part(v, Gi(true, b)) || leaf in Part(v, Ltf(true, b))
  {
    hide Part;
  }

  /** The keywords that put attributes of this type for band `b`. */
  predicate PutBy(k: Key, b: Band, id: Id) {
    k.b == b && match k
                case Legacy(_) => id == TXRATE_LEGACY
                case Ht(_) => id == TXRATE_HT
                case Mcs(VHT, _) => id == TXRATE_VHT
                case Mcs(HE, _) => id == TXRATE_HE
                case Mcs(EHT, _) => id == TXRATE_EHT
                case Sgi(_) | Lgi(_) => id == TXRATE_GI
                case Gi(eht, _) => id == if eht then TXRATE_EHT_GI else TXRATE_HE_GI
                case Ltf(eht, _) => id == if eht then TXRATE_EHT_LTF else TXRATE_HE_LTF
  }

  lemma PutByIsId(k: Key, b: Band, id: Id)
    ensures PutBy(k, b, id) <==> k.b == b && IdOf(k) == id
  {
  }

  lemma InPart(v: View, k: Key, b: Band, id: Id, x: Value)
    requires k.b == b
    ensures Leaf(id, x) in Part(v, k) <==> k in v.have && PutBy(k, b, id) && x == ValueOf(v, k)
  {
    hide PutBy, Part, ValueOf, IdOf;
    PutByIsId(k, b, id);
    LeafInPart(v, k, Leaf(id, x));
  }

  lemma InParts(v: View, b: Band, id: Id, x: Value)
    ensures Leaf(id, x) in RateParts(v, b) + GuardParts(v, b) <==>
      exists k | k in v.have :: PutBy(k, b, id) && x == ValueOf(v, k)
  {
    hide Part, ValueOf, RateParts, GuardParts, PutBy;
    PartsHave(v, b, Leaf(id, x));
    InPart(v, Legacy(b), b, id, x);
    InPart(v, Ht(b), b, id, x);
    InPart(v, Mcs(VHT, b), b, id, x);
    InPart(v, Mcs(HE, b), b, id, x);
    InPart(v, Mcs(EHT, b), b, id, x);
    InPart(v, Sgi(b), b, id, x);
    InPart(v, Lgi(b), b, id, x);
    InPart(v, Gi(false, b), b, id, x);
    InPart(v, Ltf(false, b), b, id, x);
    InPart(v, Gi(true, b), b, id, x);
    InPart(v, Ltf(true, b), b, id, x);
    forall k | PutBy(k, b, id) ensures k in {Legacy(b), Ht(b), Mcs(VHT, b), Mcs(HE, b), Mcs(EHT, b), Sgi(b), Lgi(b),
                                            Gi(false, b), Ltf(false, b), Gi(true, b), Ltf(true, b)} {
      KeysOfBand(k, b, id);
    }
  }

  lemma KeysOfBand(k: Key, b: Band, id: Id)
    requires PutBy(k, b, id)
    ensures k in {Legacy(b), Ht(b), Mcs(VHT, b), Mcs(HE, b), Mcs(EHT, b), Sgi(b), Lgi(b),
                  Gi(false, b), Ltf(false, b), Gi(true, b), Ltf(true, b)}
  {
  }

  lemma AnyOfPuts(v: View, k: Key, b: Band, id: Id)
    requires k in v.have && Exists(k) && PutBy(k, b, id)
    ensures AnyOf(v, b)
  {
  }

  /** Every attribute in the nest of a band comes from a keyword given for it, and from nothing else. */
  lemma CarriedExactlyWhen(args: seq<Arg>, b: Band, id: Id, x: Value, attr: Id)
    requires args != [] && args[0].Word? && SetBitratesOf(args, attr).Puts?
    ensures Carries(SetBitratesOf(args, attr).nest, b, Leaf(id, x)) <==>
      exists k: Keyword | Word(k) in args :: PutBy(k, b, id) && x == ValueOf(Look(args), k)
  {
    hide SetBitratesOf, Look, LoopFine, RatesNest, Carries, ValueOf, AllMcsFine, ChoicesFine, PutBy;
    hide AnyOf, RateParts, GuardParts;
    TakenWhole(args, attr);
    var v := Look(args);
    CarriedInBand(v, b, Leaf(id, x), attr);
    InParts(v, b, id, x);
    KeysGiven(args);
    forall k | k in v.have && PutBy(k, b, id) ensures AnyOf(v, b) {
      AnyOfPuts(v, k, b, id);
    }
  }

  lemma {:induction false} OnlyKeywords(args: seq<Arg>)
    ensures forall k | k in Look(args).have :: Exists(k)
  {
    if args != [] {
      hide Plus;
      var n := |args| - 1;
      OnlyKeywords(args[..n]);
      HavePlus(Look(args[..n]), args[n]);
    }
  }

  lemma KeysGiven(args: seq<Arg>)
    ensures forall k :: k in Look(args).have <==> Exists(k) && Word(k) in args
  {
    hide Look;
    OnlyKeywords(args);
    forall k | Exists(k) ensures k in Look(args).have <==> Word(k) in args {
      HaveIsGiven(args, k);
    }
  }

  // ----- Type by type

  /** The nest of `b` in the message of a successful call holds this attribute. */
  predicate Says(args: seq<Arg>, attr: Id, b: Band, id: Id, x: Value)
    requires args != [] && args[0].Word? && SetBitratesOf(args, attr).Puts?
  {
    Carries(SetBitratesOf(args, attr).nest, b, Leaf(id, x))
  }

  lemma SaysOne(args: seq<Arg>, attr: Id, k: Keyword, id: Id, x: Value)
    requires args != [] && args[0].Word? && SetBitratesOf(args, attr).Puts? && PutBy(k, k.b, id) && id != TXRATE_GI
    ensures Says(args, attr, k.b, id, x) <==> Word(k) in args && x == ValueOf(Look(args), k)
  {
    hide SetBitratesOf, Carries, Look, ValueOf;
    CarriedExactlyWhen(args, k.b, id, x, attr);
    forall other: Keyword | PutBy(other, k.b, id) ensures other == k {
      OneKey(other, k, id);
    }
  }

  lemma OneKey(k: Key, l: Key, id: Id)
    requires PutBy(k, l.b, id) && PutBy(l, l.b, id) && id != TXRATE_GI
    ensures k == l
  {
  }

  /** The guard interval of HE or EHT: the code of the last one given for any band, or 0. */
  lemma IntervalPut(args: seq<Arg>, attr: Id, eht: bool, b: Band, n: int)
    requires args != [] && args[0].Word? && SetBitratesOf(args, attr).Puts?
    ensures var last := LastText(args, false, eht);
            && (last.Some? ==> last.value.gi.Some?)
            && (Says(args, attr, b, if eht then TXRATE_EHT_GI else TXRATE_HE_GI, Byte(n))
                <==> Word(Gi(eht, b)) in args && n == if last.Some? then last.value.gi.value else 0)
  {
    hide SetBitratesOf, Says, Look, LastText, AllFit, RatesRead;
    SucceedsExactlyWhen(args, attr);
    SaysOne(args, attr, Gi(eht, b), if eht then TXRATE_EHT_GI else TXRATE_HE_GI, Byte(n));
    LookShares(args, eht);
  }

  /** The LTF of HE or EHT: half the last number given for any band, as an int, or 0. */
  lemma LtfPut(args: seq<Arg>, attr: Id, eht: bool, b: Band, n: int)
    requires args != [] && args[0].Word? && SetBitratesOf(args, attr).Puts?
    ensures var last := LastText(args, true, eht);
            && (last.Some? ==> last.value.number.Some?)
            && (Says(args, attr, b, if eht then TXRATE_EHT_LTF else TXRATE_HE_LTF, Byte(n))
                <==> Word(Ltf(eht, b)) in args && n == if last.Some? then Int32(last.value.number.value) / 2 else 0)
  {
    hide SetBitratesOf, Says, Look, LastText, RatesRead, ChoicesMade, Int32;
    SucceedsExactlyWhen(args, attr);
    SaysOne(args, attr, Ltf(eht, b), if eht then TXRATE_EHT_LTF else TXRATE_HE_LTF, Byte(n));
    LookShares(args, eht);
    if LastText(args, true, eht).Some? { LastTextReads(args, eht); }
  }

  lemma {:induction false} LastTextFrom(args: seq<Arg>, ltf: bool, eht: bool) returns (i: nat)
    requires LastText(args, ltf, eht).Some?
    ensures i < |args| && TextUnder(args, i, ltf, eht) && LastText(args, ltf, eht) == Some(args[i].reading)
  {
    var n := |args| - 1;
    if TextUnder(args, n, ltf, eht) {
      i := n;
    } else {
      i := LastTextFrom(args[..n], ltf, eht);
      assert args[..n][..i] == args[..i];
    }
  }

  lemma LastTextReads(args: seq<Arg>, eht: bool)
    requires AllFit(args) && LastText(args, true, eht).Some?
    ensures LastText(args, true, eht).value.number.Some?
  {
    hide LastText, LastKey;
    var i := LastTextFrom(args, true, eht);
    assert Fits(args, i);
  }

  /** 1 exactly for "sgi" and 2 exactly for "lgi". */
  lemma ShortOrLongPut(args: seq<Arg>, attr: Id, b: Band, x: Value)
    requires args != [] && args[0].Word? && SetBitratesOf(args, attr).Puts? && b != B6
    ensures Says(args, attr, b, TXRATE_GI, x)
      <==> (x == Byte(1) && Word(Sgi(b)) in args) || (x == Byte(2) && Word(Lgi(b)) in args)
  {
    hide SetBitratesOf, Carries, Look;
    CarriedExactlyWhen(args, b, TXRATE_GI, x, attr);
    forall k: Key | PutBy(k, b, TXRATE_GI) ensures k == Sgi(b) || k == Lgi(b) {
      ShortOrLong(k, b);
    }
    assert ValueOf(Look(args), Sgi(b)) == Byte(1) && ValueOf(Look(args), Lgi(b)) == Byte(2);
    assert PutBy(Sgi(b), b, TXRATE_GI) && PutBy(Lgi(b), b, TXRATE_GI);
  }

  lemma ShortOrLong(k: Key, b: Band)
    requires PutBy(k, b, TXRATE_GI)
    ensures k == Sgi(b) || k == Lgi(b)
  {
  }

  lemma {:induction false} GivenFits(args: seq<Arg>, k: Key)
    requires AllFit(args)
    ensures forall r | r in GivenList(args, k) :: TextFits(k, r)
  {
    if args != [] {
      hide Fits, TextFits;
      var n := |args| - 1;
      forall i | 0 <= i < n ensures Fits(args[..n], i) {
        FitsBefore(args, i);
      }
      GivenFits(args[..n], k);
      if args[n].Text? && LastKey(args[..n]) == Some(k) { FitsUnder(args, n, k); }
    }
  }

  lemma FitsBefore(args: seq<Arg>, i: nat)
    requires i < |args| - 1 && AllFit(args)
    ensures Fits(args[..|args| - 1], i)
  {
    hide LastKey, GivenList, TextFits;
    assert args[..|args| - 1][..i] == args[..i];
    assert Fits(args, i);
  }

  lemma FitsUnder(args: seq<Arg>, i: nat, k: Key)
    requires i < |args| && AllFit(args) && args[i].Text? && LastKey(args[..i]) == Some(k)
    ensures TextFits(k, args[i].reading)
  {
    hide LastKey, GivenList, TextFits;
    assert Fits(args, i);
  }

  predicate AreRates(bytes: seq<int>, given: seq<Reading>) {
    |bytes| == |given| && forall i | 0 <= i < |given| :: given[i].rate.Some? && given[i].rate.value == bytes[i]
  }

  predicate AreNumbers(bytes: seq<int>, given: seq<Reading>) {
    |bytes| == |given| && forall i | 0 <= i < |given| :: given[i].number == Some(bytes[i])
  }

  lemma RatesAre(bytes: seq<int>, given: seq<Reading>)
    requires forall r | r in given :: r.rate.Some?
    ensures bytes == RateBytes(given) <==> AreRates(bytes, given)
  {
    var all := RateBytes(given);
    if AreRates(bytes, given) {
      forall i | 0 <= i < |given| ensures bytes[i] == all[i] {
      }
    }
  }

  lemma NumbersAre(bytes: seq<int>, given: seq<Reading>)
    requires forall r | r in given :: r.number.Some?
    ensures bytes == NumberBytes(given) <==> AreNumbers(bytes, given)
  {
    var all := NumberBytes(given);
    if AreNumbers(bytes, given) {
      forall i | 0 <= i < |given| ensures bytes[i] == all[i] {
      }
    }
  }

  /** The legacy rates in the order given, one byte each. */
  lemma LegacyPut(args: seq<Arg>, attr: Id, b: Band, bytes: seq<int>)
    requires args != [] && args[0].Word? && SetBitratesOf(args, attr).Puts? && b != B6
    ensures Says(args, attr, b, TXRATE_LEGACY, Bytes(bytes))
      <==> Word(Legacy(b)) in args && AreRates(bytes, GivenList(args, Legacy(b)))
  {
    hide SetBitratesOf, Says, Look, AllFit, RatesRead, ChoicesMade, AreRates, GivenList, Filed, RateBytes;
    SucceedsExactlyWhen(args, attr);
    GivenFits(args, Legacy(b));
    SaysOne(args, attr, Legacy(b), TXRATE_LEGACY, Bytes(bytes));
    FiledIsGiven(args, Legacy(b));
    RatesAre(bytes, GivenList(args, Legacy(b)));
  }

  /** The HT rates likewise. */
  lemma HtPut(args: seq<Arg>, attr: Id, b: Band, bytes: seq<int>)
    requires args != [] && args[0].Word? && SetBitratesOf(args, attr).Puts? && b != B6
    ensures Says(args, attr, b, TXRATE_HT, Bytes(bytes))
      <==> Word(Ht(b)) in args && AreNumbers(bytes, GivenList(args, Ht(b)))
  {
    hide SetBitratesOf, Says, Look, AllFit, RatesRead, ChoicesMade, AreNumbers, GivenList, Filed, NumberBytes;
    SucceedsExactlyWhen(args, attr);
    GivenFits(args, Ht(b));
    SaysOne(args, attr, Ht(b), TXRATE_HT, Bytes(bytes));
    FiledIsGiven(args, Ht(b));
    NumbersAre(bytes, GivenList(args, Ht(b)));
  }

  /** Masks are put exactly for the MCS keywords given, one list for each. */
  lemma MasksPut(args: seq<Arg>, attr: Id, k: Keyword, id: Id, x: Value, y: Value)
    requires args != [] && args[0].Word? && SetBitratesOf(args, attr).Puts? && k.Mcs?
    requires id == match k.mode case VHT => TXRATE_VHT case HE => TXRATE_HE case EHT => TXRATE_EHT
    ensures Says(args, attr, k.b, id, x) ==> Word(k) in args
    ensures Says(args, attr, k.b, id, x) && Says(args, attr, k.b, id, y) ==> x == y
  {
    hide SetBitratesOf, Says, Look, ValueOf;
    SaysOne(args, attr, k, id, x);
    SaysOne(args, attr, k, id, y);
  }

  /** One nest for each band for which there is a keyword, and in it attributes of these types. */
  lemma NestsOfBands(args: seq<Arg>, attr: Id)
    requires args != [] && args[0].Word? && SetBitratesOf(args, attr).Puts?
    ensures var nest := SetBitratesOf(args, attr).nest;
            && nest.Nest? && nest.id == attr
            && (forall i | 0 <= i < |nest.attrs| :: IsBand(nest.attrs[i]))
            && (forall i, j | 0 <= i < j < |nest.attrs| :: nest.attrs[i].id != nest.attrs[j].id)
  {
    hide LoopFine, Look, AllMcsFine, ChoicesFine, RateParts, GuardParts, AnyOf;
    TakenWhole(args, attr);
    var v := Look(args);
    LeavesOnly(v, B24);
    LeavesOnly(v, B5);
    LeavesOnly(v, B6);
  }

  predicate IsBand(a: Attr<Value>) {
    && a.Nest? && a.id in {BAND_2GHZ, BAND_5GHZ, BAND_6GHZ}
    && forall i | 0 <= i < |a.attrs| :: a.attrs[i].Leaf?
  }

  lemma PartIsLeaf(v: View, k: Key)
    ensures forall a | a in Part(v, k) :: a.Leaf?
  {
  }

  lemma LeavesOnly(v: View, b: Band)
    ensures forall a | a in RateParts(v, b) + GuardParts(v, b) :: a.Leaf?
  {
    hide Part;
    forall k ensures forall a | a in Part(v, k) :: a.Leaf? {
      PartIsLeaf(v, k);
    }
  }
}
