/**
 What the message of parse_sched_scan says, read off the clauses: for every type of attribute, when
 it is there and what it holds.
 */
module ScanMeaning {
  import opened Netlink
  import opened SchedScan
  import opened ScanParser
  import opened Wrappers

  predicate HasBlock(cs: seq<Clause>, key: Token) {
    exists i | 0 <= i < |cs| :: IsBlock(cs[i], key)
  }

  predicate IsBlock(c: Clause, key: Token) { c.Block? && c.key == key }

  /** The items of the block with this key; none if there is no such block. */
  ghost predicate Given(cs: seq<Clause>, key: Token, items: seq<Token>) {
    if HasBlock(cs, key) then Block(key, items) in cs else items == []
  }

  predicate HasWord(cs: seq<Clause>, flag: ScanFlag) {
    exists i | 0 <= i < |cs| :: Sets(cs[i], flag)
  }

  predicate Sets(c: Clause, flag: ScanFlag) {
    c.Word? && match flag
               case RANDOM_ADDR => c.token.Randomise?
               case COLOCATED_6GHZ => c.token.Coloc?
               case FLUSH => c.token.Flush?
  }

  // ----- What the summary remembers

  function ListOf(s: Summary, key: Token): seq<Token> {
    match key
    case Matches => s.matches
    case Freqs => s.freqs
    case Active => s.names
    case ScanPlans => s.plans
    case _ => []
  }

  lemma ValidPrefix(cs: seq<Clause>)
    requires Valid(cs) && cs != []
    ensures var n := |cs| - 1;
            Valid(cs[..n]) && Good(cs[n]) && Allowed(cs[..n], KindOf(cs[n]))
  {
    hide Good, Allowed, KindOf, Closed;
    var init := cs[..|cs| - 1];
    forall i | 0 <= i < |init| ensures Good(init[i]) && Allowed(init[..i], KindOf(init[i])) {
      assert init[..i] == cs[..i] && init[i] == cs[i];
    }
  }

  lemma LastClause(cs: seq<Clause>)
    requires cs != []
    ensures var n := |cs| - 1;
            Sum(cs) == Plus(Sum(cs[..n]), cs[n]) && Place(cs) == Place(cs[..n]) + Width(cs[n])
  {
    hide Plus, Width;
  }

  lemma ListPlus(s: Summary, c: Clause, key: Token)
    requires IsBlockKey(key)
    ensures ListOf(Plus(s, c), key) == ListOf(s, key) + if IsBlock(c, key) then c.items else []
  {
    hide DirectOf, FlagOf;
  }

  lemma FirstBlock(cs: seq<Clause>, c: Clause)
    requires Good(c) && c.Block? && Allowed(cs, KindOf(c))
    ensures ListOf(Sum(cs), c.key) == [] && !HasBlock(cs, c.key)
  {
    hide Sum;
    SumRemembers(cs);
    forall i | 0 <= i < |cs| ensures !IsBlock(cs[i], c.key) {
      assert KindOf(cs[i]) == KindOf(c) ==> Seen(cs, KindOf(c));
    }
  }

  lemma HasBlockSnoc(cs: seq<Clause>, c: Clause, key: Token)
    ensures HasBlock(cs + [c], key) <==> HasBlock(cs, key) || IsBlock(c, key)
  {
    hide IsBlock;
    var all := cs + [c];
    if HasBlock(cs, key) {
      var i :| 0 <= i < |cs| && IsBlock(cs[i], key);
      assert IsBlock(all[i], key);
    }
    assert all[|cs|] == c;
  }

  lemma {:induction false} ListIsGiven(cs: seq<Clause>, key: Token, items: seq<Token>)
    requires Valid(cs) && IsBlockKey(key) && Given(cs, key, items)
    ensures ListOf(Sum(cs), key) == items
  {
    if cs == [] {
      NoItems(key, items);
    } else {
      hide Sum, Valid, Good, Allowed, ListOf, Given, IsBlockKey, IsBlock;
      var n := |cs| - 1;
      ValidPrefix(cs);
      if IsBlock(cs[n], key) {
        LastIsGiven(cs, key, items);
      } else {
        GivenBefore(cs, key, items);
        ListIsGiven(cs[..n], key, items);
        ListStays(cs, key);
      }
    }
  }

  lemma ListStays(cs: seq<Clause>, key: Token)
    requires cs != [] && IsBlockKey(key) && !IsBlock(cs[|cs| - 1], key)
    ensures ListOf(Sum(cs), key) == ListOf(Sum(cs[..|cs| - 1]), key)
  {
    hide Sum, Plus, ListOf, IsBlockKey, IsBlock;
    LastClause(cs);
    ListPlus(Sum(cs[..|cs| - 1]), cs[|cs| - 1], key);
  }

  lemma NoItems(key: Token, items: seq<Token>)
    requires IsBlockKey(key) && Given([], key, items)
    ensures items == [] && ListOf(NOTHING, key) == []
  {
  }

  lemma LastIsGiven(cs: seq<Clause>, key: Token, items: seq<Token>)
    requires cs != [] && IsBlockKey(key) && Given(cs, key, items)
    requires var n := |cs| - 1;
             IsBlock(cs[n], key) && Good(cs[n]) && Allowed(cs[..n], KindOf(cs[n]))
    ensures ListOf(Sum(cs), key) == items
  {
    hide Sum, Plus, Good, Allowed, ListOf, IsBlockKey, KindOf;
    var n := |cs| - 1;
    LastClause(cs);
    ListPlus(Sum(cs[..n]), cs[n], key);
    FirstBlock(cs[..n], cs[n]);
    assert HasBlock(cs, key);
    NotBefore(cs, key, items);
  }

  lemma GivenBefore(cs: seq<Clause>, key: Token, items: seq<Token>)
    requires cs != [] && !IsBlock(cs[|cs| - 1], key) && Given(cs, key, items)
    ensures Given(cs[..|cs| - 1], key, items)
  {
    hide HasBlock;
    var n := |cs| - 1;
    assert cs == cs[..n] + [cs[n]];
    HasBlockSnoc(cs[..n], cs[n], key);
  }

  lemma NotBefore(cs: seq<Clause>, key: Token, items: seq<Token>)
    requires cs != [] && !HasBlock(cs[..|cs| - 1], key) && Block(key, items) in cs
    ensures cs[|cs| - 1] == Block(key, items)
  {
    var i :| 0 <= i < |cs| && cs[i] == Block(key, items);
    if i < |cs| - 1 {
      assert IsBlock(cs[..|cs| - 1][i], key);
    }
  }

  predicate Recalls(s: Summary, cs: seq<Clause>) {
    && (s.hasFreqs <==> HasBlock(cs, Freqs)) && (s.hasPlans <==> HasBlock(cs, ScanPlans))
    && (s.hasPassive <==> Word(Passive) in cs)
    && (forall flag :: flag in s.flags <==> HasWord(cs, flag))
  }

  lemma HasWordSnoc(cs: seq<Clause>, c: Clause, flag: ScanFlag)
    ensures HasWord(cs + [c], flag) <==> HasWord(cs, flag) || Sets(c, flag)
  {
    hide Sets;
    var all := cs + [c];
    if HasWord(cs, flag) {
      var i :| 0 <= i < |cs| && Sets(cs[i], flag);
      assert Sets(all[i], flag);
    }
    assert all[|cs|] == c;
  }

  lemma {:induction false} SumRecalls(cs: seq<Clause>)
    requires forall i | 0 <= i < |cs| :: Good(cs[i])
    ensures Recalls(Sum(cs), cs)
  {
    if cs == [] {
      NothingRecalled();
    } else {
      hide Sum, Good, Plus, Recalls;
      SumRecalls(cs[..|cs| - 1]);
      RecallsLast(cs);
    }
  }

  lemma RecallsLast(cs: seq<Clause>)
    requires cs != [] && Good(cs[|cs| - 1]) && Recalls(Sum(cs[..|cs| - 1]), cs[..|cs| - 1])
    ensures Recalls(Sum(cs), cs)
  {
    hide Sum, Good, Plus, Recalls;
    var n := |cs| - 1;
    LastClause(cs);
    RecallsSnoc(Sum(cs[..n]), cs[..n], cs[n]);
    assert cs == cs[..n] + [cs[n]];
  }

  lemma NothingRecalled()
    ensures Recalls(NOTHING, [])
  {
  }

  lemma RecallsSnoc(s: Summary, cs: seq<Clause>, c: Clause)
    requires Recalls(s, cs) && Good(c)
    ensures Recalls(Plus(s, c), cs + [c])
  {
    hide Good, HasBlock, HasWord, Sets, IsBlock, Plus;
    HasBlockSnoc(cs, c, Freqs);
    HasBlockSnoc(cs, c, ScanPlans);
    forall flag ensures HasWord(cs + [c], flag) <==> HasWord(cs, flag) || Sets(c, flag) {
      HasWordSnoc(cs, c, flag);
    }
    PlusRecalls(s, c);
  }

  lemma PlusRecalls(s: Summary, c: Clause)
    requires Good(c)
    ensures var t := Plus(s, c);
            && (t.hasFreqs <==> s.hasFreqs || IsBlock(c, Freqs))
            && (t.hasPlans <==> s.hasPlans || IsBlock(c, ScanPlans))
            && (t.hasPassive <==> s.hasPassive || c == Word(Passive))
            && (forall flag :: flag in t.flags <==> flag in s.flags || Sets(c, flag))
  {
    hide DirectOf;
  }

  // ----- Attributes put as the clauses are read

  /** How many attributes clause `c` puts at once: one for a setting, an address and a mask for "randomise". */
  function Width(c: Clause): nat {
    if c.Setting? then 1 else if c.Word? && c.token.Randomise? then 2 else 0
  }

  function Place(cs: seq<Clause>): nat {
    if cs == [] then 0 else Place(cs[..|cs| - 1]) + Width(cs[|cs| - 1])
  }

  /** `c` has put its attributes at `at`. */
  predicate PutAt(m: Attrs, at: nat, c: Clause)
    requires at + Width(c) <= |m|
  {
    match c
    case Setting(Interval, Number(_, n)) => m[at] == Leaf(SCHED_SCAN_INTERVAL, U32(n))
    case Setting(Delay, Number(_, n)) => m[at] == Leaf(SCHED_SCAN_DELAY, U32(n))
    case Word(Randomise(_, Some(mac))) => m[at] == Leaf(MAC, Mac(mac.0)) && m[at + 1] == Leaf(MAC_MASK, Mac(mac.1))
    case _ => Width(c) == 0
  }

  lemma DirectWidth(c: Clause)
    requires Good(c)
    ensures |DirectOf(c)| == Width(c) && PutAt(DirectOf(c), 0, c)
  {
  }

  lemma {:induction false} DirectWidths(cs: seq<Clause>)
    requires forall j | 0 <= j < |cs| :: Good(cs[j])
    ensures |Sum(cs).direct| == Place(cs)
  {
    if cs == [] {
      NothingDirect();
    } else {
      hide Sum, Place, Good, Width, PutAt, Plus, DirectOf;
      var n := |cs| - 1;
      LastClause(cs);
      DirectWidths(cs[..n]);
      DirectWidth(cs[n]);
      DirectPlus(Sum(cs[..n]), cs[n]);
    }
  }

  lemma {:induction false} DirectInOrder(cs: seq<Clause>, i: nat)
    requires (forall j | 0 <= j < |cs| :: Good(cs[j])) && i < |cs|
    ensures |Sum(cs).direct| == Place(cs) && Place(cs[..i]) + Width(cs[i]) <= Place(cs)
    ensures PutAt(Sum(cs).direct, Place(cs[..i]), cs[i])
  {
    hide Sum, Place, Good, Width, PutAt, Plus, DirectOf;
    var n := |cs| - 1;
    LastClause(cs);
    DirectWidths(cs[..n]);
    DirectWidth(cs[n]);
    DirectPlus(Sum(cs[..n]), cs[n]);
    if i < n {
      DirectInOrder(cs[..n], i);
      assert cs[..n][..i] == cs[..i];
      PutAtPrefix(Sum(cs[..n]).direct, DirectOf(cs[n]), Place(cs[..i]), cs[i]);
    } else {
      PutAtSuffix(Sum(cs[..n]).direct, DirectOf(cs[n]), cs[n]);
    }
  }

  lemma NothingDirect()
    ensures Sum([]).direct == [] && Place([]) == 0
  {
  }

  lemma DirectPlus(s: Summary, c: Clause)
    ensures Plus(s, c).direct == s.direct + DirectOf(c)
  {
  }

  lemma PutAtPrefix(a: Attrs, b: Attrs, at: nat, c: Clause)
    requires at + Width(c) <= |a| && PutAt(a, at, c)
    ensures PutAt(a + b, at, c)
  {
  }

  lemma PutAtSuffix(a: Attrs, b: Attrs, c: Clause)
    requires |b| == Width(c) && PutAt(b, 0, c)
    ensures PutAt(a + b, |a|, c)
  {
  }

  /**
   Settings and addresses stand first in the message, in the order of their clauses, each with the
   number or address of its own clause.
   */
  lemma SettingsInOrder(cs: seq<Clause>, i: nat, ended: bool)
    requires Valid(cs) && i < |cs|
    ensures Place(cs[..i]) + Width(cs[i]) <= Place(cs) <= |Meaning(cs, ended)|
    ensures PutAt(Meaning(cs, ended), Place(cs[..i]), cs[i])
    ensures !ended ==> |Meaning(cs, ended)| == Place(cs)
  {
    hide Sum, Good, Allowed, Closed, Width, PutAt, AtEnd;
    DirectInOrder(cs, i);
    PutAtPrefix(Sum(cs).direct, if ended then AtEnd(Sum(cs)) else [], Place(cs[..i]), cs[i]);
  }

  // ----- Lists and flags, put when the arguments have run out

  lemma {:induction false} DirectIds(cs: seq<Clause>)
    ensures forall a | a in Sum(cs).direct :: a.Leaf? && a.id in {SCHED_SCAN_INTERVAL, SCHED_SCAN_DELAY, MAC, MAC_MASK}
  {
    if cs != [] {
      hide Plus;
      var n := |cs| - 1;
      DirectIds(cs[..n]);
      DirectPlus(Sum(cs[..n]), cs[n]);
    }
  }

  predicate IsList(a: Attr<Value>) {
    if a.Nest? then a.id in {SCAN_SSIDS, SCAN_FREQUENCIES, SCHED_SCAN_MATCH, SCHED_SCAN_PLANS} else a.id == SCAN_FLAGS
  }

  lemma ListPut(cs: seq<Clause>, a: Attr<Value>)
    requires IsList(a)
    ensures a in Meaning(cs, true) <==> a in AtEnd(Sum(cs))
    ensures a !in Meaning(cs, false)
  {
    hide Sum, AtEnd;
    DirectIds(cs);
  }

  lemma AtEndHas(s: Summary, a: Attr<Value>)
    ensures a in AtEnd(s) <==>
      a in SsidsPart(s) || a in FreqsPart(s) || a in MatchPart(s) || a in PlansPart(s) || a in FlagsPart(s)
  {
    hide SsidsPart, FreqsPart, MatchPart, PlansPart, FlagsPart;
  }

  lemma AreSsids(items: seq<Token>, x: Attrs)
    ensures x == SsidAttrs(items)
      <==> |x| == |items| && forall i | 0 <= i < |x| :: x[i] == Leaf(MATCH_SSID, Text(items[i]))
  {
    var y := SsidAttrs(items);
    if |x| == |items| && forall i | 0 <= i < |x| :: x[i] == Leaf(MATCH_SSID, Text(items[i])) {
      forall i | 0 <= i < |x| ensures x[i] == y[i] {
      }
    }
  }

  /** The SSIDs to probe for, in order, or an empty one; nothing for a passive scan. */
  lemma SsidsPut(cs: seq<Clause>, names: seq<Token>, x: Attrs)
    requires Valid(cs) && Given(cs, Active, names)
    ensures Nest(SCAN_SSIDS, x) in Meaning(cs, true) <==>
      && Word(Passive) !in cs
      && if names == [] then x == [Leaf(MATCH_SSID, NoText)]
         else |x| == |names| && forall i | 0 <= i < |x| :: x[i] == Leaf(MATCH_SSID, Text(names[i]))
  {
    hide Sum, Meaning, AtEnd, Given, HasBlock, HasWord, SsidAttrs, FreqAttrs, MatchAttrs, PlanAttrs;
    ListIsGiven(cs, Active, names);
    SumRecalls(cs);
    ListPut(cs, Nest(SCAN_SSIDS, x));
    AtEndHas(Sum(cs), Nest(SCAN_SSIDS, x));
    AreSsids(names, x);
  }

  lemma AreFreqs(items: seq<Token>, x: Attrs)
    ensures x == FreqAttrs(items)
      <==> |x| == |items| && forall i | 0 <= i < |x| :: x[i] == FreqAttr(i, items[i])
  {
    var y := FreqAttrs(items);
    if |x| == |items| && forall i | 0 <= i < |x| :: x[i] == FreqAttr(i, items[i]) {
      forall i | 0 <= i < |x| ensures x[i] == y[i] {
      }
    }
  }

  /** The frequencies, numbered from 0, whenever "freqs" was given. */
  lemma FreqsPut(cs: seq<Clause>, freqs: seq<Token>, x: Attrs)
    requires Valid(cs) && Given(cs, Freqs, freqs)
    ensures Nest(SCAN_FREQUENCIES, x) in Meaning(cs, true) <==>
      && HasBlock(cs, Freqs) && |x| == |freqs|
      && forall i | 0 <= i < |x| :: freqs[i].Number? && x[i] == Leaf(Index(i), U32(freqs[i].n))
  {
    hide Sum, Meaning, AtEnd, HasBlock, HasWord, SsidAttrs, FreqAttrs, MatchAttrs, PlanAttrs;
    ListIsGiven(cs, Freqs, freqs);
    SumRecalls(cs);
    ListPut(cs, Nest(SCAN_FREQUENCIES, x));
    AtEndHas(Sum(cs), Nest(SCAN_FREQUENCIES, x));
    FreqsAreNumbers(cs, freqs);
    AreFreqs(freqs, x);
  }

  lemma FreqsAreNumbers(cs: seq<Clause>, freqs: seq<Token>)
    requires Valid(cs) && Given(cs, Freqs, freqs)
    ensures forall i | 0 <= i < |freqs| :: freqs[i].Number?
  {
    if HasBlock(cs, Freqs) {
      assert Good(Block(Freqs, freqs));
    }
  }

  lemma AreMatches(items: seq<Token>, x: Attrs)
    ensures x == MatchAttrs(items)
      <==> |x| == |items| && forall i | 0 <= i < |x| :: x[i] == Nest(Index(i), [Leaf(MATCH_SSID, Text(items[i]))])
  {
    var y := MatchAttrs(items);
    if |x| == |items| && forall i | 0 <= i < |x| :: x[i] == Nest(Index(i), [Leaf(MATCH_SSID, Text(items[i]))]) {
      forall i | 0 <= i < |x| ensures x[i] == y[i] {
      }
    }
  }

  /** One nest for each SSID to match, numbered from 0; without SSIDs no match set at all. */
  lemma MatchesPut(cs: seq<Clause>, names: seq<Token>, x: Attrs)
    requires Valid(cs) && Given(cs, Matches, names)
    ensures Nest(SCHED_SCAN_MATCH, x) in Meaning(cs, true) <==>
      && names != [] && |x| == |names|
      && forall i | 0 <= i < |x| :: x[i] == Nest(Index(i), [Leaf(MATCH_SSID, Text(names[i]))])
  {
    hide Sum, Meaning, AtEnd, Given, HasBlock, HasWord, SsidAttrs, FreqAttrs, MatchAttrs, PlanAttrs;
    ListIsGiven(cs, Matches, names);
    ListPut(cs, Nest(SCHED_SCAN_MATCH, x));
    AtEndHas(Sum(cs), Nest(SCHED_SCAN_MATCH, x));
    AreMatches(names, x);
  }

  lemma ArePlans(items: seq<Token>, x: Attrs)
    ensures x == PlanAttrs(items)
      <==> |x| == |items| && forall i | 0 <= i < |x| :: x[i] == PlanAttr(i, items[i])
  {
    var y := PlanAttrs(items);
    if |x| == |items| && forall i | 0 <= i < |x| :: x[i] == PlanAttr(i, items[i]) {
      forall i | 0 <= i < |x| ensures x[i] == y[i] {
      }
    }
  }

  /** One nest for each plan, numbered from 1, with the iterations of all that have some. */
  lemma PlansPut(cs: seq<Clause>, plans: seq<Token>, x: Attrs)
    requires Valid(cs) && Given(cs, ScanPlans, plans)
    ensures Nest(SCHED_SCAN_PLANS, x) in Meaning(cs, true) <==>
      && HasBlock(cs, ScanPlans) && |x| == |plans| && forall i | 0 <= i < |x| :: IsPlan(x[i], i + 1, plans[i])
  {
    hide Sum, Meaning, AtEnd, HasBlock, HasWord, SsidAttrs, FreqAttrs, MatchAttrs, PlanAttrs;
    ListIsGiven(cs, ScanPlans, plans);
    SumRecalls(cs);
    ListPut(cs, Nest(SCHED_SCAN_PLANS, x));
    AtEndHas(Sum(cs), Nest(SCHED_SCAN_PLANS, x));
    PlansAreGood(cs, plans);
    ArePlans(plans, x);
    forall i | 0 <= i < |plans| && i < |x| ensures IsPlan(x[i], i + 1, plans[i]) <==> x[i] == PlanAttr(i, plans[i]) {
    }
  }

  predicate IsPlan(a: Attr<Value>, number: nat, plan: Token) {
    a.Nest? && a.id == Index(number) && match plan
    case Number(_, n) => a.attrs == [Leaf(PLAN_INTERVAL, U32(n))]
    case Colon(_, n, Some(times)) => a.attrs == [Leaf(PLAN_INTERVAL, U32(n)), Leaf(PLAN_ITERATIONS, U32(times))]
    case _ => false
  }

  lemma PlansAreGood(cs: seq<Clause>, plans: seq<Token>)
    requires Valid(cs) && Given(cs, ScanPlans, plans)
    ensures forall i | 0 <= i < |plans| :: plans[i].Number? || Repeats(plans[i])
  {
    if HasBlock(cs, ScanPlans) {
      assert Good(Block(ScanPlans, plans));
    }
  }

  /** A flag for each of its words; collocated 6 GHz access points also when there are no frequencies. */
  lemma FlagsPut(cs: seq<Clause>, flags: set<ScanFlag>)
    requires Valid(cs)
    ensures Leaf(SCAN_FLAGS, Flags(flags)) in Meaning(cs, true) <==>
      && flags != {}
      && forall flag :: flag in flags <==> HasWord(cs, flag) || (flag == COLOCATED_6GHZ && !HasBlock(cs, Freqs))
  {
    hide Sum, Meaning, AtEnd, HasBlock, HasWord;
    SumRecalls(cs);
    ListPut(cs, Leaf(SCAN_FLAGS, Flags(flags)));
    AtEndHas(Sum(cs), Leaf(SCAN_FLAGS, Flags(flags)));
    var s := Sum(cs);
    var all := s.flags + if s.hasFreqs then {} else {COLOCATED_6GHZ};
    if forall flag :: flag in flags <==> HasWord(cs, flag) || (flag == COLOCATED_6GHZ && !HasBlock(cs, Freqs)) {
      assert flags == all;
    }
  }

  /** Behind the settings there is nothing else, and each of these at most once. */
  lemma NothingElsePut(cs: seq<Clause>)
    requires Valid(cs)
    ensures var m := Meaning(cs, true);
            && Place(cs) <= |m|
            && (forall i | Place(cs) <= i < |m| :: IsList(m[i]))
            && (forall i, j | Place(cs) <= i < j < |m| :: m[i].id != m[j].id)
  {
    hide Sum, AtEnd, IsList;
    AtEndDistinct(Sum(cs));
    DirectWidths(cs);
    SuffixDistinct(Sum(cs).direct, AtEnd(Sum(cs)));
  }

  lemma SuffixDistinct(a: Attrs, b: Attrs)
    requires forall i | 0 <= i < |b| :: IsList(b[i])
    requires forall i, j | 0 <= i < j < |b| :: b[i].id != b[j].id
    ensures forall i | |a| <= i < |a + b| :: IsList((a + b)[i])
    ensures forall i, j | |a| <= i < j < |a + b| :: (a + b)[i].id != (a + b)[j].id
  {
    hide IsList;
  }

  predicate Only(a: Attrs, id: Id) {
    |a| <= 1 && forall i | 0 <= i < |a| :: IsList(a[i]) && a[i].id == id
  }

  lemma EachPart(s: Summary)
    ensures Only(SsidsPart(s), SCAN_SSIDS) && Only(FreqsPart(s), SCAN_FREQUENCIES)
    ensures Only(MatchPart(s), SCHED_SCAN_MATCH) && Only(PlansPart(s), SCHED_SCAN_PLANS)
    ensures Only(FlagsPart(s), SCAN_FLAGS)
  {
    hide SsidAttrs, FreqAttrs, MatchAttrs, PlanAttrs;
  }

  predicate AllOf(a: Attrs, ids: set<Id>) {
    && (forall i | 0 <= i < |a| :: IsList(a[i]) && a[i].id in ids)
    && (forall i, j | 0 <= i < j < |a| :: a[i].id != a[j].id)
  }

  lemma AllOfAppend(a: Attrs, ids: set<Id>, b: Attrs, id: Id)
    requires AllOf(a, ids) && Only(b, id) && id !in ids
    ensures AllOf(a + b, ids + {id})
  {
    hide IsList;
  }

  lemma AtEndDistinct(s: Summary)
    ensures forall i | 0 <= i < |AtEnd(s)| :: IsList(AtEnd(s)[i])
    ensures forall i, j | 0 <= i < j < |AtEnd(s)| :: AtEnd(s)[i].id != AtEnd(s)[j].id
  {
    hide SsidsPart, FreqsPart, MatchPart, PlansPart, FlagsPart, Only, IsList;
    EachPart(s);
    AllOfAppend([], {}, SsidsPart(s), SCAN_SSIDS);
    assert [] + SsidsPart(s) == SsidsPart(s);
    AllOfAppend(SsidsPart(s), {} + {SCAN_SSIDS}, FreqsPart(s), SCAN_FREQUENCIES);
    var two := {} + {SCAN_SSIDS} + {SCAN_FREQUENCIES};
    AllOfAppend(SsidsPart(s) + FreqsPart(s), two, MatchPart(s), SCHED_SCAN_MATCH);
    var three := two + {SCHED_SCAN_MATCH};
    AllOfAppend(SsidsPart(s) + FreqsPart(s) + MatchPart(s), three, PlansPart(s), SCHED_SCAN_PLANS);
    var four := three + {SCHED_SCAN_PLANS};
    AllOfAppend(SsidsPart(s) + FreqsPart(s) + MatchPart(s) + PlansPart(s), four, FlagsPart(s), SCAN_FLAGS);
  }
}
