/**
 parse_sched_scan of iw/scan.c itself: the loop over its locals, writing into the caller's message
 and four scratch messages, proved against the recursion `SchedScan.Run` and a message read off
 the clauses.
 */
module ScanParser {
  import opened Netlink
  import opened SchedScan
  import opened Wrappers

  // ----- The message a list of clauses stands for

  datatype ScanFlag = RANDOM_ADDR | COLOCATED_6GHZ | FLUSH

  datatype Value =
    | U32(n: nat) | Text(token: Token) | NoText | Mac(n: nat) | Flags(set<ScanFlag>) | Set | Data(bytes: seq<bv8>)

  type Attrs = seq<Attr<Value>>

  /** What a list of clauses adds up to. */
  datatype Summary = Summary(
    direct: Attrs,            // put into the message as the clauses are read
    flags: set<ScanFlag>,
    matches: seq<Token>, freqs: seq<Token>, names: seq<Token>, plans: seq<Token>,
    hasMatches: bool, hasFreqs: bool, hasActive: bool, hasPassive: bool, hasPlans: bool, hasInterval: bool,
    delayed: bool)

  const NOTHING := Summary([], {}, [], [], [], [], false, false, false, false, false, false, false)

  function DirectOf(c: Clause): Attrs {
    match c
    case Setting(Interval, Number(_, n)) => [Leaf(SCHED_SCAN_INTERVAL, U32(n))]
    case Setting(Delay, Number(_, n)) => [Leaf(SCHED_SCAN_DELAY, U32(n))]
    case Word(Randomise(_, Some(m))) => [Leaf(MAC, Mac(m.0)), Leaf(MAC_MASK, Mac(m.1))]
    case _ => []
  }

  function FlagOf(t: Token): set<ScanFlag> {
    match t
    case Randomise(_, _) => {RANDOM_ADDR}
    case Coloc(_) => {COLOCATED_6GHZ}
    case Flush(_) => {FLUSH}
    case _ => {}
  }

  function ItemsOf(c: Clause, key: Token): seq<Token> {
    if c.Block? && c.key == key then c.items else []
  }

  function Plus(s: Summary, c: Clause): Summary {
    var key := KeyOf(c);
    Summary(
      s.direct + DirectOf(c), s.flags + FlagOf(key),
      s.matches + ItemsOf(c, Matches), s.freqs + ItemsOf(c, Freqs),
      s.names + ItemsOf(c, Active), s.plans + ItemsOf(c, ScanPlans),
      s.hasMatches || key.Matches?, s.hasFreqs || key.Freqs?, s.hasActive || key.Active?, s.hasPassive || key.Passive?,
      s.hasPlans || key.ScanPlans?, s.hasInterval || key.Interval?,
      s.delayed || DelayAtLeastOne(c))
  }

  lemma PlusBlock(s: Summary, key: Token, items: seq<Token>)
    requires IsBlockKey(key)
    ensures Plus(s, Block(key, items)) ==
      match key
      case Matches => s.(matches := s.matches + items, hasMatches := true)
      case Freqs => s.(freqs := s.freqs + items, hasFreqs := true)
      case Active => s.(names := s.names + items, hasActive := true)
      case _ => s.(plans := s.plans + items, hasPlans := true)
  {
    hide DirectOf, FlagOf, DelayAtLeastOne;
    BlockSilent(key, items);
    assert s.matches + [] == s.matches && s.freqs + [] == s.freqs && s.names + [] == s.names && s.plans + [] == s.plans;
    assert s.direct + [] == s.direct && s.flags + {} == s.flags;
  }

  lemma BlockSilent(key: Token, items: seq<Token>)
    requires IsBlockKey(key)
    ensures DirectOf(Block(key, items)) == [] && FlagOf(key) == {} && !DelayAtLeastOne(Block(key, items))
  {
  }

  function Sum(cs: seq<Clause>): Summary {
    if cs == [] then NOTHING else Plus(Sum(cs[..|cs| - 1]), cs[|cs| - 1])
  }

  function SsidAttrs(names: seq<Token>): Attrs {
    seq(|names|, i requires 0 <= i < |names| => Leaf(MATCH_SSID, Text(names[i])))
  }

  function MatchAttr(i: nat, name: Token): Attr<Value> {
    Nest(Index(i), [Leaf(MATCH_SSID, Text(name))])
  }

  function MatchAttrs(names: seq<Token>): Attrs {
    seq(|names|, i requires 0 <= i < |names| => MatchAttr(i, names[i]))
  }

  function FreqAttr(i: nat, freq: Token): Attr<Value> {
    Leaf(Index(i), U32(if freq.Number? then freq.n else 0))
  }

  function FreqAttrs(freqs: seq<Token>): Attrs {
    seq(|freqs|, i requires 0 <= i < |freqs| => FreqAttr(i, freqs[i]))
  }

  /** Plans are numbered from 1. */
  function PlanAttr(i: nat, plan: Token): Attr<Value> {
    Nest(Index(i + 1), match plan
      case Number(_, n) => [Leaf(PLAN_INTERVAL, U32(n))]
      case Colon(_, n, Some(times)) => [Leaf(PLAN_INTERVAL, U32(n)), Leaf(PLAN_ITERATIONS, U32(times))]
      case _ => [])
  }

  function PlanAttrs(plans: seq<Token>): Attrs {
    seq(|plans|, i requires 0 <= i < |plans| => PlanAttr(i, plans[i]))
  }

  function SsidsPart(s: Summary): Attrs {
    if s.hasPassive then []
    else [Nest(SCAN_SSIDS, if s.names == [] then [Leaf(MATCH_SSID, NoText)] else SsidAttrs(s.names))]
  }

  function FreqsPart(s: Summary): Attrs {
    if s.hasFreqs then [Nest(SCAN_FREQUENCIES, FreqAttrs(s.freqs))] else []
  }

  function MatchPart(s: Summary): Attrs {
    if s.matches != [] then [Nest(SCHED_SCAN_MATCH, MatchAttrs(s.matches))] else []
  }

  function PlansPart(s: Summary): Attrs {
    if s.hasPlans then [Nest(SCHED_SCAN_PLANS, PlanAttrs(s.plans))] else []
  }

  /** Without frequencies, collocated 6 GHz access points are always looked for. */
  function FlagsPart(s: Summary): Attrs {
    var flags := s.flags + if s.hasFreqs then {} else {COLOCATED_6GHZ};
    if flags != {} then [Leaf(SCAN_FLAGS, Flags(flags))] else []
  }

  /** Put into the message only when the arguments have run out. */
  function AtEnd(s: Summary): Attrs {
    SsidsPart(s) + FreqsPart(s) + MatchPart(s) + PlansPart(s) + FlagsPart(s)
  }

  function Meaning(cs: seq<Clause>, ended: bool): Attrs {
    Sum(cs).direct + if ended then AtEnd(Sum(cs)) else []
  }

  /** Stopping early always loses something, and leaves no list in the message at all. */
  lemma {:induction false} StoppingLosesLists(cs: seq<Clause>)
    ensures Meaning(cs, false) != Meaning(cs, true)
    ensures forall i | 0 <= i < |Meaning(cs, false)| :: Meaning(cs, false)[i].Leaf?
  {
    hide Sum, Plus, SsidAttrs, FreqAttrs, MatchAttrs, PlanAttrs;
    var s := Sum(cs);
    assert FreqsPart(s) != [] || FlagsPart(s) != [];
    assert |AtEnd(s)| > 0;
    DirectHasNoNest(cs);
    assert s.direct + [] == s.direct;
  }

  lemma {:induction false} DirectHasNoNest(cs: seq<Clause>)
    ensures forall i | 0 <= i < |Sum(cs).direct| :: Sum(cs).direct[i].Leaf?
  {
    if cs != [] {
      DirectHasNoNest(cs[..|cs| - 1]);
    }
  }

  // ----- One clause or one item more

  lemma SumSnoc(cs: seq<Clause>, c: Clause)
    ensures Sum(cs + [c]) == Plus(Sum(cs), c)
  {
    assert (cs + [c])[..|cs|] == cs;
  }

  /** The summary remembers what the rules forbid. */
  predicate Matching(s: Summary, cs: seq<Clause>) {
    && (Seen(cs, MatchSet) <==> s.hasMatches) && (Seen(cs, FreqSet) <==> s.hasFreqs)
    && (Seen(cs, Probing) <==> s.hasActive || s.hasPassive)
    && (Seen(cs, Schedule) <==> s.hasPlans || s.hasInterval)
    && (Delayed(cs) <==> s.delayed)
  }

  lemma MatchingPlus(s: Summary, cs: seq<Clause>, c: Clause)
    requires Matching(s, cs)
    ensures Matching(Plus(s, c), cs + [c])
  {
    hide Seen, Delayed, DelayAtLeastOne, KindOf, DirectOf, FlagOf, ItemsOf;
    KindOfKey(c);
    SeenSnoc(cs, c, MatchSet);
    SeenSnoc(cs, c, FreqSet);
    SeenSnoc(cs, c, Probing);
    SeenSnoc(cs, c, Schedule);
  }

  lemma NothingUnseenPlus(s: Summary, c: Clause)
    requires NothingUnseen(s)
    ensures NothingUnseen(Plus(s, c))
  {
    hide DirectOf, FlagOf;
  }

  lemma {:induction false} SumRemembers(cs: seq<Clause>)
    ensures Matching(Sum(cs), cs) && NothingUnseen(Sum(cs))
  {
    hide Matching, NothingUnseen, Plus;
    if cs == [] {
      NothingMatching();
    } else {
      var n := |cs| - 1;
      SumRemembers(cs[..n]);
      assert cs == cs[..n] + [cs[n]];
      MatchingPlus(Sum(cs[..n]), cs[..n], cs[n]);
      NothingUnseenPlus(Sum(cs[..n]), cs[n]);
    }
  }

  lemma NothingMatching()
    ensures Matching(NOTHING, []) && NothingUnseen(NOTHING)
  {
  }

  lemma KindOfKey(c: Clause)
    ensures var k, key := KindOf(c), KeyOf(c);
            && (k == MatchSet <==> key.Matches?) && (k == FreqSet <==> key.Freqs?)
            && (k == Probing <==> key.Active? || key.Passive?) && (k == Schedule <==> key.ScanPlans? || key.Interval?)
            && (k == Delays <==> key.Delay?)
  {
  }

  predicate NothingUnseen(s: Summary) {
    && (!s.hasMatches ==> s.matches == []) && (!s.hasFreqs ==> s.freqs == [])
    && (!s.hasActive ==> s.names == []) && (!s.hasPlans ==> s.plans == [])
  }

  lemma AttrsSnoc(items: seq<Token>, t: Token)
    ensures SsidAttrs(items + [t]) == SsidAttrs(items) + [Leaf(MATCH_SSID, Text(t))]
    ensures MatchAttrs(items + [t]) == MatchAttrs(items) + [MatchAttr(|items|, t)]
    ensures FreqAttrs(items + [t]) == FreqAttrs(items) + [FreqAttr(|items|, t)]
    ensures PlanAttrs(items + [t]) == PlanAttrs(items) + [PlanAttr(|items|, t)]
  {
  }

  // ----- The run, by index into the arguments

  lemma TakeTwo(tokens: seq<Token>, pos: nat)
    requires pos + 1 < |tokens|
    ensures tokens[pos..] == [tokens[pos], tokens[pos + 1]] + tokens[pos + 2..]
  {
  }

  lemma TakeOne(tokens: seq<Token>, pos: nat)
    requires pos < |tokens|
    ensures tokens[pos..] == [tokens[pos]] + tokens[pos + 1..]
  {
  }

  lemma SettingRuns(done: seq<Clause>, argv: seq<Token>, pos: nat)
    requires pos < |argv| && IsSettingKey(argv[pos])
    ensures var key := argv[pos];
            Run(done, Top, argv[pos..]) ==
              if pos + 1 == |argv| || !Allowed(done, KindOf(Word(key))) || !Good(Setting(key, argv[pos + 1]))
                  then Failed(EINVAL)
              else Run(done + [Setting(key, argv[pos + 1])], Top, argv[pos + 2..])
  {
    hide Allowed, Good, RunIn;
    if pos + 1 < |argv| { TakeTwo(argv, pos); }
  }

  lemma KeyRuns(done: seq<Clause>, argv: seq<Token>, pos: nat)
    requires pos < |argv| && !IsSettingKey(argv[pos])
    ensures var key := argv[pos];
            Run(done, Top, argv[pos..]) ==
              if !IsKey(key) then Parsed(done, argv[pos..])
              else if !Allowed(done, KindOf(Word(key))) then Failed(EINVAL)
              else if IsBlockKey(key) then Run(done, In(key, []), argv[pos + 1..])
              else if key.Randomise? && key.mac.None? then Failed(1)
              else Run(done + [Word(key)], Top, argv[pos + 1..])
  {
    hide Allowed, RunIn;
    TakeOne(argv, pos);
  }

  lemma BlockRuns(done: seq<Clause>, key: Token, items: seq<Token>, argv: seq<Token>, pos: nat)
    requires pos < |argv| && IsBlockKey(key)
    ensures Run(done, In(key, items), argv[pos..]) ==
              if Named(key) && argv[pos].Ssid? then
                if pos + 1 == |argv| then Failed(EINVAL)
                else Run(done, In(key, items + [argv[pos + 1]]), argv[pos + 2..])
              else if !Named(key) && Continues(key, argv[pos])
                    then Run(done, In(key, items + [argv[pos]]), argv[pos + 1..])
              else if key.ScanPlans? then
                if argv[pos].Number? then Run(done + [Block(key, items + [argv[pos]])], Top, argv[pos + 1..])
                else Failed(EINVAL)
              else if items == [] then Failed(EINVAL)
              else Run(done + [Block(key, items)], Top, argv[pos..])
  {
    hide RunTop;
    if pos + 1 < |argv| { TakeTwo(argv, pos); } else { TakeOne(argv, pos); }
    assert argv[pos..][1..] == argv[pos + 1..];
  }

  // ----- parse_sched_scan

  datatype ParseState = ND_TOPLEVEL | ND_MATCH | ND_FREQS | ND_ACTIVE | ND_PLANS

  function ModeOf(s: ParseState, items: seq<Token>): Mode {
    match s
    case ND_TOPLEVEL => Top
    case ND_MATCH => In(Matches, items)
    case ND_FREQS => In(Freqs, items)
    case ND_ACTIVE => In(Active, items)
    case ND_PLANS => In(ScanPlans, items)
  }

  /** The locals of parse_sched_scan that remember what was read. */
  datatype Locals = Locals(
    interval: nat, delay: nat,
    haveMatchset: bool, haveFreqs: bool, haveSsids: bool, haveActive: bool, havePassive: bool, havePlans: bool,
    flags: set<ScanFlag>)

  /** The contents of the caller's message and of the four scratch messages. */
  datatype Written = Written(msg: Attrs, matchset: Attrs, freqs: Attrs, ssids: Attrs, scanPlans: Attrs)

  predicate Remembers(l: Locals, s: Summary) {
    && l.haveFreqs == s.hasFreqs && l.haveActive == s.hasActive && l.havePassive == s.hasPassive
    && l.havePlans == s.hasPlans && l.flags == s.flags
    && (l.interval != 0 || l.havePlans <==> s.hasInterval || s.hasPlans)
    && (l.delay != 0 <==> s.delayed)
    && (l.haveMatchset <==> s.matches != []) && (l.haveSsids <==> s.names != [])
  }

  predicate Built(w: Written, s: Summary, base: Attrs) {
    && w.msg == base + s.direct
    && w.matchset == MatchAttrs(s.matches) && w.freqs == FreqAttrs(s.freqs)
    && w.ssids == SsidAttrs(s.names) && w.scanPlans == PlanAttrs(s.plans)
  }

  /** Within a block no other of its kind came before, so that `i` numbers its items. */
  predicate FirstOfKind(p: ParseState, s: Summary) {
    match p
    case ND_TOPLEVEL => true
    case ND_MATCH => !s.hasMatches
    case ND_FREQS => !s.hasFreqs
    case ND_ACTIVE => !s.hasActive && !s.hasPassive
    case ND_PLANS => !s.hasPlans && !s.hasInterval
  }

  function Total(done: seq<Clause>, mode: Mode): Summary {
    if mode.Top? then Sum(done) else Plus(Sum(done), Block(mode.key, mode.items))
  }

  /** State `p` of a run that has read the clauses `done` and the items of an open block. */
  predicate Fits(p: ParseState, i: nat, l: Locals, w: Written, base: Attrs, done: seq<Clause>, items: seq<Token>) {
    var s := Total(done, ModeOf(p, items));
    && Remembers(l, s) && Built(w, s, base)
    && (if p.ND_TOPLEVEL? then items == [] else i == |items|)
    && FirstOfKind(p, Sum(done))
    && (!p.ND_MATCH? ==> (l.haveMatchset <==> Sum(done).hasMatches))
  }

  lemma FitsAtStart(i: nat, w: Written)
    requires w == Written(w.msg, [], [], [], [])
    ensures Fits(ND_TOPLEVEL, i, Locals(0, 0, false, false, false, false, false, false, {}), w, w.msg, [], [])
  {
  }

  lemma FitsClosed(p: ParseState, i: nat, l: Locals, w: Written, base: Attrs, done: seq<Clause>, items: seq<Token>)
    requires Fits(p, i, l, w, base, done, items) && !p.ND_TOPLEVEL? && items != []
    ensures Fits(ND_TOPLEVEL, i, l, w, base, done + [Block(ModeOf(p, items).key, items)], [])
  {
    hide Sum, Plus, Built;
    var key := ModeOf(p, items).key;
    SumSnoc(done, Block(key, items));
    PlusBlock(Sum(done), key, items);
  }

  function WithItems(s: Summary, p: ParseState, items: seq<Token>): Summary {
    match p
    case ND_TOPLEVEL => s
    case ND_MATCH => s.(matches := items, hasMatches := true)
    case ND_FREQS => s.(freqs := items, hasFreqs := true)
    case ND_ACTIVE => s.(names := items, hasActive := true)
    case ND_PLANS => s.(plans := items, hasPlans := true)
  }

  /** The items of a block that is the first of its kind. */
  lemma OwnItems(done: seq<Clause>, p: ParseState, items: seq<Token>)
    requires !p.ND_TOPLEVEL? && FirstOfKind(p, Sum(done))
    ensures Total(done, ModeOf(p, items)) == WithItems(Sum(done), p, items)
  {
    hide Sum, Plus, Seen, Delayed;
    PlusBlock(Sum(done), ModeOf(p, items).key, items);
    SumRemembers(done);
    assert [] + items == items;
  }

  lemma FitsMatch(i: nat, l: Locals, w: Written, base: Attrs, done: seq<Clause>, items: seq<Token>, t: Token)
    requires Fits(ND_MATCH, i, l, w, base, done, items)
    ensures Fits(ND_MATCH, i + 1, l.(haveMatchset := true), w.(matchset := w.matchset + [MatchAttr(i, t)]), base,
          done, items + [t])
  {
    hide Sum, Total, MatchAttrs, FreqAttrs, SsidAttrs, PlanAttrs, MatchAttr, FreqAttr, PlanAttr;
    OwnItems(done, ND_MATCH, items);
    OwnItems(done, ND_MATCH, items + [t]);
    AttrsSnoc(items, t);
  }

  lemma FitsFreq(i: nat, l: Locals, w: Written, base: Attrs, done: seq<Clause>, items: seq<Token>, t: Token)
    requires Fits(ND_FREQS, i, l, w, base, done, items)
    ensures Fits(ND_FREQS, i + 1, l, w.(freqs := w.freqs + [FreqAttr(i, t)]), base, done, items + [t])
  {
    hide Sum, Total, MatchAttrs, FreqAttrs, SsidAttrs, PlanAttrs, MatchAttr, FreqAttr, PlanAttr;
    OwnItems(done, ND_FREQS, items);
    OwnItems(done, ND_FREQS, items + [t]);
    AttrsSnoc(items, t);
  }

  lemma FitsSsid(i: nat, l: Locals, w: Written, base: Attrs, done: seq<Clause>, items: seq<Token>, t: Token)
    requires Fits(ND_ACTIVE, i, l, w, base, done, items)
    ensures Fits(ND_ACTIVE, i + 1, l.(haveSsids := true), w.(ssids := w.ssids + [Leaf(MATCH_SSID, Text(t))]), base,
          done, items + [t])
  {
    hide Sum, Total, MatchAttrs, FreqAttrs, SsidAttrs, PlanAttrs, MatchAttr, FreqAttr, PlanAttr;
    OwnItems(done, ND_ACTIVE, items);
    OwnItems(done, ND_ACTIVE, items + [t]);
    AttrsSnoc(items, t);
  }

  /** A plan overwrites the interval, which no longer matters. */
  lemma FitsPlan(i: nat, l: Locals, w: Written, base: Attrs, done: seq<Clause>, items: seq<Token>, t: Token,
      interval: nat)
    requires Fits(ND_PLANS, i, l, w, base, done, items)
    ensures Fits(ND_PLANS, i + 1, l.(interval := interval), w.(scanPlans := w.scanPlans + [PlanAttr(i, t)]), base,
          done, items + [t])
  {
    hide Sum, Total, MatchAttrs, FreqAttrs, SsidAttrs, PlanAttrs, MatchAttr, FreqAttr, PlanAttr;
    OwnItems(done, ND_PLANS, items);
    OwnItems(done, ND_PLANS, items + [t]);
    AttrsSnoc(items, t);
  }

  // Entering a block, and the clauses that are not blocks.

  lemma FitsOpened(i: nat, l: Locals, w: Written, base: Attrs, done: seq<Clause>, p: ParseState)
    requires Fits(ND_TOPLEVEL, i, l, w, base, done, [])
    requires !p.ND_TOPLEVEL? && Allowed(done, KindOf(Word(ModeOf(p, []).key)))
    ensures Fits(p, 0, Enter(l, p), w, base, done, [])
  {
    hide Sum, Total, NothingUnseen;
    SumRemembers(done);
    OwnItems(done, p, []);
    TopTotal(done);
    NothingIn(Sum(done), p);
  }

  function Enter(l: Locals, p: ParseState): Locals {
    match p
    case ND_FREQS => l.(haveFreqs := true)
    case ND_ACTIVE => l.(haveActive := true)
    case ND_PLANS => l.(havePlans := true)
    case _ => l
  }

  lemma TopTotal(done: seq<Clause>)
    ensures Total(done, Top) == Sum(done)
  {
  }

  lemma NothingIn(s: Summary, p: ParseState)
    requires NothingUnseen(s) && FirstOfKind(p, s)
    ensures p.ND_MATCH? ==> s.matches == []
    ensures p.ND_FREQS? ==> s.freqs == []
    ensures p.ND_ACTIVE? ==> s.names == []
    ensures p.ND_PLANS? ==> s.plans == []
  {
  }

  /** A clause that is not a block. */
  function After(l: Locals, c: Clause): Locals {
    match c
    case Setting(Interval, Number(_, n)) => l.(interval := n)
    case Setting(Delay, Number(_, n)) => l.(delay := n)
    case Word(Passive) => l.(havePassive := true)
    case Word(t) => l.(flags := l.flags + FlagOf(t))
    case _ => l
  }

  lemma FitsAfter(i: nat, l: Locals, w: Written, base: Attrs, done: seq<Clause>, c: Clause)
    requires Fits(ND_TOPLEVEL, i, l, w, base, done, [])
    requires !c.Block? && Good(c) && Allowed(done, KindOf(c))
    ensures Fits(ND_TOPLEVEL, i, After(l, c), w.(msg := w.msg + DirectOf(c)), base, done + [c], [])
  {
    hide Sum, Total, Plus, Allowed, FlagOf, DirectOf, MatchAttrs, FreqAttrs, SsidAttrs, PlanAttrs, After, Matching;
    var s := Sum(done);
    SumRemembers(done);
    SumSnoc(done, c);
    TopTotal(done);
    TopTotal(done + [c]);
    PlusPlain(s, c);
    RemembersAfter(l, s, done, c);
    assert base + s.direct + DirectOf(c) == base + (s.direct + DirectOf(c));
  }

  lemma RemembersAfter(l: Locals, s: Summary, done: seq<Clause>, c: Clause)
    requires Remembers(l, s) && Matching(s, done)
    requires !c.Block? && Good(c) && Allowed(done, KindOf(c))
    ensures Remembers(After(l, c), Plus(s, c)) && After(l, c).haveMatchset == l.haveMatchset
  {
    hide DirectOf, Seen, Delayed, ItemsOf, KindOf;
    KindOfKey(c);
    PlusPlain(s, c);
  }

  lemma PlusPlain(s: Summary, c: Clause)
    requires !c.Block? && Good(c)
    ensures var t := Plus(s, c);
            && t.direct == s.direct + DirectOf(c) && t.hasMatches == s.hasMatches
            && t.matches == s.matches && t.freqs == s.freqs && t.names == s.names && t.plans == s.plans
  {
    hide DirectOf, FlagOf;
  }

  /** The tests at the top level reject exactly what the rules reject. */
  lemma TopRejects(i: nat, l: Locals, w: Written, base: Attrs, done: seq<Clause>)
    requires Fits(ND_TOPLEVEL, i, l, w, base, done, [])
    ensures Allowed(done, Schedule) <==> !(l.interval != 0 || l.havePlans)
    ensures Allowed(done, Delays) <==> l.delay == 0
    ensures Allowed(done, MatchSet) <==> !l.haveMatchset
    ensures Allowed(done, FreqSet) <==> !l.haveFreqs
    ensures Allowed(done, Probing) <==> !(l.haveActive || l.havePassive)
    ensures Allowed(done, Repeatable)
  {
    hide Sum, Total, Seen, Delayed;
    SumRemembers(done);
    TopTotal(done);
  }

  lemma FitsCounts(p: ParseState, i: nat, l: Locals, w: Written, base: Attrs, done: seq<Clause>, items: seq<Token>)
    requires Fits(p, i, l, w, base, done, items) && !p.ND_TOPLEVEL?
    ensures i == |items|
  {
  }

  // ----- Writing one entry

  method PutMatch(matchset: Message<Value>, i: nat, name: Token)
    modifies matchset
    ensures matchset.outer == old(matchset.outer) && matchset.attrs == old(matchset.attrs) + [MatchAttr(i, name)]
  {
    var match_ := matchset.NestStart(Index(i));
    matchset.Put(MATCH_SSID, Text(name));
    assert matchset.attrs == [Leaf(MATCH_SSID, Text(name))];
    matchset.NestEnd(match_);
  }

  method PutPlan(scanPlans: Message<Value>, i: nat, interval: nat, iterations: nat, ghost t: Token)
    requires (t.Number? && t.n == interval && iterations == 0)
          || (Repeats(t) && t.interval == interval && t.iterations.value == iterations)
    modifies scanPlans
    ensures scanPlans.outer == old(scanPlans.outer) && scanPlans.attrs == old(scanPlans.attrs) + [PlanAttr(i, t)]
  {
    var plan := scanPlans.NestStart(Index(i + 1));
    scanPlans.Put(PLAN_INTERVAL, U32(interval));
    if iterations != 0 {
      scanPlans.Put(PLAN_ITERATIONS, U32(iterations));
      assert scanPlans.attrs == [Leaf(PLAN_INTERVAL, U32(interval)), Leaf(PLAN_ITERATIONS, U32(iterations))];
    } else {
      assert scanPlans.attrs == [Leaf(PLAN_INTERVAL, U32(interval))];
    }
    scanPlans.NestEnd(plan);
  }

  // ----- The loop

  /** A run of parse_sched_scan. `done` and `items` are what it has read: clauses, and the items of an open block. */
  class Parser {
    const argv: seq<Token>
    const msg: Message<Value>
    const matchset: Message<Value>
    const freqs: Message<Value>
    const ssids: Message<Value>
    const scanPlans: Message<Value>
    var pos: nat
    var parseState: ParseState
    var i: nat
    var l: Locals
    ghost const base: Attrs
    ghost const nests: seq<Open<Value>>
    ghost var done: seq<Clause>
    ghost var items: seq<Token>

    /** What the rest of the run will come to. */
    ghost function Outcome(): Result
      requires pos <= |argv|
      reads this
    {
      Run(done, ModeOf(parseState, items), argv[pos..])
    }

    ghost function Contents(): Written
      reads this, msg, matchset, freqs, ssids, scanPlans
    {
      Written(msg.attrs, matchset.attrs, freqs.attrs, ssids.attrs, scanPlans.attrs)
    }

    ghost predicate Apart()
      reads msg, matchset, freqs, ssids, scanPlans
    {
      && msg != matchset && msg != freqs && msg != ssids && msg != scanPlans
      && matchset != freqs && matchset != ssids && matchset != scanPlans
      && freqs != ssids && freqs != scanPlans && ssids != scanPlans
      && msg.outer == nests
      && matchset.outer == [] && freqs.outer == [] && ssids.outer == [] && scanPlans.outer == []
    }

    ghost predicate Valid()
      reads this, msg, matchset, freqs, ssids, scanPlans
    {
      pos <= |argv| && Apart() && Fits(parseState, i, l, Contents(), base, done, items)
    }

    constructor (msg: Message<Value>, argv: seq<Token>)
      ensures this.argv == argv && this.msg == msg && base == msg.attrs && nests == msg.outer
      ensures Valid() && pos == 0 && done == [] && items == [] && parseState == ND_TOPLEVEL
      ensures fresh(this) && fresh(matchset) && fresh(freqs) && fresh(ssids) && fresh(scanPlans)
    {
      var m1 := new Message<Value>();
      var m2 := new Message<Value>();
      var m3 := new Message<Value>();
      var m4 := new Message<Value>();
      this.msg, this.argv := msg, argv;
      matchset, freqs, ssids, scanPlans := m1, m2, m3, m4;
      pos, parseState, i := 0, ND_TOPLEVEL, 0;
      l := Locals(0, 0, false, false, false, false, false, false, {});
      done, items := [], [];
      base, nests := msg.attrs, msg.outer;
      new;
      hide Fits;
      FitsAtStart(0, Contents());
    }

    ghost predicate Advanced(from: nat)
      reads this
    {
      pos > from || (pos == from && parseState.ND_TOPLEVEL?)
    }

    /** Falls back to the top level without consuming anything. */
    method CloseBlock()
      requires Valid() && !parseState.ND_TOPLEVEL? && items != []
      modifies `parseState, `done, `items
      ensures Valid() && parseState.ND_TOPLEVEL? && items == []
      ensures done == old(done) + [Block(ModeOf(old(parseState), old(items)).key, old(items))]
    {
      hide Fits;
      FitsClosed(parseState, i, l, Contents(), base, done, items);
      done := done + [Block(ModeOf(parseState, items).key, items)];
      items := [];
      parseState := ND_TOPLEVEL;
    }

    method StepMatch() returns (err: int)
      requires Valid() && parseState.ND_MATCH? && pos < |argv|
      modifies this, matchset
      ensures err != 0 ==> old(Outcome()) == Failed(err)
      ensures err == 0 ==> Valid() && Outcome() == old(Outcome()) && Advanced(old(pos))
      ensures pos <= |argv|
    {
      hide Run, Fits, MatchAttr;
      BlockRuns(done, Matches, items, argv, pos);
      FitsCounts(parseState, i, l, Contents(), base, done, items);
      if argv[pos].Ssid? {
        pos := pos + 1;
        if pos == |argv| {
          return EINVAL;
        }
        FitsMatch(i, l, Contents(), base, done, items, argv[pos]);
        PutMatch(matchset, i, argv[pos]);
        l := l.(haveMatchset := true);
        i := i + 1;
        items := items + [argv[pos]];
        pos := pos + 1;
      } else {
        if i == 0 {
          return EINVAL;
        }
        CloseBlock();
      }
      err := 0;
    }

    method StepFreqs() returns (err: int)
      requires Valid() && parseState.ND_FREQS? && pos < |argv|
      modifies this, freqs
      ensures err != 0 ==> old(Outcome()) == Failed(err)
      ensures err == 0 ==> Valid() && Outcome() == old(Outcome()) && Advanced(old(pos))
      ensures pos <= |argv|
    {
      hide Run, Fits;
      BlockRuns(done, Freqs, items, argv, pos);
      FitsCounts(parseState, i, l, Contents(), base, done, items);
      if argv[pos].Number? {
        FitsFreq(i, l, Contents(), base, done, items, argv[pos]);
        freqs.Put(Index(i), U32(argv[pos].n));
        i := i + 1;
        items := items + [argv[pos]];
        pos := pos + 1;
      } else {
        if i == 0 {
          return EINVAL;
        }
        CloseBlock();
      }
      err := 0;
    }

    method StepActive() returns (err: int)
      requires Valid() && parseState.ND_ACTIVE? && pos < |argv|
      modifies this, ssids
      ensures err != 0 ==> old(Outcome()) == Failed(err)
      ensures err == 0 ==> Valid() && Outcome() == old(Outcome()) && Advanced(old(pos))
      ensures pos <= |argv|
    {
      hide Run, Fits;
      BlockRuns(done, Active, items, argv, pos);
      FitsCounts(parseState, i, l, Contents(), base, done, items);
      if argv[pos].Ssid? {
        pos := pos + 1;
        if pos == |argv| {
          return EINVAL;
        }
        FitsSsid(i, l, Contents(), base, done, items, argv[pos]);
        ssids.Put(MATCH_SSID, Text(argv[pos]));
        l := l.(haveSsids := true);
        i := i + 1;
        items := items + [argv[pos]];
        pos := pos + 1;
      } else {
        if i == 0 {
          return EINVAL;
        }
        CloseBlock();
      }
      err := 0;
    }
  
    method StepPlans() returns (err: int)
      requires Valid() && parseState.ND_PLANS? && pos < |argv|
      modifies this, scanPlans
      ensures err != 0 ==> old(Outcome()) == Failed(err)
      ensures err == 0 ==> Valid() && Outcome() == old(Outcome()) && Advanced(old(pos))
      ensures pos <= |argv|
    {
      hide Run, Fits, PlanAttr;
      BlockRuns(done, ScanPlans, items, argv, pos);
      var t := argv[pos];
      var iterations := 0;
      match t {
        case Number(_, n) =>
          l := l.(interval := n);
        case Colon(_, n, times) =>
          l := l.(interval := n);
          if times.None? || times.value == 0 {
            return EINVAL;
          }
          iterations := times.value;
        case _ =>
          return EINVAL;
      }
      FitsPlan(i, old(l), Contents(), base, done, items, t, l.interval);
      PutPlan(scanPlans, i, l.interval, iterations, t);
      items := items + [t];
      i := i + 1;
      pos := pos + 1;
      if iterations == 0 {
        CloseBlock();
      }
      err := 0;
    }

    // The branches of ND_TOPLEVEL

    method TopInterval() returns (err: int)
      requires Valid() && parseState.ND_TOPLEVEL? && items == [] && pos < |argv| && argv[pos].Interval?
      modifies this, msg
      ensures err != 0 ==> old(Outcome()) == Failed(err)
      ensures err == 0 ==> Valid() && Outcome() == old(Outcome()) && pos > old(pos)
      ensures pos <= |argv| && msg.outer == nests
    {
      hide Run, Fits, Allowed;
      SettingRuns(done, argv, pos);
      TopRejects(i, l, Contents(), base, done);
      pos := pos + 1;
      if pos == |argv| {
        return EINVAL;
      }
      if l.interval != 0 || l.havePlans {
        return EINVAL;
      }
      if !argv[pos].Number? || argv[pos].n == 0 {
        return EINVAL;
      }
      ghost var c := Setting(Interval, argv[pos]);
      FitsAfter(i, l, Contents(), base, done, c);
      l := l.(interval := argv[pos].n);
      msg.Put(SCHED_SCAN_INTERVAL, U32(l.interval));
      done := done + [c];
      pos := pos + 1;
      err := 0;
    }

    method TopDelay() returns (err: int)
      requires Valid() && parseState.ND_TOPLEVEL? && items == [] && pos < |argv| && argv[pos].Delay?
      modifies this, msg
      ensures err != 0 ==> old(Outcome()) == Failed(err)
      ensures err == 0 ==> Valid() && Outcome() == old(Outcome()) && pos > old(pos)
      ensures pos <= |argv| && msg.outer == nests
    {
      hide Run, Fits, Allowed;
      SettingRuns(done, argv, pos);
      TopRejects(i, l, Contents(), base, done);
      pos := pos + 1;
      if pos == |argv| {
        return EINVAL;
      }
      if l.delay != 0 {
        return EINVAL;
      }
      if !argv[pos].Number? {
        return EINVAL;
      }
      ghost var c := Setting(Delay, argv[pos]);
      FitsAfter(i, l, Contents(), base, done, c);
      l := l.(delay := argv[pos].n);
      msg.Put(SCHED_SCAN_DELAY, U32(l.delay));
      done := done + [c];
      pos := pos + 1;
      err := 0;
    }

    method TopBlock() returns (err: int)
      requires Valid() && parseState.ND_TOPLEVEL? && items == [] && pos < |argv| && IsBlockKey(argv[pos])
      modifies this
      ensures err != 0 ==> old(Outcome()) == Failed(err)
      ensures err == 0 ==> Valid() && Outcome() == old(Outcome()) && pos > old(pos)
      ensures pos <= |argv| && msg.outer == nests
    {
      hide Run, Fits, Allowed;
      KeyRuns(done, argv, pos);
      TopRejects(i, l, Contents(), base, done);
      match argv[pos] {
        case ScanPlans =>
          parseState := ND_PLANS;
          if l.havePlans || l.interval != 0 {
            return EINVAL;
          }
          l := l.(havePlans := true);
        case Matches =>
          parseState := ND_MATCH;
          if l.haveMatchset {
            return EINVAL;
          }
        case Freqs =>
          parseState := ND_FREQS;
          if l.haveFreqs {
            return EINVAL;
          }
          l := l.(haveFreqs := true);
        case Active =>
          parseState := ND_ACTIVE;
          if l.haveActive || l.havePassive {
            return EINVAL;
          }
          l := l.(haveActive := true);
      }
      FitsOpened(old(i), old(l), Contents(), base, done, parseState);
      i := 0;
      pos := pos + 1;
      err := 0;
    }

    method TopPassive() returns (err: int)
      requires Valid() && parseState.ND_TOPLEVEL? && items == [] && pos < |argv| && argv[pos].Passive?
      modifies this
      ensures err != 0 ==> old(Outcome()) == Failed(err)
      ensures err == 0 ==> Valid() && Outcome() == old(Outcome()) && pos > old(pos)
      ensures pos <= |argv| && msg.outer == nests
    {
      hide Run, Fits, Allowed;
      KeyRuns(done, argv, pos);
      TopRejects(i, l, Contents(), base, done);
      if l.haveActive || l.havePassive {
        return EINVAL;
      }
      FitsAfter(i, l, Contents(), base, done, Word(argv[pos]));
      assert msg.attrs + [] == msg.attrs;
      l := l.(havePassive := true);
      done := done + [Word(argv[pos])];
      pos := pos + 1;
      err := 0;
    }

    method TopRandomise() returns (err: int)
      requires Valid() && parseState.ND_TOPLEVEL? && items == [] && pos < |argv| && argv[pos].Randomise?
      modifies this, msg
      ensures err != 0 ==> old(Outcome()) == Failed(err)
      ensures err == 0 ==> Valid() && Outcome() == old(Outcome()) && pos > old(pos)
      ensures pos <= |argv| && msg.outer == nests
    {
      hide Run, Fits, Allowed;
      KeyRuns(done, argv, pos);
      TopRejects(i, l, Contents(), base, done);
      l := l.(flags := l.flags + {RANDOM_ADDR});
      err := ParseRandomMacAddr(msg, argv[pos].mac);
      if err != 0 {
        return;
      }
      FitsAfter(i, old(l), old(Contents()), base, done, Word(argv[pos]));
      done := done + [Word(argv[pos])];
      pos := pos + 1;
    }

    method TopFlag() returns (err: int)
      requires Valid() && parseState.ND_TOPLEVEL? && items == [] && pos < |argv|
            && (argv[pos].Coloc? || argv[pos].Flush?)
      modifies this
      ensures err == 0 && Valid() && Outcome() == old(Outcome()) && pos > old(pos)
      ensures pos <= |argv| && msg.outer == nests
    {
      hide Run, Fits, Allowed;
      KeyRuns(done, argv, pos);
      TopRejects(i, l, Contents(), base, done);
      FitsAfter(i, l, Contents(), base, done, Word(argv[pos]));
      assert msg.attrs + [] == msg.attrs;
      l := l.(flags := l.flags + {if argv[pos].Coloc? then COLOCATED_6GHZ else FLUSH});
      done := done + [Word(argv[pos])];
      pos := pos + 1;
      err := 0;
    }
  
    /** One turn of the loop; `stop` when the argument at the top level is not one of these. */
    method Step() returns (err: int, stop: bool)
      requires Valid() && pos < |argv|
      modifies this, msg, matchset, freqs, ssids, scanPlans
      ensures err != 0 ==> old(Outcome()) == Failed(err)
      ensures err == 0 && !stop ==>
        && Valid() && Outcome() == old(Outcome())
        && Advanced(old(pos)) && (pos == old(pos) ==> !old(parseState).ND_TOPLEVEL?)
      ensures err == 0 && stop ==>
        && Valid() && pos < |argv| && parseState.ND_TOPLEVEL?
        && old(Outcome()) == Parsed(done, argv[pos..])
      ensures msg.outer == nests && pos <= |argv|
    {
      hide Run, Fits, Continues, Named;
      stop := false;
      match parseState {
        case ND_MATCH => err := StepMatch();
        case ND_FREQS => err := StepFreqs();
        case ND_ACTIVE => err := StepActive();
        case ND_PLANS => err := StepPlans();
        case ND_TOPLEVEL =>
          err, stop := StepTop();
      }
    }

    method StepTop() returns (err: int, stop: bool)
      requires Valid() && parseState.ND_TOPLEVEL? && pos < |argv|
      modifies this, msg
      ensures err != 0 ==> old(Outcome()) == Failed(err)
      ensures err == 0 && !stop ==> Valid() && Outcome() == old(Outcome()) && pos > old(pos)
      ensures err == 0 && stop ==>
        && Valid() && pos < |argv| && parseState.ND_TOPLEVEL?
        && old(Outcome()) == Parsed(done, argv[pos..])
      ensures msg.outer == nests && pos <= |argv|
    {
      hide Run, Fits;
      TopHasNoItems(parseState, i, l, Contents(), base, done, items);
      stop := false;
      var t := argv[pos];
      if t.Interval? {
        err := TopInterval();
      } else if t.Delay? {
        err := TopDelay();
      } else if IsBlockKey(t) {
        err := TopBlock();
      } else if t.Passive? {
        err := TopPassive();
      } else if t.Randomise? {
        err := TopRandomise();
      } else if t.Coloc? || t.Flush? {
        err := TopFlag();
      } else {
        KeyRuns(done, argv, pos);
        err, stop := 0, true;
      }
    }

    /** What is put into the message when the arguments have run out. */
    method Finish()
      requires Valid()
      modifies `l, msg, ssids
      ensures msg.outer == nests && msg.attrs == base + Meaning(SoFar(done, ModeOf(parseState, items)), true)
    {
      ghost var cs := SoFar(done, ModeOf(parseState, items));
      ghost var s := Sum(cs);
      TotalIsSum(done, ModeOf(parseState, items));
      hide Sum, MatchAttrs, FreqAttrs, SsidAttrs, PlanAttrs, Total, SoFar;
      if !l.haveSsids {
        EmptyAttrs();
        ssids.Put(MATCH_SSID, NoText);
        assert ssids.attrs == [Leaf(MATCH_SSID, NoText)];
      }
      if !l.havePassive {
        msg.PutNested(SCAN_SSIDS, ssids);
      }
      assert msg.attrs == base + s.direct + SsidsPart(s);
      FinishRest(s);
    }

    method FinishRest(ghost s: Summary)
      requires Apart() && Remembers(l, s)
      requires freqs.attrs == FreqAttrs(s.freqs) && matchset.attrs == MatchAttrs(s.matches)
      requires scanPlans.attrs == PlanAttrs(s.plans)
      requires msg.attrs == base + s.direct + SsidsPart(s)
      modifies `l, msg
      ensures msg.outer == nests && msg.attrs == base + (s.direct + AtEnd(s))
    {
      hide SsidsPart, MatchAttrs, FreqAttrs, PlanAttrs;
      ghost var b := old(msg.attrs);
      assert s.flags + {} == s.flags;
      if l.haveFreqs {
        msg.PutNested(SCAN_FREQUENCIES, freqs);
      } else {
        l := l.(flags := l.flags + {COLOCATED_6GHZ});
      }
      assert msg.attrs == b + FreqsPart(s);
      if l.haveMatchset {
        msg.PutNested(SCHED_SCAN_MATCH, matchset);
      }
      assert msg.attrs == b + FreqsPart(s) + MatchPart(s);
      if l.havePlans {
        msg.PutNested(SCHED_SCAN_PLANS, scanPlans);
      }
      assert msg.attrs == b + FreqsPart(s) + MatchPart(s) + PlansPart(s);
      if l.flags != {} {
        msg.Put(SCAN_FLAGS, Flags(l.flags));
      }
      assert msg.attrs == b + FreqsPart(s) + MatchPart(s) + PlansPart(s) + FlagsPart(s);
      Associate(base, s.direct, SsidsPart(s), FreqsPart(s), MatchPart(s), PlansPart(s), FlagsPart(s));
    }
  }

  lemma Associate(a: Attrs, b: Attrs, c: Attrs, d: Attrs, e: Attrs, f: Attrs, g: Attrs)
    ensures a + b + c + d + e + f + g == a + (b + (c + d + e + f + g))
  {
  }

  lemma EmptyAttrs()
    ensures SsidAttrs([]) == []
  {
  }

  lemma TotalIsSum(done: seq<Clause>, mode: Mode)
    ensures Total(done, mode) == Sum(SoFar(done, mode))
  {
    if mode.In? { SumSnoc(done, Block(mode.key, mode.items)); }
  }

  lemma TopHasNoItems(p: ParseState, i: nat, l: Locals, w: Written, base: Attrs, done: seq<Clause>, items: seq<Token>)
    requires Fits(p, i, l, w, base, done, items) && p.ND_TOPLEVEL?
    ensures items == []
  {
  }

  /**
   parse_sched_scan, returning where it left `argv`. When it stops at an argument it does not know,
   what it collected in the scratch messages is lost.
   */
  method ParseSchedScan(msg: Message<Value>, argv: seq<Token>) returns (err: int, pos: nat)
    modifies msg
    ensures msg.outer == old(msg.outer) && pos <= |argv|
    ensures match Run([], Top, argv)
            case Failed(e) => err == e
            case Parsed(cs, rest) =>
              && err == 0 && argv[pos..] == rest
              && msg.attrs == old(msg.attrs) + Meaning(cs, rest == [])
  {
    hide Run, Fits, Meaning;
    var p := new Parser(msg, argv);
    var stop := false;
    assert argv[0..] == argv;
    while p.pos < |argv|
      invariant p.msg == msg && p.argv == argv && p.base == old(msg.attrs) && p.nests == old(msg.outer)
      invariant fresh(p) && fresh(p.matchset) && fresh(p.freqs) && fresh(p.ssids) && fresh(p.scanPlans)
      invariant p.Valid() && p.Outcome() == Run([], Top, argv)
      decreases |argv| - p.pos, !p.parseState.ND_TOPLEVEL?
    {
      err, stop := p.Step();
      if err != 0 {
        return err, p.pos;
      }
      if stop {
        DirectMeaning(p.parseState, p.i, p.l, p.Contents(), p.base, p.done, p.items);
        return 0, p.pos;
      }
    }
    EndRuns(p.done, ModeOf(p.parseState, p.items));
    assert argv[p.pos..] == [];
    p.Finish();
    return 0, p.pos;
  }

  lemma EndRuns(done: seq<Clause>, mode: Mode)
    ensures Run(done, mode, []) == Parsed(SoFar(done, mode), [])
  {
  }

  lemma DirectMeaning(p: ParseState, i: nat, l: Locals, w: Written, base: Attrs, done: seq<Clause>, items: seq<Token>)
    requires Fits(p, i, l, w, base, done, items) && p.ND_TOPLEVEL?
    ensures w.msg == base + Meaning(done, false)
  {
    hide Sum;
    TopTotal(done);
    assert Sum(done).direct + [] == Sum(done).direct;
  }

  /** parse_random_mac_addr of iw/util.c, given what it reads after "randomise". */
  method ParseRandomMacAddr(msg: Message<Value>, mac: Option<(nat, nat)>) returns (err: int)
    modifies msg
    ensures msg.outer == old(msg.outer)
    ensures mac.None? ==> err == 1
    ensures mac.Some? ==>
      && err == 0
      && msg.attrs == old(msg.attrs) + [Leaf(MAC, Mac(mac.value.0)), Leaf(MAC_MASK, Mac(mac.value.1))]
  {
    if mac.None? {
      return 1;
    }
    msg.Put(MAC, Mac(mac.value.0));
    msg.Put(MAC_MASK, Mac(mac.value.1));
    err := 0;
  }
}
