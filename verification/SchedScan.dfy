/**
 The language parse_sched_scan of iw/scan.c accepts. `Run` is the function's state machine as a
 recursion; `Sentence` says independently which token sequences are accepted and how they split
 into clauses; the theorems connect the two.
 */
module SchedScan {
  import opened Netlink
  import opened Wrappers

  type U32 = n: nat | n < 0x1_0000_0000

  const EINVAL: int := -22

  /** An argument with what the source reads in it; arguments it tells apart by prefix keep their text. */
  datatype Token =
    | Interval | ScanPlans | Delay | Matches | Freqs | Active | Passive | Ssid
    | Randomise(text: string, mac: Option<(nat, nat)>)               // the address and mask after "randomise"
    | Coloc(text: string) | Flush(text: string)
    | Number(text: string, n: U32)                                   // strtoul reads the whole text
    | Colon(text: string, interval: U32, iterations: Option<U32>)    // strtoul stops at ':', then reads the rest or not
    | Trigger(name: string) | Tcp | Patterns | NetDetect             // words of the wowlan command
    | Other(text: string)

  datatype Clause =
    | Word(token: Token)
    | Setting(key: Token, value: Token)
    | Block(key: Token, items: seq<Token>)

  /** At most one clause of a kind is allowed, but for delays and repeatable words. */
  datatype Kind = Schedule | Delays | MatchSet | FreqSet | Probing | Repeatable | Foreign

  predicate IsBlockKey(t: Token) { t.ScanPlans? || t.Matches? || t.Freqs? || t.Active? }

  predicate IsSettingKey(t: Token) { t.Interval? || t.Delay? }

  predicate IsWord(t: Token) { t.Passive? || t.Randomise? || t.Coloc? || t.Flush? }

  predicate IsKey(t: Token) { IsBlockKey(t) || IsSettingKey(t) || IsWord(t) }

  function KeyOf(c: Clause): Token { if c.Word? then c.token else c.key }

  function KindOf(c: Clause): Kind {
    match KeyOf(c)
    case Interval | ScanPlans => Schedule
    case Delay => Delays
    case Matches => MatchSet
    case Freqs => FreqSet
    case Active | Passive => Probing
    case Randomise(_, _) | Coloc(_) | Flush(_) => Repeatable
    case _ => Foreign
  }

  // ----- Sentences

  /** A plan that is repeated a given number of times, so that another plan follows. */
  predicate Repeats(t: Token) { t.Colon? && t.iterations.Some? && t.iterations.value > 0 }

  predicate Named(key: Token) { key.Matches? || key.Active? }

  /** `t` can stand in the block, and more may follow. */
  predicate Continues(key: Token, t: Token) {
    match key
    case Matches | Active => t.Ssid?
    case Freqs => t.Number?
    case ScanPlans => Repeats(t)
    case _ => false
  }

  predicate GoodItems(key: Token, items: seq<Token>) {
    match key
    case Matches | Active => true
    case Freqs => forall i | 0 <= i < |items| :: items[i].Number?
    case ScanPlans =>
      && (forall i | 0 <= i < |items| - 1 :: Repeats(items[i]))
      && (items != [] ==> var t := items[|items| - 1]; t.Number? || Repeats(t))
    case _ => false
  }

  predicate Good(c: Clause) {
    match c
    case Word(t) => IsWord(t) && (t.Randomise? ==> t.mac.Some?)
    case Setting(k, v) => IsSettingKey(k) && v.Number? && (k.Interval? ==> v.n > 0)
    case Block(k, items) => IsBlockKey(k) && GoodItems(k, items)
  }

  /** Complete as documented: blocks have an item, and a plan list ends in a plan without iterations. */
  predicate Closed(c: Clause) {
    c.Block? ==> c.items != [] && (c.key.ScanPlans? ==> c.items[|c.items| - 1].Number?)
  }

  predicate Seen(done: seq<Clause>, k: Kind) {
    exists i | 0 <= i < |done| :: KindOf(done[i]) == k
  }

  predicate Delayed(done: seq<Clause>) {
    exists i | 0 <= i < |done| :: DelayAtLeastOne(done[i])
  }

  predicate DelayAtLeastOne(c: Clause) {
    c.Setting? && c.key.Delay? && c.value.Number? && c.value.n > 0
  }

  predicate Allowed(done: seq<Clause>, k: Kind) {
    match k
    case Repeatable => true
    case Delays => !Delayed(done)
    case _ => !Seen(done, k)
  }

  predicate Valid(cs: seq<Clause>) {
    && (forall i | 0 <= i < |cs| :: Good(cs[i]))
    && (forall i | 0 <= i < |cs| :: Allowed(cs[..i], KindOf(cs[i])))
    && (forall i | 0 <= i < |cs| - 1 :: Closed(cs[i]))
  }

  function Spread(items: seq<Token>): seq<Token> {
    if items == [] then [] else [Ssid, items[0]] + Spread(items[1..])
  }

  function RenderItems(key: Token, items: seq<Token>): seq<Token> {
    if Named(key) then Spread(items) else items
  }

  function Render(c: Clause): seq<Token> {
    match c
    case Word(t) => [t]
    case Setting(k, v) => [k, v]
    case Block(k, items) => [k] + RenderItems(k, items)
  }

  function RenderAll(cs: seq<Clause>): seq<Token> {
    if cs == [] then [] else RenderAll(cs[..|cs| - 1]) + Render(cs[|cs| - 1])
  }

  /** Reading stops after `cs`: the arguments end, or the next one is for somebody else. */
  predicate Stops(cs: seq<Clause>, rest: seq<Token>) {
    rest != [] ==>
      !IsKey(rest[0]) && (cs != [] ==> var c := cs[|cs| - 1]; Closed(c) && !Absorbs(c, rest[0]))
  }

  predicate Absorbs(c: Clause, t: Token) {
    c.Block? && !c.key.ScanPlans? && Continues(c.key, t)
  }

  predicate Sentence(tokens: seq<Token>, cs: seq<Clause>, rest: seq<Token>) {
    Valid(cs) && Stops(cs, rest) && tokens == RenderAll(cs) + rest
  }

  // ----- The state machine

  datatype Mode = Top | In(key: Token, items: seq<Token>)

  datatype Result = Failed(err: int) | Parsed(clauses: seq<Clause>, rest: seq<Token>)

  /**
   From a state with clauses `done` and the arguments `tokens` left. Falling back to the top level
   consumes nothing, so what decreases is the arguments left, and then not being at the top level.
   */
  function Run(done: seq<Clause>, mode: Mode, tokens: seq<Token>): (r: Result)
    ensures if r.Failed? then r.err != 0 else |r.rest| <= |tokens|
    decreases |tokens|, if mode.Top? then 0 else 1, 1
  {
    if tokens == [] then Parsed(SoFar(done, mode), [])
    else if mode.Top? then RunTop(done, tokens)
    else RunIn(done, mode.key, mode.items, tokens)
  }

  function SoFar(done: seq<Clause>, mode: Mode): seq<Clause> {
    if mode.Top? then done else done + [Block(mode.key, mode.items)]
  }

  function RunTop(done: seq<Clause>, tokens: seq<Token>): (r: Result)
    requires tokens != []
    ensures if r.Failed? then r.err != 0 else |r.rest| <= |tokens|
    decreases |tokens|, 0, 0
  {
    var t := tokens[0];
    if IsSettingKey(t) then
      if |tokens| == 1 || !Allowed(done, KindOf(Setting(t, t))) || !Good(Setting(t, tokens[1])) then Failed(EINVAL)
      else Run(done + [Setting(t, tokens[1])], Top, tokens[2..])
    else if IsBlockKey(t) then
      if !Allowed(done, KindOf(Word(t))) then Failed(EINVAL)
      else Run(done, In(t, []), tokens[1..])
    else if IsWord(t) then
      if !Allowed(done, KindOf(Word(t))) then Failed(EINVAL)
      else if t.Randomise? && t.mac.None? then Failed(1)
      else Run(done + [Word(t)], Top, tokens[1..])
    else Parsed(done, tokens)
  }

  function RunIn(done: seq<Clause>, key: Token, items: seq<Token>, tokens: seq<Token>): (r: Result)
    requires tokens != []
    ensures if r.Failed? then r.err != 0 else |r.rest| <= |tokens|
    decreases |tokens|, 1, 0
  {
    var t := tokens[0];
    if Named(key) && t.Ssid? then
      if |tokens| == 1 then Failed(EINVAL)
      else Run(done, In(key, items + [tokens[1]]), tokens[2..])
    else if !Named(key) && Continues(key, t) then
      Run(done, In(key, items + [t]), tokens[1..])
    else if key.ScanPlans? then
      if t.Number? then Run(done + [Block(key, items + [t])], Top, tokens[1..]) else Failed(EINVAL)
    else if items == [] then Failed(EINVAL)
    else Run(done + [Block(key, items)], Top, tokens)
  }

  // ----- Accepted runs are sentences

  /** What holds in every state of a run. */
  predicate Ready(done: seq<Clause>, mode: Mode, tokens: seq<Token>) {
    && Valid(done)
    && (forall i | 0 <= i < |done| :: Closed(done[i]))
    && match mode
       case Top => tokens != [] && done != [] ==> !Absorbs(done[|done| - 1], tokens[0])
       case In(key, items) =>
         && IsBlockKey(key) && GoodItems(key, items) && Allowed(done, KindOf(Block(key, items)))
         && (key.ScanPlans? && items != [] ==> Repeats(items[|items| - 1]))
  }

  lemma SeenSnoc(done: seq<Clause>, c: Clause, k: Kind)
    ensures Seen(done + [c], k) <==> Seen(done, k) || KindOf(c) == k
    ensures Delayed(done + [c]) <==> Delayed(done) || DelayAtLeastOne(c)
  {
    var all := done + [c];
    assert all[|done|] == c && all[..|done|] == done;
    if Seen(done, k) {
      var i :| 0 <= i < |done| && KindOf(done[i]) == k;
      assert KindOf(all[i]) == k;
    }
    if Delayed(done) {
      var i :| 0 <= i < |done| && DelayAtLeastOne(done[i]);
      assert DelayAtLeastOne(all[i]);
    }
  }

  lemma ValidSnoc(done: seq<Clause>, c: Clause)
    requires Valid(done) && forall i | 0 <= i < |done| :: Closed(done[i])
    requires Good(c) && Allowed(done, KindOf(c))
    ensures Valid(done + [c])
  {
    hide Good, Allowed, Closed, KindOf;
    var all := done + [c];
    forall i | 0 <= i < |all| ensures Good(all[i]) && Allowed(all[..i], KindOf(all[i])) {
      if i < |done| {
        assert all[..i] == done[..i];
      } else {
        assert all[..i] == done;
      }
    }
  }

  lemma RenderSnoc(done: seq<Clause>, c: Clause)
    ensures RenderAll(done + [c]) == RenderAll(done) + Render(c)
  {
    assert (done + [c])[..|done|] == done;
  }

  lemma {:induction false} SpreadSnoc(items: seq<Token>, t: Token)
    ensures Spread(items + [t]) == Spread(items) + [Ssid, t]
  {
    if items == [] {
      assert [t][1..] == [];
    } else {
      SpreadSnoc(items[1..], t);
      assert (items + [t])[1..] == items[1..] + [t];
    }
  }

  /** What a state has consumed. */
  function Consumed(done: seq<Clause>, mode: Mode): seq<Token> {
    RenderAll(SoFar(done, mode))
  }

  lemma {:induction false} RunIsSentence(done: seq<Clause>, mode: Mode, tokens: seq<Token>)
    requires Ready(done, mode, tokens)
    ensures var r := Run(done, mode, tokens);
            r.Parsed? ==> Sentence(Consumed(done, mode) + tokens, r.clauses, r.rest)
    decreases |tokens|, if mode.Top? then 0 else 1, 1
  {
    if tokens == [] {
      if mode.In? { ValidSnoc(done, Block(mode.key, mode.items)); }
    } else if mode.Top? {
      TopIsSentence(done, tokens);
    } else {
      InIsSentence(done, mode.key, mode.items, tokens);
    }
  }

  /** One clause more. */
  lemma Step(done: seq<Clause>, c: Clause, tokens: seq<Token>, rest: seq<Token>)
    requires tokens == Render(c) + rest
    requires Valid(done) && (forall i | 0 <= i < |done| :: Closed(done[i])) && Good(c) && Allowed(done, KindOf(c))
    requires Closed(c) && (rest != [] ==> !Absorbs(c, rest[0]))
    ensures Ready(done + [c], Top, rest) && Consumed(done + [c], Top) + rest == Consumed(done, Top) + tokens
  {
    hide RenderAll, Render, Good, Allowed, Closed, Absorbs, KindOf;
    ValidSnoc(done, c);
    RenderSnoc(done, c);
    assert RenderAll(done) + Render(c) + rest == RenderAll(done) + tokens;
  }

  lemma TopIsSentence(done: seq<Clause>, tokens: seq<Token>)
    requires tokens != [] && Ready(done, Top, tokens)
    ensures var r := RunTop(done, tokens);
            r.Parsed? ==> Sentence(Consumed(done, Top) + tokens, r.clauses, r.rest)
    decreases |tokens|, 0, 0
  {
    hide Run, RenderAll, Valid, Allowed, GoodItems;
    var t := tokens[0];
    if RunTop(done, tokens).Parsed? {
      if IsSettingKey(t) {
        var c := Setting(t, tokens[1]);
        Step(done, c, tokens, tokens[2..]);
        RunIsSentence(done + [c], Top, tokens[2..]);
      } else if IsBlockKey(t) {
        OpenBlock(done, t, tokens);
        RunIsSentence(done, In(t, []), tokens[1..]);
      } else if IsWord(t) {
        Step(done, Word(t), tokens, tokens[1..]);
        RunIsSentence(done + [Word(t)], Top, tokens[1..]);
      }
    }
  }

  lemma OpenBlock(done: seq<Clause>, t: Token, tokens: seq<Token>)
    requires tokens != [] && tokens[0] == t && IsBlockKey(t)
    requires Ready(done, Top, tokens) && Allowed(done, KindOf(Word(t)))
    ensures Ready(done, In(t, []), tokens[1..])
    ensures Consumed(done, In(t, [])) + tokens[1..] == Consumed(done, Top) + tokens
  {
    hide Valid, Allowed, RenderAll;
    RenderSnoc(done, Block(t, []));
    assert RenderAll(done) + [t] + tokens[1..] == RenderAll(done) + tokens;
  }

  /** One item more in the open block; `used` are the tokens it takes. */
  lemma GrowBlock(done: seq<Clause>, key: Token, items: seq<Token>, t: Token, used: seq<Token>, rest: seq<Token>)
    requires used == if Named(key) then [Ssid, t] else [t]
    ensures Consumed(done, In(key, items + [t])) + rest == Consumed(done, In(key, items)) + (used + rest)
  {
    hide RenderAll, Spread;
    RenderSnoc(done, Block(key, items));
    RenderSnoc(done, Block(key, items + [t]));
    SpreadSnoc(items, t);
    var before, inner := RenderAll(done) + [key], RenderItems(key, items);
    assert RenderItems(key, items + [t]) == inner + used;
    assert RenderAll(done) + Render(Block(key, items)) == before + inner;
    assert RenderAll(done) + Render(Block(key, items + [t])) == before + inner + used;
    assert before + inner + used + rest == before + inner + (used + rest);
  }

  lemma InIsSentence(done: seq<Clause>, key: Token, items: seq<Token>, tokens: seq<Token>)
    requires tokens != [] && Ready(done, In(key, items), tokens)
    ensures var r := RunIn(done, key, items, tokens);
            r.Parsed? ==> Sentence(Consumed(done, In(key, items)) + tokens, r.clauses, r.rest)
    decreases |tokens|, 1, 0
  {
    hide Run, Sentence, Consumed, Ready;
    var t := tokens[0];
    if RunIn(done, key, items, tokens).Parsed? {
      if Named(key) && t.Ssid? {
        Grow(done, key, items, tokens[1], tokens, tokens[2..]);
        RunIsSentence(done, In(key, items + [tokens[1]]), tokens[2..]);
      } else if !Named(key) && Continues(key, t) {
        Grow(done, key, items, t, tokens, tokens[1..]);
        RunIsSentence(done, In(key, items + [t]), tokens[1..]);
      } else if key.ScanPlans? {
        EndPlans(done, items, t, tokens);
        RunIsSentence(done + [Block(key, items + [t])], Top, tokens[1..]);
      } else {
        Close(done, key, items, tokens);
        RunIsSentence(done + [Block(key, items)], Top, tokens);
      }
    }
  }

  lemma Grow(done: seq<Clause>, key: Token, items: seq<Token>, t: Token, tokens: seq<Token>, rest: seq<Token>)
    requires Ready(done, In(key, items), tokens)
    requires tokens == (if Named(key) then [Ssid, t] else [t]) + rest
    requires !Named(key) ==> Continues(key, t)
    ensures Ready(done, In(key, items + [t]), rest)
    ensures Consumed(done, In(key, items + [t])) + rest == Consumed(done, In(key, items)) + tokens
  {
    hide Valid, Allowed, Closed, Consumed;
    GrowBlock(done, key, items, t, if Named(key) then [Ssid, t] else [t], rest);
  }

  lemma EndPlans(done: seq<Clause>, items: seq<Token>, t: Token, tokens: seq<Token>)
    requires tokens != [] && tokens[0] == t && t.Number? && Ready(done, In(ScanPlans, items), tokens)
    ensures Ready(done + [Block(ScanPlans, items + [t])], Top, tokens[1..])
    ensures Consumed(done + [Block(ScanPlans, items + [t])], Top) + tokens[1..]
          == Consumed(done, In(ScanPlans, items)) + tokens
  {
    hide Valid, Allowed, RenderAll;
    GrowBlock(done, ScanPlans, items, t, [t], tokens[1..]);
    assert tokens == [t] + tokens[1..];
    ValidSnoc(done, Block(ScanPlans, items + [t]));
  }

  lemma Close(done: seq<Clause>, key: Token, items: seq<Token>, tokens: seq<Token>)
    requires tokens != [] && Ready(done, In(key, items), tokens)
    requires !key.ScanPlans? && items != [] && !Continues(key, tokens[0])
    ensures Ready(done + [Block(key, items)], Top, tokens)
    ensures Consumed(done + [Block(key, items)], Top) == Consumed(done, In(key, items))
  {
    hide Valid, Allowed, RenderAll;
    ValidSnoc(done, Block(key, items));
  }

  // ----- Sentences are accepted

  function ItemTokens(key: Token, t: Token): seq<Token> {
    if Named(key) then [Ssid, t] else [t]
  }

  lemma RunReadsItem(done: seq<Clause>, key: Token, before: seq<Token>, t: Token, next: seq<Token>)
    requires IsBlockKey(key) && (!Named(key) ==> Continues(key, t))
    ensures Run(done, In(key, before), ItemTokens(key, t) + next) == Run(done, In(key, before + [t]), next)
  {
    hide RunTop;
    var tokens := ItemTokens(key, t) + next;
    assert tokens[if Named(key) then 2 else 1..] == next;
  }

  lemma RenderFirst(key: Token, items: seq<Token>, more: seq<Token>)
    requires items != []
    ensures RenderItems(key, items) + more == ItemTokens(key, items[0]) + (RenderItems(key, items[1..]) + more)
  {
  }

  lemma {:induction false} ReadItems(
    done: seq<Clause>, key: Token, before: seq<Token>, items: seq<Token>, more: seq<Token>)
    requires IsBlockKey(key)
    requires !Named(key) ==> forall i | 0 <= i < |items| :: Continues(key, items[i])
    ensures Run(done, In(key, before), RenderItems(key, items) + more) == Run(done, In(key, before + items), more)
    decreases |items|
  {
    hide Run, Continues;
    if items == [] {
      assert before + items == before && RenderItems(key, items) + more == more;
    } else {
      hide RenderItems, ItemTokens;
      RenderFirst(key, items, more);
      RunReadsItem(done, key, before, items[0], RenderItems(key, items[1..]) + more);
      ReadItems(done, key, before + [items[0]], items[1..], more);
      assert before + [items[0]] + items[1..] == before + items;
    }
  }

  lemma RunOpens(done: seq<Clause>, key: Token, tokens: seq<Token>)
    requires tokens != [] && tokens[0] == key && IsBlockKey(key) && Allowed(done, KindOf(Word(key)))
    ensures Run(done, Top, tokens) == Run(done, In(key, []), tokens[1..])
  {
    hide Allowed, RunIn;
  }

  /** A block ends before what it cannot absorb, and at the end of the arguments even if incomplete. */
  lemma RunCloses(done: seq<Clause>, c: Clause, more: seq<Token>)
    requires c.Block? && IsBlockKey(c.key)
    requires more == [] || (!c.key.ScanPlans? && c.items != [] && !Absorbs(c, more[0]))
    ensures Run(done, In(c.key, c.items), more) == Run(done + [c], Top, more)
  {
    hide RunTop;
  }

  lemma RunEndsPlans(done: seq<Clause>, items: seq<Token>, t: Token, more: seq<Token>)
    requires t.Number?
    ensures Run(done, In(ScanPlans, items), [t] + more) == Run(done + [Block(ScanPlans, items + [t])], Top, more)
  {
    hide RunTop;
    assert ([t] + more)[1..] == more;
  }

  lemma ReadPlans(done: seq<Clause>, items: seq<Token>, more: seq<Token>)
    requires GoodItems(ScanPlans, items) && items != [] && items[|items| - 1].Number?
    ensures Run(done, In(ScanPlans, []), items + more) == Run(done + [Block(ScanPlans, items)], Top, more)
  {
    hide Run;
    var n := |items| - 1;
    var plans := items[..n];
    ReadItems(done, ScanPlans, [], plans, [items[n]] + more);
    assert items + more == plans + ([items[n]] + more);
    RunEndsPlans(done, plans, items[n], more);
    assert [] + plans == plans && plans + [items[n]] == items;
  }

  lemma ReadOthers(done: seq<Clause>, c: Clause, more: seq<Token>)
    requires c.Block? && IsBlockKey(c.key)
    requires !Named(c.key) ==> forall i | 0 <= i < |c.items| :: Continues(c.key, c.items[i])
    requires more == [] || (!c.key.ScanPlans? && c.items != [] && !Absorbs(c, more[0]))
    ensures Run(done, In(c.key, []), RenderItems(c.key, c.items) + more) == Run(done + [c], Top, more)
  {
    hide Run, RenderItems, Continues, Absorbs;
    ReadItems(done, c.key, [], c.items, more);
    assert [] + c.items == c.items;
    RunCloses(done, c, more);
  }

  lemma ReadBlock(done: seq<Clause>, c: Clause, more: seq<Token>)
    requires c.Block? && Good(c) && Allowed(done, KindOf(c))
    requires if Closed(c) then more != [] ==> !Absorbs(c, more[0]) else more == []
    ensures Run(done, Top, Render(c) + more) == Run(done + [c], Top, more)
  {
    hide Run, Allowed, RenderItems;
    var key, items := c.key, c.items;
    assert KindOf(Word(key)) == KindOf(c);
    RunOpens(done, key, Render(c) + more);
    assert (Render(c) + more)[1..] == RenderItems(key, items) + more;
    if key.ScanPlans? && Closed(c) {
      assert RenderItems(key, items) == items by { PlainItems(key, items); }
      ReadPlans(done, items, more);
    } else {
      ReadOthers(done, c, more);
    }
  }

  lemma PlainItems(key: Token, items: seq<Token>)
    requires !Named(key)
    ensures RenderItems(key, items) == items
  {
  }

  lemma ReadClause(done: seq<Clause>, c: Clause, more: seq<Token>)
    requires Good(c) && Allowed(done, KindOf(c))
    requires if Closed(c) then more != [] ==> !Absorbs(c, more[0]) else more == []
    ensures Run(done, Top, Render(c) + more) == Run(done + [c], Top, more)
  {
    var tokens := Render(c) + more;
    match c
    case Block(_, _) =>
      ReadBlock(done, c, more);
    case Setting(k, v) =>
      hide Allowed;
      assert tokens[0] == k && tokens[1] == v && tokens[2..] == more;
      assert KindOf(Setting(k, k)) == KindOf(c);
    case Word(t) =>
      hide Allowed;
      assert tokens[0] == t && tokens[1..] == more;
  }

  lemma KeyFirst(c: Clause, more: seq<Token>)
    requires Good(c)
    ensures Render(c) + more != [] && IsKey((Render(c) + more)[0])
  {
    assert (Render(c) + more)[0] == KeyOf(c);
  }

  lemma NoKeyAbsorbed(c: Clause, t: Token)
    requires IsKey(t)
    ensures !Absorbs(c, t)
  {
  }

  /** The last clause, if open, ends with the arguments; `more` is not part of it. */
  predicate Ends(cs: seq<Clause>, more: seq<Token>) {
    cs != [] ==>
      var c := cs[|cs| - 1];
      if Closed(c) then more != [] ==> !Absorbs(c, more[0]) else more == []
  }

  lemma KeyEnds(cs: seq<Clause>, tokens: seq<Token>)
    requires forall i | 0 <= i < |cs| :: Closed(cs[i])
    requires tokens != [] && IsKey(tokens[0])
    ensures Ends(cs, tokens)
  {
    hide Closed;
    if cs != [] { NoKeyAbsorbed(cs[|cs| - 1], tokens[0]); }
  }

  lemma {:induction false} ReadAll(cs: seq<Clause>, more: seq<Token>)
    requires Valid(cs) && Ends(cs, more)
    ensures Run([], Top, RenderAll(cs) + more) == Run(cs, Top, more)
    decreases |cs|
  {
    hide Run, RenderAll, Render, Valid, Good, Allowed, Closed, Absorbs, KindOf;
    if cs == [] {
      RenderNothing();
      assert [] + more == more;
    } else {
      var n := |cs| - 1;
      var done, c := cs[..n], cs[n];
      ValidPrefix(cs, n);
      KeyFirst(c, more);
      KeyEnds(done, Render(c) + more);
      ReadAll(done, Render(c) + more);
      ReadClause(done, c, more);
      assert done + [c] == cs;
      RenderSnoc(done, c);
      assert RenderAll(cs) + more == RenderAll(done) + (Render(c) + more);
    }
  }

  lemma ValidPrefix(cs: seq<Clause>, n: nat)
    requires Valid(cs) && n < |cs|
    ensures Valid(cs[..n]) && forall i | 0 <= i < n :: Closed(cs[..n][i])
    ensures Good(cs[n]) && Allowed(cs[..n], KindOf(cs[n]))
  {
    hide Good, Allowed, Closed, KindOf;
    forall i | 0 <= i < n ensures cs[..n][..i] == cs[..i] && cs[..n][i] == cs[i] {
    }
  }

  /** Reading a sentence gives exactly its clauses and leaves exactly its rest. */
  lemma SentenceIsRead(cs: seq<Clause>, rest: seq<Token>)
    requires Valid(cs) && Stops(cs, rest)
    ensures Run([], Top, RenderAll(cs) + rest) == Parsed(cs, rest)
  {
    hide Valid, RenderAll, Closed, Absorbs, RunIn;
    ReadAll(cs, rest);
  }

  /**
   The arguments are accepted exactly when they are a sentence, and then the clauses and the rest
   are the only ones that make them one.
   */
  lemma AcceptsExactlySentences(tokens: seq<Token>)
    ensures var r := Run([], Top, tokens);
            && (r.Parsed? <==> exists cs, rest :: Sentence(tokens, cs, rest))
            && forall cs, rest :: Sentence(tokens, cs, rest) <==> r == Parsed(cs, rest)
  {
    hide Run, Valid, Stops, RenderAll, Ready;
    var r := Run([], Top, tokens);
    StartReady(tokens);
    RunIsSentence([], Top, tokens);
    assert RenderAll([]) + tokens == tokens by { RenderNothing(); }
    forall cs, rest ensures Sentence(tokens, cs, rest) <==> r == Parsed(cs, rest) {
      if Sentence(tokens, cs, rest) { SentenceIsRead(cs, rest); }
    }
  }

  lemma StartReady(tokens: seq<Token>)
    ensures Ready([], Top, tokens)
  {
  }

  lemma RenderNothing()
    ensures RenderAll([]) == []
  {
  }

  // ----- What the rules say

  /** At most one schedule, match set, frequency list and choice of probing; only delays of 0 may be repeated. */
  lemma ValidExcludes(cs: seq<Clause>, i: nat, j: nat)
    requires Valid(cs) && i < j < |cs| && KindOf(cs[i]) == KindOf(cs[j])
    ensures KindOf(cs[i]).Repeatable? || KindOf(cs[i]).Delays?
    ensures KindOf(cs[i]).Delays? ==> cs[i].value.n == 0
  {
    var before := cs[..j];
    assert Good(cs[i]) && Good(cs[j]) && Allowed(before, KindOf(cs[j])) && before[i] == cs[i];
    assert KindOf(before[i]) == KindOf(cs[j]);
    assert DelayAtLeastOne(before[i]) == DelayAtLeastOne(cs[i]);
  }

  /** Once is not what the check for a repeated delay enforces: a first delay of 0 is forgotten. */
  lemma ZeroDelayRepeats(zero: Token, other: Token)
    requires zero.Number? && zero.n == 0 && other.Number?
    ensures Run([], Top, [Delay, zero, Delay, other]) == Parsed([Setting(Delay, zero), Setting(Delay, other)], [])
  {
    var first, second := Setting(Delay, zero), Setting(Delay, other);
    assert [Delay, zero, Delay, other] == Render(first) + [Delay, other];
    ReadClause([], first, [Delay, other]);
    assert [Delay, other] == Render(second) + [];
    ReadClause([first], second, []);
    assert [] + [first] + [second] == [first, second] && [] + [first] == [first];
  }

  /** Against the documented syntax, a keyword for a list may be the last argument, its list empty. */
  lemma OpenBlockAccepted(key: Token)
    requires IsBlockKey(key)
    ensures Run([], Top, [key]) == Parsed([Block(key, [])], [])
  {
    ReadBlock([], Block(key, []), []);
    assert Render(Block(key, [])) + [] == [key];
  }

  // ----- Each argument by itself

  lemma NothingBefore()
    ensures !Delayed([]) && forall k :: !Seen([], k)
  {
  }

  lemma NoMore(c: Clause)
    ensures Run([] + [c], Top, []) == Parsed([c], [])
    ensures c.Block? ==> Run([], In(c.key, c.items), []) == Parsed([c], [])
  {
    assert [] + [c] == [c];
  }

  /** What a single argument comes to. */
  lemma OneArgument(t: Token)
    ensures Run([], Top, [t]) == match t
      case Interval | Delay => Failed(-22)
      case Passive | Coloc(_) | Flush(_) | Randomise(_, Some(_)) => Parsed([Word(t)], [])
      case Randomise(_, None) => Failed(1)
      case ScanPlans | Matches | Freqs | Active => Parsed([Block(t, [])], [])
      case _ => Parsed([], [t])
  {
    hide Seen, Delayed;
    NothingBefore();
    assert Run([], Top, [t]) == RunTop([], [t]) && [t][1..] == [];
    NoMore(Word(t));
    NoMore(Block(t, []));
  }

  /** What an argument after a keyword must be: a number above 0, any number, a frequency, a plan. */
  lemma ArgumentAfter(key: Token, t: Token)
    requires key.Interval? || key.Delay? || key.Freqs? || key.ScanPlans?
    ensures Run([], Top, [key, t]) == match (key, t)
      case (Interval, Number(_, n)) => if n > 0 then Parsed([Setting(key, t)], []) else Failed(-22)
      case (Delay, Number(_, _)) => Parsed([Setting(key, t)], [])
      case (Freqs, Number(_, _)) => Parsed([Block(key, [t])], [])
      case (ScanPlans, Number(_, _)) => Parsed([Block(key, [t])], [])
      case (ScanPlans, Colon(_, _, Some(times))) => if times > 0 then Parsed([Block(key, [t])], []) else Failed(-22)
      case _ => Failed(-22)
  {
    hide Seen, Delayed, Run;
    NothingBefore();
    RunsFirst(key, t);
    NoMore(Setting(key, t));
    NoMore(Block(key, [t]));
    assert [] + [t] == [t] && [t][1..] == [] && [key, t][2..] == [];
  }

  lemma RunsFirst(key: Token, t: Token)
    ensures Run([], Top, [key, t]) == RunTop([], [key, t])
    ensures Run([], In(key, []), [key, t][1..]) == RunIn([], key, [], [t])
  {
    assert [key, t][1..] == [t];
  }

  /** A name stands after "ssid"; "matches" and "active" must be followed by one. */
  lemma NameAfter(key: Token, t: Token, name: Token)
    requires key.Matches? || key.Active?
    ensures Run([], Top, [key, Ssid, name]) == Parsed([Block(key, [name])], [])
    ensures Run([], Top, [key, t]) == Failed(-22)
  {
    hide Seen, Delayed, Run;
    NothingBefore();
    RunsFirst(key, t);
    RunsNamed(key, name);
    NoMore(Block(key, [name]));
    assert [] + [name] == [name] && [Ssid, name][2..] == [];
  }

  lemma RunsNamed(key: Token, name: Token)
    ensures Run([], Top, [key, Ssid, name]) == RunTop([], [key, Ssid, name])
    ensures Run([], In(key, []), [key, Ssid, name][1..]) == RunIn([], key, [], [Ssid, name])
  {
    assert [key, Ssid, name][1..] == [Ssid, name];
  }
}
