/**
 handle_tid_config of iw/interface.c: a state machine that opens a nest for every "tids", and hands
 the arguments after "bitrates fixed" or "bitrates limit" to set_bitrates.
 */
module TidConfig {
  import opened Netlink
  import opened Wrappers
  import opened Bitrates
  import opened Rates

  const HANDLER_RET_USAGE := 1

  datatype Keyword = Peer | Tids | Override | Ampdu | Amsdu | Noack | Rtscts | Sretry | Lretry | BitratesWord
                   | On | Off | Auto | Fixed | Limit

  /** Any other argument comes with what the source reads in it: for set_bitrates, as a number, as an address. */
  datatype Token = Name(keyword: Keyword) | Plain(arg: Arg, number: Option<int>, mac: Option<nat>)

  const NO_READING := Reading(None, None, List(0, []), None)

  function ArgOf(t: Token): Arg {
    if t.Plain? then t.arg else Text(NO_READING)
  }

  function Args(tokens: seq<Token>): seq<Arg> {
    seq(|tokens|, i requires 0 <= i < |tokens| => ArgOf(tokens[i]))
  }

  function NumberIn(t: Token): Option<int> { if t.Plain? then t.number else None }

  function MacIn(t: Token): Option<nat> { if t.Plain? then t.mac else None }

  predicate Toggles(k: Keyword) { k.Ampdu? || k.Amsdu? || k.Noack? || k.Rtscts? }

  predicate Retries(k: Keyword) { k.Sretry? || k.Lretry? }

  datatype Item =
    | PeerIs(mac: Token)
    | TidsAre(mask: Token)
    | Overrides
    | Switch(key: Keyword, value: Token)
    | Retry(key: Keyword, count: Token)
    | AutoRates
    | SomeRates(kind: Keyword, args: seq<Token>)

  datatype State = PS_ADDR | PS_TIDS | PS_CONF

  datatype Result = Rejected(err: int) | Accepted(items: seq<Item>)

  function Prepend(item: Item, r: Result): Result {
    if r.Accepted? then Accepted([item] + r.items) else r
  }

  function RatesOf(args: seq<Token>): (r: Outcome)
    ensures if r.Puts? then r.ret <= |args| else r.err < 2
  {
    SetBitratesOf(Args(args), TID_TX_RATE)
  }

  /**
   The state machine. A "tids" that only changes the state consumes nothing, so what decreases is
   the arguments left, and then not being in PS_TIDS.
   */
  function Parse(state: State, tokens: seq<Token>): Result
    decreases |tokens|, if state.PS_TIDS? then 0 else 1
  {
    if tokens == [] then Accepted([])
    else match state
      case PS_ADDR =>
        if tokens[0] == Name(Peer) then
          if |tokens| < 2 then Rejected(HANDLER_RET_USAGE)
          else if MacIn(tokens[1]).None? then Rejected(2)
          else Prepend(PeerIs(tokens[1]), Parse(PS_TIDS, tokens[2..]))
        else if tokens[0] == Name(Tids) then Parse(PS_TIDS, tokens)
        else Rejected(HANDLER_RET_USAGE)
      case PS_TIDS =>
        if tokens[0] != Name(Tids) || |tokens| < 2 then Rejected(HANDLER_RET_USAGE)
        else if NumberIn(tokens[1]).None? then Rejected(2)
        else Prepend(TidsAre(tokens[1]), Parse(PS_CONF, tokens[2..]))
      case PS_CONF =>
        if tokens[0] == Name(Tids) then Parse(PS_TIDS, tokens)
        else ParseConf(tokens)
  }

  function ParseConf(tokens: seq<Token>): Result
    requires tokens != []
    decreases |tokens|, 0
  {
    if tokens[0].Plain? then Rejected(HANDLER_RET_USAGE)
    else
      var k := tokens[0].keyword;
      if k.Override? then Prepend(Overrides, Parse(PS_CONF, tokens[1..]))
      else if !Toggles(k) && !Retries(k) && !k.BitratesWord? then Rejected(HANDLER_RET_USAGE)
      else if |tokens| < 2 then Rejected(HANDLER_RET_USAGE)
      else if Toggles(k) then
        if tokens[1] != Name(On) && tokens[1] != Name(Off) then Rejected(2)
        else Prepend(Switch(k, tokens[1]), Parse(PS_CONF, tokens[2..]))
      else if Retries(k) then
        if NumberIn(tokens[1]).None? then Rejected(2)
        else Prepend(Retry(k, tokens[1]), Parse(PS_CONF, tokens[2..]))
      else if tokens[1] == Name(Auto) then Prepend(AutoRates, Parse(PS_CONF, tokens[2..]))
      else if tokens[1] != Name(Fixed) && tokens[1] != Name(Limit) then Rejected(2)
      else
        var r := RatesOf(tokens[2..]);
        if r.Fails? || r.ret < 2 then Rejected(1)
        else Prepend(SomeRates(tokens[1].keyword, tokens[2..2 + r.ret]), Parse(PS_CONF, tokens[2 + r.ret..]))
  }

  // ----- The accepted commands

  function Render(item: Item): seq<Token> {
    match item
    case PeerIs(mac) => [Name(Peer), mac]
    case TidsAre(mask) => [Name(Tids), mask]
    case Overrides => [Name(Override)]
    case Switch(k, v) => [Name(k), v]
    case Retry(k, n) => [Name(k), n]
    case AutoRates => [Name(BitratesWord), Name(Auto)]
    case SomeRates(kind, args) => [Name(BitratesWord), Name(kind)] + args
  }

  function RenderAll(items: seq<Item>): seq<Token> {
    if items == [] then [] else Render(items[0]) + RenderAll(items[1..])
  }

  predicate Fine(item: Item) {
    match item
    case PeerIs(mac) => MacIn(mac).Some?
    case TidsAre(mask) => NumberIn(mask).Some?
    case Switch(k, v) => Toggles(k) && (v == Name(On) || v == Name(Off))
    case Retry(k, n) => Retries(k) && NumberIn(n).Some?
    case SomeRates(kind, args) => (kind.Fixed? || kind.Limit?) && |args| >= 2 && RatesOf(args).Puts?
          && RatesOf(args).ret >= 2
    case _ => true
  }

  /** An optional peer, then any number of TID entries; rates other than automatic end the command. */
  predicate Command(items: seq<Item>, state: State) {
    items != [] ==>
      && Fine(items[0])
      && match items[0]
         case PeerIs(_) => state.PS_ADDR? && Command(items[1..], PS_TIDS)
         case TidsAre(_) => Command(items[1..], PS_CONF)
         case SomeRates(_, _) => state.PS_CONF? && items[1..] == []
         case _ => state.PS_CONF? && Command(items[1..], PS_CONF)
  }

  /** A call accepted here takes all the arguments that were left. */
  lemma RatesTakeAll(args: seq<Token>)
    requires RatesOf(args).Puts? && RatesOf(args).ret >= 2
    ensures RatesOf(args).ret == |args|
  {
    hide SetBitratesOf;
    TakesAllOrNothing(Args(args), TID_TX_RATE);
  }

  lemma Cons(item: Item, items: seq<Item>, tokens: seq<Token>, rest: seq<Token>)
    requires RenderAll(items) == rest && tokens == Render(item) + rest
    ensures RenderAll([item] + items) == tokens && ([item] + items)[1..] == items
  {
    hide Render;
    assert ([item] + items)[1..] == items;
  }

  /** Accepted arguments are a command. */
  lemma {:induction false} AcceptedIsCommand(state: State, tokens: seq<Token>)
    ensures var r := Parse(state, tokens);
            r.Accepted? ==> Command(r.items, state) && RenderAll(r.items) == tokens
    decreases |tokens|, if state.PS_TIDS? then 0 else 1
  {
    hide RatesOf, RenderAll, MacIn, ParseConf;
    NothingRenders();
    if tokens != [] && Parse(state, tokens).Accepted? {
      if state.PS_ADDR? && tokens[0] == Name(Peer) {
        AcceptedIsCommand(PS_TIDS, tokens[2..]);
        assert tokens == [Name(Peer), tokens[1]] + tokens[2..];
        Cons(PeerIs(tokens[1]), Parse(PS_TIDS, tokens[2..]).items, tokens, tokens[2..]);
      } else if state.PS_TIDS? {
        AcceptedIsCommand(PS_CONF, tokens[2..]);
        assert tokens == [Name(Tids), tokens[1]] + tokens[2..];
        Cons(TidsAre(tokens[1]), Parse(PS_CONF, tokens[2..]).items, tokens, tokens[2..]);
      } else if tokens[0] == Name(Tids) {
        AcceptedIsCommand(PS_TIDS, tokens);
        FirstIsTids(Parse(PS_TIDS, tokens).items, state);
      } else {
        ConfIsCommand(tokens);
      }
    }
  }

  lemma NothingRenders()
    ensures RenderAll([]) == []
  {
  }

  lemma FirstIsTids(items: seq<Item>, state: State)
    requires Command(items, PS_TIDS)
    ensures Command(items, state)
  {
  }

  lemma ConfIsCommand(tokens: seq<Token>)
    requires tokens != [] && ParseConf(tokens).Accepted?
    ensures var r := ParseConf(tokens);
            Command(r.items, PS_CONF) && RenderAll(r.items) == tokens
    decreases |tokens|, 0, 0
  {
    hide RatesOf, RenderAll, Parse;
    var k := tokens[0].keyword;
    if k.Override? {
      AcceptedIsCommand(PS_CONF, tokens[1..]);
      Cons(Overrides, Parse(PS_CONF, tokens[1..]).items, tokens, tokens[1..]);
    } else {
      assert tokens == [Name(k), tokens[1]] + tokens[2..];
      if Toggles(k) {
        AcceptedIsCommand(PS_CONF, tokens[2..]);
        Cons(Switch(k, tokens[1]), Parse(PS_CONF, tokens[2..]).items, tokens, tokens[2..]);
      } else if Retries(k) {
        AcceptedIsCommand(PS_CONF, tokens[2..]);
        Cons(Retry(k, tokens[1]), Parse(PS_CONF, tokens[2..]).items, tokens, tokens[2..]);
      } else if tokens[1] == Name(Auto) {
        AcceptedIsCommand(PS_CONF, tokens[2..]);
        Cons(AutoRates, Parse(PS_CONF, tokens[2..]).items, tokens, tokens[2..]);
      } else {
        RatesTakeAll(tokens[2..]);
        assert tokens[|tokens|..] == [] && tokens[2..|tokens|] == tokens[2..];
        NothingParsed();
        NothingRenders();
        assert tokens[2..] + [] == tokens[2..];
        Cons(SomeRates(tokens[1].keyword, tokens[2..]), [], tokens, []);
      }
    }
  }

  lemma NothingParsed()
    ensures Parse(PS_CONF, []) == Accepted([])
  {
  }

  /** A command is accepted, and read as the items it was made of. */
  lemma {:induction false} CommandIsAccepted(items: seq<Item>, state: State)
    requires Command(items, state)
    ensures Parse(state, RenderAll(items)) == Accepted(items)
    decreases |items|
  {
    if items != [] {
      hide RatesOf, Parse, RenderAll, MacIn, NumberIn;
      var item, others := items[0], items[1..];
      var next := if item.PeerIs? then PS_TIDS else PS_CONF;
      if !item.SomeRates? { CommandIsAccepted(others, next); } else { NothingParsed(); NothingRenders(); }
      Cons(item, others, Render(item) + RenderAll(others), RenderAll(others));
      assert items == [item] + others;
      ItemRead(item, RenderAll(others), state, next);
    }
  }

  lemma ItemRead(item: Item, rest: seq<Token>, state: State, next: State)
    requires Fine(item) && next == (if item.PeerIs? then PS_TIDS else PS_CONF)
    requires if item.PeerIs? then state.PS_ADDR? else if item.TidsAre? then true else state.PS_CONF?
    requires item.SomeRates? ==> rest == []
    ensures Parse(state, Render(item) + rest) == Prepend(item, Parse(next, rest))
  {
    hide RatesOf;
    var tokens := Render(item) + rest;
    match item
    case PeerIs(_) => assert tokens[2..] == rest;
    case TidsAre(_) =>
      assert tokens[2..] == rest;
      assert Parse(PS_TIDS, tokens) == Prepend(item, Parse(next, rest));
    case Overrides => assert tokens[1..] == rest;
    case SomeRates(_, args) =>
      RatesTakeAll(args);
      assert tokens[2..] == args && tokens[2..|tokens|] == args && tokens[|tokens|..] == rest;
    case _ => assert tokens[2..] == rest;
  }

  /** The arguments accepted are exactly the commands, each read in one way. */
  lemma AcceptsExactlyCommands(tokens: seq<Token>, items: seq<Item>)
    ensures Parse(PS_ADDR, tokens) == Accepted(items) <==> Command(items, PS_ADDR) && RenderAll(items) == tokens
  {
    hide Parse, Command, RenderAll;
    AcceptedIsCommand(PS_ADDR, tokens);
    if Command(items, PS_ADDR) { CommandIsAccepted(items, PS_ADDR); }
  }

  // ----- The commands, item by item

  /** Item `i` can stand where it does: what it is made of, and what must come before and after it. */
  predicate Stands(items: seq<Item>, i: nat)
    requires i < |items|
  {
    match items[i]
    case PeerIs(Plain(_, _, Some(_))) => i == 0
    case TidsAre(Plain(_, Some(_), _)) => true
    case Overrides => AfterTids(items, i)
    case AutoRates => AfterTids(items, i)
    case Switch(k, v) => k in {Ampdu, Amsdu, Noack, Rtscts} && v in {Name(On), Name(Off)} && AfterTids(items, i)
    case Retry(k, Plain(_, Some(_), _)) => k in {Sretry, Lretry} && AfterTids(items, i)
    case SomeRates(kind, args) =>
      && kind in {Fixed, Limit} && |args| >= 2 && RatesOf(args).Puts? && ArgOf(args[0]).Word?
      && AfterTids(items, i) && i == |items| - 1
    case _ => false
  }

  predicate AfterTids(items: seq<Item>, i: nat)
    requires i < |items|
  {
    exists j | 0 <= j < i :: items[j].TidsAre?
  }

  /** What the items are, in `state`; from PS_CONF on there have been TIDs before. */
  predicate StandsIn(items: seq<Item>, i: nat, state: State)
    requires i < |items|
  {
    && Fine(items[i])
    && (items[i].PeerIs? ==> i == 0 && state.PS_ADDR?)
    && (IsConf(items[i]) ==> state.PS_CONF? || AfterTids(items, i))
    && (items[i].SomeRates? ==> i == |items| - 1)
  }

  predicate AllStandIn(items: seq<Item>, state: State) {
    forall i | 0 <= i < |items| :: StandsIn(items, i, state)
  }

  lemma StandsInTail(items: seq<Item>, i: nat, state: State)
    requires 0 < i < |items| && StandsIn(items, 0, state)
    ensures var next := if items[0].PeerIs? then PS_TIDS else PS_CONF;
            StandsIn(items, i, state) <==> StandsIn(items[1..], i - 1, next)
  {
    hide Fine;
    var tail := items[1..];
    assert forall j | 0 <= j < |tail| :: tail[j] == items[j + 1];
    if AfterTids(items, i) {
      var j :| 0 <= j < i && items[j].TidsAre?;
      if j > 0 { assert tail[j - 1].TidsAre?; }
    }
    if AfterTids(tail, i - 1) {
      var j :| 0 <= j < i - 1 && tail[j].TidsAre?;
      assert items[j + 1].TidsAre?;
    }
  }

  lemma {:induction false} CommandStands(items: seq<Item>, state: State)
    ensures Command(items, state) <==> AllStandIn(items, state)
  {
    if items != [] {
      hide StandsIn;
      var next := if items[0].PeerIs? then PS_TIDS else PS_CONF;
      CommandStands(items[1..], next);
      FirstStands(items, state);
      if StandsIn(items, 0, state) {
        forall i | 0 < i < |items| ensures StandsIn(items, i, state) <==> StandsIn(items[1..], i - 1, next) {
          StandsInTail(items, i, state);
        }
        AllStandTail(items, state, next);
      }
    }
  }

  lemma AllStandTail(items: seq<Item>, state: State, next: State)
    requires items != [] && StandsIn(items, 0, state)
    requires forall i | 0 < i < |items| :: StandsIn(items, i, state) <==> StandsIn(items[1..], i - 1, next)
    ensures AllStandIn(items, state) <==> AllStandIn(items[1..], next)
  {
    hide StandsIn;
    if AllStandIn(items[1..], next) {
      forall i | 0 <= i < |items| ensures StandsIn(items, i, state) {
        if i > 0 { assert StandsIn(items[1..], i - 1, next); }
      }
    }
    if AllStandIn(items, state) {
      forall i | 0 <= i < |items| - 1 ensures StandsIn(items[1..], i, next) {
        assert StandsIn(items, i + 1, state);
      }
    }
  }

  lemma FirstStands(items: seq<Item>, state: State)
    requires items != []
    ensures var next := if items[0].PeerIs? then PS_TIDS else PS_CONF;
            Command(items, state) <==> StandsIn(items, 0, state) && Command(items[1..], next)
  {
    hide Fine;
  }

  lemma StandsIsStandsIn(items: seq<Item>, i: nat)
    requires i < |items|
    ensures Stands(items, i) <==> StandsIn(items, i, PS_ADDR)
  {
    hide SetBitratesOf, AfterTids, Args;
    if items[i].SomeRates? && |items[i].args| >= 2 && RatesOf(items[i].args).Puts? {
      FirstIsKeyword(items[i].args);
    }
  }

  lemma FirstIsKeyword(args: seq<Token>)
    requires |args| >= 2 && RatesOf(args).Puts?
    ensures RatesOf(args).ret >= 2 <==> ArgOf(args[0]).Word?
  {
    hide SetBitratesOf;
    TakesAllOrNothing(Args(args), TID_TX_RATE);
  }

  /**
   The commands, without the states: a peer only first, every setting after some TIDs, rates other than
   automatic only last, and every item made of what it needs.
   */
  lemma CommandExactlyWhen(items: seq<Item>)
    ensures Command(items, PS_ADDR) <==> forall i | 0 <= i < |items| :: Stands(items, i)
  {
    hide Command, Stands, StandsIn;
    CommandStands(items, PS_ADDR);
    forall i | 0 <= i < |items| ensures Stands(items, i) <==> StandsIn(items, i, PS_ADDR) {
      StandsIsStandsIn(items, i);
    }
  }

  // ----- Error codes

  /** What one argument, or one and its value, comes to: 1 for bad usage, 2 for a value that does not read. */
  lemma FirstArgument(t: Token)
    ensures Parse(PS_ADDR, [t]) == Parse(PS_TIDS, [t]) == Rejected(1)
    ensures Parse(PS_CONF, [t]) == if t == Name(Override) then Accepted([Overrides]) else Rejected(1)
  {
    hide SetBitratesOf;
    assert [t][1..] == [];
    NothingParsed();
  }

  lemma FirstValue(k: Keyword, v: Token)
    ensures Parse(PS_ADDR, [Name(k), v]) == match (k, v)
      case (Peer, Plain(_, _, Some(_))) => Accepted([PeerIs(v)])
      case (Peer, _) => Rejected(2)
      case (Tids, Plain(_, Some(_), _)) => Accepted([TidsAre(v)])
      case (Tids, _) => Rejected(2)
      case _ => Rejected(1)
  {
    hide SetBitratesOf;
    assert [Name(k), v][2..] == [];
    assert Parse(PS_TIDS, []) == Parse(PS_CONF, []) == Accepted([]);
    if k.Tids? {
      assert Parse(PS_ADDR, [Name(k), v]) == Parse(PS_TIDS, [Name(k), v]);
    }
  }

  lemma SettingValue(k: Keyword, v: Token)
    requires !k.Override? && !k.Tids?
    ensures Parse(PS_CONF, [Name(k), v]) == match k
      case Ampdu | Amsdu | Noack | Rtscts =>
        if v == Name(On) || v == Name(Off) then Accepted([Switch(k, v)]) else Rejected(2)
      case Sretry | Lretry => if v.Plain? && v.number.Some? then Accepted([Retry(k, v)]) else Rejected(2)
      case BitratesWord =>
        if v == Name(Auto) then Accepted([AutoRates])
        else if v == Name(Fixed) || v == Name(Limit) then Rejected(1) else Rejected(2)
      case _ => Rejected(1)
  {
    hide SetBitratesOf;
    assert [Name(k), v][2..] == [];
    NothingParsed();
    NoRates();
    assert Parse(PS_CONF, [Name(k), v]) == ParseConf([Name(k), v]);
  }

  lemma NoRates()
    ensures RatesOf([]).Puts? ==> RatesOf([]).ret == 0
  {
    hide SetBitratesOf;
    if RatesOf([]).Puts? { TakesAllOrNothing(Args([]), TID_TX_RATE); }
  }

  // ----- Words lost in the rates

  /**
   Exactly when a word of this command, "tids" or "noack" say, is accepted among the rates: it comes
   after a keyword that ignores it, and the rates are accepted without it. Then it has no effect.
   */
  lemma WordAcceptedExactlyWhen(kind: Keyword, args: seq<Token>, i: nat)
    requires (kind.Fixed? || kind.Limit?) && i < |args| && ArgOf(args[0]).Word? && args[i].Name?
    ensures var r, without := Parse(PS_CONF, [Name(BitratesWord), Name(kind)] + args), args[..i] + args[i + 1..];
            && (r.Accepted? <==> RatesOf(without).Puts? && Ignored(Args(args), i))
            && (r.Accepted? ==> r == Accepted([SomeRates(kind, args)]) && RatesOf(args).Puts?
                                && RatesOf(args).nest == RatesOf(without).nest)
  {
    hide Parse, SetBitratesOf, Ignored;
    var a, without := Args(args), args[..i] + args[i + 1..];
    assert a[0].Word? && a[i] == Text(NO_READING) && i > 0;
    assert Args(without) == a[..i] + a[i + 1..];
    WordsMeanNothing();
    IgnoredExactlyWhen(a, i, TID_TX_RATE);
    RatesRead(kind, args);
    if RatesOf(args).Puts? { TakesAllOrNothing(a, TID_TX_RATE); }
  }

  lemma WordsMeanNothing()
    ensures Meaningless(NO_READING)
  {
  }

  lemma FirstArg(first: Token, more: seq<Token>)
    ensures Args([first] + more) == [ArgOf(first)] + Args(more)
    ensures |Args(more)| == |more| && forall i | 0 <= i < |more| :: Args(more)[i] == ArgOf(more[i])
  {
  }

  /**
   For one: after "bitrates fixed sgi-5" whatever follows is lost; with nothing following, the command
   is rejected.
   */
  lemma SgiSwallowsEntries(kind: Keyword, sgi: Token, more: seq<Token>)
    requires (kind.Fixed? || kind.Limit?) && ArgOf(sgi).Word? && (ArgOf(sgi).key.Sgi? || ArgOf(sgi).key.Lgi?)
    requires forall i | 0 <= i < |more| :: ArgOf(more[i]).Text?
    ensures Parse(PS_CONF, [Name(BitratesWord), Name(kind), sgi] + more) ==
      if more == [] then Rejected(1) else Accepted([SomeRates(kind, [sgi] + more)])
  {
    hide Parse, SetBitratesOf, RatesNest, Plus, Args;
    var args := [sgi] + more;
    FirstArg(sgi, more);
    SgiTakesTheRest(ArgOf(sgi).key, Args(more), TID_TX_RATE);
    RatesRead(kind, args);
    assert [Name(BitratesWord), Name(kind), sgi] + more == [Name(BitratesWord), Name(kind)] + args;
  }

  /** And after "bitrates fixed he-gi-5" whatever follows is lost, provided the last argument reads as an interval. */
  lemma GiSwallowsEntries(kind: Keyword, gi: Token, more: seq<Token>)
    requires (kind.Fixed? || kind.Limit?) && ArgOf(gi).Word? && ArgOf(gi).key.Gi?
    requires more != [] && forall i | 0 <= i < |more| :: ArgOf(more[i]).Text?
    ensures Parse(PS_CONF, [Name(BitratesWord), Name(kind), gi] + more) ==
      if ArgOf(more[|more| - 1]).reading.gi.None? then Rejected(1) else Accepted([SomeRates(kind, [gi] + more)])
  {
    hide Parse, SetBitratesOf, RatesNest, Plus, Args;
    var args := [gi] + more;
    FirstArg(gi, more);
    GiTakesTheRest(ArgOf(gi).key, Args(more), TID_TX_RATE);
    RatesRead(kind, args);
    assert [Name(BitratesWord), Name(kind), gi] + more == [Name(BitratesWord), Name(kind)] + args;
  }

  lemma RatesRead(kind: Keyword, args: seq<Token>)
    requires kind.Fixed? || kind.Limit?
    ensures Parse(PS_CONF, [Name(BitratesWord), Name(kind)] + args) ==
      if RatesOf(args).Fails? || RatesOf(args).ret < 2 then Rejected(1) else Accepted([SomeRates(kind, args)])
  {
    hide RatesOf;
    var tokens := [Name(BitratesWord), Name(kind)] + args;
    assert tokens[2..] == args;
    if RatesOf(args).Puts? && RatesOf(args).ret >= 2 {
      RatesTakeAll(args);
      assert tokens[2..|tokens|] == args && tokens[|tokens|..] == [];
      NothingParsed();
    }
  }

  /** A call that succeeds is taken for an error exactly when it has one argument, or none it understands. */
  lemma SuccessRejectedExactlyWhen(kind: Keyword, args: seq<Token>)
    requires (kind.Fixed? || kind.Limit?) && RatesOf(args).Puts?
    ensures Parse(PS_CONF, [Name(BitratesWord), Name(kind)] + args).Rejected?
      <==> |args| < 2 || ArgOf(args[0]).Text?
  {
    hide Parse, SetBitratesOf;
    RatesRead(kind, args);
    TakesAllOrNothing(Args(args), TID_TX_RATE);
  }

  // ----- The message

  function ConfAttrs(item: Item): Attrs {
    match item
    case Overrides => [Leaf(TID_OVERRIDE, Flag)]
    case Switch(k, v) => [Leaf(SwitchId(k), Byte(if v == Name(On) then 0 else 1))]
    case Retry(k, n) =>
      [Leaf(if k.Sretry? then TID_RETRY_SHORT else TID_RETRY_LONG,
          Byte(if NumberIn(n).Some? then NumberIn(n).value % 0x100 else 0))]
    case AutoRates => [Leaf(TID_TX_RATE_TYPE, Byte(0))]
    case SomeRates(kind, args) =>
      [Leaf(TID_TX_RATE_TYPE, Byte(if kind.Limit? then 1 else 2))]
      + (if RatesOf(args).Puts? then [RatesOf(args).nest] else [])
    case _ => []
  }

  function SwitchId(k: Keyword): Id {
    match k
    case Ampdu => TID_AMPDU_CTRL
    case Amsdu => TID_AMSDU_CTRL
    case Noack => TID_NOACK
    case _ => TID_RTSCTS_CTRL
  }

  function MaskAttr(mask: Token): Attr<Value> {
    Leaf(TID_TIDS, U16(if NumberIn(mask).Some? then NumberIn(mask).value % 0x1_0000 else 0))
  }

  predicate IsConf(item: Item) { !item.PeerIs? && !item.TidsAre? }

  /** The attributes of each TID entry, in order: its mask, then its settings. */
  function Entries(items: seq<Item>): seq<Attrs> {
    if items == [] then []
    else
      var before, last := Entries(items[..|items| - 1]), items[|items| - 1];
      if last.TidsAre? then before + [[MaskAttr(last.mask)]]
      else if last.PeerIs? || before == [] then before
      else before[|before| - 1 := before[|before| - 1] + ConfAttrs(last)]
  }

  /** Entries are numbered from 0. */
  function Numbered(entries: seq<Attrs>): Attrs {
    seq(|entries|, i requires 0 <= i < |entries| => Nest(Index(i), entries[i]))
  }

  function PeerAttrs(items: seq<Item>): Attrs {
    if items != [] && items[0].PeerIs?
    then [Leaf(MAC, Mac(if MacIn(items[0].mac).Some? then MacIn(items[0].mac).value else 0))] else []
  }

  function Meaning(items: seq<Item>): Attrs {
    PeerAttrs(items) + if Entries(items) == [] then [] else [Nest(TID_CONFIG, Numbered(Entries(items)))]
  }

  lemma EntriesSnoc(items: seq<Item>, item: Item)
    ensures Entries(items + [item]) ==
      var before := Entries(items);
      if item.TidsAre? then before + [[MaskAttr(item.mask)]]
      else if item.PeerIs? || before == [] then before
      else before[|before| - 1 := before[|before| - 1] + ConfAttrs(item)]
    ensures items != [] ==> PeerAttrs(items + [item]) == PeerAttrs(items)
  {
    hide ConfAttrs, MaskAttr;
    assert (items + [item])[..|items|] == items;
  }

  /** The message while the loop runs: the last entry is the open nest, the others lie in the nest around it. */
  predicate Shape(outer: seq<Open<Value>>, attrs: Attrs, outer0: seq<Open<Value>>, attrs0: Attrs, items: seq<Item>) {
    var e := Entries(items);
    var base := attrs0 + PeerAttrs(items);
    if e == [] then outer == outer0 && attrs == base
    else
      && outer == outer0 + [Open(TID_CONFIG, base)] + [Open(Index(|e| - 1), Numbered(e[..|e| - 1]))]
      && attrs == e[|e| - 1]
  }

  lemma ShapeConf(outer: seq<Open<Value>>, attrs: Attrs, outer0: seq<Open<Value>>, attrs0: Attrs, items: seq<Item>,
      item: Item)
    requires Shape(outer, attrs, outer0, attrs0, items) && Entries(items) != [] && IsConf(item)
    ensures Shape(outer, attrs + ConfAttrs(item), outer0, attrs0, items + [item])
    ensures |Entries(items + [item])| == |Entries(items)|
  {
    hide Entries, ConfAttrs, PeerAttrs, Numbered;
    EntriesSnoc(items, item);
    EntriesNeedItems(items);
    var e, f := Entries(items), Entries(items + [item]);
    assert f[..|f| - 1] == e[..|e| - 1];
  }

  lemma EntriesNeedItems(items: seq<Item>)
    ensures Entries(items) != [] ==> items != []
  {
  }

  lemma NumberedSnoc(entries: seq<Attrs>)
    requires entries != []
    ensures var n := |entries| - 1; Numbered(entries) == Numbered(entries[..n]) + [Nest(Index(n), entries[n])]
  {
  }

  lemma NothingNumbered()
    ensures Numbered([]) == []
  {
  }

  lemma ShapeTids(outer0: seq<Open<Value>>, attrs0: Attrs, items: seq<Item>, mask: Token)
    ensures var e := Entries(items);
      Shape(outer0 + [Open(TID_CONFIG, attrs0 + PeerAttrs(items))] + [Open(Index(|e|), Numbered(e))], [MaskAttr(mask)],
        outer0, attrs0, items + [TidsAre(mask)])
    ensures |Entries(items + [TidsAre(mask)])| == |Entries(items)| + 1
  {
    hide Entries, PeerAttrs, Numbered;
    EntriesSnoc(items, TidsAre(mask));
    NoPeer(mask);
    assert items == [] ==> items + [TidsAre(mask)] == [TidsAre(mask)];
    var e, f := Entries(items), Entries(items + [TidsAre(mask)]);
    assert f[..|e|] == e;
  }

  /** Opens the array the first time, and closes the entry before any other time. */
  method CloseEntry(msg: Message<Value>, tidsArray: Option<nat>, tidsEntry: Option<nat>, tidsNum: nat,
                    ghost outer0: seq<Open<Value>>, ghost attrs0: Attrs, ghost items: seq<Item>)
    returns (array_: Option<nat>, num: nat)
    requires Shape(msg.outer, msg.attrs, outer0, attrs0, items)
    requires Handles(tidsArray, tidsEntry, tidsNum, |outer0|, |Entries(items)|)
    modifies msg
    ensures msg.outer == outer0 + [Open(TID_CONFIG, attrs0 + PeerAttrs(items))]
    ensures msg.attrs == Numbered(Entries(items))
    ensures array_ == Some(|outer0|) && num == |Entries(items)|
  {
    hide Entries, PeerAttrs, Numbered;
    array_, num := tidsArray, tidsNum;
    if array_.None? {
      var n := msg.NestStart(TID_CONFIG);
      array_ := Some(n);
      NothingNumbered();
    }
    if tidsEntry.Some? {
      NumberedSnoc(Entries(items));
      msg.NestEnd(tidsEntry.value);
      num := num + 1;
    }
  }

  method OpenEntry(msg: Message<Value>, mask: Token, tidsArray: Option<nat>, tidsEntry: Option<nat>, tidsNum: nat,
                   ghost outer0: seq<Open<Value>>, ghost attrs0: Attrs, ghost items: seq<Item>)
    returns (array_: Option<nat>, entry: Option<nat>, num: nat)
    requires Shape(msg.outer, msg.attrs, outer0, attrs0, items) && NumberIn(mask).Some?
    requires Handles(tidsArray, tidsEntry, tidsNum, |outer0|, |Entries(items)|)
    modifies msg
    ensures Shape(msg.outer, msg.attrs, outer0, attrs0, items + [TidsAre(mask)])
    ensures Handles(array_, entry, num, |outer0|, |Entries(items + [TidsAre(mask)])|)
    ensures Entries(items + [TidsAre(mask)]) != []
  {
    hide Entries, PeerAttrs, Numbered, Shape;
    array_, num := CloseEntry(msg, tidsArray, tidsEntry, tidsNum, outer0, attrs0, items);
    var started := msg.NestStart(Index(num));
    entry := Some(started);
    msg.Put(TID_TIDS, U16(NumberIn(mask).value % 0x1_0000));
    assert msg.attrs == [MaskAttr(mask)];
    ShapeTids(outer0, attrs0, items, mask);
  }

  lemma NoPeer(mask: Token)
    ensures PeerAttrs([TidsAre(mask)]) == PeerAttrs([])
  {
  }

  /** The pointers to open nests, by depth. */
  predicate Handles(tidsArray: Option<nat>, tidsEntry: Option<nat>, tidsNum: nat, depth: nat, entries: nat) {
    if entries == 0 then tidsArray.None? && tidsEntry.None? && tidsNum == 0
    else tidsArray == Some(depth) && tidsEntry == Some(depth + 1) && tidsNum == entries - 1
  }

  // ----- The message, item by item

  predicate HasTids(items: seq<Item>) {
    exists j | 0 <= j < |items| :: items[j].TidsAre?
  }

  /** How many entries the items open. */
  function Opened(items: seq<Item>): nat {
    if items == [] then 0 else Opened(items[..|items| - 1]) + if items[|items| - 1].TidsAre? then 1 else 0
  }

  /** How many attributes an item puts into its entry. */
  function Width(item: Item): nat {
    if item.PeerIs? then 0 else if item.SomeRates? then 2 else 1
  }

  /** How many attributes the last entry has. */
  function Filled(items: seq<Item>): nat {
    if items == [] then 0
    else
      var last := items[|items| - 1];
      if last.TidsAre? then 1 else Filled(items[..|items| - 1]) + Width(last)
  }

  /** What an item puts: the mask, and the attribute of each setting with its value. */
  predicate PutsItem(x: Attrs, at: nat, item: Item)
    requires at + Width(item) <= |x|
  {
    match item
    case PeerIs(_) => true
    case TidsAre(Plain(_, Some(n), _)) => at == 0 && x[0] == Leaf(TID_TIDS, U16(n % 0x1_0000))
    case Overrides => x[at] == Leaf(TID_OVERRIDE, Flag)
    case Switch(Ampdu, v) => x[at] == Leaf(TID_AMPDU_CTRL, if v == Name(On) then Byte(0) else Byte(1))
    case Switch(Amsdu, v) => x[at] == Leaf(TID_AMSDU_CTRL, if v == Name(On) then Byte(0) else Byte(1))
    case Switch(Noack, v) => x[at] == Leaf(TID_NOACK, if v == Name(On) then Byte(0) else Byte(1))
    case Switch(Rtscts, v) => x[at] == Leaf(TID_RTSCTS_CTRL, if v == Name(On) then Byte(0) else Byte(1))
    case Retry(Sretry, Plain(_, Some(n), _)) => x[at] == Leaf(TID_RETRY_SHORT, Byte(n % 0x100))
    case Retry(Lretry, Plain(_, Some(n), _)) => x[at] == Leaf(TID_RETRY_LONG, Byte(n % 0x100))
    case AutoRates => x[at] == Leaf(TID_TX_RATE_TYPE, Byte(0))
    case SomeRates(kind, args) =>
      && x[at] == Leaf(TID_TX_RATE_TYPE, if kind == Limit then Byte(1) else Byte(2))
      && RatesOf(args).Puts? && x[at + 1] == RatesOf(args).nest
    case _ => false
  }

  lemma {:induction false} CommandItems(items: seq<Item>, state: State, i: nat)
    requires Command(items, state) && i < |items|
    ensures Fine(items[i]) && (IsConf(items[i]) ==> state.PS_CONF? || HasTids(items[..i]))
    ensures items[i].PeerIs? ==> i == 0
  {
    if i > 0 {
      hide Fine;
      var next := if items[0].PeerIs? then PS_TIDS else PS_CONF;
      CommandItems(items[1..], next, i - 1);
      if items[0].TidsAre? {
        assert items[..i][0].TidsAre?;
      } else if HasTids(items[1..][..i - 1]) {
        var j :| 0 <= j < i - 1 && items[1..][..i - 1][j].TidsAre?;
        assert items[..i][j + 1].TidsAre?;
      }
    }
  }

  lemma {:induction false} NoMorePeers(items: seq<Item>, state: State)
    requires Command(items, state) && !state.PS_ADDR?
    ensures forall i | 0 <= i < |items| :: !items[i].PeerIs?
  {
    if items != [] {
      NoMorePeers(items[1..], PS_CONF);
    }
  }

  lemma ItemIsPut(item: Item)
    requires Fine(item) && !item.PeerIs?
    ensures var x := if item.TidsAre? then [MaskAttr(item.mask)] else ConfAttrs(item);
            |x| == Width(item) && PutsItem(x, 0, item)
  {
    hide SetBitratesOf, Args;
  }

  lemma LastItem(items: seq<Item>)
    requires items != []
    ensures var before, last := items[..|items| - 1], items[|items| - 1];
            && Opened(items) == Opened(before) + (if last.TidsAre? then 1 else 0)
            && Filled(items) == (if last.TidsAre? then 1 else Filled(before) + Width(last))
            && Entries(items) ==
               var e := Entries(before);
               if last.TidsAre? then e + [[MaskAttr(last.mask)]]
               else if last.PeerIs? || e == [] then e
               else e[|e| - 1 := e[|e| - 1] + ConfAttrs(last)]
  {
    hide ConfAttrs, MaskAttr;
  }

  lemma {:induction false} EntriesCount(items: seq<Item>)
    requires forall i | 0 <= i < |items| :: Fine(items[i])
    ensures |Entries(items)| == Opened(items)
    ensures Opened(items) > 0 ==> |Entries(items)[Opened(items) - 1]| == Filled(items)
    ensures HasTids(items) ==> Opened(items) > 0
  {
    if items != [] {
      hide Entries, Opened, Filled, ConfAttrs, MaskAttr, Fine, Width;
      var n := |items| - 1;
      LastItem(items);
      EntriesCount(items[..n]);
      if !items[n].PeerIs? { ItemIsPut(items[n]); } else { NoWidth(items[n]); }
      if HasTids(items) && !items[n].TidsAre? { TidsBefore(items); }
    }
  }

  lemma NoWidth(item: Item)
    requires item.PeerIs?
    ensures Width(item) == 0
  {
  }

  lemma TidsBefore(items: seq<Item>)
    requires items != [] && HasTids(items) && !items[|items| - 1].TidsAre?
    ensures HasTids(items[..|items| - 1])
  {
    var j :| 0 <= j < |items| && items[j].TidsAre?;
    assert items[..|items| - 1][j].TidsAre?;
  }

  /** Where item `i` begins in its entry. */
  function Start(items: seq<Item>, i: nat): nat
    requires i < |items|
  {
    if items[i].TidsAre? then 0 else Filled(items[..i])
  }

  /** Entry `x` holds what item `i` puts. */
  predicate Holds(x: Attrs, items: seq<Item>, i: nat)
    requires i < |items|
  {
    Start(items, i) + Width(items[i]) <= |x| && PutsItem(x, Start(items, i), items[i])
  }

  lemma HoldsMore(x: Attrs, y: Attrs, items: seq<Item>, i: nat)
    requires i < |items| && Holds(x, items, i)
    ensures Holds(x + y, items, i)
  {
  }

  lemma PutsLater(x: Attrs, y: Attrs, item: Item)
    requires |y| == Width(item) && PutsItem(y, 0, item) && !item.TidsAre?
    ensures PutsItem(x + y, |x|, item)
  {
  }

  lemma {:induction false} EntryHolds(items: seq<Item>, i: nat)
    requires i < |items| && forall j | 0 <= j < |items| :: Fine(items[j])
    requires items[i].TidsAre? || (IsConf(items[i]) && HasTids(items[..i]))
    ensures 1 <= Opened(items[..i + 1]) <= |Entries(items)|
    ensures Holds(Entries(items)[Opened(items[..i + 1]) - 1], items, i)
  {
    hide Entries, Opened, Filled, ConfAttrs, MaskAttr, Fine, Width, HasTids, PutsItem;
    var n := |items| - 1;
    var before := items[..n];
    LastItem(items);
    EntriesCount(before);
    EntriesCount(items);
    EntriesCount(items[..i]);
    if i < n {
      assert before[..i + 1] == items[..i + 1] && before[..i] == items[..i];
      EntryHolds(before, i);
      HoldsLonger(items, i, Opened(items[..i + 1]) - 1);
    } else {
      assert items[..i + 1] == items && items[..i] == before;
      ItemIsPut(items[n]);
      if IsConf(items[n]) {
        PutsLater(Entries(before)[|Entries(before)| - 1], ConfAttrs(items[n]), items[n]);
      }
    }
  }

  lemma HoldsLonger(items: seq<Item>, i: nat, k: nat)
    requires i < |items| - 1
    requires var before := items[..|items| - 1];
             k < |Entries(before)| && Holds(Entries(before)[k], before, i)
    ensures k < |Entries(items)| && Holds(Entries(items)[k], items, i)
  {
    hide Entries, Opened, Filled, ConfAttrs, MaskAttr, Width, PutsItem;
    var before := items[..|items| - 1];
    LastItem(items);
    assert before[..i] == items[..i];
    var e, f := Entries(before), Entries(items);
    assert Holds(e[k], items, i);
    if f[k] != e[k] {
      HoldsMore(e[k], ConfAttrs(items[|items| - 1]), items, i);
    }
  }

  /** The message is the peer, if any, and one nest of numbered entries, if any. */
  lemma MeaningShape(items: seq<Item>)
    requires items != [] && Fine(items[0])
    ensures var m, e := Meaning(items), Entries(items);
            && |m| == (if items[0].PeerIs? then 1 else 0) + (if e != [] then 1 else 0)
            && (items[0].PeerIs? ==> MacIn(items[0].mac).Some? && m[0] == Leaf(MAC, Mac(MacIn(items[0].mac).value)))
            && (e != [] ==> var nest := m[|m| - 1];
                            && nest.Nest? && nest.id == TID_CONFIG && |nest.attrs| == |e|
                            && forall k | 0 <= k < |e| :: nest.attrs[k] == Nest(Index(k), e[k]))
  {
    hide Entries, SetBitratesOf;
  }

  lemma EntryLength(items: seq<Item>, i: nat)
    requires i == |items| - 1 && !items[i].PeerIs? && forall j | 0 <= j < |items| :: Fine(items[j])
    requires Opened(items) > 0
    ensures |Entries(items)| == Opened(items)
    ensures |Entries(items)[Opened(items) - 1]| == Start(items, i) + Width(items[i])
  {
    hide Entries, Opened, Filled, Fine;
    EntriesCount(items);
    LastItem(items);
  }

  /**
   In the message of an accepted command every item stands in its entry, in order, with nothing between: the
   peer first, then one nest whose entries are numbered from 0.
   */
  lemma ItemsInPlace(items: seq<Item>, i: nat)
    requires Command(items, PS_ADDR) && i < |items| && !items[i].PeerIs?
    ensures var m := Meaning(items);
            && |m| == (if items[0].PeerIs? then 2 else 1)
            && (items[0].PeerIs? ==> MacIn(items[0].mac).Some? && m[0] == Leaf(MAC, Mac(MacIn(items[0].mac).value)))
            && 1 <= Opened(items[..i + 1]) <= Opened(items)
            && m[|m| - 1].Nest? && m[|m| - 1].id == TID_CONFIG && |m[|m| - 1].attrs| == Opened(items)
            && var entry := m[|m| - 1].attrs[Opened(items[..i + 1]) - 1];
            && entry.Nest? && entry.id == Index(Opened(items[..i + 1]) - 1)
            && Holds(entry.attrs, items, i)
            && (i == |items| - 1 ==> |entry.attrs| == Start(items, i) + Width(items[i]))
  {
    hide Command, Entries, Opened, Filled, Fine, Holds, MacIn, Meaning, HasTids, Start, Width;
    forall j | 0 <= j < |items| ensures Fine(items[j]) {
      CommandItems(items, PS_ADDR, j);
    }
    CommandItems(items, PS_ADDR, i);
    EntriesCount(items);
    EntryHolds(items, i);
    MeaningShape(items);
    if i == |items| - 1 {
      assert items[..i + 1] == items;
      EntryLength(items, i);
    }
  }

  // ----- handle_tid_config

  method ToggleTidParam(msg: Message<Value>, value: Token, attr: Id) returns (ret: int)
    modifies msg
    ensures ret == if value == Name(On) || value == Name(Off) then 0 else 2
    ensures ret == 0 ==> msg.outer == old(msg.outer)
    ensures ret == 0 ==> msg.attrs == old(msg.attrs) + [Leaf(attr, Byte(if value == Name(On) then 0 else 1))]
  {
    var val;
    if value == Name(On) {
      val := 0;
    } else if value == Name(Off) {
      val := 1;
    } else {
      return 2;
    }
    msg.Put(attr, Byte(val));
    ret := 0;
  }

  /** ParseConf by position in the arguments. */
  lemma ConfRuns(argv: seq<Token>, pos: nat)
    requires pos < |argv| && argv[pos] != Name(Tids)
    ensures Parse(PS_CONF, argv[pos..]) ==
      if argv[pos].Plain? then Rejected(HANDLER_RET_USAGE)
      else
        var k := argv[pos].keyword;
        if k.Override? then Prepend(Overrides, Parse(PS_CONF, argv[pos + 1..]))
        else if !Toggles(k) && !Retries(k) && !k.BitratesWord? then Rejected(HANDLER_RET_USAGE)
        else if pos + 1 == |argv| then Rejected(HANDLER_RET_USAGE)
        else if Toggles(k) then
          if argv[pos + 1] != Name(On) && argv[pos + 1] != Name(Off) then Rejected(2)
          else Prepend(Switch(k, argv[pos + 1]), Parse(PS_CONF, argv[pos + 2..]))
        else if Retries(k) then
          if NumberIn(argv[pos + 1]).None? then Rejected(2)
          else Prepend(Retry(k, argv[pos + 1]), Parse(PS_CONF, argv[pos + 2..]))
        else if argv[pos + 1] == Name(Auto) then Prepend(AutoRates, Parse(PS_CONF, argv[pos + 2..]))
        else if argv[pos + 1] != Name(Fixed) && argv[pos + 1] != Name(Limit) then Rejected(2)
        else
          var r := RatesOf(argv[pos + 2..]);
          if r.Fails? || r.ret < 2 then Rejected(1)
          else Prepend(SomeRates(argv[pos + 1].keyword, argv[pos + 2..pos + 2 + r.ret]),
              Parse(PS_CONF, argv[pos + 2 + r.ret..]))
  {
    hide RatesOf;
    var tokens := argv[pos..];
    assert tokens[1..] == argv[pos + 1..];
    if pos + 1 < |argv| {
      assert tokens[1] == argv[pos + 1] && tokens[2..] == argv[pos + 2..];
      var r := RatesOf(argv[pos + 2..]);
      if r.Puts? {
        assert tokens[2..2 + r.ret] == argv[pos + 2..pos + 2 + r.ret] && tokens[2 + r.ret..] == argv[pos + 2 + r.ret..];
      }
    }
  }

  /** One setting of PS_CONF. */
  method Setting(msg: Message<Value>, argv: seq<Token>, pos: nat) returns (ret: int, next: nat, ghost item: Item)
    requires pos < |argv| && argv[pos] != Name(Tids)
    modifies msg
    ensures ret != 0 ==> Parse(PS_CONF, argv[pos..]) == Rejected(ret)
    ensures ret == 0 ==>
      && pos < next <= |argv| && IsConf(item)
      && Parse(PS_CONF, argv[pos..]) == Prepend(item, Parse(PS_CONF, argv[next..]))
      && msg.outer == old(msg.outer) && msg.attrs == old(msg.attrs) + ConfAttrs(item)
  {
    hide Parse, RatesOf, Prepend;
    ConfRuns(argv, pos);
    ret, next, item := 0, pos, Overrides;
    if argv[pos].Plain? {
      return HANDLER_RET_USAGE, next, item;
    }
    var k := argv[pos].keyword;
    if k.Override? {
      msg.Put(TID_OVERRIDE, Flag);
      next := pos + 1;
    } else if Toggles(k) {
      if pos + 1 == |argv| {
        return HANDLER_RET_USAGE, next, item;
      }
      ret := ToggleTidParam(msg, argv[pos + 1], SwitchId(k));
      if ret != 0 {
        return;
      }
      next, item := pos + 2, Switch(k, argv[pos + 1]);
    } else if Retries(k) {
      if pos + 1 == |argv| {
        return HANDLER_RET_USAGE, next, item;
      }
      if NumberIn(argv[pos + 1]).None? {
        return 2, next, item;
      }
      msg.Put(if k.Sretry? then TID_RETRY_SHORT else TID_RETRY_LONG, Byte(NumberIn(argv[pos + 1]).value % 0x100));
      next, item := pos + 2, Retry(k, argv[pos + 1]);
    } else if k.BitratesWord? {
      ret, next, item := RatesSetting(msg, argv, pos);
    } else {
      return HANDLER_RET_USAGE, next, item;
    }
  }

  method RatesSetting(msg: Message<Value>, argv: seq<Token>, pos: nat) returns (ret: int, next: nat, ghost item: Item)
    requires pos < |argv| && argv[pos] == Name(BitratesWord)
    modifies msg
    ensures ret != 0 ==> Parse(PS_CONF, argv[pos..]) == Rejected(ret)
    ensures ret == 0 ==>
      && pos < next <= |argv| && IsConf(item)
      && Parse(PS_CONF, argv[pos..]) == Prepend(item, Parse(PS_CONF, argv[next..]))
      && msg.outer == old(msg.outer) && msg.attrs == old(msg.attrs) + ConfAttrs(item)
  {
    hide Parse, SetBitratesOf, Prepend, Args;
    ConfRuns(argv, pos);
    ret, next, item := 0, pos, AutoRates;
    if pos + 1 == |argv| {
      return HANDLER_RET_USAGE, next, item;
    }
    var txrateType;
    if argv[pos + 1] == Name(Auto) {
      txrateType := 0;
    } else if argv[pos + 1] == Name(Fixed) {
      txrateType := 2;
    } else if argv[pos + 1] == Name(Limit) {
      txrateType := 1;
    } else {
      return 2, next, item;
    }
    msg.Put(TID_TX_RATE_TYPE, Byte(txrateType));
    next := pos + 2;
    if txrateType != 0 {
      var used := SetBitrates(msg, Args(argv[next..]), TID_TX_RATE);
      if used < 2 {
        return 1, next, item;
      }
      RatesTakeAll(argv[next..]);
      item := SomeRates(argv[pos + 1].keyword, argv[next..next + used]);
      assert argv[next..next + used] == argv[next..];
      next := next + used;
    }
  }

  function PrependAll(items: seq<Item>, r: Result): Result {
    if r.Accepted? then Accepted(items + r.items) else r
  }

  lemma PrependOneMore(items: seq<Item>, item: Item, r: Result)
    ensures PrependAll(items, Prepend(item, r)) == PrependAll(items + [item], r)
  {
    if r.Accepted? { assert items + ([item] + r.items) == items + [item] + r.items; }
  }

  /** Every nest opened is closed on success, and the entries are numbered in order. */
  method HandleTidConfig(msg: Message<Value>, argv: seq<Token>) returns (ret: int)
    modifies msg
    ensures match Parse(PS_ADDR, argv)
            case Rejected(err) => ret == err
            case Accepted(items) =>
              ret == 0 && msg.outer == old(msg.outer) && msg.attrs == old(msg.attrs) + Meaning(items)
  {
    hide Parse, Entries, PeerAttrs, ConfAttrs, Shape, Handles;
    ghost var outer0, attrs0 := msg.outer, msg.attrs;
    var tidsArray, tidsEntry, tidsNum := None, None, 0;
    var parseState, pos := PS_ADDR, 0;
    ghost var items: seq<Item> := [];
    Begin(argv, outer0, attrs0);
    while pos < |argv|
      invariant pos <= |argv| && PrependAll(items, Parse(parseState, argv[pos..])) == Parse(PS_ADDR, argv)
      invariant Shape(msg.outer, msg.attrs, outer0, attrs0, items)
      invariant Handles(tidsArray, tidsEntry, tidsNum, |outer0|, |Entries(items)|)
      invariant parseState.PS_ADDR? ==> items == []
      invariant parseState.PS_CONF? ==> Entries(items) != []
      decreases |argv| - pos, !parseState.PS_TIDS?
    {
      ghost var item;
      match parseState {
        case PS_ADDR =>
          AddrRuns(argv, pos);
          if argv[pos] == Name(Peer) {
            if pos + 1 == |argv| {
              return HANDLER_RET_USAGE;
            }
            if MacIn(argv[pos + 1]).None? {
              return 2;
            }
            ghost var attrs := msg.attrs;
            msg.Put(MAC, Mac(MacIn(argv[pos + 1]).value));
            ShapePeer(msg.outer, attrs, outer0, attrs0, argv[pos + 1]);
            PrependOneMore(items, PeerIs(argv[pos + 1]), Parse(PS_TIDS, argv[pos + 2..]));
            items := items + [PeerIs(argv[pos + 1])];
            pos := pos + 2;
            parseState := PS_TIDS;
          } else if argv[pos] == Name(Tids) {
            parseState := PS_TIDS;
          } else {
            return HANDLER_RET_USAGE;
          }
        case PS_TIDS =>
          TidsRuns(argv, pos);
          if argv[pos] == Name(Tids) {
            if pos + 1 == |argv| {
              return HANDLER_RET_USAGE;
            }
            if NumberIn(argv[pos + 1]).None? {
              return 2;
            }
            tidsArray, tidsEntry, tidsNum := OpenEntry(msg, argv[pos + 1], tidsArray, tidsEntry, tidsNum, outer0,
                attrs0, items);
            PrependOneMore(items, TidsAre(argv[pos + 1]), Parse(PS_CONF, argv[pos + 2..]));
            items := items + [TidsAre(argv[pos + 1])];
            pos := pos + 2;
            parseState := PS_CONF;
          } else {
            return HANDLER_RET_USAGE;
          }
        case PS_CONF =>
          if argv[pos] == Name(Tids) {
            ConfToTids(argv, pos);
            parseState := PS_TIDS;
          } else {
            ghost var attrs := msg.attrs;
            ret, pos, item := Setting(msg, argv, pos);
            if ret != 0 {
              return;
            }
            ShapeConf(msg.outer, attrs, outer0, attrs0, items, item);
            PrependOneMore(items, item, Parse(PS_CONF, argv[pos..]));
            items := items + [item];
          }
      }
    }
    Done(parseState, argv, pos, items);
    CloseAll(msg, tidsArray, tidsEntry, tidsNum, outer0, attrs0, items);
    ret := 0;
  }

  method CloseAll(msg: Message<Value>, tidsArray: Option<nat>, tidsEntry: Option<nat>, ghost tidsNum: nat,
                  ghost outer0: seq<Open<Value>>, ghost attrs0: Attrs, ghost items: seq<Item>)
    requires Shape(msg.outer, msg.attrs, outer0, attrs0, items)
    requires Handles(tidsArray, tidsEntry, tidsNum, |outer0|, |Entries(items)|)
    modifies msg
    ensures msg.outer == outer0 && msg.attrs == attrs0 + Meaning(items)
  {
    hide Entries, PeerAttrs, Numbered;
    if tidsEntry.Some? {
      NumberedSnoc(Entries(items));
      msg.NestEnd(tidsEntry.value);
      assert msg.outer == outer0 + [Open(TID_CONFIG, attrs0 + PeerAttrs(items))];
    }
    if tidsArray.Some? {
      msg.NestEnd(tidsArray.value);
      assert attrs0 + PeerAttrs(items) + [Nest(TID_CONFIG, Numbered(Entries(items)))] == attrs0 + Meaning(items);
    } else {
      assert PeerAttrs(items) + [] == PeerAttrs(items);
    }
  }

  lemma Begin(argv: seq<Token>, outer0: seq<Open<Value>>, attrs0: Attrs)
    ensures PrependAll([], Parse(PS_ADDR, argv[0..])) == Parse(PS_ADDR, argv)
    ensures Shape(outer0, attrs0, outer0, attrs0, [])
    ensures Handles(None, None, 0, |outer0|, |Entries([])|)
  {
    assert argv[0..] == argv && attrs0 + [] == attrs0;
    var r := Parse(PS_ADDR, argv);
    if r.Accepted? { assert [] + r.items == r.items; }
  }

  lemma AddrRuns(argv: seq<Token>, pos: nat)
    requires pos < |argv|
    ensures Parse(PS_ADDR, argv[pos..]) ==
      if argv[pos] == Name(Peer) then
        if pos + 1 == |argv| then Rejected(HANDLER_RET_USAGE)
        else if MacIn(argv[pos + 1]).None? then Rejected(2)
        else Prepend(PeerIs(argv[pos + 1]), Parse(PS_TIDS, argv[pos + 2..]))
      else if argv[pos] == Name(Tids) then Parse(PS_TIDS, argv[pos..])
      else Rejected(HANDLER_RET_USAGE)
  {
    hide ParseConf;
    if pos + 1 < |argv| { assert argv[pos..][2..] == argv[pos + 2..]; }
  }

  lemma TidsRuns(argv: seq<Token>, pos: nat)
    requires pos < |argv|
    ensures Parse(PS_TIDS, argv[pos..]) ==
      if argv[pos] != Name(Tids) || pos + 1 == |argv| then Rejected(HANDLER_RET_USAGE)
      else if NumberIn(argv[pos + 1]).None? then Rejected(2)
      else Prepend(TidsAre(argv[pos + 1]), Parse(PS_CONF, argv[pos + 2..]))
  {
    hide ParseConf;
    if pos + 1 < |argv| { assert argv[pos..][2..] == argv[pos + 2..]; }
  }

  lemma ConfToTids(argv: seq<Token>, pos: nat)
    requires pos < |argv| && argv[pos] == Name(Tids)
    ensures Parse(PS_CONF, argv[pos..]) == Parse(PS_TIDS, argv[pos..])
  {
  }

  lemma ShapePeer(outer: seq<Open<Value>>, attrs: Attrs, outer0: seq<Open<Value>>, attrs0: Attrs, mac: Token)
    requires MacIn(mac).Some? && Shape(outer, attrs, outer0, attrs0, [])
    ensures Shape(outer, attrs + [Leaf(MAC, Mac(MacIn(mac).value))], outer0, attrs0, [] + [PeerIs(mac)])
    ensures Entries([] + [PeerIs(mac)]) == Entries([])
  {
    EntriesSnoc([], PeerIs(mac));
    assert ([] + [PeerIs(mac)])[0] == PeerIs(mac);
  }

  lemma Done(state: State, argv: seq<Token>, pos: nat, items: seq<Item>)
    requires pos == |argv|
    ensures PrependAll(items, Parse(state, argv[pos..])) == Accepted(items)
  {
    assert argv[pos..] == [] && items + [] == items;
  }
}
