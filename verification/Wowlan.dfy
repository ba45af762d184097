/**
 handle_wowlan_enable of iw/wowlan.c: an outer loop over trigger words that hands the arguments
 after "net-detect" to parse_sched_scan and goes on where that stopped.
 */
module Wowlan {
  import opened Netlink
  import opened SchedScan
  import opened ScanParser
  import opened Wrappers

  /** What wowlan_parse_tcp_file puts into the message for a file name, and its error code. */
  datatype TcpFile = TcpFile(err: int, attrs: Attrs)

  /** What an argument means as a packet pattern: offset, mask and bytes, if it can be read. */
  datatype Pattern = Pattern(offset: nat, mask: seq<bv8>, bytes: seq<bv8>)

  /** The parts of the command that read files and hexadecimal text. */
  datatype Env = Env(tcpFile: Token -> TcpFile, pattern: Token -> Option<Pattern>)

  datatype Part =
    | On(trigger: Token)
    | TcpPart(file: Token)
    | Detect(clauses: seq<Clause>)
    | PatternList(items: seq<Token>)

  datatype Result = Rejected(err: int) | Accepted(parts: seq<Part>)

  function Prepend(part: Part, r: Result): Result {
    if r.Accepted? then Accepted([part] + r.parts) else r
  }

  /** PS_REG. Every turn consumes an argument, since "net-detect" goes before parse_sched_scan starts. */
  function Parse(env: Env, tokens: seq<Token>): Result
    decreases |tokens|
  {
    if tokens == [] then Accepted([])
    else match tokens[0]
      case Trigger(_) => Prepend(On(tokens[0]), Parse(env, tokens[1..]))
      case Tcp =>
        if |tokens| == 1 then Rejected(1)
        else if env.tcpFile(tokens[1]).err != 0 then Rejected(env.tcpFile(tokens[1]).err)
        else Prepend(TcpPart(tokens[1]), Parse(env, tokens[2..]))
      case Patterns => ParsePatterns(env, [], tokens[1..])
      case NetDetect =>
        if |tokens| == 1 then Rejected(1)
        else (match Run([], Top, tokens[1..])
          case Failed(e) => Rejected(e)
          case Parsed(cs, rest) => Prepend(Detect(cs), Parse(env, rest)))
      case _ => Rejected(1)
  }

  /** PS_PAT, which is never left. */
  function ParsePatterns(env: Env, items: seq<Token>, tokens: seq<Token>): Result
    decreases |tokens|
  {
    if tokens == [] then Accepted([PatternList(items)])
    else if env.pattern(tokens[0]).None? then Rejected(1)
    else ParsePatterns(env, items + [tokens[0]], tokens[1..])
  }

  // ----- The accepted commands

  function RenderPart(part: Part): seq<Token> {
    match part
    case On(t) => [t]
    case TcpPart(file) => [Tcp, file]
    case Detect(cs) => [NetDetect] + RenderAll(cs)
    case PatternList(items) => [Patterns] + items
  }

  function RenderParts(parts: seq<Part>): seq<Token> {
    if parts == [] then [] else RenderPart(parts[0]) + RenderParts(parts[1..])
  }

  predicate GoodPart(env: Env, part: Part) {
    match part
    case On(t) => t.Trigger?
    case TcpPart(file) => env.tcpFile(file).err == 0
    case Detect(cs) => SchedScan.Valid(cs)
    case PatternList(items) => forall i | 0 <= i < |items| :: env.pattern(items[i]).Some?
  }

  /** `part` may stand before other parts: patterns take all that follows, a schedule must be complete. */
  predicate MayPrecede(part: Part) {
    match part
    case PatternList(_) => false
    case Detect(cs) => cs != [] ==> Closed(cs[|cs| - 1])
    case _ => true
  }

  /** "net-detect" cannot be the last argument. */
  predicate MayEnd(part: Part) {
    part.Detect? ==> part.clauses != []
  }

  predicate Command(env: Env, parts: seq<Part>) {
    parts != [] ==>
      && GoodPart(env, parts[0])
      && (if |parts| == 1 then MayEnd(parts[0]) else MayPrecede(parts[0]))
      && Command(env, parts[1..])
  }

  lemma {:induction false} PatternsRead(env: Env, items: seq<Token>, tokens: seq<Token>)
    ensures ParsePatterns(env, items, tokens) ==
      if forall i | 0 <= i < |tokens| :: env.pattern(tokens[i]).Some? then Accepted([PatternList(items + tokens)])
      else Rejected(1)
    decreases |tokens|
  {
    if tokens == [] {
      assert items + tokens == items;
    } else if env.pattern(tokens[0]).Some? {
      PatternsRead(env, items + [tokens[0]], tokens[1..]);
      assert items + [tokens[0]] + tokens[1..] == items + tokens;
      assert forall i | 1 <= i < |tokens| :: tokens[i] == tokens[1..][i - 1];
    }
  }

  /** A part in front of a command. */
  lemma Cons(env: Env, part: Part, parts: seq<Part>, tokens: seq<Token>, rest: seq<Token>)
    requires Command(env, parts) && RenderParts(parts) == rest
    requires GoodPart(env, part) && if parts == [] then MayEnd(part) else MayPrecede(part)
    requires tokens == RenderPart(part) + rest
    ensures Command(env, [part] + parts) && RenderParts([part] + parts) == tokens
  {
    hide GoodPart, MayEnd, MayPrecede, RenderPart;
    assert ([part] + parts)[1..] == parts;
  }

  lemma NoParts(env: Env)
    ensures Command(env, []) && RenderParts([]) == []
  {
  }

  /** Accepted arguments are a command. */
  lemma {:induction false} AcceptedIsCommand(env: Env, tokens: seq<Token>)
    ensures var r := Parse(env, tokens);
            r.Accepted? ==> Command(env, r.parts) && RenderParts(r.parts) == tokens
    decreases |tokens|
  {
    hide Run, RenderAll, SchedScan.Valid, Command, RenderParts, Closed, ParsePatterns;
    NoParts(env);
    if tokens != [] && Parse(env, tokens).Accepted? {
      match tokens[0]
      case Trigger(_) =>
        AcceptedIsCommand(env, tokens[1..]);
        Cons(env, On(tokens[0]), Parse(env, tokens[1..]).parts, tokens, tokens[1..]);
      case Tcp =>
        AcceptedIsCommand(env, tokens[2..]);
        assert tokens == [Tcp, tokens[1]] + tokens[2..];
        Cons(env, TcpPart(tokens[1]), Parse(env, tokens[2..]).parts, tokens, tokens[2..]);
      case Patterns =>
        PatternsRead(env, [], tokens[1..]);
        var part := PatternList([] + tokens[1..]);
        assert [] + tokens[1..] == tokens[1..];
        Cons(env, part, [], tokens, []);
        assert [part] + [] == [part];
      case NetDetect =>
        var r := Run([], Top, tokens[1..]);
        AcceptedIsCommand(env, r.rest);
        DetectIsCommand(env, tokens, r.clauses, r.rest, Parse(env, r.rest).parts);
    }
  }

  lemma DetectIsCommand(env: Env, tokens: seq<Token>, cs: seq<Clause>, rest: seq<Token>, parts: seq<Part>)
    requires |tokens| > 1 && tokens[0] == NetDetect && Run([], Top, tokens[1..]) == Parsed(cs, rest)
    requires Command(env, parts) && RenderParts(parts) == rest
    ensures Command(env, [Detect(cs)] + parts) && RenderParts([Detect(cs)] + parts) == tokens
  {
    hide Run, RenderAll, SchedScan.Valid, Closed, Absorbs, Command, RenderParts;
    AcceptsExactlySentences(tokens[1..]);
    assert Sentence(tokens[1..], cs, rest);
    assert tokens == [NetDetect] + tokens[1..] == [NetDetect] + RenderAll(cs) + rest;
    RenderNothing();
    assert [] + rest == rest;
    NoParts(env);
    assert parts != [] ==> rest != [] by { if parts != [] { PartStarts(env, parts); } }
    Cons(env, Detect(cs), parts, tokens, rest);
  }

  lemma PartStarts(env: Env, parts: seq<Part>)
    requires Command(env, parts) && parts != []
    ensures var all := RenderParts(parts);
            all != [] && !IsKey(all[0]) && !all[0].Ssid? && !all[0].Number?
  {
  }

  lemma DetectStops(env: Env, cs: seq<Clause>, parts: seq<Part>)
    requires Command(env, parts) && (parts != [] ==> MayPrecede(Detect(cs)))
    ensures Stops(cs, RenderParts(parts))
  {
    hide Closed, RenderPart;
    if parts != [] { PartStarts(env, parts); }
  }

  lemma OnRead(env: Env, t: Token, rest: seq<Token>)
    requires t.Trigger?
    ensures Parse(env, [t] + rest) == Prepend(On(t), Parse(env, rest))
  {
    assert ([t] + rest)[1..] == rest;
  }

  lemma TcpRead(env: Env, file: Token, rest: seq<Token>)
    requires env.tcpFile(file).err == 0
    ensures Parse(env, [Tcp, file] + rest) == Prepend(TcpPart(file), Parse(env, rest))
  {
    assert ([Tcp, file] + rest)[2..] == rest;
  }

  lemma PatternListRead(env: Env, items: seq<Token>)
    requires forall i | 0 <= i < |items| :: env.pattern(items[i]).Some?
    ensures Parse(env, [Patterns] + items) == Accepted([PatternList(items)])
  {
    PatternsRead(env, [], items);
    assert ([Patterns] + items)[1..] == items && [] + items == items;
  }

  lemma DetectRead(env: Env, cs: seq<Clause>, rest: seq<Token>)
    requires SchedScan.Valid(cs) && Stops(cs, rest) && RenderAll(cs) + rest != []
    ensures Parse(env, [NetDetect] + RenderAll(cs) + rest) == Prepend(Detect(cs), Parse(env, rest))
  {
    hide Run, RenderAll, SchedScan.Valid, Stops;
    SentenceIsRead(cs, rest);
    assert ([NetDetect] + RenderAll(cs) + rest)[1..] == RenderAll(cs) + rest;
  }

  /** A command is accepted, and read as the parts it was made of. */
  lemma {:induction false} CommandIsAccepted(env: Env, parts: seq<Part>)
    requires Command(env, parts)
    ensures Parse(env, RenderParts(parts)) == Accepted(parts)
    decreases |parts|
  {
    if parts != [] {
      hide Parse, RenderAll, SchedScan.Valid, Closed, Stops, MayPrecede;
      var part, others := parts[0], parts[1..];
      var rest := RenderParts(others);
      assert parts == [part] + others;
      CommandIsAccepted(env, others);
      match part
      case On(t) => OnRead(env, t, rest);
      case TcpPart(file) => TcpRead(env, file, rest);
      case PatternList(items) =>
        PatternsLast(env, parts);
        PatternListRead(env, items);
        assert [Patterns] + items + [] == [Patterns] + items;
      case Detect(cs) =>
        DetectStops(env, cs, others);
        if others == [] { ClausesRender(cs); } else { PartStarts(env, others); }
        DetectRead(env, cs, rest);
    }
  }

  lemma PatternsLast(env: Env, parts: seq<Part>)
    requires Command(env, parts) && parts != [] && parts[0].PatternList?
    ensures parts[1..] == []
  {
  }

  lemma ClausesRender(cs: seq<Clause>)
    ensures cs != [] ==> RenderAll(cs) != []
  {
  }

  /** The arguments accepted are exactly the commands, each read in one way. */
  lemma AcceptsExactlyCommands(env: Env, tokens: seq<Token>, parts: seq<Part>)
    ensures Parse(env, tokens) == Accepted(parts) <==> Command(env, parts) && RenderParts(parts) == tokens
  {
    hide Parse, Command, RenderParts;
    AcceptedIsCommand(env, tokens);
    if Command(env, parts) { CommandIsAccepted(env, parts); }
  }

  /** What a single argument comes to, and one with its file or pattern. */
  lemma OneArgument(env: Env, t: Token)
    ensures Parse(env, [t]) == match t
      case Trigger(_) => Accepted([On(t)])
      case Patterns => Accepted([PatternList([])])
      case _ => Rejected(1)
    ensures var err := env.tcpFile(t).err;
            Parse(env, [Tcp, t]) == if err == 0 then Accepted([TcpPart(t)]) else Rejected(err)
    ensures Parse(env, [Patterns, t]) == if env.pattern(t).Some? then Accepted([PatternList([t])]) else Rejected(1)
  {
    hide Run;
    assert [t][1..] == [] && [Tcp, t][2..] == [] && [Patterns, t][1..] == [t] && [] + [t] == [t];
    assert Parse(env, []) == Accepted([]) && ParsePatterns(env, [], []) == Accepted([PatternList([])]);
    PatternsRead(env, [], [t]);
  }

  // ----- The commands, part by part

  /** Part `i` can stand where it does: patterns last, a schedule complete before others and not empty at the end. */
  predicate Stands(env: Env, parts: seq<Part>, i: nat)
    requires i < |parts|
  {
    var last := i == |parts| - 1;
    match parts[i]
    case On(Trigger(_)) => true
    case TcpPart(file) => env.tcpFile(file).err == 0
    case Detect(cs) => SchedScan.Valid(cs) && if cs == [] then !last else last || Closed(cs[|cs| - 1])
    case PatternList(items) => last && forall j | 0 <= j < |items| :: env.pattern(items[j]).Some?
    case _ => false
  }

  predicate AllStand(env: Env, parts: seq<Part>) {
    forall i | 0 <= i < |parts| :: Stands(env, parts, i)
  }

  lemma StandsTail(env: Env, parts: seq<Part>, i: nat)
    requires 0 < i < |parts|
    ensures Stands(env, parts, i) <==> Stands(env, parts[1..], i - 1)
  {
    hide SchedScan.Valid, Closed;
  }

  lemma FirstStands(env: Env, parts: seq<Part>)
    requires parts != []
    ensures Command(env, parts) <==> Stands(env, parts, 0) && Command(env, parts[1..])
  {
    hide SchedScan.Valid, Closed;
  }

  /** The commands, without the recursion. */
  lemma {:induction false} CommandExactlyWhen(env: Env, parts: seq<Part>)
    ensures Command(env, parts) <==> AllStand(env, parts)
  {
    if parts != [] {
      hide Stands, Command;
      CommandExactlyWhen(env, parts[1..]);
      FirstStands(env, parts);
      forall i | 0 < i < |parts| ensures Stands(env, parts, i) <==> Stands(env, parts[1..], i - 1) {
        StandsTail(env, parts, i);
      }
      AllStandTail(env, parts);
    } else {
      NoParts(env);
    }
  }

  lemma AllStandTail(env: Env, parts: seq<Part>)
    requires parts != []
    requires forall i | 0 < i < |parts| :: Stands(env, parts, i) <==> Stands(env, parts[1..], i - 1)
    ensures AllStand(env, parts) <==> Stands(env, parts, 0) && AllStand(env, parts[1..])
  {
    hide Stands;
    if Stands(env, parts, 0) && AllStand(env, parts[1..]) {
      forall i | 0 <= i < |parts| ensures Stands(env, parts, i) {
        if i > 0 { assert Stands(env, parts[1..], i - 1); }
      }
    }
    if AllStand(env, parts) {
      forall i | 0 <= i < |parts| - 1 ensures Stands(env, parts[1..], i) {
        assert Stands(env, parts, i + 1);
      }
    }
  }

  // ----- The message

  function PatternAttr(env: Env, i: nat, t: Token): Attr<Value> {
    Nest(Index(i + 1), match env.pattern(t)
      case None => []
      case Some(p) => [Leaf(PKTPAT_MASK, Data(p.mask)), Leaf(PKTPAT_PATTERN, Data(p.bytes)),
            Leaf(PKTPAT_OFFSET, U32(p.offset))])
  }

  function PatternAttrs(env: Env, items: seq<Token>): Attrs {
    if items == [] then []
    else PatternAttrs(env, items[..|items| - 1]) + [PatternAttr(env, |items| - 1, items[|items| - 1])]
  }

  function PartAttrs(env: Env, part: Part, last: bool): Attrs {
    match part
    case On(t) => if t.Trigger? then [Leaf(WOWLAN_TRIGGER(t.name), Set)] else []
    case TcpPart(file) => env.tcpFile(file).attrs
    case Detect(cs) => [Nest(WOWLAN_NET_DETECT, Meaning(cs, last))]
    case PatternList(items) => [Nest(WOWLAN_PKT_PATTERN, PatternAttrs(env, items))]
  }

  /** `ended`: nothing follows the last part. */
  function AllAttrs(env: Env, parts: seq<Part>, ended: bool): Attrs {
    if parts == [] then []
    else AllAttrs(env, parts[..|parts| - 1], false) + PartAttrs(env, parts[|parts| - 1], ended)
  }

  lemma AllAttrsSnoc(env: Env, parts: seq<Part>, part: Part, ended: bool)
    ensures AllAttrs(env, parts + [part], ended) == AllAttrs(env, parts, false) + PartAttrs(env, part, ended)
  {
    assert (parts + [part])[..|parts|] == parts;
  }

  lemma {:induction false} AttrsUpTo(env: Env, parts: seq<Part>, n: nat, ended: bool)
    requires n <= |parts|
    ensures AllAttrs(env, parts[..n], ended && n == |parts|) <= AllAttrs(env, parts, ended)
    decreases |parts|
  {
    if n == |parts| {
      assert parts[..n] == parts;
    } else {
      var front := parts[..|parts| - 1];
      AttrsUpTo(env, front, n, false);
      assert front[..n] == parts[..n];
    }
  }

  /**
   In any command: a net-detect schedule keeps its lists exactly when it ends the command. Whatever
   follows empties its nest of them.
   */
  lemma NetDetectKeepsListsExactlyAtEnd(env: Env, parts: seq<Part>, i: nat)
    requires i < |parts| && parts[i].Detect?
    ensures var cs, last := parts[i].clauses, i == |parts| - 1;
            && AllAttrs(env, parts[..i], false) + [Nest(WOWLAN_NET_DETECT, Meaning(cs, last))]
                  <= AllAttrs(env, parts, true)
            && (Meaning(cs, last) == Meaning(cs, true) <==> last)
  {
    hide AllAttrs, Meaning;
    StoppingLosesLists(parts[i].clauses);
    AttrsUpTo(env, parts, i + 1, true);
    AllAttrsSnoc(env, parts[..i], parts[i], i == |parts| - 1);
    assert parts[..i + 1] == parts[..i] + [parts[i]];
  }

  /** How many attributes a part puts. */
  function Width(env: Env, part: Part): nat {
    if part.TcpPart? then |env.tcpFile(part.file).attrs| else 1
  }

  function Place(env: Env, parts: seq<Part>): nat {
    if parts == [] then 0 else Place(env, parts[..|parts| - 1]) + Width(env, parts[|parts| - 1])
  }

  predicate IsPattern(env: Env, a: Attr<Value>, number: nat, item: Token) {
    a.Nest? && a.id == Index(number) && match env.pattern(item)
    case None => false
    case Some(Pattern(offset, mask, bytes)) =>
      a.attrs == [Leaf(PKTPAT_MASK, Data(mask)), Leaf(PKTPAT_PATTERN, Data(bytes)), Leaf(PKTPAT_OFFSET, U32(offset))]
  }

  /** What a part puts: a flag for a trigger, all of the TCP file, and a nest for a schedule and for the patterns. */
  predicate PutsPart(env: Env, x: Attrs, part: Part, last: bool) {
    match part
    case On(Trigger(name)) => x == [Leaf(WOWLAN_TRIGGER(name), Set)]
    case TcpPart(file) => x == env.tcpFile(file).attrs
    case Detect(cs) => x == [Nest(WOWLAN_NET_DETECT, Meaning(cs, last))]
    case PatternList(items) =>
      && |x| == 1 && x[0].Nest? && x[0].id == WOWLAN_PKT_PATTERN && |x[0].attrs| == |items|
      && forall i | 0 <= i < |items| :: IsPattern(env, x[0].attrs[i], i + 1, items[i])
    case _ => false
  }

  lemma {:induction false} PatternsNumbered(env: Env, items: seq<Token>)
    requires forall i | 0 <= i < |items| :: env.pattern(items[i]).Some?
    ensures |PatternAttrs(env, items)| == |items|
    ensures forall i | 0 <= i < |items| :: IsPattern(env, PatternAttrs(env, items)[i], i + 1, items[i])
  {
    if items != [] {
      hide IsPattern, PatternAttr;
      var n := |items| - 1;
      PatternsNumbered(env, items[..n]);
      PatternNumbered(env, n, items[n]);
    }
  }

  lemma PatternNumbered(env: Env, i: nat, t: Token)
    requires env.pattern(t).Some?
    ensures IsPattern(env, PatternAttr(env, i, t), i + 1, t)
  {
  }

  lemma PartIsPut(env: Env, part: Part, last: bool)
    requires GoodPart(env, part)
    ensures |PartAttrs(env, part, last)| == Width(env, part) && PutsPart(env, PartAttrs(env, part, last), part, last)
  {
    hide Meaning, SchedScan.Valid, PatternAttrs, IsPattern;
    if part.PatternList? { PatternsNumbered(env, part.items); }
  }

  lemma {:induction false} GoodParts(env: Env, parts: seq<Part>, i: nat)
    requires Command(env, parts) && i < |parts|
    ensures GoodPart(env, parts[i])
  {
    if i > 0 {
      hide GoodPart, MayEnd, MayPrecede;
      GoodParts(env, parts[1..], i - 1);
    }
  }

  lemma {:induction false} Widths(env: Env, parts: seq<Part>, ended: bool)
    requires forall i | 0 <= i < |parts| :: GoodPart(env, parts[i])
    ensures |AllAttrs(env, parts, ended)| == Place(env, parts)
  {
    if parts != [] {
      hide GoodPart, PartAttrs, PutsPart, Width;
      var n := |parts| - 1;
      Widths(env, parts[..n], false);
      PartIsPut(env, parts[n], ended);
    }
  }

  /** The nest holds what the parts of the command put, in order, and nothing else. */
  lemma PartsInOrder(env: Env, parts: seq<Part>, i: nat)
    requires Command(env, parts) && i < |parts|
    ensures |AllAttrs(env, parts, true)| == Place(env, parts)
    ensures var at := Place(env, parts[..i]);
            && at + Width(env, parts[i]) <= Place(env, parts)
            && PutsPart(env, AllAttrs(env, parts, true)[at..at + Width(env, parts[i])], parts[i], i == |parts| - 1)
  {
    hide AllAttrs, GoodPart, PartAttrs, PutsPart, Width, Place;
    forall j | 0 <= j < |parts| ensures GoodPart(env, parts[j]) {
      GoodParts(env, parts, j);
    }
    var last := i == |parts| - 1;
    Widths(env, parts, true);
    Widths(env, parts[..i], false);
    PartIsPut(env, parts[i], last);
    AttrsUpTo(env, parts, i + 1, true);
    AllAttrsSnoc(env, parts[..i], parts[i], last);
    assert parts[..i + 1] == parts[..i] + [parts[i]];
    Within(AllAttrs(env, parts[..i], false), PartAttrs(env, parts[i], last), AllAttrs(env, parts, true));
  }

  lemma Within(a: Attrs, b: Attrs, c: Attrs)
    requires a + b <= c
    ensures c[|a|..|a| + |b|] == b
  {
  }

  // ----- handle_wowlan_enable

  method PutAll(msg: Message<Value>, attrs: Attrs)
    modifies msg
    ensures msg.outer == old(msg.outer) && msg.attrs == old(msg.attrs) + attrs
  {
    msg.attrs := msg.attrs + attrs;
  }

  method ParseNetDetect(msg: Message<Value>, argv: seq<Token>) returns (err: int, pos: nat)
    modifies msg
    ensures msg.outer == old(msg.outer) && pos <= |argv|
    ensures match Run([], Top, argv)
            case Failed(e) => err == e
            case Parsed(cs, rest) =>
              && err == 0 && argv[pos..] == rest
              && msg.attrs == old(msg.attrs) + [Nest(WOWLAN_NET_DETECT, Meaning(cs, rest == []))]
  {
    hide Run, Meaning;
    var nd := msg.NestStart(WOWLAN_NET_DETECT);
    err, pos := ParseSchedScan(msg, argv);
    assert forall attrs: Attrs :: [] + attrs == attrs;
    msg.NestEnd(nd);
  }

  /** What the rest of the loop will come to; `parts` are read, `items` are the patterns if the list is open. */
  function Rest(env: Env, parts: seq<Part>, open: bool, items: seq<Token>, tokens: seq<Token>): Result {
    PrependAll(parts, if open then ParsePatterns(env, items, tokens) else Parse(env, tokens))
  }

  function PrependAll(parts: seq<Part>, r: Result): Result {
    if r.Accepted? then Accepted(parts + r.parts) else r
  }

  lemma RestReads(env: Env, parts: seq<Part>, part: Part, tokens: seq<Token>, next: seq<Token>)
    requires Parse(env, tokens) == Prepend(part, Parse(env, next))
    ensures Rest(env, parts, false, [], tokens) == Rest(env, parts + [part], false, [], next)
  {
    hide Parse;
    var r := Parse(env, next);
    if r.Accepted? {
      assert parts + ([part] + r.parts) == parts + [part] + r.parts;
    }
  }

  datatype ParseState = PS_REG | PS_PAT

  method HandleWowlanEnable(msg: Message<Value>, argv: seq<Token>, env: Env) returns (err: int)
    modifies msg
    ensures match Parse(env, argv)
            case Rejected(e) => err == e
            case Accepted(parts) =>
              && err == 0 && msg.outer == old(msg.outer)
              && msg.attrs == old(msg.attrs) + [Nest(WOWLAN_TRIGGERS, AllAttrs(env, parts, true))]
  {
    hide Parse, ParsePatterns, AllAttrs, PatternAttrs, PatternAttr, Run, Meaning;
    var wowlan := msg.NestStart(WOWLAN_TRIGGERS);
    var parseState := PS_REG;
    var patterns := new Message<Value>();
    var pos, patnum := 0, 0;
    ghost var parts: seq<Part>, items: seq<Token> := [], [];
    assert argv[0..] == argv;
    Start(env, argv);
    while pos < |argv|
      invariant pos <= |argv| && fresh(patterns) && patterns.outer == [] && patnum == |items|
      invariant msg.outer == old(msg.outer) + [Open(WOWLAN_TRIGGERS, old(msg.attrs))]
      invariant Rest(env, parts, parseState == PS_PAT, items, argv[pos..]) == Parse(env, argv)
      invariant patterns.attrs == PatternAttrs(env, items)
      invariant msg.attrs == AllAttrs(env, parts, parseState == PS_REG && pos == |argv|)
      invariant parseState == PS_REG ==> items == []
    {
      if parseState == PS_REG {
        ghost var part;
        err, pos, parseState, part := RegularArgument(msg, argv, pos, env, parts);
        if err != 0 {
          return;
        }
        if parseState == PS_REG { parts := parts + [part]; }
      } else {
        PatternRuns(env, items, argv, pos);
        var p := env.pattern(argv[pos]);
        if p.None? {
          return 1;
        }
        patnum := patnum + 1;
        var pattern := patterns.NestStart(Index(patnum));
        patterns.Put(PKTPAT_MASK, Data(p.value.mask));
        patterns.Put(PKTPAT_PATTERN, Data(p.value.bytes));
        patterns.Put(PKTPAT_OFFSET, U32(p.value.offset));
        patterns.NestEnd(pattern);
        PatternWritten(env, items, argv[pos], patterns.attrs);
        items := items + [argv[pos]];
        pos := pos + 1;
      }
    }
    assert argv[pos..] == [];
    if parseState == PS_PAT {
      msg.PutNested(WOWLAN_PKT_PATTERN, patterns);
    }
    Finished(env, parts, parseState == PS_PAT, items);
    msg.NestEnd(wowlan);
    err := 0;
  }

  lemma Start(env: Env, argv: seq<Token>)
    ensures Rest(env, [], false, [], argv) == Parse(env, argv)
    ensures AllAttrs(env, [], true) == AllAttrs(env, [], false) == [] && PatternAttrs(env, []) == []
  {
    var r := Parse(env, argv);
    assert r.Accepted? ==> [] + r.parts == r.parts;
  }

  lemma PatternRuns(env: Env, items: seq<Token>, argv: seq<Token>, pos: nat)
    requires pos < |argv|
    ensures ParsePatterns(env, items, argv[pos..]) ==
      if env.pattern(argv[pos]).None? then Rejected(1) else ParsePatterns(env, items + [argv[pos]], argv[pos + 1..])
  {
    assert argv[pos..][1..] == argv[pos + 1..];
  }

  lemma PatternWritten(env: Env, items: seq<Token>, t: Token, attrs: Attrs)
    requires env.pattern(t).Some?
    requires var p := env.pattern(t).value;
      attrs == PatternAttrs(env, items) +
        [Nest(Index(|items| + 1), [] + [Leaf(PKTPAT_MASK, Data(p.mask))] + [Leaf(PKTPAT_PATTERN, Data(p.bytes))]
            + [Leaf(PKTPAT_OFFSET, U32(p.offset))])]
    ensures attrs == PatternAttrs(env, items + [t])
  {
    hide PatternAttrs;
    var p := env.pattern(t).value;
    JoinThree(Leaf(PKTPAT_MASK, Data(p.mask)), Leaf(PKTPAT_PATTERN, Data(p.bytes)), Leaf(PKTPAT_OFFSET, U32(p.offset)));
    PatternAttrsSnoc(env, items, t);
  }

  lemma JoinThree(a: Attr<Value>, b: Attr<Value>, c: Attr<Value>)
    ensures [] + [a] + [b] + [c] == [a, b, c]
  {
  }

  lemma PatternAttrsSnoc(env: Env, items: seq<Token>, t: Token)
    ensures PatternAttrs(env, items + [t]) == PatternAttrs(env, items) + [PatternAttr(env, |items|, t)]
  {
    assert (items + [t])[..|items|] == items;
  }

  lemma Finished(env: Env, parts: seq<Part>, open: bool, items: seq<Token>)
    ensures open ==> Rest(env, parts, open, items, []) == Accepted(parts + [PatternList(items)])
    ensures !open ==> Rest(env, parts, open, items, []) == Accepted(parts)
    ensures AllAttrs(env, parts + [PatternList(items)], true) == AllAttrs(env, parts, false)
          + [Nest(WOWLAN_PKT_PATTERN, PatternAttrs(env, items))]
  {
    AllAttrsSnoc(env, parts, PatternList(items), true);
    assert parts + [] == parts;
  }

  /** PS_REG: one argument and what belongs to it, or the turn to PS_PAT. */
  method RegularArgument(msg: Message<Value>, argv: seq<Token>, from: nat, env: Env, ghost parts: seq<Part>)
    returns (err: int, pos: nat, parseState: ParseState, ghost part: Part)
    requires from < |argv| && msg.attrs == AllAttrs(env, parts, false)
    modifies msg
    ensures from < pos <= |argv|
    ensures err != 0 ==> Rest(env, parts, false, [], argv[from..]) == Rejected(err)
    ensures err == 0 ==> msg.outer == old(msg.outer)
    ensures err == 0 && parseState == PS_REG ==>
      && Rest(env, parts, false, [], argv[from..]) == Rest(env, parts + [part], false, [], argv[pos..])
      && msg.attrs == AllAttrs(env, parts + [part], pos == |argv|)
    ensures err == 0 && parseState == PS_PAT ==>
      && Rest(env, parts, false, [], argv[from..]) == Rest(env, parts, true, [], argv[pos..])
      && msg.attrs == old(msg.attrs)
  {
    hide ParsePatterns, AllAttrs, PatternAttrs, Run, Meaning;
    ghost var tokens := argv[from..];
    err, parseState, part := 0, PS_REG, On(argv[from]);
    pos := from + 1;
    assert tokens[1..] == argv[pos..] && (pos < |argv| ==> tokens[1] == argv[pos] && tokens[2..] == argv[pos + 1..]);
    match argv[from] {
      case Trigger(name) =>
        msg.Put(WOWLAN_TRIGGER(name), Set);
      case Tcp =>
        if pos == |argv| {
          return 1, pos, PS_REG, part;
        }
        var file := env.tcpFile(argv[pos]);
        part := TcpPart(argv[pos]);
        PutAll(msg, file.attrs);
        pos := pos + 1;
        if file.err != 0 {
          return file.err, pos, PS_REG, part;
        }
      case Patterns =>
        return 0, pos, PS_PAT, part;
      case NetDetect =>
        if pos == |argv| {
          return 1, pos, PS_REG, part;
        }
        var used;
        err, used := ParseNetDetect(msg, argv[pos..]);
        assert argv[pos..][used..] == argv[pos + used..];
        pos := pos + used;
        if err != 0 {
          return err, pos, PS_REG, part;
        }
        part := Detect(Run([], Top, tokens[1..]).clauses);
      case _ =>
        return 1, pos, PS_REG, part;
    }
    RestReads(env, parts, part, tokens, argv[pos..]);
    AllAttrsSnoc(env, parts, part, pos == |argv|);
  }
}
