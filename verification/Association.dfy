/**
 Who is associated with whom, as the two tables mn_wifi keeps: every station interface knows
 its access point, every access point lists its stations. The least-loaded-first and
 strongest-signal-first handovers of mn_wifi/associationControl.py are steps on these tables.
 */
module Association {
  datatype Net<!S(==), !A(==)> = Net(assoc: map<S, A>, members: map<A, seq<S>>)

  // ----- The list operations of mn_wifi/link.py

  /** list.remove: the first occurrence. */
  function Remove<S(==)>(list: seq<S>, s: S): seq<S> {
    if list == [] then []
    else if list[0] == s then list[1..]
    else [list[0]] + Remove(list[1..], s)
  }

  function Disconnect<S(==), A(==)>(net: Net<S, A>, s: S, a: A): Net<S, A>
    requires a in net.members
  {
    Net(net.assoc - {s}, net.members[a := Remove(net.members[a], s)])
  }

  function Connect<S(==), A(==)>(net: Net<S, A>, s: S, a: A): Net<S, A>
    requires a in net.members
  {
    Net(net.assoc[s := a], net.members[a := net.members[a] + [s]])
  }

  // ----- The tables agree

  ghost predicate Distinct<S>(list: seq<S>) {
    forall i, j | 0 <= i < j < |list| :: list[i] != list[j]
  }

  ghost predicate Consistent<S, A>(net: Net<S, A>) {
    && (forall s | s in net.assoc :: net.assoc[s] in net.members && s in net.members[net.assoc[s]])
    && (forall a | a in net.members :: Distinct(net.members[a]))
    && (forall a, s | a in net.members && s in net.members[a] :: s in net.assoc && net.assoc[s] == a)
  }

  function Load<S, A>(net: Net<S, A>, a: A): nat
    requires a in net.members
  {
    |net.members[a]|
  }

  // ----- Least loaded first

  predicate LlfFires<S, A(==)>(net: Net<S, A>, s: S, candidate: A)
    requires candidate in net.members
  {
    s in net.assoc && net.assoc[s] in net.members && Load(net, candidate) + 2 < Load(net, net.assoc[s])
  }

  function LlfMove<S, A>(net: Net<S, A>, s: S, candidate: A): Net<S, A>
    requires candidate in net.members && LlfFires(net, s, candidate)
  {
    Connect(Disconnect(net, s, net.assoc[s]), s, candidate)
  }

  lemma {:induction false} RemoveMember<S>(list: seq<S>, s: S)
    requires Distinct(list) && s in list
    ensures |Remove(list, s)| == |list| - 1 && Distinct(Remove(list, s))
    ensures forall t :: t in Remove(list, s) <==> t in list && t != s
  {
    var rest := list[1..];
    assert list == [list[0]] + rest;
    assert Distinct(rest);
    if list[0] != s {
      RemoveMember(rest, s);
      DistinctCons(list[0], Remove(rest, s));
    }
  }

  lemma RemoveOnly<S>(list: seq<S>, s: S, t: S)
    requires Distinct(list) && s in list && t in Remove(list, s)
    ensures t in list && t != s
  {
    RemoveMember(list, s);
  }

  lemma DistinctCons<S>(x: S, list: seq<S>)
    requires Distinct(list) && x !in list
    ensures Distinct([x] + list) && Distinct(list + [x])
  {
  }

  lemma DisconnectKeeps<S, A>(net: Net<S, A>, s: S)
    requires Consistent(net) && s in net.assoc
    ensures var next := Disconnect(net, s, net.assoc[s]);
            && Consistent(next)
            && next.assoc == net.assoc - {s} && next.members.Keys == net.members.Keys
            && forall a | a in net.members :: Load(next, a) == Load(net, a) - if a == net.assoc[s] then 1 else 0
  {
    RemoveMember(net.members[net.assoc[s]], s);
    var next := Disconnect(net, s, net.assoc[s]);
    forall a, t | a in next.members && t in next.members[a] ensures t in next.assoc && next.assoc[t] == a {
      if a == net.assoc[s] {
        assert next.members[a] == Remove(net.members[a], s);
        RemoveOnly(net.members[a], s, t);
      } else {
        assert next.members[a] == net.members[a];
      }
      assert t in net.members[a];
    }
  }

  lemma ConnectKeeps<S, A>(net: Net<S, A>, s: S, a: A)
    requires Consistent(net) && s !in net.assoc && a in net.members
    ensures var next := Connect(net, s, a);
            && Consistent(next)
            && next.assoc == net.assoc[s := a] && next.members.Keys == net.members.Keys
            && forall b | b in net.members :: Load(next, b) == Load(net, b) + if b == a then 1 else 0
  {
    assert s !in net.members[a];
    DistinctCons(s, net.members[a]);
  }

  /** A handover moves one station: every association is kept, and so is the agreement of the tables. */
  lemma LlfMoveKeeps<S, A>(net: Net<S, A>, s: S, candidate: A)
    requires Consistent(net) && candidate in net.members && LlfFires(net, s, candidate)
    ensures var next := LlfMove(net, s, candidate);
            && Consistent(next)
            && next.assoc == net.assoc[s := candidate]
            && next.assoc.Keys == net.assoc.Keys && next.members.Keys == net.members.Keys
            && Load(next, net.assoc[s]) == Load(net, net.assoc[s]) - 1
            && Load(next, candidate) == Load(net, candidate) + 1
            && forall a | a in net.members && a != net.assoc[s] && a != candidate :: Load(next, a) == Load(net, a)
  {
    hide Consistent;
    var mid := Disconnect(net, s, net.assoc[s]);
    DisconnectKeeps(net, s);
    ConnectKeeps(mid, s, candidate);
  }

  /** No access point ends up above the old maximum. */
  lemma LlfMoveMaximum<S, A>(net: Net<S, A>, s: S, candidate: A, bound: nat)
    requires Consistent(net) && candidate in net.members && LlfFires(net, s, candidate)
    requires forall a | a in net.members :: Load(net, a) <= bound
    ensures forall a | a in net.members :: Load(LlfMove(net, s, candidate), a) <= bound
  {
    LlfMoveKeeps(net, s, candidate);
    var next := LlfMove(net, s, candidate);
    forall a | a in net.members ensures Load(next, a) <= bound {
      if a != candidate && a != net.assoc[s] {
        assert Load(next, a) == Load(net, a);
      }
    }
  }

  /** No ping-pong: right after a handover nobody may move back the other way. */
  lemma LlfNoReturn<S, A>(net: Net<S, A>, s: S, candidate: A, t: S)
    requires Consistent(net) && candidate in net.members && LlfFires(net, s, candidate)
    ensures var next := LlfMove(net, s, candidate);
            t in next.assoc && next.assoc[t] == candidate ==> !LlfFires(next, t, net.assoc[s])
  {
    LlfMoveKeeps(net, s, candidate);
  }

  // ----- The sum of squared loads bounds every run

  function Loads<S, A>(net: Net<S, A>, aps: seq<A>): (l: seq<nat>)
    requires forall a | a in aps :: a in net.members
    ensures |l| == |aps|
  {
    seq(|aps|, i requires 0 <= i < |aps| => Load(net, aps[i]))
  }

  function SumSquares(l: seq<nat>): nat {
    if l == [] then 0 else SumSquares(l[..|l| - 1]) + l[|l| - 1] * l[|l| - 1]
  }

  function Sum(l: seq<nat>): nat {
    if l == [] then 0 else Sum(l[..|l| - 1]) + l[|l| - 1]
  }

  lemma {:induction false} SumUpdate(l: seq<nat>, i: nat, x: nat)
    requires i < |l|
    ensures Sum(l[i := x]) == Sum(l) - l[i] + x
    ensures SumSquares(l[i := x]) == SumSquares(l) - l[i] * l[i] + x * x
  {
    var n := |l| - 1;
    if i == n {
      assert l[i := x][..n] == l[..n];
    } else {
      SumUpdate(l[..n], i, x);
      assert l[i := x][..n] == l[..n][i := x];
    }
  }

  /** `aps` lists every access point once. */
  ghost predicate Lists<S, A>(aps: seq<A>, net: Net<S, A>) {
    Distinct(aps) && (forall a | a in aps :: a in net.members) && forall a | a in net.members :: a in aps
  }

  lemma LlfMoveLoads<S, A>(net: Net<S, A>, s: S, candidate: A, aps: seq<A>)
    requires Consistent(net) && candidate in net.members && LlfFires(net, s, candidate) && Lists(aps, net)
    ensures var next := LlfMove(net, s, candidate);
            && Lists(aps, next)
            && Sum(Loads(next, aps)) == Sum(Loads(net, aps))
            && SumSquares(Loads(next, aps)) + 4 <= SumSquares(Loads(net, aps))
  {
    hide Consistent, LlfMove, LlfFires, SumSquares, Sum;
    LlfMoveKeeps(net, s, candidate);
    LlfFiresMeans(net, s, candidate);
    var next, left := LlfMove(net, s, candidate), net.assoc[s];
    assert left in aps && candidate in aps;
    var i :| 0 <= i < |aps| && aps[i] == left;
    var j :| 0 <= j < |aps| && aps[j] == candidate;
    var l := Loads(net, aps);
    var mid := l[i := l[i] - 1];
    SumUpdate(l, i, l[i] - 1);
    SumUpdate(mid, j, l[j] + 1);
    assert Loads(next, aps) == mid[j := l[j] + 1];
    SquaresDrop(l[i], l[j]);
  }

  lemma LlfFiresMeans<S, A>(net: Net<S, A>, s: S, candidate: A)
    requires Consistent(net) && candidate in net.members && LlfFires(net, s, candidate)
    ensures net.assoc[s] in net.members && Load(net, candidate) + 2 < Load(net, net.assoc[s])
  {
  }

  lemma SquaresDrop(from: nat, to: nat)
    requires to + 2 < from
    ensures (from - 1) * (from - 1) + (to + 1) * (to + 1) + 4 <= from * from + to * to
  {
    assert (from - 1) * (from - 1) == from * from - 2 * from + 1;
    assert (to + 1) * (to + 1) == to * to + 2 * to + 1;
  }

  /** A run of handovers, with no station arriving or leaving. */
  datatype Move<S, A> = Move(s: S, candidate: A)

  ghost predicate IsRun<S, A>(net: Net<S, A>, moves: seq<Move<S, A>>)
    decreases |moves|
  {
    moves == [] ||
    (moves[0].candidate in net.members && LlfFires(net, moves[0].s, moves[0].candidate)
     && IsRun(LlfMove(net, moves[0].s, moves[0].candidate), moves[1..]))
  }

  ghost function RunEnd<S, A>(net: Net<S, A>, moves: seq<Move<S, A>>): Net<S, A>
    requires IsRun(net, moves)
    decreases |moves|
  {
    if moves == [] then net else RunEnd(LlfMove(net, moves[0].s, moves[0].candidate), moves[1..])
  }

  /** Before anybody joins, the tables agree. */
  lemma StartsConsistent<S, A>(aps: seq<A>)
    requires Distinct(aps)
    ensures var net: Net<S, A> := Net(map[], map a | a in aps :: []);
            Consistent(net) && Lists(aps, net)
  {
  }

  function AllOnFirst(): Net<int, int> { Net(map[1 := 0, 2 := 0, 3 := 0, 4 := 0], map[0 := [1, 2, 3, 4], 1 := []]) }

  function OneMoved(): Net<int, int> { Net(map[1 := 1, 2 := 0, 3 := 0, 4 := 0], map[0 := [2, 3, 4], 1 := [1]]) }

  lemma FirstAgrees()
    ensures Consistent(AllOnFirst()) && Lists([0, 1], AllOnFirst())
  {
  }

  lemma OneMoves()
    ensures LlfFires(AllOnFirst(), 1, 1) && LlfMove(AllOnFirst(), 1, 1) == OneMoved()
  {
    assert Remove([1, 2, 3, 4], 1) == [2, 3, 4] && [] + [1] == [1];
    var net := AllOnFirst();
    assert Load(net, 0) == 4 && Load(net, 1) == 0;
    assert Disconnect(net, 1, 0) == Net(map[2 := 0, 3 := 0, 4 := 0], map[0 := [2, 3, 4], 1 := []]);
    var next := LlfMove(net, 1, 1);
    assert next.assoc == OneMoved().assoc && next.members == OneMoved().members;
  }

  lemma NoMoreMoves()
    ensures Quiescent(OneMoved())
  {
    assert Load(OneMoved(), 0) == 3 && Load(OneMoved(), 1) == 1;
  }

  /** A run: of four stations on one of two access points, one moves to the other, and that is all. */
  lemma OneHandover()
    ensures Consistent(AllOnFirst()) && Lists([0, 1], AllOnFirst())
    ensures IsRun(AllOnFirst(), [Move(1, 1)]) && RunEnd(AllOnFirst(), [Move(1, 1)]) == OneMoved()
    ensures Quiescent(OneMoved())
  {
    hide LlfFires, LlfMove, OneMoved, Consistent, Lists, Quiescent;
    FirstAgrees();
    OneMoves();
    NoMoreMoves();
    assert [Move(1, 1)][1..] == [] && IsRun(OneMoved(), []);
  }

  /** Every run is finite, keeps all associations and the total, and never raises the maximum load. */
  lemma {:induction false} RunBounded<S, A>(net: Net<S, A>, moves: seq<Move<S, A>>, aps: seq<A>, bound: nat)
    requires Consistent(net) && Lists(aps, net) && IsRun(net, moves)
    requires forall a | a in net.members :: Load(net, a) <= bound
    ensures var end := RunEnd(net, moves);
            && Consistent(end) && Lists(aps, end) && end.assoc.Keys == net.assoc.Keys
            && Sum(Loads(end, aps)) == Sum(Loads(net, aps))
            && 4 * |moves| + SumSquares(Loads(end, aps)) <= SumSquares(Loads(net, aps))
            && forall a | a in end.members :: Load(end, a) <= bound
    decreases |moves|
  {
    if moves != [] {
      var s, candidate := moves[0].s, moves[0].candidate;
      LlfMoveKeeps(net, s, candidate);
      LlfMoveLoads(net, s, candidate, aps);
      LlfMoveMaximum(net, s, candidate, bound);
      RunBounded(LlfMove(net, s, candidate), moves[1..], aps, bound);
    }
  }

  // ----- Where a run can stop

  ghost predicate Quiescent<S, A>(net: Net<S, A>) {
    forall s, c | s in net.assoc && c in net.members :: !LlfFires(net, s, c)
  }

  /** With every access point in reach, a run can stop exactly when no two loads differ by more than two. */
  lemma QuiescentIsBalanced<S, A>(net: Net<S, A>)
    requires Consistent(net)
    ensures Quiescent(net) <==> forall a, b | a in net.members && b in net.members :: Load(net, a) <= Load(net, b) + 2
  {
    if Quiescent(net) {
      forall a, b | a in net.members && b in net.members ensures Load(net, a) <= Load(net, b) + 2 {
        if Load(net, a) > 0 {
          var s := net.members[a][0];
          assert s in net.members[a];
          assert !LlfFires(net, s, b);
        }
      }
    }
  }

  /** The busiest access point is then within two stations of the average. */
  lemma QuiescentNearAverage<S, A>(net: Net<S, A>, aps: seq<A>, a: A)
    requires Consistent(net) && Lists(aps, net) && Quiescent(net) && a in net.members
    ensures |aps| * Load(net, a) <= Sum(Loads(net, aps)) + 2 * (|aps| - 1)
  {
    QuiescentIsBalanced(net);
    hide Consistent, Quiescent, LlfFires, Sum;
    var i :| 0 <= i < |aps| && aps[i] == a;
    var l := Loads(net, aps);
    var low: int := l[i];
    forall k | 0 <= k < |l| ensures l[k] >= low - 2 {
      assert aps[k] in net.members;
    }
    SumAtLeast(l, low - 2, i);
    TimesLess(|l|, low, Sum(l));
  }

  lemma TimesLess(n: nat, low: int, sum: int)
    requires sum >= n * (low - 2) + 2
    ensures n * low <= sum + 2 * (n - 1)
  {
  }

  lemma {:induction false} SumAtLeast(l: seq<nat>, low: int, i: int)
    requires forall k | 0 <= k < |l| :: l[k] >= low
    requires 0 <= i < |l| ==> l[i] == low + 2
    ensures Sum(l) >= |l| * low + if 0 <= i < |l| then 2 else 0
  {
    if l != [] {
      var n := |l| - 1;
      SumAtLeast(l[..n], low, i);
      assert |l| * low == n * low + low;
    }
  }

  /** The total load is the number of associated stations. */
  lemma TotalIsStations<S, A>(net: Net<S, A>, aps: seq<A>)
    requires Consistent(net) && Lists(aps, net)
    ensures Sum(Loads(net, aps)) == |net.assoc|
  {
    var on := set s | s in net.assoc && net.assoc[s] in aps;
    StationsOn(net, aps);
    assert on == net.assoc.Keys;
  }

  lemma {:induction false} StationsOn<S, A>(net: Net<S, A>, aps: seq<A>)
    requires Consistent(net) && Distinct(aps) && forall a | a in aps :: a in net.members
    ensures Sum(Loads(net, aps)) == |set s | s in net.assoc && net.assoc[s] in aps|
  {
    hide Consistent;
    if aps == [] {
      assert (set s | s in net.assoc && net.assoc[s] in aps) == {};
    } else {
      var n := |aps| - 1;
      var init, last := aps[..n], aps[n];
      assert aps == init + [last];
      StationsOn(net, init);
      assert Loads(net, aps)[..n] == Loads(net, init);
      ListDistinct(net, last);
      DistinctCount(net.members[last]);
      StationsSplit(net, init, last);
    }
  }

  lemma ListDistinct<S, A>(net: Net<S, A>, a: A)
    requires Consistent(net) && a in net.members
    ensures Distinct(net.members[a])
  {
  }

  lemma StationsSplit<S, A>(net: Net<S, A>, init: seq<A>, last: A)
    requires Consistent(net) && last in net.members && last !in init
    ensures var onInit := set s | s in net.assoc && net.assoc[s] in init;
            var onLast := set s | s in net.members[last];
            && onInit !! onLast
            && (set s | s in net.assoc && net.assoc[s] in init + [last]) == onInit + onLast
  {
  }

  lemma {:induction false} DistinctCount<S>(list: seq<S>)
    requires Distinct(list)
    ensures |set s | s in list| == |list|
  {
    if list == [] {
      assert (set s | s in list) == {};
    } else {
      var n := |list| - 1;
      DistinctCount(list[..n]);
      assert list == list[..n] + [list[n]];
      assert (set s | s in list) == (set s | s in list[..n]) + {list[n]};
    }
  }

  // ----- Strongest signal first

  /** The rule disconnects from the candidate, not from the serving access point, before it connects. */
  function SsfMove<S, A>(net: Net<S, A>, s: S, candidate: A): Net<S, A>
    requires candidate in net.members
  {
    Connect(Disconnect(net, s, candidate), s, candidate)
  }

  /**
   So the access point left behind keeps the station on its list: the tables agree afterwards only if
   nobody moved.
   */
  lemma SsfLeavesStaleEntry<S, A>(net: Net<S, A>, s: S, candidate: A)
    requires Consistent(net) && s in net.assoc && candidate in net.members
    ensures Consistent(SsfMove(net, s, candidate)) <==> candidate == net.assoc[s]
    ensures var next := SsfMove(net, s, candidate);
            && next.assoc == net.assoc[s := candidate]
            && (candidate != net.assoc[s] ==>
                  && next.members[net.assoc[s]] == net.members[net.assoc[s]]
                  && next.members[candidate] == net.members[candidate] + [s])
  {
    hide Consistent, Remove;
    ListedWhereServed(net, s, candidate);
    assert (net.assoc - {s})[s := candidate] == net.assoc[s := candidate];
    if candidate == net.assoc[s] {
      DisconnectKeeps(net, s);
      ConnectKeeps(Disconnect(net, s, candidate), s, candidate);
    } else {
      RemoveAbsent(net.members[candidate], s);
      ListedWhereServed(net, s, net.assoc[s]);
      StaleEntry(SsfMove(net, s, candidate), s, net.assoc[s]);
    }
  }

  lemma ListedWhereServed<S, A>(net: Net<S, A>, s: S, a: A)
    requires Consistent(net) && s in net.assoc && a in net.members
    ensures net.assoc[s] in net.members && (s in net.members[a] <==> a == net.assoc[s])
  {
  }

  lemma StaleEntry<S, A>(net: Net<S, A>, s: S, a: A)
    requires a in net.members && s in net.members[a] && s in net.assoc && net.assoc[s] != a
    ensures !Consistent(net)
  {
  }

  lemma {:induction false} RemoveAbsent<S>(list: seq<S>, s: S)
    requires s !in list
    ensures Remove(list, s) == list
  {
    if list != [] {
      RemoveAbsent(list[1..], s);
    }
  }

  lemma SsfMoveList<S, A>(net: Net<S, A>, s: S, candidate: A)
    requires candidate in net.members && Distinct(net.members[candidate])
    ensures var before, after := net.members[candidate], SsfMove(net, s, candidate).members[candidate];
            Distinct(after) && s in after && |after| == |before| + if s in before then 0 else 1
  {
    var before := net.members[candidate];
    if s in before {
      RemoveMember(before, s);
    } else {
      RemoveAbsent(before, s);
    }
    DistinctCons(s, Remove(before, s));
  }

  /**
   A handover adds one to the total load, without adding a station, unless the candidate lists the
   station already.
   */
  lemma SsfInflatesLoad<S, A>(net: Net<S, A>, s: S, candidate: A, aps: seq<A>)
    requires candidate in net.members && Distinct(net.members[candidate]) && Lists(aps, net)
    ensures var next := SsfMove(net, s, candidate);
            && Lists(aps, next) && next.members == net.members[candidate := next.members[candidate]]
            && Sum(Loads(next, aps)) == Sum(Loads(net, aps)) + if s in net.members[candidate] then 0 else 1
  {
    hide Sum;
    SsfMoveList(net, s, candidate);
    var next := SsfMove(net, s, candidate);
    var i :| 0 <= i < |aps| && aps[i] == candidate;
    var l := Loads(net, aps);
    SumUpdate(l, i, Load(next, candidate));
    assert Loads(next, aps) == l[i := Load(next, candidate)];
  }

  /** The network after handing `s` over to one candidate after the other. */
  function SsfRunEnd<S, A>(net: Net<S, A>, s: S, candidates: seq<A>): (end: Net<S, A>)
    requires forall c | c in candidates :: c in net.members
    ensures end.members.Keys == net.members.Keys
  {
    if candidates == [] then net
    else
      var n := |candidates| - 1;
      SsfMove(SsfRunEnd(net, s, candidates[..n]), s, candidates[n])
  }

  /** Which lists hold `s`: the one of the access point it started on, and all it was handed over to. */
  ghost predicate Listed<S, A>(net: Net<S, A>, s: S, home: A, candidates: seq<A>) {
    && (forall a | a in net.members :: Distinct(net.members[a]))
    && (forall a | a in net.members :: s in net.members[a] <==> a == home || a in candidates)
  }

  /**
   From a consistent network, whatever the run: the total load exceeds the number of stations by the
   number of access points visited besides the first.
   */
  lemma SsfRunInflates<S, A>(net: Net<S, A>, s: S, candidates: seq<A>, aps: seq<A>)
    requires Consistent(net) && s in net.assoc && Lists(aps, net) && forall c | c in candidates :: c in net.members
    ensures var end := SsfRunEnd(net, s, candidates);
            && Lists(aps, end) && end.assoc.Keys == net.assoc.Keys
            && Sum(Loads(end, aps)) == |net.assoc| + |Visited(candidates) - {net.assoc[s]}|
  {
    TotalIsStations(net, aps);
    SsfRunLists(net, s, candidates, aps);
  }

  ghost function Visited<A>(candidates: seq<A>): set<A> {
    set c | c in candidates
  }

  lemma {:induction false} SsfRunLists<S, A>(net: Net<S, A>, s: S, candidates: seq<A>, aps: seq<A>)
    requires Consistent(net) && s in net.assoc && Lists(aps, net) && forall c | c in candidates :: c in net.members
    ensures var end := SsfRunEnd(net, s, candidates);
            && Lists(aps, end) && end.assoc.Keys == net.assoc.Keys
            && Listed(end, s, net.assoc[s], candidates)
            && Sum(Loads(end, aps)) == Sum(Loads(net, aps)) + |Visited(candidates) - {net.assoc[s]}|
  {
    hide Consistent, Listed, Sum, Lists, Distinct, SsfMove;
    var home := net.assoc[s];
    if candidates == [] {
      assert Visited(candidates) - {home} == {};
      StartsListed(net, s);
    } else {
      var n := |candidates| - 1;
      var before, c := candidates[..n], candidates[n];
      assert candidates == before + [c];
      SsfRunLists(net, s, before, aps);
      SsfStepLists(SsfRunEnd(net, s, before), s, home, before, c, aps);
      VisitedSnoc(before, c, home);
    }
  }

  lemma StartsListed<S, A>(net: Net<S, A>, s: S)
    requires Consistent(net) && s in net.assoc
    ensures Listed(net, s, net.assoc[s], [])
  {
  }

  lemma SsfStepLists<S, A>(net: Net<S, A>, s: S, home: A, before: seq<A>, c: A, aps: seq<A>)
    requires s in net.assoc && c in net.members && Lists(aps, net) && Listed(net, s, home, before)
    ensures var next := SsfMove(net, s, c);
            && Lists(aps, next) && next.assoc.Keys == net.assoc.Keys && Listed(next, s, home, before + [c])
            && Sum(Loads(next, aps)) == Sum(Loads(net, aps)) + if c == home || c in before then 0 else 1
  {
    hide Sum, Lists, Distinct;
    SsfInflatesLoad(net, s, c, aps);
    SsfMoveList(net, s, c);
    var next := SsfMove(net, s, c);
    assert next.assoc.Keys == net.assoc.Keys;
    hide SsfMove;
    forall a | a in next.members
      ensures Distinct(next.members[a]) && (s in next.members[a] <==> a == home || a in before + [c])
    {
      if a != c { assert next.members[a] == net.members[a]; }
    }
  }

  lemma VisitedSnoc<A>(before: seq<A>, c: A, home: A)
    ensures |Visited(before + [c]) - {home}|
            == |Visited(before) - {home}| + if c == home || c in before then 0 else 1
  {
    var old_, new_ := Visited(before) - {home}, Visited(before + [c]) - {home};
    if c == home || c in before {
      assert new_ == old_;
    } else {
      assert new_ == old_ + {c};
    }
  }

  /** Both signals are computed with the candidate's interface, at the candidate's and the serving distance. */
  predicate SsfFires<A>(rssi: (A, real) -> real, dist: A -> real, serving: A, candidate: A) {
    rssi(candidate, dist(candidate)) > rssi(candidate, dist(serving)) + 0.1
  }

  ghost predicate IsSsfRun<A>(rssi: (A, real) -> real, dist: A -> real, visited: seq<A>) {
    forall i | 0 <= i < |visited| - 1 :: SsfFires(rssi, dist, visited[i], visited[i + 1])
  }

  /** At the distances of these access points, none is received better from farther away, but for the margin. */
  ghost predicate FadesAt<A>(rssi: (A, real) -> real, dist: A -> real, aps: seq<A>) {
    forall i, j | 0 <= i < |aps| && 0 <= j < |aps| && dist(aps[i]) <= dist(aps[j]) ::
      rssi(aps[j], dist(aps[j])) <= rssi(aps[j], dist(aps[i])) + 0.1
  }

  /** While nodes stand still, every handover shortens the distance to the serving access point. */
  lemma {:induction false} SsfShortens<A>(
    rssi: (A, real) -> real, dist: A -> real, visited: seq<A>, i: nat, j: nat)
    requires FadesAt(rssi, dist, visited) && IsSsfRun(rssi, dist, visited) && i < j < |visited|
    ensures dist(visited[j]) < dist(visited[i])
  {
    assert SsfFires(rssi, dist, visited[j - 1], visited[j]);
    assert dist(visited[j]) < dist(visited[j - 1]);
    if i < j - 1 { SsfShortens(rssi, dist, visited, i, j - 1); }
  }

  /** No access point is visited twice, so a station moves fewer times than there are access points. */
  lemma SsfTerminates<A>(rssi: (A, real) -> real, dist: A -> real, visited: seq<A>, aps: set<A>)
    requires FadesAt(rssi, dist, visited) && IsSsfRun(rssi, dist, visited) && forall a | a in visited :: a in aps
    ensures Distinct(visited) && |visited| <= |aps|
  {
    forall i, j | 0 <= i < j < |visited| ensures visited[i] != visited[j] {
      SsfShortens(rssi, dist, visited, i, j);
    }
    DistinctCount(visited);
    SubsetCount((set a | a in visited), aps);
  }

  lemma {:induction false} SubsetCount<A>(a: set<A>, b: set<A>)
    requires a <= b
    ensures |a| <= |b|
  {
    if a != {} {
      var x :| x in a;
      SubsetCount(a - {x}, b - {x});
    }
  }

  /** The comparison the rule is named for: the candidate's signal against the one the station is served with. */
  predicate IsStronger<A>(rssi: (A, real) -> real, dist: A -> real, serving: A, candidate: A) {
    rssi(candidate, dist(candidate)) > rssi(serving, dist(serving)) + 0.1
  }

  /** `level` lies above the lower of two signals plus the margin, and not above the higher. */
  predicate Between(level: real, x: real, y: real) {
    (if x < y then x else y) + 0.1 < level <= (if x < y then y else x) + 0.1
  }

  /**
   A decision is wrong exactly when the candidate's signal lies between what the candidate and the
   serving access point would be received with at the serving distance.
   */
  lemma SsfErrsExactlyWhen<A>(rssi: (A, real) -> real, dist: A -> real, serving: A, candidate: A)
    ensures SsfFires(rssi, dist, serving, candidate) != IsStronger(rssi, dist, serving, candidate)
      <==> Between(rssi(candidate, dist(candidate)), rssi(candidate, dist(serving)), rssi(serving, dist(serving)))
  {
  }

  // Over all places of the nodes

  /** get_distance_to rounds to hundredths. */
  predicate IsDistance(d: real) {
    d >= 0.0 && d * 100.0 == (d * 100.0).Floor as real
  }

  lemma Hundredths(n: nat)
    ensures IsDistance(n as real / 100.0)
  {
  }

  predicate Places<A>(dist: A -> real, serving: A, candidate: A) {
    IsDistance(dist(serving)) && IsDistance(dist(candidate))
  }

  ghost function Placed<A(!new)>(serving: A, candidate: A, d: real, e: real): (dist: A -> real)
    requires serving != candidate
    ensures dist(serving) == d && dist(candidate) == e
  {
    a => if a == candidate then e else d
  }

  ghost predicate AlwaysComparesSignals<A(!new)>(rssi: (A, real) -> real, serving: A, candidate: A) {
    forall dist: A -> real | Places(dist, serving, candidate) ::
      SsfFires(rssi, dist, serving, candidate) <==> IsStronger(rssi, dist, serving, candidate)
  }

  ghost predicate NeverWeakens<A(!new)>(rssi: (A, real) -> real, serving: A, candidate: A) {
    forall dist: A -> real | Places(dist, serving, candidate) && SsfFires(rssi, dist, serving, candidate) ::
      rssi(candidate, dist(candidate)) >= rssi(serving, dist(serving))
  }

  ghost predicate AlwaysShortens<A(!new)>(rssi: (A, real) -> real, serving: A, candidate: A) {
    forall dist: A -> real | Places(dist, serving, candidate) && SsfFires(rssi, dist, serving, candidate) ::
      dist(candidate) < dist(serving)
  }

  /**
   The rule compares the signals the station really receives exactly when the candidate has no level
   between its own and the serving access point's level at any one distance.
   */
  lemma SsfComparesSignalsExactlyWhen<A(!new)>(rssi: (A, real) -> real, serving: A, candidate: A)
    requires serving != candidate
    ensures AlwaysComparesSignals(rssi, serving, candidate)
      <==> forall d, e | IsDistance(d) && IsDistance(e) ::
             !Between(rssi(candidate, e), rssi(candidate, d), rssi(serving, d))
  {
    hide IsDistance, Between, SsfFires, IsStronger;
    forall d, e | IsDistance(d) && IsDistance(e) && Between(rssi(candidate, e), rssi(candidate, d), rssi(serving, d))
      ensures !AlwaysComparesSignals(rssi, serving, candidate)
    {
      var dist := Placed(serving, candidate, d, e);
      SsfErrsExactlyWhen(rssi, dist, serving, candidate);
      assert Places(dist, serving, candidate);
    }
    forall dist: A -> real | Places(dist, serving, candidate)
      ensures SsfFires(rssi, dist, serving, candidate) != IsStronger(rssi, dist, serving, candidate)
        <==> Between(rssi(candidate, dist(candidate)), rssi(candidate, dist(serving)), rssi(serving, dist(serving)))
    {
      SsfErrsExactlyWhen(rssi, dist, serving, candidate);
    }
  }

  /** The rule never moves a station to a weaker signal exactly when no level of the candidate allows it. */
  lemma SsfNeverWeakensExactlyWhen<A(!new)>(rssi: (A, real) -> real, serving: A, candidate: A)
    requires serving != candidate
    ensures NeverWeakens(rssi, serving, candidate)
      <==> forall d, e | IsDistance(d) && IsDistance(e) && rssi(candidate, e) > rssi(candidate, d) + 0.1 ::
             rssi(candidate, e) >= rssi(serving, d)
  {
    hide IsDistance;
    forall d, e | IsDistance(d) && IsDistance(e) && rssi(serving, d) > rssi(candidate, e) > rssi(candidate, d) + 0.1
      ensures !NeverWeakens(rssi, serving, candidate)
    {
      var dist := Placed(serving, candidate, d, e);
      assert Places(dist, serving, candidate) && SsfFires(rssi, dist, serving, candidate);
    }
  }

  /** A handover always shortens the distance exactly when the candidate is never received better from farther away. */
  lemma SsfShortensExactlyWhen<A(!new)>(rssi: (A, real) -> real, serving: A, candidate: A)
    requires serving != candidate
    ensures AlwaysShortens(rssi, serving, candidate)
      <==> forall d, e | IsDistance(d) && IsDistance(e) && d <= e :: rssi(candidate, e) <= rssi(candidate, d) + 0.1
  {
    hide IsDistance;
    forall d, e | IsDistance(d) && IsDistance(e) && d <= e && rssi(candidate, e) > rssi(candidate, d) + 0.1
      ensures !AlwaysShortens(rssi, serving, candidate)
    {
      var dist := Placed(serving, candidate, d, e);
      assert Places(dist, serving, candidate) && SsfFires(rssi, dist, serving, candidate);
    }
  }

  /**
   The models that subtract a loss in whole decibels from the gains: the loss depends on the distance
   alone, the gains on the access point.
   */
  ghost predicate WholeLoss<A(!new)>(rssi: (A, real) -> real, gain: A -> int, loss: real -> int) {
    forall a, d | IsDistance(d) :: rssi(a, d) == (gain(a) - loss(d)) as real
  }

  /** Somewhere the loss takes a single step. */
  ghost predicate StepsByOne(loss: real -> int) {
    exists d, e :: IsDistance(d) && IsDistance(e) && loss(d) == loss(e) + 1
  }

  /** Then signals are compared exactly between equal gains. */
  lemma SsfComparesEqualGains<A(!new)>(
    rssi: (A, real) -> real, gain: A -> int, loss: real -> int, serving: A, candidate: A)
    requires serving != candidate && WholeLoss(rssi, gain, loss) && StepsByOne(loss)
    ensures AlwaysComparesSignals(rssi, serving, candidate) <==> gain(serving) == gain(candidate)
  {
    SsfComparesSignalsExactlyWhen(rssi, serving, candidate);
    var d, e :| IsDistance(d) && IsDistance(e) && loss(d) == loss(e) + 1;
    if gain(serving) > gain(candidate) {
      assert Between(rssi(candidate, e), rssi(candidate, d), rssi(serving, d));
    } else if gain(serving) < gain(candidate) {
      assert Between(rssi(candidate, d), rssi(candidate, d), rssi(serving, d));
    }
  }

  /** And a weaker signal is never preferred exactly if the serving access point gains at most one decibel more. */
  lemma SsfNeverWeakensGains<A(!new)>(
    rssi: (A, real) -> real, gain: A -> int, loss: real -> int, serving: A, candidate: A)
    requires serving != candidate && WholeLoss(rssi, gain, loss) && StepsByOne(loss)
    ensures NeverWeakens(rssi, serving, candidate) <==> gain(serving) <= gain(candidate) + 1
  {
    SsfNeverWeakensExactlyWhen(rssi, serving, candidate);
    var d, e :| IsDistance(d) && IsDistance(e) && loss(d) == loss(e) + 1;
    if gain(serving) > gain(candidate) + 1 {
      assert rssi(serving, d) > rssi(candidate, e) > rssi(candidate, d) + 0.1;
    } else {
      forall d, e | IsDistance(d) && IsDistance(e) && rssi(candidate, e) > rssi(candidate, d) + 0.1
        ensures rssi(candidate, e) >= rssi(serving, d)
      {
        assert loss(e) < loss(d);
      }
    }
  }

  /**
   For one: a station ten units from a strong access point and five from a weak one goes to the weak
   one, and stays.
   */
  lemma SsfMayPreferWeaker()
    ensures exists rssi: (bool, real) -> real, dist: bool -> real ::
              && FadesAt(rssi, dist, [true, false])
              && SsfFires(rssi, dist, true, false) && rssi(false, dist(false)) < rssi(true, dist(true))
              && !SsfFires(rssi, dist, false, true)
  {
    var rssi := (strong: bool, d: real) => (if strong then 0.0 else -50.0) - d;
    var dist := (strong: bool) => if strong then 10.0 else 5.0;
    assert SsfFires(rssi, dist, true, false) && !SsfFires(rssi, dist, false, true);
    assert FadesAt(rssi, dist, [true, false]);
  }
}
