/**
 The interface objects behind those tables: setConnected and setDisconnected of
 mn_wifi/link.py, the two rules of mn_wifi/associationControl.py, and the caller that
 disconnects, decides and associates again (do_handover of mn_wifi/mobility.py).
 */
module Handover {
  import opened Association

  datatype Security = Open | Wpa | Wep | Other

  /** A station: the wireless interfaces of one node. */
  class Node {
    var wintfs: seq<Intf>
  }

  class ApIntf {
    const security: Security
    const fastRoaming: bool  // ieee80211r
    var associatedStations: seq<Intf>
  }

  class Intf {
    const node: Node
    const speaksWpa: bool  // no encryption setting of its own, or one that names wpa
    var associatedTo: ApIntf?

    constructor (node: Node, speaksWpa: bool)
      ensures this.node == node && this.speaksWpa == speaksWpa && associatedTo == null
    {
      this.node, this.speaksWpa, associatedTo := node, speaksWpa, null;
    }

    method SetConnected(ap: ApIntf)
      modifies this, ap
      ensures associatedTo == ap && ap.associatedStations == old(ap.associatedStations) + [this]
    {
      associatedTo := ap;
      ap.associatedStations := ap.associatedStations + [this];
    }

    method SetDisconnected(ap: ApIntf)
      modifies this, ap
      ensures associatedTo == null && ap.associatedStations == Remove(old(ap.associatedStations), this)
    {
      associatedTo := null;
      if this in ap.associatedStations {
        ap.associatedStations := Remove(ap.associatedStations, this);
      } else {
        RemoveAbsent(ap.associatedStations, this);
      }
    }

    /** associate_infra; `hasStaConf`: a wpa_supplicant file of this interface exists. */
    method AssociateInfra(ap: ApIntf, hasStaConf: bool)
      modifies this, ap
      ensures if Records(ap, speaksWpa, hasStaConf, old(associatedTo) != null)
              then associatedTo == ap && ap.associatedStations == old(ap.associatedStations) + [this]
              else associatedTo == old(associatedTo) && ap.associatedStations == old(ap.associatedStations)
    {
      if ap.fastRoaming && speaksWpa {
        if associatedTo == null && !hasStaConf {
          SetConnected(ap);
        }
      } else if ap.security == Open {
        SetConnected(ap);
      } else if associatedTo == null {
        if ap.security == Wpa && speaksWpa {
          SetConnected(ap);
        } else if ap.security == Wep {
          SetConnected(ap);
        }
      }
    }
  }

  /** Whether associate_infra writes the association down; roaming leaves the tables alone. */
  predicate Records(ap: ApIntf, speaksWpa: bool, hasStaConf: bool, associated: bool) {
    if ap.fastRoaming && speaksWpa then !associated && !hasStaConf
    else ap.security == Open || (!associated && (ap.security == Wep || (ap.security == Wpa && speaksWpa)))
  }

  // ----- The tables the objects form

  ghost predicate Closed(stas: set<Intf>, aps: set<ApIntf>)
    reads stas
  {
    forall s | s in stas :: s.associatedTo == null || s.associatedTo in aps
  }

  ghost function Tables(stas: set<Intf>, aps: set<ApIntf>): Net<Intf, ApIntf?>
    reads stas, aps
  {
    Net(map s: Intf | s in stas && s.associatedTo != null :: s.associatedTo,
        map a: ApIntf | a in aps :: a.associatedStations)
  }

  /** The tables say what the objects say. */
  lemma TablesSay(stas: set<Intf>, aps: set<ApIntf>, s: Intf, a: ApIntf)
    requires Closed(stas, aps)
    ensures var net := Tables(stas, aps);
            && (s in net.assoc && net.assoc[s] == a <==> s in stas && s.associatedTo == a)
            && (a in net.members <==> a in aps) && (a in aps ==> net.members[a] == a.associatedStations)
            && (s in stas && s.associatedTo == a ==> a in aps)
  {
  }

  // ----- The rules

  method Llf(intf: Intf, ap: ApIntf, ghost stas: set<Intf>, ghost aps: set<ApIntf>) returns (changeAP: bool)
    requires intf in stas && ap in aps && Closed(stas, aps)
    modifies intf, intf.associatedTo
    ensures Closed(stas, aps)
    ensures changeAP == (old(intf.associatedTo) == null || LlfFires(old(Tables(stas, aps)), intf, ap))
    ensures Tables(stas, aps) == if old(intf.associatedTo) != null && changeAP
                                 then Disconnect(old(Tables(stas, aps)), intf, old(intf.associatedTo))
                                 else old(Tables(stas, aps))
    ensures forall s | s in stas && s != intf :: s.associatedTo == old(s.associatedTo)
  {
    changeAP := false;
    var apref := intf.associatedTo;
    if apref != null {
      var refLlf := |apref.associatedStations|;
      if |ap.associatedStations| + 2 < refLlf {
        intf.SetDisconnected(apref);
        changeAP := true;
      }
    } else {
      changeAP := true;
    }
  }

  /** `rssi` and `refRssi`: the two values of get_rssi. */
  method Ssf(intf: Intf, ap: ApIntf, rssi: real, refRssi: real, ghost stas: set<Intf>, ghost aps: set<ApIntf>)
    returns (changeAP: bool)
    requires intf in stas && ap in aps && Closed(stas, aps)
    modifies intf, ap
    ensures Closed(stas, aps)
    ensures changeAP == (refRssi > rssi + 0.1)
    ensures Tables(stas, aps) == if changeAP then Disconnect(old(Tables(stas, aps)), intf, ap)
          else old(Tables(stas, aps))
    ensures forall s | s in stas && s != intf :: s.associatedTo == old(s.associatedTo)
  {
    changeAP := false;
    if refRssi > rssi + 0.1 {
      intf.SetDisconnected(ap);
      changeAP := true;
    }
  }

  // ----- do_handover

  datatype Rule = NoRule | LlfRule | SsfRule(rssi: real, refRssi: real)

  /** What the rule does to the tables, and whether it asks for a change. */
  ghost function Decide<S, A>(net: Net<S, A>, s: S, c: A, rule: Rule): (Net<S, A>, bool)
    requires c in net.members
  {
    if s !in net.assoc || rule.NoRule? then (net, false)
    else match rule
      case LlfRule =>
        if LlfFires(net, s, c) then (Disconnect(net, s, net.assoc[s]), true) else (net, false)
      case SsfRule(rssi, refRssi) =>
        if refRssi > rssi + 0.1 then (Disconnect(net, s, c), true) else (net, false)
  }

  ghost predicate NodeIsOn<S, A>(net: Net<S, A>, wlans: seq<S>, c: A) {
    exists w | w in wlans :: w in net.assoc && net.assoc[w] == c
  }

  /** do_handover on the tables; `records`: what associate_infra does for an interface that is (not) associated. */
  ghost function HandoverStep<S, A>(net: Net<S, A>, s: S, c: A, rule: Rule, wlans: seq<S>,
      records: bool -> bool): Net<S, A>
    requires c in net.members
  {
    var (mid, change) := Decide(net, s, c, rule);
    if !NodeIsOn(mid, wlans, c) && (s !in mid.assoc || change) && records(s in mid.assoc)
    then Connect(mid, s, c) else mid
  }

  method CheckIfApExists(intf: Intf, ap: ApIntf) returns (free: bool)
    ensures free <==> forall w | w in intf.node.wintfs :: w.associatedTo != ap
  {
    for i := 0 to |intf.node.wintfs|
      invariant forall j | 0 <= j < i :: intf.node.wintfs[j].associatedTo != ap
    {
      if intf.node.wintfs[i].associatedTo == ap {
        return false;
      }
    }
    return true;
  }

  method DoHandover(intf: Intf, ap: ApIntf, rule: Rule, hasStaConf: bool, ghost stas: set<Intf>, ghost aps: set<ApIntf>)
    requires intf in stas && ap in aps && Closed(stas, aps)
    requires forall w | w in intf.node.wintfs :: w in stas
    modifies intf, ap, intf.associatedTo
    ensures Closed(stas, aps)
    ensures Tables(stas, aps) == HandoverStep(old(Tables(stas, aps)), intf, ap, rule, intf.node.wintfs,
                                              associated => Records(ap, intf.speaksWpa, hasStaConf, associated))
  {
    hide Records;
    var changeAP := false;
    if intf.associatedTo != null {
      match rule
      case NoRule =>
      case LlfRule => changeAP := Llf(intf, ap, stas, aps);
      case SsfRule(rssi, refRssi) => changeAP := Ssf(intf, ap, rssi, refRssi, stas, aps);
    }
    Reassociate(intf, ap, changeAP, hasStaConf, stas, aps);
  }

  /** The second half of do_handover. */
  method Reassociate(intf: Intf, ap: ApIntf, changeAP: bool, hasStaConf: bool, ghost stas: set<Intf>,
      ghost aps: set<ApIntf>)
    requires intf in stas && ap in aps && Closed(stas, aps)
    requires forall w | w in intf.node.wintfs :: w in stas
    modifies intf, ap
    ensures Closed(stas, aps)
    ensures var mid := old(Tables(stas, aps));
            Tables(stas, aps) ==
            if !old(NodeIsOn(mid, intf.node.wintfs, ap)) && (intf !in mid.assoc || changeAP)
               && Records(ap, intf.speaksWpa, hasStaConf, intf in mid.assoc)
            then Connect(mid, intf, ap) else mid
  {
    hide Records;
    var free := CheckIfApExists(intf, ap);
    if free {
      if intf.associatedTo == null || changeAP {
        intf.AssociateInfra(ap, hasStaConf);
      }
    }
  }

  // ----- Who joins

  /**
   Which interfaces associate_infra writes down: on an access point with fast roaming those that speak
   WPA, are new and have no wpa_supplicant file; otherwise all on an open one, new ones under WEP,
   and new ones that speak WPA under WPA.
   */
  lemma RecordedExactlyWhen(ap: ApIntf, speaksWpa: bool, hasStaConf: bool, associated: bool)
    ensures ap.fastRoaming && speaksWpa
            ==> (Records(ap, speaksWpa, hasStaConf, associated) <==> !associated && !hasStaConf)
    ensures !(ap.fastRoaming && speaksWpa) && ap.security == Open ==> Records(ap, speaksWpa, hasStaConf, associated)
    ensures ap.security == Other && !ap.fastRoaming ==> !Records(ap, speaksWpa, hasStaConf, associated)
    ensures ap.security == Wpa && !speaksWpa ==> !Records(ap, speaksWpa, hasStaConf, associated)
    ensures ap.security == Wpa && !ap.fastRoaming && speaksWpa
            ==> (Records(ap, speaksWpa, hasStaConf, associated) <==> !associated)
    ensures ap.security == Wep && !(ap.fastRoaming && speaksWpa)
            ==> (Records(ap, speaksWpa, hasStaConf, associated) <==> !associated)
  {
  }

  /**
   A station without an access point joins, whatever the rule, unless another interface of its node is on
   the candidate or the candidate does not write the association down; nothing else changes.
   */
  lemma NewcomerJoins<S, A>(net: Net<S, A>, s: S, c: A, rule: Rule, wlans: seq<S>, records: bool -> bool)
    requires c in net.members && s !in net.assoc
    ensures var next := HandoverStep(net, s, c, rule, wlans, records);
            && (s in next.assoc <==> !NodeIsOn(net, wlans, c) && records(false))
            && (if s in next.assoc
                then next.assoc == net.assoc[s := c] && next.members == net.members[c := net.members[c] + [s]]
                else next == net)
            && (Consistent(net) ==> Consistent(next))
  {
    if Consistent(net) { ConnectKeeps(net, s, c); }
  }

  /** The rule asks for a change: two stations fewer and more, or a signal better by more than the margin. */
  predicate Asks<S, A>(net: Net<S, A>, s: S, c: A, rule: Rule)
    requires s in net.assoc && net.assoc[s] in net.members && c in net.members
  {
    match rule
    case NoRule => false
    case LlfRule => |net.members[c]| + 2 < |net.members[net.assoc[s]]|
    case SsfRule(rssi, refRssi) => refRssi - rssi > 0.1
  }

  /** While its rule does not ask for a change, an associated station stays where it is. */
  lemma SettledStays<S, A>(net: Net<S, A>, s: S, c: A, rule: Rule, wlans: seq<S>, records: bool -> bool)
    requires c in net.members && s in net.assoc && net.assoc[s] in net.members && !Asks(net, s, c, rule)
    ensures HandoverStep(net, s, c, rule, wlans, records) == net
  {
  }

  /** When it asks, the station leaves, and is on the candidate or nowhere. */
  lemma AskedLeaves<S, A>(net: Net<S, A>, s: S, c: A, rule: Rule, wlans: seq<S>, records: bool -> bool)
    requires c in net.members && s in net.assoc && net.assoc[s] in net.members && Asks(net, s, c, rule)
    ensures var next := HandoverStep(net, s, c, rule, wlans, records);
            && (s in next.assoc <==> !OtherIsOn(net, wlans, s, c) && records(false))
            && next.assoc == (if s in next.assoc then net.assoc[s := c] else net.assoc - {s})
            && next.members.Keys == net.members.Keys
            && (forall a | a in net.members && a != c && (rule.LlfRule? ==> a != net.assoc[s]) ::
                  next.members[a] == net.members[a])
  {
    var left := if rule.LlfRule? then net.assoc[s] else c;
    var mid := Disconnect(net, s, left);
    assert NodeIsOn(mid, wlans, c) <==> OtherIsOn(net, wlans, s, c);
  }

  // ----- When a least-loaded-first handover keeps its station

  /** A free interface, and a candidate that writes the association down: the step is exactly the move of the rule. */
  lemma LlfStepIsMove<S, A>(net: Net<S, A>, s: S, c: A, wlans: seq<S>, records: bool -> bool)
    requires c in net.members && LlfFires(net, s, c)
    requires !NodeIsOn(net, wlans, c) && records(false)
    ensures HandoverStep(net, s, c, LlfRule, wlans, records) == LlfMove(net, s, c)
  {
  }

  /**
   A step loses its station exactly when the rule fires although another interface of the
   node already sits on the candidate, or the candidate does not write the association down.
   */
  lemma LlfStepLoses<S, A>(net: Net<S, A>, s: S, c: A, wlans: seq<S>, records: bool -> bool)
    requires Consistent(net) && c in net.members && s in net.assoc
    ensures var next := HandoverStep(net, s, c, LlfRule, wlans, records);
            && (s !in next.assoc <==> LlfFires(net, s, c) && (NodeIsOn(net, wlans, c) || !records(false)))
            && Consistent(next)
  {
    DisconnectKeeps(net, s);
    var (mid, change) := Decide(net, s, c, LlfRule);
    if LlfFires(net, s, c) {
      assert NodeIsOn(mid, wlans, c) <==> NodeIsOn(net, wlans, c);
      ConnectKeeps(mid, s, c);
    }
  }

  /** An input: the interface of a node whose other interface is on the candidate loses its access point. */
  lemma LlfStepLosesOne(records: bool -> bool)
    ensures var net := Net(map[1 := 0, 2 := 0, 3 := 0, 4 := 0, 5 := 1], map[0 := [1, 2, 3, 4], 1 := [5]]);
            1 in net.assoc && 1 !in HandoverStep(net, 1, 1, LlfRule, [1, 5], records).assoc
  {
    var net := Net(map[1 := 0, 2 := 0, 3 := 0, 4 := 0, 5 := 1], map[0 := [1, 2, 3, 4], 1 := [5]]);
    assert Load(net, 0) == 4 && Load(net, 1) == 1 && LlfFires(net, 1, 1);
    var (mid, change) := Decide(net, 1, 1, LlfRule);
    assert 5 in [1, 5] && 5 in mid.assoc && mid.assoc[5] == 1;
    assert NodeIsOn(mid, [1, 5], 1);
  }

  // ----- When a strongest-signal-first handover keeps its station

  ghost predicate Stronger(rule: Rule) { rule.SsfRule? && rule.refRssi > rule.rssi + 0.1 }

  ghost predicate OtherIsOn<S, A>(net: Net<S, A>, wlans: seq<S>, s: S, c: A) {
    exists w | w in wlans && w != s :: w in net.assoc && net.assoc[w] == c
  }

  lemma SsfStepIsMove<S, A>(net: Net<S, A>, s: S, c: A, rule: Rule, wlans: seq<S>, records: bool -> bool)
    requires c in net.members && s in net.assoc && Stronger(rule)
    requires !OtherIsOn(net, wlans, s, c) && records(false)
    ensures HandoverStep(net, s, c, rule, wlans, records) == SsfMove(net, s, c)
  {
    var mid := Disconnect(net, s, c);
    assert !NodeIsOn(mid, wlans, c);
  }

  /**
   This step, too, loses its station exactly when the rule fires although another interface of the
   node is on the candidate, or the candidate does not write the association down.
   */
  lemma SsfStepLoses<S, A>(net: Net<S, A>, s: S, c: A, rule: Rule, wlans: seq<S>, records: bool -> bool)
    requires c in net.members && s in net.assoc && rule.SsfRule?
    ensures s !in HandoverStep(net, s, c, rule, wlans, records).assoc
      <==> Stronger(rule) && (OtherIsOn(net, wlans, s, c) || !records(false))
  {
    var mid := Disconnect(net, s, c);
    assert NodeIsOn(mid, wlans, c) <==> OtherIsOn(net, wlans, s, c);
  }

  lemma SsfStepLosesOne(records: bool -> bool)
    ensures var net := Net(map[1 := 0, 5 := 1], map[0 := [1], 1 := [5]]);
            1 in net.assoc && 1 !in HandoverStep(net, 1, 1, SsfRule(0.0, 1.0), [1, 5], records).assoc
  {
    var net := Net(map[1 := 0, 5 := 1], map[0 := [1], 1 := [5]]);
    assert 5 in [1, 5] && net.assoc[5] == 1;
    assert OtherIsOn(net, [1, 5], 1, 1);
    SsfStepLoses(net, 1, 1, SsfRule(0.0, 1.0), [1, 5], records);
  }
}
