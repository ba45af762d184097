/**
 The two passes of iw/scan.c over a string of information elements: init_context collects
 what printing needs to know, print_ies prints. Both are proved to visit the elements
 `Tlv.Parse` finds.
 */
module ScanIes {
  import opened Tlv
  import opened Wrappers

  const EID_VHT_CAPABILITY := 191
  const EID_VENDOR := 221
  const EID_EXTENSION := 255
  const EID_EXT_HE_CAPABILITY := 35

  /** A buffer of elements, and the byte of memory right after it. */
  datatype Memory = Memory(ie: seq<Byte>, beyond: Byte)
  {
    function At(i: nat): Byte
      requires i <= |ie|
    {
      if i < |ie| then ie[i] else beyond
    }
  }

  /** The element that stands at offset `pos`. */
  datatype Placed = Placed(pos: nat, item: Item)

  function Place(pos: nat, items: seq<Item>): (s: seq<Placed>)
    ensures |s| == |items|
    decreases items
  {
    if items == [] then []
    else [Placed(pos, items[0])] + Place(pos + 2 + |items[0].body|, items[1..])
  }

  /** The elements of the maximal well-formed prefix from offset `pos` on. */
  function Elements(mem: Memory, pos: nat): seq<Placed>
    requires pos <= |mem.ie|
  {
    Place(pos, Parse(Element, mem.ie[pos..]).items)
  }

  // ----- init_context

  predicate IsVht(e: Placed) { e.item.id == EID_VHT_CAPABILITY }

  predicate HasVht(es: seq<Placed>) { exists e | e in es :: IsVht(e) }

  lemma HasVhtAppend(es: seq<Placed>, e: Placed)
    ensures HasVht(es + [e]) <==> HasVht(es) || IsVht(e)
  {
    assert e in es + [e];
    assert forall d | d in es :: d in es + [e];
  }

  /** The test of the inner switch, which looks at the third byte whatever the length says. */
  predicate LooksLikeHe(mem: Memory, e: Placed) {
    e.item.id == EID_EXTENSION && e.pos + 2 <= |mem.ie| && mem.At(e.pos + 2) == EID_EXT_HE_CAPABILITY
  }

  function HeTest(mem: Memory): Placed -> bool {
    e => LooksLikeHe(mem, e)
  }

  /** An extension element that really carries the HE capability id. */
  predicate IsHe(e: Placed) {
    e.item.id == EID_EXTENSION && |e.item.body| > 0 && e.item.body[0] == EID_EXT_HE_CAPABILITY
  }

  /** Where the body of the last element accepted by `f` begins. */
  function LastBody(es: seq<Placed>, f: Placed -> bool): Option<nat> {
    if es == [] then None
    else
      var later := LastBody(es[1..], f);
      if later.Some? then later else if f(es[0]) then Some(es[0].pos + 3) else None
  }

  class IeContext {
    var fromAp: bool
    var isVhtCap: bool
    var heCap: Option<nat>

    method InitContext(mem: Memory, fromAp: bool)
      modifies this
      ensures this.fromAp == (mem.ie != [] && fromAp)
      ensures isVhtCap <==> HasVht(Elements(mem, 0))
      ensures isVhtCap <==> exists e | e in Elements(mem, 0) :: e.item.id == 191
      ensures heCap == LastBody(Elements(mem, 0), HeTest(mem))
    {
      hide Parse, LastBody, HasVht;
      NothingSeen(HeTest(mem));
      this.fromAp, isVhtCap, heCap := false, false, None;
      if |mem.ie| == 0 {
        ParseShort(Element, mem.ie);
        assert mem.ie[0..] == [];
        return;
      }
      this.fromAp := fromAp;
      var pos, remaining: nat := 0, |mem.ie|;
      ghost var seen: seq<Placed> := [];
      while remaining >= 2 && remaining - 2 >= mem.ie[pos + 1]
        invariant this.fromAp == fromAp
        invariant pos + remaining == |mem.ie|
        invariant Elements(mem, 0) == seen + Elements(mem, pos)
        invariant isVhtCap <==> HasVht(seen)
        invariant heCap == LastBody(seen, HeTest(mem))
      {
        ghost var here := NextElement(mem, pos);
        LastBodyAppend(seen, here, HeTest(mem));
        HasVhtAppend(seen, here);
        if mem.ie[pos] == EID_VHT_CAPABILITY {
          isVhtCap := true;
        } else if mem.ie[pos] == EID_EXTENSION {
          if mem.At(pos + 2) == EID_EXT_HE_CAPABILITY {
            heCap := Some(pos + 3);
          }
        }
        seen := seen + [here];
        var size: nat := mem.ie[pos + 1];
        remaining := remaining - (size + 2);
        pos := pos + size + 2;
      }
      NoElement(mem, pos);
      assert seen + [] == seen;
      VhtIs191(seen);
    }
  }

  lemma VhtIs191(es: seq<Placed>)
    ensures HasVht(es) <==> exists e | e in es :: e.item.id == 191
  {
    assert forall e :: IsVht(e) <==> e.item.id == 191;
  }

  lemma NothingSeen(f: Placed -> bool)
    ensures !HasVht([]) && LastBody([], f) == None
  {
  }

  lemma NextElement(mem: Memory, pos: nat) returns (e: Placed)
    requires pos + 2 <= |mem.ie| && pos + 2 + mem.ie[pos + 1] <= |mem.ie|
    ensures e == Placed(pos, Item(mem.ie[pos], mem.ie[pos + 2..pos + 2 + mem.ie[pos + 1]]))
    ensures Elements(mem, pos) == [e] + Elements(mem, pos + 2 + mem.ie[pos + 1])
  {
    hide Parse;
    var size: nat := mem.ie[pos + 1];
    e := Placed(pos, Item(mem.ie[pos], mem.ie[pos + 2..pos + 2 + size]));
    ParseAt(Element, mem.ie, pos, 2 + size);
    var later := Parse(Element, mem.ie[pos + 2 + size..]).items;
    assert ([e.item] + later)[1..] == later;
  }

  lemma NoElement(mem: Memory, pos: nat)
    requires pos <= |mem.ie|
    requires pos + 2 > |mem.ie| || pos + 2 + mem.ie[pos + 1] > |mem.ie|
    ensures Elements(mem, pos) == []
  {
    hide Parse;
    if pos + 2 > |mem.ie| {
      ParseShort(Element, mem.ie[pos..]);
    } else {
      var size: nat := mem.ie[pos + 1];
      ParseAt(Element, mem.ie, pos, 2 + size);
    }
  }

  lemma {:induction false} LastBodyAppend(es: seq<Placed>, e: Placed, f: Placed -> bool)
    ensures LastBody(es + [e], f) == if f(e) then Some(e.pos + 3) else LastBody(es, f)
  {
    if es == [] {
      assert LastBody([e][1..], f) == None;
    } else {
      LastBodyAppend(es[1..], e, f);
      assert (es + [e])[1..] == es[1..] + [e];
    }
  }

  // ----- print_ies

  /** What print_ies hands to which printer; extension printers also get the context. */
  datatype Shown =
    | Known(item: Item)
    | Vendor(item: Item)
    | Extension(item: Item, heCap: Option<nat>)
    | Unknown(item: Item)

  /** `known`: the ids with a printer for this kind of output. */
  function Show(item: Item, known: set<Byte>, unknown: bool, heCap: Option<nat>): seq<Shown>
    requires item.id < 0x100
  {
    if item.id in known && item.body != [] then [Known(item)]
    else if item.id == EID_VENDOR then [Vendor(item)]
    else if item.id == EID_EXTENSION then [Extension(item, heCap)]
    else if unknown then [Unknown(item)] else []
  }

  function ShowAll(es: seq<Placed>, known: set<Byte>, unknown: bool, heCap: Option<nat>): seq<Shown>
    requires WithIds(es)
  {
    if es == [] then []
    else ShowAll(es[..|es| - 1], known, unknown, heCap) + Show(es[|es| - 1].item, known, unknown, heCap)
  }

  predicate WithIds(es: seq<Placed>) {
    forall i | 0 <= i < |es| :: es[i].item.id < 0x100
  }

  lemma ShowAllAppend(es: seq<Placed>, e: Placed, known: set<Byte>, unknown: bool, heCap: Option<nat>)
    requires WithIds(es) && e.item.id < 0x100
    ensures WithIds(es + [e])
    ensures ShowAll(es + [e], known, unknown, heCap)
            == ShowAll(es, known, unknown, heCap) + Show(e.item, known, unknown, heCap)
  {
    assert (es + [e])[..|es|] == es;
  }

  lemma ElementIds(mem: Memory)
    ensures WithIds(Elements(mem, 0))
  {
    hide Parse;
    ParsedItemsFit(Element, mem.ie[0..]);
    var items := Parse(Element, mem.ie[0..]).items;
    PlacedItems(0, items);
    forall i | 0 <= i < |items| ensures Elements(mem, 0)[i].item.id < 0x100 {
      assert items[i] in items;
    }
  }

  lemma {:induction false} PlacedItems(pos: nat, items: seq<Item>)
    ensures forall i | 0 <= i < |items| :: Place(pos, items)[i].item == items[i]
    decreases items
  {
    if items != [] { PlacedItems(pos + 2 + |items[0].body|, items[1..]); }
  }

  method PrintIes(mem: Memory, known: set<Byte>, unknown: bool, fromAp: bool) returns (shown: seq<Shown>)
    ensures WithIds(Elements(mem, 0))
    ensures shown == ShowAll(Elements(mem, 0), known, unknown, LastBody(Elements(mem, 0), HeTest(mem)))
  {
    hide Elements, LastBody, ShowAll;
    var ctx := new IeContext;
    ctx.InitContext(mem, fromAp);
    shown := ShowElements(mem, known, unknown, ctx.heCap);
  }

  /** The choice of a printer for one element. */
  method ShowElement(ie: Item, known: set<Byte>, unknown: bool, heCap: Option<nat>) returns (shown: seq<Shown>)
    requires ie.id < 0x100
    ensures shown == Show(ie, known, unknown, heCap)
  {
    if ie.id in known && |ie.body| > 0 {
      return [Known(ie)];
    } else if ie.id == EID_VENDOR {
      return [Vendor(ie)];
    } else if ie.id == EID_EXTENSION {
      return [Extension(ie, heCap)];
    } else if unknown {
      return [Unknown(ie)];
    }
    return [];
  }

  lemma StepOver(mem: Memory, pos: nat, seen: seq<Placed>, known: set<Byte>, unknown: bool, heCap: Option<nat>)
    requires pos + 2 <= |mem.ie| && pos + 2 + mem.ie[pos + 1] <= |mem.ie|
    requires Elements(mem, 0) == seen + Elements(mem, pos) && WithIds(seen)
    ensures var size: nat := mem.ie[pos + 1];
            var here := Placed(pos, Item(mem.ie[pos], mem.ie[pos + 2..pos + 2 + size]));
            && Elements(mem, 0) == seen + [here] + Elements(mem, pos + size + 2)
            && WithIds(seen + [here])
            && ShowAll(seen + [here], known, unknown, heCap)
               == ShowAll(seen, known, unknown, heCap) + Show(here.item, known, unknown, heCap)
  {
    hide Elements, ShowAll, Show;
    var here := NextElement(mem, pos);
    ShowAllAppend(seen, here, known, unknown, heCap);
  }

  lemma ShowNothing(known: set<Byte>, unknown: bool, heCap: Option<nat>)
    ensures WithIds([]) && ShowAll([], known, unknown, heCap) == []
  {
  }

  /** The loop of print_ies. */
  method ShowElements(mem: Memory, known: set<Byte>, unknown: bool, heCap: Option<nat>) returns (shown: seq<Shown>)
    ensures WithIds(Elements(mem, 0))
    ensures shown == ShowAll(Elements(mem, 0), known, unknown, heCap)
  {
    hide Elements, ShowAll, Show, WithIds;
    ElementIds(mem);
    ShowNothing(known, unknown, heCap);
    shown := [];
    var ie: nat, ielen: nat := 0, |mem.ie|;
    ghost var seen: seq<Placed> := [];
    while ielen >= 2 && ielen - 2 >= mem.ie[ie + 1]
      invariant ie + ielen == |mem.ie|
      invariant Elements(mem, 0) == seen + Elements(mem, ie)
      invariant WithIds(seen)
      invariant shown == ShowAll(seen, known, unknown, heCap)
    {
      var size: nat := mem.ie[ie + 1];
      var item := Item(mem.ie[ie], mem.ie[ie + 2..ie + 2 + size]);
      StepOver(mem, ie, seen, known, unknown, heCap);
      var printed := ShowElement(item, known, unknown, heCap);
      shown := shown + printed;
      seen := seen + [Placed(ie, item)];
      ielen := ielen - (size + 2);
      ie := ie + size + 2;
    }
    NoElement(mem, ie);
    assert Elements(mem, 0) == seen;
  }

  // ----- What is printed, in the order of the elements

  function ItemOf(s: Shown): Item {
    match s
    case Known(item) => item
    case Vendor(item) => item
    case Extension(item, _) => item
    case Unknown(item) => item
  }

  /** The elements that are printed: all of them, or those with a printer. */
  function Printed(es: seq<Placed>, known: set<Byte>, unknown: bool): seq<Item>
    requires WithIds(es)
  {
    if es == [] then []
    else
      var e := es[|es| - 1].item;
      Printed(es[..|es| - 1], known, unknown)
      + if unknown || e.id in {221, 255} || (e.id in known && |e.body| > 0) then [e] else []
  }

  predicate RightPrinter(s: Shown, known: set<Byte>, unknown: bool, heCap: Option<nat>)
    requires ItemOf(s).id < 0x100
  {
    var item := ItemOf(s);
    var has := item.id in known && |item.body| > 0;
    && (s.Known? <==> has) && (s.Vendor? <==> !has && item.id == 221)
    && (s.Extension? <==> !has && item.id == 255) && (s.Unknown? ==> unknown)
    && (s.Extension? ==> s.heCap == heCap)
  }

  lemma ShowRight(item: Item, known: set<Byte>, unknown: bool, heCap: Option<nat>)
    requires item.id < 0x100
    ensures var shown := Show(item, known, unknown, heCap);
            && |shown| == (if unknown || item.id in {221, 255} || (item.id in known && |item.body| > 0) then 1 else 0)
            && (|shown| == 1 ==> ItemOf(shown[0]) == item && RightPrinter(shown[0], known, unknown, heCap))
  {
  }

  /**
   The printers called are those of the elements printed, in order: the one of the id for nonempty bodies,
   the vendor and the extension printer for 221 and 255, and every extension printer gets `heCap`.
   */
  lemma {:induction false} ShownInOrder(es: seq<Placed>, known: set<Byte>, unknown: bool, heCap: Option<nat>)
    requires WithIds(es)
    ensures var shown, items := ShowAll(es, known, unknown, heCap), Printed(es, known, unknown);
            && |shown| == |items|
            && forall i | 0 <= i < |shown| ::
                 && ItemOf(shown[i]) == items[i] && items[i].id < 0x100
                 && RightPrinter(shown[i], known, unknown, heCap)
  {
    if es != [] {
      hide Show, RightPrinter, ItemOf;
      var n := |es| - 1;
      ShownInOrder(es[..n], known, unknown, heCap);
      ShowRight(es[n].item, known, unknown, heCap);
    }
  }

  // ----- When the context is right

  /** Offsets are where the elements stand. */
  lemma {:induction false} ElementsInPlace(mem: Memory, pos: nat)
    requires pos <= |mem.ie|
    ensures forall e | e in Elements(mem, pos) ::
              && e.pos + 2 + |e.item.body| <= |mem.ie|
              && mem.ie[e.pos + 2..e.pos + 2 + |e.item.body|] == e.item.body
    decreases |mem.ie| - pos
  {
    hide Parse;
    if pos + 2 <= |mem.ie| && pos + 2 + mem.ie[pos + 1] <= |mem.ie| {
      var e := NextElement(mem, pos);
      ElementsInPlace(mem, pos + 2 + mem.ie[pos + 1]);
    } else {
      NoElement(mem, pos);
    }
  }

  /** A nonempty element is recognised for what it is. */
  lemma NonemptyRecognised(mem: Memory, e: Placed)
    requires e in Elements(mem, 0) && |e.item.body| > 0
    ensures LooksLikeHe(mem, e) <==> IsHe(e)
  {
    ElementsInPlace(mem, 0);
    assert mem.ie[e.pos + 2..e.pos + 2 + |e.item.body|][0] == e.item.body[0];
  }

  ghost predicate NoEmptyExtension(es: seq<Placed>) {
    forall e | e in es :: e.item.id == EID_EXTENSION ==> e.item.body != []
  }

  /** Without empty extension elements, the HE capability handed to the printers is the last one in the buffer. */
  lemma HeCapIsLastHe(mem: Memory)
    requires NoEmptyExtension(Elements(mem, 0))
    ensures LastBody(Elements(mem, 0), HeTest(mem)) == LastBody(Elements(mem, 0), IsHe)
  {
    hide Parse, Elements;
    forall e | e in Elements(mem, 0) ensures LooksLikeHe(mem, e) <==> IsHe(e) {
      if e.item.id == EID_EXTENSION { NonemptyRecognised(mem, e); }
    }
    LastBodyAgree(Elements(mem, 0), HeTest(mem), IsHe);
  }

  lemma {:induction false} LastBodyAgree(es: seq<Placed>, f: Placed -> bool, g: Placed -> bool)
    requires forall e | e in es :: f(e) == g(e)
    ensures LastBody(es, f) == LastBody(es, g)
  {
    if es != [] { LastBodyAgree(es[1..], f, g); }
  }

  /** An empty extension element followed by an element of id 35 is taken for an HE capability. */
  lemma EmptyExtensionMisread(beyond: Byte)
    ensures var mem := Memory([255, 0, 35, 0], beyond);
            && LastBody(Elements(mem, 0), HeTest(mem)) == Some(3)
            && LastBody(Elements(mem, 0), IsHe) == None
  {
    hide Parse;
    var mem := Memory([255, 0, 35, 0], beyond);
    var first := NextElement(mem, 0);
    var second := NextElement(mem, 2);
    NoElement(mem, 4);
    assert Elements(mem, 0) == [first, second];
    LastBodyAppend([first], second, HeTest(mem));
    LastBodyAppend([], first, HeTest(mem));
    LastBodyAppend([first], second, IsHe);
    LastBodyAppend([], first, IsHe);
    assert [first] + [second] == [first, second] && [] + [first] == [first];
  }

  /** An empty one at the very end is taken for one too, if the byte after the buffer is 35. */
  lemma LastByteMisread()
    ensures var mem := Memory([255, 0], 35);
            && LastBody(Elements(mem, 0), HeTest(mem)) == Some(3)
            && LastBody(Elements(mem, 0), IsHe) == None
  {
    hide Parse;
    var mem := Memory([255, 0], 35);
    var only := NextElement(mem, 0);
    NoElement(mem, 2);
    assert Elements(mem, 0) == [only];
    LastBodyAppend([], only, HeTest(mem));
    LastBodyAppend([], only, IsHe);
    assert [] + [only] == [only];
  }

  // ----- The exact condition

  predicate IsLast(es: seq<Placed>, f: Placed -> bool, i: int) {
    0 <= i < |es| && f(es[i]) && forall j | i < j < |es| :: !f(es[j])
  }

  lemma {:induction false} LastBodyIsLast(es: seq<Placed>, f: Placed -> bool)
    ensures LastBody(es, f).None? ==> forall i | 0 <= i < |es| :: !f(es[i])
    ensures LastBody(es, f).Some? ==> exists i :: IsLast(es, f, i) && LastBody(es, f) == Some(es[i].pos + 3)
  {
    if es != [] {
      var later := es[1..];
      LastBodyIsLast(later, f);
      if LastBody(later, f).Some? {
        var i :| IsLast(later, f, i) && LastBody(later, f) == Some(later[i].pos + 3);
        assert forall j | i + 1 < j < |es| :: es[j] == later[j - 1];
        assert IsLast(es, f, i + 1);
      } else if f(es[0]) {
        assert forall j | 0 < j < |es| :: es[j] == later[j - 1];
        assert IsLast(es, f, 0);
      }
    }
  }

  ghost predicate Increasing(es: seq<Placed>) {
    forall i, j | 0 <= i < j < |es| :: es[i].pos < es[j].pos
  }

  lemma {:induction false} PlaceIncreasing(pos: nat, items: seq<Item>)
    ensures Increasing(Place(pos, items)) && forall e | e in Place(pos, items) :: e.pos >= pos
    decreases items
  {
    if items != [] { PlaceIncreasing(pos + 2 + |items[0].body|, items[1..]); }
  }

  /** Of the extension elements with byte 35 right after their header, the last is not empty. */
  ghost predicate LastLookIsGenuine(mem: Memory) {
    var es := Elements(mem, 0);
    forall i | 0 <= i < |es| && LooksLikeHe(mem, es[i]) && (forall j | i < j < |es| :: !LooksLikeHe(mem, es[j])) ::
      es[i].item.body != []
  }

  lemma LastLookMeans(mem: Memory)
    ensures var es := Elements(mem, 0);
            LastLookIsGenuine(mem) <==> forall i | IsLast(es, HeTest(mem), i) :: IsHe(es[i])
  {
    hide Elements;
    var es := Elements(mem, 0);
    forall i | IsLast(es, HeTest(mem), i) ensures IsHe(es[i]) <==> es[i].item.body != [] {
      assert es[i] in es;
      if es[i].item.body != [] { NonemptyRecognised(mem, es[i]); }
    }
    forall i | 0 <= i < |es|
      ensures IsLast(es, HeTest(mem), i)
        <==> LooksLikeHe(mem, es[i]) && (forall j | i < j < |es| :: !LooksLikeHe(mem, es[j]))
    {
    }
  }

  lemma HeLooksLikeHe(mem: Memory)
    ensures forall e | e in Elements(mem, 0) && IsHe(e) :: LooksLikeHe(mem, e)
    ensures Increasing(Elements(mem, 0))
  {
    hide Parse, Place;
    PlaceIncreasing(0, Parse(Element, mem.ie[0..]).items);
    forall e | e in Elements(mem, 0) && IsHe(e) ensures LooksLikeHe(mem, e) { NonemptyRecognised(mem, e); }
  }

  /** Two tests of which one is stricter find the same last element exactly when the one it finds passes both. */
  lemma SameLastExactlyWhen(es: seq<Placed>, f: Placed -> bool, g: Placed -> bool)
    requires Increasing(es) && forall e | e in es && g(e) :: f(e)
    ensures LastBody(es, f) == LastBody(es, g) <==> forall i | IsLast(es, f, i) :: g(es[i])
  {
    hide LastBody;
    LastBodyIsLast(es, f);
    LastBodyIsLast(es, g);
    if LastBody(es, f).Some? {
      var i :| IsLast(es, f, i) && LastBody(es, f) == Some(es[i].pos + 3);
      if LastBody(es, g).Some? {
        var k :| IsLast(es, g, k) && LastBody(es, g) == Some(es[k].pos + 3);
        assert es[k] in es && k <= i;
        assert k < i ==> es[k].pos < es[i].pos && !g(es[i]);
      } else {
        assert IsLast(es, f, i) && !g(es[i]);
      }
    } else {
      forall k | 0 <= k < |es| ensures !g(es[k]) { assert es[k] in es; }
    }
  }

  /** init_context is right about the HE capability exactly then. */
  lemma HeCapRightExactlyWhen(mem: Memory)
    ensures LastBody(Elements(mem, 0), HeTest(mem)) == LastBody(Elements(mem, 0), IsHe) <==> LastLookIsGenuine(mem)
  {
    hide Parse, Place, LastBody, Elements, LastLookIsGenuine, IsLast, Increasing, IsHe, LooksLikeHe;
    HeLooksLikeHe(mem);
    SameLastExactlyWhen(Elements(mem, 0), HeTest(mem), IsHe);
    LastLookMeans(mem);
  }
}
