/**
 The flattened device tree scanner of spike_interface/dts_parse.c and the structure
 block of section 5.4 of the Devicetree Specification.  A word is its four bytes in
 memory order; tokens, lengths and offsets are stored big-endian.  Cell counts,
 which sibling nodes of the source share, are not part of the trace.
 */
module DeviceTree {
  import opened Collections

  // ---------------------------------------------------------------- words

  function Bswap(x: bv32): (z: bv32) {
    var y := ((x & 0x00FF00FF) << 8) | ((x & 0xFF00FF00) >> 8);
    ((y & 0x0000FFFF) << 16) | ((y & 0xFFFF0000) >> 16)
  }

  /** A word as a little-endian machine loads it. */
  function Load(b0: bv8, b1: bv8, b2: bv8, b3: bv8): (x: bv32) {
    (b0 as bv32) | ((b1 as bv32) << 8) | ((b2 as bv32) << 16) | ((b3 as bv32) << 24)
  }

  /** bswap of a loaded word is the word read with its bytes in the opposite order: big-endian. */
  lemma BswapReadsBigEndian(b0: bv8, b1: bv8, b2: bv8, b3: bv8)
    ensures Bswap(Load(b0, b1, b2, b3)) == Load(b3, b2, b1, b0)
  {
  }

  type Byte = b: nat | b < 256

  datatype Word = Word(b0: Byte, b1: Byte, b2: Byte, b3: Byte)

  const TWO_31: int := 0x8000_0000
  const TWO_32: nat := 0x1_0000_0000
  const TWO_64: nat := 0x1_0000_0000_0000_0000

  /** The value of a word whose bytes are stored big-endian. */
  function Value(w: Word): (v: nat)
    ensures v < TWO_32
  {
    w.b0 * 0x100_0000 + w.b1 * 0x1_0000 + w.b2 * 0x100 + w.b3
  }

  /** Its bytes, in memory order, are the base-256 digits of the value, the highest first. */
  lemma ValueDigits(w: Word)
    ensures Value(w) / 0x100_0000 == w.b0 && Value(w) / 0x1_0000 % 256 == w.b1
    ensures Value(w) / 0x100 % 256 == w.b2 && Value(w) % 256 == w.b3
  {
    assert Value(w) / 0x100 == w.b0 * 0x1_0000 + w.b1 * 0x100 + w.b2;
    assert Value(w) / 0x1_0000 == w.b0 * 0x100 + w.b1;
  }

  /** One word for each value. */
  lemma ValueInjective(w: Word, u: Word)
    ensures Value(w) == Value(u) ==> w == u
  {
    ValueDigits(w);
    ValueDigits(u);
  }

  /** The same word as a little-endian machine loads it. */
  function LoadedValue(w: Word): (v: nat) {
    w.b0 + w.b1 * 0x100 + w.b2 * 0x1_0000 + w.b3 * 0x100_0000
  }

  /** bswap on numbers: the bytes of each half exchanged, then the halves. */
  function Swapped(x: nat): (z: nat) {
    Exchanged(x / 0x1_0000 % 256 * 256 + x / 0x100_0000 % 256, x % 256 * 256 + x / 256 % 256)
  }

  /** The halves of the number with upper half a and lower half b, the other way round. */
  function Exchanged(a: nat, b: nat): (z: nat) {
    var y := a * 0x1_0000 + b;
    y % 0x1_0000 * 0x1_0000 + y / 0x1_0000
  }

  lemma SwapsDigits(x: nat, b0: Byte, b1: Byte, b2: Byte, b3: Byte)
    requires x / 0x100_0000 % 256 == b3 && x / 0x1_0000 % 256 == b2 && x / 0x100 % 256 == b1 && x % 256 == b0
    ensures Swapped(x) == (b0 * 256 + b1) * 0x1_0000 + (b2 * 256 + b3)
  {
    HalvesOf(b2 * 256 + b3, b0 * 256 + b1);
  }

  lemma HalvesOf(a: nat, b: nat)
    requires b < 0x1_0000
    ensures Exchanged(a, b) == b * 0x1_0000 + a
  {
  }

  /** The value of a word is bswap of what the machine loads. */
  lemma ValueIsSwapped(w: Word)
    ensures LoadedValue(w) == Value(Word(w.b3, w.b2, w.b1, w.b0)) && Value(w) == Swapped(LoadedValue(w))
  {
    ValueDigits(Word(w.b3, w.b2, w.b1, w.b0));
    SwapsDigits(LoadedValue(w), w.b0, w.b1, w.b2, w.b3);
  }

  /** The tokens of the structure block, and the magic number of the header, in memory. */
  lemma KnownWords(w: Word)
    ensures Value(w) == 1 <==> w == Word(0, 0, 0, 1)
    ensures Value(w) == 2 <==> w == Word(0, 0, 0, 2)
    ensures Value(w) == 3 <==> w == Word(0, 0, 0, 3)
    ensures Value(w) == 4 <==> w == Word(0, 0, 0, 4)
    ensures Value(w) == FDT_MAGIC <==> w == Word(0xd0, 0x0d, 0xfe, 0xed)
  {
    ValueInjective(w, Word(0, 0, 0, 1));
    ValueInjective(w, Word(0, 0, 0, 2));
    ValueInjective(w, Word(0, 0, 0, 3));
    ValueInjective(w, Word(0, 0, 0, 4));
    ValueInjective(w, Word(0xd0, 0x0d, 0xfe, 0xed));
  }

  const BEGIN_NODE := Word(0, 0, 0, 1)
  const END_NODE := Word(0, 0, 0, 2)
  const PROP := Word(0, 0, 0, 3)
  const NOP := Word(0, 0, 0, 4)

  predicate HasNul(w: Word) {
    w.b0 == 0 || w.b1 == 0 || w.b2 == 0 || w.b3 == 0
  }

  /** Byte i of a block of words. */
  function ByteAt(ws: seq<Word>, i: nat): (b: Byte)
    requires i / 4 < |ws|
  {
    var w := ws[i / 4];
    if i % 4 == 0 then w.b0 else if i % 4 == 1 then w.b1 else if i % 4 == 2 then w.b2 else w.b3
  }

  // ---------------------------------------------------------------- trees and their flattening

  /** A property: its length in bytes, the offset of its name, and its value padded to words. */
  datatype Property = Property(len: Word, nameOff: Word, value: seq<Word>)

  datatype Item = Nop | Prop(prop: Property) | Child(node: Node)

  /** A node: its name, NUL-terminated and padded, and what lies between it and its end token. */
  datatype Node = Node(name: seq<Word>, items: seq<Item>)

  predicate NameOk(name: seq<Word>) {
    |name| > 0 && HasNul(name[|name| - 1]) && forall i | 0 <= i < |name| - 1 :: !HasNul(name[i])
  }

  /** The value fills the words its length asks for, and the length is one the scanner can add up. */
  predicate PropOk(p: Property) {
    |p.value| == (Value(p.len) + 3) / 4 && Value(p.len) < TWO_31 - 3
  }

  /** Two's complement in 32 bits, and division that truncates toward zero: C's int. */
  function AsInt(v: int): (r: int) {
    (v + TWO_31) % TWO_32 - TWO_31
  }

  function Quarter(v: int): (r: int) {
    if v >= 0 then v / 4 else -((-v) / 4)
  }

  /** How far the scanner moves past a property: its length is kept in an int. */
  function PropWords(len: nat): (r: int) {
    3 + Quarter(AsInt(AsInt(len) + 3))
  }

  /** The scanner moves past the padded value exactly when the length is below 2^31 - 3. */
  lemma PropWordsIff(len: nat)
    requires len < TWO_32
    ensures PropWords(len) == 3 + (len + 3) / 4 <==> len < TWO_31 - 3
  {
    if len < TWO_31 {
      assert AsInt(len) == len;
    } else {
      assert AsInt(len) == len - TWO_32;
    }
  }

  /** Well formed: names terminated, values padded, and no property after a child node. */
  predicate ItemsOk(items: seq<Item>, last: bool)
    decreases items
  {
    items == [] ||
    (ItemOk(items[0]) && (items[0].Prop? ==> !last) && ItemsOk(items[1..], last || items[0].Child?))
  }

  predicate ItemOk(it: Item) {
    match it
    case Nop => true
    case Prop(p) => PropOk(p)
    case Child(c) => NodeOk(c)
  }

  predicate NodeOk(n: Node) {
    NameOk(n.name) && ItemsOk(n.items, false)
  }

  function FlatNode(n: Node): (ws: seq<Word>)
    ensures |ws| >= 2
  {
    [BEGIN_NODE] + n.name + FlatItems(n.items) + [END_NODE]
  }

  function FlatItem(it: Item): (ws: seq<Word>)
    ensures |ws| >= 1
  {
    match it
    case Nop => [NOP]
    case Prop(p) => [PROP, p.len, p.nameOff] + p.value
    case Child(c) => FlatNode(c)
  }

  function FlatItems(items: seq<Item>): (ws: seq<Word>)
    decreases items
  {
    if items == [] then [] else FlatItem(items[0]) + FlatItems(items[1..])
  }

  lemma {:induction false} FlatAppend(a: seq<Item>, b: seq<Item>)
    ensures FlatItems(a + b) == FlatItems(a) + FlatItems(b)
    decreases |a|
  {
    if a == [] {
      assert a + b == b;
    } else {
      assert (a + b)[1..] == a[1..] + b;
      FlatAppend(a[1..], b);
    }
  }

  function Nops(n: nat): (items: seq<Item>)
    ensures |items| == n
  {
    seq(n, _ => Nop)
  }

  lemma {:induction false} FlatNops(n: nat)
    ensures |FlatItems(Nops(n))| == n && forall i | 0 <= i < n :: FlatItems(Nops(n))[i] == NOP
    decreases n
  {
    if n > 0 {
      assert Nops(n)[1..] == Nops(n - 1);
      FlatNops(n - 1);
    }
  }

  // ---------------------------------------------------------------- what a scan reports

  datatype Event = Open(name: seq<Word>) | Has(prop: Property) | Done | Close(name: seq<Word>)

  /** The properties of a node, in order. */
  function PropEvents(items: seq<Item>): (es: seq<Event>)
  {
    if items == [] then []
    else (if items[0].Prop? then [Has(items[0].prop)] else []) + PropEvents(items[1..])
  }

  /** The pre-order traces of a node's children, in order. */
  function ChildEvents(items: seq<Item>): (es: seq<Event>)
    decreases items
  {
    if items == [] then []
    else ItemEvents(items[0]) + ChildEvents(items[1..])
  }

  function ItemEvents(it: Item): (es: seq<Event>) {
    if it.Child? then PreOrder(it.node) else []
  }

  /** The pre-order trace of a node: open, every property, done once, every child, close. */
  function PreOrder(n: Node): (es: seq<Event>)
  {
    [Open(n.name)] + PropEvents(n.items) + [Done] + ChildEvents(n.items) + [Close(n.name)]
  }

  // ---------------------------------------------------------------- the scan on trees

  /** What the callbacks have seen, and what the structure block holds afterwards. */
  datatype Scan = Scan(trace: seq<Event>, items: seq<Item>)

  /** The close callback, which may ask for a node to be deleted, from all it has been told. */
  type Callback = seq<Event> -> bool

  function DoneOnce(hasNode: bool, last: bool): (es: seq<Event>) {
    if hasNode && !last then [Done] else []
  }

  /**
   The scan of a node's contents.  `last` says that a child has been seen.  A node
   whose close callback asks for it is overwritten with NOPs, its subtree included.
   */
  function ScanItems(items: seq<Item>, hasNode: bool, last: bool, trace: seq<Event>, del: Callback): (r: Scan)
    decreases items
  {
    if items == [] then Scan(trace + DoneOnce(hasNode, last), [])
    else match items[0]
         case Nop =>
           var r := ScanItems(items[1..], hasNode, last, trace, del);
           r.(items := [Nop] + r.items)
         case Prop(p) =>
           var r := ScanItems(items[1..], hasNode, last, trace + [Has(p)], del);
           r.(items := [Prop(p)] + r.items)
         case Child(_) =>
           var one := ScanChild(items[0], trace + DoneOnce(hasNode, last), del);
           var r := ScanItems(items[1..], hasNode, true, one.trace, del);
           r.(items := one.items + r.items)
  }

  /** One child: opened, scanned, closed, and kept or deleted. */
  function ScanChild(it: Item, trace: seq<Event>, del: Callback): (r: Scan)
    requires it.Child?
  {
    var c := it.node;
    var inner := ScanItems(c.items, true, false, trace + [Open(c.name)], del);
    var closed := inner.trace + [Close(c.name)];
    Scan(closed, if del(closed) then Nops(|FlatNode(c)|) else [Child(Node(c.name, inner.items))])
  }

  /** What remains to be reported of a node's contents. */
  function Remaining(items: seq<Item>, hasNode: bool, last: bool): (es: seq<Event>) {
    PropEvents(items) + DoneOnce(hasNode, last) + ChildEvents(items)
  }

  lemma RemainingNop(items: seq<Item>, hasNode: bool, last: bool)
    requires items != [] && items[0].Nop?
    ensures Remaining(items, hasNode, last) == Remaining(items[1..], hasNode, last)
  {
    assert PropEvents(items) == PropEvents(items[1..]);
    assert ChildEvents(items) == ChildEvents(items[1..]);
  }

  lemma RemainingProp(items: seq<Item>, hasNode: bool, last: bool)
    requires items != [] && items[0].Prop?
    ensures Remaining(items, hasNode, last) == [Has(items[0].prop)] + Remaining(items[1..], hasNode, last)
  {
    assert PropEvents(items) == [Has(items[0].prop)] + PropEvents(items[1..]);
    assert ChildEvents(items) == ChildEvents(items[1..]);
  }

  lemma RemainingChild(items: seq<Item>, hasNode: bool, last: bool)
    requires items != [] && items[0].Child? && ItemsOk(items, last)
    ensures Remaining(items, hasNode, last) ==
            DoneOnce(hasNode, last) + PreOrder(items[0].node) + Remaining(items[1..], hasNode, true)
  {
    NoMoreProps(items[1..]);
    ThreeParts(DoneOnce(hasNode, last), ItemEvents(items[0]), ChildEvents(items[1..]));
    ThreeParts([], [], ChildEvents(items[1..]));
  }

  lemma ThreeParts(a: seq<Event>, b: seq<Event>, c: seq<Event>)
    ensures [] + [] + a + (b + c) == a + b + c && [] + a + (b + c) == a + b + c && [] + [] + c == c && [] + c == c
    ensures a + b + ([] + [] + c) == a + b + c
  {
  }

  /** The trace of a scan, whatever it deletes, is the pre-order trace. */
  lemma {:induction false} ScanTrace(items: seq<Item>, hasNode: bool, last: bool, trace: seq<Event>, del: Callback)
    requires ItemsOk(items, last)
    ensures ScanItems(items, hasNode, last, trace, del).trace == trace + Remaining(items, hasNode, last)
    decreases items
  {
    if items != [] {
      match items[0]
      case Nop =>
        RemainingNop(items, hasNode, last);
        ScanTrace(items[1..], hasNode, last, trace, del);
      case Prop(p) =>
        RemainingProp(items, hasNode, last);
        ScanTrace(items[1..], hasNode, last, trace + [Has(p)], del);
      case Child(c) =>
        RemainingChild(items, hasNode, last);
        var t := trace + DoneOnce(hasNode, last);
        ChildTrace(items[0], t, del);
        ScanTrace(items[1..], hasNode, true, t + PreOrder(c), del);
        Regroup(trace, DoneOnce(hasNode, last), PreOrder(c), Remaining(items[1..], hasNode, true));
    }
  }

  lemma Regroup(a: seq<Event>, b: seq<Event>, c: seq<Event>, d: seq<Event>)
    ensures a + b + c + d == a + (b + c + d)
  {
  }

  lemma {:induction false} ChildTrace(it: Item, trace: seq<Event>, del: Callback)
    requires it.Child? && NodeOk(it.node)
    ensures ScanChild(it, trace, del).trace == trace + PreOrder(it.node)
    decreases it
  {
    ScanTrace(it.node.items, true, false, trace + [Open(it.node.name)], del);
  }

  lemma {:induction false} NoMoreProps(items: seq<Item>)
    requires ItemsOk(items, true)
    ensures PropEvents(items) == []
    decreases items
  {
    if items != [] {
      NoMoreProps(items[1..]);
    }
  }

  // ---------------------------------------------------------------- deletion

  /** A scan leaves a block of the same length: a deleted node becomes as many NOPs. */
  lemma {:induction false} ScanKeepsLength(items: seq<Item>, hasNode: bool, last: bool, trace: seq<Event>, del: Callback)
    ensures |FlatItems(ScanItems(items, hasNode, last, trace, del).items)| == |FlatItems(items)|
    decreases items
  {
    if items != [] {
      match items[0]
      case Nop =>
        ScanKeepsLength(items[1..], hasNode, last, trace, del);
        FlatAppend([Nop], ScanItems(items[1..], hasNode, last, trace, del).items);
        FlatOne(Nop);
      case Prop(p) =>
        ScanKeepsLength(items[1..], hasNode, last, trace + [Has(p)], del);
        FlatAppend([Prop(p)], ScanItems(items[1..], hasNode, last, trace + [Has(p)], del).items);
        FlatOne(Prop(p));
      case Child(_) =>
        var one := ScanChild(items[0], trace + DoneOnce(hasNode, last), del);
        ChildKeepsLength(items[0], trace + DoneOnce(hasNode, last), del);
        ScanKeepsLength(items[1..], hasNode, true, one.trace, del);
        FlatAppend(one.items, ScanItems(items[1..], hasNode, true, one.trace, del).items);
    }
  }

  lemma FlatOne(it: Item)
    ensures FlatItems([it]) == FlatItem(it)
  {
    assert [it][1..] == [];
  }

  lemma {:induction false} ChildKeepsLength(it: Item, trace: seq<Event>, del: Callback)
    requires it.Child?
    ensures |FlatItems(ScanChild(it, trace, del).items)| == |FlatItem(it)|
    decreases it
  {
    var c := it.node;
    ScanKeepsLength(c.items, true, false, trace + [Open(c.name)], del);
    FlatNops(|FlatNode(c)|);
    FlatOne(Child(Node(c.name, ScanItems(c.items, true, false, trace + [Open(c.name)], del).items)));
  }

  /** Children deleted by the scan are dropped from the tree; the others are kept, pruned themselves. */
  function Survivors(items: seq<Item>, hasNode: bool, last: bool, trace: seq<Event>, del: Callback): (cs: seq<Node>)
  {
    if items == [] then []
    else match items[0]
         case Nop => Survivors(items[1..], hasNode, last, trace, del)
         case Prop(p) => Survivors(items[1..], hasNode, last, trace + [Has(p)], del)
         case Child(c) =>
           var t := trace + DoneOnce(hasNode, last);
           var inner := ScanItems(c.items, true, false, t + [Open(c.name)], del);
           var closed := inner.trace + [Close(c.name)];
           (if del(closed) then [] else [Node(c.name, inner.items)]) + Survivors(items[1..], hasNode, true, closed, del)
  }

  function Children(items: seq<Item>): (cs: seq<Node>) {
    if items == [] then []
    else (if items[0].Child? then [items[0].node] else []) + Children(items[1..])
  }

  lemma {:induction false} PropsAppend(a: seq<Item>, b: seq<Item>)
    ensures PropEvents(a + b) == PropEvents(a) + PropEvents(b)
    decreases |a|
  {
    if a == [] {
      assert a + b == b;
    } else {
      assert (a + b)[1..] == a[1..] + b;
      PropsAppend(a[1..], b);
      Reassociate(if a[0].Prop? then [Has(a[0].prop)] else [], PropEvents(a[1..]), PropEvents(b));
    }
  }

  lemma {:induction false} ChildrenAppend(a: seq<Item>, b: seq<Item>)
    ensures Children(a + b) == Children(a) + Children(b)
    decreases |a|
  {
    if a == [] {
      assert a + b == b;
    } else {
      assert (a + b)[1..] == a[1..] + b;
      ChildrenAppend(a[1..], b);
      Reassociate(if a[0].Child? then [a[0].node] else [], Children(a[1..]), Children(b));
    }
  }

  lemma ContentsAppend(a: seq<Item>, b: seq<Item>)
    ensures PropEvents(a + b) == PropEvents(a) + PropEvents(b)
    ensures Children(a + b) == Children(a) + Children(b)
  {
    PropsAppend(a, b);
    ChildrenAppend(a, b);
  }

  /** The traces of nodes, one after the other. */
  function Traces(cs: seq<Node>): (es: seq<Event>) {
    if cs == [] then [] else PreOrder(cs[0]) + Traces(cs[1..])
  }

  lemma {:induction false} EventsOfChildren(items: seq<Item>)
    ensures ChildEvents(items) == Traces(Children(items))
    decreases items
  {
    if items != [] {
      EventsOfChildren(items[1..]);
      if items[0].Child? {
        TracesCons(items[0].node, Children(items[1..]));
      } else {
        assert Children(items) == Children(items[1..]);
        assert ChildEvents(items) == [] + ChildEvents(items[1..]);
      }
    }
  }

  lemma TracesCons(n: Node, cs: seq<Node>)
    ensures Traces([n] + cs) == PreOrder(n) + Traces(cs)
  {
    assert ([n] + cs)[1..] == cs;
  }

  lemma {:induction false} NopsAreEmpty(n: nat)
    ensures PropEvents(Nops(n)) == [] && Children(Nops(n)) == []
    ensures forall last :: ItemsOk(Nops(n), last)
    decreases n
  {
    if n > 0 {
      assert Nops(n)[1..] == Nops(n - 1);
      NopsAreEmpty(n - 1);
    }
  }

  lemma OneItem(it: Item)
    ensures PropEvents([it]) == if it.Prop? then [Has(it.prop)] else []
    ensures Children([it]) == if it.Child? then [it.node] else []
  {
    assert [it][1..] == [];
  }

  /** After a scan the tree holds every property and exactly the surviving children. */
  lemma {:induction false} ScanPrunes(items: seq<Item>, hasNode: bool, last: bool, trace: seq<Event>, del: Callback)
    requires ItemsOk(items, last)
    ensures PropEvents(ScanItems(items, hasNode, last, trace, del).items) == PropEvents(items)
    ensures Children(ScanItems(items, hasNode, last, trace, del).items) == Survivors(items, hasNode, last, trace, del)
    decreases |items|
  {
    if items != [] {
      match items[0]
      case Nop =>
        ScanPrunes(items[1..], hasNode, last, trace, del);
        ContentsAppend([Nop], ScanItems(items[1..], hasNode, last, trace, del).items);
        OneItem(Nop);
      case Prop(p) =>
        ScanPrunes(items[1..], hasNode, last, trace + [Has(p)], del);
        ContentsAppend([Prop(p)], ScanItems(items[1..], hasNode, last, trace + [Has(p)], del).items);
        OneItem(Prop(p));
      case Child(c) =>
        var one := ScanChild(items[0], trace + DoneOnce(hasNode, last), del);
        ScanPrunes(items[1..], hasNode, true, one.trace, del);
        ContentsAppend(one.items, ScanItems(items[1..], hasNode, true, one.trace, del).items);
        NopsAreEmpty(|FlatNode(c)|);
        OneItem(Child(Node(c.name, ScanItems(c.items, true, false, trace + DoneOnce(hasNode, last) + [Open(c.name)], del).items)));
    }
  }

  /** What a scan leaves is well formed again ... */
  lemma {:induction false} ScanKeepsOk(items: seq<Item>, hasNode: bool, last: bool, trace: seq<Event>, del: Callback)
    requires ItemsOk(items, last)
    ensures ItemsOk(ScanItems(items, hasNode, last, trace, del).items, last)
    decreases items
  {
    if items != [] {
      match items[0]
      case Nop =>
        ScanKeepsOk(items[1..], hasNode, last, trace, del);
        OkAppend([Nop], ScanItems(items[1..], hasNode, last, trace, del).items, last);
      case Prop(p) =>
        ScanKeepsOk(items[1..], hasNode, last, trace + [Has(p)], del);
        OkAppend([Prop(p)], ScanItems(items[1..], hasNode, last, trace + [Has(p)], del).items, last);
      case Child(_) =>
        var one := ScanChild(items[0], trace + DoneOnce(hasNode, last), del);
        ChildKeepsOk(items[0], trace + DoneOnce(hasNode, last), del, last);
        ScanKeepsOk(items[1..], hasNode, true, one.trace, del);
        OkWeaken(ScanItems(items[1..], hasNode, true, one.trace, del).items);
        OkAppend(one.items, ScanItems(items[1..], hasNode, true, one.trace, del).items, last);
    }
  }

  lemma {:induction false} ChildKeepsOk(it: Item, trace: seq<Event>, del: Callback, last: bool)
    requires it.Child? && ItemOk(it)
    ensures ItemsOk(ScanChild(it, trace, del).items, last)
    decreases it
  {
    var c := it.node;
    ScanKeepsOk(c.items, true, false, trace + [Open(c.name)], del);
    NopsAreEmpty(|FlatNode(c)|);
    var kept := Child(Node(c.name, ScanItems(c.items, true, false, trace + [Open(c.name)], del).items));
    assert [kept][1..] == [];
  }

  lemma {:induction false} OkWeaken(items: seq<Item>)
    requires ItemsOk(items, true)
    ensures ItemsOk(items, false)
    decreases |items|
  {
    if items != [] && !items[0].Child? {
      OkWeaken(items[1..]);
    }
  }

  lemma {:induction false} OkAppend(a: seq<Item>, b: seq<Item>, last: bool)
    requires ItemsOk(a, last)
    requires (ItemsOk(b, true) && ItemsOk(b, false)) || (ItemsOk(b, last) && Children(a) == [])
    ensures ItemsOk(a + b, last)
    decreases |a|
  {
    if a == [] {
      assert a + b == b;
    } else {
      assert (a + b)[1..] == a[1..] + b;
      OkAppend(a[1..], b, last || a[0].Child?);
    }
  }

  /**
   ... so scanning it again, deleting nothing, reports the node with its properties and
   the surviving children only.
   */
  lemma RescanReportsSurvivors(items: seq<Item>, hasNode: bool, trace: seq<Event>, del: Callback, again: Callback)
    requires ItemsOk(items, false)
    ensures ScanItems(ScanItems(items, hasNode, false, trace, del).items, hasNode, false, [], again).trace ==
            PropEvents(items) + DoneOnce(hasNode, false) + Traces(Survivors(items, hasNode, false, trace, del))
  {
    var left := ScanItems(items, hasNode, false, trace, del).items;
    EventsOfChildren(left);
    ScanKeepsOk(items, hasNode, false, trace, del);
    ScanPrunes(items, hasNode, false, trace, del);
    ScanTrace(left, hasNode, false, [], again);
  }

  // ---------------------------------------------------------------- the scanner on memory

  /** Words lo..lo+|ws| of memory are ws. */
  ghost predicate Holds(mem: seq<Word>, lo: nat, ws: seq<Word>) {
    lo + |ws| <= |mem| && mem[lo..lo + |ws|] == ws
  }

  /** A token that ends the scan of a node's contents. */
  predicate Ends(w: Word) {
    var v := Value(w);
    v != 1 && v != 3 && v != 4
  }

  lemma HoldsParts(mem: seq<Word>, lo: nat, a: seq<Word>, b: seq<Word>)
    ensures Holds(mem, lo, a + b) <==> Holds(mem, lo, a) && Holds(mem, lo + |a|, b)
  {
    if Holds(mem, lo, a + b) {
      assert mem[lo..lo + |a|] == (a + b)[..|a|];
      assert mem[lo + |a|..lo + |a| + |b|] == (a + b)[|a|..];
    }
    if Holds(mem, lo, a) && Holds(mem, lo + |a|, b) {
      assert mem[lo..lo + |a + b|] == mem[lo..lo + |a|] + mem[lo + |a|..lo + |a| + |b|];
    }
  }

  lemma HoldsAt(mem: seq<Word>, lo: nat, ws: seq<Word>, i: nat)
    requires Holds(mem, lo, ws) && i < |ws|
    ensures lo + i < |mem| && mem[lo + i] == ws[i]
  {
    assert mem[lo..lo + |ws|][i] == ws[i];
  }

  /** What holds stays held where memory did not change. */
  lemma HoldsFrame(mem: seq<Word>, mem': seq<Word>, lo: nat, ws: seq<Word>)
    requires Holds(mem, lo, ws) && |mem'| == |mem|
    requires forall k | lo <= k < lo + |ws| :: mem'[k] == mem[k]
    ensures Holds(mem', lo, ws)
  {
  }

  /** The two memories agree outside [lo, hi). */
  ghost predicate SameOutside(mem: seq<Word>, mem': seq<Word>, lo: nat, hi: nat) {
    |mem'| == |mem| && forall k | 0 <= k < |mem| && !(lo <= k < hi) :: mem'[k] == mem[k]
  }

  ghost predicate NodeParts(mem: seq<Word>, pos: nat, name: seq<Word>, body: seq<Word>) {
    && Holds(mem, pos, [BEGIN_NODE]) && Holds(mem, pos + 1, name)
    && Holds(mem, pos + 1 + |name|, body) && Holds(mem, pos + 1 + |name| + |body|, [END_NODE])
  }

  lemma PartsRewritten(mem: seq<Word>, mem': seq<Word>, pos: nat, name: seq<Word>, body: seq<Word>, body': seq<Word>)
    requires NodeParts(mem, pos, name, body) && |body'| == |body|
    requires SameOutside(mem, mem', pos + 1 + |name|, pos + 1 + |name| + |body|)
    requires Holds(mem', pos + 1 + |name|, body')
    ensures NodeParts(mem', pos, name, body')
  {
    HoldsFrame(mem, mem', pos, [BEGIN_NODE]);
    HoldsFrame(mem, mem', pos + 1, name);
    HoldsFrame(mem, mem', pos + 1 + |name| + |body|, [END_NODE]);
  }

  /** A node in memory: its token, its name, its contents and its end token in their places. */
  lemma NodeInMemory(mem: seq<Word>, pos: nat, c: Node)
    ensures |FlatNode(c)| == 2 + |c.name| + |FlatItems(c.items)|
    ensures Holds(mem, pos, FlatNode(c)) <==>
            NodeParts(mem, pos, c.name, FlatItems(c.items))
  {
    HoldsParts(mem, pos, [BEGIN_NODE] + c.name + FlatItems(c.items), [END_NODE]);
    HoldsParts(mem, pos, [BEGIN_NODE] + c.name, FlatItems(c.items));
    HoldsParts(mem, pos, [BEGIN_NODE], c.name);
  }

  /** A property in memory. */
  lemma PropInMemory(mem: seq<Word>, pos: nat, p: Property)
    requires Holds(mem, pos, FlatItem(Prop(p))) && PropOk(p)
    ensures |FlatItem(Prop(p))| == 3 + (Value(p.len) + 3) / 4 && pos + |FlatItem(Prop(p))| <= |mem|
    ensures mem[pos] == PROP && mem[pos + 1] == p.len && mem[pos + 2] == p.nameOff
    ensures mem[pos + 3..pos + 3 + |p.value|] == p.value
  {
    var ws := FlatItem(Prop(p));
    HoldsAt(mem, pos, ws, 0);
    HoldsAt(mem, pos, ws, 1);
    HoldsAt(mem, pos, ws, 2);
    HoldsParts(mem, pos, [PROP, p.len, p.nameOff], p.value);
  }

  /** A node whose contents alone were rewritten is in memory with the new contents. */
  lemma ChildRewritten(mem: seq<Word>, mem': seq<Word>, pos: nat, c: Node, items: seq<Item>)
    requires Holds(mem, pos, FlatNode(c)) && |FlatItems(items)| == |FlatItems(c.items)|
    requires SameOutside(mem, mem', pos + 1 + |c.name|, pos + 1 + |c.name| + |FlatItems(c.items)|)
    requires Holds(mem', pos + 1 + |c.name|, FlatItems(items))
    ensures Holds(mem', pos, FlatItems([Child(Node(c.name, items))]))
  {
    NodeInMemory(mem, pos, c);
    PartsRewritten(mem, mem', pos, c.name, FlatItems(c.items), FlatItems(items));
    NodeInMemory(mem', pos, Node(c.name, items));
    FlatOne(Child(Node(c.name, items)));
  }

  // ---------------------------------------------------------------- progress of the loop

  function Join(out: seq<Item>, r: Scan): (s: Scan) {
    r.(items := out + r.items)
  }

  lemma JoinTwice(a: seq<Item>, b: seq<Item>, r: Scan)
    ensures Join(a, Join(b, r)) == Join(a + b, r)
  {
    assert a + (b + r.items) == a + b + r.items;
  }

  /** What one turn of the loop reports and leaves of an item. */
  function OneScan(it: Item, hasNode: bool, last: bool, trace: seq<Event>, del: Callback): (r: Scan) {
    if it.Child? then ScanChild(it, trace + DoneOnce(hasNode, last), del)
    else Scan(if it.Prop? then trace + [Has(it.prop)] else trace, [it])
  }

  /** One turn of the loop moves the next item's image from what is left to what is done. */
  lemma ScanOne(items: seq<Item>, hasNode: bool, last: bool, trace: seq<Event>, del: Callback, out: seq<Item>)
    requires items != []
    ensures var it := items[0];
            var one := OneScan(it, hasNode, last, trace, del);
            Join(out, ScanItems(items, hasNode, last, trace, del)) ==
            Join(out + one.items, ScanItems(items[1..], hasNode, last || it.Child?, one.trace, del))
  {
    var it := items[0];
    var one := OneScan(it, hasNode, last, trace, del);
    var r := ScanItems(items[1..], hasNode, last || it.Child?, one.trace, del);
    assert ScanItems(items, hasNode, last, trace, del) == Join(one.items, r);
    JoinTwice(out, one.items, r);
  }

  /**
   The state of the loop at pos: `out` lies rewritten behind it, `rest` lies untouched
   ahead of it, up to the end token.
   */
  ghost predicate Midway(mem0: seq<Word>, mem: seq<Word>, lex: nat, pos: nat, end: nat, out: seq<Item>, rest: seq<Item>) {
    && lex <= pos <= end < |mem| && SameOutside(mem0, mem, lex, pos)
    && Holds(mem, lex, FlatItems(out)) && lex + |FlatItems(out)| == pos
    && Holds(mem, pos, FlatItems(rest)) && pos + |FlatItems(rest)| == end
  }

  /** The next item's words rewritten to those of `one` keeps the loop state. */
  lemma MidwayStep(mem0: seq<Word>, mem: seq<Word>, mem': seq<Word>, lex: nat, pos: nat, end: nat,
                   out: seq<Item>, rest: seq<Item>, one: seq<Item>)
    requires rest != [] && Midway(mem0, mem, lex, pos, end, out, rest)
    requires |FlatItems(one)| == |FlatItem(rest[0])| && Holds(mem', pos, FlatItems(one))
    requires SameOutside(mem, mem', pos, pos + |FlatItem(rest[0])|)
    ensures Midway(mem0, mem', lex, pos + |FlatItem(rest[0])|, end, out + one, rest[1..])
  {
    var next := pos + |FlatItem(rest[0])|;
    assert FlatItems(rest) == FlatItem(rest[0]) + FlatItems(rest[1..]);
    HoldsParts(mem, pos, FlatItem(rest[0]), FlatItems(rest[1..]));
    HoldsFrame(mem, mem', lex, FlatItems(out));
    HoldsFrame(mem, mem', next, FlatItems(rest[1..]));
    FlatAppend(out, one);
    HoldsParts(mem', lex, FlatItems(out), FlatItems(one));
    SameFurther(mem0, mem, mem', lex, pos, next);
  }

  lemma SameFurther(mem0: seq<Word>, mem: seq<Word>, mem': seq<Word>, lex: nat, pos: nat, next: nat)
    requires SameOutside(mem0, mem, lex, pos) && SameOutside(mem, mem', pos, next) && lex <= pos <= next
    ensures SameOutside(mem0, mem', lex, next)
  {
  }

  /** The word at pos is the first word of the next item, or the end token. */
  lemma MidwayToken(mem0: seq<Word>, mem: seq<Word>, lex: nat, pos: nat, end: nat, out: seq<Item>, rest: seq<Item>)
    requires Midway(mem0, mem, lex, pos, end, out, rest) && Ends(mem[end])
    ensures rest == [] <==> Ends(mem[pos])
    ensures rest != [] ==> Holds(mem, pos, FlatItem(rest[0]))
    ensures rest != [] ==> Value(mem[pos]) == if rest[0].Nop? then 4 else if rest[0].Prop? then 3 else 1
    ensures rest == [] ==> pos == end
  {
    if rest != [] {
      HoldsParts(mem, pos, FlatItem(rest[0]), FlatItems(rest[1..]));
      HoldsAt(mem, pos, FlatItem(rest[0]), 0);
      FirstWord(rest[0]);
    }
  }

  lemma FirstWord(it: Item)
    ensures Value(FlatItem(it)[0]) == if it.Nop? then 4 else if it.Prop? then 3 else 1
  {
    if it.Child? {
      var c := it.node;
      assert FlatNode(c) == [BEGIN_NODE] + (c.name + FlatItems(c.items) + [END_NODE]);
    }
  }

  /** The loop of the scan between two turns: memory, reports, position, and the items behind and ahead. */
  datatype Loop = Loop(mem: seq<Word>, trace: seq<Event>, pos: nat, last: bool, out: seq<Item>, rest: seq<Item>)

  /** The states from which the loop still arrives at the scan `goal`. */
  ghost function LoopStates(m0: seq<Word>, lex: nat, end: nat, hasNode: bool, goal: Scan, del: Callback): iset<Loop> {
    iset s: Loop | && Midway(m0, s.mem, lex, s.pos, end, s.out, s.rest) && ItemsOk(s.rest, s.last)
                   && Ends(s.mem[end]) && (s.rest == [] <==> Ends(s.mem[s.pos]))
                   && goal == Join(s.out, ScanItems(s.rest, hasNode, s.last, s.trace, del))
  }

  const FDT_MAGIC: nat := 0xd00d_feed
  const FDT_VERSION: nat := 17

  /** struct fdt_header, field by field. */
  datatype Header = Header(
    magic: Word, totalSize: Word, offStruct: Word, offStrings: Word, offReserve: Word,
    version: Word, lastCompVersion: Word, bootCpu: Word, sizeStrings: Word, sizeStruct: Word)

  function FlatHeader(h: Header): (ws: seq<Word>) {
    [h.magic, h.totalSize, h.offStruct, h.offStrings, h.offReserve,
     h.version, h.lastCompVersion, h.bootCpu, h.sizeStrings, h.sizeStruct]
  }

  /** The magic number d0 0d fe ed, and a version that version 17 can read. */
  predicate Understood(h: Header) {
    h.magic == Word(0xd0, 0x0d, 0xfe, 0xed) && Value(h.lastCompVersion) <= 17
  }

  /** Where the header at word fdt says the structure block is; its byte offset is a multiple of four. */
  function StructBlock(h: Header, fdt: nat): (lex: nat) {
    fdt + Value(h.offStruct) / 4
  }

  /** Well-formed contents lie at lex, followed by an end token. */
  ghost predicate BlockAt(mem: seq<Word>, lex: nat, items: seq<Item>) {
    && Holds(mem, lex, FlatItems(items)) && ItemsOk(items, false)
    && lex + |FlatItems(items)| < |mem| && Ends(mem[lex + |FlatItems(items)|])
  }

  class Scanner {
    const mem: array<Word>
    const del: Callback
    var trace: seq<Event>

    constructor (block: array<Word>, close: Callback)
      ensures mem == block && del == close && trace == []
    {
      mem, del, trace := block, close, [];
    }

    /** strlen of the name at word pos: the bytes before the first NUL. */
    method NameLength(pos: nat, ghost name: seq<Word>) returns (n: nat)
      requires Holds(mem[..], pos, name) && NameOk(name)
      ensures n / 4 == |name| - 1
      ensures ByteAt(name, n) == 0 && forall i | 0 <= i < n :: ByteAt(name, i) != 0
    {
      var k := 0;
      HoldsAt(mem[..], pos, name, 0);
      while !HasNul(mem[pos + k])
        invariant 0 <= k < |name| && pos + k < mem.Length && mem[pos + k] == name[k]
        decreases |name| - k
      {
        HoldsAt(mem[..], pos, name, k + 1);
        k := k + 1;
      }
      var w := mem[pos + k];
      n := 4 * k + if w.b0 == 0 then 0 else if w.b1 == 0 then 1 else if w.b2 == 0 then 2 else 3;
    }

    /** The deletion loop: every word of the node becomes a NOP. */
    method Wipe(start: nat, end: nat)
      requires start <= end <= mem.Length
      modifies mem
      ensures SameOutside(old(mem[..]), mem[..], start, end) && Holds(mem[..], start, FlatItems(Nops(end - start)))
    {
      var lex := start;
      while lex != end
        invariant start <= lex <= end && SameOutside(old(mem[..]), mem[..], start, end)
        invariant forall k | start <= k < lex :: mem[k] == NOP
        decreases end - lex
      {
        mem[lex] := NOP;
        lex := lex + 1;
      }
      FlatNops(end - start);
    }

    /** The FDT_BEGIN_NODE case: a child is opened, scanned, closed and perhaps deleted. */
    method ChildCase(pos: nat, ghost it: Item) returns (next: nat)
      requires it.Child? && ItemOk(it) && Holds(mem[..], pos, FlatItem(it))
      modifies this`trace, mem
      ensures next == pos + |FlatItem(it)| && SameOutside(old(mem[..]), mem[..], pos, next)
      ensures trace == ScanChild(it, old(trace), del).trace
      ensures Holds(mem[..], pos, FlatItems(ScanChild(it, old(trace), del).items))
      decreases it, 1
    {
      var name;
      name, next := OpenChild(pos, it);
      trace := trace + [Close(name)];
      if del(trace) {
        Wipe(pos, next);
      }
    }

    /** The child opened and its contents scanned. */
    method OpenChild(pos: nat, ghost it: Item) returns (name: seq<Word>, next: nat)
      requires it.Child? && ItemOk(it) && Holds(mem[..], pos, FlatItem(it))
      modifies this`trace, mem
      ensures name == it.node.name && next == pos + |FlatItem(it)| <= mem.Length
      ensures SameOutside(old(mem[..]), mem[..], pos, next)
      ensures var inner := ScanItems(it.node.items, true, false, old(trace) + [Open(name)], del);
              trace == inner.trace && Holds(mem[..], pos, FlatItems([Child(Node(name, inner.items))]))
      decreases it, 0
    {
      ghost var c, m0 := it.node, mem[..];
      assert FlatItem(it) == FlatNode(c);
      var body;
      name, body := OpenName(pos, c);
      ScanKeepsLength(c.items, true, false, trace, del);
      ghost var inner := ScanItems(c.items, true, false, trace, del);
      next := Helper(body, true, c.items);
      ChildRewritten(m0, mem[..], pos, c, inner.items);
    }

    /** cb->open with the name, which the contents follow up to the node's end token. */
    method OpenName(pos: nat, ghost c: Node) returns (name: seq<Word>, body: nat)
      requires NameOk(c.name) && Holds(mem[..], pos, FlatNode(c))
      modifies this`trace
      ensures name == c.name && body == pos + 1 + |name| && trace == old(trace) + [Open(name)]
      ensures Holds(mem[..], body, FlatItems(c.items)) && |FlatNode(c)| == 2 + |name| + |FlatItems(c.items)|
      ensures body + |FlatItems(c.items)| + 1 == pos + |FlatNode(c)| <= mem.Length
      ensures mem[body + |FlatItems(c.items)|] == END_NODE
    {
      NodeInMemory(mem[..], pos, c);
      var n := NameLength(pos + 1, c.name);
      body := pos + 2 + n / 4;
      name := mem[pos + 1..body];
      trace := trace + [Open(name)];
      HoldsAt(mem[..], body + |FlatItems(c.items)|, [END_NODE], 0);
    }

    /** The FDT_PROP case: the property reported and its words passed over. */
    method PropCase(pos: nat, ghost p: Property) returns (next: nat)
      requires PropOk(p) && Holds(mem[..], pos, FlatItem(Prop(p)))
      modifies this`trace
      ensures next == pos + |FlatItem(Prop(p))| && trace == old(trace) + [Has(p)]
    {
      PropInMemory(mem[..], pos, p);
      var len := Value(mem[pos + 1]);
      PropWordsIff(len);
      next := pos + PropWords(len);
      var prop := Property(mem[pos + 1], mem[pos + 2], mem[pos + 3..next]);
      trace := trace + [Has(prop)];
    }

    /** cb->done, for a node, before its first child or at its end. */
    method ReportDone(hasNode: bool, last: bool)
      modifies this`trace
      ensures trace == old(trace) + DoneOnce(hasNode, last)
    {
      if !last && hasNode {
        trace := trace + [Done];
      }
    }

    /** One turn of the scan loop, on the item at pos. */
    method Turn(pos: nat, token: nat, hasNode: bool, last: bool, ghost it: Item) returns (next: nat)
      requires ItemOk(it) && Holds(mem[..], pos, FlatItem(it))
      requires token == if it.Nop? then 4 else if it.Prop? then 3 else 1
      modifies this`trace, mem
      ensures next == pos + |FlatItem(it)| && SameOutside(old(mem[..]), mem[..], pos, next)
      ensures trace == OneScan(it, hasNode, last, old(trace), del).trace
      ensures Holds(mem[..], pos, FlatItems(OneScan(it, hasNode, last, old(trace), del).items))
      ensures |FlatItems(OneScan(it, hasNode, last, old(trace), del).items)| == |FlatItem(it)|
      decreases it, 2
    {
      FlatOne(it);
      if token == 4 {
        next := pos + 1;
      } else if token == 3 {
        next := PropCase(pos, it.prop);
      } else {
        ChildKeepsLength(it, trace + DoneOnce(hasNode, last), del);
        ReportDone(hasNode, last);
        next := ChildCase(pos, it);
      }
    }

    /** A turn of the loop, seen from the whole scan. */
    method Advance(pos: nat, token: nat, hasNode: bool, last: bool,
                   ghost m0: seq<Word>, ghost lex: nat, ghost end: nat, ghost out: seq<Item>, ghost rest: seq<Item>, ghost goal: Scan)
      returns (next: nat, ghost out': seq<Item>)
      requires rest != [] && Midway(m0, mem[..], lex, pos, end, out, rest) && ItemsOk(rest, last)
      requires Ends(mem[end]) && token == Value(mem[pos])
      requires goal == Join(out, ScanItems(rest, hasNode, last, trace, del))
      modifies this`trace, mem
      ensures Midway(m0, mem[..], lex, next, end, out', rest[1..]) && ItemsOk(rest[1..], last || token == 1)
      ensures goal == Join(out', ScanItems(rest[1..], hasNode, last || token == 1, trace, del))
      ensures rest[1..] == [] <==> Ends(mem[next])
      decreases rest[0], 3
    {
      MidwayToken(m0, mem[..], lex, pos, end, out, rest);
      ghost var m1, one := mem[..], OneScan(rest[0], hasNode, last, trace, del);
      ScanOne(rest, hasNode, last, trace, del, out);
      next := Turn(pos, token, hasNode, last, rest[0]);
      MidwayStep(m0, m1, mem[..], lex, pos, end, out, rest, one.items);
      out' := out + one.items;
      MidwayToken(m0, mem[..], lex, next, end, out', rest[1..]);
    }

    /**
     fdt_scan_helper on contents that lie flattened at lex: it returns the word after
     the end token, or the end token itself if that is not an end-node token.
     */
    method Helper(lex: nat, hasNode: bool, ghost items: seq<Item>) returns (next: nat)
      requires Holds(mem[..], lex, FlatItems(items)) && ItemsOk(items, false)
      requires lex + |FlatItems(items)| < mem.Length && Ends(mem[lex + |FlatItems(items)|])
      modifies this`trace, mem
      ensures var end := lex + |FlatItems(items)|;
              && next == (if Value(old(mem[end])) == 2 then end + 1 else end)
              && SameOutside(old(mem[..]), mem[..], lex, end)
              && trace == ScanItems(items, hasNode, false, old(trace), del).trace
              && Holds(mem[..], lex, FlatItems(ScanItems(items, hasNode, false, old(trace), del).items))
      decreases items, 6
    {
      ghost var m0, goal := mem[..], ScanItems(items, hasNode, false, trace, del);
      ghost var end := lex + |FlatItems(items)|;
      var last;
      ghost var out;
      next, last, out := ToEnd(lex, hasNode, items, goal);
      var token := Value(mem[next]);
      ReportDone(hasNode, last);
      assert goal == Scan(trace, out) by {
        assert out + [] == out;
      }
      if token == 2 {
        next := next + 1;
      }
    }

    /** The loop of fdt_scan_helper, up to the end token. */
    method ToEnd(lex: nat, hasNode: bool, ghost items: seq<Item>, ghost goal: Scan) returns (pos: nat, last: bool, ghost out: seq<Item>)
      requires Midway(mem[..], mem[..], lex, lex, lex + |FlatItems(items)|, [], items) && ItemsOk(items, false)
      requires Ends(mem[lex + |FlatItems(items)|]) && goal == ScanItems(items, hasNode, false, trace, del)
      modifies this`trace, mem
      ensures Midway(old(mem[..]), mem[..], lex, pos, lex + |FlatItems(items)|, out, [])
      ensures goal == Join(out, ScanItems([], hasNode, last, trace, del))
      decreases items, 5
    {
      ghost var m0, end := mem[..], lex + |FlatItems(items)|;
      ghost var i := 0;
      pos, last, out := lex, false, [];
      assert Join([], goal) == goal && items[0..] == items;
      MidwayToken(m0, mem[..], lex, pos, end, out, items);
      while !Ends(mem[pos])
        invariant 0 <= i <= |items| && pos < mem.Length
        invariant Loop(mem[..], trace, pos, last, out, items[i..]) in LoopStates(m0, lex, end, hasNode, goal, del)
        decreases |items| - i
      {
        pos, last, out := Step(pos, hasNode, last, m0, lex, end, out, items, i, goal);
        i := i + 1;
      }
    }

    /** A turn of the loop on item i, in terms of the loop's states. */
    method Step(pos: nat, hasNode: bool, last: bool, ghost m0: seq<Word>, ghost lex: nat, ghost end: nat,
                ghost out: seq<Item>, ghost items: seq<Item>, ghost i: nat, ghost goal: Scan)
      returns (next: nat, last': bool, ghost out': seq<Item>)
      requires i <= |items| && pos < mem.Length && !Ends(mem[pos])
      requires Loop(mem[..], trace, pos, last, out, items[i..]) in LoopStates(m0, lex, end, hasNode, goal, del)
      modifies this`trace, mem
      ensures i < |items| && next < mem.Length
      ensures Loop(mem[..], trace, next, last', out', items[i + 1..]) in LoopStates(m0, lex, end, hasNode, goal, del)
      decreases items, 4
    {
      assert items[i..] != [] && items[i..][1..] == items[i + 1..];
      var token := Value(mem[pos]);
      next, out' := Advance(pos, token, hasNode, last, m0, lex, end, out, items[i..], goal);
      last' := last || token == 1;
    }

    /**
     fdt_scan of a tree whose header is at word fdt.  A header it does not understand leaves memory
     alone and reports nothing; otherwise the structure block is reported in pre-order up to its end.
     */
    method FdtScan(fdt: nat, ghost h: Header, ghost items: seq<Item>)
      requires Holds(mem[..], fdt, FlatHeader(h))
      requires Understood(h) ==> BlockAt(mem[..], StructBlock(h, fdt), items)
      modifies this`trace, mem
      ensures !Understood(h) ==> trace == old(trace) && mem[..] == old(mem[..])
      ensures Understood(h) ==>
                var lex := StructBlock(h, fdt);
                && trace == old(trace) + PropEvents(items) + ChildEvents(items)
                && Holds(mem[..], lex, FlatItems(ScanItems(items, false, false, old(trace), del).items))
                && SameOutside(old(mem[..]), mem[..], lex, lex + |FlatItems(items)|)
    {
      var understood, lex := ReadHeader(fdt, h);
      if understood {
        ScanBlock(lex, items);
      }
    }

    /** The header's magic number, version and offset, each swapped from big-endian. */
    method ReadHeader(fdt: nat, ghost h: Header) returns (understood: bool, lex: nat)
      requires Holds(mem[..], fdt, FlatHeader(h))
      ensures understood == Understood(h) && lex == StructBlock(h, fdt)
    {
      HoldsAt(mem[..], fdt, FlatHeader(h), 0);
      HoldsAt(mem[..], fdt, FlatHeader(h), 2);
      HoldsAt(mem[..], fdt, FlatHeader(h), 6);
      KnownWords(h.magic);
      understood := Value(mem[fdt]) == FDT_MAGIC && Value(mem[fdt + 6]) <= FDT_VERSION;
      lex := fdt + Value(mem[fdt + 2]) / 4;
    }

    /** fdt_scan past its header. */
    method ScanBlock(lex: nat, ghost items: seq<Item>)
      requires BlockAt(mem[..], lex, items)
      modifies this`trace, mem
      ensures trace == old(trace) + PropEvents(items) + ChildEvents(items)
      ensures Holds(mem[..], lex, FlatItems(ScanItems(items, false, false, old(trace), del).items))
      ensures SameOutside(old(mem[..]), mem[..], lex, lex + |FlatItems(items)|)
    {
      ScanTrace(items, false, false, trace, del);
      ghost var t := trace;
      var _ := Helper(lex, false, items);
      assert trace == t + (PropEvents(items) + [] + ChildEvents(items));
    }

    /** fdt_get_address and fdt_get_size: cells read big-endian, 32 bits each, into 64 bits. */
    method GetCells(cells: int, value: nat) returns (result: nat, next: nat)
      requires value + (if cells > 0 then cells else 0) <= mem.Length
      ensures next == value + if cells > 0 then cells else 0
      ensures result == CellsValue(mem[value..next]) % TWO_64
    {
      result, next := 0, value;
      var left := cells;
      while left > 0
        invariant next == value + (if cells > 0 then cells - left else 0) && (cells > 0 ==> 0 <= left)
        invariant left <= cells && result == CellsValue(mem[value..next]) % TWO_64
      {
        ghost var before := mem[value..next];
        result := (result * TWO_32 + Value(mem[next])) % TWO_64;
        ShiftWraps(CellsValue(before), Value(mem[next]));
        assert mem[value..next + 1] == before + [mem[next]];
        next, left := next + 1, left - 1;
      }
    }
  }

  function CellsValue(ws: seq<Word>): (v: nat) {
    if ws == [] then 0 else CellsValue(ws[..|ws| - 1]) * TWO_32 + Value(ws[|ws| - 1])
  }

  /** Wrapping before the shift loses nothing that wrapping after it would keep. */
  lemma ShiftWraps(x: nat, v: nat)
    ensures ((x % TWO_64) * TWO_32 + v) % TWO_64 == (x * TWO_32 + v) % TWO_64
  {
    var q := x / TWO_64;
    assert x * TWO_32 + v == (x % TWO_64) * TWO_32 + v + (q * TWO_32) * TWO_64;
  }
}
