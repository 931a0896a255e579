/** Bottom-up allocation of PCI resources over a tree of buses. */
module PciTopology {
  import opened Bytes

  type Bar = nat // an address range, opaque here

  /** A device sits on a bus; a bridge also owns the bus behind it. */
  datatype Device = Device(bus: u8, child: Option<u8>)

  /** The calls made on device `i`, in the order made. */
  datatype Event =
    | IoBars(i: nat)
    | DeviceBars(i: nat)
    | Window(i: nat)
    | Subordinate(i: nat)

  // ---------------------------------------------------------------- trees of buses

  predicate BridgeOn(d: seq<Device>, bus: u8, i: nat) {
    i < |d| && d[i].bus == bus && d[i].child.Some?
  }

  predicate LeafOn(d: seq<Device>, bus: u8, i: nat) {
    i < |d| && d[i].bus == bus && d[i].child.None?
  }

  predicate Bridge(d: seq<Device>, i: nat) {
    i < |d| && d[i].child.Some?
  }

  /** Every bus has at most one bridge above it, and going behind a bridge goes down. */
  ghost predicate Tree(d: seq<Device>, rank: u8 -> nat) {
    && (forall i: nat | Bridge(d, i) :: rank(d[i].child.value) < rank(d[i].bus))
    && (forall i: nat, j: nat | Bridge(d, i) && Bridge(d, j) && d[i].child == d[j].child :: i == j)
  }

  /** The buses reachable from `bus`, itself included. */
  ghost function Below(d: seq<Device>, rank: u8 -> nat, bus: u8): set<u8>
    requires Tree(d, rank)
    decreases rank(bus), |d| + 1
  {
    {bus} + BelowFirst(d, rank, bus, |d|)
  }

  ghost function BelowFirst(d: seq<Device>, rank: u8 -> nat, bus: u8, n: nat): set<u8>
    requires Tree(d, rank) && n <= |d|
    decreases rank(bus), n
  {
    if n == 0 then {}
    else if BridgeOn(d, bus, n - 1) then
      assert Bridge(d, n - 1);
      BelowFirst(d, rank, bus, n - 1) + Below(d, rank, d[n - 1].child.value)
    else BelowFirst(d, rank, bus, n - 1)
  }

  /** What is called, and in which order: behind each bridge first, then the bridge, then the other devices. */
  ghost function Visit(d: seq<Device>, rank: u8 -> nat, bus: u8): seq<Event>
    requires Tree(d, rank)
    decreases rank(bus), |d| + 1
  {
    Bridges(d, rank, bus, |d|) + Leaves(d, bus, |d|)
  }

  function AtLeaf(i: nat): seq<Event> {
    [IoBars(i), DeviceBars(i)]
  }

  function AtBridge(i: nat): seq<Event> {
    [Window(i), IoBars(i), DeviceBars(i), Subordinate(i)]
  }

  ghost function Bridges(d: seq<Device>, rank: u8 -> nat, bus: u8, n: nat): seq<Event>
    requires Tree(d, rank) && n <= |d|
    decreases rank(bus), n
  {
    if n == 0 then []
    else if BridgeOn(d, bus, n - 1) then
      assert Bridge(d, n - 1);
      Bridges(d, rank, bus, n - 1) + (Visit(d, rank, d[n - 1].child.value) + AtBridge(n - 1))
    else Bridges(d, rank, bus, n - 1)
  }

  function Leaves(d: seq<Device>, bus: u8, n: nat): seq<Event>
    requires n <= |d|
  {
    if n == 0 then []
    else if LeafOn(d, bus, n - 1) then Leaves(d, bus, n - 1) + AtLeaf(n - 1)
    else Leaves(d, bus, n - 1)
  }

  // ------------------------------------------------------- how buses hang together

  lemma {:induction false} BelowRanks(d: seq<Device>, rank: u8 -> nat, bus: u8, n: nat, x: u8)
    requires Tree(d, rank) && n <= |d| && x in BelowFirst(d, rank, bus, n)
    ensures rank(x) < rank(bus)
    decreases rank(bus), n
  {
    if x !in BelowFirst(d, rank, bus, n - 1) {
      assert Bridge(d, n - 1);
      var c := d[n - 1].child.value;
      if x != c { BelowRanks(d, rank, c, |d|, x); }
    } else {
      BelowRanks(d, rank, bus, n - 1, x);
    }
  }

  lemma {:induction false} ChildBelow(d: seq<Device>, rank: u8 -> nat, bus: u8, n: nat, i: nat)
    requires Tree(d, rank) && n <= |d| && i < n && BridgeOn(d, bus, i)
    ensures Bridge(d, i) && Below(d, rank, d[i].child.value) <= BelowFirst(d, rank, bus, n)
    decreases n
  {
    if i < n - 1 { ChildBelow(d, rank, bus, n - 1, i); }
  }

  /** A bus strictly below has its bridge on some bus below. */
  lemma {:induction false} BridgeAbove(d: seq<Device>, rank: u8 -> nat, bus: u8, n: nat, x: u8) returns (i: nat)
    requires Tree(d, rank) && n <= |d| && x in BelowFirst(d, rank, bus, n)
    ensures Bridge(d, i) && d[i].child == Some(x) && d[i].bus in Below(d, rank, bus)
    decreases rank(bus), n
  {
    if x in BelowFirst(d, rank, bus, n - 1) {
      i := BridgeAbove(d, rank, bus, n - 1, x);
    } else {
      var c := d[n - 1].child.value;
      assert Bridge(d, n - 1);
      if x == c {
        i := n - 1;
      } else {
        i := BridgeAbove(d, rank, c, |d|, x);
        ChildBelow(d, rank, bus, |d|, n - 1);
      }
    }
  }

  /** Two buses above a common one are above each other. */
  lemma {:induction false} Ancestors(d: seq<Device>, rank: u8 -> nat, a: u8, b: u8, x: u8)
    requires Tree(d, rank) && x in Below(d, rank, a) && x in Below(d, rank, b)
    ensures a in Below(d, rank, b) || b in Below(d, rank, a)
    decreases rank(a) - rank(x)
  {
    if x != a && x != b {
      var i := BridgeAbove(d, rank, a, |d|, x);
      var j := BridgeAbove(d, rank, b, |d|, x);
      assert i == j;
      BelowRanks(d, rank, a, |d|, x);
      Ancestors(d, rank, a, b, d[i].bus);
    }
  }

  /** What lies behind two different bridges of one bus has nothing in common. */
  lemma Siblings(d: seq<Device>, rank: u8 -> nat, bus: u8, i: nat, j: nat, x: u8)
    requires Tree(d, rank) && i != j && BridgeOn(d, bus, i) && BridgeOn(d, bus, j)
    requires Bridge(d, i) && Bridge(d, j)
    requires x in Below(d, rank, d[i].child.value)
    ensures x !in Below(d, rank, d[j].child.value)
  {
    var a, b := d[i].child.value, d[j].child.value;
    if x in Below(d, rank, b) {
      Ancestors(d, rank, a, b, x);
      if a in Below(d, rank, b) {
        NotBelowSibling(d, rank, i, j);
      } else {
        NotBelowSibling(d, rank, j, i);
      }
      assert false;
    }
  }

  lemma NotBelowSibling(d: seq<Device>, rank: u8 -> nat, i: nat, j: nat)
    requires Tree(d, rank) && i != j && Bridge(d, i) && Bridge(d, j) && d[i].bus == d[j].bus
    ensures d[i].child.value !in Below(d, rank, d[j].child.value)
  {
    var a, b := d[i].child.value, d[j].child.value;
    if a in Below(d, rank, b) {
      var k := BridgeAbove(d, rank, b, |d|, a);
      if d[k].bus != b { BelowRanks(d, rank, b, |d|, d[k].bus); }
      assert false;
    }
  }

  // ------------------------------------------------------------- each call once

  function Count(s: seq<Event>, e: Event): nat {
    if s == [] then 0 else Count(s[..|s| - 1], e) + (if s[|s| - 1] == e then 1 else 0)
  }

  lemma {:induction false} CountConcat(a: seq<Event>, b: seq<Event>, e: Event)
    ensures Count(a + b, e) == Count(a, e) + Count(b, e)
  {
    if b == [] {
      assert a + b == a;
    } else {
      assert (a + b)[..|a + b| - 1] == a + b[..|b| - 1];
      CountConcat(a, b[..|b| - 1], e);
    }
  }

  lemma {:induction false} CountIn(s: seq<Event>, p: nat)
    requires p < |s|
    ensures Count(s, s[p]) >= 1
  {
    if p < |s| - 1 { CountIn(s[..|s| - 1], p); }
  }

  lemma {:induction false} CountTwo(s: seq<Event>, p: nat, q: nat)
    requires p < q < |s| && s[p] == s[q]
    ensures Count(s, s[p]) >= 2
  {
    var front := s[..|s| - 1];
    if q < |s| - 1 { CountTwo(front, p, q); } else { CountIn(front, p); }
  }

  lemma {:induction false} CountFind(s: seq<Event>, e: Event) returns (p: nat)
    requires Count(s, e) >= 1
    ensures p < |s| && s[p] == e
  {
    if s[|s| - 1] == e { p := |s| - 1; } else { p := CountFind(s[..|s| - 1], e); }
  }

  /** The calls a device is due: windows and subordinate numbers belong to bridges only. */
  predicate Due(d: seq<Device>, e: Event) {
    e.i < |d| && (e.Window? || e.Subordinate? ==> d[e.i].child.Some?)
  }

  lemma {:induction false} WhichBridge(d: seq<Device>, rank: u8 -> nat, bus: u8, n: nat, x: u8) returns (i: nat)
    requires Tree(d, rank) && n <= |d| && x in BelowFirst(d, rank, bus, n)
    ensures i < n && BridgeOn(d, bus, i) && Bridge(d, i) && x in Below(d, rank, d[i].child.value)
    decreases n
  {
    if x in BelowFirst(d, rank, bus, n - 1) {
      i := WhichBridge(d, rank, bus, n - 1, x);
    } else {
      i := n - 1;
    }
  }

  /** The last bridge adds buses that are new, and its own bus is not among those below. */
  lemma NewBuses(d: seq<Device>, rank: u8 -> nat, bus: u8, n: nat, x: u8)
    requires Tree(d, rank) && 0 < n <= |d| && BridgeOn(d, bus, n - 1) && Bridge(d, n - 1)
    ensures !(x in BelowFirst(d, rank, bus, n - 1) && x in Below(d, rank, d[n - 1].child.value))
    ensures bus !in BelowFirst(d, rank, bus, n)
  {
    if x in BelowFirst(d, rank, bus, n - 1) {
      var j := WhichBridge(d, rank, bus, n - 1, x);
      Siblings(d, rank, bus, j, n - 1, x);
    }
    if bus in BelowFirst(d, rank, bus, n) { BelowRanks(d, rank, bus, n, bus); }
  }

  lemma {:induction false} LeavesOnce(d: seq<Device>, bus: u8, n: nat, e: Event)
    requires n <= |d|
    ensures Count(Leaves(d, bus, n), e) ==
      if e.i < n && LeafOn(d, bus, e.i) && (e.IoBars? || e.DeviceBars?) then 1 else 0
  {
    if n > 0 {
      LeavesOnce(d, bus, n - 1, e);
      if LeafOn(d, bus, n - 1) {
        AtLeafOnce(n - 1, e);
        CountConcat(Leaves(d, bus, n - 1), AtLeaf(n - 1), e);
      }
    }
  }

  lemma AtLeafOnce(i: nat, e: Event)
    ensures Count(AtLeaf(i), e) == if e.i == i && (e.IoBars? || e.DeviceBars?) then 1 else 0
  {
    assert AtLeaf(i) == [IoBars(i)] + [DeviceBars(i)];
    CountConcat([IoBars(i)], [DeviceBars(i)], e);
  }

  lemma AtBridgeOnce(i: nat, e: Event)
    ensures Count(AtBridge(i), e) == if e.i == i then 1 else 0
  {
    assert AtBridge(i) == [Window(i)] + [IoBars(i)] + [DeviceBars(i)] + [Subordinate(i)];
    CountConcat([Window(i)] + [IoBars(i)] + [DeviceBars(i)], [Subordinate(i)], e);
    CountConcat([Window(i)] + [IoBars(i)], [DeviceBars(i)], e);
    CountConcat([Window(i)], [IoBars(i)], e);
  }

  /** Every device on a reachable bus gets each of its calls exactly once, and no other device gets any. */
  lemma {:induction false} VisitOnce(d: seq<Device>, rank: u8 -> nat, bus: u8, e: Event)
    requires Tree(d, rank)
    ensures Count(Visit(d, rank, bus), e) == if Due(d, e) && d[e.i].bus in Below(d, rank, bus) then 1 else 0
    decreases rank(bus), |d| + 1
  {
    BridgesOnce(d, rank, bus, |d|, e);
    LeavesOnce(d, bus, |d|, e);
    CountConcat(Bridges(d, rank, bus, |d|), Leaves(d, bus, |d|), e);
    if bus in BelowFirst(d, rank, bus, |d|) { BelowRanks(d, rank, bus, |d|, bus); }
  }

  lemma {:induction false} BridgesOnce(d: seq<Device>, rank: u8 -> nat, bus: u8, n: nat, e: Event)
    requires Tree(d, rank) && n <= |d|
    ensures Count(Bridges(d, rank, bus, n), e) ==
      if Due(d, e) && (d[e.i].bus in BelowFirst(d, rank, bus, n) || (BridgeOn(d, bus, e.i) && e.i < n)) then 1 else 0
    decreases rank(bus), n
  {
    if n > 0 {
      BridgesOnce(d, rank, bus, n - 1, e);
      if BridgeOn(d, bus, n - 1) {
        assert Bridge(d, n - 1);
        var c := d[n - 1].child.value;
        VisitOnce(d, rank, c, e);
        AtBridgeOnce(n - 1, e);
        CountConcat(Visit(d, rank, c), AtBridge(n - 1), e);
        CountConcat(Bridges(d, rank, bus, n - 1), Visit(d, rank, c) + AtBridge(n - 1), e);
        var x := if e.i < |d| then d[e.i].bus else bus;
        NewBuses(d, rank, bus, n, x);
      }
    }
  }

  // --------------------------------------------------------- windows come last

  /** Around bridge `i`: all behind it, then its window. */
  ghost predicate Around(d: seq<Device>, rank: u8 -> nat, s: seq<Event>, i: nat, a: seq<Event>, c: seq<Event>)
    requires Tree(d, rank) && Bridge(d, i)
  {
    s == a + Visit(d, rank, d[i].child.value) + AtBridge(i) + c
  }

  lemma AroundExtend(d: seq<Device>, rank: u8 -> nat, s: seq<Event>, i: nat, a: seq<Event>, c: seq<Event>,
                     before: seq<Event>, after: seq<Event>)
    requires Tree(d, rank) && Bridge(d, i) && Around(d, rank, s, i, a, c)
    ensures Around(d, rank, before + s + after, i, before + a, c + after)
  {
  }

  lemma {:induction false} SplitAt(d: seq<Device>, rank: u8 -> nat, bus: u8, i: nat) returns (a: seq<Event>, c: seq<Event>)
    requires Tree(d, rank) && Bridge(d, i) && d[i].bus in Below(d, rank, bus)
    ensures Around(d, rank, Visit(d, rank, bus), i, a, c)
    decreases rank(bus), |d| + 1
  {
    var leaves := Leaves(d, bus, |d|);
    a, c := SplitBridges(d, rank, bus, |d|, i);
    AroundExtend(d, rank, Bridges(d, rank, bus, |d|), i, a, c, [], leaves);
    assert [] + Bridges(d, rank, bus, |d|) == Bridges(d, rank, bus, |d|);
    a, c := [] + a, c + leaves;
  }

  lemma {:induction false} SplitBridges(d: seq<Device>, rank: u8 -> nat, bus: u8, n: nat, i: nat)
    returns (a: seq<Event>, c: seq<Event>)
    requires Tree(d, rank) && Bridge(d, i) && n <= |d|
    requires d[i].bus in BelowFirst(d, rank, bus, n) || (BridgeOn(d, bus, i) && i < n)
    ensures Around(d, rank, Bridges(d, rank, bus, n), i, a, c)
    decreases rank(bus), n
  {
    var front := Bridges(d, rank, bus, n - 1);
    if d[i].bus in BelowFirst(d, rank, bus, n - 1) || (BridgeOn(d, bus, i) && i < n - 1) {
      a, c := SplitBridges(d, rank, bus, n - 1, i);
      var tail := Bridges(d, rank, bus, n)[|front|..];
      assert Bridges(d, rank, bus, n) == [] + front + tail;
      AroundExtend(d, rank, front, i, a, c, [], tail);
      a, c := [] + a, c + tail;
    } else {
      assert BridgeOn(d, bus, n - 1) && Bridge(d, n - 1);
      var x := d[n - 1].child.value;
      var v, w := Visit(d, rank, x), AtBridge(n - 1);
      if i == n - 1 {
        a, c := front, [];
        assert front + (v + w) == front + v + w + [];
      } else {
        a, c := SplitAt(d, rank, x, i);
        AroundExtend(d, rank, v, i, a, c, front, w);
        assert front + v + w == front + (v + w);
        a, c := front + a, c + w;
      }
    }
  }

  /** A bridge window is configured only after every call on every device behind it. */
  lemma WindowLast(d: seq<Device>, rank: u8 -> nat, bus: u8, i: nat, p: nat, q: nat)
    requires Tree(d, rank) && Bridge(d, i) && d[i].bus in Below(d, rank, bus)
    requires p < |Visit(d, rank, bus)| && Visit(d, rank, bus)[p] == Window(i)
    requires q < |Visit(d, rank, bus)|
    requires var j := Visit(d, rank, bus)[q].i; j < |d| && d[j].bus in Below(d, rank, d[i].child.value)
    ensures q < p
  {
    var s, x := Visit(d, rank, bus), d[i].child.value;
    var a, c := SplitAt(d, rank, bus, i);
    var v := Visit(d, rank, x);
    var m := |a| + |v|;
    assert s[m] == Window(i);
    OnceAt(d, rank, bus, p, m);
    VisitOnce(d, rank, bus, s[q]);
    VisitOnce(d, rank, x, s[q]);
    CountIn(s, q);
    var k := CountFind(v, s[q]);
    assert s[|a| + k] == v[k];
    OnceAt(d, rank, bus, q, |a| + k);
  }

  lemma OnceAt(d: seq<Device>, rank: u8 -> nat, bus: u8, p: nat, q: nat)
    requires Tree(d, rank) && p < |Visit(d, rank, bus)| && q < |Visit(d, rank, bus)|
    requires Visit(d, rank, bus)[p] == Visit(d, rank, bus)[q]
    ensures p == q
  {
    VisitOnce(d, rank, bus, Visit(d, rank, bus)[p]);
    if p < q { CountTwo(Visit(d, rank, bus), p, q); }
    if q < p { CountTwo(Visit(d, rank, bus), q, p); }
  }

  // ------------------------------------------------------------ the order of calls

  /** The calls on one device follow each other: its window if it is a bridge, I/O, the rest, and last its number. */
  ghost predicate InBlocks(v: seq<Event>) {
    forall p | 0 <= p < |v| :: BlockAt(v, p)
  }

  ghost predicate BlockAt(v: seq<Event>, p: nat)
    requires p < |v|
  {
    match v[p]
    case Window(i) => p + 3 < |v| && v[p + 1] == IoBars(i) && v[p + 3] == Subordinate(i)
    case IoBars(i) => p + 1 < |v| && v[p + 1] == DeviceBars(i)
    case _ => true
  }

  lemma BlocksJoin(a: seq<Event>, b: seq<Event>)
    requires InBlocks(a) && InBlocks(b)
    ensures InBlocks(a + b)
  {
    forall p | 0 <= p < |a + b| ensures BlockAt(a + b, p) {
      if p < |a| { assert BlockAt(a, p); } else { assert BlockAt(b, p - |a|); }
    }
  }

  lemma {:induction false} VisitBlocks(d: seq<Device>, rank: u8 -> nat, bus: u8, n: nat)
    requires Tree(d, rank) && n <= |d|
    ensures InBlocks(Bridges(d, rank, bus, n)) && InBlocks(Leaves(d, bus, n))
    ensures n == |d| ==> InBlocks(Visit(d, rank, bus))
    decreases rank(bus), n
  {
    if n > 0 {
      VisitBlocks(d, rank, bus, n - 1);
      if LeafOn(d, bus, n - 1) { BlocksJoin(Leaves(d, bus, n - 1), AtLeaf(n - 1)); }
      if BridgeOn(d, bus, n - 1) {
        assert Bridge(d, n - 1);
        var v := Visit(d, rank, d[n - 1].child.value);
        VisitBlocks(d, rank, d[n - 1].child.value, |d|);
        BlocksJoin(v, AtBridge(n - 1));
        BlocksJoin(Bridges(d, rank, bus, n - 1), v + AtBridge(n - 1));
      }
    }
    BlocksJoin(Bridges(d, rank, bus, n), Leaves(d, bus, n));
  }

  /** On one bus bridges come before other devices, and either in the order of the list. */
  predicate Earlier(d: seq<Device>, i: nat, j: nat)
    requires i < |d| && j < |d|
  {
    if d[i].child.Some? == d[j].child.Some? then i < j else d[i].child.Some?
  }

  /** Device `i` has been called once the first part of the visit is over, and `j` has not. */
  ghost predicate Between(v: seq<Event>, m: nat, i: nat, j: nat) {
    m <= |v| && Count(v[..m], IoBars(i)) == 1 && Count(v[..m], IoBars(j)) == 0
  }

  lemma CutBetween(d: seq<Device>, rank: u8 -> nat, bus: u8, i: nat, j: nat) returns (m: nat)
    requires Tree(d, rank) && i < |d| && j < |d| && d[i].bus == d[j].bus == bus && Earlier(d, i, j)
    ensures Between(Visit(d, rank, bus), m, i, j)
  {
    var v, b := Visit(d, rank, bus), Bridges(d, rank, bus, |d|);
    if bus in BelowFirst(d, rank, bus, |d|) { BelowRanks(d, rank, bus, |d|, bus); }
    if d[i].child.Some? {
      var part := Bridges(d, rank, bus, i + 1);
      if bus in BelowFirst(d, rank, bus, i + 1) { BelowRanks(d, rank, bus, i + 1, bus); }
      BridgesOnce(d, rank, bus, i + 1, IoBars(i));
      BridgesOnce(d, rank, bus, i + 1, IoBars(j));
      BridgesPrefix(d, rank, bus, i + 1);
      m := |part|;
      assert v[..m] == part;
    } else {
      var part := Leaves(d, bus, i + 1);
      LeavesPrefix(d, bus, i + 1);
      m := |b| + |part|;
      assert v[..m] == b + part;
      BridgesOnce(d, rank, bus, |d|, IoBars(i));
      BridgesOnce(d, rank, bus, |d|, IoBars(j));
      LeavesOnce(d, bus, i + 1, IoBars(i));
      LeavesOnce(d, bus, i + 1, IoBars(j));
      CountConcat(b, part, IoBars(i));
      CountConcat(b, part, IoBars(j));
    }
  }

  lemma VisitOrder(d: seq<Device>, rank: u8 -> nat, bus: u8, i: nat, j: nat, p: nat, q: nat)
    requires Tree(d, rank) && i < |d| && j < |d| && d[i].bus == d[j].bus == bus && Earlier(d, i, j)
    requires p < |Visit(d, rank, bus)| && Visit(d, rank, bus)[p] == IoBars(i)
    requires q < |Visit(d, rank, bus)| && Visit(d, rank, bus)[q] == IoBars(j)
    ensures p < q
  {
    var v := Visit(d, rank, bus);
    var m := CutBetween(d, rank, bus, i, j);
    var k := CountFind(v[..m], IoBars(i));
    OnceAt(d, rank, bus, p, k);
    if q < m { CountIn(v[..m], q); }
  }

  // -------------------------------------------------------- the highest bus below

  function Max(a: u8, b: u8): u8 {
    if a < b then b else a
  }

  ghost function Highest(d: seq<Device>, rank: u8 -> nat, bus: u8): u8
    requires Tree(d, rank)
    decreases rank(bus), |d| + 1
  {
    HighestFirst(d, rank, bus, |d|)
  }

  ghost function HighestFirst(d: seq<Device>, rank: u8 -> nat, bus: u8, n: nat): u8
    requires Tree(d, rank) && n <= |d|
    decreases rank(bus), n
  {
    if n == 0 then bus
    else if BridgeOn(d, bus, n - 1) then
      assert Bridge(d, n - 1);
      Max(HighestFirst(d, rank, bus, n - 1), Highest(d, rank, d[n - 1].child.value))
    else HighestFirst(d, rank, bus, n - 1)
  }

  /** The subordinate number is the greatest reachable bus number. */
  lemma {:induction false} HighestIsMax(d: seq<Device>, rank: u8 -> nat, bus: u8, n: nat)
    requires Tree(d, rank) && n <= |d|
    ensures HighestFirst(d, rank, bus, n) in {bus} + BelowFirst(d, rank, bus, n)
    ensures forall x | x in {bus} + BelowFirst(d, rank, bus, n) :: x <= HighestFirst(d, rank, bus, n)
    decreases rank(bus), n
  {
    if n > 0 {
      HighestIsMax(d, rank, bus, n - 1);
      if BridgeOn(d, bus, n - 1) {
        assert Bridge(d, n - 1);
        HighestIsMax(d, rank, d[n - 1].child.value, |d|);
      }
    }
  }

  // -------------------------------------------------------- the ranges recorded

  type Ranges = map<nat, seq<Bar>>

  /** Per device: its two kinds of range, and for a bridge its window, what that had to hold, and the subordinate number. */
  datatype Book = Book(io: Ranges, dev: Ranges, window: Ranges, behind: Ranges, subordinate: map<nat, u8>)

  function At(r: Ranges, i: nat): seq<Bar> {
    if i in r then r[i] else []
  }

  function BridgeBars(d: seq<Device>, bus: u8, b: Book, n: nat): seq<Bar>
    requires n <= |d|
  {
    if n == 0 then []
    else if BridgeOn(d, bus, n - 1) then
      BridgeBars(d, bus, b, n - 1) + (At(b.window, n - 1) + (At(b.io, n - 1) + At(b.dev, n - 1)))
    else BridgeBars(d, bus, b, n - 1)
  }

  function LeafBars(d: seq<Device>, bus: u8, b: Book, n: nat): seq<Bar>
    requires n <= |d|
  {
    if n == 0 then []
    else if LeafOn(d, bus, n - 1) then LeafBars(d, bus, b, n - 1) + (At(b.io, n - 1) + At(b.dev, n - 1))
    else LeafBars(d, bus, b, n - 1)
  }

  /** All ranges claimed by the devices on one bus. */
  function Bars(d: seq<Device>, bus: u8, b: Book): seq<Bar> {
    BridgeBars(d, bus, b, |d|) + LeafBars(d, bus, b, |d|)
  }

  ghost predicate SameAt(b: Book, c: Book, i: nat) {
    && (i in b.io <==> i in c.io) && At(b.io, i) == At(c.io, i)
    && (i in b.dev <==> i in c.dev) && At(b.dev, i) == At(c.dev, i)
    && (i in b.window <==> i in c.window) && At(b.window, i) == At(c.window, i)
    && (i in b.behind <==> i in c.behind) && At(b.behind, i) == At(c.behind, i)
    && (i in b.subordinate <==> i in c.subordinate)
    && (i in b.subordinate ==> b.subordinate[i] == c.subordinate[i])
  }

  /** Only the given devices' records differ. */
  ghost predicate Kept(b: Book, c: Book, changed: set<nat>) {
    forall i: nat | i !in changed :: SameAt(b, c, i)
  }

  lemma {:induction false} BarsKept(d: seq<Device>, bus: u8, b: Book, c: Book, n: nat)
    requires n <= |d| && forall i | 0 <= i < n && d[i].bus == bus :: SameAt(b, c, i)
    ensures BridgeBars(d, bus, b, n) == BridgeBars(d, bus, c, n) && LeafBars(d, bus, b, n) == LeafBars(d, bus, c, n)
  {
    if n > 0 {
      BarsKept(d, bus, b, c, n - 1);
    }
  }

  /** A device's record is complete, and a bridge's agrees with the bus behind it. */
  ghost predicate Done(d: seq<Device>, rank: u8 -> nat, b: Book, i: nat)
    requires Tree(d, rank)
  {
    && i in b.io && i in b.dev
    && (Bridge(d, i) ==>
          && i in b.window
          && i in b.behind && b.behind[i] == Bars(d, d[i].child.value, b)
          && i in b.subordinate && b.subordinate[i] == Highest(d, rank, d[i].child.value))
  }

  ghost predicate AllDone(d: seq<Device>, rank: u8 -> nat, b: Book, t: set<nat>)
    requires Tree(d, rank)
  {
    forall i | i in t :: Done(d, rank, b, i)
  }

  /** With a bridge, all devices behind it. */
  ghost predicate Closed(d: seq<Device>, t: set<nat>) {
    forall i, j: nat | i in t && Bridge(d, i) && j < |d| && d[i].child == Some(d[j].bus) :: j in t
  }

  lemma DoneKept(d: seq<Device>, rank: u8 -> nat, b: Book, c: Book, t: set<nat>, changed: set<nat>)
    requires Tree(d, rank) && Closed(d, t) && AllDone(d, rank, b, t) && Kept(b, c, changed) && t !! changed
    ensures AllDone(d, rank, c, t)
  {
    forall i | i in t ensures Done(d, rank, c, i) {
      assert Done(d, rank, b, i) && SameAt(b, c, i);
      if Bridge(d, i) { BarsKept(d, d[i].child.value, b, c, |d|); }
    }
  }

  lemma KeptTrans(a: Book, b: Book, c: Book, s: set<nat>, t: set<nat>)
    requires Kept(a, b, s) && Kept(b, c, t)
    ensures Kept(a, c, s + t)
  {
  }

  // ---------------------------------------------------- which devices are finished

  ghost function On(d: seq<Device>, buses: set<u8>): set<nat> {
    set i | 0 <= i < |d| && d[i].bus in buses
  }

  ghost function BridgesBefore(d: seq<Device>, bus: u8, n: nat): set<nat>
    requires n <= |d|
  {
    set i | 0 <= i < n && BridgeOn(d, bus, i)
  }

  ghost function LeavesBefore(d: seq<Device>, bus: u8, n: nat): set<nat>
    requires n <= |d|
  {
    set i | 0 <= i < n && LeafOn(d, bus, i)
  }

  /** Finished after the bridges among the first `n` devices. */
  ghost function Behind(d: seq<Device>, rank: u8 -> nat, bus: u8, n: nat): set<nat>
    requires Tree(d, rank) && n <= |d|
  {
    On(d, BelowFirst(d, rank, bus, n)) + BridgesBefore(d, bus, n)
  }

  /** Finished after all bridges and the other devices among the first `n`. */
  ghost function Finished(d: seq<Device>, rank: u8 -> nat, bus: u8, n: nat): set<nat>
    requires Tree(d, rank) && n <= |d|
  {
    Behind(d, rank, bus, |d|) + LeavesBefore(d, bus, n)
  }

  lemma BehindStep(d: seq<Device>, rank: u8 -> nat, bus: u8, n: nat)
    requires Tree(d, rank) && n < |d| && BridgeOn(d, bus, n) && Bridge(d, n)
    ensures Behind(d, rank, bus, n + 1) == Behind(d, rank, bus, n) + (On(d, Below(d, rank, d[n].child.value)) + {n})
    ensures Behind(d, rank, bus, n) !! On(d, Below(d, rank, d[n].child.value)) + {n}
    ensures n !in On(d, Below(d, rank, d[n].child.value))
  {
    var c := d[n].child.value;
    NewBuses(d, rank, bus, n + 1, bus);
    forall i | i in Behind(d, rank, bus, n) ensures i !in On(d, Below(d, rank, c)) {
      NewBuses(d, rank, bus, n + 1, d[i].bus);
    }
  }

  lemma {:induction false} BelowClosed(d: seq<Device>, rank: u8 -> nat, bus: u8, n: nat, i: nat)
    requires Tree(d, rank) && n <= |d| && Bridge(d, i) && d[i].bus in BelowFirst(d, rank, bus, n)
    ensures d[i].child.value in BelowFirst(d, rank, bus, n)
    decreases rank(bus), n
  {
    if d[i].bus in BelowFirst(d, rank, bus, n - 1) {
      BelowClosed(d, rank, bus, n - 1, i);
    } else {
      assert Bridge(d, n - 1);
      var c := d[n - 1].child.value;
      if d[i].bus == c { ChildBelow(d, rank, c, |d|, i); } else { BelowClosed(d, rank, c, |d|, i); }
    }
  }

  lemma BehindClosed(d: seq<Device>, rank: u8 -> nat, bus: u8, n: nat)
    requires Tree(d, rank) && n <= |d|
    ensures Closed(d, Behind(d, rank, bus, n))
  {
    forall i, j: nat | i in Behind(d, rank, bus, n) && Bridge(d, i) && j < |d| && d[i].child == Some(d[j].bus)
      ensures j in Behind(d, rank, bus, n)
    {
      if d[i].bus in BelowFirst(d, rank, bus, n) {
        BelowClosed(d, rank, bus, n, i);
      } else {
        ChildBelow(d, rank, bus, n, i);
      }
    }
  }

  // ------------------------------------------------------------- the recursion

  /** The ranges a call yields when given ranges, or its failure; it may depend on every call before it. */
  type Alloc = (Event, seq<Bar>, seq<Event>) -> Option<seq<Bar>>

  /** What is recorded for the call at `p` is what that call, made then, yielded; a window was given what is behind. */
  ghost predicate BackedAt(alloc: Alloc, b: Book, log: seq<Event>, p: nat)
    requires p < |log|
  {
    var i := log[p].i;
    match log[p]
    case IoBars(_) => i in b.io && alloc(log[p], [], log[..p]) == Some(b.io[i])
    case DeviceBars(_) => i in b.dev && alloc(log[p], [], log[..p]) == Some(b.dev[i])
    case Window(_) => i in b.window && i in b.behind && alloc(log[p], b.behind[i], log[..p]) == Some(b.window[i])
    case Subordinate(_) => i in b.subordinate
  }

  /** So it is for all calls from `from` on, which were made on the given devices. */
  ghost predicate Backed(alloc: Alloc, b: Book, log: seq<Event>, from: nat, t: set<nat>) {
    forall p | from <= p < |log| :: log[p].i in t && BackedAt(alloc, b, log, p)
  }

  lemma BackedMore(alloc: Alloc, b: Book, c: Book, log0: seq<Event>, log: seq<Event>, from: nat, t: set<nat>, u: set<nat>)
    requires log0 <= log && Backed(alloc, b, log0, from, t) && Kept(b, c, u) && t !! u
    requires Backed(alloc, c, log, |log0|, u)
    ensures Backed(alloc, c, log, from, t + u)
  {
    forall p | from <= p < |log| ensures log[p].i in t + u && BackedAt(alloc, c, log, p) {
      if p < |log0| {
        assert log0[p] == log[p] && log0[..p] == log[..p];
        assert BackedAt(alloc, b, log0, p) && SameAt(b, c, log[p].i);
      }
    }
  }

  lemma BackedBridge(alloc: Alloc, b: Book, log0: seq<Event>, log: seq<Event>, n: nat)
    requires log == log0 + AtBridge(n) && n in b.window && n in b.behind && n in b.subordinate
    requires alloc(Window(n), b.behind[n], log0) == Some(b.window[n])
    requires Backed(alloc, b, log0 + [Window(n)] + AtLeaf(n), |log0| + 1, {n})
    ensures Backed(alloc, b, log, |log0|, {n})
  {
    var mid := log0 + [Window(n)] + AtLeaf(n);
    assert log[..|log0|] == log0;
    forall p | |log0| <= p < |log| ensures log[p].i in {n} && BackedAt(alloc, b, log, p) {
      if |log0| < p < |mid| {
        assert mid[p] == log[p] && mid[..p] == log[..p];
        assert BackedAt(alloc, b, mid, p);
      }
    }
  }

  lemma {:induction false} BridgesPrefix(d: seq<Device>, rank: u8 -> nat, bus: u8, n: nat)
    requires Tree(d, rank) && n <= |d|
    ensures Bridges(d, rank, bus, n) <= Visit(d, rank, bus)
    decreases |d| - n
  {
    if n < |d| {
      BridgesPrefix(d, rank, bus, n + 1);
    }
  }

  lemma {:induction false} LeavesPrefix(d: seq<Device>, bus: u8, n: nat)
    requires n <= |d|
    ensures Leaves(d, bus, n) <= Leaves(d, bus, |d|)
    decreases |d| - n
  {
    if n < |d| {
      LeavesPrefix(d, bus, n + 1);
    }
  }

  /** The new log extends the old one by part of what was to be called. */
  ghost predicate Partial(before: seq<Event>, after: seq<Event>, all: seq<Event>) {
    before <= after <= before + all
  }

  lemma PartialLater(before: seq<Event>, done: seq<Event>, after: seq<Event>, next: seq<Event>, all: seq<Event>)
    requires Partial(before + done, after, next) && done + next <= all
    ensures Partial(before, after, all)
  {
  }

  lemma SetDone(d: seq<Device>, rank: u8 -> nat, b: Book, i: nat, c: Book)
    requires Tree(d, rank) && Bridge(d, i)
    requires Kept(b, c, {i}) && AllDone(d, rank, b, On(d, Below(d, rank, d[i].child.value)))
    requires i !in On(d, Below(d, rank, d[i].child.value))
    requires i in c.io && i in c.dev && i in c.window
    requires i in c.behind && c.behind[i] == Bars(d, d[i].child.value, b)
    requires i in c.subordinate && c.subordinate[i] == Highest(d, rank, d[i].child.value)
    ensures AllDone(d, rank, c, On(d, Below(d, rank, d[i].child.value)) + {i})
  {
    var x := d[i].child.value;
    OnClosed(d, rank, x);
    DoneKept(d, rank, b, c, On(d, Below(d, rank, x)), {i});
    assert forall j | 0 <= j < |d| && d[j].bus == x :: j in On(d, Below(d, rank, x));
    BarsKept(d, x, b, c, |d|);
  }

  lemma OnClosed(d: seq<Device>, rank: u8 -> nat, bus: u8)
    requires Tree(d, rank)
    ensures Closed(d, On(d, Below(d, rank, bus)))
  {
    var t := On(d, Below(d, rank, bus));
    forall i, j: nat | i in t && Bridge(d, i) && j < |d| && d[i].child == Some(d[j].bus) ensures j in t {
      if d[i].bus == bus { ChildBelow(d, rank, bus, |d|, i); } else { BelowClosed(d, rank, bus, |d|, i); }
    }
  }

  /** The state of the walk after the bridges among the first `n` devices. */
  ghost predicate AfterBridges(d: seq<Device>, rank: u8 -> nat, bus: u8, n: nat, log0: seq<Event>, book0: Book,
                               log: seq<Event>, book: Book, bars: seq<Bar>, highest: u8)
    requires Tree(d, rank) && n <= |d|
  {
    && log == log0 + Bridges(d, rank, bus, n)
    && Kept(book0, book, Behind(d, rank, bus, n)) && AllDone(d, rank, book, Behind(d, rank, bus, n))
    && bars == BridgeBars(d, bus, book, n)
    && highest == HighestFirst(d, rank, bus, n)
  }

  lemma BridgeStep(d: seq<Device>, rank: u8 -> nat, bus: u8, n: nat, log0: seq<Event>, book0: Book,
                   log: seq<Event>, book: Book, bars: seq<Bar>, highest: u8, book1: Book)
    requires Tree(d, rank) && n < |d| && BridgeOn(d, bus, n) && Bridge(d, n)
    requires AfterBridges(d, rank, bus, n, log0, book0, log, book, bars, highest)
    requires Kept(book, book1, On(d, Below(d, rank, d[n].child.value)) + {n})
    requires AllDone(d, rank, book1, On(d, Below(d, rank, d[n].child.value)) + {n})
    ensures AfterBridges(d, rank, bus, n + 1, log0, book0,
                         log + (Visit(d, rank, d[n].child.value) + AtBridge(n)), book1,
                         bars + (At(book1.window, n) + (At(book1.io, n) + At(book1.dev, n))),
                         Max(highest, Highest(d, rank, d[n].child.value)))
  {
    var c := d[n].child.value;
    var t, u := Behind(d, rank, bus, n), On(d, Below(d, rank, c)) + {n};
    BehindStep(d, rank, bus, n);
    BehindClosed(d, rank, bus, n);
    DoneKept(d, rank, book, book1, t, u);
    KeptTrans(book0, book, book1, t, u);
    NewBuses(d, rank, bus, n + 1, bus);
    forall i | 0 <= i < n && d[i].bus == bus ensures SameAt(book, book1, i) {
      assert i !in u;
    }
    BarsKept(d, bus, book, book1, n);
    Assoc(log0, Bridges(d, rank, bus, n), Visit(d, rank, c) + AtBridge(n));
  }

  /** And after the other devices among the first `n`. */
  ghost predicate AfterLeaves(d: seq<Device>, rank: u8 -> nat, bus: u8, n: nat, log0: seq<Event>, book0: Book,
                              log: seq<Event>, book: Book, bars: seq<Bar>)
    requires Tree(d, rank) && n <= |d|
  {
    var t := Finished(d, rank, bus, n);
    && log == log0 + (Bridges(d, rank, bus, |d|) + Leaves(d, bus, n))
    && Kept(book0, book, t) && AllDone(d, rank, book, t)
    && bars == BridgeBars(d, bus, book, |d|) + LeafBars(d, bus, book, n)
  }

  lemma LeafStep(d: seq<Device>, rank: u8 -> nat, bus: u8, n: nat, log0: seq<Event>, book0: Book,
                 log: seq<Event>, book: Book, bars: seq<Bar>, book1: Book)
    requires Tree(d, rank) && n < |d| && LeafOn(d, bus, n)
    requires AfterLeaves(d, rank, bus, n, log0, book0, log, book, bars)
    requires Kept(book, book1, {n}) && n in book1.io && n in book1.dev
    ensures AfterLeaves(d, rank, bus, n + 1, log0, book0, log + AtLeaf(n), book1,
                        bars + (At(book1.io, n) + At(book1.dev, n)))
  {
    var t := Finished(d, rank, bus, n);
    LeafAdded(d, rank, bus, n);
    KeptTrans(book0, book, book1, t, {n});
    TopLevelClosed(d, rank, bus, n);
    DoneKept(d, rank, book, book1, t, {n});
    BridgeBarsKept(d, bus, book, book1, |d|, n);
    assert forall i | 0 <= i < n && d[i].bus == bus :: SameAt(book, book1, i);
    BarsKept(d, bus, book, book1, n);
    var b := BridgeBars(d, bus, book, |d|);
    Assoc(b, LeafBars(d, bus, book, n), At(book1.io, n) + At(book1.dev, n));
    Assoc(Bridges(d, rank, bus, |d|), Leaves(d, bus, n), AtLeaf(n));
    Assoc(log0, Bridges(d, rank, bus, |d|) + Leaves(d, bus, n), AtLeaf(n));
  }

  lemma LeafSkip(d: seq<Device>, rank: u8 -> nat, bus: u8, n: nat, log0: seq<Event>, book0: Book,
                 log: seq<Event>, book: Book, bars: seq<Bar>)
    requires Tree(d, rank) && n < |d| && !LeafOn(d, bus, n)
    requires AfterLeaves(d, rank, bus, n, log0, book0, log, book, bars)
    ensures AfterLeaves(d, rank, bus, n + 1, log0, book0, log, book, bars)
  {
    LeafPassed(d, rank, bus, n);
  }

  lemma TopLevelClosed(d: seq<Device>, rank: u8 -> nat, bus: u8, n: nat)
    requires Tree(d, rank) && n < |d| && LeafOn(d, bus, n)
    ensures Closed(d, Behind(d, rank, bus, |d|) + LeavesBefore(d, bus, n))
    ensures n !in Behind(d, rank, bus, |d|) + LeavesBefore(d, bus, n)
  {
    BehindClosed(d, rank, bus, |d|);
    if bus in BelowFirst(d, rank, bus, |d|) { BelowRanks(d, rank, bus, |d|, bus); }
  }

  lemma {:induction false} BridgeBarsKept(d: seq<Device>, bus: u8, b: Book, c: Book, n: nat, leaf: nat)
    requires n <= |d| && LeafOn(d, bus, leaf) && Kept(b, c, {leaf})
    ensures BridgeBars(d, bus, b, n) == BridgeBars(d, bus, c, n)
  {
    if n > 0 {
      BridgeBarsKept(d, bus, b, c, n - 1, leaf);
      assert n - 1 != leaf ==> SameAt(b, c, n - 1);
    }
  }

  class Topology {
    const devices: seq<Device>
    var book: Book
    var log: seq<Event>

    constructor (devices: seq<Device>)
      ensures this.devices == devices && log == [] && book == Book(map[], map[], map[], map[], map[])
    {
      this.devices := devices;
      log := [];
      book := Book(map[], map[], map[], map[], map[]);
    }

    method Call(e: Event, given: seq<Bar>, alloc: Alloc) returns (r: Option<seq<Bar>>)
      modifies this`log
      ensures log == old(log) + [e] && r == alloc(e, given, old(log))
    {
      r := alloc(e, given, log);
      log := log + [e];
    }

    /** Both kinds of range of one device. */
    method AllocateBars(i: nat, alloc: Alloc) returns (r: Option<seq<Bar>>)
      modifies this
      ensures Partial(old(log), log, AtLeaf(i))
      ensures r.Some? ==>
        && log == old(log) + AtLeaf(i)
        && i in book.io && i in book.dev && r.value == At(book.io, i) + At(book.dev, i)
        && book.window == old(book).window && book.behind == old(book).behind
        && book.subordinate == old(book).subordinate
        && Backed(alloc, book, log, |old(log)|, {i})
      ensures Kept(old(book), book, {i})
    {
      var io := Call(IoBars(i), [], alloc);
      if io.None? { return None; }
      book := book.(io := book.io[i := io.value]);
      var dev := Call(DeviceBars(i), [], alloc);
      assert log == old(log) + AtLeaf(i);
      assert log[..|old(log)|] == old(log) && log[..|old(log)| + 1] == old(log) + [IoBars(i)];
      if dev.None? { return None; }
      book := book.(dev := book.dev[i := dev.value]);
      r := Some(io.value + dev.value);
    }

    /** A bridge once all behind it is done: its window, its own ranges and its subordinate number. */
    method FinishBridge(n: nat, behind: seq<Bar>, highest: u8, alloc: Alloc) returns (r: Option<seq<Bar>>)
      modifies this
      ensures Partial(old(log), log, AtBridge(n))
      ensures r.Some? ==>
        && log == old(log) + AtBridge(n) && Kept(old(book), book, {n})
        && n in book.io && n in book.dev && n in book.window
        && n in book.behind && book.behind[n] == behind
        && n in book.subordinate && book.subordinate[n] == highest
        && r.value == At(book.window, n) + (At(book.io, n) + At(book.dev, n))
        && Backed(alloc, book, log, |old(log)|, {n})
    {
      ghost var log0 := log;
      var window := Call(Window(n), behind, alloc);
      assert log == log0 + AtBridge(n)[..1];
      if window.None? { return None; }
      book := book.(window := book.window[n := window.value], behind := book.behind[n := behind]);
      var bars := AllocateBars(n, alloc);
      PartialAtBridge(log0, log, n);
      if bars.None? { return None; }
      ghost var book0 := book;
      book := book.(subordinate := book.subordinate[n := highest]);
      assert log + [Subordinate(n)] == log0 + AtBridge(n);
      SubordinateKeeps(alloc, book0, book, log, |log0| + 1, n);
      log := log + [Subordinate(n)];
      BackedBridge(alloc, book, log0, log, n);
      r := Some(window.value + bars.value);
    }

    /** One bridge, from below. */
    method GenerateBehind(bus: u8, n: nat, alloc: Alloc, ghost rank: u8 -> nat) returns (r: Option<(seq<Bar>, u8)>)
      requires Tree(devices, rank) && BridgeOn(devices, bus, n) && Bridge(devices, n)
      modifies this
      ensures var all := Visit(devices, rank, devices[n].child.value) + AtBridge(n);
        Partial(old(log), log, all) && (r.Some? ==> log == old(log) + all)
      ensures r.Some? ==>
        var c, t := devices[n].child.value, On(devices, Below(devices, rank, devices[n].child.value)) + {n};
        && Kept(old(book), book, t) && AllDone(devices, rank, book, t)
        && r.value.0 == At(book.window, n) + (At(book.io, n) + At(book.dev, n))
        && r.value.1 == Highest(devices, rank, c)
        && Backed(alloc, book, log, |old(log)|, t)
      decreases rank(bus), 0
    {
      var c := devices[n].child.value;
      ghost var v, log0, book0 := Visit(devices, rank, c), log, book;
      BehindStep(devices, rank, bus, n);
      var child := Generate(c, alloc, rank);
      if child.None? {
        PartialSooner(log0, log, v, AtBridge(n));
        return None;
      }
      var (behind, highest) := child.value;
      ghost var book1, log1 := book, log;
      var bars := FinishBridge(n, behind, highest, alloc);
      PartialLater(log0, v, log, AtBridge(n), v + AtBridge(n));
      if bars.None? { return None; }
      Assoc(log0, v, AtBridge(n));
      SetDone(devices, rank, book1, n, book);
      KeptTrans(book0, book1, book, On(devices, Below(devices, rank, c)), {n});
      BackedMore(alloc, book1, book, log1, log, |log0|, On(devices, Below(devices, rank, c)), {n});
      r := Some((bars.value, highest));
    }

    /** The first pass over the devices. */
    method GenerateBridges(bus: u8, alloc: Alloc, ghost rank: u8 -> nat) returns (r: Option<(seq<Bar>, u8)>)
      requires Tree(devices, rank)
      modifies this
      ensures Partial(old(log), log, Visit(devices, rank, bus))
      ensures r.Some? ==>
        && AfterBridges(devices, rank, bus, |devices|, old(log), old(book), log, book, r.value.0, r.value.1)
        && Backed(alloc, book, log, |old(log)|, Behind(devices, rank, bus, |devices|))
      decreases rank(bus), 1
    {
      var bars: seq<Bar> := [];
      var highest := bus;
      ghost var log0, book0 := log, book;
      var n := 0;
      while n < |devices|
        invariant 0 <= n <= |devices|
        invariant AfterBridges(devices, rank, bus, n, log0, book0, log, book, bars, highest)
        invariant Backed(alloc, book, log, |log0|, Behind(devices, rank, bus, n))
      {
        if devices[n].bus == bus && devices[n].child.Some? {
          ghost var log1, book1 := log, book;
          BridgesPrefix(devices, rank, bus, n + 1);
          var b := GenerateBehind(bus, n, alloc, rank);
          if b.None? {
            PartialLater(log0, Bridges(devices, rank, bus, n), log,
                         Visit(devices, rank, devices[n].child.value) + AtBridge(n), Visit(devices, rank, bus));
            return None;
          }
          BridgeStep(devices, rank, bus, n, log0, book0, log1, book1, bars, highest, book);
          BehindStep(devices, rank, bus, n);
          BackedMore(alloc, book1, book, log1, log, |log0|, Behind(devices, rank, bus, n),
                     On(devices, Below(devices, rank, devices[n].child.value)) + {n});
          bars := bars + b.value.0;
          highest := Max(highest, b.value.1);
        }
        n := n + 1;
      }
      BridgesPrefix(devices, rank, bus, n);
      r := Some((bars, highest));
    }

    /** The second pass, over the devices that are not bridges. */
    method GenerateLeaves(bus: u8, before: seq<Bar>, alloc: Alloc, ghost rank: u8 -> nat,
                          ghost log0: seq<Event>, ghost book0: Book) returns (r: Option<seq<Bar>>)
      requires Tree(devices, rank) && AfterLeaves(devices, rank, bus, 0, log0, book0, log, book, before)
      requires Backed(alloc, book, log, |log0|, Finished(devices, rank, bus, 0))
      modifies this
      ensures Partial(log0, log, Visit(devices, rank, bus))
      ensures r.Some? ==>
        && AfterLeaves(devices, rank, bus, |devices|, log0, book0, log, book, r.value)
        && Backed(alloc, book, log, |log0|, Finished(devices, rank, bus, |devices|))
    {
      var bars := before;
      var n := 0;
      while n < |devices|
        invariant 0 <= n <= |devices|
        invariant AfterLeaves(devices, rank, bus, n, log0, book0, log, book, bars)
        invariant Backed(alloc, book, log, |log0|, Finished(devices, rank, bus, n))
      {
        if devices[n].bus == bus && devices[n].child.None? {
          ghost var log1, book1 := log, book;
          var b := AllocateBars(n, alloc);
          if b.None? {
            LeafPartial(devices, rank, bus, n, log0, log);
            return None;
          }
          LeafStep(devices, rank, bus, n, log0, book0, log1, book1, bars, book);
          LeafAdded(devices, rank, bus, n);
          BackedMore(alloc, book1, book, log1, log, |log0|, Finished(devices, rank, bus, n), {n});
          bars := bars + b.value;
        } else {
          LeafSkip(devices, rank, bus, n, log0, book0, log, book, bars);
          LeafPassed(devices, rank, bus, n);
        }
        n := n + 1;
      }
      r := Some(bars);
    }

    /** `generate_pci_topology` from `bus` down. */
    method Generate(bus: u8, alloc: Alloc, ghost rank: u8 -> nat) returns (r: Option<(seq<Bar>, u8)>)
      requires Tree(devices, rank)
      modifies this
      ensures Partial(old(log), log, Visit(devices, rank, bus))
      ensures r.Some? ==>
        && log == old(log) + Visit(devices, rank, bus)
        && Kept(old(book), book, On(devices, Below(devices, rank, bus)))
        && AllDone(devices, rank, book, On(devices, Below(devices, rank, bus)))
        && r.value.0 == Bars(devices, bus, book)
        && r.value.1 == Highest(devices, rank, bus)
        && Backed(alloc, book, log, |old(log)|, On(devices, Below(devices, rank, bus)))
      decreases rank(bus), 2
    {
      ghost var log0, book0 := log, book;
      var first := GenerateBridges(bus, alloc, rank);
      if first.None? { return None; }
      var (bars, highest) := first.value;
      StartLeaves(devices, rank, bus, log0, book0, log, book, bars, highest);
      var all := GenerateLeaves(bus, bars, alloc, rank, log0, book0);
      if all.None? { return None; }
      Everything(devices, rank, bus);
      r := Some((all.value, highest));
    }
  }

  lemma LeafAdded(d: seq<Device>, rank: u8 -> nat, bus: u8, n: nat)
    requires Tree(d, rank) && n < |d| && LeafOn(d, bus, n)
    ensures Finished(d, rank, bus, n + 1) == Finished(d, rank, bus, n) + {n} && Finished(d, rank, bus, n) !! {n}
  {
    TopLevelClosed(d, rank, bus, n);
  }

  lemma LeafPassed(d: seq<Device>, rank: u8 -> nat, bus: u8, n: nat)
    requires Tree(d, rank) && n < |d| && !LeafOn(d, bus, n)
    ensures Finished(d, rank, bus, n + 1) == Finished(d, rank, bus, n)
  {
  }

  lemma SubordinateKeeps(alloc: Alloc, b: Book, c: Book, log: seq<Event>, from: nat, n: nat)
    requires Backed(alloc, b, log, from, {n}) && n in c.subordinate
    requires c.io == b.io && c.dev == b.dev && c.window == b.window && c.behind == b.behind
    ensures Backed(alloc, c, log, from, {n})
  {
    forall p | from <= p < |log| ensures log[p].i in {n} && BackedAt(alloc, c, log, p) {
      assert BackedAt(alloc, b, log, p);
    }
  }

  lemma PartialSooner(log0: seq<Event>, log: seq<Event>, v: seq<Event>, w: seq<Event>)
    requires Partial(log0, log, v)
    ensures Partial(log0, log, v + w)
  {
  }

  lemma PartialAtBridge(log0: seq<Event>, log: seq<Event>, n: nat)
    requires Partial(log0 + AtBridge(n)[..1], log, AtLeaf(n))
    ensures Partial(log0, log, AtBridge(n))
  {
  }

  lemma LeafPartial(d: seq<Device>, rank: u8 -> nat, bus: u8, n: nat, log0: seq<Event>, log: seq<Event>)
    requires Tree(d, rank) && n < |d| && LeafOn(d, bus, n)
    requires Partial(log0 + (Bridges(d, rank, bus, |d|) + Leaves(d, bus, n)), log, AtLeaf(n))
    ensures Partial(log0, log, Visit(d, rank, bus))
  {
    var b := Bridges(d, rank, bus, |d|);
    LeavesPrefix(d, bus, n + 1);
    Assoc(b, Leaves(d, bus, n), AtLeaf(n));
    assert b + Leaves(d, bus, n + 1) <= b + Leaves(d, bus, |d|);
    PartialLater(log0, b + Leaves(d, bus, n), log, AtLeaf(n), Visit(d, rank, bus));
  }

  lemma StartLeaves(d: seq<Device>, rank: u8 -> nat, bus: u8, log0: seq<Event>, book0: Book,
                    log: seq<Event>, book: Book, bars: seq<Bar>, highest: u8)
    requires Tree(d, rank) && AfterBridges(d, rank, bus, |d|, log0, book0, log, book, bars, highest)
    ensures AfterLeaves(d, rank, bus, 0, log0, book0, log, book, bars)
    ensures Finished(d, rank, bus, 0) == Behind(d, rank, bus, |d|)
  {
  }

  lemma Everything(d: seq<Device>, rank: u8 -> nat, bus: u8)
    requires Tree(d, rank)
    ensures Finished(d, rank, bus, |d|) == On(d, Below(d, rank, bus))
  {
  }
}
