/** Assignment of legacy interrupt lines to PCI devices. */
module Intx {
  import opened Bytes

  datatype Pin = IntA | IntB | IntC | IntD

  datatype Preferred = Fixed(pin: Pin, gsi: u32) | Any | NoIrq

  datatype Device = Device(bus: u8, dev: u8, func: u8, preferred: Preferred) {
    /** The pin follows from the function number. */
    function Pin(): Pin {
      match func % 4
      case 0 => IntA
      case 1 => IntB
      case 2 => IntC
      case _ => IntD
    }

    function Key(): Key {
      (bus, dev, Pin())
    }
  }

  type Key = (u8, u8, Pin)

  /** The number drawn when the given ones are taken; any choice that avoids them. */
  type Pool = set<u32> -> Option<u32>

  ghost predicate Fresh(pool: Pool) {
    forall taken :: pool(taken).Some? ==> pool(taken).value !in taken
  }

  /** `taken` is drawn or reserved, `irqs` drawn in order, `lines` one entry a device served. */
  datatype State = State(
    taken: set<u32>,
    irqs: seq<u32>,
    byKey: map<Key, u32>,
    lines: seq<Option<(Pin, u32)>>)

  /** `Exhausted` is the allocator's failure, `Panic` the remainder by zero. */
  datatype Outcome = Going(st: State) | Exhausted | Panic

  function Serve(st: State, d: Device, maxIrqs: nat, pool: Pool): Outcome {
    match d.preferred
    case NoIrq => Going(st.(lines := st.lines + [None]))
    case Fixed(pin, gsi) => Going(st.(taken := st.taken + {gsi}, lines := st.lines + [Some((pin, gsi))]))
    case Any =>
      if d.Key() in st.byKey then Going(st.(lines := st.lines + [Some((d.Pin(), st.byKey[d.Key()]))]))
      else if |st.irqs| < maxIrqs then
        var irq := pool(st.taken);
        if irq.None? then Exhausted else
        Going(State(st.taken + {irq.value}, st.irqs + [irq.value], st.byKey[d.Key() := irq.value],
                    st.lines + [Some((d.Pin(), irq.value))]))
      else if maxIrqs == 0 then Panic
      else if |st.lines| % maxIrqs < |st.irqs| then
        var irq := st.irqs[|st.lines| % maxIrqs];
        Going(st.(byKey := st.byKey[d.Key() := irq], lines := st.lines + [Some((d.Pin(), irq))]))
      else Panic
  }

  /** The first `n` devices served in order. */
  function Assign(devices: seq<Device>, n: nat, maxIrqs: nat, pool: Pool, taken: set<u32>): Outcome
    requires n <= |devices|
  {
    if n == 0 then Going(State(taken, [], map[], []))
    else match Assign(devices, n - 1, maxIrqs, pool, taken)
      case Going(st) => Serve(st, devices[n - 1], maxIrqs, pool)
      case other => other
  }

  // ------------------------------------------------------------ what every step keeps

  ghost predicate Distinct<T>(s: seq<T>) {
    forall i, j | 0 <= i < j < |s| :: s[i] != s[j]
  }

  ghost predicate Injective(m: map<Key, u32>) {
    forall k, l | k in m && l in m && k != l :: m[k] != m[l]
  }

  ghost predicate PoolInv(st: State, maxIrqs: nat, taken: set<u32>) {
    && Distinct(st.irqs) && taken <= st.taken
    && (forall x | x in st.irqs :: x in st.taken && x !in taken)
    && (forall k | k in st.byKey :: st.byKey[k] in st.irqs)
    && |st.irqs| == Min(|st.byKey|, maxIrqs)
    && (|st.byKey| <= maxIrqs ==> Injective(st.byKey))
  }

  /** What device `i` got. */
  ghost predicate Served(st: State, devices: seq<Device>, i: nat)
    requires i < |devices| && i < |st.lines|
  {
    match devices[i].preferred
    case NoIrq => st.lines[i].None?
    case Fixed(pin, gsi) => st.lines[i] == Some((pin, gsi))
    case Any => devices[i].Key() in st.byKey && st.lines[i] == Some((devices[i].Pin(), st.byKey[devices[i].Key()]))
  }

  ghost predicate TableInv(st: State, devices: seq<Device>, n: nat) {
    && n <= |devices| && |st.lines| == n
    && (forall i | 0 <= i < n :: Served(st, devices, i))
    && (forall k | k in st.byKey :: exists i | 0 <= i < n :: devices[i].preferred.Any? && devices[i].Key() == k)
  }

  lemma DrawPool(st: State, key: Key, irq: u32, maxIrqs: nat, taken: set<u32>, lines: seq<Option<(Pin, u32)>>)
    requires PoolInv(st, maxIrqs, taken) && key !in st.byKey && |st.irqs| < maxIrqs && irq !in st.taken
    ensures PoolInv(State(st.taken + {irq}, st.irqs + [irq], st.byKey[key := irq], lines), maxIrqs, taken)
  {
  }

  lemma SharePool(st: State, key: Key, irq: u32, maxIrqs: nat, taken: set<u32>, lines: seq<Option<(Pin, u32)>>)
    requires PoolInv(st, maxIrqs, taken) && key !in st.byKey && |st.irqs| >= maxIrqs && irq in st.irqs
    ensures PoolInv(st.(byKey := st.byKey[key := irq], lines := lines), maxIrqs, taken)
  {
  }

  lemma ServePool(st: State, d: Device, maxIrqs: nat, pool: Pool, taken: set<u32>)
    requires Fresh(pool) && PoolInv(st, maxIrqs, taken)
    ensures Serve(st, d, maxIrqs, pool).Going? ==> PoolInv(Serve(st, d, maxIrqs, pool).st, maxIrqs, taken)
    ensures Serve(st, d, maxIrqs, pool).Panic? <==> maxIrqs == 0 && d.preferred.Any?
    ensures Serve(st, d, maxIrqs, pool).Exhausted? ==> maxIrqs > 0
  {
    var r := Serve(st, d, maxIrqs, pool);
    if d.preferred.Any? {
      assert maxIrqs == 0 ==> st.byKey == map[];
      if d.Key() !in st.byKey && maxIrqs > 0 {
        var i := |st.lines| % maxIrqs;
        if |st.irqs| < maxIrqs {
          if r.Going? { DrawPool(st, d.Key(), pool(st.taken).value, maxIrqs, taken, r.st.lines); }
        } else {
          SharePool(st, d.Key(), st.irqs[i], maxIrqs, taken, r.st.lines);
        }
      }
    }
  }

  lemma ServeTable(st: State, devices: seq<Device>, n: nat, maxIrqs: nat, pool: Pool)
    requires n < |devices| && TableInv(st, devices, n)
    ensures Serve(st, devices[n], maxIrqs, pool).Going? ==>
      TableInv(Serve(st, devices[n], maxIrqs, pool).st, devices, n + 1)
  {
    var r := Serve(st, devices[n], maxIrqs, pool);
    if r.Going? {
      forall i | 0 <= i < n ensures Served(r.st, devices, i) {
        assert Served(st, devices, i);
      }
    }
  }

  predicate WantsAny(devices: seq<Device>, n: nat)
    requires n <= |devices|
  {
    n > 0 && (devices[n - 1].preferred.Any? || WantsAny(devices, n - 1))
  }

  /** The pool stays sound, and the remainder by zero is reached exactly when no line may be drawn for a device that asks. */
  lemma {:induction false} AssignPool(devices: seq<Device>, n: nat, maxIrqs: nat, pool: Pool, taken: set<u32>)
    requires Fresh(pool) && n <= |devices|
    ensures var r := Assign(devices, n, maxIrqs, pool, taken);
      && (r.Going? ==> PoolInv(r.st, maxIrqs, taken))
      && (r.Panic? <==> maxIrqs == 0 && WantsAny(devices, n))
      && (r.Exhausted? ==> maxIrqs > 0)
  {
    if n > 0 {
      AssignPool(devices, n - 1, maxIrqs, pool, taken);
      var r := Assign(devices, n - 1, maxIrqs, pool, taken);
      if r.Going? {
        ServePool(r.st, devices[n - 1], maxIrqs, pool, taken);
      }
    }
  }

  lemma {:induction false} AssignTable(devices: seq<Device>, n: nat, maxIrqs: nat, pool: Pool, taken: set<u32>)
    requires n <= |devices|
    ensures var r := Assign(devices, n, maxIrqs, pool, taken); r.Going? ==> TableInv(r.st, devices, n)
  {
    if n > 0 {
      AssignTable(devices, n - 1, maxIrqs, pool, taken);
      var r := Assign(devices, n - 1, maxIrqs, pool, taken);
      if r.Going? {
        ServeTable(r.st, devices, n - 1, maxIrqs, pool);
      }
    }
  }

  // ---------------------------------------------------------------- the theorem

  /** Sharing over a whole device list: one line a key, never more lines than allowed, none reserved before. */
  lemma Sharing(devices: seq<Device>, maxIrqs: nat, pool: Pool, taken: set<u32>, i: nat, j: nat)
    requires Fresh(pool) && i < |devices| && j < |devices|
    requires devices[i].preferred.Any? && devices[j].preferred.Any?
    requires Assign(devices, |devices|, maxIrqs, pool, taken).Going?
    ensures var st := Assign(devices, |devices|, maxIrqs, pool, taken).st;
      && |st.irqs| <= maxIrqs && |st.lines| == |devices|
      && st.lines[i].Some? && st.lines[i].value.1 in st.irqs && st.lines[i].value.1 !in taken
      && st.lines[j].Some?
      && (devices[i].Key() == devices[j].Key() ==> st.lines[i] == st.lines[j])
      && (devices[i].Key() != devices[j].Key() && |st.byKey| <= maxIrqs ==>
            st.lines[i].value.1 != st.lines[j].value.1)
  {
    AssignPool(devices, |devices|, maxIrqs, pool, taken);
    AssignTable(devices, |devices|, maxIrqs, pool, taken);
    var st := Assign(devices, |devices|, maxIrqs, pool, taken).st;
    assert Served(st, devices, i) && Served(st, devices, j);
  }

  /** What is in use is never given back, nor a number drawn twice; a number drawn was not in use. */
  lemma {:induction false} TakenGrows(devices: seq<Device>, n: nat, m: nat, maxIrqs: nat, pool: Pool, taken: set<u32>)
    requires Fresh(pool) && n <= m <= |devices| && Assign(devices, m, maxIrqs, pool, taken).Going?
    ensures var a := Assign(devices, n, maxIrqs, pool, taken);
            var b := Assign(devices, m, maxIrqs, pool, taken);
            && a.Going? && a.st.taken <= b.st.taken && a.st.irqs <= b.st.irqs
            && (forall q | |a.st.irqs| <= q < |b.st.irqs| :: b.st.irqs[q] !in a.st.taken)
    decreases m - n
  {
    if n < m { TakenGrows(devices, n, m - 1, maxIrqs, pool, taken); }
  }

  /**
   * A line fixed in advance for a device is also drawn for others exactly if it had been drawn before that device
   * was served: no number fixed earlier is ever drawn, but none drawn earlier is refused.
   */
  lemma FixedClash(devices: seq<Device>, maxIrqs: nat, pool: Pool, taken: set<u32>, j: nat)
    requires Fresh(pool) && j < |devices| && devices[j].preferred.Fixed?
    requires Assign(devices, |devices|, maxIrqs, pool, taken).Going?
    ensures var before := Assign(devices, j, maxIrqs, pool, taken);
            && before.Going?
            && (devices[j].preferred.gsi in Assign(devices, |devices|, maxIrqs, pool, taken).st.irqs <==>
                devices[j].preferred.gsi in before.st.irqs)
  {
    var n, gsi := |devices|, devices[j].preferred.gsi;
    TakenGrows(devices, j, n, maxIrqs, pool, taken);
    TakenGrows(devices, j + 1, n, maxIrqs, pool, taken);
    var after := Assign(devices, j + 1, maxIrqs, pool, taken).st;
    NotDrawnLater(after.irqs, Assign(devices, n, maxIrqs, pool, taken).st.irqs, after.taken, gsi);
  }

  lemma NotDrawnLater(irqs: seq<u32>, all: seq<u32>, taken: set<u32>, x: u32)
    requires irqs <= all && x in taken && forall q | |irqs| <= q < |all| :: all[q] !in taken
    ensures x in all <==> x in irqs
  {
  }

  /** The line fixed for device `j` has also been drawn for others. */
  ghost predicate Clashes(devices: seq<Device>, maxIrqs: nat, pool: Pool, taken: set<u32>, j: nat)
    requires j < |devices| && devices[j].preferred.Fixed?
  {
    var r := Assign(devices, |devices|, maxIrqs, pool, taken);
    r.Going? && devices[j].preferred.gsi in r.st.irqs
  }

  /** The first device from `i` on that asks for any line. */
  function FirstAny(devices: seq<Device>, i: nat): (n: nat)
    requires i <= |devices|
    ensures i <= n <= |devices| && (forall k | i <= k < n :: !devices[k].preferred.Any?)
    ensures n < |devices| ==> devices[n].preferred.Any?
    decreases |devices| - i
  {
    if i == |devices| || devices[i].preferred.Any? then i else FirstAny(devices, i + 1)
  }

  predicate FixedBefore(devices: seq<Device>, n: nat, gsi: u32)
    requires n <= |devices|
  {
    exists i | 0 <= i < n :: devices[i].preferred.Fixed? && devices[i].preferred.gsi == gsi
  }

  /**
   * The line of device `j` is safe from being drawn: none may be drawn, none is before it is fixed, or it was
   * reserved, at the outset or for a device, before any is drawn.
   */
  predicate Safe(devices: seq<Device>, maxIrqs: nat, taken: set<u32>, j: nat)
    requires j < |devices| && devices[j].preferred.Fixed?
  {
    var gsi, first := devices[j].preferred.gsi, FirstAny(devices, 0);
    maxIrqs == 0 || j < first || gsi in taken || FixedBefore(devices, first, gsi)
  }

  /** Until a device asks for any line nothing is drawn, and exactly the lines fixed are added to those in use. */
  lemma {:induction false} BeforeAny(devices: seq<Device>, n: nat, maxIrqs: nat, pool: Pool, taken: set<u32>, x: u32)
    requires n <= FirstAny(devices, 0)
    ensures var r := Assign(devices, n, maxIrqs, pool, taken);
      && r.Going? && r.st.irqs == [] && r.st.byKey == map[] && |r.st.lines| == n
      && (x in r.st.taken <==> x in taken || FixedBefore(devices, n, x))
  {
    if n > 0 { BeforeAny(devices, n - 1, maxIrqs, pool, taken, x); }
  }

  /** A line that is safe is never drawn, whatever the pool. */
  lemma SafeHolds(devices: seq<Device>, maxIrqs: nat, pool: Pool, taken: set<u32>, j: nat)
    requires Fresh(pool) && j < |devices| && devices[j].preferred.Fixed? && Safe(devices, maxIrqs, taken, j)
    ensures !Clashes(devices, maxIrqs, pool, taken, j)
  {
    var n, gsi, first := |devices|, devices[j].preferred.gsi, FirstAny(devices, 0);
    if Assign(devices, n, maxIrqs, pool, taken).Going? {
      AssignPool(devices, n, maxIrqs, pool, taken);
      FixedClash(devices, maxIrqs, pool, taken, j);
      if j < first {
        BeforeAny(devices, j, maxIrqs, pool, taken, gsi);
      } else {
        BeforeAny(devices, first, maxIrqs, pool, taken, gsi);
        TakenGrows(devices, first, n, maxIrqs, pool, taken);
      }
    }
  }

  // ------------------------------------------------------ a pool that draws a given line

  const NUMBERS := 0x1_0000_0000

  /** The least number from `n` on that is not in use. */
  function LeastFree(taken: set<u32>, n: nat): (r: Option<u32>)
    requires n <= NUMBERS
    ensures r.Some? ==> r.value !in taken
    ensures r.None? ==> forall x: u32 | n <= x :: x in taken
    decreases NUMBERS - n
  {
    if n == NUMBERS then None else if n !in taken then Some(n) else LeastFree(taken, n + 1)
  }

  lemma {:induction false} AllTaken(taken: set<u32>, n: nat)
    requires n <= NUMBERS && forall x: u32 | n <= x :: x in taken
    ensures |taken| >= NUMBERS - n
    decreases NUMBERS - n
  {
    if n < NUMBERS { AllTaken(taken - {n}, n + 1); }
  }

  /** Draws the given line as soon as it can, and else the least that is free. */
  function Eager(gsi: u32): Pool {
    taken => if gsi !in taken then Some(gsi) else LeastFree(taken, 0)
  }

  lemma EagerDraws(gsi: u32, taken: set<u32>)
    requires |taken| < NUMBERS
    ensures Eager(gsi)(taken).Some?
  {
    if LeastFree(taken, 0).None? { AllTaken(taken, 0); }
  }

  lemma ServeGoes(st: State, d: Device, maxIrqs: nat, gsi: u32, taken: set<u32>)
    requires maxIrqs > 0 && |st.taken| < NUMBERS && PoolInv(st, maxIrqs, taken)
    ensures var r := Serve(st, d, maxIrqs, Eager(gsi)); r.Going? && |r.st.taken| <= |st.taken| + 1
  {
    EagerDraws(gsi, st.taken);
    ServePool(st, d, maxIrqs, Eager(gsi), taken);
  }

  lemma {:induction false} EagerGoes(devices: seq<Device>, n: nat, maxIrqs: nat, gsi: u32, taken: set<u32>)
    requires maxIrqs > 0 && n <= |devices| && |taken| + |devices| < NUMBERS
    ensures var r := Assign(devices, n, maxIrqs, Eager(gsi), taken);
      r.Going? && |r.st.taken| <= |taken| + n && PoolInv(r.st, maxIrqs, taken)
  {
    AssignPool(devices, n, maxIrqs, Eager(gsi), taken);
    if n > 0 {
      EagerGoes(devices, n - 1, maxIrqs, gsi, taken);
      ServeGoes(Assign(devices, n - 1, maxIrqs, Eager(gsi), taken).st, devices[n - 1], maxIrqs, gsi, taken);
    }
  }

  lemma EagerClashes(devices: seq<Device>, maxIrqs: nat, taken: set<u32>, j: nat)
    requires j < |devices| && devices[j].preferred.Fixed? && !Safe(devices, maxIrqs, taken, j)
    requires |taken| + |devices| < NUMBERS
    ensures Clashes(devices, maxIrqs, Eager(devices[j].preferred.gsi), taken, j)
  {
    var n, gsi, first := |devices|, devices[j].preferred.gsi, FirstAny(devices, 0);
    BeforeAny(devices, first, maxIrqs, Eager(gsi), taken, gsi);
    EagerGoes(devices, n, maxIrqs, gsi, taken);
    TakenGrows(devices, first + 1, n, maxIrqs, Eager(gsi), taken);
    assert Assign(devices, first + 1, maxIrqs, Eager(gsi), taken).st.irqs == [] + [gsi] == [gsi];
    assert Assign(devices, n, maxIrqs, Eager(gsi), taken).st.irqs[0] == gsi;
  }

  /**
   * Whatever numbers the pool may draw, a fixed line is drawn for no other device if it is safe, and, as long as
   * the numbers do not run out, only if it is.
   */
  lemma ClashIff(devices: seq<Device>, maxIrqs: nat, taken: set<u32>, j: nat)
    requires j < |devices| && devices[j].preferred.Fixed?
    ensures Safe(devices, maxIrqs, taken, j) ==> forall pool | Fresh(pool) :: !Clashes(devices, maxIrqs, pool, taken, j)
    ensures |taken| + |devices| < NUMBERS ==>
      ((forall pool | Fresh(pool) :: !Clashes(devices, maxIrqs, pool, taken, j)) <==> Safe(devices, maxIrqs, taken, j))
  {
    if Safe(devices, maxIrqs, taken, j) {
      forall pool | Fresh(pool) ensures !Clashes(devices, maxIrqs, pool, taken, j) {
        SafeHolds(devices, maxIrqs, pool, taken, j);
      }
    } else if |taken| + |devices| < NUMBERS {
      EagerClashes(devices, maxIrqs, taken, j);
      assert Fresh(Eager(devices[j].preferred.gsi));
    }
  }

  /** A device that draws line 5 and a later one for which it is fixed share it, though there is room for both. */
  lemma FixedClashes(pool: Pool)
    requires Fresh(pool) && pool({}) == Some(5)
    ensures var devices := [Device(0, 1, 0, Any), Device(0, 2, 0, Fixed(IntA, 5))];
            Assign(devices, 2, 8, pool, {}).Going? &&
            Assign(devices, 2, 8, pool, {}).st.lines == [Some((IntA, 5)), Some((IntA, 5))]
  {
    var devices := [Device(0, 1, 0, Any), Device(0, 2, 0, Fixed(IntA, 5))];
    assert Assign(devices, 0, 8, pool, {}) == Going(State({}, [], map[], []));
    assert Assign(devices, 1, 8, pool, {}).Going?;
  }

  function PinNumber(p: Pin): nat {
    match p case IntA => 0 case IntB => 1 case IntC => 2 case IntD => 3
  }

  /** Device `i` is the first that asks for any line under its key. */
  ghost predicate FirstOfKey(devices: seq<Device>, i: nat) {
    && i < |devices| && devices[i].preferred.Any?
    && forall j | 0 <= j < i && devices[j].preferred.Any? :: devices[j].Key() != devices[i].Key()
  }

  /** A new key gets the line just drawn or, once `maxIrqs` are, the one its device's place in the list falls on. */
  ghost predicate GivenLine(before: State, after: State, d: Device, maxIrqs: nat)
    requires 0 < maxIrqs
  {
    var i := |before.lines|;
    && |before.irqs| <= maxIrqs && before.irqs <= after.irqs && i < |after.lines| && after.lines[i].Some?
    && PinNumber(after.lines[i].value.0) == d.func % 4
    && (if |before.irqs| < maxIrqs then
          |before.irqs| < |after.irqs| && after.lines[i].value.1 == after.irqs[|before.irqs|]
        else after.lines[i].value.1 == before.irqs[i % maxIrqs])
  }

  lemma ServeGives(st: State, d: Device, maxIrqs: nat, pool: Pool)
    requires 0 < maxIrqs && d.preferred.Any? && d.Key() !in st.byKey && |st.irqs| <= maxIrqs
    requires Serve(st, d, maxIrqs, pool).Going?
    ensures GivenLine(st, Serve(st, d, maxIrqs, pool).st, d, maxIrqs)
  {
  }

  lemma GivenStays(before: State, a: State, b: State, d: Device, maxIrqs: nat)
    requires 0 < maxIrqs && GivenLine(before, a, d, maxIrqs) && a.irqs <= b.irqs && a.lines <= b.lines
    ensures GivenLine(before, b, d, maxIrqs)
  {
  }

  lemma KeyIsNew(devices: seq<Device>, st: State, i: nat)
    requires FirstOfKey(devices, i) && TableInv(st, devices, i)
    ensures devices[i].Key() !in st.byKey
  {
  }

  lemma BeforeFirst(devices: seq<Device>, maxIrqs: nat, pool: Pool, taken: set<u32>, i: nat)
    requires Fresh(pool) && FirstOfKey(devices, i) && Assign(devices, |devices|, maxIrqs, pool, taken).Going?
    ensures var r := Assign(devices, i, maxIrqs, pool, taken);
      r.Going? && |r.st.lines| == i && |r.st.irqs| <= maxIrqs && devices[i].Key() !in r.st.byKey
    ensures Assign(devices, i + 1, maxIrqs, pool, taken) ==
            Serve(Assign(devices, i, maxIrqs, pool, taken).st, devices[i], maxIrqs, pool)
  {
    LinesGrow(devices, i, |devices|, maxIrqs, pool, taken);
    AssignPool(devices, i, maxIrqs, pool, taken);
    AssignTable(devices, i, maxIrqs, pool, taken);
    KeyIsNew(devices, Assign(devices, i, maxIrqs, pool, taken).st, i);
  }

  lemma LineGiven(devices: seq<Device>, maxIrqs: nat, pool: Pool, taken: set<u32>, i: nat)
    requires Fresh(pool) && FirstOfKey(devices, i) && maxIrqs > 0
    requires Assign(devices, |devices|, maxIrqs, pool, taken).Going?
    ensures var before, after := Assign(devices, i, maxIrqs, pool, taken), Assign(devices, |devices|, maxIrqs, pool, taken);
      before.Going? && |before.st.lines| == i && GivenLine(before.st, after.st, devices[i], maxIrqs)
  {
    var n := |devices|;
    BeforeFirst(devices, maxIrqs, pool, taken, i);
    LinesGrow(devices, i + 1, n, maxIrqs, pool, taken);
    TakenGrows(devices, i + 1, n, maxIrqs, pool, taken);
    GivenAtEnd(Assign(devices, i, maxIrqs, pool, taken).st, Assign(devices, i + 1, maxIrqs, pool, taken),
               Assign(devices, n, maxIrqs, pool, taken).st, devices[i], maxIrqs, pool);
  }

  lemma GivenAtEnd(st: State, next: Outcome, end: State, d: Device, maxIrqs: nat, pool: Pool)
    requires 0 < maxIrqs && d.preferred.Any? && d.Key() !in st.byKey && |st.irqs| <= maxIrqs
    requires next.Going? && next == Serve(st, d, maxIrqs, pool) && next.st.irqs <= end.irqs && next.st.lines <= end.lines
    ensures GivenLine(st, end, d, maxIrqs)
  {
    ServeGives(st, d, maxIrqs, pool);
    GivenStays(st, next.st, end, d, maxIrqs);
  }

  lemma {:induction false} LinesGrow(devices: seq<Device>, n: nat, m: nat, maxIrqs: nat, pool: Pool, taken: set<u32>)
    requires n <= m <= |devices| && Assign(devices, m, maxIrqs, pool, taken).Going?
    ensures Assign(devices, n, maxIrqs, pool, taken).Going?
    ensures Assign(devices, n, maxIrqs, pool, taken).st.lines <= Assign(devices, m, maxIrqs, pool, taken).st.lines
    decreases m - n
  {
    if n < m { LinesGrow(devices, n, m - 1, maxIrqs, pool, taken); }
  }

  /** Distinct keys all get distinct lines exactly while there are no more keys than lines allowed. */
  lemma NoSharingIff(devices: seq<Device>, maxIrqs: nat, pool: Pool, taken: set<u32>)
    requires Fresh(pool) && Assign(devices, |devices|, maxIrqs, pool, taken).Going?
    ensures var st := Assign(devices, |devices|, maxIrqs, pool, taken).st;
      && (forall k :: k in st.byKey <==> exists i | 0 <= i < |devices| :: devices[i].preferred.Any? && devices[i].Key() == k)
      && (Injective(st.byKey) <==> |st.byKey| <= maxIrqs)
  {
    AssignPool(devices, |devices|, maxIrqs, pool, taken);
    AssignTable(devices, |devices|, maxIrqs, pool, taken);
    var st := Assign(devices, |devices|, maxIrqs, pool, taken).st;
    forall i | 0 <= i < |devices| && devices[i].preferred.Any? ensures devices[i].Key() in st.byKey {
      assert Served(st, devices, i);
    }
    if Injective(st.byKey) { Pigeonhole(st.byKey, st.irqs); }
  }

  /** An injective map needs as many values as keys. */
  lemma {:induction false} Pigeonhole(m: map<Key, u32>, values: seq<u32>)
    requires Injective(m) && forall k | k in m :: m[k] in values
    ensures |m| <= |values|
    decreases |m|
  {
    if m != map[] {
      var k :| k in m;
      assert m[k] in values;
      var i :| 0 <= i < |values| && values[i] == m[k];
      var less, rest := m - {k}, values[..i] + values[i + 1..];
      forall l | l in less ensures less[l] in rest {
        Kept(values, i, m[l]);
      }
      assert |m| == |less| + 1 by { assert m == less[k := m[k]]; }
      Pigeonhole(less, rest);
    }
  }

  lemma Kept(values: seq<u32>, i: nat, x: u32)
    requires i < |values| && x in values && x != values[i]
    ensures x in values[..i] + values[i + 1..]
  {
  }

  // ---------------------------------------------------------------- the loop

  /** The interrupt part of `generate_pci_root`. */
  method AssignIrqs(devices: seq<Device>, maxIrqs: nat, pool: Pool, taken: set<u32>) returns (r: Outcome)
    requires Fresh(pool)
    ensures r == Assign(devices, |devices|, maxIrqs, pool, taken)
  {
    var used := taken;
    var irqs: seq<u32> := [];
    var byKey: map<Key, u32> := map[];
    var lines: seq<Option<(Pin, u32)>> := [];
    var idx := 0;
    while idx < |devices|
      invariant 0 <= idx <= |devices| && |lines| == idx
      invariant Assign(devices, idx, maxIrqs, pool, taken) == Going(State(used, irqs, byKey, lines))
    {
      InRange(devices, idx, maxIrqs, pool, taken);
      var d := devices[idx];
      match d.preferred {
        case Fixed(pin, gsi) =>
          used := used + {gsi};
          lines := lines + [Some((pin, gsi))];
        case Any =>
          var irq: u32;
          if d.Key() in byKey {
            irq := byKey[d.Key()];
          } else {
            if |irqs| < maxIrqs {
              var drawn := pool(used);
              if drawn.None? {
                Stuck(devices, idx + 1, maxIrqs, pool, taken);
                return Exhausted;
              }
              irq := drawn.value;
              used := used + {irq};
              irqs := irqs + [irq];
            } else {
              if maxIrqs == 0 {
                Stuck(devices, idx + 1, maxIrqs, pool, taken);
                return Panic;
              }
              irq := irqs[idx % maxIrqs];
            }
            byKey := byKey[d.Key() := irq];
          }
          lines := lines + [Some((d.Pin(), irq))];
        case NoIrq =>
          lines := lines + [None];
      }
      idx := idx + 1;
    }
    r := Going(State(used, irqs, byKey, lines));
  }

  lemma InRange(devices: seq<Device>, n: nat, maxIrqs: nat, pool: Pool, taken: set<u32>)
    requires Fresh(pool) && n <= |devices|
    ensures var r := Assign(devices, n, maxIrqs, pool, taken); r.Going? ==> |r.st.irqs| <= maxIrqs
  {
  }

  lemma {:induction false} Stuck(devices: seq<Device>, n: nat, maxIrqs: nat, pool: Pool, taken: set<u32>)
    requires n <= |devices| && !Assign(devices, n, maxIrqs, pool, taken).Going?
    ensures Assign(devices, |devices|, maxIrqs, pool, taken) == Assign(devices, n, maxIrqs, pool, taken)
    decreases |devices| - n
  {
    if n < |devices| { Stuck(devices, n + 1, maxIrqs, pool, taken); }
  }
}
