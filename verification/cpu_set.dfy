/** The range-compressing printer of CPU sets and the parser that reads it back. */
module CpuSets {
  import opened Bytes

  type usize = u64
  const MAX: usize := 0xffff_ffff_ffff_ffff

  /** What a serialized sequence holds: plain integers, or strings such as `5-8`. */
  datatype Element = Single(cpu: usize) | Range(text: string)

  // ------------------------------------------------------------ decimal numbers

  function Digit(d: nat): (c: char)
    requires d < 10
    ensures '0' <= c <= '9' && c as int - '0' as int == d
  {
    ('0' as int + d) as char
  }

  function Decimal(n: nat): (s: string)
    ensures |s| > 0
  {
    if n < 10 then [Digit(n)] else Decimal(n / 10) + [Digit(n % 10)]
  }

  /** The value of a string of digits; the empty string counts as zero. */
  function Digits(s: string): Option<nat> {
    if s == "" then Some(0)
    else
      var v, c := Digits(s[..|s| - 1]), s[|s| - 1];
      if v.Some? && '0' <= c <= '9' then Some(10 * v.value + (c as int - '0' as int)) else None
  }

  /** `usize::from_str`: one optional plus sign, at least one digit, and no overflow. */
  function ParseCpu(s: string): Option<usize> {
    var t := if s != "" && s[0] == '+' then s[1..] else s;
    if t == "" then None
    else match Digits(t) {
      case None => None
      case Some(v) => if v <= MAX then Some(v) else None
    }
  }

  function Find(s: string, c: char, i: nat): (k: nat)
    requires i <= |s|
    ensures i <= k <= |s| && (k < |s| ==> s[k] == c) && forall j | i <= j < k :: s[j] != c
    decreases |s| - i
  {
    if i == |s| || s[i] == c then i else Find(s, c, i + 1)
  }

  /** The bounds a range string names, low to high. */
  function ParseCpuRange(s: string): (r: Option<(usize, usize)>)
    ensures r.Some? ==> r.value.0 <= r.value.1
  {
    var k := Find(s, '-', 0);
    if k == |s| then
      var cpu := ParseCpu(s);
      if cpu.None? then None else Some((cpu.value, cpu.value))
    else
      var first, last := ParseCpu(s[..k]), ParseCpu(s[k + 1..]);
      if first.None? || last.None? || last.value < first.value then None else Some((first.value, last.value))
  }

  lemma {:induction false} DecimalDigits(n: nat)
    ensures Digits(Decimal(n)) == Some(n)
    ensures forall i | 0 <= i < |Decimal(n)| :: '0' <= Decimal(n)[i] <= '9'
  {
    var s := Decimal(n);
    if n < 10 {
      assert s[..0] == "";
    } else {
      DecimalDigits(n / 10);
      assert s[..|s| - 1] == Decimal(n / 10) && s[|s| - 1] == Digit(n % 10);
    }
  }

  lemma ParseDecimal(n: usize)
    ensures ParseCpu(Decimal(n)) == Some(n)
  {
    DecimalDigits(n);
    assert '0' <= Decimal(n)[0] <= '9';
  }

  function RangeText(start: usize, end: usize): string {
    Decimal(start) + "-" + Decimal(end)
  }

  /** Decimal digits, the first the most significant. */
  lemma TextExample()
    ensures RangeText(8, 12) == "8-12"
  {
    assert Decimal(8) == "8" && Decimal(12) == Decimal(1) + "2" == "12";
  }

  /** A printed range reads back as its bounds exactly when they are in order. */
  lemma ParseRangeText(start: usize, end: usize)
    ensures ParseCpuRange(RangeText(start, end)) == if start <= end then Some((start, end)) else None
  {
    var a, b := Decimal(start), Decimal(end);
    var s := RangeText(start, end);
    DecimalDigits(start);
    assert s[|a|] == '-' && forall i | 0 <= i < |a| :: s[i] == a[i];
    assert Find(s, '-', 0) == |a|;
    assert s[..|a|] == a && s[|a| + 1..] == b;
    ParseDecimal(start);
    ParseDecimal(end);
  }

  // --------------------------------------------------------------- expansion

  function Interval(first: int, last: int): (r: seq<int>)
    ensures |r| == if first <= last then last - first + 1 else 0
    decreases last - first + 1
  {
    if first <= last then Interval(first, last - 1) + [last] else []
  }

  lemma IntervalOne(c: int)
    ensures Interval(c, c) == [c]
  {
  }

  function ExpandElement(e: Element): Option<seq<int>> {
    match e
    case Single(cpu) => Some([cpu])
    case Range(text) =>
      var r := ParseCpuRange(text);
      if r.None? then None else Some(Interval(r.value.0, r.value.1))
  }

  function Expand(es: seq<Element>): Option<seq<int>> {
    if es == [] then Some([])
    else
      var first, rest := ExpandElement(es[0]), Expand(es[1..]);
      if first.None? || rest.None? then None else Some(first.value + rest.value)
  }

  // --------------------------------------------------------------- compression

  /** `core - 1` where subtraction wraps. */
  function Pred(core: usize): usize {
    if core == 0 then MAX else core - 1
  }

  function Printed(start: usize, end: usize): Element {
    if start == end then Single(start) else Range(RangeText(start, end))
  }

  /** The elements still to come when the current range is `start` to `end`. */
  function Compress(start: usize, end: usize, rest: seq<usize>): seq<Element>
    decreases |rest|
  {
    if rest == [] then [Printed(start, end)]
    else if end == Pred(rest[0]) then Compress(start, rest[0], rest[1..])
    else [Printed(start, end)] + Compress(rest[0], rest[0], rest[1..])
  }

  function Serialized(cpus: seq<usize>): seq<Element> {
    if cpus == [] then [] else Compress(cpus[0], cpus[0], cpus[1..])
  }

  /** The largest index directly followed by zero, which wrapping subtraction takes for a range. */
  predicate Wraps(cpus: seq<usize>) {
    exists i | 0 <= i < |cpus| - 1 :: cpus[i] == MAX && cpus[i + 1] == 0
  }

  predicate ZeroLater(cpus: seq<usize>) {
    exists i | 1 <= i < |cpus| :: cpus[i] == 0
  }

  // --------------------------------------------------------------- losslessness

  lemma PrintedMeaning(start: usize, end: usize)
    ensures ExpandElement(Printed(start, end)) == if start <= end then Some(Interval(start, end)) else None
  {
    if start == end {
      IntervalOne(start);
    } else {
      ParseRangeText(start, end);
    }
  }

  lemma ExpandCons(e: Element, es: seq<Element>)
    ensures Expand([e] + es) ==
      if ExpandElement(e).Some? && Expand(es).Some? then Some(ExpandElement(e).value + Expand(es).value) else None
  {
  }

  lemma {:induction false} CompressExact(start: usize, end: usize, rest: seq<usize>)
    requires start <= end && !Wraps([end] + rest)
    ensures Expand(Compress(start, end, rest)) == Some(Interval(start, end) + rest)
    decreases |rest|
  {
    PrintedMeaning(start, end);
    if rest == [] {
      ExpandCons(Printed(start, end), []);
      assert [Printed(start, end)] + [] == [Printed(start, end)];
    } else {
      var c, more := rest[0], rest[1..];
      NoWrapStep(end, rest);
      assert rest == [c] + more;
      if end == Pred(c) {
        CompressExact(start, c, more);
        Assoc(Interval(start, end), [c], more);
      } else {
        CompressExact(c, c, more);
        ExpandCons(Printed(start, end), Compress(c, c, more));
        IntervalOne(c);
      }
    }
  }

  lemma NoWrapStep(end: usize, rest: seq<usize>)
    requires rest != [] && !Wraps([end] + rest)
    ensures !(end == MAX && rest[0] == 0) && !Wraps([rest[0]] + rest[1..])
  {
    var s := [end] + rest;
    assert s[0] == end && s[1] == rest[0];
    assert [rest[0]] + rest[1..] == rest;
    forall i | 0 <= i < |rest| - 1 ensures !(rest[i] == MAX && rest[i + 1] == 0) {
      assert s[i + 1] == rest[i] && s[i + 2] == rest[i + 1];
    }
  }

  lemma WrapStep(end: usize, rest: seq<usize>)
    requires rest != [] && Wraps([end] + rest)
    ensures (end == MAX && rest[0] == 0) || Wraps([rest[0]] + rest[1..])
  {
    var s := [end] + rest;
    var i :| 0 <= i < |s| - 1 && s[i] == MAX && s[i + 1] == 0;
    assert [rest[0]] + rest[1..] == rest;
    if i > 0 { assert rest[i - 1] == MAX && rest[i] == 0; }
  }

  /** No element stands for more CPUs than were merged into it; one that wrapped stands for fewer. */
  lemma {:induction false} CompressShrinks(start: usize, end: usize, merged: nat, rest: seq<usize>)
    requires merged >= 1 && merged >= end - start + 1
    ensures var r := Expand(Compress(start, end, rest));
      r.None? || (|r.value| <= merged + |rest|
                  && (merged > end - start + 1 || Wraps([end] + rest) ==> |r.value| < merged + |rest|))
    decreases |rest|
  {
    PrintedMeaning(start, end);
    if rest == [] {
      ExpandCons(Printed(start, end), []);
      assert [Printed(start, end)] + [] == [Printed(start, end)];
    } else {
      var c, more := rest[0], rest[1..];
      if Wraps([end] + rest) { WrapStep(end, rest); }
      if end == Pred(c) {
        CompressShrinks(start, c, merged + 1, more);
      } else {
        CompressShrinks(c, c, 1, more);
        ExpandCons(Printed(start, end), Compress(c, c, more));
      }
    }
  }

  /** Reading back what was written gives the same CPUs, order and duplicates kept, exactly if nothing wraps. */
  lemma Lossless(cpus: seq<usize>)
    ensures Expand(Serialized(cpus)) == Some(cpus) <==> !Wraps(cpus)
  {
    if cpus != [] {
      var c, rest := cpus[0], cpus[1..];
      assert cpus == [c] + rest;
      if Wraps(cpus) {
        CompressShrinks(c, c, 1, rest);
      } else {
        CompressExact(c, c, rest);
        IntervalOne(c);
      }
    }
  }

  /** Without a later zero, as overflow checks demand, every sequence reads back. */
  lemma LosslessChecked(cpus: seq<usize>)
    requires !ZeroLater(cpus)
    ensures Expand(Serialized(cpus)) == Some(cpus)
  {
    Lossless(cpus);
  }

  // --------------------------------------------------------------- shortest form

  /** How often the next CPU is not the one after. */
  function Breaks(s: seq<int>): nat {
    if |s| <= 1 then 0 else (if s[1] == s[0] + 1 then 0 else 1) + Breaks(s[1..])
  }

  lemma {:induction false} BreaksJoin(a: seq<int>, b: seq<int>)
    requires a != [] && b != []
    ensures Breaks(a + b) == Breaks(a) + Breaks(b) + (if b[0] == a[|a| - 1] + 1 then 0 else 1)
    decreases |a|
  {
    if |a| == 1 {
      assert (a + b)[1..] == b;
    } else {
      assert (a + b)[1..] == a[1..] + b;
      BreaksJoin(a[1..], b);
    }
  }

  lemma {:induction false} IntervalBreaks(first: int, last: int)
    requires first <= last
    ensures Breaks(Interval(first, last)) == 0 && Interval(first, last)[|Interval(first, last)| - 1] == last
    decreases last - first
  {
    if first < last {
      IntervalBreaks(first, last - 1);
      BreaksJoin(Interval(first, last - 1), [last]);
    } else {
      IntervalOne(first);
    }
  }

  lemma ElementBreaks(e: Element)
    requires ExpandElement(e).Some?
    ensures ExpandElement(e).value != [] && Breaks(ExpandElement(e).value) == 0
  {
    if e.Range? {
      var r := ParseCpuRange(e.text).value;
      IntervalBreaks(r.0, r.1);
    }
  }

  /** Every element stands for CPUs without a break. */
  lemma {:induction false} ExpandBreaks(es: seq<Element>)
    requires Expand(es).Some? && Expand(es).value != []
    ensures Breaks(Expand(es).value) < |es|
  {
    ElementBreaks(es[0]);
    var first, rest := ExpandElement(es[0]).value, Expand(es[1..]).value;
    if rest == [] {
      assert first + rest == first;
    } else {
      ExpandBreaks(es[1..]);
      BreaksJoin(first, rest);
    }
  }

  lemma {:induction false} CompressLength(start: usize, end: usize, rest: seq<usize>)
    requires !Wraps([end] + rest)
    ensures |Compress(start, end, rest)| == 1 + Breaks([end] + rest)
    decreases |rest|
  {
    if rest != [] {
      var c := rest[0];
      NoWrapStep(end, rest);
      assert ([end] + rest)[1..] == rest == [c] + rest[1..];
      CompressLength(if end == Pred(c) then start else c, c, rest[1..]);
    }
  }

  /** Nothing shorter reads back as the same CPUs. */
  lemma Shortest(cpus: seq<usize>, es: seq<Element>)
    requires !Wraps(cpus) && Expand(es) == Some(cpus)
    ensures |Serialized(cpus)| <= |es|
  {
    if cpus != [] {
      assert cpus == [cpus[0]] + cpus[1..];
      CompressLength(cpus[0], cpus[0], cpus[1..]);
      ExpandBreaks(es);
    }
  }

  /** A range that is printed spans more than one CPU. */
  lemma {:induction false} RangesAreLong(start: usize, end: usize, rest: seq<usize>, k: nat)
    requires start <= end && !Wraps([end] + rest) && k < |Compress(start, end, rest)|
    ensures var e := Compress(start, end, rest)[k];
      e.Range? ==> ParseCpuRange(e.text).Some? && ParseCpuRange(e.text).value.0 < ParseCpuRange(e.text).value.1
    decreases |rest|
  {
    if start < end { ParseRangeText(start, end); }
    if rest != [] {
      var c := rest[0];
      NoWrapStep(end, rest);
      if end == Pred(c) {
        RangesAreLong(start, c, rest[1..], k);
      } else if k > 0 {
        RangesAreLong(c, c, rest[1..], k - 1);
      }
    }
  }

  /** The smallest sequence that does not read back once subtraction wraps. */
  lemma WrapLoses()
    ensures Expand(Serialized([MAX, 0])) == None
  {
    assert [MAX, 0][1..] == [0];
    assert [0][1..] == [];
    assert Serialized([MAX, 0]) == [Printed(MAX, 0)] + [];
    PrintedMeaning(MAX, 0);
    ExpandCons(Printed(MAX, 0), []);
  }

  // --------------------------------------------------------------- the loops

  /** With overflow checks, `None` stands for the panic of `0 - 1`. */
  method Serialize(cpus: seq<usize>, checked: bool) returns (out: Option<seq<Element>>)
    ensures out.None? <==> checked && ZeroLater(cpus)
    ensures out.Some? ==> out.value == Serialized(cpus)
  {
    var es: seq<Element> := [];
    var range: Option<(usize, usize)> := None;
    var i := 0;
    while i < |cpus|
      invariant 0 <= i <= |cpus|
      invariant range.None? <==> i == 0
      invariant checked ==> forall j | 1 <= j < i :: cpus[j] != 0
      invariant i == 0 ==> es == []
      invariant range.Some? ==>
        es + Compress(range.value.0, range.value.1, cpus[i..]) == Serialized(cpus)
    {
      var core := cpus[i];
      assert cpus[i..][0] == core && cpus[i..][1..] == cpus[i + 1..];
      match range {
        case None =>
          range := Some((core, core));
          assert [] + Compress(core, core, cpus[1..]) == Serialized(cpus);
        case Some((start, end)) =>
          if checked && core == 0 { return None; }
          if end == Pred(core) {
            range := Some((start, core));
          } else {
            Assoc(es, [Printed(start, end)], Compress(core, core, cpus[i + 1..]));
            es := es + [Printed(start, end)];
            range := Some((core, core));
          }
      }
      i := i + 1;
    }
    if range.Some? {
      es := es + [Printed(range.value.0, range.value.1)];
    }
    out := Some(es);
  }

  /** `visit_seq`: the sequence the elements name, or the first error. */
  method Deserialize(es: seq<Element>) returns (cpus: Option<seq<int>>)
    ensures cpus == Expand(es)
  {
    var out: seq<int> := [];
    var i := 0;
    assert es[0..] == es;
    assert Expand(es).Some? ==> [] + Expand(es).value == Expand(es).value;
    while i < |es|
      invariant 0 <= i <= |es|
      invariant Expand(es) == match Expand(es[i..]) case None => None case Some(r) => Some(out + r)
    {
      assert es[i..][1..] == es[i + 1..];
      match es[i] {
        case Single(cpu) =>
          ExpandInto(out, [cpu], Expand(es[i + 1..]));
          out := out + [cpu];
        case Range(text) =>
          var r := ParseCpuRange(text);
          if r.None? { return None; }
          ExpandInto(out, Interval(r.value.0, r.value.1), Expand(es[i + 1..]));
          out := out + Interval(r.value.0, r.value.1);
      }
      i := i + 1;
    }
    assert out + [] == out;
    cpus := Some(out);
  }

  lemma ExpandInto(out: seq<int>, part: seq<int>, rest: Option<seq<int>>)
    ensures rest.Some? ==> out + (part + rest.value) == (out + part) + rest.value
  {
  }
}
