/** The backup schedule of internal/services/backup_schedule.go: cron fields, the search for the
    next firing minute, and the scheduler loop. Instants are nanoseconds since Go's zero time. */
module CronSchedule {
  import opened Text
  import opened Calendar
  import opened Arith

  // ---------- Fields ----------

  datatype Atom = Skipped | Progression(lo: int, hi: int, step: int) | Bad
  datatype FieldResult = Parsed(values: set<int>) | Malformed | Panics

  /** "lo", "lo-hi" or "*", each with an optional "/step". */
  function ParseRange(body: string, step: int, min: int, max: int): Atom {
    var dash := IndexOf(body, '-');
    var lo := if body == "*" then Some(min) else Atoi(body[..dash]);
    var hi := if body == "*" then Some(max) else if dash < |body| then Atoi(body[dash + 1..]) else lo;
    if lo.None? || hi.None? || lo.value < min || hi.value > max || lo.value > hi.value then Bad
    else Progression(lo.value, hi.value, step)
  }

  function ParseAtom(text: string, min: int, max: int): (a: Atom)
    ensures a.Progression? ==> min <= a.lo <= a.hi <= max && 1 <= a.step <= MAX_INT
  {
    var atom := TrimSpace(text);
    if atom == "" then Skipped else
      var slash := IndexOf(atom, '/');
      if slash == |atom| then ParseRange(atom, 1, min, max)
      else
        var step := Atoi(atom[slash + 1..]);
        if step.None? || step.value < 1 then Bad else ParseRange(atom[..slash], step.value, min, max)
  }

  predicate Covers(a: Atom, i: int) { a.Progression? && a.step >= 1 && a.lo <= i <= a.hi && (i - a.lo) % a.step == 0 }

  /** `i += step` wraps past the largest int: the loop goes on with a negative `i`, and Go panics
      on the negative shift. */
  predicate Wraps(a: Atom) { a.Progression? && a.lo + a.step > MAX_INT }

  predicate Between(min: int, i: int, max: int) { min <= i <= max }

  function AllOf(min: int, max: int): set<int> { set i | min <= i <= max && Between(min, i, max) }

  /** The first position that is set, or the length. */
  function FirstTrue(flags: seq<bool>): (k: nat)
    ensures k <= |flags| && (k < |flags| ==> flags[k]) && forall j :: 0 <= j < k ==> !flags[j]
  {
    if flags == [] || flags[0] then 0 else 1 + FirstTrue(flags[1..])
  }

  predicate Stops(a: Atom) { a.Bad? || Wraps(a) }

  /** The first atom that stops the parse. */
  function FirstStop(atoms: seq<string>, min: int, max: int): (k: nat)
    ensures k <= |atoms|
    ensures forall j :: 0 <= j < k ==> !Stops(ParseAtom(atoms[j], min, max))
    ensures k < |atoms| ==> Stops(ParseAtom(atoms[k], min, max))
  {
    var flags := seq(|atoms|, i requires 0 <= i < |atoms| => Stops(ParseAtom(atoms[i], min, max)));
    assert forall j :: 0 <= j < |atoms| ==> flags[j] == Stops(ParseAtom(atoms[j], min, max));
    FirstTrue(flags)
  }

  ghost function UnionOf(atoms: seq<string>, min: int, max: int): set<int> {
    set i | min <= i <= max && Between(min, i, max) && exists k :: 0 <= k < |atoms| && Covers(ParseAtom(atoms[k], min, max), i)
  }

  /** What a field denotes: the union of its atoms' progressions, if that is not empty. */
  ghost function FieldMeaning(spec: string, min: int, max: int): FieldResult {
    if spec == "*" then Parsed(AllOf(min, max)) else
      var atoms := Split(spec, ',');
      var k := FirstStop(atoms, min, max);
      if k < |atoms| then (if ParseAtom(atoms[k], min, max).Bad? then Malformed else Panics)
      else if UnionOf(atoms, min, max) == {} then Malformed
      else Parsed(UnionOf(atoms, min, max))
  }

  lemma NextCovered(a: Atom, i: int)
    requires a.Progression? && a.step >= 1 && a.lo <= i && (i - a.lo) % a.step == 0
    ensures (i + a.step - a.lo) % a.step == 0
    ensures forall j :: i < j < i + a.step ==> !Covers(a, j)
  {
    var q := (i - a.lo) / a.step;
    assert i + a.step - a.lo == (q + 1) * a.step;
    DivUnique(i + a.step - a.lo, q + 1, 0, a.step);
    forall j | i < j < i + a.step ensures !Covers(a, j) {
      DivUnique(j - a.lo, q, j - i, a.step);
    }
  }

  ghost function CoveredBelow(a: Atom, bound: int): set<int>
    requires a.Progression?
  {
    set j | a.lo <= j <= a.hi && Covers(a, j) && j < bound
  }

  predicate OnGrid(a: Atom, i: int) { a.Progression? && a.step >= 1 && a.lo <= i && (i - a.lo) % a.step == 0 }

  lemma GridStart(a: Atom)
    requires a.Progression? && 1 <= a.step
    ensures OnGrid(a, a.lo) && CoveredBelow(a, a.lo) == {}
  {
    DivUnique(0, 0, 0, a.step);
  }

  lemma CoveredGrows(a: Atom, i: int, next: int)
    requires OnGrid(a, i) && i <= a.hi && next == i + a.step
    ensures CoveredBelow(a, next) == CoveredBelow(a, i) + {i} && OnGrid(a, next)
  {
    NextCovered(a, i);
    assert Covers(a, i);
    assert forall j :: Covers(a, j) && j < next ==> j <= i;
  }

  lemma CoveredAll(a: Atom, i: int)
    requires a.Progression? && i > a.hi
    ensures CoveredBelow(a, i) == CoveredBelow(a, a.hi + 1)
  {}

  /** `for i := lo; i <= hi; i += step`, with the wrap-around of a 64-bit `i`. */
  method AddProgression(out: set<int>, a: Atom) returns (r: set<int>, panics: bool)
    requires a.Progression? && 0 <= a.lo <= a.hi < 64 && 1 <= a.step <= MAX_INT
    ensures panics == Wraps(a)
    ensures !panics ==> r == out + CoveredBelow(a, a.hi + 1)
  {
    hide OnGrid, Covers, CoveredBelow;
    r := out;
    var i := a.lo;
    GridStart(a);
    while i <= a.hi
      invariant OnGrid(a, i) && (i == a.lo || (a.lo + a.step <= i && !Wraps(a)))
      invariant r == out + CoveredBelow(a, i)
      decreases a.hi - i
    {
      CoveredGrows(a, i, i + a.step);
      r := r + {i};
      if i + a.step > MAX_INT { return r, true; }
      i := i + a.step;
    }
    CoveredAll(a, i);
    return r, false;
  }

  method ParseField(spec: string, min: int, max: int) returns (r: FieldResult)
    requires 0 <= min <= max < 64
    ensures r == FieldMeaning(spec, min, max)
  {
    hide ParseAtom, Split, Covers, CoveredBelow;
    if spec == "*" {
      return Parsed(AllOf(min, max));
    }
    var out: set<int> := {};
    var atoms := Split(spec, ',');
    for k := 0 to |atoms|
      invariant k <= FirstStop(atoms, min, max)
      invariant out == UnionOf(atoms[..k], min, max)
    {
      var a := ParseAtom(atoms[k], min, max);
      StopReached(atoms, k, min, max);
      if a.Bad? { return Malformed; }
      UnionSnoc(atoms[..k], atoms[k], min, max);
      assert atoms[..k + 1] == atoms[..k] + [atoms[k]];
      if a.Skipped? { continue; }
      var panics;
      out, panics := AddProgression(out, a);
      if panics { return Panics; }
    }
    assert atoms[..|atoms|] == atoms;
    if out == {} { return Malformed; }
    return Parsed(out);
  }

  lemma {:induction false} StopReached(atoms: seq<string>, k: nat, min: int, max: int)
    requires k < |atoms| && k <= FirstStop(atoms, min, max)
    ensures FirstStop(atoms, min, max) == k <==> Stops(ParseAtom(atoms[k], min, max))
  {}

  lemma UnionSnoc(atoms: seq<string>, last: string, min: int, max: int)
    ensures var a := ParseAtom(last, min, max);
            UnionOf(atoms + [last], min, max) == UnionOf(atoms, min, max) + if a.Progression? then CoveredBelow(a, a.hi + 1) else {}
  {
    var all := atoms + [last];
    forall i | i in UnionOf(atoms, min, max) ensures i in UnionOf(all, min, max) {
      var k :| 0 <= k < |atoms| && Covers(ParseAtom(atoms[k], min, max), i);
      assert all[k] == atoms[k];
    }
    forall i | min <= i <= max && Covers(ParseAtom(last, min, max), i) ensures i in UnionOf(all, min, max) {
      assert all[|atoms|] == last;
    }
    forall i | i in UnionOf(all, min, max)
      ensures i in UnionOf(atoms, min, max) || Covers(ParseAtom(last, min, max), i)
    {
      var k :| 0 <= k < |all| && Covers(ParseAtom(all[k], min, max), i);
      if k < |atoms| { assert all[k] == atoms[k]; }
    }
  }

  /** Atom k wraps and no atom before it is bad. */
  predicate WrapsAt(atoms: seq<string>, min: int, max: int, k: nat)
    requires k < |atoms|
  {
    Wraps(ParseAtom(atoms[k], min, max)) && forall j :: 0 <= j < k ==> !ParseAtom(atoms[j], min, max).Bad?
  }

  lemma FirstStopWraps(atoms: seq<string>, min: int, max: int)
    ensures var n := FirstStop(atoms, min, max);
            (n < |atoms| && !ParseAtom(atoms[n], min, max).Bad?) <==> exists k :: 0 <= k < |atoms| && WrapsAt(atoms, min, max, k)
  {
    hide ParseAtom;
    var n := FirstStop(atoms, min, max);
    if n < |atoms| && !ParseAtom(atoms[n], min, max).Bad? {
      assert WrapsAt(atoms, min, max, n);
    }
    if k :| 0 <= k < |atoms| && WrapsAt(atoms, min, max, k) {
      assert n <= k;
    }
  }

  /** A field makes the parser panic exactly when an atom's step takes its own start past the largest
      int, and no atom before it is malformed. */
  lemma ParseFieldPanicsIff(spec: string, min: int, max: int)
    ensures FieldMeaning(spec, min, max).Panics? <==>
            spec != "*" && exists k :: 0 <= k < |Split(spec, ',')| && WrapsAt(Split(spec, ','), min, max, k)
  {
    hide ParseAtom, Split, UnionOf, WrapsAt;
    var n := FirstStop(Split(spec, ','), min, max);
    assert spec != "*" ==> (FieldMeaning(spec, min, max).Panics? <==> n < |Split(spec, ',')| && !ParseAtom(Split(spec, ',')[n], min, max).Bad?);
    FirstStopWraps(Split(spec, ','), min, max);
  }

  lemma AtoiDec(n: nat)
    requires n <= MAX_INT
    ensures Atoi(Dec(n)) == Some(n)
  {
    DecValue(n);
    assert IsDigit(Dec(n)[0]);
  }

  /** What an atom spans, as an operator writes it. */
  datatype Span = Star | One(lo: nat) | Range(lo: nat, hi: nat) {
    predicate Small() { (One? ==> lo <= MAX_INT) && (Range? ==> lo <= MAX_INT && hi <= MAX_INT) }
    function Low(min: int): int { if Star? then min else lo }
    function High(max: int): int { if Star? then max else if One? then lo else hi }
  }

  datatype AtomText = AtomText(span: Span, step: Option<nat>)

  function PrintSpan(t: Span): string {
    match t
    case Star => "*"
    case One(lo) => Dec(lo)
    case Range(lo, hi) => Dec(lo) + ['-'] + Dec(hi)
  }

  function PrintAtom(a: AtomText): string {
    if a.step.None? then PrintSpan(a.span) else PrintSpan(a.span) + ['/'] + Dec(a.step.value)
  }

  predicate Plain(s: string) { s != "" && forall c :: c in s ==> IsDigit(c) || c == '-' || c == '*' || c == '/' }

  lemma SpanPlain(t: Span)
    ensures Plain(PrintSpan(t)) && '/' !in PrintSpan(t)
  {}

  lemma PlainWord(s: string)
    requires Plain(s)
    ensures TrimSpace(s) == s && Split(s, ',') == [s] && ',' !in s
  {
    hide TrimSpace, Split;
    forall c | c in s ensures !IsSpace(c) && c != ',' {}
    NothingTrimmed(s);
    SplitWhole(s, ',');
  }

  lemma DecPlain(n: nat)
    ensures IndexOf(Dec(n), '-') == |Dec(n)| && Dec(n)[..|Dec(n)|] == Dec(n) && '-' !in Dec(n) && |Dec(n)| >= 1 && Dec(n)[0] != '*'
  {
    IndexOfAbsent(Dec(n), '-');
    assert IsDigit(Dec(n)[0]);
  }

  lemma RangeText(a: string, b: string)
    requires '-' !in a && |a| >= 1 && a[0] != '*'
    ensures var s := a + ['-'] + b; s != "*" && IndexOf(s, '-') == |a| < |s| && s[..|a|] == a && s[|a| + 1..] == b
  {
    IndexOfFirst(a, '-', b);
  }

  lemma SpanMeans(t: Span, step: int, min: int, max: int)
    requires t.Small()
    ensures ParseRange(PrintSpan(t), step, min, max) ==
            if min <= t.Low(min) <= t.High(max) <= max then Progression(t.Low(min), t.High(max), step) else Bad
  {
    hide Atoi, IndexOf, Dec;
    if !t.Star? {
      AtoiDec(t.lo);
      DecPlain(t.lo);
    }
    if t.Range? {
      AtoiDec(t.hi);
      RangeText(Dec(t.lo), Dec(t.hi));
    }
  }

  lemma StepText(a: string, b: string)
    requires '/' !in a
    ensures var s := a + ['/'] + b; IndexOf(s, '/') == |a| < |s| && s[..|a|] == a && s[|a| + 1..] == b
  {
    IndexOfFirst(a, '/', b);
  }

  /** "*", "lo" and "lo-hi", each with or without "/step", mean the progressions they name; a step of 0 and a span
      that is empty or leaves the field's range are malformed. */
  lemma AtomMeans(a: AtomText, min: int, max: int)
    requires a.span.Small() && (a.step.Some? ==> a.step.value <= MAX_INT)
    ensures Plain(PrintAtom(a))
    ensures ParseAtom(PrintAtom(a), min, max) ==
            var lo, hi := a.span.Low(min), a.span.High(max);
            if a.step == Some(0) || !(min <= lo <= hi <= max) then Bad else Progression(lo, hi, if a.step.Some? then a.step.value else 1)
  {
    hide TrimSpace, Atoi, IndexOf, Dec, ParseRange, PrintSpan;
    var body := PrintSpan(a.span);
    SpanPlain(a.span);
    PlainWord(PrintAtom(a));
    if a.step.None? {
      IndexOfAbsent(body, '/');
      SpanMeans(a.span, 1, min, max);
    } else {
      StepText(body, Dec(a.step.value));
      AtoiDec(a.step.value);
      SpanMeans(a.span, a.step.value, min, max);
    }
  }

  /** The atom is well formed for the field and its step does not wrap. */
  predicate Proper(a: AtomText, min: int, max: int) {
    && a.span.Small() && min <= a.span.Low(min) <= a.span.High(max) <= max
    && (a.step.Some? ==> 1 <= a.step.value && a.span.Low(min) + a.step.value <= MAX_INT)
  }

  /** The value is on the progression that the atom names. */
  predicate Hits(a: AtomText, min: int, max: int, v: int) {
    a.span.Low(min) <= v <= a.span.High(max) && (a.step.Some? && a.step.value >= 1 ==> (v - a.span.Low(min)) % a.step.value == 0)
  }

  function PrintAtoms(atoms: seq<AtomText>): seq<string> { seq(|atoms|, i requires 0 <= i < |atoms| => PrintAtom(atoms[i])) }

  lemma AtomHits(a: AtomText, min: int, max: int)
    requires 0 <= min <= max < 64 && Proper(a, min, max)
    ensures var p := ParseAtom(PrintAtom(a), min, max);
            !Stops(p) && Plain(PrintAtom(a)) && forall v :: Covers(p, v) <==> Hits(a, min, max, v)
  {
    hide ParseAtom, PrintAtom;
    AtomMeans(a, min, max);
    forall v: int ensures v % 1 == 0 {}
  }

  /** A field written as atoms with commas between them parses to exactly the values that some atom hits. */
  lemma FieldMeans(atoms: seq<AtomText>, min: int, max: int)
    requires 0 <= min <= max < 64 && atoms != [] && forall i :: 0 <= i < |atoms| ==> Proper(atoms[i], min, max)
    ensures var r := FieldMeaning(Joined(PrintAtoms(atoms), ','), min, max);
            r.Parsed? && forall v :: v in r.values <==> exists i :: 0 <= i < |atoms| && Hits(atoms[i], min, max, v)
  {
    hide ParseAtom, PrintAtom, Split, Joined, Covers, Stops, Hits;
    var texts := PrintAtoms(atoms);
    var spec := Joined(texts, ',');
    forall i | 0 <= i < |atoms|
      ensures !Stops(ParseAtom(texts[i], min, max)) && ',' !in texts[i]
      ensures forall v :: Covers(ParseAtom(texts[i], min, max), v) <==> Hits(atoms[i], min, max, v)
    {
      AtomHits(atoms[i], min, max);
      PlainWord(texts[i]);
    }
    SplitJoined(texts, ',');
    HitsSomething(atoms[0], min, max);
    AtomsUnion(atoms, texts, min, max);
    if spec == "*" { StarHitsAll(atoms, texts, spec, min, max); }
  }

  lemma HitsSomething(a: AtomText, min: int, max: int)
    requires Proper(a, min, max)
    ensures Hits(a, min, max, a.span.Low(min))
  {
    if a.step.Some? { DivUnique(0, 0, 0, a.step.value); }
  }

  lemma HitsInRange(a: AtomText, min: int, max: int, v: int)
    requires Proper(a, min, max) && Hits(a, min, max, v)
    ensures Between(min, v, max)
  {}

  lemma AtomsUnion(atoms: seq<AtomText>, texts: seq<string>, min: int, max: int)
    requires |atoms| == |texts| > 0 && forall i :: 0 <= i < |atoms| ==> Proper(atoms[i], min, max)
    requires forall i, v :: 0 <= i < |atoms| ==> (Covers(ParseAtom(texts[i], min, max), v) <==> Hits(atoms[i], min, max, v))
    ensures forall v :: v in UnionOf(texts, min, max) <==> exists i :: 0 <= i < |atoms| && Hits(atoms[i], min, max, v)
    ensures UnionOf(texts, min, max) != {}
  {
    hide ParseAtom, Covers, Hits, Proper;
    forall v ensures v in UnionOf(texts, min, max) <==> exists i :: 0 <= i < |atoms| && Hits(atoms[i], min, max, v) {
      if i :| 0 <= i < |atoms| && Hits(atoms[i], min, max, v) {
        HitsInRange(atoms[i], min, max, v);
        assert Covers(ParseAtom(texts[i], min, max), v);
      }
    }
    HitsSomething(atoms[0], min, max);
    assert atoms[0].span.Low(min) in UnionOf(texts, min, max);
  }

  /** The only field that prints as a lone star is the star. */
  lemma StarHitsAll(atoms: seq<AtomText>, texts: seq<string>, spec: string, min: int, max: int)
    requires atoms != [] && texts == PrintAtoms(atoms) && spec == "*" && Split(spec, ',') == texts && min <= max
    ensures forall v :: v in AllOf(min, max) <==> exists i :: 0 <= i < |atoms| && Hits(atoms[i], min, max, v)
  {
    SplitWhole("*", ',');
    assert texts == ["*"] && texts[0] == PrintAtom(atoms[0]);
    LoneStar(atoms[0]);
    forall v ensures v in AllOf(min, max) <==> Hits(atoms[0], min, max, v) {}
  }

  lemma LoneStar(a: AtomText)
    ensures PrintAtom(a) == "*" ==> a == AtomText(Star, None)
  {
    var t := PrintAtom(a);
    SpanPlain(a.span);
    if a.step.Some? {
      assert |t| >= 2;
    } else if a.span.One? {
      assert IsDigit(Dec(a.span.lo)[0]);
    } else if a.span.Range? {
      assert |t| >= 3;
    }
  }

  /** One start with a step: every step that reaches past the largest int panics, and no other. */
  lemma StepPanicsIff(lo: nat, k: nat, min: int, max: int)
    requires 0 <= min <= lo <= max < 64 && 1 <= k <= MAX_INT
    ensures FieldMeaning(Dec(lo) + ['/'] + Dec(k), min, max).Panics? <==> lo + k > MAX_INT
  {
    hide ParseAtom, Split, Dec, FieldMeaning;
    var a := AtomText(One(lo), Some(k));
    var spec := Dec(lo) + ['/'] + Dec(k);
    assert spec == PrintAtom(a);
    AtomMeans(a, min, max);
    PlainWord(spec);
    ParseFieldPanicsIff(spec, min, max);
    assert |spec| > 1;
    assert WrapsAt([spec], min, max, 0) <==> lo + k > MAX_INT;
  }

  lemma DecOne()
    ensures Dec(1) == "1"
  {}

  /** "1/9223372036854775807" as the minute field. */
  lemma LargestStepPanics()
    ensures FieldMeaning("1/" + Dec(MAX_INT), 0, 59).Panics?
  {
    hide Dec, FieldMeaning;
    DecOne();
    assert "1/" + Dec(MAX_INT) == Dec(1) + ['/'] + Dec(MAX_INT);
    StepPanicsIff(1, MAX_INT, 0, 59);
  }

  // ---------- Schedules ----------

  datatype Schedule = Schedule(minute: set<int>, hour: set<int>, dayOfMonth: set<int>, month: set<int>, dayOfWeek: set<int>, offset: int)
  datatype ScheduleResult = Good(schedule: Schedule) | BadSpec | SpecPanics

  function Expanded(spec: string): string {
    if spec == "@hourly" then "0 * * * *"
    else if spec == "@daily" || spec == "@midnight" then "0 0 * * *"
    else if spec == "@weekly" then "0 0 * * 0"
    else if spec == "@monthly" then "0 0 1 * *"
    else if spec == "@yearly" || spec == "@annually" then "0 0 1 1 *"
    else spec
  }

  /** ParseSchedule; the first field that does not parse decides. `offset` is the zone's, in minutes. */
  ghost function ParseSchedule(spec: string, offset: int): ScheduleResult {
    var text := TrimSpace(spec);
    var parts := Fields(Expanded(text));
    if text == "" || |parts| != 5 then BadSpec else
      var mi, hr, dom := FieldMeaning(parts[0], 0, 59), FieldMeaning(parts[1], 0, 23), FieldMeaning(parts[2], 1, 31);
      var mo, dow := FieldMeaning(parts[3], 1, 12), FieldMeaning(parts[4], 0, 6);
      if mi.Panics? || (mi.Parsed? && (hr.Panics? || (hr.Parsed? && (dom.Panics? || (dom.Parsed? && (mo.Panics? || (mo.Parsed? && dow.Panics?))))))) then SpecPanics
      else if mi.Parsed? && hr.Parsed? && dom.Parsed? && mo.Parsed? && dow.Parsed?
      then Good(Schedule(mi.values, hr.values, dom.values, mo.values, dow.values, offset))
      else BadSpec
  }

  predicate Within(s: set<int>, min: int, max: int) { (exists i :: i in s) && forall i :: i in s ==> min <= i <= max }

  predicate WellFormed(s: Schedule) {
    && Within(s.minute, 0, 59) && Within(s.hour, 0, 23) && Within(s.dayOfMonth, 1, 31)
    && Within(s.month, 1, 12) && Within(s.dayOfWeek, 0, 6)
  }

  lemma FieldWithin(spec: string, min: int, max: int)
    requires min <= max
    ensures var r := FieldMeaning(spec, min, max); r.Parsed? ==> Within(r.values, min, max)
  {
    assert min in AllOf(min, max);
  }

  /** Every field of a parsed schedule is a non-empty set within its range. */
  lemma ParsedWellFormed(spec: string, offset: int)
    ensures var r := ParseSchedule(spec, offset); r.Good? ==> WellFormed(r.schedule) && r.schedule.offset == offset
  {
    var parts := Fields(Expanded(TrimSpace(spec)));
    if |parts| == 5 {
      FieldWithin(parts[0], 0, 59);
      FieldWithin(parts[1], 0, 23);
      FieldWithin(parts[2], 1, 31);
      FieldWithin(parts[3], 1, 12);
      FieldWithin(parts[4], 0, 6);
    }
  }

  // ---------- Specs field by field ----------

  predicate Word(w: string) { w != "" && forall c :: c in w ==> !IsSpace(c) }

  lemma {:induction false} WordEnds(w: string, rest: string)
    requires (forall c :: c in w ==> !IsSpace(c)) && (rest == "" || IsSpace(rest[0]))
    ensures WordLength(w + rest) == |w|
  {
    if w == [] {
      assert w + rest == rest;
    } else {
      assert (w + rest)[0] == w[0] && w[0] in w && (w + rest)[1..] == w[1..] + rest;
      WordEnds(w[1..], rest);
    }
  }

  lemma FieldsCons(w: string, rest: string)
    requires Word(w)
    ensures Fields(w + [' '] + rest) == [w] + Fields(rest) && Fields(w) == [w]
  {
    hide WordLength;
    var tail := [' '] + rest;
    WordEnds(w, tail);
    WordEnds(w, "");
    assert w[0] in w;
    assert w + [' '] + rest == w + tail && (w + tail)[0] == w[0] && (w + tail)[..|w|] == w && (w + tail)[|w|..] == tail;
    assert tail[1..] == rest && Fields(tail) == Fields(rest);
    assert w + "" == w && w[..|w|] == w && w[|w|..] == "" && Fields("") == [];
  }

  function Spec(a: string, b: string, c: string, d: string, e: string): string {
    a + [' '] + (b + [' '] + (c + [' '] + (d + [' '] + e)))
  }

  lemma SpecFields(a: string, b: string, c: string, d: string, e: string)
    requires Word(a) && Word(b) && Word(c) && Word(d) && Word(e)
    ensures Fields(Spec(a, b, c, d, e)) == [a, b, c, d, e]
  {
    hide Fields, Word;
    FieldsCons(a, b + [' '] + (c + [' '] + (d + [' '] + e)));
    FieldsCons(b, c + [' '] + (d + [' '] + e));
    FieldsCons(c, d + [' '] + e);
    FieldsCons(d, e);
    FieldsCons(e, "");
  }

  lemma SpecPlain(a: string, b: string, c: string, d: string, e: string)
    requires Word(a) && Word(e)
    ensures var t := Spec(a, b, c, d, e); t != "" && TrimSpace(t) == t && Expanded(t) == t
  {
    var t := Spec(a, b, c, d, e);
    assert t[0] == a[0] && a[0] in a && t[|t| - 1] == e[|e| - 1] && e[|e| - 1] in e;
    assert TrimSpace(t) == t;
    assert t[|a|] == ' ';
    hide TrimSpace, Spec;
    NoMacro(t, |a|);
  }

  lemma NoMacro(t: string, i: nat)
    requires i < |t| && t[i] == ' '
    ensures Expanded(t) == t
  {}

  /** Five words are a schedule exactly when each parses as the field of its place: minute, hour, day of the
      month, month, day of the week. */
  lemma SpecMeans(a: string, b: string, c: string, d: string, e: string, offset: int)
    requires Word(a) && Word(b) && Word(c) && Word(d) && Word(e)
    ensures var r := ParseSchedule(Spec(a, b, c, d, e), offset);
            var mi, hr, dom, mo, dow := FieldMeaning(a, 0, 59), FieldMeaning(b, 0, 23), FieldMeaning(c, 1, 31), FieldMeaning(d, 1, 12), FieldMeaning(e, 0, 6);
            if mi.Parsed? && hr.Parsed? && dom.Parsed? && mo.Parsed? && dow.Parsed?
            then r == Good(Schedule(mi.values, hr.values, dom.values, mo.values, dow.values, offset))
            else !r.Good?
  {
    hide Fields, TrimSpace, Expanded, FieldMeaning, Spec, Word;
    SpecFields(a, b, c, d, e);
    SpecPlain(a, b, c, d, e);
  }

  predicate SameSchedule(a: string, b: string) { TrimSpace(a) != "" && Expanded(TrimSpace(a)) == b && TrimSpace(b) == b && b != "" && Expanded(b) == b }

  lemma SameParse(a: string, b: string, offset: int)
    requires SameSchedule(a, b)
    ensures ParseSchedule(a, offset) == ParseSchedule(b, offset)
  {
    hide Fields, FieldMeaning, TrimSpace, Expanded;
  }

  lemma MacroTexts()
    ensures SameSchedule("@hourly", "0 * * * *") && SameSchedule("@daily", "0 0 * * *") && SameSchedule("@midnight", "0 0 * * *")
    ensures SameSchedule("@weekly", "0 0 * * 0") && SameSchedule("@monthly", "0 0 1 * *")
    ensures SameSchedule("@yearly", "0 0 1 1 *") && SameSchedule("@annually", "0 0 1 1 *")
  {
    NoMacro("0 * * * *", 1);
    NoMacro("0 0 * * *", 1);
    NoMacro("0 0 * * 0", 1);
    NoMacro("0 0 1 * *", 1);
    NoMacro("0 0 1 1 *", 1);
  }

  /** The named schedules. */
  lemma MacrosMean(offset: int)
    ensures ParseSchedule("@hourly", offset) == ParseSchedule("0 * * * *", offset)
    ensures ParseSchedule("@daily", offset) == ParseSchedule("@midnight", offset) == ParseSchedule("0 0 * * *", offset)
    ensures ParseSchedule("@weekly", offset) == ParseSchedule("0 0 * * 0", offset)
    ensures ParseSchedule("@monthly", offset) == ParseSchedule("0 0 1 * *", offset)
    ensures ParseSchedule("@yearly", offset) == ParseSchedule("@annually", offset) == ParseSchedule("0 0 1 1 *", offset)
  {
    hide ParseSchedule, SameSchedule;
    MacroTexts();
    SameParse("@hourly", "0 * * * *", offset);
    SameParse("@daily", "0 0 * * *", offset);
    SameParse("@midnight", "0 0 * * *", offset);
    SameParse("@weekly", "0 0 * * 0", offset);
    SameParse("@monthly", "0 0 1 * *", offset);
    SameParse("@yearly", "0 0 1 1 *", offset);
    SameParse("@annually", "0 0 1 1 *", offset);
  }

  // ---------- Matching and searching ----------

  const SECOND := 1_000_000_000
  const MINUTE := 60 * SECOND
  const CAP_MINUTES := 4 * 365 * 24 * 60

  /** matches, on the minute number of the local clock. */
  predicate MatchesLocal(s: Schedule, n: int) {
    && n % 60 in s.minute
    && (n / 60) % 24 in s.hour
    && DateOf(n / 1440).month in s.month
    && MatchesDay(s, n / 1440)
  }

  /** The Vixie day rule: two restricted day fields are alternatives. */
  predicate MatchesDay(s: Schedule, day: int) {
    var dom, dow := DateOf(day).day in s.dayOfMonth, Weekday(day) in s.dayOfWeek;
    var domAll, dowAll := s.dayOfMonth == AllOf(1, 31), s.dayOfWeek == AllOf(0, 6);
    if domAll && dowAll then true
    else if domAll then dow
    else if dowAll then dom
    else dom || dow
  }

  predicate Matches(s: Schedule, t: int) { MatchesLocal(s, t / MINUTE + s.offset) }

  ghost predicate Unrestricted(s: set<int>, min: int, max: int) { forall i :: min <= i <= max ==> i in s }

  lemma AllOfMeans(s: set<int>, min: int, max: int)
    requires Within(s, min, max)
    ensures s == AllOf(min, max) <==> Unrestricted(s, min, max)
  {
    if Unrestricted(s, min, max) {
      forall i | i in s ensures i in AllOf(min, max) { assert Between(min, i, max); }
      forall i | i in AllOf(min, max) ensures i in s {}
    } else {
      var i :| min <= i <= max && i !in s;
      assert Between(min, i, max) && i in AllOf(min, max);
    }
  }

  /** The days a schedule allows: both day fields must agree, unless both are restricted, when either will do. */
  ghost predicate AllowsDay(s: Schedule, day: int) {
    var dom, dow := DateOf(day).day in s.dayOfMonth, Weekday(day) in s.dayOfWeek;
    if Unrestricted(s.dayOfMonth, 1, 31) || Unrestricted(s.dayOfWeek, 0, 6) then dom && dow else dom || dow
  }

  lemma DayMeans(s: Schedule, day: int)
    requires WellFormed(s)
    ensures MatchesDay(s, day) <==> AllowsDay(s, day)
  {
    hide DateOf, Weekday, AllOf;
    AllOfMeans(s.dayOfMonth, 1, 31);
    AllOfMeans(s.dayOfWeek, 0, 6);
    assert Unrestricted(s.dayOfMonth, 1, 31) ==> DateOf(day).day in s.dayOfMonth;
    assert Unrestricted(s.dayOfWeek, 0, 6) ==> Weekday(day) in s.dayOfWeek;
  }

  /** Minute m of hour h of a day, on the clock of the schedule's zone, matches exactly when each field has it
      and the day is allowed. */
  lemma MatchMeans(s: Schedule, day: int, h: int, m: int)
    requires WellFormed(s) && 0 <= h < 24 && 0 <= m < 60
    ensures Matches(s, (day * 1440 + h * 60 + m - s.offset) * MINUTE) <==>
            m in s.minute && h in s.hour && DateOf(day).month in s.month && AllowsDay(s, day)
  {
    hide DateOf, AllowsDay, MatchesDay, WellFormed;
    var n := day * 1440 + h * 60 + m;
    MinuteInstant(n - s.offset);
    DivUnique(n, day, h * 60 + m, 1440);
    DivUnique(n, 24 * day + h, m, 60);
    DivUnique(24 * day + h, day, h, 24);
    DayMeans(s, day);
  }

  /** The first whole minute strictly after an instant, as the code computes it. */
  function FirstMinute(after: int): (t: int)
    ensures after < t <= after + MINUTE && t % MINUTE == 0
  {
    var second := (after / SECOND) % 60;
    var t := after + (MINUTE - second * SECOND);
    FirstMinuteFacts(after, second, t);
    t - t % MINUTE
  }

  lemma FirstMinuteFacts(after: int, second: int, t: int)
    requires second == (after / SECOND) % 60 && t == after + (MINUTE - second * SECOND)
    ensures after < t - t % MINUTE <= after + MINUTE && (t - t % MINUTE) % MINUTE == 0
  {
    var sec, nano := after / SECOND, after % SECOND;
    var m := sec / 60;
    assert sec == 60 * m + second;
    assert t == (m + 1) * MINUTE + nano;
    DivUnique(t, m + 1, nano, MINUTE);
    DivUnique((m + 1) * MINUTE, m + 1, 0, MINUTE);
  }

  /** The search loop, minute by minute up to the cap; None is the zero time. */
  function Search(s: Schedule, t: int, cap: int): Option<int>
    decreases cap - t
  {
    if t >= cap then None else if Matches(s, t) then Some(t) else Search(s, t + MINUTE, cap)
  }

  function Next(s: Schedule, after: int): Option<int> { Search(s, FirstMinute(after), after + CAP_MINUTES * MINUTE) }

  method FindNext(s: Schedule, after: int) returns (r: Option<int>)
    ensures r == Next(s, after)
  {
    var second := (after / SECOND) % 60;
    var t := after + (MINUTE - second * SECOND);
    t := t - t % MINUTE;
    var cap := after + CAP_MINUTES * MINUTE;
    while t < cap
      invariant Next(s, after) == Search(s, t, cap)
    {
      if Matches(s, t) { return Some(t); }
      t := t + MINUTE;
    }
    return None;
  }

  predicate Whole(t: int) { t % MINUTE == 0 }

  lemma NextWhole(t: int)
    requires Whole(t)
    ensures Whole(t + MINUTE) && forall m :: t < m < t + MINUTE ==> !Whole(m)
  {
    var q := t / MINUTE;
    DivUnique(t + MINUTE, q + 1, 0, MINUTE);
    forall m | t < m < t + MINUTE ensures !Whole(m) { DivUnique(m, q, m - t, MINUTE); }
  }

  lemma {:induction false} SearchIsLeast(s: Schedule, t: int, cap: int)
    requires Whole(t)
    ensures var r := Search(s, t, cap);
            if r.Some?
            then t <= r.value < cap && Whole(r.value) && Matches(s, r.value)
                 && forall m :: t <= m < r.value && Whole(m) ==> !Matches(s, m)
            else forall m :: t <= m < cap && Whole(m) ==> !Matches(s, m)
    decreases cap - t
  {
    if t < cap && !Matches(s, t) {
      NextWhole(t);
      SearchIsLeast(s, t + MINUTE, cap);
    }
  }

  /** Next is the least matching whole minute strictly after the instant, or none exactly when no
      such minute lies before instant + 1460 days. */
  lemma NextIsLeast(s: Schedule, after: int)
    ensures var r := Next(s, after);
            if r.Some?
            then after < r.value < after + CAP_MINUTES * MINUTE && Whole(r.value) && Matches(s, r.value)
                 && forall m :: after < m < r.value && Whole(m) ==> !Matches(s, m)
            else forall m :: after < m < after + CAP_MINUTES * MINUTE && Whole(m) ==> !Matches(s, m)
  {
    var t := FirstMinute(after);
    SearchIsLeast(s, t, after + CAP_MINUTES * MINUTE);
    NextWhole(t - MINUTE) by {
      DivUnique(t - MINUTE, t / MINUTE - 1, 0, MINUTE);
    }
  }

  // ---------- Firing within a week ----------

  /** A local minute with a chosen weekday and time of day occurs in every week. */
  lemma WeeklyMinute(from: int, w: int, h: int, m: int) returns (n: int)
    requires 0 <= w <= 6 && 0 <= h <= 23 && 0 <= m <= 59
    ensures from <= n < from + 10080
    ensures n % 60 == m && (n / 60) % 24 == h && Weekday(n / 1440) == w
  {
    var target := ((w + 6) % 7) * 1440 + h * 60 + m;
    n := from + (target - from) % 10080;
    var q := -((target - from) / 10080);
    var day := 7 * q + (w + 6) % 7;
    DivUnique(n, day, h * 60 + m, 1440);
    DivUnique(n, 24 * day + h, m, 60);
    DivUnique(24 * day + h, day, h, 24);
    DivUnique(day + 1, if w == 0 then q + 1 else q, w, 7);
  }

  ghost function Pick(s: set<int>, min: int, max: int): (i: int)
    requires Within(s, min, max)
    ensures i in s && min <= i <= max
  {
    var i :| i in s; i
  }

  lemma WeeklyMatch(s: Schedule, from: int) returns (n: int)
    requires WellFormed(s) && s.month == AllOf(1, 12) && (s.dayOfWeek != AllOf(0, 6) || s.dayOfMonth == AllOf(1, 31))
    ensures from <= n < from + 10080 && MatchesLocal(s, n)
  {
    var w, h, m := Pick(s.dayOfWeek, 0, 6), Pick(s.hour, 0, 23), Pick(s.minute, 0, 59);
    n := WeeklyMinute(from, w, h, m);
  }

  lemma MinuteInstant(k: int)
    ensures Whole(k * MINUTE) && (k * MINUTE) / MINUTE == k
  {
    DivUnique(k * MINUTE, k, 0, MINUTE);
  }

  lemma NextAtMost(s: Schedule, after: int, m: int)
    requires after < m < after + CAP_MINUTES * MINUTE && Whole(m) && Matches(s, m)
    ensures Next(s, after).Some? && after < Next(s, after).value <= m
  {
    NextIsLeast(s, after);
  }

  /** With every month allowed, a schedule whose weekday is restricted, or whose two day fields are
      both unrestricted, fires within seven days of any instant. */
  lemma FiresWithinAWeek(s: Schedule, after: int)
    requires WellFormed(s) && s.month == AllOf(1, 12) && (s.dayOfWeek != AllOf(0, 6) || s.dayOfMonth == AllOf(1, 31))
    ensures Next(s, after).Some? && after < Next(s, after).value <= after + 7 * 24 * 60 * MINUTE
  {
    hide MatchesLocal, Next, WellFormed;
    var q := FirstMinute(after) / MINUTE;
    var n := WeeklyMatch(s, q + s.offset);
    MinuteInstant(n - s.offset);
    NextAtMost(s, after, (n - s.offset) * MINUTE);
  }

  // ---------- The scheduler loop ----------

  datatype Snapshot = Snapshot(enabled: bool, spec: string, offset: int, lastRun: Option<int>)

  /** nextFire, with the schedule and the instant it was computed from. */
  datatype Plan = Plan(at: int, schedule: Schedule, since: int)
  datatype Firing = Firing(plan: Plan, tick: int)
  datatype Tick = Tick(now: int, snap: Snapshot)
  datatype TickResult = TickResult(plan: Option<Plan>, fired: Option<Firing>, crashed: bool)

  function PlanFrom(s: Schedule, since: int): Option<Plan> {
    var n := Next(s, since);
    if n.Some? then Some(Plan(n.value, s, since)) else None
  }

  predicate Stale(plan: Option<Plan>, lastRun: Option<int>) {
    plan.None? || (lastRun.Some? && plan.value.at < lastRun.value)
  }

  /** One tick of the loop, given what ParseSchedule made of the snapshot's spec. */
  function OnParsed(plan: Option<Plan>, now: int, snap: Snapshot, parsed: ScheduleResult): TickResult {
    if !snap.enabled || snap.spec == "" then TickResult(None, None, false) else
      match parsed
      case BadSpec => TickResult(plan, None, false)
      case SpecPanics => TickResult(plan, None, true)
      case Good(s) =>
        var p := if Stale(plan, snap.lastRun) then PlanFrom(s, now) else plan;
        if p.Some? && now >= p.value.at then TickResult(PlanFrom(s, now + MINUTE), Some(Firing(p.value, now)), false)
        else TickResult(p, None, false)
  }

  ghost function OnTick(plan: Option<Plan>, t: Tick): TickResult {
    OnParsed(plan, t.now, t.snap, ParseSchedule(t.snap.spec, t.snap.offset))
  }

  /** The firings of a run of ticks; a panic ends it. */
  ghost function Firings(plan: Option<Plan>, ticks: seq<Tick>): seq<Firing>
    decreases |ticks|
  {
    if ticks == [] then [] else
      var r := OnTick(plan, ticks[0]);
      if r.crashed then [] else
        (if r.fired.Some? then [r.fired.value] else []) + Firings(r.plan, ticks[1..])
  }

  class Scheduler {
    var nextFire: Option<int>
    ghost var plan: Option<Plan>

    ghost predicate Valid() reads this {
      nextFire == if plan.Some? then Some(plan.value.at) else None
    }

    constructor ()
      ensures Valid() && plan == None
    {
      nextFire := None;
      plan := None;
    }

    /** The body of the loop; `parsed` is what ParseSchedule gave for the snapshot. */
    method HandleTick(now: int, snap: Snapshot, parsed: ScheduleResult) returns (fired: Option<int>, crashed: bool)
      requires Valid()
      modifies this
      ensures Valid()
      ensures var r := OnParsed(old(plan), now, snap, parsed);
              && plan == r.plan && crashed == r.crashed
              && fired == if r.fired.Some? then Some(r.fired.value.plan.at) else None
    {
      fired, crashed := None, false;
      if !snap.enabled || snap.spec == "" {
        nextFire, plan := None, None;
        return;
      }
      if parsed.SpecPanics? { return None, true; }
      if parsed.BadSpec? { return; }
      var s := parsed.schedule;
      if nextFire.None? || (snap.lastRun.Some? && nextFire.value < snap.lastRun.value) {
        nextFire := FindNext(s, now);
        plan := PlanFrom(s, now);
      }
      if nextFire.Some? && now >= nextFire.value {
        fired := nextFire;
        nextFire := FindNext(s, now + MINUTE);
        plan := PlanFrom(s, now + MINUTE);
      }
    }
  }

  predicate Chronological(ticks: seq<Tick>) { forall i, j :: 0 <= i < j < |ticks| ==> ticks[i].now <= ticks[j].now }

  /** The plan was computed at tick k, from the schedule configured there: from the tick itself, or, after
      a firing, from a minute later. */
  ghost predicate PlannedAt(ticks: seq<Tick>, k: int, p: Plan) {
    && 0 <= k < |ticks| && ticks[k].snap.enabled
    && ParseSchedule(ticks[k].snap.spec, ticks[k].snap.offset) == Good(p.schedule)
    && (p.since == ticks[k].now || p.since == ticks[k].now + MINUTE)
    && Next(p.schedule, p.since) == Some(p.at)
  }

  /** No tick between the two found the schedule switched off. */
  ghost predicate OnBetween(ticks: seq<Tick>, k: int, n: int) {
    forall j :: 0 <= j < |ticks| && k < j < n ==> ticks[j].snap.enabled && ticks[j].snap.spec != ""
  }

  /** Before tick n there is one at which the plan was computed, and the schedule has been on since. */
  ghost predicate PlannedBefore(ticks: seq<Tick>, n: int, p: Plan) {
    exists k :: k < n && PlannedAt(ticks, k, p) && OnBetween(ticks, k, n)
  }

  /** No run has started since the target, so far as the tick can see. */
  predicate NotRunSince(t: Tick, at: int) { t.snap.lastRun.Some? ==> t.snap.lastRun.value <= at }

  /** Tick n fired this, when the firing before it was at instant `since`. */
  ghost predicate FiredAt(f: Firing, since: int, ticks: seq<Tick>, n: int) {
    && 0 <= n < |ticks| && f.tick == ticks[n].now
    && PlannedBefore(ticks, n + 1, f.plan) && NotRunSince(ticks[n], f.plan.at)
    && since <= f.plan.since < f.plan.at <= f.tick
    && Whole(f.plan.at) && Matches(f.plan.schedule, f.plan.at) && WellFormed(f.plan.schedule)
  }

  ghost predicate Sound(f: Firing, since: int, ticks: seq<Tick>) { exists n :: FiredAt(f, since, ticks, n) }

  ghost predicate PlanSound(plan: Option<Plan>, since: int, ticks: seq<Tick>, n: int) {
    plan.Some? ==> since <= plan.value.since && PlannedBefore(ticks, n, plan.value)
  }

  lemma PlanFromSound(ticks: seq<Tick>, n: nat, s: Schedule, since: int)
    requires n < |ticks| && ticks[n].snap.enabled && ParseSchedule(ticks[n].snap.spec, ticks[n].snap.offset) == Good(s)
    requires since == ticks[n].now || since == ticks[n].now + MINUTE
    ensures PlanSound(PlanFrom(s, since), since, ticks, n + 1)
  {
    hide Next, ParseSchedule;
    var plan := PlanFrom(s, since);
    if plan.Some? { assert PlannedAt(ticks, n, plan.value) && OnBetween(ticks, n, n + 1); }
  }

  lemma PlanMatches(ticks: seq<Tick>, n: int, p: Plan)
    requires PlannedBefore(ticks, n, p)
    ensures p.since < p.at && Whole(p.at) && Matches(p.schedule, p.at) && WellFormed(p.schedule)
  {
    hide Next, ParseSchedule, Matches, WellFormed;
    var k :| k < n && PlannedAt(ticks, k, p) && OnBetween(ticks, k, n);
    ParsedWellFormed(ticks[k].snap.spec, ticks[k].snap.offset);
    NextIsLeast(p.schedule, p.since);
  }

  lemma TickSound(plan: Option<Plan>, ticks: seq<Tick>, n: nat, since: int)
    requires n < |ticks| && PlanSound(plan, since, ticks, n) && since <= ticks[n].now
    ensures var r := OnTick(plan, ticks[n]);
            && PlanSound(r.plan, since, ticks, n + 1)
            && (r.fired.Some? ==> FiredAt(r.fired.value, since, ticks, n) && PlanSound(r.plan, ticks[n].now, ticks, n + 1))
  {
    hide Matches, ParseSchedule, PlannedAt, WellFormed;
    var t := ticks[n];
    var parsed := ParseSchedule(t.snap.spec, t.snap.offset);
    if t.snap.enabled && t.snap.spec != "" && parsed.Good? {
      PlanFromSound(ticks, n, parsed.schedule, t.now);
      PlanFromSound(ticks, n, parsed.schedule, t.now + MINUTE);
      var p := if Stale(plan, t.snap.lastRun) then PlanFrom(parsed.schedule, t.now) else plan;
      StillPlanned(plan, ticks, n);
      if p.Some? { PlanMatches(ticks, n + 1, p.value); }
    } else if t.snap.enabled && t.snap.spec != "" {
      StillPlanned(plan, ticks, n);
    }
  }

  /** A tick at which the schedule is on keeps an earlier plan's origin. */
  lemma StillPlanned(plan: Option<Plan>, ticks: seq<Tick>, n: nat)
    requires n < |ticks| && ticks[n].snap.enabled && ticks[n].snap.spec != ""
    ensures plan.Some? && PlannedBefore(ticks, n, plan.value) ==> PlannedBefore(ticks, n + 1, plan.value)
  {
    hide PlannedAt;
    if plan.Some? && PlannedBefore(ticks, n, plan.value) {
      var k :| k < n && PlannedAt(ticks, k, plan.value) && OnBetween(ticks, k, n);
      assert OnBetween(ticks, k, n + 1);
    }
  }

  ghost predicate FiringsSound(fs: seq<Firing>, since: int, ticks: seq<Tick>) {
    (fs != [] ==> Sound(fs[0], since, ticks)) && forall k :: 0 <= k < |fs| - 1 ==> Sound(fs[k + 1], fs[k].tick, ticks)
  }

  lemma FiringsCons(f: Firing, rest: seq<Firing>, since: int, ticks: seq<Tick>)
    requires Sound(f, since, ticks) && FiringsSound(rest, f.tick, ticks)
    ensures FiringsSound([f] + rest, since, ticks)
  {
    hide Sound;
    var fs := [f] + rest;
    forall k | 0 <= k < |fs| - 1 ensures Sound(fs[k + 1], fs[k].tick, ticks) {
      if k > 0 { assert fs[k + 1] == rest[k - 1 + 1] && fs[k] == rest[k - 1]; }
    }
  }

  lemma {:induction false} RunSound(plan: Option<Plan>, ticks: seq<Tick>, n: nat, since: int)
    requires n <= |ticks| && PlanSound(plan, since, ticks, n) && Chronological(ticks) && (n < |ticks| ==> since <= ticks[n].now)
    ensures FiringsSound(Firings(plan, ticks[n..]), since, ticks)
    decreases |ticks| - n
  {
    hide OnTick, FiredAt, PlanSound;
    if n < |ticks| {
      var r := OnTick(plan, ticks[n]);
      assert ticks[n..][0] == ticks[n] && ticks[n..][1..] == ticks[n + 1..];
      TickSound(plan, ticks, n, since);
      if !r.crashed {
        var rest := Firings(r.plan, ticks[n + 1..]);
        if r.fired.Some? {
          assert r.fired.value.tick == ticks[n].now by { FiredTick(plan, ticks[n]); }
          RunSound(r.plan, ticks, n + 1, ticks[n].now);
          FiringsCons(r.fired.value, rest, since, ticks);
        } else {
          RunSound(r.plan, ticks, n + 1, since);
          assert [] + rest == rest;
        }
      }
    }
  }

  lemma FiredTick(plan: Option<Plan>, t: Tick)
    ensures OnTick(plan, t).fired.Some? ==> OnTick(plan, t).fired.value.tick == t.now
  {
    hide ParseSchedule, Next;
  }

  lemma AllSound(ticks: seq<Tick>)
    requires Chronological(ticks) && ticks != []
    ensures FiringsSound(Firings(None, ticks), ticks[0].now, ticks)
  {
    hide Firings;
    RunSound(None, ticks, 0, ticks[0].now);
    assert ticks[0..] == ticks;
  }

  /** In every run of the loop, whatever is edited, disabled or run by hand in between, each firing happens
      at a tick that finds the schedule on and no run since the target; and its target was computed at that
      tick or an earlier one, as the next match of the schedule configured there, with the schedule on ever
      since. */
  lemma FiringFollowsSchedule(ticks: seq<Tick>, j: nat)
    requires Chronological(ticks) && j < |Firings(None, ticks)|
    ensures var f := Firings(None, ticks)[j];
            && f.plan.since < f.plan.at <= f.tick && Whole(f.plan.at) && Matches(f.plan.schedule, f.plan.at)
            && exists k, n :: 0 <= k <= n < |ticks| && f.tick == ticks[n].now && PlannedAt(ticks, k, f.plan)
                              && OnBetween(ticks, k, n + 1) && NotRunSince(ticks[n], f.plan.at)
  {
    hide Matches, Firings, WellFormed, PlannedAt;
    if ticks == [] { NoTicks(); } else {
      var fs := Firings(None, ticks);
      AllSound(ticks);
      var since := if j == 0 then ticks[0].now else fs[j - 1].tick;
      assert Sound(fs[j], since, ticks) by { if j > 0 { assert Sound(fs[j - 1 + 1], fs[j - 1].tick, ticks); } }
      var n :| FiredAt(fs[j], since, ticks, n);
      var k :| k < n + 1 && PlannedAt(ticks, k, fs[j].plan) && OnBetween(ticks, k, n + 1);
      assert 0 <= k by { PlannedIndex(ticks, k, fs[j].plan); }
    }
  }

  lemma NoTicks()
    ensures Firings(None, []) == []
  {}

  lemma PlannedIndex(ticks: seq<Tick>, k: int, p: Plan)
    requires PlannedAt(ticks, k, p)
    ensures 0 <= k < |ticks|
  {}

  /** ... and each target lies after the tick of every earlier firing, so the targets strictly increase. */
  lemma FiringsOrdered(ticks: seq<Tick>, i: nat, j: nat)
    requires Chronological(ticks) && i < j < |Firings(None, ticks)|
    ensures var fs := Firings(None, ticks); fs[i].plan.at <= fs[i].tick < fs[j].plan.at <= fs[j].tick
  {
    hide Matches, WellFormed, Firings, PlannedBefore;
    if ticks == [] { NoTicks(); }
    AllSound(ticks);
    var fs := Firings(None, ticks);
    FiringFollowsSchedule(ticks, i);
    for k := i to j - 1
      invariant fs[i].tick <= fs[k].tick
    {
      assert Sound(fs[k + 1], fs[k].tick, ticks);
    }
    assert Sound(fs[j - 1 + 1], fs[j - 1].tick, ticks);
  }

  // ---------- Which matching minutes are served ----------

  /** After a firing the loop searches from one minute later, so it keeps the true next match
      exactly when the very next minute does not match. */
  lemma SkipsNextMinuteIff(s: Schedule, now: int)
    requires Next(s, now).Some?
    ensures Next(s, now + MINUTE) == Next(s, now) <==> !Matches(s, FirstMinute(now))
  {
    hide Matches, Next, Whole;
    NextIsLeast(s, now);
    NextIsLeast(s, now + MINUTE);
    var t := FirstMinute(now);
    NextWhole(t - MINUTE) by {
      DivUnique(t - MINUTE, t / MINUTE - 1, 0, MINUTE);
    }
    NextWhole(t);
    var r, r' := Next(s, now), Next(s, now + MINUTE);
    if !Matches(s, t) {
      assert r.value > t;
      assert r.value >= t + MINUTE > now + MINUTE;
      assert r'.Some?;
      assert r.value <= r'.value && r'.value <= r.value;
    } else {
      assert r.value == t;
    }
  }

  ghost predicate MatchAt(s: Schedule, m: int) { Whole(m) && Matches(s, m) }

  /** A matching minute m directly followed by another one. */
  ghost predicate Adjacent(s: Schedule, m: int) { MatchAt(s, m) && MatchAt(s, m + MINUTE) }

  /** The schedule stays as it is and the ticks are at most a minute apart. */
  ghost predicate Steady(ticks: seq<Tick>, spec: string, offset: int) {
    && ticks != [] && spec != ""
    && (forall k :: 0 <= k < |ticks| ==> ticks[k].snap.enabled && ticks[k].snap.spec == spec && ticks[k].snap.offset == offset)
    && (forall k :: 0 <= k < |ticks| - 1 ==> ticks[k].now <= ticks[k + 1].now <= ticks[k].now + MINUTE)
  }

  /** No run was started by hand between a matching minute and the tick that serves it. */
  ghost predicate Undisturbed(s: Schedule, before: int, lastRun: Option<int>) {
    lastRun.Some? ==> forall m :: before < m < lastRun.value ==> !MatchAt(s, m)
  }

  ghost predicate ByItself(ticks: seq<Tick>, s: Schedule) {
    forall k :: 0 <= k < |ticks| - 1 ==> Undisturbed(s, ticks[k].now, ticks[k + 1].snap.lastRun)
  }

  /** After a tick at `now`: the plan is the next match, or no match lies within the next minute. */
  ghost predicate Waiting(s: Schedule, plan: Option<Plan>, now: int) {
    if plan.Some? then now < plan.value.at && MatchAt(s, plan.value.at) && forall m :: now < m < plan.value.at ==> !MatchAt(s, m)
    else forall m :: now < m <= now + MINUTE ==> !MatchAt(s, m)
  }

  lemma PlanWaits(s: Schedule, now: int)
    ensures Waiting(s, PlanFrom(s, now), now)
  {
    hide Matches, Next, Whole;
    NextIsLeast(s, now);
  }

  /** After serving m the search resumes a minute later; the minute it steps over holds no match. */
  lemma ReplanWaits(s: Schedule, m: int, now: int)
    requires MatchAt(s, m) && !Adjacent(s, m) && m <= now < m + MINUTE
    ensures Waiting(s, PlanFrom(s, now + MINUTE), now)
  {
    PlanWaits(s, now + MINUTE);
    NextWhole(m);
    NextWhole(m + MINUTE);
    hide Matches, Whole, PlanFrom;
  }

  lemma MatchAlone(s: Schedule, m: int)
    requires MatchAt(s, m)
    ensures forall k :: m < k < m + MINUTE ==> !MatchAt(s, k)
  {
    hide Matches;
    NextWhole(m);
  }

  lemma SteadyParsed(s: Schedule, plan: Option<Plan>, before: int, now: int, snap: Snapshot)
    requires snap.enabled && snap.spec != ""
    requires Waiting(s, plan, before) && before <= now <= before + MINUTE && Undisturbed(s, before, snap.lastRun)
    requires forall m :: !Adjacent(s, m)
    ensures var r := OnParsed(plan, now, snap, Good(s));
            && !r.crashed && Waiting(s, r.plan, now)
            && forall m :: before < m <= now && MatchAt(s, m) ==> r.fired.Some? && r.fired.value.plan.at == m
  {
    hide MatchAt, PlanFrom, Adjacent;
    if Stale(plan, snap.lastRun) {
      PlanWaits(s, now);
    } else if plan.value.at <= now {
      ReplanWaits(s, plan.value.at, now);
      MatchAlone(s, plan.value.at);
    }
  }

  lemma SteadyTick(s: Schedule, plan: Option<Plan>, before: int, t: Tick)
    requires t.snap.enabled && t.snap.spec != "" && ParseSchedule(t.snap.spec, t.snap.offset) == Good(s)
    requires Waiting(s, plan, before) && before <= t.now <= before + MINUTE && Undisturbed(s, before, t.snap.lastRun)
    requires forall m :: !Adjacent(s, m)
    ensures var r := OnTick(plan, t);
            && !r.crashed && Waiting(s, r.plan, t.now)
            && forall m :: before < m <= t.now && MatchAt(s, m) ==> r.fired.Some? && r.fired.value.plan.at == m
  {
    hide ParseSchedule, MatchAt, OnParsed, Waiting, Undisturbed, Adjacent;
    SteadyParsed(s, plan, before, t.now, t.snap);
  }

  ghost predicate Fires(fs: seq<Firing>, m: int) { exists i :: 0 <= i < |fs| && fs[i].plan.at == m }

  lemma {:induction false} SteadyRun(s: Schedule, spec: string, offset: int, plan: Option<Plan>, before: int, ticks: seq<Tick>, m: int)
    requires Steady(ticks, spec, offset) && ParseSchedule(spec, offset) == Good(s) && ByItself(ticks, s)
    requires Waiting(s, plan, before) && before <= ticks[0].now <= before + MINUTE && Undisturbed(s, before, ticks[0].snap.lastRun)
    requires forall m :: !Adjacent(s, m)
    requires MatchAt(s, m) && before < m <= ticks[|ticks| - 1].now
    ensures Fires(Firings(plan, ticks), m)
    decreases |ticks|
  {
    hide OnTick, MatchAt, Waiting, Undisturbed, ParseSchedule, Adjacent;
    var r, rest, fs := OnTick(plan, ticks[0]), ticks[1..], Firings(plan, ticks);
    SteadyTick(s, plan, before, ticks[0]);
    if m <= ticks[0].now {
      assert fs[0] == r.fired.value;
    } else {
      assert forall k :: 0 <= k < |rest| ==> rest[k] == ticks[k + 1];
      assert Steady(rest, spec, offset) && ByItself(rest, s);
      SteadyRun(s, spec, offset, r.plan, ticks[0].now, rest, m);
      var more := Firings(r.plan, rest);
      var i :| 0 <= i < |more| && more[i].plan.at == m;
      assert fs[if r.fired.Some? then i + 1 else i] == more[i];
    }
  }

  ghost predicate FiresOnce(fs: seq<Firing>, m: int) {
    exists i :: 0 <= i < |fs| && fs[i].plan.at == m && forall j :: 0 <= j < |fs| && j != i ==> fs[j].plan.at != m
  }

  /** Left to itself under one schedule, the loop serves every matching minute after its first tick, once. */
  ghost predicate ServesAll(spec: string, offset: int, s: Schedule) {
    forall ticks: seq<Tick>, m :: Steady(ticks, spec, offset) && ByItself(ticks, s) && MatchAt(s, m) && ticks[0].now < m <= ticks[|ticks| - 1].now ==>
      FiresOnce(Firings(None, ticks), m)
  }

  lemma {:induction false} SteadyChronological(ticks: seq<Tick>, spec: string, offset: int)
    requires Steady(ticks, spec, offset)
    ensures Chronological(ticks)
  {
    forall i, j | 0 <= i < j < |ticks| ensures ticks[i].now <= ticks[j].now {
      for k := i to j
        invariant ticks[i].now <= ticks[k].now
      {
        assert ticks[k].now <= ticks[k + 1].now;
      }
    }
  }

  lemma ServedOnce(spec: string, offset: int, s: Schedule, ticks: seq<Tick>, m: int)
    requires ParseSchedule(spec, offset) == Good(s) && (forall m :: !Adjacent(s, m))
    requires Steady(ticks, spec, offset) && ByItself(ticks, s) && MatchAt(s, m) && ticks[0].now < m <= ticks[|ticks| - 1].now
    ensures FiresOnce(Firings(None, ticks), m)
  {
    hide MatchAt, ParseSchedule, Adjacent, Firings, Undisturbed;
    var fs := Firings(None, ticks);
    FirstTick(spec, offset, s, ticks, m);
    SteadyChronological(ticks, spec, offset);
    var i :| 0 <= i < |fs| && fs[i].plan.at == m;
    forall j | 0 <= j < |fs| && j != i ensures fs[j].plan.at != m {
      if j < i { FiringsOrdered(ticks, j, i); } else { FiringsOrdered(ticks, i, j); }
    }
  }

  /** The first tick only plans. */
  lemma OnlyPlans(s: Schedule, t: Tick)
    requires t.snap.enabled && t.snap.spec != "" && ParseSchedule(t.snap.spec, t.snap.offset) == Good(s)
    ensures OnTick(None, t) == TickResult(PlanFrom(s, t.now), None, false)
    ensures Waiting(s, PlanFrom(s, t.now), t.now)
  {
    hide ParseSchedule, MatchAt, PlanFrom;
    PlanWaits(s, t.now);
  }

  lemma FirstTick(spec: string, offset: int, s: Schedule, ticks: seq<Tick>, m: int)
    requires ParseSchedule(spec, offset) == Good(s) && (forall m :: !Adjacent(s, m))
    requires Steady(ticks, spec, offset) && ByItself(ticks, s) && MatchAt(s, m) && ticks[0].now < m <= ticks[|ticks| - 1].now
    ensures Fires(Firings(None, ticks), m)
  {
    hide MatchAt, ParseSchedule, Adjacent, Undisturbed, OnTick, Waiting, PlanFrom, Fires;
    OnlyPlans(s, ticks[0]);
    var plan, rest := PlanFrom(s, ticks[0].now), ticks[1..];
    assert forall k :: 0 <= k < |rest| ==> rest[k] == ticks[k + 1];
    assert Steady(rest, spec, offset) && ByItself(rest, s);
    SteadyRun(s, spec, offset, plan, ticks[0].now, rest, m);
    assert Firings(None, ticks) == [] + Firings(plan, rest) == Firings(plan, rest);
  }

  /** A run that loses the second of two adjacent matches. */
  function LosingRun(spec: string, offset: int, m: int): seq<Tick> {
    var snap := Snapshot(true, spec, offset, None);
    [Tick(m - MINUTE / 2, snap), Tick(m, snap), Tick(m + MINUTE, snap)]
  }

  lemma NextHit(s: Schedule, m: int)
    requires MatchAt(s, m)
    ensures PlanFrom(s, m - MINUTE / 2) == Some(Plan(m, s, m - MINUTE / 2))
    ensures PlanFrom(s, m + MINUTE).Some? ==> PlanFrom(s, m + MINUTE).value.at > m + MINUTE
  {
    hide Matches, Next;
    NextIsLeast(s, m - MINUTE / 2);
    NextIsLeast(s, m + MINUTE);
    NextWhole(m - MINUTE) by { DivUnique(m - MINUTE, m / MINUTE - 1, 0, MINUTE); }
  }

  /** It fires once, for m. */
  lemma LosingRunFires(spec: string, offset: int, s: Schedule, m: int)
    requires spec != "" && ParseSchedule(spec, offset) == Good(s) && MatchAt(s, m)
    ensures Firings(None, LosingRun(spec, offset, m)) == [Firing(Plan(m, s, m - MINUTE / 2), m)]
  {
    hide ParseSchedule, MatchAt, PlanFrom;
    var ticks := LosingRun(spec, offset, m);
    NextHit(s, m);
    var first, again := Some(Plan(m, s, m - MINUTE / 2)), PlanFrom(s, m + MINUTE);
    PlanAfter(s, m + MINUTE);
    assert OnTick(None, ticks[0]) == TickResult(first, None, false);
    assert OnTick(first, ticks[1]) == TickResult(again, Some(Firing(first.value, m)), false);
    var r := OnTick(again, ticks[2]);
    assert r.fired.None? && !r.crashed;
    assert ticks[1..] == [ticks[1], ticks[2]] && ticks[1..][1..] == [ticks[2]] && [ticks[2]][1..] == [];
    assert Firings(again, [ticks[2]]) == Firings(r.plan, []) == [];
    assert Firings(first, ticks[1..]) == [Firing(first.value, m)] + Firings(again, [ticks[2]]);
  }

  lemma PlanAfter(s: Schedule, since: int)
    ensures PlanFrom(s, since).Some? ==> PlanFrom(s, since).value.at > since
  {
    hide Matches;
    NextIsLeast(s, since);
  }

  lemma AdjacentLoses(spec: string, offset: int, s: Schedule, m: int)
    requires spec != "" && ParseSchedule(spec, offset) == Good(s) && Adjacent(s, m)
    ensures !ServesAll(spec, offset, s)
  {
    hide MatchAt, ParseSchedule, Firings;
    var ticks := LosingRun(spec, offset, m);
    LosingRunFires(spec, offset, s, m);
    assert Steady(ticks, spec, offset) && ByItself(ticks, s);
    hide Steady, ByItself;
    assert !FiresOnce(Firings(None, ticks), m + MINUTE);
  }

  /** Every matching minute is served, in every such run, exactly when the schedule never matches two
      minutes in a row. */
  lemma ServesAllIff(spec: string, offset: int, s: Schedule)
    requires ParseSchedule(spec, offset) == Good(s)
    ensures ServesAll(spec, offset, s) <==> forall m :: !Adjacent(s, m)
  {
    assert spec != "" by { assert TrimSpace("") == ""; }
    hide MatchAt, ParseSchedule, Firings, FiresOnce, Adjacent, ByItself;
    if m :| Adjacent(s, m) {
      AdjacentLoses(spec, offset, s, m);
    } else {
      forall ticks: seq<Tick>, m | Steady(ticks, spec, offset) && ByItself(ticks, s) && MatchAt(s, m) && ticks[0].now < m <= ticks[|ticks| - 1].now
        ensures FiresOnce(Firings(None, ticks), m)
      {
        ServedOnce(spec, offset, s, ticks, m);
      }
    }
  }

  // ---------- The every-minute schedule ----------

  const EVERY := Schedule(AllOf(0, 59), AllOf(0, 23), AllOf(1, 31), AllOf(1, 12), AllOf(0, 6), 0)

  lemma EveryMinuteMatches(t: int)
    ensures Matches(EVERY, t)
  {
    var n := t / MINUTE;
    assert Between(0, n % 60, 59) && Between(0, (n / 60) % 24, 23) && Between(1, DateOf(n / 1440).month, 12);
  }

  lemma StarWords(n: nat, s: string)
    requires |s| == 2 * n + 1 && forall i :: 0 <= i < |s| ==> s[i] == if i % 2 == 0 then '*' else ' '
    ensures Fields(s) == seq(n + 1, _ => "*")
  {
    assert WordLength(s) == 1 by {
      assert s[0] == '*';
      if n > 0 { assert s[1] == ' ' && s[1..][0] == ' '; } else { assert s[1..] == []; }
    }
    assert s[..1] == "*";
    if n > 0 {
      assert s[1..][0] == ' ' && s[1..][1..] == s[2..];
      StarWords(n - 1, s[2..]);
      assert Fields(s[1..]) == Fields(s[2..]);
      assert Fields(s) == ["*"] + seq(n, _ => "*");
    } else {
      assert s[1..] == [] && Fields(s) == ["*"];
    }
  }

  lemma StarField(min: int, max: int)
    ensures FieldMeaning("*", min, max) == Parsed(AllOf(min, max))
  {}

  lemma StarsParse(text: string)
    requires text != "" && TrimSpace(text) == text && Expanded(text) == text && Fields(text) == seq(5, _ => "*")
    ensures ParseSchedule(text, 0) == Good(EVERY)
  {
    hide Fields, TrimSpace, Expanded, FieldMeaning, AllOf;
    StarField(0, 59);
    StarField(0, 23);
    StarField(1, 31);
    StarField(1, 12);
    StarField(0, 6);
  }

  lemma EveryMinuteParses()
    ensures ParseSchedule("* * * * *", 0) == Good(EVERY)
  {
    var text := "* * * * *";
    assert TrimSpace(text) == text;
    assert Expanded(text) == text by { assert text[0] == '*'; }
    StarWords(4, text);
    hide *;
    StarsParse(text);
  }

  /** At midnight of day 0 the every-minute schedule should fire next after one minute; having just fired,
      the loop plans the minute after that. */
  lemma EveryMinuteSkips()
    ensures Next(EVERY, 0) == Some(MINUTE) && Next(EVERY, 0 + MINUTE) == Some(2 * MINUTE)
  {
    hide Matches;
    EveryMinuteMatches(MINUTE);
    EveryMinuteMatches(2 * MINUTE);
    MinuteInstant(0);
    MinuteInstant(1);
    MinuteInstant(2);
    NextAtMost(EVERY, 0, MINUTE);
    NextAtMost(EVERY, MINUTE, 2 * MINUTE);
    NextIsLeast(EVERY, 0);
    NextIsLeast(EVERY, MINUTE);
    NextWhole(0);
    NextWhole(MINUTE);
  }

  /** So "* * * * *" does not serve every minute. */
  lemma EveryMinuteLosesRuns()
    ensures !ServesAll("* * * * *", 0, EVERY)
  {
    EveryMinuteParses();
    EveryMinuteMatches(0);
    EveryMinuteMatches(MINUTE);
    MinuteInstant(0);
    MinuteInstant(1);
    hide ParseSchedule, ServesAll, Matches;
    assert Adjacent(EVERY, 0);
    ServesAllIff("* * * * *", 0, EVERY);
  }
}
