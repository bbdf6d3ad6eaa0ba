/** One field of a cron expression (internal/admin/cron.go, `parseField`): comma-separated
    parts, each `*`, a number or a range, with an optional step. */
module CronField {
  import opened Text

  datatype FieldRange = FieldRange(min: int, max: int)

  const RANGE_MINUTE := FieldRange(0, 59)
  const RANGE_HOUR := FieldRange(0, 23)
  const RANGE_DOM := FieldRange(1, 31)
  const RANGE_MONTH := FieldRange(1, 12)
  const RANGE_DOW := FieldRange(0, 6)

  predicate CronRange(fr: FieldRange) {
    0 <= fr.min <= fr.max <= 59
  }

  /** A part names the numbers lo, lo + step, lo + 2 * step, ... up to hi. */
  datatype Part = Part(lo: int, hi: int, step: int)

  predicate PartIn(p: Part, fr: FieldRange) {
    fr.min <= p.lo <= p.hi <= fr.max && 1 <= p.step <= MAX_INT
  }

  // ---------- reading the text ----------

  function Bounds(body: string, fr: FieldRange): Option<(int, int)> {
    if body == "*" then Some((fr.min, fr.max))
    else
      var j := IndexOf(body, '-');
      if j >= 0 then
        match (Atoi(body[..j]), Atoi(body[j + 1..]))
        case (Some(a), Some(b)) => Some((a, b))
        case _ => None
      else
        match Atoi(body)
        case Some(n) => Some((n, n))
        case None => None
  }

  /** The meaning of one list element; `None` is a rejected element. */
  function PartOf(part: string, fr: FieldRange): (r: Option<Part>)
    ensures r.Some? ==> PartIn(r.value, fr)
  {
    if part == "" then None
    else
      var i := IndexOf(part, '/');
      var step := if i >= 0 then Atoi(part[i + 1..]) else Some(1);
      if step.None? || step.value <= 0 then None
      else
        match Bounds(if i >= 0 then part[..i] else part, fr)
        case None => None
        case Some((lo, hi)) =>
          if lo < fr.min || hi > fr.max || lo > hi then None else Some(Part(lo, hi, step.value))
  }

  /** The grammar of a list element without its step: a star, a range or a number. */
  ghost predicate BodyReads(body: string, fr: FieldRange, lo: int, hi: int) {
    || (body == "*" && lo == fr.min && hi == fr.max)
    || (exists x, y :: RangeReads(body, x, y, lo, hi))
    || ('-' !in body && Atoi(body) == Some(lo) && lo == hi)
  }

  predicate RangeReads(body: string, x: string, y: string, lo: int, hi: int) {
    '-' !in x && body == x + ['-'] + y && Atoi(x) == Some(lo) && Atoi(y) == Some(hi)
  }

  predicate StepReads(part: string, body: string, text: string, step: int) {
    '/' !in body && part == body + ['/'] + text && Atoi(text) == Some(step)
  }

  /** The grammar of a list element: a body, optionally a slash and a step, with the bounds in
      order and in range and the step positive. */
  ghost predicate PartReads(part: string, fr: FieldRange, p: Part) {
    && fr.min <= p.lo <= p.hi <= fr.max && p.step >= 1
    && (|| ('/' !in part && p.step == 1 && BodyReads(part, fr, p.lo, p.hi))
        || (exists body, text :: StepReads(part, body, text, p.step) && BodyReads(body, fr, p.lo, p.hi)))
  }

  lemma RangeBounds(body: string, fr: FieldRange, x: string, y: string, lo: int, hi: int)
    requires RangeReads(body, x, y, lo, hi)
    ensures Bounds(body, fr) == Some((lo, hi)) && '-' in body
  {
    hide Atoi, IndexOf;
    IndexAfter(x, '-', y);
    assert body[..|x|] == x && body[|x| + 1..] == y && body[|x|] == '-';
    assert body != "*";
  }

  lemma BoundsRange(body: string, fr: FieldRange, lo: int, hi: int) returns (x: string, y: string)
    requires Bounds(body, fr) == Some((lo, hi)) && '-' in body
    ensures RangeReads(body, x, y, lo, hi)
  {
    hide Atoi, IndexOf;
    var j := IndexOf(body, '-');
    CutAt(body, j);
    x, y := body[..j], body[j + 1..];
  }

  lemma BoundsExactlyWhen(body: string, fr: FieldRange, lo: int, hi: int)
    ensures Bounds(body, fr) == Some((lo, hi)) <==> BodyReads(body, fr, lo, hi)
  {
    hide Atoi, IndexOf, RangeReads;
    StarIsNoNumber();
    if x, y :| RangeReads(body, x, y, lo, hi) {
      RangeBounds(body, fr, x, y, lo, hi);
    }
    if Bounds(body, fr) == Some((lo, hi)) && '-' in body {
      var x, y := BoundsRange(body, fr, lo, hi);
    }
  }

  lemma StarIsNoNumber()
    ensures Atoi("*") == None && '-' !in "*" && IndexOf("*", '-') == -1
  {
    AtoiRefuses("*", 0);
  }

  /** An element is accepted, and means `p`, exactly when it reads as `p` in the grammar:
      everything else, an inverted or out-of-range pair, a step of zero, an empty element or a
      word, is refused. */
  lemma PartExactlyWhen(part: string, fr: FieldRange, p: Part)
    ensures PartOf(part, fr) == Some(p) <==> PartReads(part, fr, p)
  {
    hide Atoi, Bounds, BodyReads;
    var i := IndexOf(part, '/');
    var body := if i >= 0 then part[..i] else part;
    BoundsExactlyWhen(body, fr, p.lo, p.hi);
    if part == "" {
      EmptyReadsNothing(fr, p.lo, p.hi);
    } else {
      if PartOf(part, fr) == Some(p) && i >= 0 {
        CutAt(part, i);
        assert StepReads(part, body, part[i + 1..], p.step);
      }
      if body', text :| StepReads(part, body', text, p.step) && BodyReads(body', fr, p.lo, p.hi) {
        IndexAfter(body', '/', text);
        assert part[..|body'|] == body' && part[|body'| + 1..] == text;
      }
    }
  }

  lemma EmptyReadsNothing(fr: FieldRange, lo: int, hi: int)
    ensures !BodyReads("", fr, lo, hi)
  {
    assert Atoi("") == None;
  }

  lemma NumberText(n: int)
    requires 0 <= n <= MAX_INT
    ensures Atoi(Itoa(n)) == Some(n) && '-' !in Itoa(n) && '/' !in Itoa(n) && ',' !in Itoa(n) && Itoa(n) != ""
  {
    AtoiItoa(n);
    assert AllDigits(Itoa(n));
  }

  /** A written range is that range: accepted exactly when it is in order and in range. */
  lemma RangeText(a: int, b: int, fr: FieldRange)
    requires 0 <= a <= MAX_INT && 0 <= b <= MAX_INT
    ensures PartOf(Itoa(a) + ['-'] + Itoa(b), fr)
            == if fr.min <= a <= b <= fr.max then Some(Part(a, b, 1)) else None
  {
    hide Atoi, Itoa, IndexOf;
    var x, y := Itoa(a), Itoa(b);
    var part := x + ['-'] + y;
    NumberText(a);
    NumberText(b);
    IndexAfter(x, '-', y);
    assert part[..|x|] == x && part[|x| + 1..] == y && part[|x|] == '-';
    assert Bounds(part, fr) == Some((a, b));
  }

  /** A slash and a number make that number the step of whatever precedes them; a step of
      zero is refused. */
  lemma StepText(body: string, n: int, fr: FieldRange)
    requires '/' !in body && 0 <= n <= MAX_INT
    ensures PartOf(body + ['/'] + Itoa(n), fr)
            == if n == 0 || PartOf(body, fr).None? then None else Some(PartOf(body, fr).value.(step := n))
  {
    hide Atoi, Itoa, IndexOf, Bounds;
    var part := body + ['/'] + Itoa(n);
    NumberText(n);
    IndexAfter(body, '/', Itoa(n));
    assert part[..|body|] == body && part[|body| + 1..] == Itoa(n);
    assert IndexOf(body, '/') == -1;
    if body == "" {
      NoBounds(fr);
    }
  }

  lemma NoBounds(fr: FieldRange)
    ensures Bounds("", fr) == None
  {
  }

  /** A star with a step, as in every n-th value of the range. */
  lemma StarStepText(n: int, fr: FieldRange)
    requires CronRange(fr) && 1 <= n <= MAX_INT
    ensures PartOf(['*', '/'] + Itoa(n), fr) == Some(Part(fr.min, fr.max, n))
  {
    hide PartOf, Itoa;
    StarPart(fr);
    StepText("*", n, fr);
    assert "*" + ['/'] + Itoa(n) == ['*', '/'] + Itoa(n);
  }

  /** A word is refused: no star, no number, no range. */
  lemma WordRefused(word: string, i: int, fr: FieldRange)
    requires 0 <= i < |word| && word != "*" && '-' !in word && '/' !in word
    requires !IsDigit(word[i]) && (i == 0 ==> word[0] != '+')
    ensures PartOf(word, fr) == None && PartOf("", fr) == None
  {
    AtoiRefuses(word, i);
    hide Atoi;
  }

  function PartsOf(texts: seq<string>, fr: FieldRange): (r: Option<seq<Part>>)
    ensures r.Some? ==> |r.value| == |texts|
    ensures r.Some? ==> forall i | 0 <= i < |texts| :: PartOf(texts[i], fr) == Some(r.value[i])
    ensures r.None? ==> exists i | 0 <= i < |texts| :: PartOf(texts[i], fr).None?
  {
    if texts == [] then Some([])
    else
      match (PartsOf(texts[..|texts| - 1], fr), PartOf(texts[|texts| - 1], fr))
      case (Some(ps), Some(p)) => Some(ps + [p])
      case _ => None
  }

  /** The parts of a whole field; `None` when the field is empty or any part is rejected. */
  function FieldParts(s: string, fr: FieldRange): Option<seq<Part>> {
    if s == "" then None else PartsOf(Split(s, ','), fr)
  }

  // ---------- the numbers a part names ----------

  function Term(lo: int, step: int, k: int): int {
    lo + k * step
  }

  function Progression(lo: int, hi: int, step: int): set<int>
    requires step >= 1
  {
    set k | 0 <= k <= hi - lo && Term(lo, step, k) <= hi :: Term(lo, step, k)
  }

  /** Go's wrapping 64-bit addition of a positive step. */
  function WrapAdd(v: int, step: int): int {
    if v + step > MAX_INT then v + step - 0x1_0000_0000_0000_0000 else v + step
  }

  /** Strictly decreasing along the wrapping step loop. */
  function StepMeasure(v: int, hi: int, step: int): int {
    if v > hi then 0
    else if step <= MAX_INT - 100 then hi - v + 1
    else if v >= 0 then 2 * v + 1
    else if v + step > hi then 1
    else if v + step >= 0 then 2 * (v + step) + 2
    else 2
  }

  /** The numbers visited by `for v := lo; v <= hi; v += step` with wrapping addition. */
  function Swept(v: int, hi: int, step: int): set<int>
    requires MIN_INT <= v && 0 <= hi <= 59 && 1 <= step <= MAX_INT
    decreases StepMeasure(v, hi, step)
  {
    if v > hi then {} else {v} + Swept(WrapAdd(v, step), hi, step)
  }

  lemma TermShift(lo: int, step: int, k: int)
    ensures Term(lo, step, 0) == lo && Term(lo + step, step, k) == Term(lo, step, k + 1)
    ensures step >= 1 && k >= 0 ==> Term(lo, step, k) >= lo + k
  {
    if step >= 1 && k >= 0 {
      assert k * step >= k;
    }
  }

  lemma ProgressionStep(lo: int, hi: int, step: int)
    requires lo <= hi && step >= 1
    ensures Progression(lo, hi, step) == {lo} + Progression(lo + step, hi, step)
  {
    hide Term;
    var base := lo + step;
    TermShift(lo, step, 0);
    forall k | 1 <= k <= hi - lo && Term(lo, step, k) <= hi ensures Term(lo, step, k) in Progression(base, hi, step) {
      TermShift(lo, step, k - 1);
      TermShift(base, step, k - 1);
    }
    forall k | 0 <= k <= hi - base && Term(base, step, k) <= hi ensures Term(base, step, k) in Progression(lo, hi, step) {
      TermShift(lo, step, k);
    }
  }

  lemma ProgressionBounds(lo: int, hi: int, step: int, v: int)
    requires step >= 1 && v in Progression(lo, hi, step)
    ensures lo <= v <= hi
  {
  }

  lemma {:induction false} SweptIsProgression(lo: int, hi: int, step: int)
    requires 0 <= lo && 0 <= hi <= 59 && 1 <= step
    requires lo <= hi ==> lo + step <= MAX_INT
    requires step <= MAX_INT
    ensures Swept(lo, hi, step) == Progression(lo, hi, step)
    decreases hi - lo
  {
    if lo <= hi {
      ProgressionStep(lo, hi, step);
      SweptIsProgression(lo + step, hi, step);
    }
  }

  lemma SweptWraps(lo: int, hi: int, step: int)
    requires 0 <= lo <= hi <= 59 && 1 <= step <= MAX_INT
    requires lo + step > MAX_INT
    ensures WrapAdd(lo, step) in Swept(lo, hi, step) && MIN_INT <= WrapAdd(lo, step) < 0
  {
  }

  /** The step loop visits exactly the arithmetic progression if and only if its first
      addition does not overflow. When it does overflow, a negative number is visited. */
  lemma SweptExactlyWhen(lo: int, hi: int, step: int)
    requires 0 <= lo <= hi <= 59 && 1 <= step <= MAX_INT
    ensures Swept(lo, hi, step) == Progression(lo, hi, step) <==> lo + step <= MAX_INT
    ensures lo + step > MAX_INT ==> WrapAdd(lo, step) in Swept(lo, hi, step) && WrapAdd(lo, step) < 0
  {
    if lo + step <= MAX_INT {
      SweptIsProgression(lo, hi, step);
    } else {
      SweptWraps(lo, hi, step);
      var w := WrapAdd(lo, step);
      if w in Progression(lo, hi, step) {
        ProgressionBounds(lo, hi, step, w);
        assert false;
      }
    }
  }

  predicate Sound(p: Part) {
    0 <= p.lo <= p.hi <= 59 && 1 <= p.step <= MAX_INT
  }

  predicate AllSound(parts: seq<Part>) {
    forall i | 0 <= i < |parts| :: Sound(parts[i])
  }

  function SweptBy(p: Part): set<int>
    requires Sound(p)
  {
    Swept(p.lo, p.hi, p.step)
  }

  function NamedBy(p: Part): set<int>
    requires Sound(p)
  {
    Progression(p.lo, p.hi, p.step)
  }

  function Values(parts: seq<Part>): set<int>
    requires AllSound(parts)
  {
    set i, v | 0 <= i < |parts| && v in SweptBy(parts[i]) :: v
  }

  function Named(parts: seq<Part>): set<int>
    requires AllSound(parts)
  {
    set i, v | 0 <= i < |parts| && v in NamedBy(parts[i]) :: v
  }

  predicate StepFits(p: Part) {
    p.lo + p.step <= MAX_INT
  }

  predicate StepsFit(parts: seq<Part>) {
    forall i | 0 <= i < |parts| :: StepFits(parts[i])
  }

  /** A field means the union of its progressions, and lies in its range, if and only if no
      part's first step overflows. */
  lemma ValuesExactlyWhen(parts: seq<Part>, fr: FieldRange)
    requires CronRange(fr) && |parts| >= 1
    requires forall i | 0 <= i < |parts| :: PartIn(parts[i], fr)
    ensures AllSound(parts)
    ensures Values(parts) == Named(parts) <==> StepsFit(parts)
    ensures (forall v | v in Values(parts) :: fr.min <= v <= fr.max) <==> StepsFit(parts)
    ensures parts[0].lo in Values(parts)
  {
    assert AllSound(parts);
    assert parts[0].lo in SweptBy(parts[0]);
    NamedInRange(parts, fr);
    if StepsFit(parts) {
      forall i | 0 <= i < |parts| ensures SweptBy(parts[i]) == NamedBy(parts[i]) {
        assert StepFits(parts[i]);
        SweptExactlyWhen(parts[i].lo, parts[i].hi, parts[i].step);
      }
      assert Values(parts) == Named(parts);
    } else {
      var i :| 0 <= i < |parts| && !StepFits(parts[i]);
      SweptExactlyWhen(parts[i].lo, parts[i].hi, parts[i].step);
      var w := WrapAdd(parts[i].lo, parts[i].step);
      assert w in SweptBy(parts[i]);
      assert w in Values(parts) && w < fr.min;
    }
  }

  lemma NamedInRange(parts: seq<Part>, fr: FieldRange)
    requires CronRange(fr) && AllSound(parts)
    requires forall i | 0 <= i < |parts| :: PartIn(parts[i], fr)
    ensures forall v | v in Named(parts) :: fr.min <= v <= fr.max
  {
  }

  /** The overflow is reachable: the minute field `1/9223372036854775807` is accepted and
      also names two negative minutes. */
  lemma StepOverflowWitness()
    ensures PartOf("1/" + Itoa(MAX_INT), RANGE_MINUTE) == Some(Part(1, 1, MAX_INT))
    ensures Swept(1, 1, MAX_INT) == {1, MIN_INT, -1}
  {
    assert Swept(1, 1, MAX_INT) == {1, MIN_INT, -1} by {
      assert Swept(MAX_INT - 1, 1, MAX_INT) == {};
      assert Swept(-1, 1, MAX_INT) == {-1};
      assert Swept(MIN_INT, 1, MAX_INT) == {MIN_INT, -1};
    }
    hide PartOf, Itoa;
    OneSlash(MAX_INT);
  }

  lemma OneSlash(n: int)
    requires 1 <= n <= MAX_INT
    ensures PartOf("1/" + Itoa(n), RANGE_MINUTE) == Some(Part(1, 1, n))
  {
    var text := Itoa(n);
    AtoiItoa(n);
    hide Atoi;
    var part := "1/" + text;
    assert part[0] == '1' && part[1] == '/';
    assert '/' !in part[..1];
    assert IndexOf(part, '/') == 1;
    assert part[2..] == text;
    assert part[..1] == "1" == Itoa(1);
    AtoiItoa(1);
  }

  // ---------- the parser ----------

  ghost predicate Ascending(xs: seq<int>) {
    forall i, j | 0 <= i < j < |xs| :: xs[i] < xs[j]
  }

  /** `xs` is the result the parser owes for field text `s`. */
  ghost predicate Lists(xs: seq<int>, s: string, fr: FieldRange)
    requires CronRange(fr)
  {
    FieldParts(s, fr).Some? && Ascending(xs) && (set v | v in xs) == FieldValues(s, fr)
  }

  ghost function FieldValues(s: string, fr: FieldRange): set<int>
    requires CronRange(fr) && FieldParts(s, fr).Some?
  {
    var parts := FieldParts(s, fr).value;
    assert AllSound(parts);
    Values(parts)
  }

  /** `contains`: a read-only scan. */
  method Contains(xs: seq<int>, v: int) returns (found: bool)
    ensures found <==> v in xs
  {
    for i := 0 to |xs|
      invariant v !in xs[..i]
    {
      if xs[i] == v {
        return true;
      }
    }
    return false;
  }

  method SweepPart(p: Part, seen: set<int>) returns (out: set<int>)
    requires Sound(p)
    ensures out == seen + SweptBy(p)
  {
    out := seen;
    var v := p.lo;
    while v <= p.hi
      invariant MIN_INT <= v
      invariant out + Swept(v, p.hi, p.step) == seen + SweptBy(p)
      decreases StepMeasure(v, p.hi, p.step)
    {
      out := out + {v};
      v := WrapAdd(v, p.step);
    }
  }

  /** The inner loop of the insertion sort: slide element `i` down to its place. */
  method SlideDown(a: array<int>, i: nat)
    requires 1 <= i < a.Length && forall x, y | 0 <= x < y < i :: a[x] <= a[y]
    modifies a
    ensures forall x, y | 0 <= x < y <= i :: a[x] <= a[y]
    ensures multiset(a[..]) == multiset(old(a[..]))
  {
    var j := i;
    while j > 0 && a[j] < a[j - 1]
      invariant 0 <= j <= i
      invariant forall x, y | 0 <= x < y <= i && y != j :: a[x] <= a[y]
      invariant multiset(a[..]) == multiset(old(a[..]))
    {
      a[j], a[j - 1] := a[j - 1], a[j];
      j := j - 1;
    }
  }

  method InsertionSort(a: array<int>)
    modifies a
    ensures forall x, y | 0 <= x < y < a.Length :: a[x] <= a[y]
    ensures multiset(a[..]) == multiset(old(a[..]))
  {
    if a.Length == 0 {
      return;
    }
    for i := 1 to a.Length
      invariant forall x, y | 0 <= x < y < i :: a[x] <= a[y]
      invariant multiset(a[..]) == multiset(old(a[..]))
    {
      SlideDown(a, i);
    }
  }

  lemma SortedDistinctAscending(xs: seq<int>, s: set<int>)
    requires forall x, y | 0 <= x < y < |xs| :: xs[x] <= xs[y]
    requires multiset(xs) == multiset(s)
    ensures Ascending(xs) && (set v | v in xs) == s
  {
    forall i, j | 0 <= i < j < |xs| ensures xs[i] < xs[j] {
      assert xs == xs[..i] + [xs[i]] + xs[i + 1..j] + [xs[j]] + xs[j + 1..];
      assert xs[i] == xs[j] ==> multiset(xs)[xs[i]] >= 2;
      assert multiset(xs)[xs[i]] == multiset(s)[xs[i]] <= 1;
    }
    forall v ensures v in xs <==> v in s {
      assert v in xs <==> v in multiset(xs);
      assert v in s <==> v in multiset(s);
    }
  }

  /** Lists a set in an arbitrary order, as ranging over a Go map does. */
  method ListValues(seen: set<int>) returns (listed: seq<int>)
    ensures multiset(listed) == multiset(seen)
  {
    listed := [];
    var rest: set<int> := seen;
    while rest != {}
      invariant multiset(listed) + multiset(rest) == multiset(seen)
      decreases rest
    {
      assert (forall x :: x !in rest) ==> rest == {};
      var v: int :| v in rest;
      listed, rest := listed + [v], rest - {v};
    }
  }

  method SortedValues(seen: set<int>) returns (xs: seq<int>)
    ensures Ascending(xs) && (set v | v in xs) == seen
  {
    var listed := ListValues(seen);
    var out := new int[|listed|](i requires 0 <= i < |listed| => listed[i]);
    assert out[..] == listed;
    InsertionSort(out);
    SortedDistinctAscending(out[..], seen);
    xs := out[..];
  }

  /** Parses one field: accepted exactly when every part is, and then the ascending list of
      the numbers the step loops visit. */
  method ParseField(s: string, fr: FieldRange) returns (r: Option<seq<int>>)
    requires CronRange(fr)
    ensures r.Some? <==> FieldParts(s, fr).Some?
    ensures r.Some? ==> Lists(r.value, s, fr)
  {
    if s == "" {
      return None;
    }
    var texts := Split(s, ',');
    var seen: set<int> := {};
    ghost var done: seq<Part> := [];
    for k := 0 to |texts|
      invariant PartsOf(texts[..k], fr) == Some(done) && AllSound(done)
      invariant seen == Values(done)
    {
      var p := PartOf(texts[k], fr);
      PartsOfStep(texts, k, fr);
      if p.None? {
        return None;
      }
      seen := SweepPart(p.value, seen);
      ValuesSnoc(done, p.value);
      done := done + [p.value];
    }
    assert texts[..|texts|] == texts;
    var xs := SortedValues(seen);
    r := Some(xs);
  }

  lemma PartsOfStep(texts: seq<string>, k: int, fr: FieldRange)
    requires 0 <= k < |texts|
    ensures PartOf(texts[k], fr).None? ==> PartsOf(texts, fr).None?
    ensures PartsOf(texts[..k], fr).Some? && PartOf(texts[k], fr).Some? ==>
              PartsOf(texts[..k + 1], fr) == Some(PartsOf(texts[..k], fr).value + [PartOf(texts[k], fr).value])
  {
    assert texts[..k + 1][..k] == texts[..k];
  }

  lemma ValuesSnoc(ps: seq<Part>, p: Part)
    requires AllSound(ps) && Sound(p)
    ensures AllSound(ps + [p])
    ensures Values(ps + [p]) == Values(ps) + SweptBy(p)
  {
    var all := ps + [p];
    forall v | v in SweptBy(p) ensures v in Values(all) {
      assert all[|ps|] == p;
    }
    forall v | v in Values(ps) ensures v in Values(all) {
      var i :| 0 <= i < |ps| && v in SweptBy(ps[i]);
      assert all[i] == ps[i];
    }
  }

  /** What an accepted field promises its caller: a non-empty ascending list which is in
      range, and is the union of the progressions written, exactly when no step overflows. */
  lemma AcceptedField(xs: seq<int>, s: string, fr: FieldRange)
    requires CronRange(fr) && Lists(xs, s, fr)
    ensures xs != []
    ensures (forall v | v in xs :: fr.min <= v <= fr.max) <==> StepsFit(FieldParts(s, fr).value)
    ensures (set v | v in xs) == Named(FieldParts(s, fr).value) <==> StepsFit(FieldParts(s, fr).value)
  {
    var parts := FieldParts(s, fr).value;
    ValuesExactlyWhen(parts, fr);
    assert parts[0].lo in FieldValues(s, fr);
    assert forall v :: v in xs <==> v in Values(parts);
  }

  /** A list is accepted exactly when both halves are, and names what either names. */
  lemma ListReads(x: string, y: string, fr: FieldRange)
    requires CronRange(fr) && ',' !in x
    ensures FieldParts(x + [','] + y, fr).Some? <==> FieldParts(x, fr).Some? && FieldParts(y, fr).Some?
    ensures FieldParts(x + [','] + y, fr).Some? ==>
              FieldValues(x + [','] + y, fr) == FieldValues(x, fr) + FieldValues(y, fr)
  {
    hide FieldParts, PartsOf, Values, Split;
    var s := x + [','] + y;
    FieldPartsAre(s, fr);
    FieldPartsAre(x, fr);
    FieldPartsAre(y, fr);
    SplitCons(x, y, ',');
    SplitAlone(x, ',');
    PartsConcat([x], Split(y, ','), fr);
    if FieldParts(s, fr).Some? {
      ValuesConcat(FieldParts(x, fr).value, FieldParts(y, fr).value);
    }
  }

  lemma SplitAlone(x: string, c: char)
    requires c !in x
    ensures Split(x, c) == [x]
  {
  }

  lemma FieldPartsAre(s: string, fr: FieldRange)
    ensures FieldParts(s, fr) == PartsOf(Split(s, ','), fr)
  {
    hide PartOf;
    if s == "" {
      SplitAlone("", ',');
      EmptyRefused(fr);
    }
  }

  lemma EmptyRefused(fr: FieldRange)
    ensures PartOf("", fr).None? && PartsOf([""], fr).None?
  {
  }

  lemma {:induction false} PartsConcat(a: seq<string>, b: seq<string>, fr: FieldRange)
    ensures PartsOf(a + b, fr).Some? <==> PartsOf(a, fr).Some? && PartsOf(b, fr).Some?
    ensures PartsOf(a + b, fr).Some? ==> PartsOf(a + b, fr).value == PartsOf(a, fr).value + PartsOf(b, fr).value
    decreases |b|
  {
    hide PartOf;
    if b == [] {
      assert a + b == a;
    } else {
      var n := |a + b| - 1;
      assert (a + b)[..n] == a + b[..|b| - 1] && (a + b)[n] == b[|b| - 1];
      PartsConcat(a, b[..|b| - 1], fr);
    }
  }

  lemma {:induction false} ValuesConcat(a: seq<Part>, b: seq<Part>)
    requires AllSound(a) && AllSound(b)
    ensures AllSound(a + b) && Values(a + b) == Values(a) + Values(b)
    decreases |b|
  {
    hide Swept;
    if b == [] {
      assert a + b == a && Values(b) == {};
    } else {
      var init, last := b[..|b| - 1], b[|b| - 1];
      ValuesConcat(a, init);
      ValuesSnoc(a + init, last);
      ValuesSnoc(init, last);
      assert a + init + [last] == a + b && init + [last] == b;
    }
  }

  predicate SomeIn(xs: seq<int>, fr: FieldRange) {
    exists v :: v in xs && fr.min <= v <= fr.max
  }

  /** Even a field whose steps overflow lists a value of its range. */
  lemma AcceptedListsSome(xs: seq<int>, s: string, fr: FieldRange)
    requires CronRange(fr) && Lists(xs, s, fr)
    ensures SomeIn(xs, fr)
  {
    var parts := FieldParts(s, fr).value;
    assert |parts| == |Split(s, ',')| >= 1;
    ValuesExactlyWhen(parts, fr);
    hide Values, FieldParts;
    assert PartIn(parts[0], fr);
    assert parts[0].lo in (set v | v in xs);
  }

  /** A field of one part lists what that part's progression names. */
  lemma OnePartLists(xs: seq<int>, s: string, fr: FieldRange, p: Part)
    requires CronRange(fr) && s != "" && ',' !in s && PartOf(s, fr) == Some(p) && p.step == 1
    requires Ascending(xs) && forall v :: v in xs <==> p.lo <= v <= p.hi
    ensures Lists(xs, s, fr)
  {
    hide PartOf, Swept, Progression, Values;
    OnePart(s, fr, p);
    OneValue(p);
    hide FieldParts;
    SweptIsProgression(p.lo, p.hi, 1);
    UnitProgression(p.lo, p.hi);
    assert FieldValues(s, fr) == SweptBy(p);
    assert SweptBy(p) == Progression(p.lo, p.hi, 1);
    forall v ensures v in xs <==> v in SweptBy(p) {
    }
  }

  /** And lists nothing else. */
  lemma OnePartMeans(xs: seq<int>, s: string, fr: FieldRange, p: Part)
    requires CronRange(fr) && s != "" && ',' !in s && PartOf(s, fr) == Some(p) && p.step == 1 && Lists(xs, s, fr)
    ensures forall v :: v in xs <==> p.lo <= v <= p.hi
  {
    hide PartOf, Swept, Progression, Values;
    OnePart(s, fr, p);
    OneValue(p);
    hide FieldParts;
    SweptIsProgression(p.lo, p.hi, 1);
    UnitProgression(p.lo, p.hi);
    assert SweptBy(p) == Progression(p.lo, p.hi, 1);
    assert FieldValues(s, fr) == SweptBy(p);
    var all := set w | w in xs;
    assert all == Progression(p.lo, p.hi, 1);
    forall v ensures v in xs <==> p.lo <= v <= p.hi {
      assert v in xs <==> v in all;
    }
  }

  lemma NumberMeans(xs: seq<int>, n: int, fr: FieldRange)
    requires CronRange(fr) && fr.min <= n <= fr.max && Lists(xs, Itoa(n), fr)
    ensures forall v :: v in xs <==> v == n
  {
    hide PartOf, Itoa, FieldParts, Lists;
    PlainNumber(n, fr);
    OnePartMeans(xs, Itoa(n), fr, Part(n, n, 1));
  }

  lemma StarMeans(xs: seq<int>, fr: FieldRange)
    requires CronRange(fr) && Lists(xs, "*", fr)
    ensures forall v :: v in xs <==> fr.min <= v <= fr.max
  {
    StarPart(fr);
    hide PartOf, FieldParts, Lists;
    OnePartMeans(xs, "*", fr, Part(fr.min, fr.max, 1));
  }

  lemma OnePart(s: string, fr: FieldRange, p: Part)
    requires s != "" && ',' !in s && PartOf(s, fr) == Some(p)
    ensures FieldParts(s, fr) == Some([p])
  {
    hide PartOf;
    assert Split(s, ',') == [s];
    assert [s][..0] == [] && PartsOf([], fr) == Some([]);
    assert PartsOf([s], fr) == Some([] + [p]);
    assert [] + [p] == [p];
  }

  lemma OneValue(p: Part)
    requires Sound(p)
    ensures AllSound([p]) && Values([p]) == SweptBy(p)
  {
    hide Swept;
    ValuesSnoc([], p);
    assert [] + [p] == [p] && Values([]) == {};
  }

  lemma UnitProgression(lo: int, hi: int)
    ensures forall v :: v in Progression(lo, hi, 1) <==> lo <= v <= hi
  {
    forall v | lo <= v <= hi ensures v in Progression(lo, hi, 1) {
      assert Term(lo, 1, v - lo) == v;
    }
  }

  /** A plain number names itself, and a star the whole range. */
  lemma NumberLists(n: int, fr: FieldRange)
    requires CronRange(fr) && fr.min <= n <= fr.max
    ensures Lists([n], Itoa(n), fr)
  {
    hide PartOf, Itoa, FieldParts, Lists;
    PlainNumber(n, fr);
    OnePartLists([n], Itoa(n), fr, Part(n, n, 1));
  }

  lemma PlainNumber(n: int, fr: FieldRange)
    requires CronRange(fr) && fr.min <= n <= fr.max
    ensures ',' !in Itoa(n) && Itoa(n) != "" && PartOf(Itoa(n), fr) == Some(Part(n, n, 1))
  {
    AtoiItoa(n);
    assert AllDigits(Itoa(n));
    hide Atoi, Itoa;
    assert '/' !in Itoa(n) && '-' !in Itoa(n) && '*' !in Itoa(n);
    assert Itoa(n) != "*";
  }

  /** A range in range lists every value from its start to its end. */
  lemma RangeLists(xs: seq<int>, a: int, b: int, fr: FieldRange)
    requires CronRange(fr) && fr.min <= a <= b <= fr.max
    requires Ascending(xs) && forall v :: v in xs <==> a <= v <= b
    ensures Lists(xs, Itoa(a) + ['-'] + Itoa(b), fr)
  {
    hide PartOf, Itoa, FieldParts, Lists;
    RangeText(a, b, fr);
    NumberText(a);
    NumberText(b);
    OnePartLists(xs, Itoa(a) + ['-'] + Itoa(b), fr, Part(a, b, 1));
  }

  lemma StarPart(fr: FieldRange)
    requires CronRange(fr)
    ensures PartOf("*", fr) == Some(Part(fr.min, fr.max, 1))
  {
    assert IndexOf("*", '/') == -1;
  }

  lemma StarLists(xs: seq<int>, fr: FieldRange)
    requires CronRange(fr) && Ascending(xs) && forall v :: v in xs <==> fr.min <= v <= fr.max
    ensures Lists(xs, "*", fr)
  {
    StarPart(fr);
    hide PartOf, FieldParts, Lists;
    OnePartLists(xs, "*", fr, Part(fr.min, fr.max, 1));
  }
}
