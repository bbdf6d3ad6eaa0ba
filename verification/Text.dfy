/** Strings as the Go standard library sees them. A Go string is a sequence of bytes; one
    `char` stands for one character, and everything but the white-space functions looks at
    ASCII characters only, for which the two are the same. */
module Text {

  datatype Option<+T> = None | Some(value: T)

  const MAX_INT: int := 0x7FFF_FFFF_FFFF_FFFF
  const MIN_INT: int := -0x8000_0000_0000_0000

  // ---------- searching and splitting ----------

  /** `strings.IndexByte`: the first position of `c`, or -1. */
  function IndexOf(s: string, c: char): (i: int)
    ensures -1 <= i < |s|
    ensures i >= 0 ==> s[i] == c && c !in s[..i]
    ensures i == -1 <==> c !in s
  {
    if s == [] then -1
    else if s[0] == c then 0
    else
      var k := IndexOf(s[1..], c);
      if k < 0 then -1
      else
        assert s[..k + 1] == [s[0]] + s[1..][..k];
        k + 1
  }

  /** `strings.Split` on a one-byte separator: never empty, pieces free of the separator. */
  function Split(s: string, c: char): (parts: seq<string>)
    ensures |parts| >= 1
    ensures forall i | 0 <= i < |parts| :: c !in parts[i]
    decreases |s|
  {
    var i := IndexOf(s, c);
    if i < 0 then [s] else [s[..i]] + Split(s[i + 1..], c)
  }

  /** `strings.Join` on a one-byte separator. */
  function Join(parts: seq<string>, c: char): string
    requires |parts| >= 1
  {
    if |parts| == 1 then parts[0] else parts[0] + [c] + Join(parts[1..], c)
  }

  lemma {:induction false} JoinSplit(s: string, c: char)
    ensures Join(Split(s, c), c) == s
    decreases |s|
  {
    var i := IndexOf(s, c);
    if i >= 0 {
      JoinSplit(s[i + 1..], c);
      assert Split(s, c)[1..] == Split(s[i + 1..], c);
      CutAt(s, i);
    }
  }

  /** Splitting after a first piece. */
  lemma SplitCons(x: string, y: string, c: char)
    requires c !in x
    ensures Split(x + [c] + y, c) == [x] + Split(y, c)
  {
    var s := x + [c] + y;
    IndexAfter(x, c, y);
    assert s[..|x|] == x && s[|x| + 1..] == y;
  }

  lemma IndexAfter(x: string, c: char, rest: string)
    requires c !in x
    ensures IndexOf(x + [c] + rest, c) == |x|
  {
    var s := x + [c] + rest;
    var i := IndexOf(s, c);
    assert s[|x|] == c;
    assert forall k | 0 <= k < |x| :: s[k] == x[k];
    assert forall k | 0 <= k < i :: s[k] != c by {
      assert forall k | 0 <= k < i :: s[k] == s[..i][k];
    }
  }

  lemma SplitHead(a: string, rest: string, b: string, rest': string, c: char)
    requires c !in a && c !in b
    requires a + [c] + rest == b + [c] + rest'
    ensures a == b && rest == rest'
  {
    var s, s' := a + [c] + rest, b + [c] + rest';
    assert s[|a|] == c && s'[|b|] == c;
    assert |a| == |b|;
    assert a == s[..|a|] && b == s'[..|b|];
    assert rest == s[|a| + 1..] && rest' == s'[|b| + 1..];
  }

  /** Joining is injective on lists of one length whose pieces, the last excepted, are
      free of the separator. */
  lemma {:induction false} JoinInjective(xs: seq<string>, ys: seq<string>, c: char)
    requires |xs| == |ys| >= 1
    requires forall i | 0 <= i < |xs| - 1 :: c !in xs[i] && c !in ys[i]
    requires Join(xs, c) == Join(ys, c)
    ensures xs == ys
  {
    if |xs| > 1 {
      SplitHead(xs[0], Join(xs[1..], c), ys[0], Join(ys[1..], c), c);
      JoinInjective(xs[1..], ys[1..], c);
      assert xs == [xs[0]] + xs[1..] && ys == [ys[0]] + ys[1..];
    }
  }

  function Occurs(s: string, c: char): nat {
    if s == [] then 0 else Occurs(s[1..], c) + if s[0] == c then 1 else 0
  }

  lemma {:induction false} OccursConcat(a: string, b: string, c: char)
    ensures Occurs(a + b, c) == Occurs(a, c) + Occurs(b, c)
  {
    if a == [] {
      assert a + b == b;
    } else {
      assert (a + b)[1..] == a[1..] + b;
      OccursConcat(a[1..], b, c);
    }
  }

  lemma {:induction false} OccursNone(s: string, c: char)
    ensures Occurs(s, c) == 0 <==> c !in s
  {
    if s != [] {
      OccursNone(s[1..], c);
    }
  }

  /** Occurrences on both sides of one separator. */
  lemma OccursAround(a: string, b: string, c: char)
    ensures Occurs(a + [c] + b, c) == Occurs(a, c) + 1 + Occurs(b, c)
  {
    OccursConcat(a + [c], b, c);
    OccursConcat(a, [c], c);
  }

  predicate AllFree(parts: seq<string>, c: char) {
    forall i | 0 <= i < |parts| :: c !in parts[i]
  }

  /** A joined text holds its separators, and no other exactly when its pieces hold none. */
  lemma {:induction false} OccursJoin(parts: seq<string>, c: char)
    requires |parts| >= 1
    ensures Occurs(Join(parts, c), c) >= |parts| - 1
    ensures Occurs(Join(parts, c), c) == |parts| - 1 <==> AllFree(parts, c)
  {
    OccursNone(parts[0], c);
    if |parts| > 1 {
      OccursJoin(parts[1..], c);
      OccursAround(parts[0], Join(parts[1..], c), c);
      assert parts == [parts[0]] + parts[1..];
    }
  }

  /** Pieces free of the separator are the only pieces that join to their text. */
  lemma JoinUnique(xs: seq<string>, ys: seq<string>, c: char)
    requires |xs| == |ys| >= 1 && AllFree(xs, c) && Join(xs, c) == Join(ys, c)
    ensures xs == ys
  {
    OccursJoin(xs, c);
    OccursJoin(ys, c);
    JoinInjective(xs, ys, c);
  }

  lemma CutAt(s: string, i: int)
    requires 0 <= i < |s|
    ensures s == s[..i] + [s[i]] + s[i + 1..]
  {
  }

  lemma MoveLeft(u: string, v: string, rest: string, c: char)
    ensures u + [c] + v + [c] + rest == u + [c] + (v + [c] + rest)
  {
  }

  /** Pieces of which one holds the separator are not the only ones that join to their text. */
  lemma {:induction false} JoinAmbiguous(xs: seq<string>, c: char) returns (ys: seq<string>)
    requires |xs| >= 2 && !AllFree(xs, c)
    ensures |ys| == |xs| && ys != xs && Join(ys, c) == Join(xs, c)
  {
    if c in xs[0] {
      var i := IndexOf(xs[0], c);
      var u, v := xs[0][..i], xs[0][i + 1..];
      CutAt(xs[0], i);
      ys := [u, v + [c] + xs[1]] + xs[2..];
      assert ys[0] != xs[0];
      assert ys[1..] == [v + [c] + xs[1]] + xs[2..] && xs[1..] == [xs[1]] + xs[2..];
      ShiftInto(v, xs[1], xs[2..], c);
      MoveLeft(u, v, Join(xs[1..], c), c);
    } else if |xs| == 2 {
      var i := IndexOf(xs[1], c);
      var u, v := xs[1][..i], xs[1][i + 1..];
      CutAt(xs[1], i);
      ys := [xs[0] + [c] + u, v];
      assert ys[0] != xs[0];
      assert ys[1..] == [v] && xs[1..] == [xs[1]];
      MoveLeft(xs[0], u, v, c);
    } else {
      assert xs == [xs[0]] + xs[1..];
      var tail := JoinAmbiguous(xs[1..], c);
      ys := [xs[0]] + tail;
      assert ys[1..] == tail;
    }
  }

  lemma ShiftInto(v: string, x: string, rest: seq<string>, c: char)
    ensures Join([v + [c] + x] + rest, c) == v + [c] + Join([x] + rest, c)
  {
    if rest != [] {
      assert ([v + [c] + x] + rest)[1..] == rest && ([x] + rest)[1..] == rest;
      var j := Join(rest, c);
      assert v + [c] + x + [c] + j == v + [c] + (x + [c] + j);
    }
  }

  // ---------- pairs joined by a separator ----------

  type Pair = (string, string)

  function JoinPair(p: Pair, c: char): string {
    p.0 + [c] + p.1
  }

  /** Two pairs collide: the first part of one extends that of the other across a separator
      and the second parts make up for it. */
  ghost predicate PairsCollide(a: Pair, b: Pair, c: char) {
    (exists mid :: PairExtends(a, b, c, mid)) || (exists mid :: PairExtends(b, a, c, mid))
  }

  predicate PairExtends(a: Pair, b: Pair, c: char, mid: string) {
    b.0 == a.0 + [c] + mid && a.1 == mid + [c] + b.1
  }

  /** Different pairs have one joined text exactly when they collide. */
  lemma PairsCollideExactlyWhen(a: Pair, b: Pair, c: char)
    ensures PairsCollide(a, b, c) <==> JoinPair(a, c) == JoinPair(b, c) && a != b
  {
    if mid :| PairExtends(a, b, c, mid) {
      ExtensionJoins(a, b, c, mid);
    }
    if mid :| PairExtends(b, a, c, mid) {
      ExtensionJoins(b, a, c, mid);
    }
    if JoinPair(a, c) == JoinPair(b, c) && a != b {
      if |a.0| <= |b.0| {
        var mid := JoinExtends(a, b, c);
      } else {
        var mid := JoinExtends(b, a, c);
      }
    }
  }

  lemma ExtensionJoins(a: Pair, b: Pair, c: char, mid: string)
    requires PairExtends(a, b, c, mid)
    ensures JoinPair(a, c) == JoinPair(b, c) && a != b
  {
    assert a.0 + [c] + (mid + [c] + b.1) == a.0 + [c] + mid + [c] + b.1;
  }

  lemma JoinExtends(a: Pair, b: Pair, c: char) returns (mid: string)
    requires JoinPair(a, c) == JoinPair(b, c) && a != b && |a.0| <= |b.0|
    ensures PairExtends(a, b, c, mid)
  {
    var text, n, m := JoinPair(a, c), |a.0|, |b.0|;
    assert a.0 == text[..n] && a.1 == text[n + 1..] && text[n] == c;
    assert b.0 == text[..m] && b.1 == text[m + 1..] && text[m] == c;
    assert n != m;
    mid := text[n + 1..m];
    assert b.0 == a.0 + [c] + mid;
    assert a.1 == mid + [c] + b.1;
  }

  // ---------- white space ----------

  /** `unicode.IsSpace`. */
  predicate IsSpace(c: char) {
    var n := c as int;
    9 <= n <= 13 || n == 32 || n == 0x85 || n == 0xA0 || n == 0x1680 || 0x2000 <= n <= 0x200A
    || n == 0x2028 || n == 0x2029 || n == 0x202F || n == 0x205F || n == 0x3000
  }

  function TrimLeft(s: string): string {
    if s != [] && IsSpace(s[0]) then TrimLeft(s[1..]) else s
  }

  function TrimRight(s: string): string {
    if s != [] && IsSpace(s[|s| - 1]) then TrimRight(s[..|s| - 1]) else s
  }

  function TrimSpace(s: string): string {
    TrimRight(TrimLeft(s))
  }

  /** `strings.Fields`: the maximal runs of non-space characters; `run` is the run being read. */
  function FieldsFrom(run: string, s: string): seq<string>
    decreases |s|
  {
    if s == [] then (if run == [] then [] else [run])
    else if IsSpace(s[0]) then (if run == [] then [] else [run]) + FieldsFrom([], s[1..])
    else FieldsFrom(run + [s[0]], s[1..])
  }

  function Fields(s: string): seq<string> {
    FieldsFrom([], s)
  }

  predicate AllSpace(s: string) {
    forall i | 0 <= i < |s| :: IsSpace(s[i])
  }

  predicate SpaceFree(s: string) {
    forall i | 0 <= i < |s| :: !IsSpace(s[i])
  }

  /** White space around a text goes, and nothing else does. */
  lemma {:induction false} TrimSpaceIs(a: string, s: string, b: string)
    requires AllSpace(a) && AllSpace(b) && (s != [] ==> !IsSpace(s[0]) && !IsSpace(s[|s| - 1]))
    ensures TrimSpace(a + s + b) == s
  {
    hide IsSpace;
    TrimLeftIs(a, s + b);
    assert a + (s + b) == a + s + b;
    if s == [] {
      TrimLeftIs(b, []);
      assert b + [] == b && s + b == b;
    } else {
      TrimRightIs(s, b);
    }
  }

  lemma {:induction false} TrimLeftIs(a: string, s: string)
    requires AllSpace(a)
    ensures TrimLeft(a + s) == TrimLeft(s)
  {
    if a == [] {
      assert a + s == s;
    } else {
      assert (a + s)[1..] == a[1..] + s;
      TrimLeftIs(a[1..], s);
    }
  }

  lemma {:induction false} TrimRightIs(s: string, b: string)
    requires s != [] && !IsSpace(s[|s| - 1]) && AllSpace(b)
    ensures TrimRight(s + b) == s
  {
    if b == [] {
      assert s + b == s;
    } else {
      var n := |s + b| - 1;
      assert (s + b)[..n] == s + b[..|b| - 1] && (s + b)[n] == b[|b| - 1];
      TrimRightIs(s, b[..|b| - 1]);
    }
  }

  /** A word, a space and the rest are the word and the words of the rest. */
  lemma FieldsWord(w: string, c: char, rest: string)
    requires w != [] && SpaceFree(w) && IsSpace(c)
    ensures Fields(w + [c] + rest) == [w] + Fields(rest)
    ensures Fields(w) == [w]
  {
    hide IsSpace;
    ReadWord([], w, [c] + rest);
    ReadWord([], w, []);
    assert w + ([c] + rest) == w + [c] + rest && w + [] == w && [] + w == w;
    assert ([c] + rest)[1..] == rest;
  }

  lemma {:induction false} ReadWord(run: string, w: string, rest: string)
    requires SpaceFree(w)
    ensures FieldsFrom(run, w + rest) == FieldsFrom(run + w, rest)
    decreases |w|
  {
    if w == [] {
      assert w + rest == rest && run + w == run;
    } else {
      assert (w + rest)[1..] == w[1..] + rest && (w + rest)[0] == w[0];
      ReadWord(run + [w[0]], w[1..], rest);
      assert run + [w[0]] + w[1..] == run + w;
    }
  }

  /** White space in front of a text, or alone, is no word. */
  lemma {:induction false} FieldsSkip(a: string, s: string)
    requires AllSpace(a)
    ensures Fields(a + s) == Fields(s) && Fields([]) == []
  {
    hide IsSpace;
    if a == [] {
      assert a + s == s;
    } else {
      assert (a + s)[1..] == a[1..] + s;
      FieldsSkip(a[1..], s);
    }
  }

  /** Five words one space apart. */
  lemma FiveWords(a: string, b: string, c: string, d: string, e: string)
    requires a != [] && b != [] && c != [] && d != [] && e != []
    requires SpaceFree(a) && SpaceFree(b) && SpaceFree(c) && SpaceFree(d) && SpaceFree(e)
    ensures Fields(a + [' '] + (b + [' '] + (c + [' '] + (d + [' '] + e)))) == [a, b, c, d, e]
  {
    hide Fields;
    FieldsWord(a, ' ', b + [' '] + (c + [' '] + (d + [' '] + e)));
    FieldsWord(b, ' ', c + [' '] + (d + [' '] + e));
    FieldsWord(c, ' ', d + [' '] + e);
    FieldsWord(d, ' ', e);
    FieldsWord(e, ' ', []);
  }

  // ---------- decimal numbers ----------

  predicate IsDigit(c: char) { '0' <= c <= '9' }

  function DigitValue(c: char): (d: int)
    requires IsDigit(c)
    ensures 0 <= d <= 9
  {
    c as int - '0' as int
  }

  predicate AllDigits(s: string) {
    forall i | 0 <= i < |s| :: IsDigit(s[i])
  }

  function DigitsValue(s: string): (n: int)
    requires AllDigits(s)
    ensures n >= 0
  {
    if s == [] then 0 else DigitsValue(s[..|s| - 1]) * 10 + DigitValue(s[|s| - 1])
  }

  /** `strconv.Atoi` on a 64-bit platform: optional sign, decimal digits, range check. */
  function Atoi(s: string): (r: Option<int>)
    ensures r.Some? ==> MIN_INT <= r.value <= MAX_INT
  {
    if s == [] then None
    else
      var body := if s[0] == '-' || s[0] == '+' then s[1..] else s;
      if body == [] || !AllDigits(body) then None
      else
        var n := if s[0] == '-' then -DigitsValue(body) else DigitsValue(body);
        if MIN_INT <= n <= MAX_INT then Some(n) else None
  }

  function Digits(n: int): (s: string)
    requires n >= 0
    ensures |s| >= 1 && AllDigits(s)
  {
    var last := ['0' + (n % 10) as char];
    if n < 10 then last else Digits(n / 10) + last
  }

  /** `strconv.Itoa`. */
  function Itoa(n: int): string {
    if n < 0 then ['-'] + Digits(-n) else Digits(n)
  }

  lemma {:induction false} DigitsRoundTrip(n: int)
    requires n >= 0
    ensures DigitsValue(Digits(n)) == n
  {
    if n < 10 {
      assert DigitsValue([]) == 0;
      assert Digits(n)[..0] == [];
    } else {
      DigitsRoundTrip(n / 10);
      assert Digits(n)[..|Digits(n)| - 1] == Digits(n / 10);
    }
  }

  /** Every machine integer survives printing and parsing. */
  lemma AtoiItoa(n: int)
    requires MIN_INT <= n <= MAX_INT
    ensures Atoi(Itoa(n)) == Some(n)
  {
    hide Digits, DigitsValue;
    if n < 0 {
      DigitsRoundTrip(-n);
      assert Itoa(n)[1..] == Digits(-n);
    } else {
      DigitsRoundTrip(n);
      assert IsDigit(Itoa(n)[0]);
    }
  }

  /** Leading zeros do not matter, and neither does a plus sign. */
  lemma AtoiZeroAndPlus(n: int)
    requires 0 <= n <= MAX_INT
    ensures Atoi(['0'] + Itoa(n)) == Some(n) && Atoi(['+'] + Itoa(n)) == Some(n)
  {
    DigitsRoundTrip(n);
    LeadingZero(Digits(n));
    hide Digits, DigitsValue;
    assert (['+'] + Digits(n))[1..] == Digits(n);
  }

  lemma {:induction false} LeadingZero(s: string)
    requires AllDigits(s)
    ensures AllDigits(['0'] + s) && DigitsValue(['0'] + s) == DigitsValue(s)
  {
    var z := ['0'] + s;
    if s == [] {
      assert z[..0] == [] && DigitsValue([]) == 0;
    } else {
      LeadingZero(s[..|s| - 1]);
      assert z[..|z| - 1] == ['0'] + s[..|s| - 1];
    }
  }

  /** What is no number: nothing, a lone sign, or anything but digits after the sign. */
  lemma AtoiRefuses(s: string, i: int)
    requires 0 <= i < |s| && !IsDigit(s[i]) && (i == 0 ==> s[0] != '-' && s[0] != '+')
    ensures Atoi(s) == None && Atoi([]) == None && Atoi("-") == None && Atoi("+") == None
  {
    var body := if s[0] == '-' || s[0] == '+' then s[1..] else s;
    assert i < |body| + |s| - |body|;
    assert s[0] == '-' || s[0] == '+' ==> body[i - 1] == s[i];
  }

  // ---------- order ----------

  /** Byte-wise lexicographic order, the order of ULID text. */
  predicate Less(a: string, b: string) {
    if b == [] then false
    else if a == [] then true
    else if a[0] != b[0] then a[0] < b[0]
    else Less(a[1..], b[1..])
  }

  lemma {:induction false} LessTransitive(a: string, b: string, c: string)
    requires Less(a, b) && Less(b, c)
    ensures Less(a, c)
  {
    if a != [] && a[0] == b[0] == c[0] {
      LessTransitive(a[1..], b[1..], c[1..]);
    }
  }

  lemma {:induction false} LessTotal(a: string, b: string)
    ensures Less(a, b) || a == b || Less(b, a)
  {
    if a != [] && b != [] && a[0] == b[0] {
      LessTotal(a[1..], b[1..]);
      assert a == [a[0]] + a[1..] && b == [b[0]] + b[1..];
    }
  }

  lemma {:induction false} LessIrreflexive(a: string)
    ensures !Less(a, a)
  {
    if a != [] {
      LessIrreflexive(a[1..]);
    }
  }

  /** The texts agree up to position `k`, and there `a` is smaller. */
  predicate SmallerAt(a: string, b: string, k: nat) {
    k < |a| && k < |b| && a[..k] == b[..k] && a[k] < b[k]
  }

  lemma SmallerTail(a: string, b: string, k: nat)
    requires a != [] && b != [] && a[0] == b[0]
    ensures SmallerAt(a[1..], b[1..], k) <==> SmallerAt(a, b, k + 1)
  {
    if k < |a[1..]| && k < |b[1..]| {
      assert a[..k + 1] == [a[0]] + a[1..][..k] && b[..k + 1] == [b[0]] + b[1..][..k];
      assert a[1..][..k] == a[..k + 1][1..] && b[1..][..k] == b[..k + 1][1..];
    }
  }

  /** The order is decided at the first difference, and a proper prefix comes first. */
  lemma {:induction false} LessExactlyWhen(a: string, b: string)
    ensures Less(a, b) <==> a < b || exists k: nat :: SmallerAt(a, b, k)
  {
    if a != [] && b != [] {
      if a[0] == b[0] {
        hide SmallerAt;
        LessExactlyWhen(a[1..], b[1..]);
        assert a == [a[0]] + a[1..] && b == [b[0]] + b[1..];
        if k: nat :| SmallerAt(a[1..], b[1..], k) {
          SmallerTail(a, b, k);
        }
        if k: nat :| SmallerAt(a, b, k) {
          AtHead(a, b, k);
          SmallerTail(a, b, k - 1);
        }
      } else {
        assert a[..0] == b[..0];
        assert a[0] < b[0] ==> SmallerAt(a, b, 0);
        forall k: nat | SmallerAt(a, b, k) ensures a[0] < b[0] {
          AtHead(a, b, k);
        }
      }
    }
  }

  lemma AtHead(a: string, b: string, k: nat)
    requires SmallerAt(a, b, k)
    ensures if k == 0 then a[0] < b[0] else a[0] == b[0]
  {
    if k > 0 {
      assert a[..k][0] == a[0] && b[..k][0] == b[0];
    }
  }
}
