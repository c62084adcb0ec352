/**
 The five-field cron cadence (retinue/heartbeat.py): the string matcher as the source computes it, against terms
 and the sets of values they denote. All five fields are conjoined. Texts are ASCII.
 */
module CronField {
  import opened Arith
  import opened Collections
  import opened Decimal
  import opened PyInt
  import opened Text
  import opened Wrappers

  // --- Python's string operations ---

  /** What `partition` puts in front of the separator, and behind it. */
  function Before(s: string, c: char): string {
    s[..IndexOf(s, c)]
  }

  function Behind(s: string, c: char): string {
    if IndexOf(s, c) < |s| then s[IndexOf(s, c) + 1..] else []
  }

  /** `split(c)`. */
  function SplitOn(s: string, c: char): (parts: seq<string>)
    ensures parts != []
  {
    if c !in s then [s] else [Before(s, c)] + SplitOn(Behind(s, c), c)
  }

  function WordLength(s: string): (n: nat)
    ensures n <= |s|
  {
    if s == [] || IsSpace(s[0]) then 0 else 1 + WordLength(s[1..])
  }

  /** `split()`. */
  function Words(s: string): seq<string> {
    if s == [] then []
    else if IsSpace(s[0]) then Words(s[1..])
    else [s[..WordLength(s)]] + Words(s[WordLength(s)..])
  }

  // --- the matcher ---

  function ParseStep(text: string): Option<int> {
    match ParseInt(text, 10)
    case Some(step) => if step <= 0 then None else Some(step)
    case None => None
  }

  /** The inclusive range a term's base stands for. */
  function TermRange(base: string, hasStep: bool, low: int, high: int): Option<(int, int)> {
    if base == "*" then Some((low, high))
    else if '-' in base then
      var start, end := ParseInt(Before(base, '-'), 10), ParseInt(Behind(base, '-'), 10);
      if start.None? || end.None? || start.value > end.value then None else Some((start.value, end.value))
    else
      match ParseInt(base, 10)
      case Some(point) => Some((point, if hasStep then high else point))
      case None => None
  }

  predicate TermMatches(term: string, value: int, low: int, high: int) {
    var base, stepText := Before(term, '/'), Behind(term, '/');
    var hasStep := stepText != [];
    var step := if hasStep then ParseStep(stepText) else Some(1);
    var range := TermRange(base, hasStep, low, high);
    range.Some? && step.Some? && range.value.0 <= value <= range.value.1 && (value - range.value.0) % step.value == 0
  }

  predicate FieldMatches(field: string, value: int, low: int, high: int) {
    exists term | term in SplitOn(field, ',') :: TermMatches(term, value, low, high)
  }

  /** `weekday` is Python's: Monday 0 to Sunday 6. */
  datatype Instant = Instant(minute: nat, hour: nat, day: nat, month: nat, weekday: nat)

  function WeekdayField(field: string): int -> bool {
    value => FieldMatches(field, value, 0, 7)
  }

  /** Cron counts from Sunday; Sunday is tested in both its spellings. */
  predicate WeekdayMatches(matches: int -> bool, weekday: nat) {
    var dow := (weekday + 1) % 7;
    matches(dow) || (dow == 0 && matches(7))
  }

  predicate FieldsMatch(fields: seq<string>, now: Instant)
    requires |fields| == 5
  {
    && FieldMatches(fields[0], now.minute, 0, 59) && FieldMatches(fields[1], now.hour, 0, 23)
    && FieldMatches(fields[2], now.day, 1, 31) && FieldMatches(fields[3], now.month, 1, 12)
    && WeekdayMatches(WeekdayField(fields[4]), now.weekday)
  }

  predicate CronDue(expr: Option<string>, now: Instant) {
    expr.Some? && |Words(expr.value)| == 5 && FieldsMatch(Words(expr.value), now)
  }

  // --- terms and what they denote ---

  datatype Base = Star | Point(n: int) | Range(from: int, to: int)

  datatype Term = Term(base: Base, step: Option<int>)

  predicate ValidTerm(t: Term) {
    && (t.base.Point? ==> t.base.n >= 0)
    && (t.base.Range? ==> t.base.from >= 0 && t.base.to >= 0)
    && (t.step.Some? ==> t.step.value > 0)
  }

  function First(t: Term, low: int): int {
    match t.base
    case Star => low
    case Point(n) => n
    case Range(from, _) => from
  }

  /** A point with a step runs to the field's maximum. */
  function Last(t: Term, high: int): int {
    match t.base
    case Star => high
    case Point(n) => if t.step.Some? then high else n
    case Range(_, to) => to
  }

  function Nth(start: int, step: int, k: nat): int {
    start + k * step
  }

  ghost predicate Reached(start: int, step: int, value: int) {
    exists k: nat :: value == Nth(start, step, k)
  }

  function StepOf(t: Term): int {
    if t.step.Some? then t.step.value else 1
  }

  /** The values a term stands for: from its first, by its step, up to its last; none when the range is reversed. */
  ghost predicate Denotes(t: Term, value: int, low: int, high: int) {
    value <= Last(t, high) && Reached(First(t, low), StepOf(t), value)
  }

  ghost predicate FieldDenotes(ts: seq<Term>, value: int, low: int, high: int) {
    exists t | t in ts :: Denotes(t, value, low, high)
  }

  /** Sunday is day 0 and day 7, the other days 1 to 6; `weekday` counts from Monday. */
  ghost predicate WeekdayDenotes(ts: seq<Term>, weekday: nat) {
    if weekday == 6 then FieldDenotes(ts, 0, 0, 7) || FieldDenotes(ts, 7, 0, 7) else FieldDenotes(ts, weekday + 1, 0, 7)
  }

  function PrintBase(b: Base): string
    requires ValidTerm(Term(b, None))
  {
    match b
    case Star => "*"
    case Point(n) => Show(n)
    case Range(from, to) => Show(from) + ("-" + Show(to))
  }

  function PrintTerm(t: Term): string
    requires ValidTerm(t)
  {
    PrintBase(t.base) + match t.step case None => "" case Some(step) => "/" + Show(step)
  }

  ghost predicate AllValid(ts: seq<Term>) {
    forall t | t in ts :: ValidTerm(t)
  }

  function PrintField(ts: seq<Term>): string
    requires ts != [] && AllValid(ts)
  {
    if |ts| == 1 then PrintTerm(ts[0]) else PrintTerm(ts[0]) + ("," + PrintField(ts[1..]))
  }

  // --- every text is read as some term or as nothing ---

  function ReadBase(base: string): Option<Base> {
    if base == "*" then Some(Star)
    else if '-' in base then
      var start, end := ParseInt(Before(base, '-'), 10), ParseInt(Behind(base, '-'), 10);
      if start.None? || end.None? then None else Some(Range(start.value, end.value))
    else
      match ParseInt(base, 10)
      case Some(n) => Some(Point(n))
      case None => None
  }

  /** An empty step text, as in "5/", is read as no step at all. */
  function ReadTerm(term: string): Option<Term> {
    var base, stepText := ReadBase(Before(term, '/')), Behind(term, '/');
    if base.None? then None
    else if stepText == [] then Some(Term(base.value, None))
    else match ParseStep(stepText)
         case Some(step) => Some(Term(base.value, Some(step)))
         case None => None
  }

  lemma StepsFrom(start: int, step: int, value: int)
    requires step > 0
    ensures Reached(start, step, value) <==> start <= value && (value - start) % step == 0
  {
    if k: nat :| value == Nth(start, step, k) {
      assert k * step >= 0;
      MultipleHasNoRest(k, step);
    }
    if start <= value && (value - start) % step == 0 {
      assert value == Nth(start, step, (value - start) / step);
    }
  }

  // --- which texts are terms, without reading them ---

  /** A star, two integers around the first dash, or an integer. */
  ghost predicate BaseText(text: string, b: Base) {
    match b
    case Star => text == "*"
    case Range(from, to) =>
      exists left, right :: '-' !in left && text == left + (['-'] + right) && IntText(left, from) && IntText(right, to)
    case Point(n) => '-' !in text && IntText(text, n)
  }

  /** A base, and behind the first slash a positive integer or nothing. */
  ghost predicate TermText(text: string, t: Term) {
    exists base :: '/' !in base && BaseText(base, t.base) && StepText(text, base, t.step)
  }

  ghost predicate StepText(text: string, base: string, step: Option<int>) {
    match step
    case None => text == base || text == base + ['/']
    case Some(n) => n > 0 && exists digits :: text == base + (['/'] + digits) && IntText(digits, n)
  }

  lemma {:induction false} Partitioned(s: string, c: char)
    requires c in s
    ensures c !in Before(s, c) && s == Before(s, c) + ([c] + Behind(s, c))
  {
    var i :| 0 <= i < |s| && s[i] == c;
    var k := IndexOf(s, c);
    assert k <= i;
    forall x | x in s[..k] ensures x != c { var j :| 0 <= j < k && s[..k][j] == x; }
  }

  lemma StarIsNoInt(n: int)
    ensures !IntText("*", n)
  {
    ParseIntExactly("*", n);
    assert StripLeft("*") == "*" && StripRight("*") == "*" && Strip("*") == "*";
    assert DigitIn('*', 10).None?;
    assert Signed("*", 10) == None;
  }

  lemma {:induction false} BaseExactly(text: string, b: Base)
    ensures ReadBase(text) == Some(b) <==> BaseText(text, b)
  {
    match b
    case Star => assert '-' !in "*";
    case Range(from, to) => RangeExactly(text, from, to);
    case Point(n) => StarIsNoInt(n); ParseIntExactly(text, n);
  }

  lemma {:induction false} RangeExactly(text: string, from: int, to: int)
    ensures ReadBase(text) == Some(Range(from, to)) <==> BaseText(text, Range(from, to))
  {
    if ReadBase(text) == Some(Range(from, to)) {
      Partitioned(text, '-');
      ParseIntExactly(Before(text, '-'), from);
      ParseIntExactly(Behind(text, '-'), to);
    }
    if left, right :| '-' !in left && text == left + (['-'] + right) && IntText(left, from) && IntText(right, to) {
      RangeIsRead(left, right, from, to);
    }
  }

  lemma RangeIsRead(left: string, right: string, from: int, to: int)
    requires '-' !in left && IntText(left, from) && IntText(right, to)
    ensures ReadBase(left + (['-'] + right)) == Some(Range(from, to))
  {
    IndexOfIs(left, '-', right);
    ParseIntExactly(left, from);
    ParseIntExactly(right, to);
  }

  /** What the matcher reads is exactly what the text is: `ReadTerm` answers on terms, and with that term. */
  lemma {:induction false} ReadTermExactly(text: string, t: Term)
    ensures ReadTerm(text) == Some(t) <==> TermText(text, t)
  {
    if ReadTerm(text) == Some(t) { ReadIsTerm(text, t); }
    if TermText(text, t) {
      var base :| '/' !in base && BaseText(base, t.base) && StepText(text, base, t.step);
      TermIsRead(text, base, t);
    }
  }

  lemma ReadIsTerm(text: string, t: Term)
    requires ReadTerm(text) == Some(t)
    ensures TermText(text, t)
  {
    var base, digits := Before(text, '/'), Behind(text, '/');
    BaseExactly(base, t.base);
    if '/' in text {
      Partitioned(text, '/');
      if t.step.Some? { ParseIntExactly(digits, t.step.value); } else { assert ['/'] + digits == ['/']; }
    } else {
      Absent(text, '/');
    }
    assert StepText(text, base, t.step);
  }

  lemma TermIsRead(text: string, base: string, t: Term)
    requires '/' !in base && BaseText(base, t.base) && StepText(text, base, t.step)
    ensures ReadTerm(text) == Some(t)
  {
    BaseExactly(base, t.base);
    match t.step
    case None =>
      if text == base { Absent(base, '/'); } else { assert ['/'] + [] == ['/']; IndexOfIs(base, '/', []); }
    case Some(n) =>
      var digits :| text == base + (['/'] + digits) && IntText(digits, n);
      IndexOfIs(base, '/', digits);
      ParseIntExactly(digits, n);
      NothingIsNoInt(n);
  }

  lemma NothingIsNoInt(n: int)
    ensures !IntText("", n)
  {
    ParseIntExactly("", n);
  }

  /**
   Over arbitrary text the matcher is total: it matches exactly the values of the term the text is, and a text
   that is no term matches nothing.
   */
  lemma TextMatchesWhatItIs(text: string, value: int, low: int, high: int)
    ensures TermMatches(text, value, low, high) <==> exists t :: TermText(text, t) && Denotes(t, value, low, high)
  {
    TextMatchesWhatItReads(text, value, low, high);
    if ReadTerm(text).Some? { ReadTermExactly(text, ReadTerm(text).value); }
    if t :| TermText(text, t) && Denotes(t, value, low, high) { ReadTermExactly(text, t); }
  }

  /**
   The matcher is total: any text whatever matches exactly the values of the term it is read as, and a text that
   is no term matches nothing.
   */
  lemma {:induction false} TextMatchesWhatItReads(text: string, value: int, low: int, high: int)
    ensures TermMatches(text, value, low, high) <==>
      ReadTerm(text).Some? && Denotes(ReadTerm(text).value, value, low, high)
  {
    if ReadTerm(text).Some? {
      var t := ReadTerm(text).value;
      DenotesIs(t, value, low, high);
      RangeIs(text, t, low, high);
    }
  }

  lemma DenotesIs(t: Term, value: int, low: int, high: int)
    requires StepOf(t) > 0
    ensures Denotes(t, value, low, high)
       <==> First(t, low) <= value <= Last(t, high) && (value - First(t, low)) % StepOf(t) == 0
  {
    StepsFrom(First(t, low), StepOf(t), value);
  }

  /** The matcher's range and step for a text read as `t`; a reversed range is none. */
  lemma RangeIs(text: string, t: Term, low: int, high: int)
    requires ReadTerm(text) == Some(t)
    ensures TermRange(Before(text, '/'), Behind(text, '/') != [], low, high)
         == if t.base.Range? && t.base.from > t.base.to then None else Some((First(t, low), Last(t, high)))
    ensures (if Behind(text, '/') != [] then ParseStep(Behind(text, '/')) else Some(1)) == Some(StepOf(t))
    ensures StepOf(t) > 0
  {
  }

  // --- printed terms read back ---

  lemma {:induction false} IndexOfIs(front: string, c: char, rest: string)
    requires c !in front
    ensures IndexOf(front + ([c] + rest), c) == |front|
    ensures Before(front + ([c] + rest), c) == front && Behind(front + ([c] + rest), c) == rest
    ensures c in front + ([c] + rest)
  {
    var s := front + ([c] + rest);
    assert s[|front|] == c;
    forall j | 0 <= j < |front| ensures s[j] != c { assert s[j] == front[j] && front[j] in front; }
  }

  lemma Absent(s: string, c: char)
    requires c !in s
    ensures IndexOf(s, c) == |s| && Before(s, c) == s && Behind(s, c) == []
  {
    assert forall j | 0 <= j < |s| :: s[j] != c;
    assert s[..|s|] == s;
  }

  lemma ShownHasOnlyDigits(n: nat, c: char)
    requires !IsDigit(c)
    ensures c !in Show(n) && Show(n) != "*"
  {
    assert AllDigits(Show(n));
    assert forall i | 0 <= i < |Show(n)| :: Show(n)[i] != c;
    assert IsDigit(Show(n)[0]) && !IsDigit('*');
  }

  lemma {:induction false} BaseReadsBack(b: Base)
    requires ValidTerm(Term(b, None))
    ensures ReadBase(PrintBase(b)) == Some(b)
  {
    match b
    case Star =>
    case Point(n) =>
      ShownHasOnlyDigits(n, '-');
      ParseShown(n);
    case Range(from, to) =>
      ShownHasOnlyDigits(from, '-');
      IndexOfIs(Show(from), '-', Show(to));
      ParseShown(from);
      ParseShown(to);
      assert PrintBase(b) != "*" by { assert |PrintBase(b)| >= 3; }
  }

  lemma BaseHasNo(b: Base, c: char)
    requires ValidTerm(Term(b, None)) && !IsDigit(c) && c != '*' && c != '-'
    ensures c !in PrintBase(b)
  {
    match b
    case Star =>
    case Point(n) => ShownHasOnlyDigits(n, c);
    case Range(from, to) =>
      ShownHasOnlyDigits(from, c);
      ShownHasOnlyDigits(to, c);
  }

  lemma TermHasNo(t: Term, c: char)
    requires ValidTerm(t) && !IsDigit(c) && c !in {'*', '-', '/'}
    ensures c !in PrintTerm(t)
  {
    BaseHasNo(t.base, c);
    if t.step.Some? { ShownHasOnlyDigits(t.step.value, c); }
  }

  lemma {:induction false} TermReadsBack(t: Term)
    requires ValidTerm(t)
    ensures ReadTerm(PrintTerm(t)) == Some(t)
  {
    BaseReadsBack(t.base);
    BaseHasNo(t.base, '/');
    match t.step
    case None =>
      assert PrintTerm(t) == PrintBase(t.base);
      Absent(PrintBase(t.base), '/');
    case Some(step) =>
      IndexOfIs(PrintBase(t.base), '/', Show(step));
      ParseShown(step);
  }

  function Texts(ts: seq<Term>): (texts: seq<string>)
    requires AllValid(ts)
    ensures |texts| == |ts| && forall i | 0 <= i < |ts| :: ts[i] in ts && texts[i] == PrintTerm(ts[i])
  {
    if ts == [] then [] else [PrintTerm(ts[0])] + Texts(ts[1..])
  }

  lemma {:induction false} SplitHead(head: string, rest: string, c: char)
    requires c !in head
    ensures SplitOn(head + ([c] + rest), c) == [head] + SplitOn(rest, c)
  {
    IndexOfIs(head, c, rest);
  }

  lemma {:induction false} FieldSplits(ts: seq<Term>)
    requires ts != [] && AllValid(ts)
    ensures SplitOn(PrintField(ts), ',') == Texts(ts)
    decreases |ts|
  {
    assert ts[0] in ts;
    TermHasNo(ts[0], ',');
    if |ts| == 1 {
      assert Texts(ts) == [PrintTerm(ts[0])];
    } else {
      assert forall t | t in ts[1..] :: t in ts;
      FieldSplits(ts[1..]);
      SplitHead(PrintTerm(ts[0]), PrintField(ts[1..]), ',');
    }
  }

  /** A printed field matches exactly the values its terms denote. */
  lemma {:induction false} FieldMatchesWhatItDenotes(ts: seq<Term>, value: int, low: int, high: int)
    requires ts != [] && AllValid(ts)
    ensures FieldMatches(PrintField(ts), value, low, high) <==> FieldDenotes(ts, value, low, high)
  {
    FieldSplits(ts);
    var texts := SplitOn(PrintField(ts), ',');
    forall i | 0 <= i < |ts| ensures TermMatches(texts[i], value, low, high) <==> Denotes(ts[i], value, low, high) {
      assert ts[i] in ts;
      TermReadsBack(ts[i]);
      TextMatchesWhatItReads(texts[i], value, low, high);
    }
    if FieldMatches(PrintField(ts), value, low, high) {
      var text :| text in texts && TermMatches(text, value, low, high);
      var i :| 0 <= i < |texts| && texts[i] == text;
      assert ts[i] in ts;
    }
    if FieldDenotes(ts, value, low, high) {
      var t :| t in ts && Denotes(t, value, low, high);
      var i :| 0 <= i < |ts| && ts[i] == t;
      assert texts[i] in texts;
    }
  }

  lemma WeekdayCases(matches: int -> bool, weekday: nat)
    requires weekday < 7
    ensures WeekdayMatches(matches, weekday) <==>
      if weekday == 6 then matches(0) || matches(7) else matches(weekday + 1)
  {
    assert (weekday + 1) % 7 == if weekday == 6 then 0 else weekday + 1;
  }

  /** On the day of week, Sunday counts as both 0 and 7, inside ranges and steps too. */
  lemma {:induction false} WeekdayMatchesWhatItDenotes(ts: seq<Term>, weekday: nat)
    requires ts != [] && AllValid(ts) && weekday < 7
    ensures WeekdayMatches(WeekdayField(PrintField(ts)), weekday) <==> WeekdayDenotes(ts, weekday)
  {
    WeekdayCases(WeekdayField(PrintField(ts)), weekday);
    FieldMatchesWhatItDenotes(ts, 0, 0, 7);
    FieldMatchesWhatItDenotes(ts, 7, 0, 7);
    FieldMatchesWhatItDenotes(ts, weekday + 1, 0, 7);
  }

  // --- the whole expression ---

  lemma {:induction false} WordLengthIs(w: string, rest: string)
    requires NoSpace(w) && (rest == [] || IsSpace(rest[0]))
    ensures WordLength(w + rest) == |w|
  {
    if w != [] {
      assert (w + rest)[1..] == w[1..] + rest;
      WordLengthIs(w[1..], rest);
    }
  }

  lemma {:induction false} SkipBlank(sep: string, rest: string)
    requires Blank(sep)
    ensures Words(sep + rest) == Words(rest)
  {
    if sep == [] {
      assert sep + rest == rest;
    } else {
      assert (sep + rest)[1..] == sep[1..] + rest;
      SkipBlank(sep[1..], rest);
    }
  }

  lemma {:induction false} FirstWord(w: string, sep: string, rest: string)
    requires w != [] && NoSpace(w) && Blank(sep) && (sep == [] ==> rest == [])
    ensures Words(w + (sep + rest)) == [w] + Words(rest)
  {
    var s := w + (sep + rest);
    WordLengthIs(w, sep + rest);
    assert s[0] == w[0] && s[..|w|] == w && s[|w|..] == sep + rest;
    SkipBlank(sep, rest);
  }

  lemma {:induction false} TermIsAWord(t: Term)
    requires ValidTerm(t)
    ensures PrintTerm(t) != [] && NoSpace(PrintTerm(t))
  {
    var text := PrintTerm(t);
    forall i | 0 <= i < |text| ensures !IsSpace(text[i]) {
      if IsSpace(text[i]) { TermHasNo(t, text[i]); }
    }
    assert PrintBase(t.base) != [];
  }

  lemma {:induction false} FieldIsAWord(ts: seq<Term>)
    requires ts != [] && AllValid(ts)
    ensures PrintField(ts) != [] && NoSpace(PrintField(ts))
    decreases |ts|
  {
    assert ts[0] in ts;
    TermIsAWord(ts[0]);
    if |ts| > 1 {
      assert forall t | t in ts[1..] :: t in ts;
      FieldIsAWord(ts[1..]);
    }
  }

  lemma {:induction false} FiveWords(f: seq<string>, sep: string)
    requires |f| == 5 && (forall i | 0 <= i < 5 :: f[i] != [] && NoSpace(f[i])) && Blank(sep) && sep != []
    ensures Words(f[0] + (sep + (f[1] + (sep + (f[2] + (sep + (f[3] + (sep + f[4])))))))) == f
  {
    FirstWord(f[4], [], []);
    assert f[4] + ([] + []) == f[4];
    FirstWord(f[3], sep, f[4]);
    FirstWord(f[2], sep, f[3] + (sep + f[4]));
    FirstWord(f[1], sep, f[2] + (sep + (f[3] + (sep + f[4]))));
    FirstWord(f[0], sep, f[1] + (sep + (f[2] + (sep + (f[3] + (sep + f[4]))))));
  }

  /** A printed cadence is due exactly when all five fields denote the instant's values. */
  lemma {:induction false} CadenceIsDueExactly(fs: seq<seq<Term>>, sep: string, now: Instant)
    requires |fs| == 5 && (forall i | 0 <= i < 5 :: fs[i] != [] && AllValid(fs[i])) && Blank(sep) && sep != []
    requires now.weekday < 7
    ensures var p := seq(5, i requires 0 <= i < 5 => PrintField(fs[i]));
      CronDue(Some(p[0] + (sep + (p[1] + (sep + (p[2] + (sep + (p[3] + (sep + p[4])))))))), now) <==>
        && FieldDenotes(fs[0], now.minute, 0, 59) && FieldDenotes(fs[1], now.hour, 0, 23)
        && FieldDenotes(fs[2], now.day, 1, 31) && FieldDenotes(fs[3], now.month, 1, 12)
        && WeekdayDenotes(fs[4], now.weekday)
  {
    var p := seq(5, i requires 0 <= i < 5 => PrintField(fs[i]));
    forall i | 0 <= i < 5 ensures p[i] != [] && NoSpace(p[i]) { FieldIsAWord(fs[i]); }
    FiveWords(p, sep);
    FieldMatchesWhatItDenotes(fs[0], now.minute, 0, 59);
    FieldMatchesWhatItDenotes(fs[1], now.hour, 0, 23);
    FieldMatchesWhatItDenotes(fs[2], now.day, 1, 31);
    FieldMatchesWhatItDenotes(fs[3], now.month, 1, 12);
    WeekdayMatchesWhatItDenotes(fs[4], now.weekday);
  }

  // --- any expression at all ---

  /** The text is these words, with white space between them and perhaps around them. */
  ghost predicate IsSplit(text: string, ws: seq<string>)
    decreases |ws|
  {
    if ws == [] then Blank(text)
    else exists sep, rest ::
      && Blank(sep) && ws[0] != [] && NoSpace(ws[0]) && text == sep + (ws[0] + rest)
      && (rest == [] || IsSpace(rest[0])) && IsSplit(rest, ws[1..])
  }

  lemma {:induction false} WordLengthEnds(s: string)
    ensures NoSpace(s[..WordLength(s)]) && (WordLength(s) == |s| || IsSpace(s[WordLength(s)]))
  {
    if s != [] && !IsSpace(s[0]) {
      WordLengthEnds(s[1..]);
      assert s[..WordLength(s)] == [s[0]] + s[1..][..WordLength(s[1..])];
    }
  }

  lemma SplitFurther(c: char, text: string, ws: seq<string>)
    requires IsSpace(c) && IsSplit(text, ws)
    ensures IsSplit([c] + text, ws)
  {
    if ws != [] {
      var sep, rest :|
        && Blank(sep) && ws[0] != [] && NoSpace(ws[0]) && text == sep + (ws[0] + rest)
        && (rest == [] || IsSpace(rest[0])) && IsSplit(rest, ws[1..]);
      assert [c] + text == ([c] + sep) + (ws[0] + rest);
      assert Blank([c] + sep);
    }
  }

  lemma {:induction false} WordsAreSplit(text: string)
    ensures IsSplit(text, Words(text))
    decreases |text|
  {
    if text != [] {
      if IsSpace(text[0]) {
        WordsAreSplit(text[1..]);
        SplitFurther(text[0], text[1..], Words(text[1..]));
        assert [text[0]] + text[1..] == text;
      } else {
        var n := WordLength(text);
        var w, rest, none := text[..n], text[n..], "";
        WordLengthEnds(text);
        WordsAreSplit(rest);
        assert ([w] + Words(rest))[1..] == Words(rest);
        assert Blank(none) && text == none + (w + rest);
      }
    }
  }

  lemma WordThenRest(w: string, rest: string)
    requires w != [] && NoSpace(w) && (rest == [] || IsSpace(rest[0]))
    ensures Words(w + rest) == [w] + Words(rest)
  {
    var s := w + rest;
    WordLengthIs(w, rest);
    assert s[0] == w[0] && s[..|w|] == w && s[|w|..] == rest;
  }

  lemma {:induction false} SplitIsWords(text: string, ws: seq<string>)
    requires IsSplit(text, ws)
    ensures Words(text) == ws
    decreases |ws|
  {
    if ws == [] {
      SkipBlank(text, []);
      assert text + [] == text;
    } else {
      var sep, rest :|
        && Blank(sep) && ws[0] != [] && NoSpace(ws[0]) && text == sep + (ws[0] + rest)
        && (rest == [] || IsSpace(rest[0])) && IsSplit(rest, ws[1..]);
      SkipBlank(sep, ws[0] + rest);
      WordThenRest(ws[0], rest);
      SplitIsWords(rest, ws[1..]);
      assert ws == [ws[0]] + ws[1..];
    }
  }

  /** `split()` gives exactly the words. */
  lemma WordsExactly(text: string, ws: seq<string>)
    ensures Words(text) == ws <==> IsSplit(text, ws)
  {
    WordsAreSplit(text);
    if IsSplit(text, ws) { SplitIsWords(text, ws); }
  }

  function Join(parts: seq<string>, c: char): string
    requires parts != []
  {
    if |parts| == 1 then parts[0] else parts[0] + ([c] + Join(parts[1..], c))
  }

  /** The text is these parts with `c` between them and in none of them. */
  ghost predicate IsParted(text: string, c: char, parts: seq<string>) {
    parts != [] && (forall i | 0 <= i < |parts| :: c !in parts[i]) && text == Join(parts, c)
  }

  lemma {:induction false} SplitIsParted(text: string, c: char)
    ensures IsParted(text, c, SplitOn(text, c))
    decreases |text|
  {
    if c in text {
      Partitioned(text, c);
      SplitIsParted(Behind(text, c), c);
      var parts := SplitOn(text, c);
      assert parts[1..] == SplitOn(Behind(text, c), c);
      forall i | 0 <= i < |parts| ensures c !in parts[i] {
        if i > 0 { assert parts[i] == parts[1..][i - 1]; }
      }
    }
  }

  lemma PartedTail(text: string, c: char, parts: seq<string>)
    requires IsParted(text, c, parts) && |parts| > 1
    ensures IsParted(Join(parts[1..], c), c, parts[1..]) && text == parts[0] + ([c] + Join(parts[1..], c))
    ensures c !in parts[0]
  {
    forall i | 0 <= i < |parts| - 1 ensures c !in parts[1..][i] { assert parts[1..][i] == parts[i + 1]; }
  }

  lemma {:induction false} PartedIsSplit(text: string, c: char, parts: seq<string>)
    requires IsParted(text, c, parts)
    ensures SplitOn(text, c) == parts
    decreases |parts|
  {
    if |parts| == 1 {
      assert parts == [parts[0]] && c !in parts[0];
    } else {
      PartedTail(text, c, parts);
      PartedIsSplit(Join(parts[1..], c), c, parts[1..]);
      SplitHead(parts[0], Join(parts[1..], c), c);
      assert parts == [parts[0]] + parts[1..];
    }
  }

  /** `split(c)` gives exactly the parts. */
  lemma SplitOnExactly(text: string, c: char, parts: seq<string>)
    ensures SplitOn(text, c) == parts <==> IsParted(text, c, parts)
  {
    SplitIsParted(text, c);
    if IsParted(text, c, parts) { PartedIsSplit(text, c, parts); }
  }

  /** The values a field's text stands for: those of the terms among its comma-separated parts. */
  ghost predicate FieldTextDenotes(field: string, value: int, low: int, high: int) {
    exists parts, part, t ::
      IsParted(field, ',', parts) && part in parts && TermText(part, t) && Denotes(t, value, low, high)
  }

  lemma FieldMatchesWhatItIs(field: string, value: int, low: int, high: int)
    ensures FieldMatches(field, value, low, high) <==> FieldTextDenotes(field, value, low, high)
  {
    SplitIsParted(field, ',');
    if FieldMatches(field, value, low, high) {
      var part :| part in SplitOn(field, ',') && TermMatches(part, value, low, high);
      TextMatchesWhatItIs(part, value, low, high);
      var t :| TermText(part, t) && Denotes(t, value, low, high);
    }
    if FieldTextDenotes(field, value, low, high) {
      var parts, part, t :|
        IsParted(field, ',', parts) && part in parts && TermText(part, t) && Denotes(t, value, low, high);
      PartedIsSplit(field, ',', parts);
      TextMatchesWhatItIs(part, value, low, high);
    }
  }

  /** Sunday is day 0 and day 7, the other days 1 to 6; `weekday` counts from Monday. */
  ghost predicate DayTextDenotes(field: string, weekday: nat) {
    if weekday == 6 then FieldTextDenotes(field, 0, 0, 7) || FieldTextDenotes(field, 7, 0, 7)
    else FieldTextDenotes(field, weekday + 1, 0, 7)
  }

  lemma DayMatchesWhatItIs(field: string, weekday: nat)
    requires weekday < 7
    ensures WeekdayMatches(WeekdayField(field), weekday) <==> DayTextDenotes(field, weekday)
  {
    WeekdayCases(WeekdayField(field), weekday);
    FieldMatchesWhatItIs(field, 0, 0, 7);
    FieldMatchesWhatItIs(field, 7, 0, 7);
    FieldMatchesWhatItIs(field, weekday + 1, 0, 7);
  }

  /** The five fields' texts stand for the instant. */
  ghost predicate FieldsDenote(fields: seq<string>, now: Instant)
    requires |fields| == 5
  {
    && FieldTextDenotes(fields[0], now.minute, 0, 59) && FieldTextDenotes(fields[1], now.hour, 0, 23)
    && FieldTextDenotes(fields[2], now.day, 1, 31) && FieldTextDenotes(fields[3], now.month, 1, 12)
    && DayTextDenotes(fields[4], now.weekday)
  }

  /**
   For every cadence, well-formed or not: it is due exactly when there is one, it is five words, and each stands for
   the instant's value. No cadence is never due, and neither is a text without exactly five words.
   */
  lemma CronDueExactly(expr: Option<string>, now: Instant)
    requires now.weekday < 7
    ensures CronDue(expr, now)
       <==> expr.Some? && exists fields :: |fields| == 5 && IsSplit(expr.value, fields) && FieldsDenote(fields, now)
  {
    if expr.Some? {
      var fields := Words(expr.value);
      WordsAreSplit(expr.value);
      forall other | IsSplit(expr.value, other) ensures other == fields { SplitIsWords(expr.value, other); }
      if |fields| == 5 { FieldsExactly(fields, now); }
    }
  }

  lemma FieldsExactly(fields: seq<string>, now: Instant)
    requires |fields| == 5 && now.weekday < 7
    ensures FieldsMatch(fields, now) <==> FieldsDenote(fields, now)
  {
    FieldMatchesWhatItIs(fields[0], now.minute, 0, 59);
    FieldMatchesWhatItIs(fields[1], now.hour, 0, 23);
    FieldMatchesWhatItIs(fields[2], now.day, 1, 31);
    FieldMatchesWhatItIs(fields[3], now.month, 1, 12);
    DayMatchesWhatItIs(fields[4], now.weekday);
  }

  /**
   Where the grammar's own description is off: a trailing slash is read as no step, so such a term still matches
   what its base matches instead of nothing.
   */
  lemma {:induction false} EmptyStepIsNoStep(base: string, value: int, low: int, high: int)
    requires '/' !in base
    ensures TermMatches(base + "/", value, low, high) <==> TermMatches(base, value, low, high)
  {
    Absent(base, '/');
    IndexOfIs(base, '/', []);
    assert base + "/" == base + (['/'] + []);
  }

  // --- terms that leave the field ---

  function Most(a: int, b: int): int { if a >= b then a else b }

  function Least(a: int, b: int): int { if a <= b then a else b }

  /** A point outside the field, or a range that begins or ends outside it. */
  predicate OutOfBounds(t: Term, low: int, high: int) {
    match t.base
    case Star => false
    case Point(n) => n < low || n > high
    case Range(from, to) => from < low || to > high
  }

  /** `value` lies a whole number of steps from `first`. */
  predicate OnStep(first: int, step: int, value: int)
    requires step > 0
  {
    (value - first) % step == 0
  }

  /** The least value on the steps from `first` that is not below `start`. */
  function NextOnStep(first: int, step: int, start: int): int
    requires step > 0
  {
    start + (first - start) % step
  }

  lemma NextIsOnStep(first: int, step: int, start: int)
    requires step > 0
    ensures OnStep(first, step, NextOnStep(first, step, start))
    ensures start <= NextOnStep(first, step, start) < start + step
  {
    var q := (first - start) / step;
    assert NextOnStep(first, step, start) - first == (-q) * step;
    MultipleHasNoRest(-q, step);
  }

  lemma NextIsLeast(first: int, step: int, start: int, value: int)
    requires step > 0 && start <= value && OnStep(first, step, value)
    ensures NextOnStep(first, step, start) <= value
  {
    NextIsOnStep(first, step, start);
    var next := NextOnStep(first, step, start);
    if value < next {
      var k, m := (value - first) / step, (next - first) / step;
      assert value - first == k * step && next - first == m * step;
      Difference(k, m, step);
      NoSmallMultiple(m - k, step);
    }
  }

  lemma Difference(k: int, m: int, step: int)
    ensures (m - k) * step == m * step - k * step
  {
  }

  /** The first of a term's values, counted on by its step, that is not below the field. */
  function FirstInField(t: Term, low: int): int
    requires StepOf(t) > 0
  {
    NextOnStep(First(t, low), StepOf(t), Most(First(t, low), low))
  }

  predicate Hits(t: Term, value: int, low: int, high: int)
    requires StepOf(t) > 0
  {
    First(t, low) <= value <= Last(t, high) && OnStep(First(t, low), StepOf(t), value)
  }

  lemma HitsInFieldExactly(t: Term, low: int, high: int)
    requires StepOf(t) > 0
    ensures (exists v :: low <= v <= high && Hits(t, v, low, high))
       <==> FirstInField(t, low) <= Least(Last(t, high), high)
  {
    var next := FirstInField(t, low);
    NextIsOnStep(First(t, low), StepOf(t), Most(First(t, low), low));
    if v :| low <= v <= high && Hits(t, v, low, high) {
      NextIsLeast(First(t, low), StepOf(t), Most(First(t, low), low), v);
    }
    if next <= Least(Last(t, high), high) { assert Hits(t, next, low, high); }
  }

  lemma TermMatchesIsHits(text: string, t: Term, value: int, low: int, high: int)
    requires TermText(text, t)
    ensures StepOf(t) > 0 && (TermMatches(text, value, low, high) <==> Hits(t, value, low, high))
  {
    ReadTermExactly(text, t);
    RangeIs(text, t, low, high);
    TextMatchesWhatItReads(text, value, low, high);
    DenotesIs(t, value, low, high);
  }

  /**
   A text that is a term matches some value of its field if and only if its first value not below the field does not
   lie beyond its last or the field's. So a base outside the field matches nothing exactly when that fails.
   */
  lemma {:induction false} MatchesInFieldExactly(text: string, t: Term, low: int, high: int)
    requires TermText(text, t)
    ensures StepOf(t) > 0
    ensures (exists v :: low <= v <= high && TermMatches(text, v, low, high))
       <==> FirstInField(t, low) <= Least(Last(t, high), high)
  {
    TermMatchesIsHits(text, t, low, low, high);
    HitsInFieldExactly(t, low, high);
    forall v ensures TermMatches(text, v, low, high) <==> Hits(t, v, low, high) {
      TermMatchesIsHits(text, t, v, low, high);
    }
  }

  lemma PrintedMatches(t: Term, value: int, low: int, high: int)
    requires ValidTerm(t) && Hits(t, value, low, high)
    ensures TermText(PrintTerm(t), t) && TermMatches(PrintTerm(t), value, low, high)
  {
    TermReadsBack(t);
    ReadTermExactly(PrintTerm(t), t);
    TermMatchesIsHits(PrintTerm(t), t, value, low, high);
  }

  const LATE_MINUTES := Term(Range(0, 70), None)
  const EARLY_DAYS := Term(Point(0), Some(5))

  lemma PrintedSamples()
    ensures PrintTerm(LATE_MINUTES) == "0-70" && PrintTerm(EARLY_DAYS) == "0/5"
  {
    assert Show(7) == "7" && Show(70) == Show(7) + "0" == "70";
    assert Show(0) == "0" && Show(5) == "5";
  }

  /** Two texts the documentation says match nothing, `0-70` for minutes and `0/5` for days: each matches a 5. */
  lemma OutOfBoundsMatches(t: Term, low: int, high: int)
    requires (t == LATE_MINUTES && low == 0 && high == 59) || (t == EARLY_DAYS && low == 1 && high == 31)
    ensures PrintTerm(t) == if t == LATE_MINUTES then "0-70" else "0/5"
    ensures OutOfBounds(t, low, high) && TermMatches(PrintTerm(t), 5, low, high)
  {
    PrintedSamples();
    assert Hits(t, 5, low, high);
    PrintedMatches(t, 5, low, high);
  }
}
