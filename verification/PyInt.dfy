/** Python's `int(text, base)` on ASCII text, for bases 10 and 16. */
module PyInt {
  import opened Arith
  import opened Decimal
  import opened Text
  import opened Wrappers

  function DigitIn(c: char, base: nat): (d: Option<nat>)
    ensures d.Some? ==> d.value < base
  {
    var v := if IsDigit(c) then DigitValue(c)
             else if 'a' <= c <= 'f' then c as int - 'a' as int + 10
             else if 'A' <= c <= 'F' then c as int - 'A' as int + 10
             else base;
    if v < base then Some(v) else None
  }

  /** The digits, literally: their value is their place. */
  lemma DigitsAreLiteral(c: char, d: nat)
    requires d < 16
    ensures DigitIn(c, 16) == Some(d) <==> c == "0123456789abcdef"[d] || c == "0123456789ABCDEF"[d]
    ensures d < 10 ==> (DigitIn(c, 10) == Some(d) <==> c == "0123456789"[d])
  {
  }

  /** Digits, single underscores allowed between them. */
  function Digits(s: string, base: nat): Option<nat> {
    if s == [] || DigitIn(s[|s| - 1], base).None? then None
    else
      var d, front := DigitIn(s[|s| - 1], base).value, s[..|s| - 1];
      if front == [] then Some(d)
      else
        var before := if front[|front| - 1] == '_' then front[..|front| - 1] else front;
        match Digits(before, base)
        case Some(v) =>
          NoNegativeProduct(v, base);
          Some(v * base + d)
        case None => None
  }

  function Unsigned(s: string, base: nat): Option<nat> {
    if base == 16 && |s| >= 2 && s[0] == '0' && s[1] in {'x', 'X'} then
      Digits(if |s| >= 3 && s[2] == '_' then s[3..] else s[2..], base)
    else Digits(s, base)
  }

  function Negated(n: int): int {
    -n
  }

  /** `int` once the white space is gone. */
  function Signed(s: string, base: nat): Option<int> {
    if s != [] && s[0] in {'+', '-'} then
      match Unsigned(s[1..], base)
      case Some(v) => Some(if s[0] == '-' then Negated(v) else v)
      case None => None
    else
      match Unsigned(s, base)
      case Some(v) => Some(v)
      case None => None
  }

  /** None stands for the ValueError. */
  function ParseInt(text: string, base: nat, kind: Kind := Str): Option<int> {
    Signed(Strip(text, kind), base)
  }

  // --- plain digit strings ---

  predicate AllIn(s: string, base: nat) {
    forall i | 0 <= i < |s| :: DigitIn(s[i], base).Some?
  }

  /** The number a digit string denotes. */
  function Value(s: string, base: nat): nat
    requires AllIn(s, base)
  {
    if s == [] then 0 else Value(s[..|s| - 1], base) * base + DigitIn(s[|s| - 1], base).value
  }

  lemma {:induction false} DigitsOfPlain(s: string, base: nat)
    requires s != [] && AllIn(s, base)
    ensures Digits(s, base) == Some(Value(s, base))
  {
    var front := s[..|s| - 1];
    if front != [] {
      DigitsOfPlain(front, base);
      assert DigitIn(s[|front| - 1], base).Some?;
      assert front[|front| - 1] == s[|front| - 1] != '_';
    }
  }

  lemma {:induction false} PlainHasNoSpace(s: string, base: nat, kind: Kind)
    requires AllIn(s, base)
    ensures NoSpace(s, kind)
  {
    forall i | 0 <= i < |s| ensures !IsSpace(s[i], kind) { assert DigitIn(s[i], base).Some?; }
  }

  /** A plain digit string, with or without white space after it, parses to the number it denotes. */
  lemma ParsePlain(s: string, trail: string, base: nat, kind: Kind := Str)
    requires s != [] && AllIn(s, base) && base <= 16 && Blank(trail, kind)
    ensures ParseInt(s + trail, base, kind) == Some(Value(s, base))
  {
    PlainHasNoSpace(s, base, kind);
    StripTrailing(s, trail, kind);
    assert DigitIn(s[0], base).Some? && (|s| >= 2 ==> DigitIn(s[1], base).Some?);
    DigitsOfPlain(s, base);
  }

  lemma {:induction false} DecimalIsPlain(s: string)
    requires AllDigits(s)
    ensures AllIn(s, 10) && Value(s, 10) == Read(s)
  {
    assert forall i | 0 <= i < |s| :: DigitIn(s[i], 10).Some? by {
      forall i | 0 <= i < |s| ensures DigitIn(s[i], 10).Some? { assert IsDigit(s[i]); }
    }
    if s != [] {
      assert IsDigit(s[|s| - 1]);
      DecimalIsPlain(s[..|s| - 1]);
    }
  }

  lemma ParseShown(n: nat)
    ensures ParseInt(Show(n), 10) == Some(n)
  {
    DecimalIsPlain(Show(n));
    ParsePlain(Show(n), "", 10);
    assert Show(n) + "" == Show(n);
    ReadShow(n);
  }

  // --- which texts are integers, and which ones ---

  /** Digits with single underscores between them. */
  predicate DigitShape(s: string, base: nat) {
    && s != [] && DigitIn(s[0], base).Some? && DigitIn(s[|s| - 1], base).Some?
    && (forall i | 0 <= i < |s| :: DigitIn(s[i], base).Some? || s[i] == '_')
    && (forall i | 0 < i < |s| :: s[i - 1] != '_' || s[i] != '_')
  }

  function Dropped(s: string): string {
    if s == [] then [] else Dropped(s[..|s| - 1]) + if s[|s| - 1] == '_' then [] else [s[|s| - 1]]
  }

  lemma {:induction false} DroppedIsPlain(s: string, base: nat)
    requires forall i | 0 <= i < |s| :: DigitIn(s[i], base).Some? || s[i] == '_'
    ensures AllIn(Dropped(s), base)
  {
    if s != [] { DroppedIsPlain(s[..|s| - 1], base); }
  }

  /** The text is digits of that shape, and the number without its underscores. */
  ghost predicate DigitText(s: string, base: nat, n: nat) {
    DigitShape(s, base) && AllIn(Dropped(s), base) && n == Value(Dropped(s), base)
  }

  lemma OneDigit(s: string, base: nat)
    requires |s| == 1 && DigitIn(s[0], base).Some?
    ensures DigitText(s, base, DigitIn(s[0], base).value)
  {
    assert s[..0] == [] && Dropped([]) == [] && Dropped(s) == [] + [s[0]] == s;
    var none: string := [];
    assert Value(none, base) == 0 && 0 * base == 0;
    ValueSnoc(none, s[0], base);
    assert none + [s[0]] == s;
  }

  lemma ValueSnoc(s: string, c: char, base: nat)
    requires AllIn(s, base) && DigitIn(c, base).Some?
    ensures AllIn(s + [c], base) && Value(s + [c], base) == Value(s, base) * base + DigitIn(c, base).value
  {
    assert (s + [c])[..|s|] == s;
  }

  /** `before`, perhaps an underscore, and one more digit. */
  lemma DroppedGrows(s: string, before: string)
    requires |s| > 1 && s[|s| - 1] != '_'
    requires before == if s[|s| - 2] == '_' then s[..|s| - 2] else s[..|s| - 1]
    ensures Dropped(s) == Dropped(before) + [s[|s| - 1]]
  {
    var front := s[..|s| - 1];
    if s[|s| - 2] == '_' {
      assert front[..|front| - 1] == before;
      assert Dropped(front) == Dropped(before) + [];
    }
  }

  lemma {:induction false} DigitsExactly(s: string, base: nat)
    ensures Digits(s, base).Some? <==> DigitShape(s, base)
    ensures Digits(s, base).Some? ==> DigitText(s, base, Digits(s, base).value)
    decreases |s|
  {
    if s != [] && DigitIn(s[|s| - 1], base).Some? {
      if |s| == 1 {
        OneDigit(s, base);
      } else {
        var front := s[..|s| - 1];
        var before := if front[|front| - 1] == '_' then front[..|front| - 1] else front;
        assert front[|front| - 1] == s[|s| - 2] && front[..|front| - 1] == s[..|s| - 2];
        DigitsExactly(before, base);
        ShapeGrows(s, base);
        DigitsGrow(s, before, base);
        if DigitShape(before, base) { DigitTextGrows(s, before, base, Digits(before, base).value); }
      }
    }
  }

  /** One more digit is read as the next place. */
  lemma DigitsGrow(s: string, before: string, base: nat)
    requires |s| > 1 && DigitIn(s[|s| - 1], base).Some?
    requires before == if s[|s| - 2] == '_' then s[..|s| - 2] else s[..|s| - 1]
    ensures Digits(s, base).Some? <==> Digits(before, base).Some?
    ensures Digits(s, base).Some? ==>
              Digits(s, base).value == Digits(before, base).value * base + DigitIn(s[|s| - 1], base).value
  {
    var front := s[..|s| - 1];
    assert front[|front| - 1] == s[|s| - 2] && front[..|front| - 1] == s[..|s| - 2];
  }

  lemma DigitTextGrows(s: string, before: string, base: nat, v: nat)
    requires |s| > 1 && DigitIn(s[|s| - 1], base).Some? && s[|s| - 1] != '_'
    requires before == if s[|s| - 2] == '_' then s[..|s| - 2] else s[..|s| - 1]
    requires DigitText(before, base, v) && DigitShape(s, base)
    ensures v * base + DigitIn(s[|s| - 1], base).value >= 0
    ensures DigitText(s, base, v * base + DigitIn(s[|s| - 1], base).value)
  {
    NoNegativeProduct(v, base);
    DroppedGrows(s, before);
    ValueSnoc(Dropped(before), s[|s| - 1], base);
  }

  lemma ShapeGrows(s: string, base: nat)
    requires |s| > 1 && DigitIn(s[|s| - 1], base).Some?
    ensures DigitShape(s, base) <==> DigitShape(if s[|s| - 2] == '_' then s[..|s| - 2] else s[..|s| - 1], base)
  {
    var before := if s[|s| - 2] == '_' then s[..|s| - 2] else s[..|s| - 1];
    assert forall i | 0 <= i < |before| :: before[i] == s[i];
    if DigitShape(before, base) {
      forall i | 0 <= i < |s| ensures DigitIn(s[i], base).Some? || s[i] == '_' {
        if i < |before| { assert before[i] == s[i]; }
      }
      forall i | 0 < i < |s| ensures s[i - 1] != '_' || s[i] != '_' {
        if i < |before| { assert before[i - 1] == s[i - 1] && before[i] == s[i]; }
      }
    }
  }

  /** `0x` or `0X` in front. */
  predicate Prefixed(s: string) {
    |s| >= 2 && s[0] == '0' && (s[1] == 'x' || s[1] == 'X')
  }

  /** Digits; in base 16 perhaps behind that prefix, and an underscore after it. */
  ghost predicate UnsignedText(s: string, base: nat, n: nat) {
    || DigitText(s, base, n)
    || (base == 16 && Prefixed(s)
        && (DigitText(s[2..], base, n) || (|s| >= 3 && s[2] == '_' && DigitText(s[3..], base, n))))
  }

  lemma NotDigits(base: nat)
    requires base in {10, 16}
    ensures DigitIn('x', base).None? && DigitIn('X', base).None? && DigitIn('_', base).None?
    ensures DigitIn('+', base).None? && DigitIn('-', base).None?
  {
  }

  lemma UnsignedExactly(s: string, base: nat, n: nat)
    requires base in {10, 16}
    ensures Unsigned(s, base) == Some(n) <==> UnsignedText(s, base, n)
  {
    NotDigits(base);
    DigitsExactly(s, base);
    if base == 16 && Prefixed(s) {
      DigitsExactly(s[2..], base);
      if |s| >= 3 { DigitsExactly(s[3..], base); }
      assert !DigitShape(s, base);
    }
  }

  /** An optional sign in front. */
  ghost predicate SignedText(s: string, base: nat, n: int) {
    || (n >= 0 && UnsignedText(s, base, n))
    || (s != [] && s[0] == '+' && n >= 0 && UnsignedText(s[1..], base, n))
    || (s != [] && s[0] == '-' && n <= 0 && UnsignedText(s[1..], base, -n))
  }

  /** White space may surround it. */
  ghost predicate IntText(text: string, n: int, base: nat := 10, kind: Kind := Str) {
    exists lead, body, trail ::
      Blank(lead, kind) && Blank(trail, kind) && text == lead + body + trail && SignedText(body, base, n)
  }

  lemma DigitEnds(s: string, base: nat, n: nat)
    requires DigitText(s, base, n) && base in {10, 16}
    ensures s != [] && s[0] !in {'+', '-'} && IsWordEnd(s[0]) && IsWordEnd(s[|s| - 1])
  {
    NotDigits(base);
  }

  lemma NoSignInDigits(s: string, base: nat, n: nat)
    requires UnsignedText(s, base, n) && base in {10, 16}
    ensures s != [] && s[0] !in {'+', '-'} && IsWordEnd(s[0]) && IsWordEnd(s[|s| - 1])
  {
    if DigitText(s, base, n) {
      DigitEnds(s, base, n);
    } else {
      var digits := if DigitText(s[2..], base, n) then s[2..] else s[3..];
      DigitEnds(digits, base, n);
      assert s[|s| - 1] == digits[|digits| - 1];
    }
  }

  predicate IsWordEnd(c: char) {
    !IsSpace(c, Str) && !IsSpace(c, Bytes)
  }

  lemma SignedExactly(s: string, base: nat, n: int)
    requires base in {10, 16}
    ensures SignedText(s, base, n) <==> Signed(s, base) == Some(n)
  {
    if n >= 0 {
      UnsignedExactly(s, base, n);
      if UnsignedText(s, base, n) { NoSignInDigits(s, base, n); }
    }
    if s != [] {
      if n >= 0 { UnsignedExactly(s[1..], base, n); }
      if n <= 0 { UnsignedExactly(s[1..], base, -n); }
    }
  }

  /** `int(text, base)` answers on exactly the texts that are integers, with the number they are. */
  lemma ParseIntExactly(text: string, n: int, base: nat := 10, kind: Kind := Str)
    requires base in {10, 16}
    ensures ParseInt(text, base, kind) == Some(n) <==> IntText(text, n, base, kind)
  {
    SignedExactly(Strip(text, kind), base, n);
    if ParseInt(text, base, kind) == Some(n) {
      var lead, trail := StripSplits(text, kind);
      assert SignedText(Strip(text, kind), base, n);
    }
    if IntText(text, n, base, kind) {
      var lead, body, trail :|
        Blank(lead, kind) && Blank(trail, kind) && text == lead + body + trail && SignedText(body, base, n);
      SignedEnds(body, base, n);
      StripIs(lead, body, trail, kind);
    }
  }

  lemma SignedEnds(s: string, base: nat, n: int)
    requires SignedText(s, base, n) && base in {10, 16}
    ensures s != [] && IsWordEnd(s[0]) && IsWordEnd(s[|s| - 1])
  {
    if n >= 0 && UnsignedText(s, base, n) {
      NoSignInDigits(s, base, n);
    } else {
      NoSignInDigits(s[1..], base, if s[0] == '+' then n else -n);
      assert s[1..][|s[1..]| - 1] == s[|s| - 1];
    }
  }
}
