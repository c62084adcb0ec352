/** ASCII white space as Python's `strip`, `split`, `int` and `\s` read it. */
module Text {
  /** Text and bytes differ: the separators 28 to 31 are white space in a `str` only. */
  datatype Kind = Str | Bytes

  predicate IsSpace(c: char, kind: Kind := Str) {
    c in {' ', '\t', '\n', '\r'} || 11 <= c as int <= 12 || (kind.Str? && 28 <= c as int <= 31)
  }

  /** By code point: 9 to 13 and 32, and in text 28 to 31 too. */
  lemma SpacesAre(c: char)
    ensures IsSpace(c, Bytes) <==> c as int in {9, 10, 11, 12, 13, 32}
    ensures IsSpace(c, Str) <==> c as int in {9, 10, 11, 12, 13, 28, 29, 30, 31, 32}
  {
  }

  predicate NoSpace(s: string, kind: Kind := Str) {
    forall i | 0 <= i < |s| :: !IsSpace(s[i], kind)
  }

  function StripLeft(s: string, kind: Kind := Str): string {
    if s != [] && IsSpace(s[0], kind) then StripLeft(s[1..], kind) else s
  }

  function StripRight(s: string, kind: Kind := Str): string {
    if s != [] && IsSpace(s[|s| - 1], kind) then StripRight(s[..|s| - 1], kind) else s
  }

  function Strip(s: string, kind: Kind := Str): string {
    StripRight(StripLeft(s, kind), kind)
  }

  predicate Blank(s: string, kind: Kind := Str) {
    forall i | 0 <= i < |s| :: IsSpace(s[i], kind)
  }

  /** White space at the end goes, up to the last other character. */
  lemma {:induction false} StripRightOver(s: string, trail: string, kind: Kind := Str)
    requires Blank(trail, kind)
    ensures StripRight(s + trail, kind) == StripRight(s, kind)
  {
    if trail == [] {
      assert s + trail == s;
    } else {
      assert (s + trail)[..|s + trail| - 1] == s + trail[..|trail| - 1];
      StripRightOver(s, trail[..|trail| - 1], kind);
    }
  }

  lemma {:induction false} StripLeftOver(lead: string, s: string, kind: Kind := Str)
    requires Blank(lead, kind)
    ensures StripLeft(lead + s, kind) == StripLeft(s, kind)
  {
    if lead == [] {
      assert lead + s == s;
    } else {
      assert (lead + s)[1..] == lead[1..] + s;
      StripLeftOver(lead[1..], s, kind);
    }
  }

  /**
   What `strip` leaves is what white space surrounds; unless nothing is left it begins and ends with something else.
   */
  lemma StripIs(lead: string, s: string, trail: string, kind: Kind := Str)
    requires Blank(lead, kind) && Blank(trail, kind) && s != [] && !IsSpace(s[0], kind) && !IsSpace(s[|s| - 1], kind)
    ensures Strip(lead + s + trail, kind) == s
  {
    assert lead + s + trail == lead + (s + trail);
    StripLeftOver(lead, s + trail, kind);
    StripRightOver(s, trail, kind);
  }

  lemma {:induction false} StripSplits(text: string, kind: Kind := Str) returns (lead: string, trail: string)
    ensures Blank(lead, kind) && Blank(trail, kind) && text == lead + Strip(text, kind) + trail
  {
    lead := LeftSplits(text, kind);
    trail := RightSplits(StripLeft(text, kind), kind);
    assert lead + (Strip(text, kind) + trail) == lead + Strip(text, kind) + trail;
  }

  lemma {:induction false} LeftSplits(text: string, kind: Kind) returns (lead: string)
    ensures Blank(lead, kind) && text == lead + StripLeft(text, kind)
  {
    if text != [] && IsSpace(text[0], kind) {
      var rest := LeftSplits(text[1..], kind);
      lead := [text[0]] + rest;
      assert text == [text[0]] + text[1..];
    } else {
      lead := [];
    }
  }

  lemma {:induction false} RightSplits(text: string, kind: Kind) returns (trail: string)
    ensures Blank(trail, kind) && text == StripRight(text, kind) + trail
  {
    if text != [] && IsSpace(text[|text| - 1], kind) {
      var rest := RightSplits(text[..|text| - 1], kind);
      trail := rest + [text[|text| - 1]];
      assert text == text[..|text| - 1] + [text[|text| - 1]];
    } else {
      trail := [];
    }
  }

  lemma {:induction false} StripEnds(text: string, kind: Kind := Str)
    ensures var s := Strip(text, kind); s == [] || (!IsSpace(s[0], kind) && !IsSpace(s[|s| - 1], kind))
  {
    LeftEnds(text, kind);
    RightEnds(StripLeft(text, kind), kind);
  }

  lemma {:induction false} LeftEnds(text: string, kind: Kind)
    ensures StripLeft(text, kind) == [] || !IsSpace(StripLeft(text, kind)[0], kind)
  {
    if text != [] && IsSpace(text[0], kind) { LeftEnds(text[1..], kind); }
  }

  lemma {:induction false} RightEnds(text: string, kind: Kind)
    ensures StripRight(text, kind) <= text
    ensures StripRight(text, kind) == [] || !IsSpace(StripRight(text, kind)[|StripRight(text, kind)| - 1], kind)
  {
    if text != [] && IsSpace(text[|text| - 1], kind) { RightEnds(text[..|text| - 1], kind); }
  }

  lemma {:induction false} StripRightKeeps(s: string, rest: string, kind: Kind := Str) returns (kept: string)
    requires s != [] && !IsSpace(s[|s| - 1], kind)
    ensures kept <= rest && StripRight(s + rest, kind) == s + kept
  {
    if rest == [] {
      assert s + rest == s;
      kept := [];
    } else if IsSpace(rest[|rest| - 1], kind) {
      assert (s + rest)[..|s + rest| - 1] == s + rest[..|rest| - 1];
      kept := StripRightKeeps(s, rest[..|rest| - 1], kind);
    } else {
      kept := rest;
    }
  }

  /** A word followed by white space strips to the word. */
  lemma StripTrailing(s: string, trail: string, kind: Kind := Str)
    requires NoSpace(s, kind) && Blank(trail, kind) && s != []
    ensures Strip(s + trail, kind) == s
  {
    assert [] + s + trail == s + trail;
    StripIs([], s, trail, kind);
  }

  /** A line of output without inner white space comes back without its newline. */
  lemma StripLine(s: string)
    requires NoSpace(s)
    ensures Strip(s + "\n") == s && Strip(s) == s
  {
    if s == [] {
      assert ("\n")[1..] == [];
      assert s + "\n" == "\n";
    } else {
      StripTrailing(s, "\n");
      StripTrailing(s, "");
      assert s + "" == s;
    }
  }
}
