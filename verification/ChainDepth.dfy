/**
 The `Chain-depth: <n>` lineage marker of retinue/adhoc_build.py: how it is rendered into a
 filed issue's body and read back with a multi-line regular expression whose two `\s*` may
 themselves run over line breaks. White space and digits are the ASCII ones.
 */
module ChainDepth {
  import opened Decimal
  import opened Text
  import opened Wrappers

  const PREFIX: string := "Chain-depth:"

  function Render(depth: nat): string {
    PREFIX + " " + Show(depth)
  }

  /** `^` in multi-line mode. */
  predicate LineStart(s: string, i: nat) {
    i <= |s| && (i == 0 || s[i - 1] == '\n')
  }

  /** `$` in multi-line mode. */
  predicate LineEnd(s: string, i: nat) {
    i == |s| || (i < |s| && s[i] == '\n')
  }

  predicate PrefixAt(s: string, i: nat) {
    i + |PREFIX| <= |s| && s[i..i + |PREFIX|] == PREFIX
  }

  /** The regular expression, read declaratively: digits at `[a, b)`, match at `[i, e)`. */
  ghost predicate Matches(s: string, i: nat, a: nat, b: nat, e: nat) {
    && LineStart(s, i) && PrefixAt(s, i)
    && i + |PREFIX| <= a < b <= e <= |s|
    && (forall k | i + |PREFIX| <= k < a :: IsSpace(s[k]))
    && (forall k | a <= k < b :: IsDigit(s[k]))
    && (forall k | b <= k < e :: IsSpace(s[k]))
    && LineEnd(s, e)
  }

  // --- the engine: greedy runs, then give back white space until `$` holds ---

  function SpaceEnd(s: string, k: nat): (e: nat)
    requires k <= |s|
    ensures k <= e <= |s|
    ensures forall m | k <= m < e :: IsSpace(s[m])
    ensures e < |s| ==> !IsSpace(s[e])
    decreases |s| - k
  {
    if k < |s| && IsSpace(s[k]) then SpaceEnd(s, k + 1) else k
  }

  function DigitEnd(s: string, k: nat): (e: nat)
    requires k <= |s|
    ensures k <= e <= |s|
    ensures forall m | k <= m < e :: IsDigit(s[m])
    ensures e < |s| ==> !IsDigit(s[e])
    decreases |s| - k
  {
    if k < |s| && IsDigit(s[k]) then DigitEnd(s, k + 1) else k
  }

  /** The greatest line end in `[lo, hi]`: backtracking over the trailing `\s*`. */
  function LastLineEnd(s: string, lo: nat, hi: nat): (r: Option<nat>)
    requires lo <= hi <= |s|
    ensures r.Some? ==> lo <= r.value <= hi && LineEnd(s, r.value)
    ensures forall k | lo <= k <= hi && LineEnd(s, k) :: r.Some? && k <= r.value
    decreases hi - lo
  {
    if LineEnd(s, hi) then Some(hi)
    else if lo == hi then None
    else LastLineEnd(s, lo, hi - 1)
  }

  datatype Hit = Hit(from: nat, to: nat, end: nat)

  function MatchAt(s: string, i: nat): (r: Option<Hit>)
    ensures r.Some? ==> i < r.value.end <= |s| && r.value.from <= r.value.to <= |s|
    ensures r.Some? ==> Matches(s, i, r.value.from, r.value.to, r.value.end)
  {
    if !(LineStart(s, i) && PrefixAt(s, i)) then None
    else
      var a := SpaceEnd(s, i + |PREFIX|);
      var b := DigitEnd(s, a);
      if a == b then None
      else match LastLineEnd(s, b, SpaceEnd(s, b))
        case None => None
        case Some(e) => Some(Hit(a, b, e))
  }

  lemma {:induction false} SpaceEndIs(s: string, k: nat, a: nat)
    requires k <= a <= |s| && (forall m | k <= m < a :: IsSpace(s[m])) && (a == |s| || !IsSpace(s[a]))
    ensures SpaceEnd(s, k) == a
    decreases a - k
  {
    if k < a { SpaceEndIs(s, k + 1, a); }
  }

  lemma {:induction false} DigitEndIs(s: string, k: nat, b: nat)
    requires k <= b <= |s| && (forall m | k <= m < b :: IsDigit(s[m])) && (b == |s| || !IsDigit(s[b]))
    ensures DigitEnd(s, k) == b
    decreases b - k
  {
    if k < b { DigitEndIs(s, k + 1, b); }
  }

  lemma {:induction false} SpaceEndAtLeast(s: string, k: nat, e: nat)
    requires k <= e <= |s| && (forall m | k <= m < e :: IsSpace(s[m]))
    ensures e <= SpaceEnd(s, k)
    decreases e - k
  {
    if k < e { SpaceEndAtLeast(s, k + 1, e); }
  }

  /** The engine finds a match exactly where the expression has one, and its digits are unique. */
  lemma MatchAtComplete(s: string, i: nat, a: nat, b: nat, e: nat)
    requires Matches(s, i, a, b, e)
    ensures MatchAt(s, i).Some?
    ensures MatchAt(s, i).value.from == a && MatchAt(s, i).value.to == b && e <= MatchAt(s, i).value.end
  {
    assert IsDigit(s[a]);
    SpaceEndIs(s, i + |PREFIX|, a);
    DigitEndIs(s, a, b);
    SpaceEndAtLeast(s, b, e);
    assert LastLineEnd(s, b, SpaceEnd(s, b)).Some?;
  }

  /** `findall`: scan left to right, resuming at the end of each match. */
  function FindAll(s: string, i: nat): seq<string>
    requires i <= |s|
    decreases |s| - i
  {
    match MatchAt(s, i)
    case Some(h) => [s[h.from..h.to]] + FindAll(s, h.end)
    case None => if i == |s| then [] else FindAll(s, i + 1)
  }

  lemma {:induction false} FoundAreDigits(s: string, i: nat)
    requires i <= |s|
    ensures forall d | d in FindAll(s, i) :: AllDigits(d)
    decreases |s| - i
  {
    match MatchAt(s, i)
    case Some(h) => FoundAreDigits(s, h.end);
    case None => if i < |s| { FoundAreDigits(s, i + 1); }
  }

  /** `parse_chain_depth`: the last marker wins; no marker is depth 0. */
  function Parse(body: string): nat {
    var found := FindAll(body, 0);
    if found == [] then 0
    else
      FoundAreDigits(body, 0);
      Read(found[|found| - 1])
  }

  ghost predicate HasMarker(s: string, i: nat) {
    exists a: nat, b: nat, e: nat :: Matches(s, i, a, b, e)
  }

  /** Markers never overlap: a match holds no second `C`, so it ends before the next one starts. */
  lemma MarkersDisjoint(s: string, i: nat, a: nat, b: nat, e: nat, p: nat)
    requires Matches(s, i, a, b, e) && i < p && PrefixAt(s, p)
    ensures e <= p
  {
    assert s[p] == s[p..p + |PREFIX|][0] == 'C';
    forall k | i < k < e ensures s[k] != 'C' {
      if k < i + |PREFIX| { assert s[k] == s[i..i + |PREFIX|][k - i] == PREFIX[k - i]; }
    }
  }

  lemma {:induction false} NoMarkerNothingFound(s: string, i: nat)
    requires i <= |s|
    requires forall j: nat | i <= j :: !HasMarker(s, j)
    ensures FindAll(s, i) == []
    decreases |s| - i
  {
    assert MatchAt(s, i).Some? ==> HasMarker(s, i);
    if i < |s| { NoMarkerNothingFound(s, i + 1); }
  }

  lemma LastMarkerFound(s: string, p: nat, a: nat, b: nat, e: nat)
    requires Matches(s, p, a, b, e)
    requires forall j: nat | p < j :: !HasMarker(s, j)
    ensures FindAll(s, p) == [s[a..b]]
  {
    MatchAtComplete(s, p, a, b, e);
    NoMarkerNothingFound(s, MatchAt(s, p).value.end);
  }

  lemma {:induction false} ScanReachesLast(s: string, i: nat, p: nat, a: nat, b: nat, e: nat)
    requires i <= p && Matches(s, p, a, b, e)
    requires forall j: nat | p < j :: !HasMarker(s, j)
    ensures FindAll(s, i) != [] && FindAll(s, i)[|FindAll(s, i)| - 1] == s[a..b]
    decreases p - i
  {
    if i == p {
      LastMarkerFound(s, p, a, b, e);
    } else {
      match MatchAt(s, i)
      case Some(h) =>
        MarkersDisjoint(s, i, h.from, h.to, h.end, p);
        ScanReachesLast(s, h.end, p, a, b, e);
        assert FindAll(s, i) == [s[h.from..h.to]] + FindAll(s, h.end);
      case None =>
        ScanReachesLast(s, i + 1, p, a, b, e);
        assert FindAll(s, i) == FindAll(s, i + 1);
    }
  }

  /** Whatever earlier matches swallow, the depth read is the one on the last marker in the text. */
  lemma ParseIsLastMarker(s: string, p: nat, a: nat, b: nat, e: nat)
    requires Matches(s, p, a, b, e)
    requires forall j: nat | p < j :: !HasMarker(s, j)
    ensures AllDigits(s[a..b]) && Parse(s) == Read(s[a..b])
  {
    ScanReachesLast(s, 0, p, a, b, e);
  }

  lemma ParseWithoutMarker(s: string)
    requires forall j: nat :: !HasMarker(s, j)
    ensures Parse(s) == 0
  {
    NoMarkerNothingFound(s, 0);
  }

  /** The body the pipeline files for a finding, and the depth the drain reads back from it. */
  function FiledBody(body: string, depth: nat): string {
    body + "\n\n" + Render(depth)
  }

  lemma ParseFiledBody(body: string, depth: nat)
    ensures Parse(FiledBody(body, depth)) == depth
  {
    var s := FiledBody(body, depth);
    var p := |body| + 2;
    var a := p + |PREFIX| + 1;
    assert s == (body + "\n\n") + Render(depth);
    assert s[p..] == Render(depth);
    assert s[p - 1] == '\n';
    assert s[p..p + |PREFIX|] == Render(depth)[..|PREFIX|] == PREFIX;
    assert s[a..] == Show(depth) by { assert s[a..] == s[p..][|PREFIX| + 1..]; }
    forall k | a <= k < |s| ensures IsDigit(s[k]) { assert s[k] == s[a..][k - a]; }
    assert s[a - 1] == s[p..][|PREFIX|] == ' ';
    assert Matches(s, p, a, |s|, |s|);
    forall j: nat | p < j ensures !HasMarker(s, j) {
      if PrefixAt(s, j) {
        MarkersDisjoint(s, p, a, |s|, |s|, j);
      }
    }
    ParseIsLastMarker(s, p, a, |s|, |s|);
    assert s[a..|s|] == Show(depth);
    ReadShow(depth);
  }
}
