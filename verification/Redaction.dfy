/**
 Scrubbing injected values from a failing check's report: Python's leftmost non-overlapping `str.replace`,
 one value after another, longest first. The proofs are about how replacements interact with each other and
 with the markers they leave behind.
 */
module Redaction {
  const MARKER: string := "[REDACTED]"

  const MIN_LENGTH := 4

  predicate StartsWith(s: string, v: string) {
    |v| <= |s| && s[..|v|] == v
  }

  predicate OccursAt(s: string, v: string, i: nat) {
    i + |v| <= |s| && s[i..i + |v|] == v
  }

  ghost predicate Contains(s: string, v: string) {
    exists i: nat :: OccursAt(s, v, i)
  }

  /** `text.replace(v, mark)`. */
  function Replace(text: string, v: string, mark: string): string
    requires v != []
  {
    if |text| < |v| then text
    else if text[..|v|] == v then mark + Replace(text[|v|..], v, mark)
    else [text[0]] + Replace(text[1..], v, mark)
  }

  function RedactAll(values: seq<string>, text: string, mark: string): string {
    if values == [] then text
    else RedactAll(values[1..], if |values[0]| >= MIN_LENGTH then Replace(text, values[0], mark) else text, mark)
  }

  predicate LongestFirst(values: seq<string>) {
    forall i, j | 0 <= i < j < |values| :: |values[i]| >= |values[j]|
  }

  lemma Assoc(a: string, b: string, c: string)
    ensures a + (b + c) == a + b + c
  {
  }

  lemma Hit(s: string, v: string, mark: string)
    requires v != [] && StartsWith(s, v)
    ensures Replace(s, v, mark) == mark + Replace(s[|v|..], v, mark)
  {
  }

  lemma Miss(s: string, v: string, mark: string)
    requires v != [] && s != [] && !StartsWith(s, v)
    ensures Replace(s, v, mark) == [s[0]] + Replace(s[1..], v, mark)
  {
    if |s| < |v| { assert s == [s[0]] + s[1..]; }
  }

  // --- values that cannot touch a marker ---

  /** `v` laid over the marker with its first character at offset `k` agrees wherever the two overlap. */
  predicate Touches(v: string, k: int, mark: string) {
    && -|v| < k < |mark|
    && forall j | 0 <= j < |v| && 0 <= k + j < |mark| :: v[j] == mark[k + j]
  }

  /** No occurrence of `v` can share a character with a marker, whatever surrounds it. */
  ghost predicate Independent(v: string, mark: string) {
    v != [] && forall k :: !Touches(v, k, mark)
  }

  /** A value without brackets that is not part of the marker's word is independent of `MARKER`. */
  lemma PlainIsIndependent(v: string)
    requires v != [] && '[' !in v && ']' !in v && !Contains("REDACTED", v)
    ensures Independent(v, MARKER)
  {
    var word := "REDACTED";
    assert MARKER[0] == '[' && MARKER[9] == ']' && MARKER[1..9] == word;
    forall k ensures !Touches(v, k, MARKER) {
      if -|v| < k <= 0 {
        assert v[-k] != MARKER[k + (-k)];
      } else if 0 < k < |MARKER| && |v| + k >= |MARKER| {
        assert v[9 - k] != MARKER[k + (9 - k)];
      } else if 0 < k && |v| + k < |MARKER| {
        assert !OccursAt(word, v, k - 1);
        var j :| 0 <= j < |v| && v[j] != word[k - 1..k - 1 + |v|][j];
        assert word[k - 1..k - 1 + |v|][j] == word[k - 1 + j] == MARKER[k + j];
      }
    }
  }

  /** An occurrence that shares a character with a marker touches it. */
  lemma OverMarker(s: string, v: string, i: nat, y: string, at: nat, mark: string)
    requires OccursAt(s, v, i) && at <= |s| && s[at..] == mark + y
    ensures i + |v| <= at || at + |mark| <= i || Touches(v, i - at, mark)
  {
    var k := i - at;
    forall j | 0 <= j < |v| && 0 <= k + j < |mark| ensures v[j] == mark[k + j] {
      assert v[j] == s[i..i + |v|][j] == s[i + j] == s[at..][k + j];
    }
  }

  // --- a replaced text contains neither the value nor anything new ---

  /** What an independent value sees at the front of a replaced text was there before. */
  lemma {:induction false} FrontIsOld(s: string, v: string, w: string, j: nat, mark: string)
    requires v != [] && mark != [] && Independent(w, mark) && j <= |w| && StartsWith(Replace(s, v, mark), w[j..])
    ensures StartsWith(s, w[j..])
    decreases |s|
  {
    if j < |w| && |s| >= |v| {
      if StartsWith(s, v) {
        Hit(s, v, mark);
        FrontMarker(Replace(s[|v|..], v, mark), w, j, mark);
      } else {
        Miss(s, v, mark);
        var rest := Replace(s[1..], v, mark);
        assert w[j..][1..] == w[j + 1..];
        assert rest[..|w| - j - 1] == ([s[0]] + rest)[..|w| - j][1..];
        FrontIsOld(s[1..], v, w, j + 1, mark);
        assert s == [s[0]] + s[1..] && w[j..] == [w[j]] + w[j + 1..];
        assert w[j] == w[j..][0] == ([s[0]] + rest)[..|w| - j][0] == s[0];
      }
    }
  }

  lemma FrontMarker(rest: string, w: string, j: nat, mark: string)
    requires Independent(w, mark) && j < |w| && mark != []
    ensures !StartsWith(mark + rest, w[j..])
  {
    var shifted := w[..j] + (mark + rest);
    assert shifted[j..] == mark + rest;
    if StartsWith(mark + rest, w[j..]) {
      assert shifted[0..|w|] == w[..j] + (mark + rest)[..|w| - j] == w;
      OverMarker(shifted, w, 0, rest, j, mark);
    }
  }

  /** An occurrence behind a marker that was put in front of `rest` lies in `rest`. */
  lemma BehindMarker(rest: string, w: string, i: nat, mark: string)
    requires Independent(w, mark) && OccursAt(mark + rest, w, i)
    ensures i >= |mark| && OccursAt(rest, w, i - |mark|)
  {
    assert (mark + rest)[0..] == mark + rest;
    OverMarker(mark + rest, w, i, rest, 0, mark);
    assert (mark + rest)[i..i + |w|] == rest[i - |mark|..i - |mark| + |w|];
  }

  lemma BehindChar(c: char, rest: string, w: string, i: nat)
    requires i > 0
    ensures OccursAt([c] + rest, w, i) <==> OccursAt(rest, w, i - 1)
  {
    assert i + |w| <= |rest| + 1 ==> ([c] + rest)[i..i + |w|] == rest[i - 1..i - 1 + |w|];
  }

  /** An independent value absent from the text, or being replaced itself, is absent from the result. */
  lemma {:induction false} ReplaceAddsNothing(s: string, v: string, w: string, i: nat, mark: string)
    requires v != [] && mark != [] && Independent(w, mark) && (v == w || !Contains(s, w))
    ensures !OccursAt(Replace(s, v, mark), w, i)
    decreases |s|, i
  {
    if |s| < |v| {
      assert v != w ==> !OccursAt(s, w, i);
    } else if StartsWith(s, v) {
      Hit(s, v, mark);
      if v != w { Tail(s, |v|, w); }
      if OccursAt(Replace(s, v, mark), w, i) {
        BehindMarker(Replace(s[|v|..], v, mark), w, i, mark);
        ReplaceAddsNothing(s[|v|..], v, w, i - |mark|, mark);
      }
    } else if i > 0 {
      Miss(s, v, mark);
      if v != w { Tail(s, 1, w); }
      ReplaceAddsNothing(s[1..], v, w, i - 1, mark);
      BehindChar(s[0], Replace(s[1..], v, mark), w, i);
    } else if OccursAt(Replace(s, v, mark), w, 0) {
      assert w[0..] == w;
      assert StartsWith(s, w) ==> OccursAt(s, w, 0);
      FrontIsOld(s, v, w, 0, mark);
    }
  }

  lemma Tail(s: string, n: nat, w: string)
    requires n <= |s| && !Contains(s, w)
    ensures !Contains(s[n..], w)
  {
    forall i: nat ensures !OccursAt(s[n..], w, i) {
      if i + |w| <= |s| - n {
        assert s[n..][i..i + |w|] == s[n + i..n + i + |w|];
        assert !OccursAt(s, w, n + i);
      }
    }
  }

  lemma {:induction false} AbsentStaysAbsent(values: seq<string>, text: string, w: string, mark: string)
    requires mark != [] && Independent(w, mark) && !Contains(text, w)
    ensures !Contains(RedactAll(values, text, mark), w)
    decreases |values|
  {
    if values != [] {
      var v := values[0];
      if |v| >= MIN_LENGTH {
        forall i: nat ensures !OccursAt(Replace(text, v, mark), w, i) { ReplaceAddsNothing(text, v, w, i, mark); }
        AbsentStaysAbsent(values[1..], Replace(text, v, mark), w, mark);
      } else {
        AbsentStaysAbsent(values[1..], text, w, mark);
      }
    }
  }

  /**
   In whatever order the values are replaced, none that is long enough and independent of the marker is left:
   later replacements never recreate it and markers never join with neighbouring text to form it.
   */
  lemma {:induction false} NoValueSurvives(values: seq<string>, text: string, w: string, mark: string)
    requires w in values && |w| >= MIN_LENGTH && mark != [] && Independent(w, mark)
    ensures !Contains(RedactAll(values, text, mark), w)
    decreases |values|
  {
    var v := values[0];
    var next := if |v| >= MIN_LENGTH then Replace(text, v, mark) else text;
    if v == w {
      forall i: nat ensures !OccursAt(next, w, i) { ReplaceAddsNothing(text, v, w, i, mark); }
      AbsentStaysAbsent(values[1..], next, w, mark);
    } else {
      NoValueSurvives(values[1..], next, w, mark);
    }
  }

  // --- one value, exactly ---

  lemma LaterMisses(s: string, v: string, m: nat)
    requires 0 < m <= |s| && forall r: nat | r < m :: !OccursAt(s, v, r)
    ensures !StartsWith(s, v) && forall r: nat | r < m - 1 :: !OccursAt(s[1..], v, r)
  {
    assert !OccursAt(s, v, 0);
    assert |v| <= |s| ==> s[0..|v|] == s[..|v|];
    forall r: nat | r < m - 1 ensures !OccursAt(s[1..], v, r) {
      assert !OccursAt(s, v, r + 1);
      assert r + |v| <= |s| - 1 ==> s[1..][r..r + |v|] == s[r + 1..r + 1 + |v|];
    }
  }

  /** Up to the first occurrence nothing changes. */
  lemma {:induction false} SkipTo(s: string, v: string, m: nat, mark: string)
    requires v != [] && m <= |s| && forall r: nat | r < m :: !OccursAt(s, v, r)
    ensures Replace(s, v, mark) == s[..m] + Replace(s[m..], v, mark)
    decreases m
  {
    if m == 0 {
      assert s[0..] == s;
    } else {
      LaterMisses(s, v, m);
      Miss(s, v, mark);
      SkipTo(s[1..], v, m - 1, mark);
      assert s[1..][m - 1..] == s[m..];
      assert s[..m] == [s[0]] + s[1..][..m - 1];
      Assoc([s[0]], s[1..][..m - 1], Replace(s[m..], v, mark));
    }
  }

  lemma FirstHit(s: string, v: string, m: nat, mark: string)
    requires v != [] && OccursAt(s, v, m) && forall r: nat | r < m :: !OccursAt(s, v, r)
    ensures Replace(s, v, mark) == s[..m] + mark + Replace(s[m + |v|..], v, mark)
  {
    SkipTo(s, v, m, mark);
    assert s[m..][..|v|] == s[m..m + |v|];
    Hit(s[m..], v, mark);
    assert s[m..][|v|..] == s[m + |v|..];
    Assoc(s[..m], mark, Replace(s[m + |v|..], v, mark));
  }

  lemma NoHit(s: string, v: string, mark: string)
    requires v != [] && !Contains(s, v)
    ensures Replace(s, v, mark) == s
  {
    SkipTo(s, v, |s|, mark);
    assert s[..|s|] == s && s[|s|..] == [];
  }

  /** The least position at which `v` occurs, or the length of `s`. */
  function FirstMatch(s: string, v: string, from: nat): (m: nat)
    requires from <= |s|
    ensures from <= m <= |s| && (forall r: nat | from <= r < m :: !OccursAt(s, v, r))
    ensures m < |s| ==> OccursAt(s, v, m)
    decreases |s| - from
  {
    if from == |s| || OccursAt(s, v, from) then from else FirstMatch(s, v, from + 1)
  }

  /** The finitely many texts that decide whether `v` can survive its own replacement. */
  function Probe(v: string, i: nat, j: nat): string
    requires i <= |v| && j <= |v|
  {
    v[..i] + v + v[j..]
  }

  ghost predicate LeaksOnProbe(v: string, mark: string)
    requires v != []
  {
    exists i: nat, j: nat :: i <= |v| && 0 < j <= |v| && Contains(Replace(Probe(v, i, j), v, mark), v)
  }

  /** A probe whose first match is at `i`: its front stays, then the marker, then the short rest. */
  lemma ProbeReplaced(v: string, i: nat, j: nat, mark: string)
    requires v != [] && i <= |v| && 0 < j <= |v|
    requires forall r: nat | r < i :: !OccursAt(v[..i] + v, v, r)
    ensures Replace(Probe(v, i, j), v, mark) == v[..i] + mark + v[j..]
  {
    var s := Probe(v, i, j);
    forall r: nat | r < i ensures !OccursAt(s, v, r) {
      assert s[r..r + |v|] == (v[..i] + v)[r..r + |v|];
      assert !OccursAt(v[..i] + v, v, r);
    }
    assert s[i..i + |v|] == v && s[i + |v|..] == v[j..] && s[..i] == v[..i];
    FirstHit(s, v, i, mark);
    NoHit(v[j..], v, mark);
  }

  /**
   Text that shows `v` from its `i` own characters, or from offset `q`, into a marker, shows it with a short rest too.
   */
  lemma Overlay(v: string, i: nat, q: nat, after: string, j: nat, mark: string)
    requires i < |v| && q < |mark| && (i == 0 || q == 0)
    requires StartsWith(v[..i] + mark[q..] + after, v)
    requires j == if i + |mark| - q < |v| then i + |mark| - q else |v|
    ensures OccursAt(v[..i] + mark + v[j..], v, q)
  {
    var shown, result := v[..i] + mark[q..] + after, v[..i] + mark + v[j..];
    assert q + |v| <= |result|;
    forall k | 0 <= k < |v| ensures result[q + k] == v[k] {
      assert v[k] == shown[..|v|][k] == shown[k];
    }
    assert result[q..q + |v|] == v;
  }

  lemma MarkerLeak(v: string, i: nat, q: nat, after: string, mark: string)
    requires v != [] && (i == 0 || q == 0) && i < |v| && q < |mark|
    requires forall r: nat | r < i :: !OccursAt(v[..i] + v, v, r)
    requires StartsWith(v[..i] + mark[q..] + after, v)
    ensures LeaksOnProbe(v, mark)
  {
    var j := if i + |mark| - q < |v| then i + |mark| - q else |v|;
    ProbeReplaced(v, i, j, mark);
    Overlay(v, i, q, after, j, mark);
  }

  /** An occurrence that begins inside the first marker. */
  lemma LeakInside(t: string, v: string, m: nat, rest: string, q: nat, mark: string)
    requires v != [] && m <= |t| && m <= q < m + |mark| && OccursAt(t[..m] + mark + rest, v, q)
    ensures LeaksOnProbe(v, mark)
  {
    var out := t[..m] + mark + rest;
    assert v[..0] + mark[q - m..] + rest == out[q..];
    assert out[q..][..|v|] == out[q..q + |v|];
    MarkerLeak(v, 0, q - m, rest, mark);
  }

  lemma SliceOfSlice(t: string, a: nat, b: nat, c: nat, d: nat)
    requires c <= d && a + d <= b <= |t|
    ensures t[a..b][c..d] == t[a + c..a + d]
  {
    assert forall k | 0 <= k < d - c :: t[a..b][c..d][k] == t[a + c + k] == t[a + c..a + d][k];
  }

  lemma InFront(t: string, m: nat, tail: string, v: string, q: nat)
    requires q + |v| <= m <= |t|
    ensures OccursAt(t[..m] + tail, v, q) <==> OccursAt(t, v, q)
  {
    assert (t[..m] + tail)[q..q + |v|] == t[q..q + |v|];
  }

  /** An occurrence that begins in front of the first marker: it cannot end there too. */
  lemma LeakBefore(t: string, v: string, m: nat, rest: string, q: nat, mark: string)
    requires v != [] && mark != [] && OccursAt(t, v, m) && (forall r: nat | r < m :: !OccursAt(t, v, r))
    requires q < m && OccursAt(t[..m] + mark + rest, v, q)
    ensures LeaksOnProbe(v, mark)
  {
    var out := t[..m] + mark + rest;
    var i := m - q;
    assert !OccursAt(t, v, q);
    assert out == t[..m] + (mark + rest);
    if |v| <= i { InFront(t, m, mark + rest, v, q); }
    assert v[..i] == out[q..q + |v|][..i] == t[q..m];
    forall r: nat | r < i ensures !OccursAt(v[..i] + v, v, r) {
      assert t[q..m + |v|] == t[q..m] + t[m..m + |v|] == v[..i] + v;
      SliceOfSlice(t, q, m + |v|, r, r + |v|);
      assert !OccursAt(t, v, q + r);
    }
    assert mark[0..] == mark;
    assert v[..i] + mark + rest == out[q..];
    assert out[q..][..|v|] == out[q..q + |v|];
    MarkerLeak(v, i, 0, rest, mark);
  }

  lemma OccursBehind(front: string, rest: string, v: string, q: nat)
    requires |front| <= q && OccursAt(front + rest, v, q)
    ensures OccursAt(rest, v, q - |front|)
  {
    assert (front + rest)[q..q + |v|] == rest[q - |front|..q - |front| + |v|];
  }

  lemma {:induction false} LeakShowsOnProbe(t: string, v: string, q: nat, mark: string)
    requires v != [] && mark != [] && OccursAt(Replace(t, v, mark), v, q)
    ensures LeaksOnProbe(v, mark)
    decreases |t|
  {
    var m := FirstMatch(t, v, 0);
    if m == |t| {
      forall r: nat ensures !OccursAt(t, v, r) { }
      NoHit(t, v, mark);
      return;
    }
    FirstHit(t, v, m, mark);
    var rest := Replace(t[m + |v|..], v, mark);
    var skipped := m + |mark|;
    if q < m {
      LeakBefore(t, v, m, rest, q, mark);
    } else if q < skipped {
      LeakInside(t, v, m, rest, q, mark);
    } else {
      OccursBehind(t[..m] + mark, rest, v, q);
      LeakShowsOnProbe(t[m + |v|..], v, q - skipped, mark);
    }
  }

  ghost predicate RemovedFromEveryText(v: string, mark: string)
    requires v != []
  {
    forall t: string, q: nat :: !OccursAt(Replace(t, v, mark), v, q)
  }

  /**
   Exactly when replacing one value removes it from every text: when it does so on the finitely many probes.
   */
  lemma RemovedExactly(v: string, mark: string)
    requires v != [] && mark != []
    ensures RemovedFromEveryText(v, mark) <==> !LeaksOnProbe(v, mark)
  {
    if LeaksOnProbe(v, mark) {
      var i: nat, j: nat :| i <= |v| && 0 < j <= |v| && Contains(Replace(Probe(v, i, j), v, mark), v);
      var q: nat :| OccursAt(Replace(Probe(v, i, j), v, mark), v, q);
    } else {
      forall t: string, q: nat ensures !OccursAt(Replace(t, v, mark), v, q) {
        if OccursAt(Replace(t, v, mark), v, q) { LeakShowsOnProbe(t, v, q, mark); }
      }
    }
  }

  /** A part of the marker itself can never be scrubbed; a value that cannot touch a marker always is. */
  lemma PartOfMarkerLeaks(v: string, mark: string)
    requires v != [] && Contains(mark, v)
    ensures LeaksOnProbe(v, mark)
  {
    ProbeReplaced(v, 0, |v|, mark);
    assert Replace(Probe(v, 0, |v|), v, mark) == mark;
  }

  lemma IndependentIsRemoved(v: string, mark: string)
    requires Independent(v, mark) && mark != []
    ensures !LeaksOnProbe(v, mark)
  {
    forall t: string, q: nat ensures !OccursAt(Replace(t, v, mark), v, q) { ReplaceAddsNothing(t, v, v, q, mark); }
    RemovedExactly(v, mark);
  }

  // --- longest first ---

  lemma WallAlone(y: string, v: string, mark: string)
    requires Independent(v, mark)
    ensures Replace(mark + y, v, mark) == mark + Replace(y, v, mark)
  {
    var s := mark + y;
    forall r: nat | r < |mark| ensures !OccursAt(s, v, r) {
      if OccursAt(s, v, r) {
        assert s[0..] == mark + y;
        OverMarker(s, v, r, y, 0, mark);
      }
    }
    SkipTo(s, v, |mark|, mark);
    assert s[|mark|..] == y && s[..|mark|] == mark;
  }

  /** In front of a marker an independent value either occurs as before or not at all. */
  lemma SameStart(x: string, y: string, v: string, mark: string)
    requires Independent(v, mark) && x != []
    ensures StartsWith(x + mark + y, v) <==> StartsWith(x, v)
  {
    var s := x + mark + y;
    assert |v| <= |x| ==> s[..|v|] == x[..|v|];
    if StartsWith(s, v) {
      assert s[|x|..] == mark + y;
      assert s[0..|v|] == v;
      OverMarker(s, v, 0, y, |x|, mark);
    }
  }

  lemma DropFront(x: string, m: string, y: string, n: nat)
    requires n <= |x|
    ensures (x + m + y)[n..] == x[n..] + m + y
  {
  }

  /** Markers are walls: an independent value is replaced on both sides of one as if it were not there. */
  lemma {:induction false} MarkerIsAWall(x: string, y: string, v: string, mark: string)
    requires Independent(v, mark)
    ensures Replace(x + mark + y, v, mark) == Replace(x, v, mark) + mark + Replace(y, v, mark)
    decreases |x|
  {
    if x == [] {
      assert x + mark + y == mark + y;
      WallAlone(y, v, mark);
    } else {
      SameStart(x, y, v, mark);
      WallStep(x, y, v, mark);
      MarkerIsAWall(x[if StartsWith(x, v) then |v| else 1..], y, v, mark);
    }
  }

  /** One step of the scan, the same on both sides. */
  lemma WallStep(x: string, y: string, v: string, mark: string)
    requires v != [] && x != [] && (StartsWith(x + mark + y, v) <==> StartsWith(x, v))
    ensures var n := if StartsWith(x, v) then |v| else 1;
      Replace(x[n..] + mark + y, v, mark) == Replace(x[n..], v, mark) + mark + Replace(y, v, mark) ==>
      Replace(x + mark + y, v, mark) == Replace(x, v, mark) + mark + Replace(y, v, mark)
  {
    var s := x + mark + y;
    var n := if StartsWith(x, v) then |v| else 1;
    var front := if StartsWith(x, v) then mark else [x[0]];
    DropFront(x, mark, y, n);
    if StartsWith(x, v) { Hit(s, v, mark); Hit(x, v, mark); } else { Miss(s, v, mark); Miss(x, v, mark); }
    Assoc(front, Replace(x[n..], v, mark) + mark, Replace(y, v, mark));
    Assoc(front, Replace(x[n..], v, mark), mark);
  }

  lemma {:induction false} WallForAll(values: seq<string>, x: string, y: string, mark: string)
    requires forall v | v in values && |v| >= MIN_LENGTH :: Independent(v, mark)
    ensures RedactAll(values, x + mark + y, mark) == RedactAll(values, x, mark) + mark + RedactAll(values, y, mark)
    decreases |values|
  {
    if values != [] {
      var v := values[0];
      if |v| >= MIN_LENGTH {
        MarkerIsAWall(x, y, v, mark);
        WallForAll(values[1..], Replace(x, v, mark), Replace(y, v, mark), mark);
      } else {
        WallForAll(values[1..], x, y, mark);
      }
    }
  }

  /**
   The first, longest value is redacted whole: its leftmost occurrence becomes exactly one marker, with
   nothing of it left on either side, whatever shorter values it contains.
   */
  lemma LongestIsRedactedWhole(values: seq<string>, x: string, y: string, mark: string)
    requires values != [] && |values[0]| >= MIN_LENGTH
    requires forall v | v in values[1..] && |v| >= MIN_LENGTH :: Independent(v, mark)
    requires forall r: nat | r < |x| :: !OccursAt(x + values[0] + y, values[0], r)
    ensures RedactAll(values, x + values[0] + y, mark) == RedactAll(values, x, mark) + mark + RedactAll(values, y, mark)
  {
    var v := values[0];
    var s := x + v + y;
    assert s[|x|..|x| + |v|] == v && s[|x| + |v|..] == y && s[..|x|] == x;
    FirstHit(s, v, |x|, mark);
    forall r: nat | r < |x| ensures !OccursAt(x, v, r) {
      assert r + |v| <= |x| ==> x[r..r + |v|] == s[r..r + |v|];
      assert !OccursAt(s, v, r);
    }
    forall r: nat ensures !OccursAt(x, v, r) { }
    NoHit(x, v, mark);
    WallForAll(values[1..], x, Replace(y, v, mark), mark);
  }

  lemma RedactTwo(v: string, w: string, text: string, mark: string)
    requires |v| >= MIN_LENGTH && |w| >= MIN_LENGTH
    ensures RedactAll([v, w], text, mark) == Replace(Replace(text, v, mark), w, mark)
  {
    var none: seq<string> := [];
    assert [v, w][1..] == [w] && [w][1..] == none;
    assert RedactAll(none, Replace(Replace(text, v, mark), w, mark), mark) == Replace(Replace(text, v, mark), w, mark);
  }

  /** The whole text is one value. */
  lemma ReplaceSelf(v: string, mark: string)
    requires v != []
    ensures Replace(v, v, mark) == mark
  {
    assert v[..|v|] == v && v[|v|..] == [];
    assert Replace([], v, mark) == [];
  }

  /**
   Not without that: with a word of the marker in the set too, the marker the longest value became is itself
   rewritten, as `[REDACTED]` is by `REDACTED`.
   */
  lemma MarkerRewritten(v: string, left: string, word: string, right: string)
    requires |v| >= |word| >= MIN_LENGTH
    requires forall r: nat | r < |left| :: !OccursAt(left + word + right, word, r)
    ensures var mark := left + word + right;
      RedactAll([v, word], v, mark) == left + mark + Replace(right, word, mark)
  {
    var mark := left + word + right;
    RedactTwo(v, word, v, mark);
    ReplaceSelf(v, mark);
    assert mark[|left|..|left| + |word|] == word && mark[..|left|] == left && mark[|left| + |word|..] == right;
    FirstHit(mark, word, |left|, mark);
  }

  /** Shorter first leaves a fragment, unless the marker and it spell the longer value again: why the order matters. */
  lemma ShorterFirstLeavesFragment(u: string, e: string, mark: string)
    requires MIN_LENGTH <= |u| && 0 < |e| < |u| && !Contains(mark + e, u + e)
    ensures RedactAll([u, u + e], u + e, mark) == mark + e
  {
    var v := u + e;
    assert v[..|u|] == u && v[|u|..] == e;
    assert Replace(v, u, mark) == mark + Replace(e, u, mark) == mark + e;
    RedactTwo(u, v, v, mark);
    NoHit(mark + e, v, mark);
  }

  // --- values that can overlap the marker ---

  lemma {:induction false} RedactSnoc(values: seq<string>, text: string, v: string, mark: string)
    ensures RedactAll(values + [v], text, mark)
         == if |v| >= MIN_LENGTH then Replace(RedactAll(values, text, mark), v, mark) else RedactAll(values, text, mark)
    decreases |values|
  {
    if values == [] {
      assert [v][1..] == [] && values + [v] == [v];
    } else {
      assert (values + [v])[1..] == values[1..] + [v];
      RedactSnoc(values[1..], if |values[0]| >= MIN_LENGTH then Replace(text, values[0], mark) else text, v, mark);
    }
  }

  /**
   The value replaced last, after whatever others: it is gone from every report if and only if it is gone from the
   finitely many probes, whether or not it can share a character with the marker.
   */
  lemma LastValueExactly(v: string, mark: string)
    requires |v| >= MIN_LENGTH && mark != []
    ensures (forall values: seq<string>, text: string, q: nat :: !OccursAt(RedactAll(values + [v], text, mark), v, q))
       <==> !LeaksOnProbe(v, mark)
  {
    RemovedExactly(v, mark);
    if LeaksOnProbe(v, mark) {
      var t: string, q: nat :| OccursAt(Replace(t, v, mark), v, q);
      RedactSnoc([], t, v, mark);
      assert OccursAt(RedactAll([] + [v], t, mark), v, q);
    } else {
      forall values: seq<string>, text: string, q: nat
        ensures !OccursAt(RedactAll(values + [v], text, mark), v, q)
      {
        RedactSnoc(values, text, v, mark);
      }
    }
  }

  /** The parts of `v` on either side of the marker it is laid over at offset `k`. */
  function LeftPart(v: string, k: int): string {
    if -|v| <= k < 0 then v[..-k] else []
  }

  function RightPart(v: string, k: int, mark: string): string {
    if 0 <= |mark| - k < |v| then v[|mark| - k..] else []
  }

  /** Around a marker these parts spell `v`. */
  lemma PartsSpell(v: string, k: int, mark: string)
    requires Touches(v, k, mark)
    ensures Contains(LeftPart(v, k) + mark + RightPart(v, k, mark), v)
  {
    var a, b := LeftPart(v, k), RightPart(v, k, mark);
    var s, q := a + mark + b, |a| + k;
    assert q + |v| <= |s|;
    forall j | 0 <= j < |v| ensures s[q + j] == v[j] {
      if q + j >= |a| + |mark| { assert s[q + j] == b[q + j - |a| - |mark|]; }
    }
    assert s[q..q + |v|] == v;
    assert OccursAt(s, v, q);
  }

  /** Around a text of characters foreign to `v` they do not. */
  lemma PartsHide(v: string, k: int, mark: string, w: string)
    requires v != [] && Touches(v, k, mark) && w != [] && forall i | 0 <= i < |w| :: w[i] !in v
    ensures !Contains(LeftPart(v, k) + w + RightPart(v, k, mark), v)
  {
    var a, b := LeftPart(v, k), RightPart(v, k, mark);
    var s := a + w + b;
    assert |a| < |v| && |b| < |v|;
    forall q: nat ensures !OccursAt(s, v, q) {
      if q + |v| <= |s| {
        var p := if q > |a| then q else |a|;
        assert s[q..q + |v|][p - q] == s[p] == w[p - |a|] && v[p - q] in v;
      }
    }
  }

  lemma FirstCharacter(s: string, w: string, r: nat)
    requires w != [] && OccursAt(s, w, r)
    ensures s[r] == w[0]
  {
    assert s[r..r + |w|][0] == w[0];
  }

  /** Replacing the foreign text by a marker: everything in front of it and behind it stays. */
  lemma ForeignReplaced(a: string, w: string, b: string, mark: string)
    requires w != [] && (forall i | 0 <= i < |a| :: a[i] != w[0]) && (forall i | 0 <= i < |b| :: b[i] != w[0])
    ensures Replace(a + w + b, w, mark) == a + mark + b
  {
    var s := a + w + b;
    assert s[|a|..|a| + |w|] == w && s[..|a|] == a && s[|a| + |w|..] == b;
    forall r: nat | r < |a| ensures !OccursAt(s, w, r) {
      assert s[r] == a[r];
      if OccursAt(s, w, r) { FirstCharacter(s, w, r); }
    }
    FirstHit(s, w, |a|, mark);
    forall r: nat ensures !OccursAt(b, w, r) {
      if OccursAt(b, w, r) { FirstCharacter(b, w, r); }
    }
    NoHit(b, w, mark);
  }

  /** A value that can overlap the marker, and a shorter one replaced after it that brings it back. */
  lemma BroughtBack(v: string, k: int, c: char, mark: string)
    requires |v| >= MIN_LENGTH && Touches(v, k, mark) && c !in v
    ensures LongestFirst([v, [c, c, c, c]])
    ensures Contains(RedactAll([v, [c, c, c, c]], LeftPart(v, k) + [c, c, c, c] + RightPart(v, k, mark), mark), v)
  {
    var w, a, b := [c, c, c, c], LeftPart(v, k), RightPart(v, k, mark);
    PartsHide(v, k, mark, w);
    NoHit(a + w + b, v, mark);
    assert (forall i | 0 <= i < |a| :: a[i] in v) && (forall i | 0 <= i < |b| :: b[i] in v);
    ForeignReplaced(a, w, b, mark);
    RedactTwo(v, w, a + w + b, mark);
    PartsSpell(v, k, mark);
  }

  /** In every set it belongs to and whatever the text, the value is gone from the report. */
  ghost predicate GoneFromEverySet(v: string, mark: string) {
    forall values: seq<string>, text: string ::
      LongestFirst(values) && v in values ==> !Contains(RedactAll(values, text, mark), v)
  }

  /**
   Exactly which values are scrubbed whatever else is: those that cannot share a character with the marker. (`c` is
   any character the value does not use.)
   */
  lemma EverySetExactly(v: string, c: char, mark: string)
    requires |v| >= MIN_LENGTH && c !in v && mark != []
    ensures GoneFromEverySet(v, mark) <==> Independent(v, mark)
  {
    if Independent(v, mark) {
      IndependentIsGone(v, mark);
    } else {
      var k :| Touches(v, k, mark);
      BroughtBack(v, k, c, mark);
      StaysInSome(v, [v, [c, c, c, c]], LeftPart(v, k) + [c, c, c, c] + RightPart(v, k, mark), mark);
    }
  }

  lemma IndependentIsGone(v: string, mark: string)
    requires |v| >= MIN_LENGTH && mark != [] && Independent(v, mark)
    ensures GoneFromEverySet(v, mark)
  {
    forall values: seq<string>, text: string | LongestFirst(values) && v in values
      ensures !Contains(RedactAll(values, text, mark), v)
    {
      NoValueSurvives(values, text, v, mark);
    }
  }

  lemma StaysInSome(v: string, values: seq<string>, text: string, mark: string)
    requires LongestFirst(values) && v in values && Contains(RedactAll(values, text, mark), v)
    ensures !GoneFromEverySet(v, mark)
  {
  }

  // --- the method ---

  /** A longest element of a non-empty set; ties go either way. */
  method PickLongest(values: set<string>) returns (v: string)
    requires values != {}
    ensures v in values && forall w | w in values :: |w| <= |v|
  {
    v :| v in values;
    var left := values - {v};
    while left != {}
      invariant v in values && left <= values
      invariant forall w | w in values && w !in left :: |w| <= |v|
      decreases left
    {
      var w :| w in left;
      if |w| > |v| { v := w; }
      left := left - {w};
    }
  }

  /** `_redact_values`: the set once, longest first, short values skipped. */
  method RedactValues(text: string, values: set<string>) returns (r: string, ghost order: seq<string>)
    ensures LongestFirst(order) && (forall v :: v in order <==> v in values) && r == RedactAll(order, text, MARKER)
    ensures forall v | v in values && |v| >= 4 && Independent(v, MARKER) :: !Contains(r, v)
  {
    r, order := text, [];
    var left := values;
    while left != {}
      invariant left <= values && LongestFirst(order)
      invariant forall v :: v in order <==> v in values && v !in left
      invariant forall v, w | v in order && w in left :: |v| >= |w|
      invariant r == RedactAll(order, text, MARKER)
      decreases left
    {
      var v := PickLongest(left);
      RedactSnoc(order, text, v, MARKER);
      if |v| >= MIN_LENGTH { r := Replace(r, v, MARKER); }
      order := order + [v];
      left := left - {v};
    }
    forall v | v in values && |v| >= 4 && Independent(v, MARKER) ensures !Contains(r, v) {
      NoValueSurvives(order, text, v, MARKER);
    }
  }
}
