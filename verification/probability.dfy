/** The probability panel (`ProbabilityTable`): every row of the form
    `| Upside | 35% |` is picked out of the report by a global,
    case-insensitive pattern, the rows found are ordered Upside, Downside,
    Flat/Sideways, and each is drawn as a bar whose colour depends on its
    direction. The pattern is re-expressed as a deterministic scanner `RowAt`
    and the `exec` loop as `Hits`. */
module Probability {
  import opened Common
  import opened Text

  /** One row kept by the panel: the direction as written in the report and
      the percentage label. */
  datatype Record = Record(direction: string, probability: string)

  /** A match of the row pattern: where it starts, what it captured, and the
      index just past it (where the next search resumes). */
  datatype Match = Match(start: nat, rec: Record, end: nat)

  /** The three directions the pattern accepts, in the order it tries them. */
  const Directions: seq<string> := ["Upside", "Downside", "Flat/Sideways"]

  // --------------------------------------------------------------- the pattern

  /** Case folding as the `i` flag does it without `u`: no character outside
      ASCII folds onto an ASCII one, so for the ASCII words above folding
      ASCII letters is all there is. */
  function Lower(c: char): char {
    if 'A' <= c <= 'Z' then (c as int + 32) as char else c
  }

  /** `s` holds `w` at `i`, ignoring case. */
  predicate WordAt(s: string, i: nat, w: string) {
    i + |w| <= |s| && forall k :: 0 <= k < |w| ==> Lower(s[i + k]) == Lower(w[k])
  }

  /** `a` equals `b` ignoring case. */
  predicate SameWord(a: string, b: string) {
    |a| == |b| && WordAt(a, 0, b)
  }

  /** A string that equals one of the directions, ignoring case. */
  predicate IsDirection(d: string) {
    SameWord(d, Directions[0]) || SameWord(d, Directions[1]) || SameWord(d, Directions[2])
  }

  /** The three words start with different letters, even ignoring case. */
  lemma FirstLetters()
    ensures Lower(Directions[0][0]) == 'u' && Lower(Directions[1][0]) == 'd'
    ensures Lower(Directions[2][0]) == 'f'
  {
  }

  /** Which word of `(Upside|Downside|Flat\/Sideways)` matches at `i`, as an
      index into `Directions`; the words differ in their first letter, so at
      most one of them can. */
  function DirectionAt(s: string, i: nat): (r: Option<nat>)
    ensures r.Some? ==> r.value < 3 && WordAt(s, i, Directions[r.value])
    ensures r.None? ==> forall w :: 0 <= w < 3 ==> !WordAt(s, i, Directions[w])
  {
    if WordAt(s, i, Directions[0]) then Some(0)
    else if WordAt(s, i, Directions[1]) then Some(1)
    else if WordAt(s, i, Directions[2]) then Some(2)
    else None
  }

  /** Where the whitespace run at `i` ends (a greedy `\s*`). */
  function SkipSpaces(s: string, i: nat): (j: nat)
    requires i <= |s|
    ensures i <= j <= |s|
    ensures j == |s| || !IsSpace(s[j])
    decreases |s| - i
  {
    if i < |s| && IsSpace(s[i]) then SkipSpaces(s, i + 1) else i
  }

  predicate IsLabelChar(c: char) {
    IsDigit(c) || c == '.'
  }

  /** Where the run of digits and dots at `i` ends (a greedy `[\d.]*`). */
  function SkipNumber(s: string, i: nat): (j: nat)
    requires i <= |s|
    ensures i <= j <= |s|
    ensures j == |s| || !IsLabelChar(s[j])
    decreases |s| - i
  {
    if i < |s| && IsLabelChar(s[i]) then SkipNumber(s, i + 1) else i
  }

  /** What `[\d.]+\s*%` captures: digits and dots, then whitespace, then a
      percent sign. */
  predicate IsLabel(l: string) {
    && |l| >= 2 && l[|l| - 1] == '%' && IsLabelChar(l[0])
    && forall k :: 0 <= k < |l| - 1 ==> IsLabelChar(l[k]) || IsSpace(l[k])
  }

  // ------------------------------------------------- the pattern, laid out

  /** Only whitespace in `[i, j)`. */
  ghost predicate Gap(s: string, i: nat, j: nat) {
    i <= j <= |s| && AllSpace(s[i..j])
  }

  predicate AllNumber(t: string) {
    forall k :: 0 <= k < |t| ==> IsLabelChar(t[k])
  }

  /** One or more digits and dots in `[i, j)`. */
  ghost predicate Digits(s: string, i: nat, j: nat) {
    i < j <= |s| && AllNumber(s[i..j])
  }

  /** Where the pieces of a row sit: the direction `Directions[w]` at `a`,
      the middle pipe at `c`, the label's digits in `[d, n)`, its percent
      sign at `e`, the closing pipe at `f`. */
  datatype Places = Places(a: nat, w: nat, c: nat, d: nat, n: nat, e: nat, f: nat)

  /** The pattern, read as a layout of `s` from the pipe at `p`: a pipe,
      whitespace, a direction in any casing, whitespace, a pipe, whitespace,
      digits and dots, whitespace, a percent sign, whitespace, a pipe. */
  ghost predicate Layout(s: string, p: nat, q: Places) {
    && p < |s| && s[p] == '|' && Gap(s, p + 1, q.a)
    && q.w < 3 && WordAt(s, q.a, Directions[q.w])
    && Gap(s, q.a + |Directions[q.w]|, q.c) && q.c < |s| && s[q.c] == '|'
    && Gap(s, q.c + 1, q.d) && Digits(s, q.d, q.n)
    && Gap(s, q.n, q.e) && q.e < |s| && s[q.e] == '%'
    && Gap(s, q.e + 1, q.f) && q.f < |s| && s[q.f] == '|'
  }

  // --------------------------------------------------------------- the scanner

  /** `/\|\s*(Upside|Downside|Flat\/Sideways)\s*\|\s*([\d.]+\s*%)\s*\|/i`
      tried at `p`: where its pieces fall. Every quantifier is followed by a
      character it cannot consume, so giving characters back never helps
      and each runs to its maximal length. */
  function PlacesAt(s: string, p: nat): (r: Option<Places>)
    ensures r.Some? ==> Layout(s, p, r.value)
  {
    if p >= |s| || s[p] != '|' then None
    else
      var a := SkipSpaces(s, p + 1);
      SpacesGap(s, p + 1);
      match DirectionAt(s, a)
      case None => None
      case Some(w) => Separator(s, p, a, w)
  }

  /** `\s*\|\s*` after the direction, then the label. */
  function Separator(s: string, p: nat, a: nat, w: nat): (r: Option<Places>)
    requires p < |s| && s[p] == '|' && Gap(s, p + 1, a)
    requires w < 3 && WordAt(s, a, Directions[w])
    ensures r.Some? ==> Layout(s, p, r.value)
  {
    var b := a + |Directions[w]|;
    var c := SkipSpaces(s, b);
    SpacesGap(s, b);
    if c >= |s| || s[c] != '|' then None
    else
      var d := SkipSpaces(s, c + 1);
      SpacesGap(s, c + 1);
      Label(s, p, a, w, c, d)
  }

  /** `([\d.]+\s*%)\s*\|` from `d`. */
  function Label(s: string, p: nat, a: nat, w: nat, c: nat, d: nat): (r: Option<Places>)
    requires p < |s| && s[p] == '|' && Gap(s, p + 1, a)
    requires w < 3 && WordAt(s, a, Directions[w])
    requires Gap(s, a + |Directions[w]|, c) && c < |s| && s[c] == '|' && Gap(s, c + 1, d)
    ensures r.Some? ==> Layout(s, p, r.value)
  {
    var n := SkipNumber(s, d);
    if n == d then None
    else
      NumberDigits(s, d);
      var e := SkipSpaces(s, n);
      SpacesGap(s, n);
      if e >= |s| || s[e] != '%' then None
      else
        var f := SkipSpaces(s, e + 1);
        SpacesGap(s, e + 1);
        if f >= |s| || s[f] != '|' then None
        else Some(Places(a, w, c, d, n, e, f))
  }

  /** What `SkipSpaces` skips is whitespace. */
  lemma {:induction false} SpacesGap(s: string, i: nat)
    requires i <= |s|
    ensures Gap(s, i, SkipSpaces(s, i))
    decreases |s| - i
  {
    if i < |s| && IsSpace(s[i]) {
      SpacesGap(s, i + 1);
      var j := SkipSpaces(s, i);
      forall k | 0 <= k < j - i ensures IsSpace(s[i..j][k]) {
        if k > 0 {
          assert s[i..j][k] == s[i + 1..j][k - 1];
        }
      }
    }
  }

  /** What `SkipNumber` skips is digits and dots. */
  lemma {:induction false} NumberDigits(s: string, i: nat)
    requires i <= |s|
    ensures AllNumber(s[i..SkipNumber(s, i)])
    decreases |s| - i
  {
    if i < |s| && IsLabelChar(s[i]) {
      NumberDigits(s, i + 1);
      var j := SkipNumber(s, i);
      forall k | 0 <= k < j - i ensures IsLabelChar(s[i..j][k]) {
        if k > 0 {
          assert s[i..j][k] == s[i + 1..j][k - 1];
        }
      }
    }
  }

  /** A match at `p`: it starts with the pipe at `p`, ends with a pipe, and
      captured a direction and a percentage label. */
  ghost predicate Fits(s: string, p: nat, m: Match) {
    && m.start == p < m.end <= |s|
    && s[p] == '|' && s[m.end - 1] == '|'
    && IsDirection(m.rec.direction)
    && IsLabel(m.rec.probability)
  }

  /** The match a layout yields: both captures as written in the report,
      and the index just past the closing pipe. */
  function MatchOf(s: string, p: nat, q: Places): (m: Match)
    requires Layout(s, p, q)
    ensures Fits(s, p, m)
  {
    WordIsDirection(s, q.a, q.w);
    LabelIsLabel(s, q.d, q.n, q.e);
    Match(p, Record(s[q.a..q.a + |Directions[q.w]|], s[q.d..q.e + 1]), q.f + 1)
  }

  lemma WordIsDirection(s: string, a: nat, w: nat)
    requires w < 3 && WordAt(s, a, Directions[w])
    ensures IsDirection(s[a..a + |Directions[w]|])
  {
    var r := s[a..a + |Directions[w]|];
    assert forall k :: 0 <= k < |r| ==> r[k] == s[a + k];
    assert SameWord(r, Directions[w]);
  }

  lemma LabelIsLabel(s: string, d: nat, n: nat, e: nat)
    requires Digits(s, d, n) && Gap(s, n, e) && e < |s| && s[e] == '%'
    ensures IsLabel(s[d..e + 1])
  {
    var l := s[d..e + 1];
    assert s[d..n][0] == s[d];
    forall k | 0 <= k < |l| - 1 ensures IsLabelChar(l[k]) || IsSpace(l[k]) {
      assert l[k] == s[d + k];
      if d + k < n {
        assert s[d..n][k] == s[d + k];
      } else {
        assert s[n..e][d + k - n] == s[d + k];
      }
    }
  }

  /** The row pattern tried at `p`. */
  function RowAt(s: string, p: nat): (r: Option<Match>)
    ensures r.Some? ==> Fits(s, p, r.value)
  {
    match PlacesAt(s, p)
    case None => None
    case Some(q) => Some(MatchOf(s, p, q))
  }

  // ------------------------------------------- the scanner is the pattern

  /** A whitespace run that stops at a non-space is what `\s*` consumes. */
  lemma {:induction false} SpacesTo(s: string, i: nat, j: nat)
    requires Gap(s, i, j) && (j == |s| || !IsSpace(s[j]))
    ensures SkipSpaces(s, i) == j
    decreases j - i
  {
    if i < j {
      assert s[i..j][0] == s[i];
      assert s[i + 1..j] == s[i..j][1..];
      SpacesTo(s, i + 1, j);
    }
  }

  /** A run of digits and dots that stops at another character is what
      `[\d.]+` consumes. */
  lemma {:induction false} NumberTo(s: string, i: nat, j: nat)
    requires i <= j <= |s| && AllNumber(s[i..j])
    requires j == |s| || !IsLabelChar(s[j])
    ensures SkipNumber(s, i) == j
    decreases j - i
  {
    if i < j {
      assert s[i..j][0] == s[i];
      assert s[i + 1..j] == s[i..j][1..];
      NumberTo(s, i + 1, j);
    }
  }

  /** The direction written at `a` is the one the alternation picks. */
  lemma DirectionFound(s: string, a: nat, w: nat)
    requires w < 3 && WordAt(s, a, Directions[w])
    ensures a < |s| && !IsSpace(s[a])
    ensures DirectionAt(s, a) == Some(w)
  {
    FirstLetters();
    assert Lower(s[a + 0]) == Lower(Directions[w][0]);
  }

  /** The label and closing pipe of a layout are what `Label` finds. */
  lemma LabelFound(s: string, p: nat, q: Places)
    requires p < |s| && s[p] == '|' && Gap(s, p + 1, q.a)
    requires q.w < 3 && WordAt(s, q.a, Directions[q.w])
    requires Gap(s, q.a + |Directions[q.w]|, q.c) && q.c < |s| && s[q.c] == '|'
    requires Gap(s, q.c + 1, q.d) && Digits(s, q.d, q.n)
    requires Gap(s, q.n, q.e) && q.e < |s| && s[q.e] == '%'
    requires Gap(s, q.e + 1, q.f) && q.f < |s| && s[q.f] == '|'
    ensures Label(s, p, q.a, q.w, q.c, q.d) == Some(q)
  {
    if q.n < q.e {
      assert s[q.n..q.e][0] == s[q.n];
    }
    NumberTo(s, q.d, q.n);
    SpacesTo(s, q.n, q.e);
    SpacesTo(s, q.e + 1, q.f);
    LabelSteps(s, p, q);
  }

  lemma LabelSteps(s: string, p: nat, q: Places)
    requires p < |s| && s[p] == '|' && Gap(s, p + 1, q.a)
    requires q.w < 3 && WordAt(s, q.a, Directions[q.w])
    requires Gap(s, q.a + |Directions[q.w]|, q.c) && q.c < |s| && s[q.c] == '|'
    requires Gap(s, q.c + 1, q.d) && q.d < q.n
    requires SkipNumber(s, q.d) == q.n && SkipSpaces(s, q.n) == q.e
    requires q.e < |s| && s[q.e] == '%' && SkipSpaces(s, q.e + 1) == q.f
    requires q.f < |s| && s[q.f] == '|'
    ensures Label(s, p, q.a, q.w, q.c, q.d) == Some(q)
  {
  }

  /** The middle pipe of a layout is where `Separator` finds it. */
  lemma SeparatorFound(s: string, p: nat, a: nat, w: nat, c: nat, d: nat, q: Places)
    requires p < |s| && s[p] == '|' && Gap(s, p + 1, a)
    requires w < 3 && WordAt(s, a, Directions[w])
    requires Gap(s, a + |Directions[w]|, c) && c < |s| && s[c] == '|'
    requires Gap(s, c + 1, d)
    requires SkipSpaces(s, a + |Directions[w]|) == c && SkipSpaces(s, c + 1) == d
    requires Label(s, p, a, w, c, d) == Some(q)
    ensures Separator(s, p, a, w) == Some(q)
  {
  }

  /** The whitespace after the opening pipe is what `\s*` skips, and the
      direction after it is the one the alternation picks. */
  lemma HeadSkips(s: string, p: nat, q: Places)
    requires Layout(s, p, q)
    ensures SkipSpaces(s, p + 1) == q.a && DirectionAt(s, q.a) == Some(q.w)
  {
    DirectionFound(s, q.a, q.w);
    SpacesTo(s, p + 1, q.a);
  }

  /** The whitespace around the middle pipe is what `\s*` skips. */
  lemma MiddleSkips(s: string, p: nat, q: Places)
    requires Layout(s, p, q)
    ensures SkipSpaces(s, q.a + |Directions[q.w]|) == q.c
    ensures SkipSpaces(s, q.c + 1) == q.d
  {
    assert s[q.d..q.n][0] == s[q.d];
    SpacesTo(s, q.a + |Directions[q.w]|, q.c);
    SpacesTo(s, q.c + 1, q.d);
  }

  lemma PlacesAtSteps(s: string, p: nat, a: nat, w: nat, q: Places)
    requires p < |s| && s[p] == '|' && Gap(s, p + 1, a) && SkipSpaces(s, p + 1) == a
    requires w < 3 && WordAt(s, a, Directions[w]) && DirectionAt(s, a) == Some(w)
    requires Separator(s, p, a, w) == Some(q)
    ensures PlacesAt(s, p) == Some(q)
  {
  }

  /** The layout is unique: wherever the pattern's pieces are laid out from
      `p`, the scanner finds exactly those places. */
  lemma PlacesAtComplete(s: string, p: nat, q: Places)
    requires Layout(s, p, q)
    ensures PlacesAt(s, p) == Some(q)
  {
    HeadSkips(s, p, q);
    LabelFound(s, p, q);
    MiddleSkips(s, p, q);
    SeparatorFound(s, p, q.a, q.w, q.c, q.d, q);
    PlacesAtSteps(s, p, q.a, q.w, q);
  }

  /** Wherever the pattern's pieces are laid out from `p`, the scanner
      matches there, with the captures the layout shows. */
  lemma RowAtComplete(s: string, p: nat, q: Places)
    requires Layout(s, p, q)
    ensures RowAt(s, p) == Some(MatchOf(s, p, q))
  {
    PlacesAtComplete(s, p, q);
  }

  /** And it matches nowhere else: each match is a layout's. */
  lemma RowAtSound(s: string, p: nat)
    requires RowAt(s, p).Some?
    ensures exists q: Places :: Layout(s, p, q) && RowAt(s, p).value == MatchOf(s, p, q)
  {
    var q := PlacesAt(s, p).value;
    assert Layout(s, p, q);
  }

  // ----------------------------------------------------------- the exec loop

  /** A scanner for one pattern: the match it finds starting at a position.
      The loop below is stated for any scanner, so that its proofs do not
      depend on the pattern's details. */
  type Scanner = (string, nat) -> Option<Match>

  /** The scanner's answer at `i` when it is a match that starts there and
      ends within the text; every answer of `RowAt` is one (`TryRowAt`). */
  function Try(scan: Scanner, s: string, i: nat): (r: Option<Match>)
    ensures r.Some? ==> r == scan(s, i) && r.value.start == i < r.value.end <= |s|
    ensures scan(s, i).None? ==> r.None?
  {
    var x := scan(s, i);
    if x.Some? && x.value.start == i < x.value.end <= |s| then x else None
  }

  lemma TryRowAt(s: string, i: nat)
    ensures Try(RowAt, s, i) == RowAt(s, i)
  {
  }

  /** `while ((match = PROBABILITY_REGEX.exec(text)) !== null)`: each search
      resumes where the previous match ended. */
  function Hits(scan: Scanner, s: string, i: nat): seq<Match>
    requires i <= |s|
    decreases |s| - i
  {
    if i == |s| then []
    else match Try(scan, s, i)
      case Some(m) => [m] + Hits(scan, s, m.end)
      case None => Hits(scan, s, i + 1)
  }

  /** No match starts in `[lo, hi)`. */
  ghost predicate NoMatchIn(scan: Scanner, s: string, lo: nat, hi: nat) {
    forall q :: lo <= q < hi ==> Try(scan, s, q).None?
  }

  /** What a global search from `i` finds: the leftmost match at or after
      `i`, then the leftmost at or after its end, and so on, until none is
      left. */
  ghost predicate Chain(scan: Scanner, s: string, i: nat, ms: seq<Match>)
    decreases |ms|
  {
    if |ms| == 0 then NoMatchIn(scan, s, i, |s|)
    else
      && i <= ms[0].start
      && NoMatchIn(scan, s, i, ms[0].start)
      && Try(scan, s, ms[0].start) == Some(ms[0])
      && Chain(scan, s, ms[0].end, ms[1..])
  }

  /** The loop finds the leftmost matches one after the other. */
  lemma {:induction false} HitsChain(scan: Scanner, s: string, i: nat)
    requires i <= |s|
    ensures Chain(scan, s, i, Hits(scan, s, i))
    decreases |s| - i
  {
    if i < |s| {
      match Try(scan, s, i)
      case Some(m) =>
        HitsChain(scan, s, m.end);
        assert ([m] + Hits(scan, s, m.end))[1..] == Hits(scan, s, m.end);
      case None =>
        HitsChain(scan, s, i + 1);
    }
  }

  /** And nothing else is such a chain: the matches found are exactly the
      ones a left-to-right global search finds. */
  lemma {:induction false} ChainIsHits(scan: Scanner, s: string, i: nat, ms: seq<Match>)
    requires i <= |s| && Chain(scan, s, i, ms)
    ensures ms == Hits(scan, s, i)
    decreases |s| - i
  {
    if i < |s| {
      if Try(scan, s, i).Some? {
        ChainHead(scan, s, i, ms);
        ChainIsHits(scan, s, ms[0].end, ms[1..]);
        HeadTail(ms);
      } else {
        ChainSkip(scan, s, i, ms);
        ChainIsHits(scan, s, i + 1, ms);
      }
    } else {
      ChainAtEnd(scan, s, ms);
    }
  }

  /** Nothing is found once the search reaches the end. */
  lemma ChainAtEnd(scan: Scanner, s: string, ms: seq<Match>)
    requires Chain(scan, s, |s|, ms)
    ensures ms == []
  {
  }

  /** A match at the search position is the first one found. */
  lemma ChainHead(scan: Scanner, s: string, i: nat, ms: seq<Match>)
    requires i < |s| && Try(scan, s, i).Some? && Chain(scan, s, i, ms)
    ensures |ms| > 0 && ms[0] == Try(scan, s, i).value
    ensures Chain(scan, s, ms[0].end, ms[1..])
  {
    assert !NoMatchIn(scan, s, i, |s|);
  }

  /** Without a match at the search position the search moves on. */
  lemma ChainSkip(scan: Scanner, s: string, i: nat, ms: seq<Match>)
    requires Try(scan, s, i).None? && Chain(scan, s, i, ms)
    ensures Chain(scan, s, i + 1, ms)
  {
  }

  /** Every hit is a match of the scanner where it starts. */
  lemma {:induction false} HitsMatch(scan: Scanner, s: string, i: nat)
    requires i <= |s|
    ensures forall k :: 0 <= k < |Hits(scan, s, i)| ==>
              scan(s, Hits(scan, s, i)[k].start) == Some(Hits(scan, s, i)[k])
    decreases |s| - i
  {
    if i < |s| {
      match Try(scan, s, i)
      case Some(m) =>
        HitsMatch(scan, s, m.end);
        var r := Hits(scan, s, i);
        assert forall k :: 0 < k < |r| ==> r[k] == Hits(scan, s, m.end)[k - 1];
      case None =>
        HitsMatch(scan, s, i + 1);
    }
  }

  /** `match[1].trim()` and `match[2].trim()`. */
  function Trimmed(rec: Record): Record {
    Record(Trim(rec.direction), Trim(rec.probability))
  }

  /** The record the loop pushes for each match, in the order found. */
  function Records(ms: seq<Match>): (r: seq<Record>)
    ensures |r| == |ms|
  {
    if |ms| == 0 then [] else [Trimmed(ms[0].rec)] + Records(ms[1..])
  }

  lemma {:induction false} RecordsAt(ms: seq<Match>, k: nat)
    requires k < |ms|
    ensures Records(ms)[k] == Trimmed(ms[k].rec)
  {
    if k > 0 {
      RecordsAt(ms[1..], k - 1);
    }
  }

  /** Each row of `Found` is the trimmed capture of a match of the pattern. */
  predicate RowShaped(x: Record) {
    IsDirection(x.direction) && IsLabel(x.probability)
  }

  /** A match's captures survive trimming and keep their shape. */
  lemma HitShape(s: string, m: Match)
    requires Fits(s, m.start, m)
    ensures Trimmed(m.rec) == m.rec && RowShaped(m.rec)
  {
    DirectionTrimmed(m.rec.direction);
    LabelTrimmed(m.rec.probability);
  }

  /** A matched direction starts and ends with a letter, so trimming keeps
      it whole. */
  lemma DirectionTrimmed(d: string)
    requires IsDirection(d)
    ensures Trim(d) == d
  {
    var w := if SameWord(d, Directions[0]) then Directions[0]
             else if SameWord(d, Directions[1]) then Directions[1] else Directions[2];
    assert Lower(d[0]) == Lower(w[0]) && Lower(d[|d| - 1]) == Lower(w[|w| - 1]);
    TrimUnchanged(d);
  }

  /** A matched label starts with a digit or dot and ends with `%`, so
      trimming keeps it whole. */
  lemma LabelTrimmed(l: string)
    requires IsLabel(l)
    ensures Trim(l) == l
  {
    TrimUnchanged(l);
  }

  // ------------------------------------------------------------- the ordering

  /** `order[direction]`: only the exact spellings have a rank; any other
      casing reads as `undefined` (rank 0 here). */
  function Rank(d: string): (n: nat)
    ensures n <= 3
    ensures n == 1 <==> d == "Upside"
    ensures n == 2 <==> d == "Downside"
    ensures n == 3 <==> d == "Flat/Sideways"
  {
    if d == "Upside" then 1
    else if d == "Downside" then 2
    else if d == "Flat/Sideways" then 3
    else 0
  }

  function Key(r: Record): nat {
    Rank(r.direction)
  }

  /** The comparator `order[a] - order[b]`; a difference with `undefined` is
      NaN, which the sort treats as `+0` (the two are left in place). */
  function Compare(a: Record, b: Record): int {
    if Key(a) > 0 && Key(b) > 0 then Key(a) - Key(b) else 0
  }

  /** Insert `x` after every element that does not compare above it. */
  function InsertBack(sorted: seq<Record>, x: Record): (r: seq<Record>)
    ensures |r| == |sorted| + 1
    decreases |sorted|
  {
    if |sorted| == 0 || Compare(sorted[|sorted| - 1], x) <= 0 then sorted + [x]
    else InsertBack(sorted[..|sorted| - 1], x) + [sorted[|sorted| - 1]]
  }

  /** `found.sort(...)`: a stable insertion sort with the comparator above.
      With a direction outside the canonical spellings the comparator is not
      consistent and the order JavaScript picks is left to the engine; this is
      one of the orders it may pick. */
  function Sort(s: seq<Record>): (r: seq<Record>)
    ensures |r| == |s|
    decreases |s|
  {
    if |s| == 0 then [] else InsertBack(Sort(s[..|s| - 1]), s[|s| - 1])
  }

  /** The rows the loop collects, in report order. */
  function Found(text: string): seq<Record> {
    Records(Hits(RowAt, text, 0))
  }

  /** The panel's rows: nothing for an empty report, else the rows found,
      rearranged by the sort. */
  function Extract(text: string): (r: seq<Record>)
    ensures multiset(r) == multiset(Found(text))
  {
    if |text| == 0 then []
    else
      SortPermutes(Found(text));
      Sort(Found(text))
  }

  /** Each row found is a direction, in any casing, with a percentage
      label. */
  lemma FoundShape(text: string)
    ensures forall x :: x in Found(text) ==> RowShaped(x)
  {
    var hs := Hits(RowAt, text, 0);
    forall k | 0 <= k < |hs| ensures Found(text)[k] == hs[k].rec && RowShaped(hs[k].rec) {
      FoundAt(text, k);
    }
  }

  /** The rows found are the matches' captures, as written. */
  lemma FoundAt(text: string, k: nat)
    requires k < |Hits(RowAt, text, 0)|
    ensures Found(text)[k] == Hits(RowAt, text, 0)[k].rec && RowShaped(Found(text)[k])
  {
    var hs := Hits(RowAt, text, 0);
    HitsMatch(RowAt, text, 0);
    assert RowAt(text, hs[k].start) == Some(hs[k]);
    RecordsAt(hs, k);
    HitShape(text, hs[k]);
  }

  /** So is each row the panel shows. */
  lemma ExtractShape(text: string)
    ensures forall x :: x in Extract(text) ==> RowShaped(x)
  {
    FoundShape(text);
    assert forall x :: x in Extract(text) ==> x in multiset(Found(text));
  }

  // ----------------------------------------------------------- sort lemmas

  lemma {:induction false} InsertPermutes(sorted: seq<Record>, x: Record)
    ensures multiset(InsertBack(sorted, x)) == multiset(sorted) + multiset{x}
    decreases |sorted|
  {
    if |sorted| > 0 && Compare(sorted[|sorted| - 1], x) > 0 {
      var front, y := sorted[..|sorted| - 1], sorted[|sorted| - 1];
      calc {
        multiset(InsertBack(sorted, x));
        multiset(InsertBack(front, x) + [y]);
        multiset(InsertBack(front, x)) + multiset{y};
        { InsertPermutes(front, x); }
        multiset(front) + multiset{x} + multiset{y};
        multiset(front + [y]) + multiset{x};
        { Snoc(sorted); }
        multiset(sorted) + multiset{x};
      }
    }
  }

  /** The sorted rows are a rearrangement of the rows found. */
  lemma {:induction false} SortPermutes(s: seq<Record>)
    ensures multiset(Sort(s)) == multiset(s)
    decreases |s|
  {
    if |s| > 0 {
      var front, x := s[..|s| - 1], s[|s| - 1];
      calc {
        multiset(Sort(s));
        multiset(InsertBack(Sort(front), x));
        { InsertPermutes(Sort(front), x); }
        multiset(Sort(front)) + multiset{x};
        { SortPermutes(front); }
        multiset(front) + multiset{x};
        multiset(front + [x]);
        { Snoc(s); }
        multiset(s);
      }
    }
  }

  predicate Canonical(s: seq<Record>) {
    forall k :: 0 <= k < |s| ==> Key(s[k]) > 0
  }

  predicate Sorted(s: seq<Record>) {
    forall i, j :: 0 <= i < j < |s| ==> Key(s[i]) <= Key(s[j])
  }

  lemma {:induction false} InsertSorted(sorted: seq<Record>, x: Record)
    requires Canonical(sorted) && Key(x) > 0 && Sorted(sorted)
    ensures Sorted(InsertBack(sorted, x)) && Canonical(InsertBack(sorted, x))
    decreases |sorted|
  {
    if |sorted| > 0 && Compare(sorted[|sorted| - 1], x) > 0 {
      var front := sorted[..|sorted| - 1];
      var y := sorted[|sorted| - 1];
      InsertSorted(front, x);
      InsertBackBounded(front, x, Key(y));
    }
  }

  /** Inserting keeps every rank below a bound the inserted row respects. */
  lemma {:induction false} InsertBackBounded(sorted: seq<Record>, x: Record, bound: nat)
    requires forall k :: 0 <= k < |sorted| ==> Key(sorted[k]) <= bound
    requires Key(x) <= bound
    ensures forall k :: 0 <= k < |sorted| + 1 ==> Key(InsertBack(sorted, x)[k]) <= bound
    decreases |sorted|
  {
    if |sorted| > 0 && Compare(sorted[|sorted| - 1], x) > 0 {
      InsertBackBounded(sorted[..|sorted| - 1], x, bound);
    }
  }

  /** With canonical directions only, the rows come out Upside, Downside,
      Flat/Sideways. */
  lemma {:induction false} SortSorted(s: seq<Record>)
    requires Canonical(s)
    ensures Sorted(Sort(s))
    ensures Canonical(Sort(s))
    decreases |s|
  {
    if |s| > 0 {
      var front := s[..|s| - 1];
      SortSorted(front);
      InsertSorted(Sort(front), s[|s| - 1]);
    }
  }

  /** The rows of one rank. */
  function OfKey(n: nat): Record -> bool {
    r => Key(r) == n
  }

  /** `x` if it has rank `n`, else nothing. */
  function Only(n: nat, x: Record): (r: seq<Record>)
    ensures |r| <= 1 && (r == [x] <==> Key(x) == n)
  {
    if Key(x) == n then [x] else []
  }

  lemma FilterSingle(n: nat, x: Record)
    ensures Filter(OfKey(n), [x]) == Only(n, x)
  {
    assert [x][1..] == [];
  }

  /** Inserting a row changes the rows of each rank only by adding it at the
      end of its own rank. */
  lemma {:induction false} InsertStable(sorted: seq<Record>, x: Record, n: nat)
    ensures Filter(OfKey(n), InsertBack(sorted, x)) == Filter(OfKey(n), sorted) + Only(n, x)
    decreases |sorted|
  {
    var keep := OfKey(n);
    if |sorted| == 0 || Compare(sorted[|sorted| - 1], x) <= 0 {
      FilterAppend(keep, sorted, [x]);
      FilterSingle(n, x);
    } else {
      var front := sorted[..|sorted| - 1];
      var y := sorted[|sorted| - 1];
      calc {
        Filter(keep, InsertBack(sorted, x));
        Filter(keep, InsertBack(front, x) + [y]);
        { FilterAppend(keep, InsertBack(front, x), [y]); FilterSingle(n, y); }
        Filter(keep, InsertBack(front, x)) + Only(n, y);
        { InsertStable(front, x, n); }
        Filter(keep, front) + Only(n, x) + Only(n, y);
        { assert Only(n, x) == [] || Only(n, y) == []; }
        Filter(keep, front) + Only(n, y) + Only(n, x);
        { FilterAppend(keep, front, [y]); FilterSingle(n, y); }
        Filter(keep, front + [y]) + Only(n, x);
        { Snoc(sorted); }
        Filter(keep, sorted) + Only(n, x);
      }
    }
  }

  /** The sort is stable: the rows of each rank, and the rows with no rank,
      keep the order they were found in. */
  lemma {:induction false} SortStable(s: seq<Record>, n: nat)
    ensures Filter(OfKey(n), Sort(s)) == Filter(OfKey(n), s)
    decreases |s|
  {
    if |s| > 0 {
      var front, x := s[..|s| - 1], s[|s| - 1];
      calc {
        Filter(OfKey(n), Sort(s));
        Filter(OfKey(n), InsertBack(Sort(front), x));
        { InsertStable(Sort(front), x, n); }
        Filter(OfKey(n), Sort(front)) + Only(n, x);
        { SortStable(front, n); }
        Filter(OfKey(n), front) + Only(n, x);
        { FilterAppend(OfKey(n), front, [x]); FilterSingle(n, x); }
        Filter(OfKey(n), front + [x]);
        { Snoc(s); }
        Filter(OfKey(n), s);
      }
    }
  }

  /** A sorted canonical sequence is its Upside rows, then its Downside rows,
      then its Flat/Sideways rows. */
  lemma {:induction false} SortedSplits(t: seq<Record>)
    requires Canonical(t) && Sorted(t)
    ensures t == Filter(OfKey(1), t) + Filter(OfKey(2), t) + Filter(OfKey(3), t)
    decreases |t|
  {
    if |t| > 0 {
      var a, rest := t[0], t[1..];
      SortedTail(t);
      SortedSplits(rest);
      if Key(a) == 1 {
        SplitsFirst(t);
      } else if Key(a) == 2 {
        NoneBelow(rest, 1, 2);
        SplitsSecond(t);
      } else {
        NoneBelow(rest, 1, 3);
        NoneBelow(rest, 2, 3);
        SplitsThird(t);
      }
    }
  }

  lemma SortedTail(t: seq<Record>)
    requires |t| > 0 && Canonical(t) && Sorted(t)
    ensures Canonical(t[1..]) && Sorted(t[1..])
    ensures forall k :: 0 <= k < |t| - 1 ==> Key(t[0]) <= Key(t[1..][k])
  {
    assert forall k :: 0 <= k < |t| - 1 ==> t[1..][k] == t[k + 1];
  }

  lemma FilterCons(n: nat, t: seq<Record>)
    requires |t| > 0
    ensures Filter(OfKey(n), t) == Only(n, t[0]) + Filter(OfKey(n), t[1..])
  {
  }

  lemma SplitsFirst(t: seq<Record>)
    requires |t| > 0 && Key(t[0]) == 1
    requires t[1..] == Filter(OfKey(1), t[1..]) + Filter(OfKey(2), t[1..]) + Filter(OfKey(3), t[1..])
    ensures t == Filter(OfKey(1), t) + Filter(OfKey(2), t) + Filter(OfKey(3), t)
  {
    var r1, r2, r3 := Filter(OfKey(1), t[1..]), Filter(OfKey(2), t[1..]), Filter(OfKey(3), t[1..]);
    FilterCons(1, t);
    FilterCons(2, t);
    FilterCons(3, t);
    RegroupFirst(t[0], r1, r2, r3);
    assert t == [t[0]] + t[1..];
  }

  lemma SplitsSecond(t: seq<Record>)
    requires |t| > 0 && Key(t[0]) == 2 && Filter(OfKey(1), t[1..]) == []
    requires t[1..] == Filter(OfKey(1), t[1..]) + Filter(OfKey(2), t[1..]) + Filter(OfKey(3), t[1..])
    ensures t == Filter(OfKey(1), t) + Filter(OfKey(2), t) + Filter(OfKey(3), t)
  {
    var r1, r2, r3 := Filter(OfKey(1), t[1..]), Filter(OfKey(2), t[1..]), Filter(OfKey(3), t[1..]);
    FilterCons(1, t);
    FilterCons(2, t);
    FilterCons(3, t);
    RegroupSecond(t[0], r1, r2, r3);
    assert t == [t[0]] + t[1..];
  }

  lemma SplitsThird(t: seq<Record>)
    requires |t| > 0 && Key(t[0]) == 3
    requires Filter(OfKey(1), t[1..]) == [] && Filter(OfKey(2), t[1..]) == []
    requires t[1..] == Filter(OfKey(1), t[1..]) + Filter(OfKey(2), t[1..]) + Filter(OfKey(3), t[1..])
    ensures t == Filter(OfKey(1), t) + Filter(OfKey(2), t) + Filter(OfKey(3), t)
  {
    var r1, r2, r3 := Filter(OfKey(1), t[1..]), Filter(OfKey(2), t[1..]), Filter(OfKey(3), t[1..]);
    FilterCons(1, t);
    FilterCons(2, t);
    FilterCons(3, t);
    RegroupThird(t[0], r1, r2, r3);
    assert t == [t[0]] + t[1..];
  }

  lemma RegroupFirst<T>(a: T, r1: seq<T>, r2: seq<T>, r3: seq<T>)
    ensures ([a] + r1) + ([] + r2) + ([] + r3) == [a] + (r1 + r2 + r3)
  {
  }

  lemma RegroupSecond<T>(a: T, r1: seq<T>, r2: seq<T>, r3: seq<T>)
    requires r1 == []
    ensures ([] + r1) + ([a] + r2) + ([] + r3) == [a] + (r1 + r2 + r3)
  {
  }

  lemma RegroupThird<T>(a: T, r1: seq<T>, r2: seq<T>, r3: seq<T>)
    requires r1 == [] && r2 == []
    ensures ([] + r1) + ([] + r2) + ([a] + r3) == [a] + (r1 + r2 + r3)
  {
  }

  /** Rows all ranked at least `lo` have none ranked `n < lo`. */
  lemma {:induction false} NoneBelow(t: seq<Record>, n: nat, lo: nat)
    requires n < lo && forall k :: 0 <= k < |t| ==> lo <= Key(t[k])
    ensures Filter(OfKey(n), t) == []
    decreases |t|
  {
    if |t| > 0 {
      NoneBelow(t[1..], n, lo);
    }
  }

  /** With canonical directions the result is fully determined: the Upside
      rows in report order, then the Downside rows, then the Flat/Sideways
      rows. */
  lemma SortCanonical(s: seq<Record>)
    requires Canonical(s)
    ensures Sort(s) == Filter(OfKey(1), s) + Filter(OfKey(2), s) + Filter(OfKey(3), s)
  {
    SortSorted(s);
    SortedSplits(Sort(s));
    SortStable(s, 1);
    SortStable(s, 2);
    SortStable(s, 3);
  }

  // --------------------------------------------------------------- the panel

  /** `getBarColor`: an exact-spelling switch with a fallback. */
  function BarColor(direction: string): (c: string)
    ensures direction == "Upside" <==> c == "bg-green-500"
    ensures direction == "Downside" <==> c == "bg-red-500"
    ensures direction == "Flat/Sideways" <==> c == "bg-gray-500"
    ensures Rank(direction) == 0 <==> c == "bg-gray-600"
  {
    if direction == "Upside" then "bg-green-500"
    else if direction == "Downside" then "bg-red-500"
    else if direction == "Flat/Sideways" then "bg-gray-500"
    else "bg-gray-600"
  }

  /** One drawn bar. */
  datatype Bar = Bar(direction: string, probability: string, color: string)

  /** The panel: nothing when no row was found, else one bar per row. */
  function Panel(text: string): (r: Option<seq<Bar>>)
    ensures r.None? <==> |text| == 0 || |Found(text)| == 0
    ensures r.Some? ==> |r.value| == |Extract(text)|
    ensures r.Some? ==> forall k :: 0 <= k < |r.value| ==>
              r.value[k].direction == Extract(text)[k].direction
              && r.value[k].probability == Extract(text)[k].probability
              && r.value[k].color == BarColor(Extract(text)[k].direction)
  {
    var rows := Extract(text);
    ExtractSize(text);
    if |rows| == 0 then None else Some(Bars(rows))
  }

  /** One bar per row, coloured by its direction. */
  function Bars(rows: seq<Record>): (r: seq<Bar>)
    ensures |r| == |rows|
    ensures forall k :: 0 <= k < |rows| ==> r[k] == Bar(rows[k].direction, rows[k].probability, BarColor(rows[k].direction))
  {
    seq(|rows|, k requires 0 <= k < |rows| =>
      Bar(rows[k].direction, rows[k].probability, BarColor(rows[k].direction)))
  }

  lemma ExtractSize(text: string)
    ensures |Extract(text)| == |Found(text)|
  {
    assert |multiset(Extract(text))| == |multiset(Found(text))|;
  }

  // -------------------------------------------------------- panel properties

  /** An empty report yields no rows and no panel. */
  lemma EmptyReport()
    ensures Extract("") == [] && Panel("") == None
  {
  }

  /** The rows shown are the rows found, each rank (and the unranked rows)
      keeping report order. */
  lemma ExtractStable(text: string, n: nat)
    ensures Filter(OfKey(n), Extract(text)) == Filter(OfKey(n), Found(text))
  {
    if |text| > 0 {
      SortStable(Found(text), n);
    }
  }

  /** When every direction is spelt canonically, the rows shown are the
      Upside rows, then the Downside rows, then the Flat/Sideways rows, each
      in report order. */
  lemma ExtractCanonical(text: string)
    requires Canonical(Found(text))
    ensures Sorted(Extract(text))
    ensures Extract(text)
         == Filter(OfKey(1), Found(text)) + Filter(OfKey(2), Found(text))
            + Filter(OfKey(3), Found(text))
  {
    if |text| > 0 {
      SortSorted(Found(text));
      SortCanonical(Found(text));
    }
  }
}
