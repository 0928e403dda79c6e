/** The inline highlighter (`FormattedInlineText`): one line of text is cut
    into plain runs and three kinds of highlighted tokens. The source drives a
    global regular expression

      bold `\*\*.*?\*\*` | percentage `\d{1,3}(?:,\d{3})*(?:\.\d+)?%`
                         | currency `₹\s?[\d,]+(?:\.\d+)?(?:\s?cr)?`

    through `exec` from left to right. Here each alternative is an explicit
    recogniser of the text that starts at a given position (no alternative
    looks behind, so the suffix decides), and the scan loop is `Scan`. */
module Inline {
  import opened Common
  import opened Text

  const RupeeSign: char := '\U{20B9}'

  /** One piece of a rendered line. `Bold` carries the text between the
      delimiters; the other variants carry exactly the characters matched. */
  datatype Span =
    | Plain(text: string)
    | Bold(content: string)
    | Percent(text: string)
    | Currency(text: string)

  /** The characters of the line a span stands for. */
  function Raw(sp: Span): string {
    match sp
    case Plain(t) => t
    case Bold(c) => "**" + c + "**"
    case Percent(t) => t
    case Currency(t) => t
  }

  function Flatten(spans: seq<Span>): string
    decreases |spans|
  {
    if |spans| == 0 then "" else Raw(spans[0]) + Flatten(spans[1..])
  }

  // ---------------------------------------------------------------- bold

  /** The lazy `.*?\*\*` after an opening `**`: the first `k >= from` at which
      `**` starts, provided no line terminator comes before it. */
  function BoldClose(t: string, from: nat): (r: Option<nat>)
    requires from <= |t|
    ensures r.Some? ==> from <= r.value && r.value + 2 <= |t|
                        && t[r.value] == '*' && t[r.value + 1] == '*'
    ensures r.Some? ==> forall j :: from <= j < r.value ==>
                          !IsLineTerminator(t[j]) && !(t[j] == '*' && t[j + 1] == '*')
    decreases |t| - from
  {
    if from + 2 > |t| then None
    else if t[from] == '*' && t[from + 1] == '*' then Some(from)
    else if IsLineTerminator(t[from]) then None
    else BoldClose(t, from + 1)
  }

  function MatchBold(t: string): (r: Option<Span>)
    ensures r.Some? ==> r.value.Bold? && StartsWith(t, Raw(r.value))
  {
    if |t| >= 2 && t[0] == '*' && t[1] == '*' then
      match BoldClose(t, 2)
      case Some(k) =>
        assert t[..k + 2] == "**" + t[2..k] + "**";
        Some(Bold(t[2..k]))
      case None => None
    else None
  }

  // ---------------------------------------------------------- percentage

  predicate IsAmountChar(c: char) {
    IsDigit(c) || c == ',' || c == '.'
  }

  predicate AllDigits(s: string) {
    forall i :: 0 <= i < |s| ==> IsDigit(s[i])
  }

  /** `\d{1,3}(?:,\d{3})*`, recognised from the right: a final group of three
      digits after a comma, or one to three digits alone. */
  predicate GroupedInteger(a: string)
    decreases |a|
  {
    || (1 <= |a| <= 3 && AllDigits(a))
    || (|a| >= 5 && a[|a| - 4] == ',' && AllDigits(a[|a| - 3..])
        && GroupedInteger(a[..|a| - 4]))
  }

  /** `\d{1,3}(?:,\d{3})*(?:\.\d+)?` over the whole of `n`. */
  predicate NotDot(c: char) {
    c != '.'
  }

  predicate PercentNumber(n: string) {
    var d := RunLength(NotDot, n);
    if d == |n| then GroupedInteger(n)
    else GroupedInteger(n[..d]) && d + 1 < |n| && AllDigits(n[d + 1..])
  }

  /** Every character the percentage pattern consumes before `%` is a digit,
      comma or dot, and `%` is none of those, so a match at this position can
      only be the whole maximal run of such characters followed by `%`. */
  function MatchPercent(t: string): (r: Option<Span>)
    ensures r.Some? ==> r.value.Percent? && StartsWith(t, Raw(r.value))
    ensures r.Some? ==> |r.value.text| >= 2 && IsDigit(r.value.text[0])
                        && r.value.text[|r.value.text| - 1] == '%'
    ensures r.Some? ==> PercentNumber(r.value.text[..|r.value.text| - 1])
  {
    var n := RunLength(IsAmountChar, t);
    if n < |t| && t[n] == '%' && PercentNumber(t[..n]) then
      assert IsDigit(t[0]) by { LeadingDigit(t[..n]); }
      assert t[..n + 1][..n] == t[..n];
      Some(Percent(t[..n + 1]))
    else None
  }

  lemma {:induction false} GroupedIntegerStartsWithDigit(a: string)
    requires GroupedInteger(a)
    ensures |a| > 0 && IsDigit(a[0])
    decreases |a|
  {
    if !(1 <= |a| <= 3 && AllDigits(a)) {
      GroupedIntegerStartsWithDigit(a[..|a| - 4]);
    }
  }

  lemma LeadingDigit(n: string)
    requires PercentNumber(n)
    ensures |n| > 0 && IsDigit(n[0])
  {
    var d := RunLength(NotDot, n);
    if d == |n| {
      GroupedIntegerStartsWithDigit(n);
    } else {
      GroupedIntegerStartsWithDigit(n[..d]);
    }
  }

  // ------------------------------------------------------------ currency

  predicate IsDigitOrComma(c: char) {
    IsDigit(c) || c == ','
  }

  /** `₹\s?[\d,]+(?:\.\d+)?(?:\s?cr)?`. Every part after the digit run is
      optional, so the first successful path takes each greedy part at its
      longest: the optional space only when a digit or comma follows it (the
      digit run cannot start on a space), the fraction only when a digit
      follows the dot, the suffix ` cr` before `cr`. */
  function MatchCurrency(t: string): (r: Option<Span>)
    ensures r.Some? ==> r.value.Currency? && StartsWith(t, Raw(r.value))
    ensures r.Some? ==> |r.value.text| >= 2 && r.value.text[0] == RupeeSign
  {
    if |t| == 0 || t[0] != RupeeSign then None
    else
      var j := if |t| > 1 && IsSpace(t[1]) then 2 else 1;
      var k := j + RunLength(IsDigitOrComma, t[j..]);
      if k == j then None
      else Some(Currency(t[..SuffixEnd(t, FractionEnd(t, k))]))
  }

  /** End of the optional `(?:\.\d+)` starting at `k`. */
  function FractionEnd(t: string, k: nat): (e: nat)
    requires k <= |t|
    ensures k <= e <= |t|
  {
    if k + 1 < |t| && t[k] == '.' && IsDigit(t[k + 1])
    then k + 1 + RunLength(IsDigit, t[k + 1..])
    else k
  }

  /** End of the optional `(?:\s?cr)` starting at `k`. */
  function SuffixEnd(t: string, k: nat): (e: nat)
    requires k <= |t|
    ensures k <= e <= |t|
  {
    if k + 2 < |t| && IsSpace(t[k]) && t[k + 1] == 'c' && t[k + 2] == 'r' then k + 3
    else if k + 1 < |t| && t[k] == 'c' && t[k + 1] == 'r' then k + 2
    else k
  }

  // --------------------------------------------------------- alternation

  /** The token the source's regular expression matches when it is tried at
      the start of `t`: alternatives in their written order. */
  function MatchHere(t: string): (r: Option<Span>)
    ensures r.Some? ==> !r.value.Plain? && 0 < |Raw(r.value)| && StartsWith(t, Raw(r.value))
  {
    var b := MatchBold(t);
    if b.Some? then b
    else
      var p := MatchPercent(t);
      if p.Some? then p else MatchCurrency(t)
  }

  /** The pattern tried at one position, as a function of the text from that
      position on. */
  type Matcher = string -> Option<Span>

  /** The token `m` reports at position `i` of `s`, kept only when it is a
      non-empty token that fits in what is left of the line, as a
      regular-expression match always does. */
  function At(m: Matcher, s: string, i: nat): (r: Option<Span>)
    requires i <= |s|
    ensures r.Some? ==> m(s[i..]) == r && !r.value.Plain?
    ensures r.Some? ==> 0 < |Raw(r.value)| <= |s| - i
    ensures m(s[i..]).None? ==> r.None?
  {
    var x := m(s[i..]);
    if x.Some? && !x.value.Plain? && 0 < |Raw(x.value)| <= |s| - i then x else None
  }

  /** `m` reports only tokens that are the text it is tried on begins with. */
  ghost predicate Honest(m: Matcher) {
    forall t :: m(t).Some? ==> StartsWith(t, Raw(m(t).value))
  }

  /** A token an honest matcher finds at `i` is the text at `i`. */
  lemma TokenFits(m: Matcher, s: string, i: nat)
    requires Honest(m) && i <= |s| && At(m, s, i).Some?
    ensures s[i..i + |Raw(At(m, s, i).value)|] == Raw(At(m, s, i).value)
  {
    var t := s[i..];
    assert StartsWith(t, Raw(m(t).value));
    assert t[..|Raw(At(m, s, i).value)|] == s[i..i + |Raw(At(m, s, i).value)|];
  }

  /** The alternation is honest. */
  lemma MatchHereHonest()
    ensures Honest(MatchHere)
  {
    forall t | MatchHere(t).Some? ensures StartsWith(t, Raw(MatchHere(t).value)) { }
  }

  /** The alternation only ever reports such tokens. */
  lemma AtMatchHere(s: string, i: nat)
    requires i <= |s|
    ensures At(MatchHere, s, i) == MatchHere(s[i..])
  {
  }

  // ------------------------------------------------- reference lexing

  /** Spans built front to back. The reference cut is a list so that each
      step of it reads as putting one span in front of the rest. */
  datatype Spans = Nil | Cons(head: Span, tail: Spans)

  function ToSeq(l: Spans): (r: seq<Span>)
    ensures l.Cons? ==> |r| > 0 && r[0] == l.head
  {
    match l
    case Nil => []
    case Cons(h, t) => [h] + ToSeq(t)
  }

  /** The characters a list of spans stands for. */
  function RawText(l: Spans): string {
    match l
    case Nil => ""
    case Cons(h, t) => Raw(h) + RawText(t)
  }

  lemma {:induction false} FlattenToSeq(l: Spans)
    ensures Flatten(ToSeq(l)) == RawText(l)
  {
    match l
    case Nil =>
    case Cons(h, t) =>
      FlattenToSeq(t);
      assert ToSeq(l)[1..] == ToSeq(t);
  }

  /** A plain run `g` in front of `spans`, merged into the first span when
      that one is plain too. */
  function PlainThen(g: string, spans: Spans): (r: Spans)
    ensures |g| > 0 ==> r.Cons? && r.head.Plain?
  {
    if |g| == 0 then spans
    else if spans.Cons? && spans.head.Plain? then Cons(Plain(g + spans.head.text), spans.tail)
    else Cons(Plain(g), spans)
  }

  /** Merging a run in front changes nothing about the text covered. */
  lemma RawTextPlainThen(g: string, spans: Spans)
    ensures RawText(PlainThen(g, spans)) == g + RawText(spans)
  {
    if |g| > 0 && spans.Cons? && spans.head.Plain? {
      assert g + spans.head.text + RawText(spans.tail) == g + (spans.head.text + RawText(spans.tail));
    }
  }

  /** The reference cut of `s` from position `i` on, one position at a time:
      where a token matches it is taken whole, and a character where none
      matches joins the plain run that follows it. */
  function Lex(m: Matcher, s: string, i: nat): Spans
    requires i <= |s|
    decreases |s| - i
  {
    if i == |s| then Nil
    else if At(m, s, i).Some? then
      Cons(At(m, s, i).value, Lex(m, s, i + |Raw(At(m, s, i).value)|))
    else PlainThen([s[i]], Lex(m, s, i + 1))
  }

  /** The `while ((match = regex.exec(text)) !== null)` loop. `last` is the
      end of the previous match (`lastIndex`), `p` the position being tried;
      no token matches in between, and the text from `last` to `p` is still
      to be emitted as a plain run. */
  function Scan(m: Matcher, s: string, last: nat, p: nat): (r: Spans)
    requires last <= p <= |s|
    requires forall q :: last <= q < p ==> At(m, s, q).None?
    ensures r == Lex(m, s, last)
    decreases |s| - p
  {
    if p == |s| then
      LexEnd(m, s, last);
      if last < |s| then Cons(Plain(s[last..]), Nil) else Nil
    else if At(m, s, p).Some? then
      var e := p + |Raw(At(m, s, p).value)|;
      var rest := Scan(m, s, e, e);
      LexGapToken(m, s, last, p, e);
      if p > last then Cons(Plain(s[last..p]), Cons(At(m, s, p).value, rest))
      else Cons(At(m, s, p).value, rest)
    else Scan(m, s, last, p + 1)
  }

  /** With no match from `last` to the end, what is left is one plain run. */
  lemma LexEnd(m: Matcher, s: string, last: nat)
    requires last <= |s|
    requires forall q :: last <= q < |s| ==> At(m, s, q).None?
    ensures Lex(m, s, last) == if last < |s| then Cons(Plain(s[last..]), Nil) else Nil
  {
    GapLex(m, s, last, |s|);
    assert s[last..|s|] == s[last..];
  }

  /** Unmatched text from `last` up to a token at `p`: a plain run, if
      any, then the token. */
  lemma LexGapToken(m: Matcher, s: string, last: nat, p: nat, e: nat)
    requires last <= p < |s| && At(m, s, p).Some? && e == p + |Raw(At(m, s, p).value)| <= |s|
    requires forall q :: last <= q < p ==> At(m, s, q).None?
    ensures Lex(m, s, last)
         == if p > last then Cons(Plain(s[last..p]), Cons(At(m, s, p).value, Lex(m, s, e)))
            else Cons(At(m, s, p).value, Lex(m, s, e))
  {
    GapLex(m, s, last, p);
    LexTokenStep(m, s, p, e);
    if p == last {
      assert s[last..p] == [];
    }
  }

  /** Unmatched text from `last` to `p` is one plain run in front of what
      the reference cut finds from `p` on. */
  lemma {:induction false} GapLex(m: Matcher, s: string, last: nat, p: nat)
    requires last <= p <= |s|
    requires forall q :: last <= q < p ==> At(m, s, q).None?
    ensures Lex(m, s, last) == PlainThen(s[last..p], Lex(m, s, p))
    decreases p - last
  {
    if last < p {
      var rest := Lex(m, s, p);
      var g := s[last + 1..p];
      GapLex(m, s, last + 1, p);
      PlainThenGrows(s[last], g, rest);
      LexPlainStep(m, s, last);
      assert s[last..p] == [s[last]] + g;
      calc {
        Lex(m, s, last);
        PlainThen([s[last]], Lex(m, s, last + 1));
        PlainThen([s[last]], PlainThen(g, rest));
        PlainThen([s[last]] + g, rest);
      }
    }
  }

  /** Gluing one character in front of a plain run lengthens the run. */
  lemma PlainThenGrows(c: char, g: string, spans: Spans)
    ensures PlainThen([c], PlainThen(g, spans)) == PlainThen([c] + g, spans)
  {
    if |g| == 0 {
      assert [c] + g == [c];
    } else if spans.Cons? && spans.head.Plain? {
      assert [c] + (g + spans.head.text) == [c] + g + spans.head.text;
    }
  }

  /** Lexing at a token: the token, then lexing resumes after it. */
  lemma LexTokenStep(m: Matcher, s: string, i: nat, j: nat)
    requires i < |s| && At(m, s, i).Some? && j == i + |Raw(At(m, s, i).value)| <= |s|
    ensures Lex(m, s, i) == Cons(At(m, s, i).value, Lex(m, s, j))
  {
  }

  /** Lexing at a position where nothing matches: the character joins the
      plain run in front of what follows. */
  lemma LexPlainStep(m: Matcher, s: string, i: nat)
    requires i < |s| && At(m, s, i).None?
    ensures Lex(m, s, i) == PlainThen([s[i]], Lex(m, s, i + 1))
  {
  }

  /** `FormattedInlineText`: an empty line renders nothing; otherwise the
      scan covers the whole line. */
  function Tokenize(s: string): (r: seq<Span>)
    ensures r == ToSeq(Lex(MatchHere, s, 0))
    ensures Flatten(r) == s
  {
    MatchHereHonest();
    LexCovers(MatchHere, s, 0);
    FlattenToSeq(Lex(MatchHere, s, 0));
    assert s[0..] == s;
    if |s| == 0 then [] else ToSeq(Scan(MatchHere, s, 0, 0))
  }

  // ---------------------------------------------------------- properties

  /** Concatenating plain runs and raw tokens (bold with its delimiters)
      reproduces the line from `i` on: no gaps, no overlaps. */
  lemma {:induction false} LexCovers(m: Matcher, s: string, i: nat)
    requires Honest(m) && i <= |s|
    ensures RawText(Lex(m, s, i)) == s[i..]
    decreases |s| - i
  {
    if i < |s| {
      if At(m, s, i).Some? {
        var j := i + |Raw(At(m, s, i).value)|;
        LexCovers(m, s, j);
        LexTokenStep(m, s, i, j);
        TokenFits(m, s, i);
        SliceSplit(s, i, j);
      } else {
        LexCovers(m, s, i + 1);
        LexPlainStep(m, s, i);
        RawTextPlainThen([s[i]], Lex(m, s, i + 1));
        SliceSplit(s, i, i + 1);
      }
    }
  }

  lemma SliceSplit(s: string, i: nat, j: nat)
    requires i <= j <= |s|
    ensures s[i..] == s[i..j] + s[j..]
  {
  }

  /** Plain runs are non-empty and two plain runs are never adjacent. */
  predicate WellShaped(spans: seq<Span>) {
    && (forall k :: 0 <= k < |spans| && spans[k].Plain? ==> |spans[k].text| > 0)
    && (forall k :: 0 <= k < |spans| - 1 && spans[k].Plain? ==> !spans[k + 1].Plain?)
  }

  /** `WellShaped`, span by span along the list. */
  predicate SpansShaped(l: Spans) {
    match l
    case Nil => true
    case Cons(h, t) =>
      && (h.Plain? ==> |h.text| > 0 && !(t.Cons? && t.head.Plain?))
      && SpansShaped(t)
  }

  lemma {:induction false} SpansShapedSeq(l: Spans)
    requires SpansShaped(l)
    ensures WellShaped(ToSeq(l))
  {
    match l
    case Nil =>
    case Cons(h, t) =>
      SpansShapedSeq(t);
      var r := ToSeq(l);
      var rt := ToSeq(t);
      assert forall k :: 1 <= k < |r| ==> r[k] == rt[k - 1];
  }

  lemma {:induction false} LexShape(m: Matcher, s: string, i: nat)
    requires i <= |s|
    ensures SpansShaped(Lex(m, s, i))
    decreases |s| - i
  {
    if i < |s| {
      if At(m, s, i).Some? {
        var j := i + |Raw(At(m, s, i).value)|;
        LexShape(m, s, j);
        LexTokenStep(m, s, i, j);
      } else {
        LexShape(m, s, i + 1);
        LexPlainStep(m, s, i);
      }
    }
  }

  /** Every line is cut into non-empty plain runs and tokens, with no two
      plain runs side by side. */
  lemma TokenizeShape(s: string)
    ensures WellShaped(Tokenize(s))
  {
    LexShape(MatchHere, s, 0);
    SpansShapedSeq(Lex(MatchHere, s, 0));
  }

  /** A plain run holds no position where a token matches, and ends at the
      end of the line or where one does. */
  lemma {:induction false} LexPlainUnmatched(m: Matcher, s: string, i: nat)
    requires i <= |s| && Lex(m, s, i).Cons? && Lex(m, s, i).head.Plain?
    ensures i + |Lex(m, s, i).head.text| <= |s|
    ensures forall q :: i <= q < i + |Lex(m, s, i).head.text| ==> At(m, s, q).None?
    ensures i + |Lex(m, s, i).head.text| == |s| || At(m, s, i + |Lex(m, s, i).head.text|).Some?
    decreases |s| - i
  {
    assert At(m, s, i).None?;
    LexPlainStep(m, s, i);
    if i + 1 < |s| && At(m, s, i + 1).None? {
      LexPlainStep(m, s, i + 1);
      LexPlainUnmatched(m, s, i + 1);
    }
  }

  /** When a token matches at the start of a line, the line's first piece
      is that token. */
  lemma TokenizeFirst(s: string)
    requires MatchHere(s).Some?
    ensures |Tokenize(s)| > 0 && Tokenize(s)[0] == MatchHere(s).value
  {
    assert s[0..] == s;
    AtMatchHere(s, 0);
    assert Lex(MatchHere, s, 0).head == MatchHere(s).value;
  }

  /** An empty line yields no spans. */
  lemma TokenizeEmpty()
    ensures Tokenize("") == []
  {
    assert |""| == 0;
  }

  /** A non-empty line in which no token matches anywhere is a single plain
      span holding the whole line. */
  lemma TokenizeNoMatch(s: string)
    requires |s| > 0
    requires forall q :: 0 <= q < |s| ==> MatchHere(s[q..]).None?
    ensures Tokenize(s) == [Plain(s)]
  {
    forall q | 0 <= q < |s| ensures At(MatchHere, s, q).None? {
      AtMatchHere(s, q);
    }
    LexEnd(MatchHere, s, 0);
    assert s[0..] == s;
    assert ToSeq(Nil) == [];
    assert [Plain(s)] + [] == [Plain(s)];
  }

  /** Bold is tried first: an opening `**`, a body free of `**` and of line
      terminators that does not end in `*`, and a closing `**` make a bold
      span whose content is the body, even when the body itself is a
      percentage or a currency amount. */
  lemma BoldFirst(body: string, rest: string)
    requires forall j :: 0 <= j < |body| ==> !IsLineTerminator(body[j])
    requires forall j :: 0 <= j < |body| - 1 ==> !(body[j] == '*' && body[j + 1] == '*')
    requires |body| == 0 || body[|body| - 1] != '*'
    ensures Tokenize("**" + body + "**" + rest)[0] == Bold(body)
  {
    BoldMatch(body, rest);
    TokenizeFirst("**" + body + "**" + rest);
  }

  /** The match tried at an opening `**` followed by such a body. */
  lemma BoldMatch(body: string, rest: string)
    requires forall j :: 0 <= j < |body| ==> !IsLineTerminator(body[j])
    requires forall j :: 0 <= j < |body| - 1 ==> !(body[j] == '*' && body[j + 1] == '*')
    requires |body| == 0 || body[|body| - 1] != '*'
    ensures MatchHere("**" + body + "**" + rest) == Some(Bold(body))
  {
    var t := "**" + body + "**" + rest;
    var k := 2 + |body|;
    assert t[k] == '*' && t[k + 1] == '*';
    forall j | 2 <= j < k
      ensures !IsLineTerminator(t[j]) && !(t[j] == '*' && t[j + 1] == '*')
    {
      assert t[j] == body[j - 2];
      if j + 1 < k {
        assert t[j + 1] == body[j - 1];
      }
    }
    BoldCloseFinds(t, 2, k);
    assert t[2..k] == body;
  }

  /** The lazy search stops at the first `**` when nothing before it is a
      line terminator. */
  lemma {:induction false} BoldCloseFinds(t: string, from: nat, k: nat)
    requires from <= k && k + 2 <= |t| && t[k] == '*' && t[k + 1] == '*'
    requires forall j :: from <= j < k ==> !IsLineTerminator(t[j]) && !(t[j] == '*' && t[j + 1] == '*')
    ensures BoldClose(t, from) == Some(k)
    decreases k - from
  {
    if from < k {
      BoldCloseFinds(t, from + 1, k);
    }
  }

  /** The worked case: `**20%**` is one bold span with content `20%`, not a
      percentage inside bold markers. */
  lemma BoldBeatsPercent()
    ensures Tokenize("**20%**") == [Bold("20%")]
  {
    var s := "**20%**";
    BoldTwentyPercent("");
    assert s == "**" + "20%" + "**" + "";
    assert s[0..] == s;
    AtMatchHere(s, 0);
    assert |Raw(Bold("20%"))| == |s|;
    LexTokenStep(MatchHere, s, 0, |s|);
  }

  /** `₹1,200 cr`: neither bold nor a percentage starts at the rupee sign,
      so the currency alternative decides. */
  lemma RupeeAmount(rest: string)
    ensures MatchHere("\U{20B9}1,200 cr" + rest) == Some(Currency("\U{20B9}1,200 cr"))
  {
    var t := "\U{20B9}1,200 cr" + rest;
    assert t[0] == RupeeSign;
    assert MatchBold(t).None?;
    assert RunLength(IsAmountChar, t) == 0;
    assert MatchPercent(t).None?;
    RupeeCurrency(rest);
  }

  /** No space after the sign, a digit-and-comma run, no fraction, then the
      ` cr` suffix. */
  lemma RupeeCurrency(rest: string)
    ensures MatchCurrency("\U{20B9}1,200 cr" + rest) == Some(Currency("\U{20B9}1,200 cr"))
  {
    var t := "\U{20B9}1,200 cr" + rest;
    assert t[1] == '1';
    RunLengthOfAppend(IsDigitOrComma, "1,200", " cr" + rest);
    assert t[1..] == "1,200" + (" cr" + rest);
    assert FractionEnd(t, 6) == 6;
    assert t[6] == ' ' && t[7] == 'c' && t[8] == 'r';
    assert SuffixEnd(t, 6) == 9;
    assert t[..9] == "\U{20B9}1,200 cr";
  }

  /** A percentage at the start of the text is found whole: neither bold
      nor currency starts with a digit, and the run of digits, commas and
      dots ends at the `%`. */
  lemma PercentHere(n: string, rest: string)
    requires PercentNumber(n)
    requires forall i :: 0 <= i < |n| ==> IsAmountChar(n[i])
    ensures MatchHere(n + "%" + rest) == Some(Percent(n + "%"))
  {
    var t := n + "%" + rest;
    LeadingDigit(n);
    assert t[0] == n[0];
    assert t == n + ("%" + rest);
    RunLengthOfAppend(IsAmountChar, n, "%" + rest);
    assert t[|n|] == '%' && t[..|n|] == n && t[..|n| + 1] == n + "%";
  }

  /** When the currency alternative matches: a rupee sign, then a digit or
      comma, possibly after one whitespace character. */
  lemma CurrencyWhen(t: string)
    ensures MatchCurrency(t).Some?
        <==> |t| >= 2 && t[0] == RupeeSign
             && (IsDigitOrComma(t[1]) || (IsSpace(t[1]) && |t| >= 3 && IsDigitOrComma(t[2])))
  {
    if |t| >= 2 && t[0] == RupeeSign {
      var j := if IsSpace(t[1]) then 2 else 1;
      if j < |t| {
        assert t[j..][0] == t[j];
      }
    }
  }

  /** And when it does, the alternation reports it: bold needs `*` and a
      percentage a digit where the rupee sign stands. */
  lemma CurrencyHere(t: string)
    requires |t| >= 2 && t[0] == RupeeSign
    requires IsDigitOrComma(t[1]) || (IsSpace(t[1]) && |t| >= 3 && IsDigitOrComma(t[2]))
    ensures MatchHere(t).Some? && MatchHere(t) == MatchCurrency(t)
  {
    CurrencyWhen(t);
    assert RunLength(IsAmountChar, t) == 0;
  }

  lemma BoldTwentyPercent(rest: string)
    ensures MatchHere("**" + "20%" + "**" + rest) == Some(Bold("20%"))
  {
    var pct := "20%";
    assert !IsLineTerminator(pct[0]) && !IsLineTerminator(pct[1]) && !IsLineTerminator(pct[2]);
    BoldMatch(pct, rest);
  }
}
