/** The source list of an analysis (`getTradingAnalysis`): the grounding
    chunks of the model's first candidate are mapped to `{uri, title}` pairs
    with defaults for missing fields, pairs without a uri are dropped, and
    only the first pair for each uri is kept. The network call itself is not
    modelled: the response arrives as a value. */
module Sources {
  import opened Common

  /** `chunk.web`, whose fields may each be absent. */
  datatype Web = Web(uri: Option<string>, title: Option<string>)

  /** A grounding chunk; `web` may be absent. */
  datatype Chunk = Chunk(web: Option<Web>)

  /** `groundingMetadata`; its chunk list may be absent. */
  datatype Metadata = Metadata(chunks: Option<seq<Chunk>>)

  /** A response candidate; its metadata may be absent. */
  datatype Candidate = Candidate(metadata: Option<Metadata>)

  /** The part of the model's response the service reads. */
  datatype Response = Response(text: string, candidates: Option<seq<Candidate>>)

  /** `Source` from types.ts. */
  datatype Source = Source(uri: string, title: string)

  const Untitled: string := "Untitled"

  /** `response.candidates?.[0]?.groundingMetadata?.groundingChunks ?? []`. */
  function Chunks(r: Response): (cs: seq<Chunk>)
    ensures r.candidates.None? ==> cs == []
    ensures r.candidates.Some? && |r.candidates.value| == 0 ==> cs == []
    ensures r.candidates.Some? && |r.candidates.value| > 0 ==>
              (r.candidates.value[0].metadata.None? ==> cs == [])
    ensures r.candidates.Some? && |r.candidates.value| > 0 ==>
              (r.candidates.value[0].metadata.Some? ==>
                 cs == r.candidates.value[0].metadata.value.chunks.GetOr([]))
  {
    match r.candidates
    case None => []
    case Some(cands) =>
      if |cands| == 0 then []
      else match cands[0].metadata
        case None => []
        case Some(m) => m.chunks.GetOr([])
  }

  /** `{ uri: chunk.web?.uri ?? '', title: chunk.web?.title ?? 'Untitled' }`:
      `??` replaces only an absent value, so an empty title stays empty. */
  function ToSource(c: Chunk): (s: Source)
    ensures c.web.None? ==> s == Source("", Untitled)
    ensures c.web.Some? && c.web.value.uri.Some? ==> s.uri == c.web.value.uri.value
    ensures c.web.Some? && c.web.value.uri.None? ==> s.uri == ""
    ensures c.web.Some? && c.web.value.title.Some? ==> s.title == c.web.value.title.value
    ensures c.web.Some? && c.web.value.title.None? ==> s.title == Untitled
  {
    match c.web
    case None => Source("", Untitled)
    case Some(w) => Source(w.uri.GetOr(""), w.title.GetOr(Untitled))
  }

  function MapSources(cs: seq<Chunk>): (r: seq<Source>)
    ensures |r| == |cs|
    ensures forall k :: 0 <= k < |cs| ==> r[k] == ToSource(cs[k])
  {
    seq(|cs|, k requires 0 <= k < |cs| => ToSource(cs[k]))
  }

  /** `.filter(source => source.uri)`: the empty string is falsy. */
  predicate HasUri(s: Source) {
    s.uri != ""
  }

  /** `self.findIndex(s => s.uri === uri)`: the first index holding `uri`, or
      `|ss|` (standing for -1) when there is none. */
  function FirstIndex(ss: seq<Source>, uri: string): (i: nat)
    ensures i <= |ss|
    ensures i < |ss| ==> ss[i].uri == uri
    ensures forall k :: 0 <= k < i ==> ss[k].uri != uri
    decreases |ss|
  {
    if |ss| == 0 then 0
    else if ss[0].uri == uri then 0
    else 1 + FirstIndex(ss[1..], uri)
  }

  /** `.filter((source, index, self) => index === self.findIndex(...))`:
      keep the elements at their uri's first index. The callback sees the
      whole array, so the test is made against `all`, not the suffix left. */
  function KeepFirst(all: seq<Source>, i: nat): (r: seq<Source>)
    requires i <= |all|
    decreases |all| - i
  {
    if i == |all| then []
    else if FirstIndex(all, all[i].uri) == i then [all[i]] + KeepFirst(all, i + 1)
    else KeepFirst(all, i + 1)
  }

  /** The `sources` the service returns. */
  function NormalizeSources(r: Response): seq<Source> {
    var withUri := Filter(HasUri, MapSources(Chunks(r)));
    KeepFirst(withUri, 0)
  }

  /** `AnalysisReport` from types.ts. */
  datatype AnalysisReport = AnalysisReport(text: string, sources: seq<Source>)

  /** `return { text, sources }`. */
  function ToReport(r: Response): (a: AnalysisReport)
    ensures a.text == r.text && a.sources == NormalizeSources(r)
  {
    AnalysisReport(r.text, NormalizeSources(r))
  }

  // ------------------------------------------------------------- properties

  /** No uri occurs twice. */
  predicate DistinctUris(ss: seq<Source>) {
    forall i, j :: 0 <= i < j < |ss| ==> ss[i].uri != ss[j].uri
  }

  /** `x` is the element at the first index of its uri in `all`, and that
      index is `i` or later. */
  ghost predicate KeptFrom(all: seq<Source>, i: nat, x: Source) {
    var f := FirstIndex(all, x.uri);
    i <= f < |all| && all[f] == x
  }

  /** What the deduplication keeps from `all[i..]`: exactly the elements
      sitting at the first index of their uri. */
  lemma {:induction false} KeepFirstSpec(all: seq<Source>, i: nat)
    requires i <= |all|
    ensures forall x :: x in KeepFirst(all, i) <==> KeptFrom(all, i, x)
    decreases |all| - i
  {
    if i < |all| {
      KeepFirstSpec(all, i + 1);
      forall x ensures x in KeepFirst(all, i) <==> KeptFrom(all, i, x) {
        KeepFirstStep(all, i, x);
      }
    }
  }

  lemma KeepFirstStep(all: seq<Source>, i: nat, x: Source)
    requires i < |all|
    requires x in KeepFirst(all, i + 1) <==> KeptFrom(all, i + 1, x)
    ensures x in KeepFirst(all, i) <==> KeptFrom(all, i, x)
  {
    if FirstIndex(all, x.uri) == i {
      assert KeptFrom(all, i, x) <==> x == all[i];
    } else {
      assert KeptFrom(all, i, x) <==> KeptFrom(all, i + 1, x);
    }
  }

  /** The kept elements keep their order. */
  lemma {:induction false} KeepFirstSubsequence(all: seq<Source>, i: nat)
    requires i <= |all|
    ensures IsSubsequence(KeepFirst(all, i), all[i..])
    decreases |all| - i
  {
    if i < |all| {
      KeepFirstSubsequence(all, i + 1);
      assert all[i..][1..] == all[i + 1..];
      var r := KeepFirst(all, i);
      if FirstIndex(all, all[i].uri) == i {
        assert r[0] == all[i] && r[1..] == KeepFirst(all, i + 1);
      }
    }
  }

  /** Every uri in `all[i..]` whose first occurrence lies there is kept, at
      that occurrence. */
  lemma {:induction false} KeepFirstComplete(all: seq<Source>, i: nat, k: nat)
    requires i <= k < |all| && FirstIndex(all, all[k].uri) == k
    ensures all[k] in KeepFirst(all, i)
    decreases k - i
  {
    if i < k {
      KeepFirstComplete(all, i + 1, k);
    }
  }

  /** The kept elements have distinct uris. */
  lemma {:induction false} KeepFirstDistinct(all: seq<Source>, i: nat)
    requires i <= |all|
    ensures DistinctUris(KeepFirst(all, i))
    decreases |all| - i
  {
    if i < |all| {
      KeepFirstDistinct(all, i + 1);
      KeepFirstSpec(all, i + 1);
      var rest := KeepFirst(all, i + 1);
      if FirstIndex(all, all[i].uri) == i {
        forall j | 0 <= j < |rest| ensures rest[j].uri != all[i].uri {
          assert rest[j] in rest;
          assert KeptFrom(all, i + 1, rest[j]);
        }
        DistinctCons(all[i], rest);
      }
    }
  }

  lemma DistinctCons(x: Source, rest: seq<Source>)
    requires DistinctUris(rest)
    requires forall j :: 0 <= j < |rest| ==> rest[j].uri != x.uri
    ensures DistinctUris([x] + rest)
  {
    var r := [x] + rest;
    forall i, j | 0 <= i < j < |r| ensures r[i].uri != r[j].uri {
      if i == 0 {
        assert r[j] == rest[j - 1];
      } else {
        assert r[i] == rest[i - 1] && r[j] == rest[j - 1];
      }
    }
  }

  /** Every returned source has a uri. */
  lemma SourcesHaveUris(r: Response)
    ensures forall s :: s in NormalizeSources(r) ==> s.uri != ""
  {
    var withUri := Filter(HasUri, MapSources(Chunks(r)));
    KeepFirstSpec(withUri, 0);
    FilterMembers(HasUri, MapSources(Chunks(r)));
    forall s | s in NormalizeSources(r) ensures s.uri != "" {
      assert withUri[FirstIndex(withUri, s.uri)] in withUri;
    }
  }

  /** No two returned sources share a uri. */
  lemma SourcesDistinct(r: Response)
    ensures DistinctUris(NormalizeSources(r))
  {
    KeepFirstDistinct(Filter(HasUri, MapSources(Chunks(r))), 0);
  }

  /** The returned sources are the mapped chunks with some left out, in
      their original order. */
  lemma SourcesInOrder(r: Response)
    ensures IsSubsequence(NormalizeSources(r), MapSources(Chunks(r)))
  {
    var mapped := MapSources(Chunks(r));
    var withUri := Filter(HasUri, mapped);
    KeepFirstSubsequence(withUri, 0);
    assert withUri[0..] == withUri;
    FilterIsSubsequence(HasUri, mapped);
    SubsequenceTransitive(NormalizeSources(r), withUri, mapped);
  }

  /** Every chunk with a uri has that uri among the returned sources, and the
      source kept for it is the first chunk that carried it. */
  lemma SourcesComplete(r: Response, c: Chunk)
    requires c in Chunks(r) && ToSource(c).uri != ""
    ensures exists s :: s in NormalizeSources(r) && s.uri == ToSource(c).uri
  {
    var mapped := MapSources(Chunks(r));
    var withUri := Filter(HasUri, mapped);
    var k :| 0 <= k < |Chunks(r)| && Chunks(r)[k] == c;
    assert mapped[k] == ToSource(c);
    FilterMembers(HasUri, mapped);
    assert ToSource(c) in withUri;
    var f := FirstIndex(withUri, ToSource(c).uri);
    KeepFirstComplete(withUri, 0, f);
  }

  /** The element kept for a uri is its first occurrence among the sources
      with a uri. */
  lemma SourcesFirstOccurrence(r: Response, s: Source)
    requires s in NormalizeSources(r)
    ensures var withUri := Filter(HasUri, MapSources(Chunks(r)));
            var k := FirstIndex(withUri, s.uri);
            k < |withUri| && withUri[k] == s
  {
    var withUri := Filter(HasUri, MapSources(Chunks(r)));
    KeepFirstSpec(withUri, 0);
    assert s in KeepFirst(withUri, 0);
  }

  /** Without candidates or metadata the list is empty. */
  lemma NoMetadata(r: Response)
    requires r.candidates.None? || |r.candidates.value| == 0
             || r.candidates.value[0].metadata.None?
    ensures NormalizeSources(r) == []
  {
    assert MapSources([]) == [];
  }

  /** `[a:X, b:Y, a:Z]` becomes `[a:X, b:Y]`. */
  lemma FirstOccurrenceExample()
    ensures KeepFirst([Source("a", "X"), Source("b", "Y"), Source("a", "Z")], 0)
         == [Source("a", "X"), Source("b", "Y")]
  {
    var all := [Source("a", "X"), Source("b", "Y"), Source("a", "Z")];
    assert FirstIndex(all, "a") == 0;
    assert FirstIndex(all, "b") == 1 by {
      assert all[1..] == [Source("b", "Y"), Source("a", "Z")];
    }
  }
}
