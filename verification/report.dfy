/** `ReportDisplay`: the page drawn for one analysis. It stacks the
    probability panel, the formatted report and, when there are any, the
    list of sources, each drawn as a link labelled with its title or, for
    an empty title, its uri. */
module Report {
  import opened Common
  import Blocks
  import Probability
  import Sources
  import Text

  /** One entry of the sources list: where it points, its tooltip, and the
      text shown. */
  datatype Link = Link(href: string, tooltip: string, text: string)

  /** `{source.title || source.uri}`: an empty title is falsy. */
  function LinkFor(s: Sources.Source): (l: Link)
    ensures l.href == s.uri && l.tooltip == s.uri
    ensures l.text == s.title || l.text == s.uri
    ensures s.title != "" ==> l.text == s.title
    ensures l.text == "" <==> s.title == "" && s.uri == ""
  {
    Link(s.uri, s.uri, if s.title != "" then s.title else s.uri)
  }

  /** `sources.length > 0 && ...`: no section for an empty list, else one
      link per source, in order. */
  function SourcesSection(ss: seq<Sources.Source>): (r: Option<seq<Link>>)
    ensures r.None? <==> |ss| == 0
    ensures r.Some? ==> |r.value| == |ss|
    ensures r.Some? ==> forall k :: 0 <= k < |ss| ==> r.value[k] == LinkFor(ss[k])
  {
    if |ss| == 0 then None
    else Some(seq(|ss|, k requires 0 <= k < |ss| => LinkFor(ss[k])))
  }

  /** What the page holds, top to bottom. */
  datatype Page = Page(panel: Option<seq<Probability.Bar>>,
                       body: seq<Blocks.Block>,
                       sources: Option<seq<Link>>)

  function Render(report: string, sources: seq<Sources.Source>): Page {
    Page(Probability.Panel(report), Blocks.Format(report), SourcesSection(sources))
  }

  /** The page for the analysis the service returns for a response. */
  function Show(r: Sources.Response): Page {
    var a := Sources.ToReport(r);
    Render(a.text, a.sources)
  }

  // ------------------------------------------------------------ properties

  /** The page shows a sources section exactly when some grounding chunk
      carries a uri. */
  lemma {:induction false} SectionShown(r: Sources.Response)
    ensures Show(r).sources.Some?
        <==> exists c :: c in Sources.Chunks(r) && Sources.ToSource(c).uri != ""
  {
    var ss := Sources.NormalizeSources(r);
    if |ss| > 0 {
      Sources.SourcesHaveUris(r);
      Sources.SourcesInOrder(r);
      SubsequenceMembers(ss, Sources.MapSources(Sources.Chunks(r)));
      assert ss[0] in Sources.MapSources(Sources.Chunks(r));
      var k :| 0 <= k < |Sources.Chunks(r)|
               && Sources.MapSources(Sources.Chunks(r))[k] == ss[0];
      assert Sources.Chunks(r)[k] in Sources.Chunks(r);
    } else {
      forall c | c in Sources.Chunks(r) ensures Sources.ToSource(c).uri == "" {
        if Sources.ToSource(c).uri != "" {
          Sources.SourcesComplete(r, c);
          assert false;
        }
      }
    }
  }

  /** Every link shown has a non-empty text, and no two links point to the
      same address. */
  lemma LinksShown(r: Sources.Response)
    requires Show(r).sources.Some?
    ensures var links := Show(r).sources.value;
            && (forall i :: 0 <= i < |links| ==> links[i].text != "")
            && (forall i, j :: 0 <= i < j < |links| ==> links[i].href != links[j].href)
  {
    var ss := Sources.NormalizeSources(r);
    Sources.SourcesHaveUris(r);
    Sources.SourcesDistinct(r);
    var links := Show(r).sources.value;
    forall i | 0 <= i < |links| ensures links[i].text != "" {
      assert ss[i] in ss;
    }
  }

  /** An empty report draws neither a panel nor any block. */
  lemma EmptyPage(ss: seq<Sources.Source>)
    ensures Render("", ss).panel.None? && Render("", ss).body == []
  {
    Probability.EmptyReport();
    var ls := Blocks.ClassifyAll(Text.Split("", '\n'));
    assert Text.Split("", '\n') == [""];
    assert ls == [Blocks.Classify("")];
    assert Text.Trim("") == "";
    assert ls[0] == Blocks.Blank;
    assert Blocks.Process(ls, 1) == Blocks.State([], []);
  }
}
