# NIFTY 50 report rendering, modelled in Dafny

The application asks a language model for a weekly NIFTY 50 analysis. It gets
back a markdown report and the web pages the model grounded it on, and it
draws three things:

- a probability panel, built from a `| Upside | 35% |` style table found
  anywhere in the report;
- the report itself, where each line becomes a heading, list item, paragraph,
  line break or table row, and inline bold, percentages and rupee amounts are
  highlighted;
- the list of sources.

This project models that core as pure functions over strings and sequences,
with one module per part of the program:

| module | file | models |
|---|---|---|
| `Common` | common.dfy | `Option`, `Array.prototype.filter`, subsequences |
| `Text` | text.dfy | JavaScript whitespace, `trim`, `split` on one character |
| `Inline` | inline.dfy | `FormattedInlineText`: cutting a line into plain runs, bold, percentages and currency |
| `Blocks` | blocks.dfy | `FormattedText` and `renderTable`: line classification and table grouping |
| `Probability` | probability.dfy | `ProbabilityTable`: the row pattern, the `exec` loop, the sort, `getBarColor` |
| `Sources` | sources.dfy | the source list `getTradingAnalysis` builds, and types.ts |
| `Report` | report.dfy | `ReportDisplay`: panel, body and sources list |

Each global regular expression is modelled as a deterministic recogniser
applied at one position, plus a loop that resumes where the last match
ended. The recognisers are deterministic because every greedy part of these
patterns is followed by a character that part cannot consume, so
backtracking never changes the match.

For the probability row pattern, that claim is proved. `Layout` reads the
pattern as a placement of its pieces, and `RowAt` is shown to match exactly
where such a placement exists (`RowAtComplete`, `RowAtSound`).

Each loop is proved against an independent reference:

- The inline scanner equals a position-by-position reference cut (`Lex`).
- The block pass equals "group table runs, then drop redundant breaks"
  (`Grouped`, `Collapse`).
- The probability loop equals a left-to-right leftmost-match search
  (`Chain`).

Two details of the code are worth stating plainly:

- Every table body row whose joined cells contain `---` is dropped, wherever
  it stands in the table, not only the row right after the header.
- The `###` branch of the block classifier can never be taken. A line
  starting with `###` already starts with `##`, so it becomes a level-2
  heading whose text keeps the third `#`.

The network call, the prompt, the API key and all of React are outside the
model. The model response arrives as a `Sources.Response` value.

## Model

| member | source | states |
|---|---|---|
| `Text.Trim` | components/ReportDisplay.tsx:96 | the result is the input with the whitespace at both ends removed: it sits inside the input with only whitespace around it and neither starts nor ends with whitespace |
| `Text.TrimIdempotent` | components/ReportDisplay.tsx:96 | trimming twice is trimming once |
| `Text.Split` | components/ReportDisplay.tsx:54 | `split` on one character gives at least one part and no part contains the separator |
| `Text.JoinSplit` | components/ReportDisplay.tsx:54 | joining the parts of a split with the separator gives back the text |
| `Text.SplitJoin` | components/ReportDisplay.tsx:101 | splitting a join of separator-free parts gives back the parts |
| `Inline.BoldClose` | components/ReportDisplay.tsx:18 | the lazy `.*?\*\*` stops at the first `**`, with no line terminator and no earlier `**` before it |
| `Inline.BoldCloseFinds` | components/ReportDisplay.tsx:18 | conversely, the first `**` with no line terminator before it is where the bold token closes |
| `Inline.MatchPercent` | components/ReportDisplay.tsx:18 | a percentage token is a prefix of the text that starts with a digit, ends with `%`, and whose number has the `\d{1,3}(,\d{3})*(\.\d+)?` shape |
| `Inline.MatchCurrency` | components/ReportDisplay.tsx:18 | a currency token is a prefix of the text that starts with the rupee sign and holds at least one more character |
| `Inline.MatchBold` | components/ReportDisplay.tsx:18 | a bold token is a prefix of the text, opening and closing with `**`; `BoldMatch` gives the converse |
| `Inline.MatchHere` | components/ReportDisplay.tsx:18 | the alternation yields only a non-empty highlighted token that the text starts with |
| `Inline.PercentHere` | components/ReportDisplay.tsx:18 | a well-formed percentage at the start of the text is found whole, whatever follows the `%` |
| `Inline.CurrencyWhen` | components/ReportDisplay.tsx:18 | the currency alternative matches exactly when a rupee sign is followed by a digit or comma, possibly after one whitespace character |
| `Inline.CurrencyHere` | components/ReportDisplay.tsx:18 | in that case the alternation reports the currency token, since neither bold nor a percentage can start at a rupee sign |
| `Inline.Scan` | components/ReportDisplay.tsx:21-42 | the `exec` loop, emitting the text between matches as plain runs and the rest after the last match, gives the reference cut `Lex` |
| `Inline.Tokenize` | components/ReportDisplay.tsx:11-48 | the rendered pieces spell out the line exactly and are the reference cut |
| `Inline.LexCovers` | components/ReportDisplay.tsx:21-42 | plain runs and raw tokens concatenate to the text: no gaps, no overlaps |
| `Inline.TokenizeShape` | components/ReportDisplay.tsx:23-24 | plain runs are never empty and never adjacent |
| `Inline.LexPlainUnmatched` | components/ReportDisplay.tsx:23-24 | no token matches inside a plain run, and the run ends at the end of the line or where a token matches |
| `Inline.TokenizeFirst` | components/ReportDisplay.tsx:21-35 | when a token matches at the start of a line, the line's first rendered piece is that token |
| `Inline.TokenizeEmpty` | components/ReportDisplay.tsx:14 | an empty line renders nothing |
| `Inline.TokenizeNoMatch` | components/ReportDisplay.tsx:39-42 | a line with no match anywhere is one plain run |
| `Inline.BoldFirst` | components/ReportDisplay.tsx:29-30 | a well-formed `**body**` is one bold piece whose content is the body, with the markers sliced off |
| `Inline.BoldBeatsPercent` | components/ReportDisplay.tsx:18 | `**20%**` is one bold piece with content `20%`: bold is tried first |
| `Inline.RupeeAmount` | components/ReportDisplay.tsx:18 | at `₹1,200 cr` the currency alternative matches the whole amount with its suffix |
| `Blocks.Inner` | components/ReportDisplay.tsx:101 | `slice(1, -1)` removes the outer pipes, and a lone pipe gives the empty string |
| `Blocks.IsTableLine` | components/ReportDisplay.tsx:98 | a table line starts and ends with a pipe, and a lone pipe is one |
| `Blocks.NumberedPrefix` | components/ReportDisplay.tsx:114-115 | `^\d+\.\s` matches digits, a dot and one whitespace character |
| `Blocks.NumberedComplete` | components/ReportDisplay.tsx:114-115 | conversely, digits, a dot and a whitespace character at the start of a line are always the prefix, whatever follows |
| `Blocks.Classify` | components/ReportDisplay.tsx:96-126 | a trimmed line is a table row exactly when it starts and ends with a pipe, blank exactly when empty, else a text block |
| `Blocks.ClassifyLine` | components/ReportDisplay.tsx:98-126 | the tests in source order: row, `##`, `###`, bullet, numbered, blank, paragraph |
| `Blocks.ClassifyRow` | components/ReportDisplay.tsx:100-102 | a table line's cells contain no pipe and, joined with the pipe character, are the line without its outer pipes: by `Text.SplitJoin` they are exactly the split of that inner text on the pipe character |
| `Blocks.ClassifyHeading` | components/ReportDisplay.tsx:108-109 | a `##` line is a level-2 heading whose pieces are the inline highlighting (`Inline.Tokenize`) of the trimmed text after the marker |
| `Blocks.ClassifyBullet` | components/ReportDisplay.tsx:112-113 | a `* ` or `– ` line is an unordered item whose pieces are the inline highlighting of the text after the marker |
| `Blocks.ClassifyNumbered` | components/ReportDisplay.tsx:114-115 | a `1. ` line is an ordered item whose pieces are the inline highlighting of the text after the number prefix |
| `Blocks.ClassifyParagraph` | components/ReportDisplay.tsx:124-125 | any other non-empty line is a paragraph of the whole line |
| `Blocks.TripleHashIsHeading2` | components/ReportDisplay.tsx:108-111 | a `###` line becomes a level-2 heading whose text starts with `#` |
| `Blocks.HasRule` | components/ReportDisplay.tsx:63 | a row is a rule when its cells, concatenated, contain `---` |
| `Common.FilterCount` | components/ReportDisplay.tsx:63 | `filter` keeps every copy of a kept element and no copy of a dropped one |
| `Blocks.MakeTable` | components/ReportDisplay.tsx:58-63 | the header is the first row; the body is the other rows in order, each row without `---` as many times as it occurs and no row with `---` |
| `Blocks.CellSpans` | components/ReportDisplay.tsx:80-83 | a cell shows its trimmed text |
| `Blocks.Flush` | components/ReportDisplay.tsx:103-106 | pending rows become one table appended to the output; without pending rows nothing changes |
| `Blocks.ClassifyAll` | components/ReportDisplay.tsx:95-96 | every line is classified, and content lines carry text blocks |
| `Blocks.Step` | components/ReportDisplay.tsx:100-126 | one loop iteration: a row joins the pending rows; a blank flushes and adds a break unless the output is empty or ends in a break; a text block flushes and is appended |
| `Blocks.Process` | components/ReportDisplay.tsx:95-128 | the loop state after a number of lines; `FormatIsReference` relates it to the reference |
| `Blocks.FormatLines` | components/ReportDisplay.tsx:95-134 | the loop followed by the final flush |
| `Blocks.Format` | components/ReportDisplay.tsx:52-135 | `FormattedText`: split on newlines, classify, loop, flush; its properties are the `Format*` lemmas below |
| `Blocks.FormatIsReference` | components/ReportDisplay.tsx:95-132 | the pass plus the final flush equals grouping maximal table runs into tables and then dropping breaks that come first or after a break |
| `Blocks.FormatCollapsed` | components/ReportDisplay.tsx:116-123 | the output never starts with a break and never has two in a row |
| `Blocks.FormatKeepsText` | components/ReportDisplay.tsx:107-126 | the text blocks of the output are the content lines' blocks, in order |
| `Blocks.FormatTables` | components/ReportDisplay.tsx:130-132 | there is one table per maximal run of table lines |
| `Blocks.FormatNoHeading3` | components/ReportDisplay.tsx:110-111 | no level-3 heading is ever rendered |
| `Probability.DirectionAt` | components/ProbabilityTable.tsx:14 | the alternation picks the direction written at a position ignoring case, and none when no direction is written there |
| `Probability.PlacesAt` | components/ProbabilityTable.tsx:14 | a found placement is a layout of the pattern from the pipe at the position |
| `Probability.MatchOf` | components/ProbabilityTable.tsx:14 | a layout's match spans from its opening to its closing pipe and captures a direction and a percentage label |
| `Probability.RowAt` | components/ProbabilityTable.tsx:14 | every match starts with a pipe, ends with a pipe, and captures a direction and a label |
| `Probability.RowAtComplete` | components/ProbabilityTable.tsx:14 | wherever the pattern's pieces are laid out, the scanner matches there with those captures |
| `Probability.RowAtSound` | components/ProbabilityTable.tsx:14 | every match of the scanner is some layout's |
| `Probability.Hits` | components/ProbabilityTable.tsx:35-41 | the `exec` loop: a match found at the search position is taken and the search resumes at its end, otherwise it moves one position on; `HitsChain` and `ChainIsHits` characterise it |
| `Probability.Try` | components/ProbabilityTable.tsx:35 | an answer is kept only when it starts at the position and ends within the text |
| `Probability.HitsChain` | components/ProbabilityTable.tsx:35-41 | the `exec` loop finds the leftmost match, then the leftmost at or after its end, until none is left |
| `Probability.ChainIsHits` | components/ProbabilityTable.tsx:35-41 | and only that sequence is such a search |
| `Probability.HitsMatch` | components/ProbabilityTable.tsx:35 | each hit is a match of the pattern where it starts |
| `Probability.Trimmed` | components/ProbabilityTable.tsx:36-37 | both captures trimmed |
| `Probability.Records` | components/ProbabilityTable.tsx:36-40 | one trimmed record per match, in the order found |
| `Probability.Found` | components/ProbabilityTable.tsx:31-41 | the rows the loop collects; `FoundAt` and `FoundShape` state what they are |
| `Probability.HitShape` | components/ProbabilityTable.tsx:36-37 | trimming a match's captures leaves them unchanged |
| `Probability.FoundAt` | components/ProbabilityTable.tsx:35-40 | each row found is its match's captures, a direction and a label |
| `Probability.FoundShape` | components/ProbabilityTable.tsx:35-41 | every row found is a direction in any casing with a percentage label |
| `Probability.ExtractShape` | components/ProbabilityTable.tsx:30-50 | so is every row shown |
| `Probability.Rank` | components/ProbabilityTable.tsx:45 | only the exact spellings have ranks 1, 2 and 3 |
| `Probability.Compare` | components/ProbabilityTable.tsx:44-47 | `order[a] - order[b]`, with a NaN difference read as 0 |
| `Probability.InsertBack` | components/ProbabilityTable.tsx:44-47 | inserting a row after every row that does not compare above it adds exactly one row |
| `Probability.Sort` | components/ProbabilityTable.tsx:44-47 | the sort keeps the number of rows; `SortPermutes`, `SortStable` and `SortCanonical` characterise it |
| `Probability.Extract` | components/ProbabilityTable.tsx:30-50 | the rows shown are a rearrangement of the rows found |
| `Probability.SortPermutes` | components/ProbabilityTable.tsx:44-47 | sorting rearranges the rows |
| `Probability.SortSorted` | components/ProbabilityTable.tsx:44-47 | with canonical directions the result is ordered Upside, Downside, Flat/Sideways |
| `Probability.SortStable` | components/ProbabilityTable.tsx:44-47 | rows of one rank, and unranked rows, keep their relative order |
| `Probability.SortCanonical` | components/ProbabilityTable.tsx:44-47 | with canonical directions the result is the Upside rows, then Downside, then Flat/Sideways, each in input order |
| `Probability.ExtractStable` | components/ProbabilityTable.tsx:43-47 | the rows shown of each rank are the rows found of that rank, in report order |
| `Probability.ExtractCanonical` | components/ProbabilityTable.tsx:43-47 | with canonical directions the rows shown are grouped by direction in that order, each group in report order |
| `Probability.BarColor` | components/ProbabilityTable.tsx:16-27 | green, red and grey for the exact spellings, a darker grey for anything else |
| `Probability.Panel` | components/ProbabilityTable.tsx:52-54 | no panel for an empty report or when no row is found; otherwise one bar per row shown, with its colour |
| `Probability.EmptyReport` | components/ProbabilityTable.tsx:32 | an empty report yields no rows and no panel |
| `Sources.Chunks` | services/geminiService.ts:71 | the first candidate's grounding chunks, or none when the candidates, the first candidate's metadata or its chunk list is missing |
| `Sources.ToSource` | services/geminiService.ts:73-76 | a missing uri becomes `""` and a missing title `Untitled`; present values, even empty ones, are kept |
| `Sources.MapSources` | services/geminiService.ts:72-76 | one source per chunk, in order |
| `Sources.HasUri` | services/geminiService.ts:77 | an empty uri is falsy |
| `Sources.FirstIndex` | services/geminiService.ts:80 | `findIndex`: the first index holding the uri, or past the end when there is none |
| `Sources.KeepFirst` | services/geminiService.ts:79-81 | the deduplicating filter, testing each element against the whole array; `KeepFirstSpec` characterises it |
| `Sources.NormalizeSources` | services/geminiService.ts:71-81 | map, drop sources without a uri, deduplicate; the `Sources*` lemmas state its properties |
| `Sources.KeepFirstSpec` | services/geminiService.ts:79-81 | the deduplication keeps exactly the elements at the first index of their uri |
| `Sources.KeepFirstDistinct` | services/geminiService.ts:79-81 | the kept elements have distinct uris |
| `Sources.SourcesHaveUris` | services/geminiService.ts:77 | every returned source has a non-empty uri |
| `Sources.SourcesDistinct` | services/geminiService.ts:78-81 | no two returned sources share a uri |
| `Sources.SourcesInOrder` | services/geminiService.ts:72-81 | the returned sources are the mapped chunks with some left out, in order |
| `Sources.SourcesComplete` | services/geminiService.ts:72-81 | every uri carried by a chunk is returned |
| `Sources.SourcesFirstOccurrence` | services/geminiService.ts:79-81 | the source kept for a uri is its first occurrence |
| `Sources.NoMetadata` | services/geminiService.ts:71 | without candidates or metadata the list is empty |
| `Sources.FirstOccurrenceExample` | services/geminiService.ts:79-81 | `[a:X, b:Y, a:Z]` becomes `[a:X, b:Y]` |
| `Sources.ToReport` | services/geminiService.ts:83 | the analysis is the response text with the normalised sources |
| `Report.LinkFor` | components/ReportDisplay.tsx:155-163 | a link points to and is titled with the uri and shows the title, or the uri when the title is empty |
| `Report.SourcesSection` | components/ReportDisplay.tsx:149-168 | no section for an empty list, else one link per source in order |
| `Report.SectionShown` | components/ReportDisplay.tsx:149 | the section appears exactly when some grounding chunk carries a uri |
| `Report.LinksShown` | components/ReportDisplay.tsx:153-163 | every link shows a non-empty text and no two links share an address |
| `Report.Render` | components/ReportDisplay.tsx:140-171 | the page: the panel, the formatted report and the sources section, top to bottom |
| `Report.Show` | components/ReportDisplay.tsx:140-171 | the page for the analysis the service builds from a response; `SectionShown` and `LinksShown` state its sources section |
| `Report.EmptyPage` | components/ReportDisplay.tsx:145-147 | an empty report draws neither a panel nor any block |

## Left out

- React itself is not modelled: elements, keys, class names, `useMemo` and `React.memo`. Blocks are plain values.
- The `value` field that `parseFloat` computes is not modelled, and neither is the bar width it drives. Both are floating point.
- Calling the model is not modelled: the prompt, the API key, the model name, the search tool, error wrapping and console output. The response is an input value.
- `App.tsx`, `AnalysisForm.tsx` and the icons are not modelled; they only manage UI state and forms.
- The regular expressions' `lastIndex` state is not modelled as state. It appears as the explicit resume index of the scan loops.
- `Probability.Extract`: a direction matched in a non-canonical casing (such as `UPSIDE`) has no rank. The comparator then returns NaN and JavaScript leaves the order to the engine. The model uses a stable insertion sort that treats NaN as 0. Its ordering claims (`SortSorted`, `SortCanonical`, `ExtractCanonical`) are stated only for canonical spellings. Stability per rank (`ExtractStable`) holds for every input.
- `Inline.MatchCurrency`: its contract and `CurrencyWhen` state when a currency token is found and its outline, not where it ends. The grammar after the digit run is defined by the bodies of `FractionEnd` and `SuffixEnd`; `RupeeAmount` pins one full example.
- `Inline.LexCovers`: it is stated for matchers that report only tokens the text starts with (`Honest`). `MatchHere` is one of them.
- `Blocks.ClassifyLine`: the dead `###` branch is kept in the model, so that the tests run in the code's order. `FormatNoHeading3` proves it never fires.
- Case folding is modelled for ASCII letters only. Without the `u` flag no other character folds onto the letters of the three direction words, so the matches are the same.
