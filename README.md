# Ruby-annotation parser

A Dafny model of the parser that turns a paragraph of Japanese prose with
inline ruby markup (`|明日《あした》`) into a list of segments: plain runs and
(base text, ruby text) pairs. The parser scans the paragraph one character at
a time with a three-state automaton (Init, InBase, InRuby). It uses four
markers: the ASCII bar `|` and the fullwidth bar `｜` open a base, `《` opens
the ruby text and `》` closes the span. Its working memory is a mutable record
holding the output list and three cursors, `baseStartIdx`, `rubyStartIdx` and
`lastRubyEndIdx`, with `-1` meaning "none".

Files:

- `ruby_parser.dfy`, module `RubyParser`: the model in the code's own form.
  - `Props` is a class whose fields the three action methods update in place.
  - `Parse` is a loop over the characters, followed by the trailing flush.
  - Each action's `requires` clauses are exactly the guards under which the
    code calls `throwError`.
  - The pure functions `Table`, `Step`, `Run` and `ParseSpec` state what the
    loop computes.
  - `Run` carries the reachable-state invariant `Reachable`, which proves that
    no guard can fire.
- `ruby_parser_properties.dfy`, module `RubyParserProperties`: what the output
  is, for every input.
  - Shape: (Plain Ruby)* followed by at most one Plain.
  - Write-back: the input is recovered from the output.
  - Bounds on every segment's text.
  - The trailing flush.
  - Empty input and plain passthrough.
- `ruby_parser_reference.dfy`, module `RubyParserReference`: an independent
  definition of the output, proved equal to what the automaton computes.
  - `Segments` scans from the front. The first bar, the first `《` after it
    and the first `》` after that form a span. Scanning goes on after the `》`.
    Whatever follows the last complete span is one plain run.
  - `ParseIsSegments` proves `ParseSpec(t) == Segments(t, 0)` for every
    paragraph.
- `ruby_parser_examples.dfy`, module `RubyParserExamples`: the parser on
  general shapes of paragraph and on concrete paragraphs, all derived
  through `Segments`.
  - Shapes: one span with prose around it, two adjacent spans, an unclosed
    span.
  - Concrete paragraphs: the repository's unit test (`Cool beans.`), stray
    brackets, `|明日《あした》` alone and between prose, two adjacent spans
    opened by the two kinds of bar, and a span left open at the end.

## Behaviour as written

The model follows the code as written. Two of its behaviours are easy to
miss:

- **Empty plain runs are emitted.** When a span closes, the code pushes the
  plain run before it whenever `lastRubyEndIdx < i - 1`. That guard holds in
  every reachable InRuby configuration. The comment at lib/rubyParser.ts:74
  names a test on the run being non-empty, which the code does not use.
  So `|明日《あした》` gives `[Plain(""), Ruby("明日", "あした")]`, and two
  adjacent spans give an empty plain run before each (`BasicSpan`, `BackToBack`, `SpanClose`).
- **Unclosed spans are kept.** A span still open at the end of the paragraph
  is not dropped. Its markers and text stay, verbatim, in the flushed plain
  run (`DanglingSpan`, `TrailingFlush`).

## Model

| member | source | states |
|---|---|---|
| `RubyParser.IsPlain` | lib/rubyParser.ts:92-94 | a segment is plain exactly when it is not a ruby pair |
| `RubyParser.Classify` | lib/rubyParser.ts:160-165 | the two bars select the base-start row, `《` the ruby-start row, `》` the ruby-end row, every other character OTHERS |
| `RubyParser.Table` | lib/rubyParser.ts:118-154 | the patched state tables: the only entries with an action are bar in Init (to InBase), `《` in InBase (to InRuby) and `》` in InRuby (to Init); every no-op keeps the state; every entry names a real state |
| `RubyParser.Slice` | lib/rubyParser.ts:72 | JavaScript `slice` with clamping and negative offsets; within bounds it is the ordinary subsequence |
| `RubyParser.Step` | lib/rubyParser.ts:160-174 | from a reachable configuration no action guard fires and the next configuration is reachable again |
| `RubyParser.Run` | lib/rubyParser.ts:176-179 | after n characters: the cursors stay below n; in Init both start cursors are -1; in InBase `lastRubyEndIdx < baseStartIdx` and `rubyStartIdx = -1`; in InRuby `-1 <= lastRubyEndIdx < baseStartIdx < rubyStartIdx < n` |
| `RubyParser.Props.constructor` | lib/rubyParser.ts:111-116 | a fresh record: no segments, all three cursors -1 |
| `RubyParser.BaseStartAction` | lib/rubyParser.ts:41-50 | requires both start cursors to be -1 (the two throw guards); sets `baseStartIdx := i`, nothing else changes |
| `RubyParser.RubyStartAction` | lib/rubyParser.ts:52-61 | requires a base open and no ruby open (the two throw guards); sets `rubyStartIdx := i`, nothing else changes |
| `RubyParser.RubyEndAction` | lib/rubyParser.ts:63-90 | requires both start cursors set (the two throw guards); appends the plain run (when `lastRubyEndIdx < i - 1`) and the ruby pair, resets the start cursors, sets `lastRubyEndIdx := i` |
| `RubyParser.BaseStartEffect` | lib/rubyParser.ts:41-50 | the record after `baseStartAction`; no contract of its own: its requires are the two throw guards, and `RubyParserReference.RunOpensBase` pins its effect (base opened at the bar's index, nothing else changed) |
| `RubyParser.RubyStartEffect` | lib/rubyParser.ts:52-61 | the record after `rubyStartAction`; no contract of its own: its requires are the two throw guards, and `RubyParserReference.RunOpensRuby` pins its effect (ruby text opened at the `《`'s index, nothing else changed) |
| `RubyParser.RubyEndEffect` | lib/rubyParser.ts:63-90 | the record after `rubyEndAction`, pushing the plain run under `lastRubyEndIdx < i - 1` as written; no contract of its own: `RubyParserProperties.SpanClose` pins it (the guard always holds when reached, so a possibly empty plain run and the pair are appended) |
| `RubyParser.Flush` | lib/rubyParser.ts:181-183 | the push after the loop; no contract of its own: `RubyParserProperties.FlushFrom`, `FlushTrailing` and `RubyParserReference.FlushAfter` pin it (a run of everything after the last closing index, exactly when that index is not the last one) |
| `RubyParser.ParseSpec` | lib/rubyParser.ts:156-186 | what `parse` returns; no contract of its own: `RubyParser.Parse` computes it, `RubyParserReference.ParseIsSegments` equates it with the leftmost segmentation, and `RubyParserProperties.ParseReconstructs` gives its shape and write-back |
| `RubyParser.Parse` | lib/rubyParser.ts:156-186 | the loop with its state and record computes `ParseSpec`; no guard and no DUMMY_STATE check can fire on any input |
| `RubyParserProperties.StepAppends` | lib/rubyParser.ts:63-90 | segments are only ever appended: one step keeps every segment pushed so far, in place |
| `RubyParserProperties.SpanClose` | lib/rubyParser.ts:70-89 | a `》` in InRuby appends exactly a plain run `text[last+1..base]`, even when empty, then the ruby pair `text[base+1..ruby]`, `text[ruby+1..i]`, and returns to Init with both start cursors -1 and `lastRubyEndIdx = i` |
| `RubyParserProperties.RunScanned` | lib/rubyParser.ts:63-90 | after any prefix, the segments pushed write back to the text up to the last `》` and alternate Plain/Ruby, and the text read since is what the current state has seen |
| `RubyParserProperties.ParseReconstructs` | lib/rubyParser.ts:156-186 | the output is (Plain Ruby)* then at most one Plain, and writing it back (each pair as a bar, base, `《`, ruby, `》`) gives the input exactly |
| `RubyParserProperties.ParseSegmentBounds` | lib/rubyParser.ts:79-83 | no base text contains `《`, no ruby text contains `》`, and no plain run before a span contains a bar; stray brackets may stay in plain runs |
| `RubyParserProperties.StepCloses` | lib/rubyParser.ts:86-88 | one step records its index as the last closing index exactly when it reads a `》` in InRuby |
| `RubyParserProperties.LastCloseAtEnd` | lib/rubyParser.ts:181 | the last closing index is the last index exactly when the last character is the `》` of a span |
| `RubyParserProperties.TrailingFlush` | lib/rubyParser.ts:181-183 | a trailing plain run is appended exactly when the input is non-empty and does not end with a span's `》`; it is then non-empty, is exactly the text after the last closing index `lastRubyEndIdx`, and that index is a `》` (or -1) |
| `RubyParserProperties.ParseEmpty` | lib/rubyParser.ts:181-185 | the empty paragraph gives no segment |
| `RubyParserProperties.QuietStep` | lib/rubyParser.ts:118-154 | a character with a no-op entry in the current state's table leaves state and record as they are |
| `RubyParserProperties.RunQuiet` | lib/rubyParser.ts:176-179 | a stretch of characters with no-op entries in the current state's table changes neither the state nor the record |
| `RubyParserProperties.ParsePlainPassthrough` | lib/rubyParser.ts:118-127 | a non-empty paragraph without bars comes back as one plain run holding all of it |
| `RubyParserReference.FindBarSound` | lib/rubyParser.ts:118-127 | the first-bar search finds no bar before its result and a bar at it unless it is the end |
| `RubyParserReference.FindBarAt` | lib/rubyParser.ts:118-127 | conversely, any index with no bar before it and a bar (or the end) at it is the search's result |
| `RubyParserReference.FindCharSound` | lib/rubyParser.ts:129-151 | the same for the first `《` (read in InBase) and the first `》` (read in InRuby) |
| `RubyParserReference.FindCharAt` | lib/rubyParser.ts:129-151 | the converse for `《` and `》` |
| `RubyParserReference.FirstSpanSound` | lib/rubyParser.ts:118-154 | the span found first is complete: bar, base without `《`, `《`, ruby without `》`, `》`, and no bar before it |
| `RubyParserReference.FirstSpanIs` | lib/rubyParser.ts:118-154 | any span so placed is the one found first |
| `RubyParserReference.NoSpanShape` | lib/rubyParser.ts:176-183 | when no complete span follows, the rest is bar-free text, optionally followed by an opened base and an opened ruby text that never close |
| `RubyParserReference.ShapeNoSpan` | lib/rubyParser.ts:176-183 | conversely, such a rest holds no complete span |
| `RubyParserReference.RunToSpanEnd` | lib/rubyParser.ts:141-154 | from a boundary in Init, reading up to the `》` of the next span pushes its plain run and its pair and returns to Init with that `》` as the last closing index |
| `RubyParserReference.RunToEnd` | lib/rubyParser.ts:176-179 | from a boundary with no complete span after it, the loop pushes nothing more and keeps the last closing index |
| `RubyParserReference.FlushAfter` | lib/rubyParser.ts:181-185 | the output is what the loop pushed, then everything after the last closing index when that is not empty |
| `RubyParserReference.ParseFrom` | lib/rubyParser.ts:156-186 | from any boundary the output is what was pushed, followed by the segmentation of the rest |
| `RubyParserReference.ParseIsSegments` | lib/rubyParser.ts:156-186 | the parser's output equals the leftmost segmentation `Segments(t, 0)` for every paragraph |
| `RubyParserReference.RunEndsUnfinished` | lib/rubyParser.ts:176-183 | from any boundary, the loop stops at a last closing index after which no complete span remains |
| `RubyParserReference.LastRunHoldsNoSpan` | lib/rubyParser.ts:181-183 | no complete span lies after the final `lastRubyEndIdx`, so the trailing run is all the text after the last closed span |
| `RubyParserReference.SegmentsSpan` | lib/rubyParser.ts:70-84 | a complete span with no bar before it comes first: its plain run (possibly empty), its pair, then the segmentation after its `》` |
| `RubyParserReference.SegmentsNoBar` | lib/rubyParser.ts:181-183 | bar-free text is one plain run when non-empty, nothing otherwise |
| `RubyParserReference.SegmentsUnclosed` | lib/rubyParser.ts:181-183 | a span whose `》` never comes leaves the whole rest, markers included, as one plain run |
| `RubyParserExamples.ParseOneSpanAt` | lib/rubyParser.ts:156-186 | one span at given indices with bar-free prose around it gives the prose before it, the pair, and the prose after it when non-empty |
| `RubyParserExamples.OneSpan` | lib/rubyParser.ts:156-186 | the same, for a paragraph built as prose + span + prose |
| `RubyParserExamples.SegmentsLastSpanAt` | lib/rubyParser.ts:181 | a span ending the paragraph leaves nothing after its pair |
| `RubyParserExamples.ParseTwoSpansAt` | lib/rubyParser.ts:75-77 | two adjacent spans at given indices give an empty plain run before each pair |
| `RubyParserExamples.BackToBackSpans` | lib/rubyParser.ts:70-89 | the same, for a paragraph built from two spans |
| `RubyParserExamples.ParseDanglingAt` | lib/rubyParser.ts:181-183 | a span opened at given indices whose `》` never comes leaves the whole paragraph as one plain run |
| `RubyParserExamples.DanglingSpan` | lib/rubyParser.ts:181-183 | the same, for a paragraph built as prose + bar + base + `《` + ruby |
| `RubyParserExamples.CoolBeans` | __tests__/rubyParser.test.ts:3-5 | `Cool beans.` gives one plain run |
| `RubyParserExamples.StrayBrackets` | lib/rubyParser.ts:121-122 | brackets with no bar before them stay in the plain run |
| `RubyParserExamples.BasicSpan` | lib/rubyParser.ts:74-77 | the one-span paragraph 明日 with ruby あした, opened by the ASCII bar, gives an empty plain run, then the pair |
| `RubyParserExamples.MixedText` | lib/rubyParser.ts:70-84 | prose, span, prose gives plain, pair, plain |
| `RubyParserExamples.BackToBack` | lib/rubyParser.ts:74-77 | two adjacent spans, opened by the ASCII and the fullwidth bar, give plain "", pair, plain "", pair |
| `RubyParserExamples.RedundantBaseStart` | lib/rubyParser.ts:142-143 | a second bar right after the opening bar does not open a new span: the paragraph gives an empty plain run and one pair whose base text starts with that bar |
| `RubyParserExamples.DanglingAtEnd` | lib/rubyParser.ts:182 | an unclosed span (bar, 明日, `《`, あし) at the end stays in the flushed run |

## Left out

- The error message built by `throwError` (lib/rubyParser.ts:28-35). The throws are modelled as preconditions of the actions, proved unreachable from every reachable configuration.
- The object-literal tables themselves: their self-references, the `DUMMY_STATE` sentinel and the `char in state` lookup. `Table` is a `match` on a state enumeration. Every entry of the patched tables names a real state, so the check at lib/rubyParser.ts:167-170 cannot fire and has no counterpart.
- `noOpAction` (lib/rubyParser.ts:37-39) is the `NoOp` action, which leaves the record untouched. It has no method of its own.
- The JSON deep copy of `INIT_PROPS` (lib/rubyParser.ts:157) is a fresh `Props` object for each call.
- The unused `char` and `text` arguments of the actions are dropped where an action does not read them.
- UTF-16 code units: the paragraph is a sequence of Unicode characters. All four markers are single units in the Basic Multilingual Plane, so neither marker identity nor slice boundaries change.
- The rest of the repository: the React components, the pages and audio, scrolling, timers and layout. None of it is part of the parser.
