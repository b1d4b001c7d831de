/** An independent reading of what the parser returns: scan the paragraph
    from the front, take the first bar, the first `《` after it and the
    first `》` after that as one span, and go on after the `》`; whatever
    follows the last complete span is one plain run.  The automaton of
    module RubyParser computes exactly this segmentation.
 */
module RubyParserReference {
  import opened RubyParser
  import opened RubyParserProperties

  /** No bar at any index from `k` up to, not including, `j`. */
  predicate BarFree(t: string, k: nat, j: nat)
    requires j <= |t|
  {
    forall i | k <= i < j :: !IsBaseStart(t[i])
  }

  /** No `ch` at any index from `k` up to, not including, `j`. */
  predicate CharFree(t: string, k: nat, j: nat, ch: char)
    requires j <= |t|
  {
    forall i | k <= i < j :: t[i] != ch
  }

  lemma {:induction false} BarFreeSlice(t: string, k: nat, j: nat)
    requires k <= j <= |t|
    ensures BarFree(t, k, j) <==> NoBaseStart(t[k..j])
  {
    assert forall i | 0 <= i < j - k :: t[k..j][i] == t[k + i];
    if !BarFree(t, k, j) {
      var i :| k <= i < j && IsBaseStart(t[i]);
      assert t[k..j][i - k] == t[i];
    }
  }

  lemma {:induction false} CharFreeSlice(t: string, k: nat, j: nat, ch: char)
    requires k <= j <= |t|
    ensures CharFree(t, k, j, ch) <==> ch !in t[k..j]
  {
    assert forall i | 0 <= i < j - k :: t[k..j][i] == t[k + i];
    if !CharFree(t, k, j, ch) {
      var i :| k <= i < j && t[i] == ch;
      assert t[k..j][i - k] == t[i];
    }
  }

  /** The index of the first bar at or after `k`, or `|t|` when there is none. */
  function FindBar(t: string, k: nat): (j: nat)
    requires k <= |t|
    ensures k <= j <= |t|
    decreases |t| - k
  {
    if k == |t| || IsBaseStart(t[k]) then k else FindBar(t, k + 1)
  }

  /** The index of the first `ch` at or after `k`, or `|t|` when there is none. */
  function FindChar(t: string, k: nat, ch: char): (j: nat)
    requires k <= |t|
    ensures k <= j <= |t|
    decreases |t| - k
  {
    if k == |t| || t[k] == ch then k else FindChar(t, k + 1, ch)
  }

  /** What `FindBar` finds: no bar before it, a bar at it unless it is the end. */
  lemma {:induction false} FindBarSound(t: string, k: nat)
    requires k <= |t|
    ensures BarFree(t, k, FindBar(t, k))
    ensures FindBar(t, k) < |t| ==> IsBaseStart(t[FindBar(t, k)])
    decreases |t| - k
  {
    if k < |t| && !IsBaseStart(t[k]) {
      FindBarSound(t, k + 1);
    }
  }

  /** What `FindChar` finds: no `ch` before it, `ch` at it unless it is the end. */
  lemma {:induction false} FindCharSound(t: string, k: nat, ch: char)
    requires k <= |t|
    ensures CharFree(t, k, FindChar(t, k, ch), ch)
    ensures FindChar(t, k, ch) < |t| ==> t[FindChar(t, k, ch)] == ch
    decreases |t| - k
  {
    if k < |t| && t[k] != ch {
      FindCharSound(t, k + 1, ch);
    }
  }

  /** `FindBar` returns the first bar: any `j` with no bar in `t[k..j]` and
      a bar (or the end) at `j` is its result. */
  lemma {:induction false} FindBarAt(t: string, k: nat, j: nat)
    requires k <= j <= |t| && BarFree(t, k, j) && (j < |t| ==> IsBaseStart(t[j]))
    ensures FindBar(t, k) == j
    decreases j - k
  {
    if k < j {
      FindBarAt(t, k + 1, j);
    }
  }

  /** `FindChar` returns the first `ch`. */
  lemma {:induction false} FindCharAt(t: string, k: nat, ch: char, j: nat)
    requires k <= j <= |t| && CharFree(t, k, j, ch) && (j < |t| ==> t[j] == ch)
    ensures FindChar(t, k, ch) == j
    decreases j - k
  {
    if k < j {
      FindCharAt(t, k + 1, ch, j);
    }
  }

  /** The first complete span after a boundary, by the indices of its bar,
      its `《` and its `》`. */
  datatype Found = NoSpan | Span(b: nat, r: nat, e: nat)

  /** A complete span `t[b..e + 1]` is the first one at or after `k`: no bar
      in `t[k..b]`, no `《` in its base text, no `》` in its ruby text. */
  predicate SpanAt(t: string, k: nat, b: nat, r: nat, e: nat) {
    k <= b < r < e < |t|
    && BarFree(t, k, b) && IsBaseStart(t[b])
    && CharFree(t, b + 1, r, RUBY_OPEN) && t[r] == RUBY_OPEN
    && CharFree(t, r + 1, e, RUBY_CLOSE) && t[e] == RUBY_CLOSE
  }

  /** The first complete span at or after `k`, if there is one. */
  function FirstSpan(t: string, k: nat): (f: Found)
    requires k <= |t|
    ensures f.Span? ==> k <= f.b < f.r < f.e < |t|
  {
    var b := FindBar(t, k);
    if b == |t| then NoSpan
    else
      var r := FindChar(t, b + 1, RUBY_OPEN);
      if r == |t| then NoSpan
      else
        var e := FindChar(t, r + 1, RUBY_CLOSE);
        if e == |t| then NoSpan else Span(b, r, e)
  }

  /** The span `FirstSpan` finds is a complete span with nothing before it. */
  lemma {:induction false} FirstSpanSound(t: string, k: nat)
    requires k <= |t| && FirstSpan(t, k).Span?
    ensures var f := FirstSpan(t, k); SpanAt(t, k, f.b, f.r, f.e)
  {
    var b := FindBar(t, k);
    var r := FindChar(t, b + 1, RUBY_OPEN);
    FindBarSound(t, k);
    FindCharSound(t, b + 1, RUBY_OPEN);
    FindCharSound(t, r + 1, RUBY_CLOSE);
  }

  /** A span satisfying `SpanAt` is the one `FirstSpan` finds. */
  lemma {:induction false} FirstSpanIs(t: string, k: nat, b: nat, r: nat, e: nat)
    requires SpanAt(t, k, b, r, e)
    ensures FirstSpan(t, k) == Span(b, r, e)
  {
    FindBarAt(t, k, b);
    FindCharAt(t, b + 1, RUBY_OPEN, r);
    FindCharAt(t, r + 1, RUBY_CLOSE, e);
  }

  /** No complete span at or after `k`: the first bar is at `b` (`|t|`
      when there is none), the first `《` after it at `r` (likewise), and
      no `》` follows that. */
  predicate Unfinished(t: string, k: nat, b: nat, r: nat) {
    k <= b <= |t| && BarFree(t, k, b)
    && (b < |t| ==>
          IsBaseStart(t[b]) && b < r <= |t| && CharFree(t, b + 1, r, RUBY_OPEN)
          && (r < |t| ==> t[r] == RUBY_OPEN && CharFree(t, r + 1, |t|, RUBY_CLOSE)))
  }

  /** When `FirstSpan` finds nothing, the text is unfinished in this sense. */
  lemma {:induction false} NoSpanShape(t: string, k: nat) returns (b: nat, r: nat)
    requires k <= |t| && FirstSpan(t, k).NoSpan?
    ensures Unfinished(t, k, b, r)
  {
    b := FindBar(t, k);
    FindBarSound(t, k);
    r := |t|;
    if b < |t| {
      r := FindChar(t, b + 1, RUBY_OPEN);
      FindCharSound(t, b + 1, RUBY_OPEN);
      if r < |t| {
        FindCharSound(t, r + 1, RUBY_CLOSE);
      }
    }
  }

  /** Conversely, unfinished text makes `FirstSpan` find nothing. */
  lemma {:induction false} ShapeNoSpan(t: string, k: nat, b: nat, r: nat)
    requires Unfinished(t, k, b, r)
    ensures FirstSpan(t, k).NoSpan?
  {
    FindBarAt(t, k, b);
    if b < |t| {
      FindCharAt(t, b + 1, RUBY_OPEN, r);
      if r < |t| {
        FindCharAt(t, r + 1, RUBY_CLOSE, |t|);
      }
    }
  }

  /** The segmentation of `t[k..]`: the plain run before the first span,
      its pair, and the segmentation after it; with no complete span left,
      the rest as one plain run when it is not empty. */
  function Segments(t: string, k: nat): seq<TextElement>
    requires k <= |t|
    decreases |t| - k
  {
    match FirstSpan(t, k)
    case NoSpan => if k < |t| then [Plain(t[k..])] else []
    case Span(b, r, e) => [Plain(t[k..b]), Ruby(t[b + 1..r], t[r + 1..e])] + Segments(t, e + 1)
  }

  /** Reading the `n`-th character is one more step of the fold. */
  lemma {:induction false} RunNext(t: string, n: nat)
    requires n < |t|
    ensures Run(t, n + 1) == Step(t, Run(t, n).0, Run(t, n).1, n)
  {
  }

  /** Bar-free text read in Init changes nothing. */
  lemma {:induction false} RunQuietInit(t: string, n: nat, m: nat)
    requires n <= m <= |t| && Run(t, n).0 == Init && BarFree(t, n, m)
    ensures Run(t, m) == Run(t, n)
  {
    BarFreeSlice(t, n, m);
    RunQuiet(t, n, m);
  }

  /** Text without `《` read in InBase changes nothing. */
  lemma {:induction false} RunQuietBase(t: string, n: nat, m: nat)
    requires n <= m <= |t| && Run(t, n).0 == InBase && CharFree(t, n, m, RUBY_OPEN)
    ensures Run(t, m) == Run(t, n)
  {
    CharFreeSlice(t, n, m, RUBY_OPEN);
    RunQuiet(t, n, m);
  }

  /** Text without `》` read in InRuby changes nothing. */
  lemma {:induction false} RunQuietRuby(t: string, n: nat, m: nat)
    requires n <= m <= |t| && Run(t, n).0 == InRuby && CharFree(t, n, m, RUBY_CLOSE)
    ensures Run(t, m) == Run(t, n)
  {
    CharFreeSlice(t, n, m, RUBY_CLOSE);
    RunQuiet(t, n, m);
  }

  /** A bar read in Init opens a base at its index. */
  lemma {:induction false} RunOpensBase(t: string, b: nat, out: seq<TextElement>, last: int)
    requires b < |t| && IsBaseStart(t[b])
    requires Run(t, b) == (Init, Cursors(out, DEFAULT_IDX, DEFAULT_IDX, last))
    ensures Run(t, b + 1) == (InBase, Cursors(out, b, DEFAULT_IDX, last))
  {
    RunNext(t, b);
    assert Step(t, Init, Cursors(out, DEFAULT_IDX, DEFAULT_IDX, last), b)
        == (InBase, Cursors(out, b, DEFAULT_IDX, last));
  }

  /** A `《` read in InBase opens the ruby text at its index. */
  lemma {:induction false} RunOpensRuby(t: string, r: nat, out: seq<TextElement>, last: int, b: int)
    requires r < |t| && t[r] == RUBY_OPEN
    requires Run(t, r) == (InBase, Cursors(out, b, DEFAULT_IDX, last))
    ensures Run(t, r + 1) == (InRuby, Cursors(out, b, r, last))
  {
    RunNext(t, r);
    assert Step(t, InBase, Cursors(out, b, DEFAULT_IDX, last), r) == (InRuby, Cursors(out, b, r, last));
  }

  /** A `》` read in InRuby closes the span. */
  lemma {:induction false} RunClosesSpan(t: string, e: nat, out: seq<TextElement>, last: int, b: int, r: int)
    requires e < |t| && t[e] == RUBY_CLOSE
    requires Run(t, e) == (InRuby, Cursors(out, b, r, last))
    ensures Run(t, e + 1)
         == (Init, Cursors(out + [Plain(t[last + 1..b]), Ruby(t[b + 1..r], t[r + 1..e])], DEFAULT_IDX, DEFAULT_IDX, e))
  {
    RunNext(t, e);
    SpanClose(t, Cursors(out, b, r, last), e);
  }

  /** From a boundary, bar-free text and then a bar open a base at the bar. */
  lemma {:induction false} RunToBase(t: string, last: int, out: seq<TextElement>, b: nat)
    requires DEFAULT_IDX <= last && last + 1 <= b < |t| && BarFree(t, last + 1, b) && IsBaseStart(t[b])
    requires Run(t, last + 1) == (Init, Cursors(out, DEFAULT_IDX, DEFAULT_IDX, last))
    ensures Run(t, b + 1) == (InBase, Cursors(out, b, DEFAULT_IDX, last))
  {
    RunQuietInit(t, last + 1, b);
    RunOpensBase(t, b, out, last);
  }

  /** In an open base, text without `《` and then `《` open the ruby text. */
  lemma {:induction false} RunToRuby(t: string, last: int, out: seq<TextElement>, b: nat, r: nat)
    requires b < r < |t| && CharFree(t, b + 1, r, RUBY_OPEN) && t[r] == RUBY_OPEN
    requires Run(t, b + 1) == (InBase, Cursors(out, b, DEFAULT_IDX, last))
    ensures Run(t, r + 1) == (InRuby, Cursors(out, b, r, last))
  {
    RunQuietBase(t, b + 1, r);
    RunOpensRuby(t, r, out, last, b);
  }

  /** In open ruby text, text without `》` and then `》` close the span. */
  lemma {:induction false} RunToClose(t: string, last: int, out: seq<TextElement>, b: nat, r: nat, e: nat)
    requires r < e < |t| && CharFree(t, r + 1, e, RUBY_CLOSE) && t[e] == RUBY_CLOSE
    requires Run(t, r + 1) == (InRuby, Cursors(out, b, r, last))
    ensures Run(t, e + 1)
         == (Init, Cursors(out + [Plain(t[last + 1..b]), Ruby(t[b + 1..r], t[r + 1..e])], DEFAULT_IDX, DEFAULT_IDX, e))
  {
    RunQuietRuby(t, r + 1, e);
    RunClosesSpan(t, e, out, last, b, r);
  }

  /** From a boundary (Init, nothing open, last closing index `last`),
      reading up to the `》` of the first span pushes its plain run and its
      pair and returns to Init. */
  lemma {:induction false} RunToSpanEnd(t: string, last: int, out: seq<TextElement>, b: nat, r: nat, e: nat)
    requires DEFAULT_IDX <= last && SpanAt(t, last + 1, b, r, e)
    requires Run(t, last + 1) == (Init, Cursors(out, DEFAULT_IDX, DEFAULT_IDX, last))
    ensures Run(t, e + 1)
         == (Init, Cursors(out + [Plain(t[last + 1..b]), Ruby(t[b + 1..r], t[r + 1..e])], DEFAULT_IDX, DEFAULT_IDX, e))
  {
    RunToBase(t, last, out, b);
    RunToRuby(t, last, out, b, r);
    RunToClose(t, last, out, b, r, e);
  }

  /** From a boundary followed by unfinished text, nothing more is pushed
      and the last closing index stays put. */
  lemma {:induction false} RunTail(t: string, last: int, out: seq<TextElement>, b: nat, r: nat)
    requires DEFAULT_IDX <= last < |t| && Unfinished(t, last + 1, b, r)
    requires Run(t, last + 1) == (Init, Cursors(out, DEFAULT_IDX, DEFAULT_IDX, last))
    ensures Run(t, |t|).1.elements == out && Run(t, |t|).1.lastRubyEndIdx == last
  {
    if b == |t| {
      RunQuietInit(t, last + 1, |t|);
    } else {
      RunToBase(t, last, out, b);
      RunTailInBase(t, last, out, b, r);
    }
  }

  /** The unfinished rest after an opened base leaves it (and the ruby
      text, if `《` comes) open to the end. */
  lemma {:induction false} RunTailInBase(t: string, last: int, out: seq<TextElement>, b: nat, r: nat)
    requires b < r <= |t| && CharFree(t, b + 1, r, RUBY_OPEN)
    requires r < |t| ==> t[r] == RUBY_OPEN && CharFree(t, r + 1, |t|, RUBY_CLOSE)
    requires Run(t, b + 1) == (InBase, Cursors(out, b, DEFAULT_IDX, last))
    ensures Run(t, |t|).1.elements == out && Run(t, |t|).1.lastRubyEndIdx == last
  {
    if r == |t| {
      RunQuietBase(t, b + 1, |t|);
    } else {
      RunToRuby(t, last, out, b, r);
      RunQuietRuby(t, r + 1, |t|);
    }
  }

  /** From a boundary with no complete span after it, nothing more is
      pushed and the last closing index stays put. */
  lemma {:induction false} RunToEnd(t: string, last: int, out: seq<TextElement>)
    requires DEFAULT_IDX <= last < |t| && FirstSpan(t, last + 1).NoSpan?
    requires Run(t, last + 1) == (Init, Cursors(out, DEFAULT_IDX, DEFAULT_IDX, last))
    ensures Run(t, |t|).1.elements == out && Run(t, |t|).1.lastRubyEndIdx == last
  {
    var b, r := NoSpanShape(t, last + 1);
    RunTail(t, last, out, b, r);
  }

  /** When the loop ends having pushed `out` and last closed a span at
      `last`, the output is `out` and the rest after `last`. */
  lemma {:induction false} FlushAfter(t: string, last: int, out: seq<TextElement>)
    requires DEFAULT_IDX <= last < |t|
    requires Run(t, |t|).1.elements == out && Run(t, |t|).1.lastRubyEndIdx == last
    ensures ParseSpec(t) == out + if last + 1 < |t| then [Plain(t[last + 1..])] else []
  {
    FlushFrom(t, Run(t, |t|).1);
  }

  /** With no complete span after the boundary, the output is what was
      pushed and the rest as one plain run. */
  lemma {:induction false} ParseTail(t: string, last: int, out: seq<TextElement>)
    requires DEFAULT_IDX <= last < |t| && FirstSpan(t, last + 1).NoSpan?
    requires Run(t, last + 1) == (Init, Cursors(out, DEFAULT_IDX, DEFAULT_IDX, last))
    ensures ParseSpec(t) == out + Segments(t, last + 1)
  {
    RunToEnd(t, last, out);
    FlushAfter(t, last, out);
    SegmentsNoSpan(t, last + 1);
  }

  /** Reading the first span after a boundary pushes its plain run and
      its pair and leads to the next boundary, just after its `》`. */
  lemma {:induction false} SpanRun(t: string, last: int, out: seq<TextElement>, b: nat, r: nat, e: nat)
    requires DEFAULT_IDX <= last < |t| && FirstSpan(t, last + 1) == Span(b, r, e)
    requires Run(t, last + 1) == (Init, Cursors(out, DEFAULT_IDX, DEFAULT_IDX, last))
    ensures Run(t, e + 1)
         == (Init, Cursors(out + [Plain(t[last + 1..b]), Ruby(t[b + 1..r], t[r + 1..e])], DEFAULT_IDX, DEFAULT_IDX, e))
  {
    FirstSpanSound(t, last + 1);
    RunToSpanEnd(t, last, out, b, r, e);
  }

  /** The same two segments head `Segments` after whatever came before. */
  lemma {:induction false} SegmentsAfter(t: string, k: nat, out: seq<TextElement>, b: nat, r: nat, e: nat)
    requires k <= |t| && FirstSpan(t, k) == Span(b, r, e)
    ensures out + Segments(t, k) == out + [Plain(t[k..b]), Ruby(t[b + 1..r], t[r + 1..e])] + Segments(t, e + 1)
  {
    SegmentsStep(t, k, b, r, e);
    var pair := [Plain(t[k..b]), Ruby(t[b + 1..r], t[r + 1..e])];
    assert out + (pair + Segments(t, e + 1)) == out + pair + Segments(t, e + 1);
  }

  /** From any boundary the output is what was pushed followed by the
      segmentation of the rest. */
  lemma {:induction false} ParseFrom(t: string, last: int, out: seq<TextElement>)
    requires DEFAULT_IDX <= last < |t|
    requires Run(t, last + 1) == (Init, Cursors(out, DEFAULT_IDX, DEFAULT_IDX, last))
    ensures ParseSpec(t) == out + Segments(t, last + 1)
    decreases |t| - last
  {
    match FirstSpan(t, last + 1)
    case NoSpan =>
      ParseTail(t, last, out);
    case Span(b, r, e) =>
      SpanRun(t, last, out, b, r, e);
      SegmentsAfter(t, last + 1, out, b, r, e);
      ParseFrom(t, e, out + [Plain(t[last + 1..b]), Ruby(t[b + 1..r], t[r + 1..e])]);
  }

  /** The parser computes the leftmost segmentation: the first bar opens a
      span, the first `《` after it ends the base text, the first `》` after
      that ends the ruby text, and the text after the last complete span is
      one plain run. */
  lemma {:induction false} ParseIsSegments(t: string)
    ensures ParseSpec(t) == Segments(t, 0)
  {
    assert Run(t, 0) == (Init, Cursors([], DEFAULT_IDX, DEFAULT_IDX, DEFAULT_IDX));
    if |t| == 0 {
      assert ParseSpec(t) == [];
    } else {
      ParseFrom(t, DEFAULT_IDX, []);
    }
  }

  /** From any boundary, the loop ends at a last closing index after
      which no complete span remains. */
  lemma {:induction false} RunEndsUnfinished(t: string, last: int, out: seq<TextElement>)
    requires DEFAULT_IDX <= last < |t|
    requires Run(t, last + 1) == (Init, Cursors(out, DEFAULT_IDX, DEFAULT_IDX, last))
    ensures FirstSpan(t, Run(t, |t|).1.lastRubyEndIdx + 1).NoSpan?
    decreases |t| - last
  {
    match FirstSpan(t, last + 1)
    case NoSpan =>
      RunToEnd(t, last, out);
    case Span(b, r, e) =>
      SpanRun(t, last, out, b, r, e);
      RunEndsUnfinished(t, e, out + [Plain(t[last + 1..b]), Ruby(t[b + 1..r], t[r + 1..e])]);
  }

  /** The trailing plain run is all the text after the last closed span:
      the last closing index is the `》` of the last complete span, and no
      complete span lies after it. */
  lemma {:induction false} LastRunHoldsNoSpan(t: string)
    ensures FirstSpan(t, Run(t, |t|).1.lastRubyEndIdx + 1).NoSpan?
  {
    if |t| > 0 {
      assert Run(t, 0) == (Init, Cursors([], DEFAULT_IDX, DEFAULT_IDX, DEFAULT_IDX));
      RunEndsUnfinished(t, DEFAULT_IDX, []);
    }
  }

  /** The slice form of `SpanAt`, as the examples state their spans. */
  lemma {:induction false} SlicesSpanAt(t: string, k: nat, b: nat, r: nat, e: nat)
    requires k <= b < r < e < |t| && NoBaseStart(t[k..b]) && IsBaseStart(t[b])
    requires RUBY_OPEN !in t[b + 1..r] && t[r] == RUBY_OPEN
    requires RUBY_CLOSE !in t[r + 1..e] && t[e] == RUBY_CLOSE
    ensures SpanAt(t, k, b, r, e)
  {
    BarFreeSlice(t, k, b);
    CharFreeSlice(t, b + 1, r, RUBY_OPEN);
    CharFreeSlice(t, r + 1, e, RUBY_CLOSE);
  }

  /** One step of `Segments`: the span `FirstSpan` finds, then the rest. */
  lemma {:induction false} SegmentsStep(t: string, k: nat, b: nat, r: nat, e: nat)
    requires k <= |t| && FirstSpan(t, k) == Span(b, r, e)
    ensures Segments(t, k) == [Plain(t[k..b]), Ruby(t[b + 1..r], t[r + 1..e])] + Segments(t, e + 1)
  {
  }

  /** A complete span right after the boundary `k`, with no bar before it,
      comes first. */
  lemma {:induction false} SegmentsSpan(t: string, k: nat, b: nat, r: nat, e: nat)
    requires k <= b < r < e < |t| && NoBaseStart(t[k..b]) && IsBaseStart(t[b])
    requires RUBY_OPEN !in t[b + 1..r] && t[r] == RUBY_OPEN
    requires RUBY_CLOSE !in t[r + 1..e] && t[e] == RUBY_CLOSE
    ensures Segments(t, k) == [Plain(t[k..b]), Ruby(t[b + 1..r], t[r + 1..e])] + Segments(t, e + 1)
  {
    SlicesSpanAt(t, k, b, r, e);
    FirstSpanIs(t, k, b, r, e);
    SegmentsStep(t, k, b, r, e);
  }

  /** With no complete span left, the rest is one plain run when it is
      not empty. */
  lemma {:induction false} SegmentsNoSpan(t: string, k: nat)
    requires k <= |t| && FirstSpan(t, k).NoSpan?
    ensures Segments(t, k) == if k < |t| then [Plain(t[k..])] else []
  {
  }

  /** Text without a bar is one plain run when it is not empty. */
  lemma {:induction false} SegmentsNoBar(t: string, k: nat)
    requires k <= |t| && NoBaseStart(t[k..])
    ensures Segments(t, k) == if k < |t| then [Plain(t[k..])] else []
  {
    assert t[k..|t|] == t[k..];
    BarFreeSlice(t, k, |t|);
    ShapeNoSpan(t, k, |t|, |t|);
    SegmentsNoSpan(t, k);
  }

  /** A span whose `》` never comes leaves the whole rest as one plain run. */
  lemma {:induction false} SegmentsUnclosed(t: string, k: nat, b: nat, r: nat)
    requires k <= b < r < |t| && NoBaseStart(t[k..b]) && IsBaseStart(t[b])
    requires RUBY_OPEN !in t[b + 1..r] && t[r] == RUBY_OPEN && RUBY_CLOSE !in t[r + 1..]
    ensures Segments(t, k) == [Plain(t[k..])]
  {
    assert t[r + 1..|t|] == t[r + 1..];
    BarFreeSlice(t, k, b);
    CharFreeSlice(t, b + 1, r, RUBY_OPEN);
    CharFreeSlice(t, r + 1, |t|, RUBY_CLOSE);
    ShapeNoSpan(t, k, b, r);
    SegmentsNoSpan(t, k);
  }
}
