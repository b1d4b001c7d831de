/** Properties of the ruby-annotation parser modelled in module RubyParser:
    the shape of its output, the reconstruction of the input from it, the
    bounds on every segment's text, the trailing flush, and the behaviour
    on empty input and on input without markers.
 */
module RubyParserProperties {
  import opened RubyParser

  /** Neither kind of vertical bar occurs in `s`. */
  predicate NoBaseStart(s: string) {
    BAR !in s && FULLWIDTH_BAR !in s
  }

  /** The output reads (Plain Ruby)* followed by at most one Plain. */
  ghost predicate Alternates(out: seq<TextElement>) {
    forall k :: 0 <= k < |out| ==> (out[k].Plain? <==> k % 2 == 0)
  }

  /** Every plain run that precedes a ruby pair is free of bars; every base
      text is free of the opening bracket and every ruby text of the closing
      one.  Stray brackets may stay in plain runs. */
  ghost predicate SegmentBounds(out: seq<TextElement>) {
    forall k :: 0 <= k < |out| ==>
      match out[k]
      case Plain(t) => k + 1 < |out| ==> NoBaseStart(t)
      case Ruby(b, r) => RUBY_OPEN !in b && RUBY_CLOSE !in r
  }

  function RubyCount(out: seq<TextElement>): nat {
    if out == [] then 0
    else RubyCount(out[..|out| - 1]) + (if out[|out| - 1].Ruby? then 1 else 0)
  }

  /** Writes the segments back as source text; the k-th ruby pair is opened
      with `openers[k]`, since the output does not record which bar opened it. */
  function Render(out: seq<TextElement>, openers: seq<char>): string
    requires |openers| == RubyCount(out)
  {
    if out == [] then []
    else
      match out[|out| - 1]
      case Plain(t) => Render(out[..|out| - 1], openers) + t
      case Ruby(b, r) =>
        Render(out[..|out| - 1], openers[..|openers| - 1])
          + [openers[|openers| - 1]] + b + [RUBY_OPEN] + r + [RUBY_CLOSE]
  }

  ghost predicate AllBaseStart(openers: seq<char>) {
    forall k :: 0 <= k < |openers| ==> IsBaseStart(openers[k])
  }

  /** Writing `out` back, with some choice of bar for each span, gives `text`. */
  ghost predicate Renders(out: seq<TextElement>, text: string) {
    exists openers: seq<char> ::
      |openers| == RubyCount(out) && AllBaseStart(openers) && Render(out, openers) == text
  }

  lemma {:induction false} RenderAppendPlain(out: seq<TextElement>, openers: seq<char>, t: string)
    requires |openers| == RubyCount(out)
    ensures RubyCount(out + [Plain(t)]) == |openers|
    ensures Render(out + [Plain(t)], openers) == Render(out, openers) + t
  {
    assert (out + [Plain(t)])[..|out|] == out;
  }

  lemma {:induction false} RenderAppendSpan(out: seq<TextElement>, openers: seq<char>, t: string, o: char, b: string, r: string)
    requires |openers| == RubyCount(out)
    ensures RubyCount(out + [Plain(t), Ruby(b, r)]) == |openers| + 1
    ensures Render(out + [Plain(t), Ruby(b, r)], openers + [o])
         == Render(out, openers) + t + [o] + b + [RUBY_OPEN] + r + [RUBY_CLOSE]
  {
    var withPlain := out + [Plain(t)];
    assert (out + [Plain(t), Ruby(b, r)])[..|withPlain|] == withPlain;
    assert (openers + [o])[..|openers|] == openers;
    RenderAppendPlain(out, openers, t);
  }

  /** The segments pushed so far write back to the text up to and including
      the last closing bracket `last`. */
  ghost predicate Pushed(text: string, out: seq<TextElement>, last: int)
    requires DEFAULT_IDX <= last < |text|
  {
    |out| % 2 == 0 && Alternates(out) && SegmentBounds(out)
    && Renders(out, text[..last + 1])
    && (last == DEFAULT_IDX || text[last] == RUBY_CLOSE)
  }

  /** The text read since the last closing bracket is what state `st` has
      seen: no bar in Init; in InBase a bar opening a base with no `《` after
      it; in InRuby such a base closed by `《`, with no `》` after that. */
  ghost predicate Pending(text: string, n: nat, st: State, c: Cursors)
    requires n <= |text| && Reachable(st, c, n)
  {
    var p := c.lastRubyEndIdx + 1;
    match st
    case Init => NoBaseStart(text[p..n])
    case InBase =>
      NoBaseStart(text[p..c.baseStartIdx]) && IsBaseStart(text[c.baseStartIdx])
      && RUBY_OPEN !in text[c.baseStartIdx + 1..n]
    case InRuby =>
      NoBaseStart(text[p..c.baseStartIdx]) && IsBaseStart(text[c.baseStartIdx])
      && RUBY_OPEN !in text[c.baseStartIdx + 1..c.rubyStartIdx]
      && text[c.rubyStartIdx] == RUBY_OPEN
      && RUBY_CLOSE !in text[c.rubyStartIdx + 1..n]
  }

  /** What the first `n` characters have produced so far. */
  ghost predicate Scanned(text: string, n: nat, st: State, c: Cursors)
    requires n <= |text| && Reachable(st, c, n)
  {
    Pushed(text, c.elements, c.lastRubyEndIdx) && Pending(text, n, st, c)
  }

  /** Segments are only ever appended: one step keeps every segment pushed
      so far, in place. */
  lemma {:induction false} StepAppends(text: string, st: State, c: Cursors, i: nat)
    requires i < |text| && Reachable(st, c, i)
    ensures c.elements <= Step(text, st, c, i).1.elements
  {
    if st == InRuby && text[i] == RUBY_CLOSE {
      var plain := Plain(Slice(text, c.lastRubyEndIdx + 1, c.baseStartIdx));
      var ruby := Ruby(Slice(text, c.baseStartIdx + 1, c.rubyStartIdx), Slice(text, c.rubyStartIdx + 1, i));
      assert Step(text, st, c, i).1.elements == c.elements + [plain, ruby];
    }
  }

  /** A `》` read in InRuby always appends a plain run and a ruby pair, in
      that order, even when the plain run is empty: the guard
      `lastRubyEndIdx < i - 1` holds in every reachable InRuby configuration. */
  lemma {:induction false} SpanClose(text: string, c: Cursors, i: nat)
    requires i < |text| && text[i] == RUBY_CLOSE
    requires Reachable(InRuby, c, i)
    ensures Step(text, InRuby, c, i) == (Init, Cursors(
      c.elements + [Plain(text[c.lastRubyEndIdx + 1..c.baseStartIdx]),
                    Ruby(text[c.baseStartIdx + 1..c.rubyStartIdx], text[c.rubyStartIdx + 1..i])],
      DEFAULT_IDX, DEFAULT_IDX, i))
  {
    var plain := Plain(text[c.lastRubyEndIdx + 1..c.baseStartIdx]);
    var ruby := Ruby(text[c.baseStartIdx + 1..c.rubyStartIdx], text[c.rubyStartIdx + 1..i]);
    assert Table(InRuby, Classify(text[i])) == Transition(RubyEndAct, Init);
    assert c.elements + [plain] + [ruby] == c.elements + [plain, ruby];
  }

  /** The text up to a closing bracket at `n` is the text before the plain
      run, the plain run, and the span from its bar to that bracket. */
  lemma {:induction false} SpanTextSplit(text: string, p: nat, b: nat, r: nat, n: nat)
    requires p <= b < r < n < |text| && text[r] == RUBY_OPEN && text[n] == RUBY_CLOSE
    ensures text[..n + 1]
         == text[..p] + text[p..b] + [text[b]] + text[b + 1..r] + [RUBY_OPEN] + text[r + 1..n] + [RUBY_CLOSE]
  {
    assert text[..b] == text[..p] + text[p..b];
    assert text[..r] == text[..b] + [text[b]] + text[b + 1..r];
    assert text[..n] == text[..r] + [RUBY_OPEN] + text[r + 1..n];
    assert text[..n + 1] == text[..n] + [RUBY_CLOSE];
  }

  /** Appending a plain run and a ruby pair opened by a bar keeps the
      write-back property, the span being written back with that bar. */
  lemma {:induction false} RendersAppendSpan(out: seq<TextElement>, pre: string, t: string, o: char, b: string, r: string)
    requires Renders(out, pre) && IsBaseStart(o)
    ensures Renders(out + [Plain(t), Ruby(b, r)], pre + t + [o] + b + [RUBY_OPEN] + r + [RUBY_CLOSE])
  {
    var openers :| |openers| == RubyCount(out) && AllBaseStart(openers) && Render(out, openers) == pre;
    RenderAppendSpan(out, openers, t, o, b, r);
    var openers' := openers + [o];
    assert AllBaseStart(openers') by {
      forall k | 0 <= k < |openers'| ensures IsBaseStart(openers'[k]) {
        if k < |openers| {
          assert openers'[k] == openers[k];
        }
      }
    }
  }

  /** Appending a plain run free of bars and a ruby pair keeps the shape and
      the bounds of the output. */
  lemma {:induction false} ShapeAppendSpan(out: seq<TextElement>, plain: string, base: string, ruby: string)
    requires |out| % 2 == 0 && Alternates(out) && SegmentBounds(out)
    requires NoBaseStart(plain) && RUBY_OPEN !in base && RUBY_CLOSE !in ruby
    ensures var out' := out + [Plain(plain), Ruby(base, ruby)];
      |out'| % 2 == 0 && Alternates(out') && SegmentBounds(out')
  {
    var out' := out + [Plain(plain), Ruby(base, ruby)];
    forall k | 0 <= k < |out'|
      ensures match out'[k]
              case Plain(t) => k + 1 < |out'| ==> NoBaseStart(t)
              case Ruby(bt, rt) => RUBY_OPEN !in bt && RUBY_CLOSE !in rt
    {
      if k < |out| {
        assert out'[k] == out[k];
      }
    }
  }

  /** The write-back part of `ClosePushed`. */
  lemma {:induction false} CloseRenders(text: string, out: seq<TextElement>, p: nat, b: nat, r: nat, i: nat)
    requires p <= b < r < i < |text| && text[r] == RUBY_OPEN && text[i] == RUBY_CLOSE
    requires Renders(out, text[..p]) && IsBaseStart(text[b])
    ensures Renders(out + [Plain(text[p..b]), Ruby(text[b + 1..r], text[r + 1..i])], text[..i + 1])
  {
    SpanTextSplit(text, p, b, r, i);
    RendersAppendSpan(out, text[..p], text[p..b], text[b], text[b + 1..r], text[r + 1..i]);
  }

  /** Appending the plain run and the ruby pair of a span closed at `i`
      keeps `Pushed`, now up to `i`. */
  lemma {:induction false} ClosePushed(text: string, i: nat, c: Cursors)
    requires i < |text| && text[i] == RUBY_CLOSE
    requires Reachable(InRuby, c, i) && Scanned(text, i, InRuby, c)
    ensures Pushed(text, c.elements + [Plain(text[c.lastRubyEndIdx + 1..c.baseStartIdx]),
                                       Ruby(text[c.baseStartIdx + 1..c.rubyStartIdx], text[c.rubyStartIdx + 1..i])], i)
  {
    var p, b, r := c.lastRubyEndIdx + 1, c.baseStartIdx, c.rubyStartIdx;
    CloseRenders(text, c.elements, p, b, r, i);
    ShapeAppendSpan(c.elements, text[p..b], text[b + 1..r], text[r + 1..i]);
  }

  /** Reading the `n`-th character, a `》`, in InRuby closes the span and
      keeps `Scanned`. */
  lemma {:induction false} CloseScanned(text: string, n: nat, c: Cursors)
    requires 0 < n <= |text| && text[n - 1] == RUBY_CLOSE
    requires Reachable(InRuby, c, n - 1) && Scanned(text, n - 1, InRuby, c)
    ensures Scanned(text, n, Step(text, InRuby, c, n - 1).0, Step(text, InRuby, c, n - 1).1)
  {
    var i := n - 1;
    SpanClose(text, c, i);
    ClosePushed(text, i, c);
    assert text[i + 1..n] == [];
  }

  /** Reading the `n`-th character in Init keeps `Scanned`: a bar opens a
      base, anything else extends the bar-free text. */
  lemma {:induction false} InitStepScanned(text: string, n: nat, c: Cursors)
    requires 0 < n <= |text| && Reachable(Init, c, n - 1) && Scanned(text, n - 1, Init, c)
    ensures Scanned(text, n, Step(text, Init, c, n - 1).0, Step(text, Init, c, n - 1).1)
  {
    var i, p := n - 1, c.lastRubyEndIdx + 1;
    if IsBaseStart(text[i]) {
      assert Step(text, Init, c, i) == (InBase, c.(baseStartIdx := i));
      assert text[n..n] == [];
    } else {
      assert Step(text, Init, c, i) == (Init, c);
      assert text[p..n] == text[p..i] + [text[i]];
    }
  }

  /** Reading the `n`-th character in InBase keeps `Scanned`: `《` opens
      the ruby text, anything else extends the base. */
  lemma {:induction false} BaseStepScanned(text: string, n: nat, c: Cursors)
    requires 0 < n <= |text| && Reachable(InBase, c, n - 1) && Scanned(text, n - 1, InBase, c)
    ensures Scanned(text, n, Step(text, InBase, c, n - 1).0, Step(text, InBase, c, n - 1).1)
  {
    var i, b := n - 1, c.baseStartIdx;
    if text[i] == RUBY_OPEN {
      assert Step(text, InBase, c, i) == (InRuby, c.(rubyStartIdx := i));
      assert text[n..n] == [];
    } else {
      assert Step(text, InBase, c, i) == (InBase, c);
      assert text[b + 1..n] == text[b + 1..i] + [text[i]];
    }
  }

  /** Reading the `n`-th character in InRuby keeps `Scanned`: `》` closes
      the span, anything else extends the ruby text. */
  lemma {:induction false} RubyStepScanned(text: string, n: nat, c: Cursors)
    requires 0 < n <= |text| && Reachable(InRuby, c, n - 1) && Scanned(text, n - 1, InRuby, c)
    ensures Scanned(text, n, Step(text, InRuby, c, n - 1).0, Step(text, InRuby, c, n - 1).1)
  {
    var i, r := n - 1, c.rubyStartIdx;
    if text[i] == RUBY_CLOSE {
      CloseScanned(text, n, c);
    } else {
      assert Step(text, InRuby, c, i) == (InRuby, c);
      assert text[r + 1..n] == text[r + 1..i] + [text[i]];
    }
  }

  /** Reading the `n`-th character keeps `Scanned`, from any reachable
      configuration. */
  lemma {:induction false} StepKeepsScanned(text: string, n: nat, st: State, c: Cursors)
    requires 0 < n <= |text| && Reachable(st, c, n - 1) && Scanned(text, n - 1, st, c)
    ensures Scanned(text, n, Step(text, st, c, n - 1).0, Step(text, st, c, n - 1).1)
  {
    match st
    case Init => InitStepScanned(text, n, c);
    case InBase => BaseStepScanned(text, n, c);
    case InRuby => RubyStepScanned(text, n, c);
  }

  /** Reading one more character keeps `Scanned`. */
  lemma {:induction false} StepScanned(text: string, n: nat)
    requires 0 < n <= |text| && Scanned(text, n - 1, Run(text, n - 1).0, Run(text, n - 1).1)
    ensures Scanned(text, n, Run(text, n).0, Run(text, n).1)
  {
    StepKeepsScanned(text, n, Run(text, n - 1).0, Run(text, n - 1).1);
  }

  /** Before any character is read, nothing is pushed and nothing pending. */
  lemma {:induction false} InitialScanned(text: string)
    ensures Scanned(text, 0, Run(text, 0).0, Run(text, 0).1)
  {
    assert Run(text, 0) == (Init, INIT_PROPS);
    assert Render([], []) == text[..0];
  }

  /** Every configuration the parser reaches satisfies `Scanned`. */
  lemma {:induction false} RunScanned(text: string, n: nat)
    requires n <= |text|
    ensures Scanned(text, n, Run(text, n).0, Run(text, n).1)
  {
    if n == 0 {
      InitialScanned(text);
    } else {
      RunScanned(text, n - 1);
      StepScanned(text, n);
    }
  }

  /** The configuration after the whole text has been read satisfies
      `Scanned`. */
  lemma {:induction false} FinalScanned(text: string)
    ensures var (st, c) := Run(text, |text|);
      Pushed(text, c.elements, c.lastRubyEndIdx) && Pending(text, |text|, st, c)
  {
    RunScanned(text, |text|);
  }

  /** The flush from a configuration that pushed `out` and last closed a
      span at `last`: the rest after `last` when there is any. */
  lemma {:induction false} FlushFrom(text: string, c: Cursors)
    requires DEFAULT_IDX <= c.lastRubyEndIdx < |text|
    ensures Flush(text, c)
         == c.elements + if c.lastRubyEndIdx + 1 < |text| then [Plain(text[c.lastRubyEndIdx + 1..])] else []
  {
    var k := c.lastRubyEndIdx + 1;
    if k < |text| {
      assert text[k..|text|] == text[k..];
    } else {
      assert c.elements + [] == c.elements;
    }
  }

  /** Appending a plain run keeps the write-back property. */
  lemma {:induction false} RendersAppendPlain(out: seq<TextElement>, pre: string, t: string)
    requires Renders(out, pre)
    ensures Renders(out + [Plain(t)], pre + t)
  {
    var openers :| |openers| == RubyCount(out) && AllBaseStart(openers) && Render(out, openers) == pre;
    RenderAppendPlain(out, openers, t);
  }

  /** A plain run appended after complete pairs keeps the alternation. */
  lemma {:induction false} AlternatesAppendPlain(out: seq<TextElement>, t: string)
    requires |out| % 2 == 0 && Alternates(out)
    ensures Alternates(out + [Plain(t)])
  {
    var out' := out + [Plain(t)];
    forall k | 0 <= k < |out'| ensures out'[k].Plain? <==> k % 2 == 0 {
      if k < |out| {
        assert out'[k] == out[k];
      }
    }
  }

  /** The flush completes the write-back of the pushed segments to the whole
      text, keeping the shape. */
  lemma {:induction false} FlushRenders(text: string, c: Cursors)
    requires DEFAULT_IDX <= c.lastRubyEndIdx < |text|
    requires Pushed(text, c.elements, c.lastRubyEndIdx)
    ensures Alternates(Flush(text, c)) && Renders(Flush(text, c), text)
  {
    var p := c.lastRubyEndIdx + 1;
    if c.lastRubyEndIdx != |text| - 1 {
      var t := text[p..];
      FlushFrom(text, c);
      RendersAppendPlain(c.elements, text[..p], t);
      assert text[..p] + t == text;
      AlternatesAppendPlain(c.elements, t);
    } else {
      assert text[..p] == text;
    }
  }

  /** The flush keeps the segment bounds: the run it appends is the last
      segment, so nothing is required of it. */
  lemma {:induction false} FlushBounds(text: string, c: Cursors)
    requires DEFAULT_IDX <= c.lastRubyEndIdx < |text|
    requires Pushed(text, c.elements, c.lastRubyEndIdx)
    ensures SegmentBounds(Flush(text, c))
  {
    var out := Flush(text, c);
    forall k | 0 <= k < |out|
      ensures match out[k]
              case Plain(t) => k + 1 < |out| ==> NoBaseStart(t)
              case Ruby(b, r) => RUBY_OPEN !in b && RUBY_CLOSE !in r
    {
      if k < |c.elements| {
        assert out[k] == c.elements[k];
      }
    }
  }

  /** Output shape and write-back: `parse` returns (Plain Ruby)* followed by
      at most one Plain, and writing every segment back in order, each ruby
      pair as its own bar + base + `《` + ruby + `》`, gives the input exactly. */
  lemma {:induction false} ParseReconstructs(text: string)
    ensures Alternates(ParseSpec(text))
    ensures Renders(ParseSpec(text), text)
  {
    FinalScanned(text);
    FlushRenders(text, Run(text, |text|).1);
  }

  /** Segment bounds: every base text stops before the first `《` after its
      bar, every ruby text before the first `》` after that, and every plain
      run that precedes a span holds no bar (stray brackets may stay). */
  lemma {:induction false} ParseSegmentBounds(text: string)
    ensures SegmentBounds(ParseSpec(text))
  {
    FinalScanned(text);
    FlushBounds(text, Run(text, |text|).1);
  }

  /** The last character of `text` is the `》` that closes a span. */
  ghost predicate EndsWithSpanClose(text: string) {
    |text| > 0 && text[|text| - 1] == RUBY_CLOSE && Run(text, |text| - 1).0 == InRuby
  }

  /** One step records index `i` as the last closing index exactly when it
      reads a `》` in InRuby. */
  lemma {:induction false} StepCloses(text: string, st: State, c: Cursors, i: nat)
    requires i < |text| && Reachable(st, c, i)
    ensures Step(text, st, c, i).1.lastRubyEndIdx == i <==> text[i] == RUBY_CLOSE && st == InRuby
  {
    if text[i] == RUBY_CLOSE && st == InRuby {
      SpanClose(text, c, i);
    } else {
      assert Step(text, st, c, i).1.lastRubyEndIdx == c.lastRubyEndIdx;
    }
  }

  /** The last character closes a span exactly when the last closing index
      is the last index. */
  lemma {:induction false} LastCloseAtEnd(text: string)
    requires |text| > 0
    ensures Run(text, |text|).1.lastRubyEndIdx == |text| - 1 <==> EndsWithSpanClose(text)
  {
    StepCloses(text, Run(text, |text| - 1).0, Run(text, |text| - 1).1, |text| - 1);
  }

  /** What the flush appends: a run exactly when the last closing index is
      not the last index, and then everything after that closing `》`. */
  lemma {:induction false} FlushTrailing(text: string, c: Cursors)
    requires DEFAULT_IDX <= c.lastRubyEndIdx < |text|
    requires Pushed(text, c.elements, c.lastRubyEndIdx)
    ensures var out := Flush(text, c);
      |out| % 2 == 1 <==> c.lastRubyEndIdx != |text| - 1
    ensures var out := Flush(text, c);
      |out| % 2 == 1 ==>
        var t := out[|out| - 1].plainText;
        t != [] && t == text[|text| - |t|..] && (|t| < |text| ==> text[|text| - |t| - 1] == RUBY_CLOSE)
    ensures var out := Flush(text, c);
      |out| % 2 == 1 ==> out[|out| - 1] == Plain(text[c.lastRubyEndIdx + 1..])
  {
    var p := c.lastRubyEndIdx + 1;
    if c.lastRubyEndIdx != |text| - 1 {
      assert Slice(text, p, |text|) == text[p..];
    }
  }

  /** Trailing flush: a last plain run is appended exactly when the input is
      non-empty and does not end with the `》` of a span; it is then non-empty
      and is everything after the last closed span, dangling markers
      included, verbatim. */
  lemma {:induction false} TrailingFlush(text: string)
    ensures var out := ParseSpec(text);
      |out| % 2 == 1 <==> |text| > 0 && !EndsWithSpanClose(text)
    ensures var out := ParseSpec(text);
      |out| % 2 == 1 ==>
        var t := out[|out| - 1].plainText;
        t != [] && t == text[|text| - |t|..] && (|t| < |text| ==> text[|text| - |t| - 1] == RUBY_CLOSE)
    ensures var out := ParseSpec(text);
      |out| % 2 == 1 ==> out[|out| - 1] == Plain(text[Run(text, |text|).1.lastRubyEndIdx + 1..])
  {
    var c := Run(text, |text|).1;
    FinalScanned(text);
    assert Pushed(text, c.elements, c.lastRubyEndIdx);
    FlushTrailing(text, c);
    assert ParseSpec(text) == Flush(text, c);
    if |text| > 0 {
      LastCloseAtEnd(text);
    }
  }

  /** Empty input: `parse("")` returns no segment. */
  lemma {:induction false} ParseEmpty()
    ensures ParseSpec([]) == []
  {
  }

  /** From a state `st`, the characters that leave the configuration
      untouched: everything but a bar in Init, everything but `《` in InBase,
      everything but `》` in InRuby. */
  predicate Quiet(st: State, s: string) {
    match st
    case Init => NoBaseStart(s)
    case InBase => RUBY_OPEN !in s
    case InRuby => RUBY_CLOSE !in s
  }

  /** A quiet first character leaves the configuration as it is, and the
      rest stays quiet. */
  lemma {:induction false} QuietStep(text: string, st: State, c: Cursors, n: nat, m: nat)
    requires n < m <= |text| && Reachable(st, c, n) && Quiet(st, text[n..m])
    ensures Step(text, st, c, n) == (st, c) && Quiet(st, text[n + 1..m])
  {
    assert text[n] == text[n..m][0];
    assert text[n + 1..m] == text[n..m][1..];
  }

  /** Reading characters that are quiet for the current state changes
      neither the state nor the cursors nor the output. */
  lemma {:induction false} RunQuiet(text: string, n: nat, m: nat)
    requires n <= m <= |text|
    requires Quiet(Run(text, n).0, text[n..m])
    ensures Run(text, m) == Run(text, n)
    decreases m - n
  {
    if n < m {
      QuietStep(text, Run(text, n).0, Run(text, n).1, n, m);
      RunQuiet(text, n + 1, m);
    }
  }

  /** Plain passthrough: a non-empty input without any bar comes back as
      one plain run holding the whole input, stray brackets included. */
  lemma {:induction false} ParsePlainPassthrough(text: string)
    requires |text| > 0 && NoBaseStart(text)
    ensures ParseSpec(text) == [Plain(text)]
  {
    assert text[0..|text|] == text;
    RunQuiet(text, 0, |text|);
  }
}
