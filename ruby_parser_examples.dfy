/** The parser on concrete shapes of paragraph: prose without markers
    (the repository's unit test), stray brackets, one span with prose around
    it, two spans back to back, a second bar inside a base, and a span left
    open.  Two of them show behaviour worth knowing: an empty plain run
    before a span that starts the text or follows another span (the guard at
    lib/rubyParser.ts:75 tests indices, and the comment at line 74 names the
    non-empty test that was not used), and the markers of a dangling span
    kept in the final plain run.  The lemmas go through the leftmost
    segmentation of module RubyParserReference, which the parser is proved
    to compute.
 */
module RubyParserExamples {
  import opened RubyParser
  import opened RubyParserProperties
  import opened RubyParserReference

  /** The start of a span: a bar, a base text and `《`. */
  function BaseOpening(o: char, base: string): string {
    [o] + base + [RUBY_OPEN]
  }

  /** A whole span: its start, the ruby text and `》`. */
  function SpanText(o: char, base: string, ruby: string): string {
    BaseOpening(o, base) + ruby + [RUBY_CLOSE]
  }

  /** The prose before and after a middle part `s` of a text. */
  lemma {:induction false} Around(pre: string, s: string, post: string)
    ensures (pre + s + post)[..|pre|] == pre && (pre + s + post)[|pre| + |s|..] == post
  {
    assert (pre + s + post)[..|pre|] == (pre + s)[..|pre|];
  }

  /** A slice of the middle part `s` of a text. */
  lemma {:induction false} Embedded(pre: string, s: string, post: string, k: nat, l: nat)
    requires k <= l <= |s|
    ensures (pre + s + post)[|pre| + k..|pre| + l] == s[k..l]
  {
    assert (pre + s + post)[|pre| + k..|pre| + l] == (pre + s)[|pre| + k..|pre| + l];
  }

  /** The characters of the start of a span. */
  lemma {:induction false} OpeningPieces(o: char, base: string)
    ensures var h := BaseOpening(o, base);
      |h| == |base| + 2 && h[0] == o && h[1..|base| + 1] == base && h[|base| + 1] == RUBY_OPEN
  {
    Embedded([o], base, [RUBY_OPEN], 0, |base|);
    assert base[0..|base|] == base;
  }

  /** The characters of a whole span. */
  lemma {:induction false} SpanTextPieces(o: char, base: string, ruby: string)
    ensures var s := SpanText(o, base, ruby);
      var r := |base| + 1;
      |s| == r + |ruby| + 2 && s[0] == o && s[1..r] == base && s[r] == RUBY_OPEN
      && s[r + 1..r + 1 + |ruby|] == ruby && s[r + 1 + |ruby|] == RUBY_CLOSE
  {
    var h := BaseOpening(o, base);
    OpeningPieces(o, base);
    Embedded(h, ruby, [RUBY_CLOSE], 0, |ruby|);
    assert ruby[0..|ruby|] == ruby;
    assert (h + ruby + [RUBY_CLOSE])[1..|base| + 1] == (h + ruby)[1..|base| + 1] == h[1..|base| + 1];
  }

  /** The pieces of `pre + SpanText(o, base, ruby) + post`, by index. */
  lemma {:induction false} SpanPieces(pre: string, o: char, base: string, ruby: string, post: string)
    ensures var t := pre + SpanText(o, base, ruby) + post;
      var b := |pre|;
      var r := b + 1 + |base|;
      var e := r + 1 + |ruby|;
      e < |t| && t[..b] == pre && t[b] == o && t[b + 1..r] == base && t[r] == RUBY_OPEN
      && t[r + 1..e] == ruby && t[e] == RUBY_CLOSE && t[e + 1..] == post
  {
    var s := SpanText(o, base, ruby);
    SpanTextPieces(o, base, ruby);
    Around(pre, s, post);
    Embedded(pre, s, post, 1, |base| + 1);
    Embedded(pre, s, post, |base| + 2, |base| + 2 + |ruby|);
  }

  /** One span `t[b..e + 1]` with bar-free prose before and after it, by
      index: the segmentation. */
  lemma {:induction false} SegmentsOneSpanAt(t: string, b: nat, r: nat, e: nat)
    requires b < r < e < |t| && NoBaseStart(t[..b]) && IsBaseStart(t[b])
    requires RUBY_OPEN !in t[b + 1..r] && t[r] == RUBY_OPEN
    requires RUBY_CLOSE !in t[r + 1..e] && t[e] == RUBY_CLOSE && NoBaseStart(t[e + 1..])
    ensures Segments(t, 0)
         == [Plain(t[..b]), Ruby(t[b + 1..r], t[r + 1..e])] + if e + 1 < |t| then [Plain(t[e + 1..])] else []
  {
    var rest := if e + 1 < |t| then [Plain(t[e + 1..])] else [];
    SegmentsNoBar(t, e + 1);
    SegmentsFirstSpanThen(t, b, r, e, rest);
  }

  /** A first span `t[b..e + 1]` followed by a known segmentation of the
      rest. */
  lemma {:induction false} SegmentsFirstSpanThen(t: string, b: nat, r: nat, e: nat, rest: seq<TextElement>)
    requires b < r < e < |t| && NoBaseStart(t[..b]) && IsBaseStart(t[b])
    requires RUBY_OPEN !in t[b + 1..r] && t[r] == RUBY_OPEN
    requires RUBY_CLOSE !in t[r + 1..e] && t[e] == RUBY_CLOSE
    requires Segments(t, e + 1) == rest
    ensures Segments(t, 0) == [Plain(t[..b]), Ruby(t[b + 1..r], t[r + 1..e])] + rest
  {
    assert t[0..b] == t[..b];
    SegmentsSpan(t, 0, b, r, e);
  }

  /** One span `t[b..e + 1]` with bar-free prose before and after it, by
      index: the output. */
  lemma {:induction false} ParseOneSpanAt(t: string, b: nat, r: nat, e: nat)
    requires b < r < e < |t| && NoBaseStart(t[..b]) && IsBaseStart(t[b])
    requires RUBY_OPEN !in t[b + 1..r] && t[r] == RUBY_OPEN
    requires RUBY_CLOSE !in t[r + 1..e] && t[e] == RUBY_CLOSE && NoBaseStart(t[e + 1..])
    ensures ParseSpec(t)
         == [Plain(t[..b]), Ruby(t[b + 1..r], t[r + 1..e])] + if e + 1 < |t| then [Plain(t[e + 1..])] else []
  {
    ParseIsSegments(t);
    SegmentsOneSpanAt(t, b, r, e);
  }

  /** One span with prose before and after it: the prose before is pushed
      as a plain run, even when empty; the prose after is flushed when
      non-empty. */
  lemma {:induction false} OneSpan(pre: string, o: char, base: string, ruby: string, post: string)
    requires NoBaseStart(pre) && IsBaseStart(o) && RUBY_OPEN !in base && RUBY_CLOSE !in ruby
    requires NoBaseStart(post)
    ensures ParseSpec(pre + SpanText(o, base, ruby) + post)
         == [Plain(pre), Ruby(base, ruby)] + if post == [] then [] else [Plain(post)]
  {
    SpanPieces(pre, o, base, ruby, post);
    ParseOneSpanAt(pre + SpanText(o, base, ruby) + post, |pre|, |pre| + 1 + |base|, |pre| + 1 + |base| + 1 + |ruby|);
  }

  /** A span that ends the text right after the boundary `b`, by index. */
  lemma {:induction false} SegmentsLastSpanAt(t: string, b: nat, r: nat, e: nat)
    requires b < r < e == |t| - 1 && IsBaseStart(t[b]) && RUBY_OPEN !in t[b + 1..r] && t[r] == RUBY_OPEN
    requires RUBY_CLOSE !in t[r + 1..e] && t[e] == RUBY_CLOSE
    ensures Segments(t, b) == [Plain([]), Ruby(t[b + 1..r], t[r + 1..e])]
  {
    assert t[b..b] == [];
    SegmentsSpan(t, b, b, r, e);
    SegmentsNoBar(t, |t|);
  }

  /** Two adjacent spans `t[b1..e1 + 1]` and `t[e1 + 1..]`, by index:
      the segmentation from `b1`. */
  lemma {:induction false} SegmentsTwoSpansAt(t: string, b1: nat, r1: nat, e1: nat, r2: nat, e2: nat)
    requires b1 < r1 < e1 && e1 + 1 < r2 < e2 == |t| - 1
    requires IsBaseStart(t[b1]) && RUBY_OPEN !in t[b1 + 1..r1] && t[r1] == RUBY_OPEN
    requires RUBY_CLOSE !in t[r1 + 1..e1] && t[e1] == RUBY_CLOSE
    requires IsBaseStart(t[e1 + 1]) && RUBY_OPEN !in t[e1 + 1 + 1..r2] && t[r2] == RUBY_OPEN
    requires RUBY_CLOSE !in t[r2 + 1..e2] && t[e2] == RUBY_CLOSE
    ensures Segments(t, b1)
         == [Plain([]), Ruby(t[b1 + 1..r1], t[r1 + 1..e1]), Plain([]), Ruby(t[e1 + 1 + 1..r2], t[r2 + 1..e2])]
  {
    var second := [Plain([]), Ruby(t[e1 + 1 + 1..r2], t[r2 + 1..e2])];
    SegmentsLastSpanAt(t, e1 + 1, r2, e2);
    SegmentsSpanThen(t, b1, r1, e1, second);
    PrependPair(Plain([]), Ruby(t[b1 + 1..r1], t[r1 + 1..e1]), second, second[0], second[1]);
  }

  /** A span right at `b` followed by a known segmentation of the rest. */
  lemma {:induction false} SegmentsSpanThen(t: string, b: nat, r: nat, e: nat, rest: seq<TextElement>)
    requires b < r < e < |t| && IsBaseStart(t[b]) && RUBY_OPEN !in t[b + 1..r] && t[r] == RUBY_OPEN
    requires RUBY_CLOSE !in t[r + 1..e] && t[e] == RUBY_CLOSE
    requires Segments(t, e + 1) == rest
    ensures Segments(t, b) == [Plain([]), Ruby(t[b + 1..r], t[r + 1..e])] + rest
  {
    assert t[b..b] == [];
    SegmentsSpan(t, b, b, r, e);
  }

  /** A two-element prefix in front of a two-element sequence. */
  lemma PrependPair<T>(x: T, y: T, s: seq<T>, u: T, v: T)
    requires s == [u, v]
    ensures [x, y] + s == [x, y, u, v]
  {
  }

  /** Two spans with nothing between them, by index: the output. */
  lemma {:induction false} ParseTwoSpansAt(t: string, r1: nat, e1: nat, r2: nat, e2: nat,
                                           base1: string, ruby1: string, base2: string, ruby2: string)
    requires 0 < r1 < e1 && e1 + 1 < r2 < e2 == |t| - 1
    requires IsBaseStart(t[0]) && t[1..r1] == base1 && RUBY_OPEN !in base1 && t[r1] == RUBY_OPEN
    requires t[r1 + 1..e1] == ruby1 && RUBY_CLOSE !in ruby1 && t[e1] == RUBY_CLOSE
    requires IsBaseStart(t[e1 + 1]) && t[e1 + 2..r2] == base2 && RUBY_OPEN !in base2 && t[r2] == RUBY_OPEN
    requires t[r2 + 1..e2] == ruby2 && RUBY_CLOSE !in ruby2 && t[e2] == RUBY_CLOSE
    ensures ParseSpec(t) == [Plain([]), Ruby(base1, ruby1), Plain([]), Ruby(base2, ruby2)]
  {
    ParseIsSegments(t);
    SegmentsTwoSpansAt(t, 0, r1, e1, r2, e2);
  }

  /** A slice inside the first part of a concatenation. */
  lemma {:induction false} InPrefix(s: string, s2: string, i: nat, j: nat)
    requires i <= j <= |s|
    ensures (s + s2)[i..j] == s[i..j]
  {
    assert (s + s2)[i..j] == (s + s2)[..|s|][i..j];
  }

  /** The first of two adjacent spans, by index: its length and the
      facts about it that the segmentation needs. */
  lemma {:induction false} FirstOfTwoPieces(o1: char, base1: string, ruby1: string, s2: string)
    ensures var t := SpanText(o1, base1, ruby1) + s2;
      var r1 := |base1| + 1;
      var e1 := r1 + 1 + |ruby1|;
      |SpanText(o1, base1, ruby1)| == e1 + 1 && e1 < |t|
      && t[0] == o1 && t[1..r1] == base1 && t[r1] == RUBY_OPEN
      && t[r1 + 1..e1] == ruby1 && t[e1] == RUBY_CLOSE
  {
    var s := SpanText(o1, base1, ruby1);
    SpanTextPieces(o1, base1, ruby1);
    InPrefix(s, s2, 1, |base1| + 1);
    InPrefix(s, s2, |base1| + 2, |base1| + 2 + |ruby1|);
  }

  /** The second of two adjacent spans, which starts at `e1 + 1`, by
      index: the facts about it that the segmentation needs. */
  lemma {:induction false} SecondOfTwoPieces(s1: string, e1: nat, o2: char, base2: string, ruby2: string)
    requires |s1| == e1 + 1
    ensures var t := s1 + SpanText(o2, base2, ruby2);
      var r2 := e1 + 2 + |base2|;
      var e2 := r2 + 1 + |ruby2|;
      e1 + 1 < r2 < e2 == |t| - 1 && t[e1 + 1] == o2 && t[e1 + 2..r2] == base2 && t[r2] == RUBY_OPEN
      && t[r2 + 1..e2] == ruby2 && t[e2] == RUBY_CLOSE
  {
    SpanPieces(s1, o2, base2, ruby2, []);
    assert s1 + SpanText(o2, base2, ruby2) + [] == s1 + SpanText(o2, base2, ruby2);
  }

  /** Two spans with nothing between them: the code pushes an empty plain
      run before each of them. */
  lemma {:induction false} BackToBackSpans(o1: char, base1: string, ruby1: string, o2: char, base2: string, ruby2: string)
    requires IsBaseStart(o1) && RUBY_OPEN !in base1 && RUBY_CLOSE !in ruby1
    requires IsBaseStart(o2) && RUBY_OPEN !in base2 && RUBY_CLOSE !in ruby2
    ensures ParseSpec(SpanText(o1, base1, ruby1) + SpanText(o2, base2, ruby2))
         == [Plain([]), Ruby(base1, ruby1), Plain([]), Ruby(base2, ruby2)]
  {
    var s1 := SpanText(o1, base1, ruby1);
    var s2 := SpanText(o2, base2, ruby2);
    var r1 := |base1| + 1;
    var e1 := r1 + 1 + |ruby1|;
    var r2 := e1 + 2 + |base2|;
    FirstOfTwoPieces(o1, base1, ruby1, s2);
    SecondOfTwoPieces(s1, e1, o2, base2, ruby2);
    ParseTwoSpansAt(s1 + s2, r1, e1, r2, r2 + 1 + |ruby2|, base1, ruby1, base2, ruby2);
  }

  /** A span left open at `b` (bar) and `r` (`《`), by index: the text comes
      back whole as one plain run. */
  lemma {:induction false} ParseDanglingAt(t: string, b: nat, r: nat)
    requires b < r < |t| && NoBaseStart(t[..b])
    requires IsBaseStart(t[b]) && RUBY_OPEN !in t[b + 1..r] && t[r] == RUBY_OPEN && RUBY_CLOSE !in t[r + 1..]
    ensures ParseSpec(t) == [Plain(t)]
  {
    assert t[0..b] == t[..b];
    ParseIsSegments(t);
    SegmentsUnclosed(t, 0, b, r);
    assert t[0..] == t;
  }

  /** A span whose `》` never comes is not dropped: the whole paragraph,
      markers included, comes back as one plain run. */
  lemma {:induction false} DanglingSpan(pre: string, o: char, base: string, ruby: string)
    requires NoBaseStart(pre) && IsBaseStart(o) && RUBY_OPEN !in base && RUBY_CLOSE !in ruby
    ensures ParseSpec(pre + BaseOpening(o, base) + ruby) == [Plain(pre + BaseOpening(o, base) + ruby)]
  {
    var h := BaseOpening(o, base);
    OpeningPieces(o, base);
    Around(pre, h, ruby);
    Embedded(pre, h, ruby, 1, |base| + 1);
    ParseDanglingAt(pre + h + ruby, |pre|, |pre| + |base| + 1);
  }

  /** The unit test: a paragraph without markers is one plain run. */
  lemma {:induction false} CoolBeans()
    ensures ParseSpec("Cool beans.") == [Plain("Cool beans.")]
  {
    ParsePlainPassthrough("Cool beans.");
  }

  /** Brackets without a bar before them are ordinary prose. */
  lemma {:induction false} StrayBrackets(t: string)
    requires t == "ルビではなく《ただのかっこ》です"
    ensures ParseSpec(t) == [Plain("ルビではなく《ただのかっこ》です")]
  {
    ParsePlainPassthrough(t);
  }

  /** A span at the very start of the paragraph is preceded by an empty
      plain run. */
  lemma {:induction false} BasicSpan(t: string)
    requires t == "|明日《あした》"
    ensures ParseSpec(t) == [Plain(""), Ruby("明日", "あした")]
  {
    OneSpan("", '|', "明日", "あした", "");
    assert "" + SpanText('|', "明日", "あした") + "" == t;
  }

  /** Prose, a span, prose. */
  lemma {:induction false} MixedText(t: string)
    requires t == "それでは" + "|明日《あした》" + "お会いしましょう"
    ensures ParseSpec(t) == [Plain("それでは"), Ruby("明日", "あした"), Plain("お会いしましょう")]
  {
    OneSpan("それでは", '|', "明日", "あした", "お会いしましょう");
    assert SpanText('|', "明日", "あした") == "|明日《あした》";
    assert [Plain("それでは"), Ruby("明日", "あした")] + [Plain("お会いしましょう")]
        == [Plain("それでは"), Ruby("明日", "あした"), Plain("お会いしましょう")];
  }

  /** Two adjacent spans, opened by the two kinds of bar: an empty plain
      run is pushed before each. */
  lemma {:induction false} BackToBack(t: string)
    requires t == "|天上天下《てんじょうげんげ》" + "｜唯我独尊《ゆいがどくそん》"
    ensures ParseSpec(t) == [Plain(""), Ruby("天上天下", "てんじょうげんげ"), Plain(""), Ruby("唯我独尊", "ゆいがどくそん")]
  {
    BackToBackText();
    BackToBackSpans('|', "天上天下", "てんじょうげんげ", '｜', "唯我独尊", "ゆいがどくそん");
  }

  /** The text of the two adjacent spans, written out. */
  lemma {:induction false} BackToBackText()
    ensures SpanText('|', "天上天下", "てんじょうげんげ") + SpanText('｜', "唯我独尊", "ゆいがどくそん")
         == "|天上天下《てんじょうげんげ》" + "｜唯我独尊《ゆいがどくそん》"
  {
    assert SpanText('|', "天上天下", "てんじょうげんげ") == "|天上天下《てんじょうげんげ》";
    assert SpanText('｜', "唯我独尊", "ゆいがどくそん") == "｜唯我独尊《ゆいがどくそん》";
  }

  /** A second bar right after the first does not open a new span: it
      is part of the base text. */
  lemma {:induction false} RedundantBaseStart(o1: char, o2: char, base: string, ruby: string)
    requires IsBaseStart(o1) && IsBaseStart(o2) && RUBY_OPEN !in base && RUBY_CLOSE !in ruby
    ensures ParseSpec(SpanText(o1, [o2] + base, ruby)) == [Plain([]), Ruby([o2] + base, ruby)]
  {
    OneSpan([], o1, [o2] + base, ruby, []);
    assert [] + SpanText(o1, [o2] + base, ruby) + [] == SpanText(o1, [o2] + base, ruby);
  }

  /** An unclosed span at the end stays in the flushed run, verbatim. */
  lemma {:induction false} DanglingAtEnd(t: string)
    requires t == "続きは|明日《あし"
    ensures ParseSpec(t) == [Plain("続きは|明日《あし")]
  {
    DanglingSpan("続きは", '|', "明日", "あし");
    assert "続きは" + BaseOpening('|', "明日") + "あし" == t;
  }
}
