/** A model of the ruby-annotation parser of lib/rubyParser.ts.

    The parser scans one paragraph character by character with a three-state
    automaton.  Its working memory is a mutable record (`Props`) holding the
    list of finished segments and three cursor indices; the three actions
    update the cursors in place and push PLAIN and RUBY segments.

    The model keeps that imperative shape (`Props` is a class, the actions are
    methods that modify it, `Parse` is a loop) and specifies it by a pure
    left fold (`Step`, `Run`, `ParseSpec`) whose properties are proved in
    module RubyParserProperties.  The guards that make the source throw become
    the actions' preconditions, and the invariant `Reachable` that `Run`
    establishes proves that none of them can fire.
 */
module RubyParser {

  /** The sentinel for "no index recorded". */
  const DEFAULT_IDX: int := -1

  /** The ASCII and the fullwidth vertical bar both open a base span. */
  const BAR: char := '|'
  const FULLWIDTH_BAR: char := '｜'
  /** The double angle brackets open and close the ruby text. */
  const RUBY_OPEN: char := '《'
  const RUBY_CLOSE: char := '》'

  /** An output segment: a plain run, or a base text with its ruby gloss. */
  datatype TextElement =
    | Plain(plainText: string)
    | Ruby(baseText: string, rubyText: string)

  /** The type guard of the source: a segment is plain exactly when it is
      not a ruby pair. */
  predicate IsPlain(e: TextElement)
    ensures IsPlain(e) <==> !e.Ruby?
  {
    e.Plain?
  }

  predicate IsBaseStart(c: char) {
    c == BAR || c == FULLWIDTH_BAR
  }

  /** The keys of a state table: the four markers, and OTHERS for every other
      character. */
  datatype Marker = BaseStartMarker | RubyStartMarker | RubyEndMarker | Others

  /** The `char in state` lookup: which row of a state table a character uses. */
  function Classify(c: char): (m: Marker)
    ensures m == BaseStartMarker <==> IsBaseStart(c)
    ensures m == RubyStartMarker <==> c == RUBY_OPEN
    ensures m == RubyEndMarker <==> c == RUBY_CLOSE
  {
    if IsBaseStart(c) then BaseStartMarker
    else if c == RUBY_OPEN then RubyStartMarker
    else if c == RUBY_CLOSE then RubyEndMarker
    else Others
  }

  /** The three states of the automaton. */
  datatype State = Init | InBase | InRuby

  datatype Action = NoOp | BaseStartAct | RubyStartAct | RubyEndAct

  datatype Transition = Transition(action: Action, nextState: State)

  /** The three state tables, after all their `nextState` entries have been
      patched: every entry names a real state, so DUMMY_STATE never occurs.
      Exactly the three non-trivial actions move the automaton, each from the
      one state it belongs to; every no-op keeps the state. */
  function Table(s: State, m: Marker): (t: Transition)
    ensures t.action == NoOp <==> t.nextState == s
    ensures t.action == BaseStartAct <==> s == Init && m == BaseStartMarker
    ensures t.action == RubyStartAct <==> s == InBase && m == RubyStartMarker
    ensures t.action == RubyEndAct <==> s == InRuby && m == RubyEndMarker
    ensures t.action == BaseStartAct ==> t.nextState == InBase
    ensures t.action == RubyStartAct ==> t.nextState == InRuby
    ensures t.action == RubyEndAct ==> t.nextState == Init
  {
    match s
    case Init =>
      if m == BaseStartMarker then Transition(BaseStartAct, InBase) else Transition(NoOp, Init)
    case InBase =>
      if m == RubyStartMarker then Transition(RubyStartAct, InRuby) else Transition(NoOp, InBase)
    case InRuby =>
      if m == RubyEndMarker then Transition(RubyEndAct, Init) else Transition(NoOp, InRuby)
  }

  /** An index argument of JavaScript's `String.prototype.slice`: a negative
      index counts from the end, and the result is clamped to [0, len]. */
  function SliceIndex(k: int, len: nat): (r: nat)
    ensures r <= len
    ensures 0 <= k <= len ==> r == k
  {
    if k < 0 then (if len + k < 0 then 0 else len + k)
    else if k > len then len
    else k
  }

  /** `s.slice(start, end)`: empty when the clamped start is not before the
      clamped end. */
  function Slice(s: string, start: int, end: int): (r: string)
    ensures 0 <= start <= end <= |s| ==> r == s[start..end]
    ensures |r| <= |s|
  {
    var from := SliceIndex(start, |s|);
    var to := SliceIndex(end, |s|);
    if from < to then s[from..to] else []
  }

  /** The value of a `Props` record. */
  datatype Cursors = Cursors(
    elements: seq<TextElement>,
    baseStartIdx: int,
    rubyStartIdx: int,
    lastRubyEndIdx: int)

  const INIT_PROPS: Cursors := Cursors([], DEFAULT_IDX, DEFAULT_IDX, DEFAULT_IDX)

  /** The effect of baseStartAction; its requires are the two throw guards. */
  function BaseStartEffect(c: Cursors, i: int): Cursors
    requires c.baseStartIdx == DEFAULT_IDX && c.rubyStartIdx == DEFAULT_IDX
  {
    c.(baseStartIdx := i)
  }

  /** The effect of rubyStartAction; its requires are the two throw guards. */
  function RubyStartEffect(c: Cursors, i: int): Cursors
    requires c.baseStartIdx != DEFAULT_IDX && c.rubyStartIdx == DEFAULT_IDX
  {
    c.(rubyStartIdx := i)
  }

  /** The effect of rubyEndAction; its requires are the two throw guards.
      The plain run before the span is pushed when `lastRubyEndIdx < i - 1`,
      not when it is non-empty. */
  function RubyEndEffect(text: string, c: Cursors, i: int): Cursors
    requires c.baseStartIdx != DEFAULT_IDX && c.rubyStartIdx != DEFAULT_IDX
  {
    var plain := Plain(Slice(text, c.lastRubyEndIdx + 1, c.baseStartIdx));
    var pushed := if c.lastRubyEndIdx < i - 1 then c.elements + [plain] else c.elements;
    var ruby := Ruby(Slice(text, c.baseStartIdx + 1, c.rubyStartIdx), Slice(text, c.rubyStartIdx + 1, i));
    Cursors(pushed + [ruby], DEFAULT_IDX, DEFAULT_IDX, i)
  }

  /** The invariant that ties the automaton state to the cursors after `n`
      characters have been read. */
  ghost predicate Reachable(st: State, c: Cursors, n: nat) {
    DEFAULT_IDX <= c.lastRubyEndIdx < n &&
    match st
    case Init => c.baseStartIdx == DEFAULT_IDX && c.rubyStartIdx == DEFAULT_IDX
    case InBase => c.lastRubyEndIdx < c.baseStartIdx < n && c.rubyStartIdx == DEFAULT_IDX
    case InRuby => c.lastRubyEndIdx < c.baseStartIdx < c.rubyStartIdx < n
  }

  /** One call of `step`: look the character up in the current table, run
      the action, move to the next state.  From a reachable configuration no
      guard fires and the next configuration is reachable again. */
  function Step(text: string, st: State, c: Cursors, i: nat): (r: (State, Cursors))
    requires i < |text|
    requires Reachable(st, c, i)
    ensures Reachable(r.0, r.1, i + 1)
  {
    var t := Table(st, Classify(text[i]));
    var next := match t.action
      case NoOp => c
      case BaseStartAct => BaseStartEffect(c, i)
      case RubyStartAct => RubyStartEffect(c, i)
      case RubyEndAct => RubyEndEffect(text, c, i);
    (t.nextState, next)
  }

  /** The configuration after the first `n` characters of `text`. */
  function Run(text: string, n: nat): (r: (State, Cursors))
    requires n <= |text|
    ensures Reachable(r.0, r.1, n)
  {
    if n == 0 then (Init, INIT_PROPS)
    else
      var prev := Run(text, n - 1);
      Step(text, prev.0, prev.1, n - 1)
  }

  /** The flush after the loop: everything after the last closing marker is
      pushed as one plain run, unless that marker is the last character. */
  function Flush(text: string, c: Cursors): seq<TextElement> {
    if c.lastRubyEndIdx != |text| - 1
    then c.elements + [Plain(Slice(text, c.lastRubyEndIdx + 1, |text|))]
    else c.elements
  }

  /** What `parse` returns. */
  function ParseSpec(text: string): seq<TextElement> {
    Flush(text, Run(text, |text|).1)
  }

  /** The mutable `Props` record threaded through the actions. */
  class Props {
    var elements: seq<TextElement>
    var baseStartIdx: int
    var rubyStartIdx: int
    var lastRubyEndIdx: int

    /** A fresh copy of INIT_PROPS. */
    constructor ()
      ensures Value() == INIT_PROPS
    {
      elements := [];
      baseStartIdx := DEFAULT_IDX;
      rubyStartIdx := DEFAULT_IDX;
      lastRubyEndIdx := DEFAULT_IDX;
    }

    function Value(): Cursors
      reads this
    {
      Cursors(elements, baseStartIdx, rubyStartIdx, lastRubyEndIdx)
    }
  }

  /** baseStartAction: record where the base span opens. */
  method BaseStartAction(cur: Props, i: int)
    requires cur.baseStartIdx == DEFAULT_IDX
    requires cur.rubyStartIdx == DEFAULT_IDX
    modifies cur
    ensures cur.baseStartIdx == i
    ensures cur.rubyStartIdx == old(cur.rubyStartIdx)
    ensures cur.lastRubyEndIdx == old(cur.lastRubyEndIdx)
    ensures cur.elements == old(cur.elements)
  {
    cur.baseStartIdx := i;
  }

  /** rubyStartAction: record where the ruby text opens. */
  method RubyStartAction(cur: Props, i: int)
    requires cur.baseStartIdx != DEFAULT_IDX
    requires cur.rubyStartIdx == DEFAULT_IDX
    modifies cur
    ensures cur.rubyStartIdx == i
    ensures cur.baseStartIdx == old(cur.baseStartIdx)
    ensures cur.lastRubyEndIdx == old(cur.lastRubyEndIdx)
    ensures cur.elements == old(cur.elements)
  {
    cur.rubyStartIdx := i;
  }

  /** rubyEndAction: close the span at `i`, pushing the plain run before it
      (when `lastRubyEndIdx < i - 1`) and the ruby pair, then reset the start
      cursors. */
  method RubyEndAction(text: string, cur: Props, i: int)
    requires cur.baseStartIdx != DEFAULT_IDX
    requires cur.rubyStartIdx != DEFAULT_IDX
    modifies cur
    ensures cur.elements == old(
      var plain := [Plain(Slice(text, cur.lastRubyEndIdx + 1, cur.baseStartIdx))];
      var ruby := Ruby(Slice(text, cur.baseStartIdx + 1, cur.rubyStartIdx), Slice(text, cur.rubyStartIdx + 1, i));
      cur.elements + (if cur.lastRubyEndIdx < i - 1 then plain else []) + [ruby])
    ensures cur.baseStartIdx == DEFAULT_IDX && cur.rubyStartIdx == DEFAULT_IDX
    ensures cur.lastRubyEndIdx == i
  {
    var plainElem := Plain(Slice(text, cur.lastRubyEndIdx + 1, cur.baseStartIdx));
    if cur.lastRubyEndIdx < i - 1 {
      cur.elements := cur.elements + [plainElem];
    }
    var rubyElem := Ruby(Slice(text, cur.baseStartIdx + 1, cur.rubyStartIdx), Slice(text, cur.rubyStartIdx + 1, i));
    cur.elements := cur.elements + [rubyElem];
    cur.rubyStartIdx := DEFAULT_IDX;
    cur.baseStartIdx := DEFAULT_IDX;
    cur.lastRubyEndIdx := i;
  }

  /** parse: one pass of the automaton over `text`, then the trailing flush.
      No guard can fire on any input. */
  method Parse(text: string) returns (elements: seq<TextElement>)
    ensures elements == ParseSpec(text)
  {
    var props := new Props();
    var state := Init;
    for i := 0 to |text|
      invariant (state, props.Value()) == Run(text, i)
    {
      var t := Table(state, Classify(text[i]));
      match t.action {
        case NoOp =>
        case BaseStartAct => BaseStartAction(props, i);
        case RubyStartAct => RubyStartAction(props, i);
        case RubyEndAct => RubyEndAction(text, props, i);
      }
      state := t.nextState;
    }
    if props.lastRubyEndIdx != |text| - 1 {
      props.elements := props.elements + [Plain(Slice(text, props.lastRubyEndIdx + 1, |text|))];
    }
    elements := props.elements;
  }
}
