/** Texts that the JSON parser refuses: arrays and objects that are not closed, or not by their own bracket. */
module JsonRefusals {
  import opened Options
  import opened JsonTokens
  import opened JsonParser
  import opened JsonParsing

  /** The text of an array or object without its closing bracket. */
  function Unclosed(x: Spelling): string
    requires x.List?
  {
    (if x.kind.Object? then "{" else "[") + x.lead + Join(x.items) + x.tail
  }

  const START := Parser(0, [], -1)

  lemma UnclosedParts(js: string, x: Spelling, c: char)
    requires x.List? && js == Unclosed(x) + [c]
    ensures js[0] == if x.kind.Object? then '{' else '['
    ensures Sub(js, 1, x.lead) && Sub(js, Opened(START, x).pos, Join(x.items))
    ensures Sub(js, Itemised(START, x).pos, x.tail)
    ensures Filled(START, x).pos + 1 == |js| && js[Filled(START, x).pos] == c
  {
    SubIsSlice(js, 0, js);
    assert js[0..|js|] == js;
    BracketParts(js, 0, 1, Opened(START, x).pos, Itemised(START, x).pos, Filled(START, x).pos,
                 if x.kind.Object? then "{" else "[", x.lead, Join(x.items), x.tail, [c]);
  }

  /** The parser gets to the last character if it is a delimiter. */
  lemma GetsToEnd(js: string, run: Runner, x: Spelling, c: char)
    requires IsRun(js, run) && x.List? && Legal(x) && js == Unclosed(x) + [c] && IsDelimiter(c)
    ensures run(START) == run(Filled(START, x))
  {
    UnclosedParts(js, x, c);
    StepAtOpen(js, run, START, x.kind);
    SkipBlanks(js, run, AfterOpen(START, x.kind), x.lead);
    BlankDelimits(js, Itemised(START, x).pos, x.tail);
    OpenedInside(START, x);
    ParseItems(js, run, Opened(START, x), x.kind, x.items);
    SkipBlanks(js, run, Itemised(START, x), x.tail);
  }

  lemma RunIsRun(js: string, run: Runner)
    requires forall p :: run(p) == Run(js, p)
    ensures IsRun(js, run)
  {}

  /** An array or object that is not closed is refused. */
  lemma UnclosedIsRefused(x: Spelling, blank: char)
    requires x.List? && Legal(x) && IsBlank(blank)
    ensures Parse(Unclosed(x) + [blank]).None?
  {
    var js, q := Unclosed(x) + [blank], Filled(START, x);
    var run: Runner := p => Run(js, p);
    RunIsRun(js, run);
    GetsToEnd(js, run, x, blank);
    UnclosedParts(js, x, blank);
    FilledLeadsUp(START, x);
    StillOpen(js, q);
    assert run(START) == Run(js, START) && run(q) == Run(js, q);
  }

  lemma StillOpen(js: string, q: Parser)
    requires q.pos + 1 == |js| && IsBlank(js[q.pos]) && q.tokens != [] && q.tokens[0].end.None?
    ensures Run(js, q).Some? && exists t :: t in Run(js, q).value.tokens && t.end.None?
  {
    var end := q.(pos := q.pos + 1);
    assert Step(js, q) == Some(end) && Run(js, end) == Some(end);
    assert end.tokens[0] in end.tokens;
  }

  lemma WrongClose(js: string, q: Parser, kind: Kind, o: nat)
    requires q.pos < |js| && js[q.pos] == (if kind.Object? then ']' else '}') && (kind.Object? || kind.Array?)
    requires OpenFrom(q.tokens, |q.tokens| - 1) == Some(o) && o < |q.tokens| && q.tokens[o].kind == kind
    ensures Run(js, q).None?
  {
    assert Step(js, q).None?;
  }

  /** So is one that is closed by the other kind of bracket. */
  lemma WrongBracketIsRefused(x: Spelling)
    requires x.List? && Legal(x)
    ensures Parse(Unclosed(x) + [if x.kind.Object? then ']' else '}']).None?
  {
    WrongEndIsRefused(x, if x.kind.Object? then ']' else '}');
  }

  lemma WrongEndIsRefused(x: Spelling, c: char)
    requires x.List? && Legal(x) && c == if x.kind.Object? then ']' else '}'
    ensures Parse(Unclosed(x) + [c]).None?
  {
    var js, q := Unclosed(x) + [c], Filled(START, x);
    var run: Runner := p => Run(js, p);
    RunIsRun(js, run);
    GetsToEnd(js, run, x, c);
    UnclosedParts(js, x, c);
    FilledLeadsUp(START, x);
    WrongClose(js, q, x.kind, 0);
    assert run(START) == Run(js, START) && run(q) == Run(js, q);
  }

  lemma NothingOpen(js: string, q: Parser)
    requires q.pos < |js| && (js[q.pos] == ']' || js[q.pos] == '}') && q.super == -1
    requires forall t | t in q.tokens :: t.end.Some?
    ensures Run(js, q).None?
  {
    assert Step(js, q).None?;
  }

  /** So is a complete array or object with a further closing bracket. */
  lemma ExtraBracketIsRefused(x: Spelling, c: char)
    requires x.List? && Legal(x) && (c == ']' || c == '}')
    ensures Parse(Spell(x) + [c]).None?
  {
    var js, q := Spell(x) + [c], After(START, x);
    var run: Runner := p => Run(js, p);
    RunIsRun(js, run);
    SubIsSlice(js, 0, Spell(x));
    assert js[0..|Spell(x)|] == Spell(x);
    ParseValue(js, run, START, x);
    AllClosed(x, 0, 0, -1);
    NothingOpen(js, q);
    assert run(START) == Run(js, START) && run(q) == Run(js, q);
  }
}
