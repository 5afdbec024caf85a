/** What the JSON parser makes of a spelled value (`utils/jsmn.h`): exactly its tokens. */
module JsonParsing {
  import opened Options
  import opened JsonTokens
  import opened JsonParser

  /** The text s stands at pos. */
  ghost predicate Sub(js: string, pos: nat, s: string) {
    pos + |s| <= |js| && forall k {:trigger s[k]} | 0 <= k < |s| :: js[pos + k] == s[k]
  }

  lemma SubIsSlice(js: string, pos: nat, s: string)
    ensures Sub(js, pos, s) <==> pos + |s| <= |js| && js[pos..pos + |s|] == s
  {
    if pos + |s| <= |js| && js[pos..pos + |s|] == s {
      forall k | 0 <= k < |s| ensures js[pos + k] == s[k] { assert js[pos..pos + |s|][k] == s[k]; }
    }
  }

  lemma SubSplit(js: string, pos: nat, a: string, b: string)
    requires Sub(js, pos, a + b)
    ensures Sub(js, pos, a) && Sub(js, pos + |a|, b)
  {
    SubIsSlice(js, pos, a + b);
    SubIsSlice(js, pos, a);
    SubIsSlice(js, pos + |a|, b);
    assert js[pos..pos + |a|] == (a + b)[..|a|] == a;
    assert js[pos + |a|..pos + |a| + |b|] == (a + b)[|a|..] == b;
  }

  lemma SubSplit3(js: string, pos: nat, a: string, b: string, c: string)
    requires Sub(js, pos, a + b + c)
    ensures Sub(js, pos, a) && Sub(js, pos + |a|, b) && Sub(js, pos + |a| + |b|, c)
  {
    SubSplit(js, pos, a + b, c);
    SubSplit(js, pos, a, b);
  }

  lemma SubSplit4(js: string, pos: nat, a: string, b: string, c: string, d: string)
    requires Sub(js, pos, a + b + c + d)
    ensures Sub(js, pos, a) && Sub(js, pos + |a|, b) && Sub(js, pos + |a| + |b|, c) && Sub(js, pos + |a| + |b| + |c|, d)
  {
    SubSplit(js, pos, a + b + c, d);
    SubSplit3(js, pos, a, b, c);
  }

  lemma SubAt(js: string, pos: nat, s: string, k: nat)
    requires Sub(js, pos, s) && k < |s|
    ensures pos + k < |js| && js[pos + k] == s[k]
  {
    SubIsSlice(js, pos, s);
    assert js[pos..pos + |s|][k] == s[k];
  }

  lemma SubTail(js: string, pos: nat, s: string, k: nat)
    requires Sub(js, pos, s) && k <= |s|
    ensures Sub(js, pos + k, s[k..])
  {
    assert s == s[..k] + s[k..];
    SubSplit(js, pos, s[..k], s[k..]);
  }

  /** A function that does not change when the parser makes a step, such as the result of the whole run. */
  type Runner = Parser -> Option<Parser>

  ghost predicate IsRun(js: string, run: Runner) {
    forall p: Parser {:trigger Step(js, p)} | p.pos < |js| && Step(js, p).Some? :: run(p) == run(Step(js, p).value)
  }

  // ----- Blanks, primitives and strings -----

  lemma {:induction false} SkipBlanks(js: string, run: Runner, p: Parser, s: string)
    requires IsRun(js, run)
    requires Sub(js, p.pos, s) && Blank(s)
    ensures run(p) == run(Moved(p, |s|))
    decreases |s|
  {
    if s != "" {
      SubAt(js, p.pos, s, 0);
      SubTail(js, p.pos, s, 1);
      assert s[0] in s;
      StepAtBlank(js, run, p);
      SkipBlanks(js, run, Moved(p, 1), s[1..]);
      assert Moved(Moved(p, 1), |s[1..]|) == Moved(p, |s|);
    }
  }

  lemma {:induction false} PrimitiveFound(js: string, pos: nat, s: string)
    requires Sub(js, pos, s) && pos + |s| < |js| && IsDelimiter(js[pos + |s|])
    requires forall c | c in s :: IsPrintable(c) && !IsDelimiter(c)
    ensures PrimitiveEnd(js, pos) == Some(pos + |s|)
    decreases |s|
  {
    if s != "" {
      SubAt(js, pos, s, 0);
      SubTail(js, pos, s, 1);
      assert s[0] in s;
      PrimitiveFound(js, pos + 1, s[1..]);
    }
  }

  lemma {:induction false} HexFound(js: string, pos: nat, n: nat)
    requires pos + n <= |js| && forall i | pos <= i < pos + n :: IsHex(js[i])
    ensures HexEnd(js, pos, n) == Some(pos + n)
    decreases n
  {
    if n > 0 { HexFound(js, pos + 1, n - 1); }
  }

  lemma {:induction false} StringFound(js: string, pos: nat, s: string, end: nat)
    requires Sub(js, pos, s) && end == pos + |s| < |js| && js[end] == '"' && IsBody(s)
    ensures StringEnd(js, pos) == Some(end)
    decreases |s|
  {
    if s != "" {
      SubAt(js, pos, s, 0);
      if s[0] == '\\' {
        SubAt(js, pos, s, 1);
        EscapeFound(js, pos, s);
        var k := if s[1] == 'u' then 6 else 2;
        SubTail(js, pos, s, k);
        StringFound(js, pos + k, s[k..], end);
      } else {
        SubTail(js, pos, s, 1);
        StringFound(js, pos + 1, s[1..], end);
      }
    }
  }

  lemma EscapeFound(js: string, pos: nat, s: string)
    requires Sub(js, pos, s) && s != "" && s[0] == '\\' && IsBody(s)
    ensures s[1] == 'u' ==> HexEnd(js, pos + 2, 4) == Some(pos + 6)
  {
    if s[1] == 'u' {
      forall i: nat | pos + 2 <= i < pos + 6 ensures i < |js| && IsHex(js[i]) { SubAt(js, pos, s, i - pos); }
      SubIsSlice(js, pos, s);
      HexFound(js, pos + 2, 4);
    }
  }

  // ----- Single steps -----

  function Moved(p: Parser, n: nat): Parser {
    p.(pos := p.pos + n)
  }

  function AfterString(p: Parser, body: string): Parser {
    Add(p, String, p.pos + 1, p.pos + 1 + |body|, p.pos + 2 + |body|)
  }

  function AfterColon(p: Parser): Parser {
    p.(pos := p.pos + 1, super := |p.tokens| - 1)
  }

  function AfterComma(p: Parser, o: nat): Parser {
    p.(pos := p.pos + 1, super := o)
  }

  function AfterOpen(p: Parser, kind: Kind): Parser {
    Parser(p.pos + 1, Bumped(p.tokens, p.super) + [Tok(kind, p.pos, None, 0, p.super)], |p.tokens|)
  }

  function AfterClose(p: Parser, o: nat): Parser
    requires o < |p.tokens|
  {
    Parser(p.pos + 1, p.tokens[o := p.tokens[o].(end := Some(p.pos + 1))], p.tokens[o].parent)
  }

  lemma StepAtQuote(js: string, run: Runner, p: Parser, body: string)
    requires IsRun(js, run)
    requires p.pos < |js| && js[p.pos] == '"' && StringEnd(js, p.pos + 1) == Some(p.pos + 1 + |body|)
    ensures run(p) == run(AfterString(p, body))
  {
    assert Step(js, p) == Some(AfterString(p, body));
  }

  lemma StepAtBlank(js: string, run: Runner, p: Parser)
    requires IsRun(js, run)
    requires p.pos < |js| && IsBlank(js[p.pos])
    ensures run(p) == run(Moved(p, 1))
  {
    assert Step(js, p) == Some(Moved(p, 1));
  }

  lemma StepAtColon(js: string, run: Runner, p: Parser)
    requires IsRun(js, run)
    requires p.pos < |js| && js[p.pos] == ':'
    ensures run(p) == run(AfterColon(p))
  {
    assert Step(js, p) == Some(AfterColon(p));
  }

  /** A comma after an item of the open token o, or after its key. */
  lemma StepAtComma(js: string, run: Runner, p: Parser, o: nat)
    requires IsRun(js, run)
    requires p.pos < |js| && js[p.pos] == ',' && p.Super() && o < |p.tokens|
    requires if p.super == o then p.tokens[o].kind.Array? || p.tokens[o].kind.Object?
             else p.tokens[p.super].kind.String? && p.tokens[p.super].parent == o
    ensures run(p) == run(AfterComma(p, o))
  {
    assert Step(js, p) == Some(AfterComma(p, o));
  }

  lemma StepAtOpen(js: string, run: Runner, p: Parser, kind: Kind)
    requires IsRun(js, run)
    requires p.pos < |js| && js[p.pos] == (if kind.Object? then '{' else '[') && (kind.Object? || kind.Array?)
    requires if p.Super() then !p.tokens[p.super].kind.Object? else p.super == -1
    ensures run(p) == run(AfterOpen(p, kind))
  {
    assert Step(js, p) == Some(AfterOpen(p, kind));
  }

  lemma StepAtClose(js: string, run: Runner, p: Parser, kind: Kind, o: nat)
    requires IsRun(js, run)
    requires p.pos < |js| && js[p.pos] == (if kind.Object? then '}' else ']') && (kind.Object? || kind.Array?)
    requires OpenFrom(p.tokens, |p.tokens| - 1) == Some(o) && p.tokens[o].kind == kind
    ensures run(p) == run(AfterClose(p, o))
  {
    assert Step(js, p) == Some(AfterClose(p, o));
  }

  lemma StepAtPrimitive(js: string, run: Runner, p: Parser, end: nat)
    requires IsRun(js, run)
    requires p.pos < |js| && StartsPrimitive(js[p.pos]) && PrimitiveEnd(js, p.pos) == Some(end)
    requires p.Super() ==> !TakesNoPrimitive(p.tokens[p.super])
    ensures run(p) == run(Add(p, Primitive, p.pos, end, end))
  {
    assert Step(js, p) == Some(Add(p, Primitive, p.pos, end, end));
  }

  // ----- States between values -----

  /** A value may come next: at the beginning, in an open array or after a key. */
  ghost predicate Ready(p: Parser) {
    || p.super == -1
    || (p.Super() && var t := p.tokens[p.super];
        if t.kind.String? then t.size == 0 else t.kind.Array? && t.end.None?)
  }

  /** The state after a value. */
  function After(p: Parser, x: Spelling): Parser {
    Parser(p.pos + |Spell(x)|, Bumped(p.tokens, p.super) + Toks(x, p.pos, |p.tokens|, p.super), p.super)
  }

  /** The state after an item of an open array or object. */
  function AfterItem(p: Parser, i: Item): Parser
    requires p.Super()
  {
    Parser(p.pos + |SpellItem(i)|, Bumped(p.tokens, p.super) + ItemToks(i, p.pos, |p.tokens|, p.super),
           if i.key.Some? then |p.tokens| else p.super)
  }

  /** The token o gets n items more. */
  function Sized(tokens: seq<Tok>, o: nat, n: nat): (r: seq<Tok>)
    requires o < |tokens|
    ensures |r| == |tokens|
  {
    tokens[o := tokens[o].(size := tokens[o].size + n)]
  }

  /** The number of the token that a next item would belong to, before a comma. */
  function SuperAfter(items: seq<Item>, pos: nat, base: nat, o: nat): nat {
    if items == [] || items[|items| - 1].key.None? then o
    else base + |ItemsToks(items[..|items| - 1], pos, base, o)|
  }

  function AfterItems(p: Parser, items: seq<Item>): Parser
    requires p.Super()
  {
    Parser(p.pos + |Join(items)|, Sized(p.tokens, p.super, |items|) + ItemsToks(items, p.pos, |p.tokens|, p.super),
           SuperAfter(items, p.pos, |p.tokens|, p.super))
  }

  ghost predicate Delimited(js: string, pos: nat) {
    pos < |js| && IsDelimiter(js[pos])
  }

  lemma BlankDelimits(js: string, pos: nat, after: string)
    requires Sub(js, pos, after) && Blank(after) && Delimited(js, pos + |after|)
    ensures Delimited(js, pos)
  {
    if after != "" {
      SubAt(js, pos, after, 0);
      assert after[0] in after;
    }
  }

  lemma ParsePlain(js: string, run: Runner, p: Parser, text: string)
    requires IsRun(js, run)
    requires Sub(js, p.pos, text) && IsPlain(text) && Ready(p) && Delimited(js, p.pos + |text|)
    ensures run(p) == run(After(p, Plain(text)))
  {
    SubAt(js, p.pos, text, 0);
    assert text[0] in text;
    PrimitiveFound(js, p.pos, text);
    StepAtPrimitive(js, run, p, p.pos + |text|);
    assert Add(p, Primitive, p.pos, p.pos + |text|, p.pos + |text|) == After(p, Plain(text));
  }

  lemma StringStep(js: string, run: Runner, p: Parser, body: string)
    requires IsRun(js, run)
    requires Sub(js, p.pos, "\"" + body + "\"") && IsBody(body)
    ensures run(p) == run(AfterString(p, body))
  {
    QuotesFound(js, p.pos, body);
    StringFound(js, p.pos + 1, body, p.pos + 1 + |body|);
    StepAtQuote(js, run, p, body);
  }

  lemma QuotesFound(js: string, pos: nat, body: string)
    requires Sub(js, pos, "\"" + body + "\"")
    ensures Sub(js, pos + 1, body) && pos + 1 + |body| < |js| && js[pos] == '"' && js[pos + 1 + |body|] == '"'
  {
    SubSplit3(js, pos, "\"", body, "\"");
    SubAt(js, pos, "\"", 0);
    SubAt(js, pos + 1 + |body|, "\"", 0);
  }

  lemma ParseQuoted(js: string, run: Runner, p: Parser, body: string)
    requires IsRun(js, run)
    requires Sub(js, p.pos, Spell(Quoted(body))) && IsBody(body)
    ensures run(p) == run(After(p, Quoted(body)))
  {
    StringStep(js, run, p, body);
    QuotedIsAfter(p, body);
  }

  lemma QuotedIsAfter(p: Parser, body: string)
    ensures AfterString(p, body) == After(p, Quoted(body))
  {}

  // ----- From the last token to the open one -----

  /** The last token of a value leads to the parent of the value. */
  lemma {:induction false} ValueLeadsUp(tokens: seq<Tok>, x: Spelling, pos: nat, parent: int, all: seq<Tok>)
    requires -1 <= parent < |tokens| && all == tokens + Toks(x, pos, |tokens|, parent)
    ensures OpenFrom(all, |all| - 1) == OpenFrom(all, parent)
    decreases x, 0
  {
    if x.List? && x.items != [] {
      var t := Tok(x.kind, pos, Some(pos + |Spell(x)|), |x.items|, parent);
      var rest := ItemsToks(x.items, pos + 1 + |x.lead|, |tokens| + 1, |tokens|);
      Associate(all, tokens, [t], rest);
      ItemsLeadUp(tokens + [t], x.items, pos + 1 + |x.lead|, |tokens|, all);
      UpFrom(tokens, t, rest, parent, all);
    } else {
      UpFrom(tokens, Toks(x, pos, |tokens|, parent)[0], [], parent, all);
    }
  }

  lemma Associate(all: seq<Tok>, a: seq<Tok>, b: seq<Tok>, c: seq<Tok>)
    requires all == a + (b + c)
    ensures all == a + b + c && |a + b| == |a| + |b|
  {}

  lemma UpFrom(tokens: seq<Tok>, t: Tok, rest: seq<Tok>, parent: int, all: seq<Tok>)
    requires -1 <= parent < |tokens| && t.end.Some? && t.parent == parent && all == tokens + [t] + rest
    ensures OpenFrom(all, |tokens|) == OpenFrom(all, parent)
  {
    assert all[|tokens|] == t;
  }

  /** The last token of some items leads to the array or object. */
  lemma {:induction false} ItemsLeadUp(tokens: seq<Tok>, items: seq<Item>, pos: nat, o: nat, all: seq<Tok>)
    requires o < |tokens| && items != [] && all == tokens + ItemsToks(items, pos, |tokens|, o)
    ensures OpenFrom(all, |all| - 1) == OpenFrom(all, o)
    decreases items
  {
    var n := |items| - 1;
    var rest := ItemsToks(items[..n], pos, |tokens|, o);
    var q := pos + |Join(items[..n])| + (if n > 0 then 1 else 0);
    var last := ItemToks(items[n], q, |tokens| + |rest|, o);
    Associate(all, tokens, rest, last);
    ItemLeadsUp(tokens + rest, items[n], q, o, all);
  }

  lemma {:induction false} ItemLeadsUp(tokens: seq<Tok>, i: Item, pos: nat, o: nat, all: seq<Tok>)
    requires o < |tokens| && all == tokens + ItemToks(i, pos, |tokens|, o)
    ensures OpenFrom(all, |all| - 1) == OpenFrom(all, o)
    decreases i
  {
    if i.key.None? {
      ValueLeadsUp(tokens, i.value, pos + |i.before|, o, all);
    } else {
      var start := pos + |i.before|;
      var key := Tok(String, start + 1, Some(start + 1 + |i.key.value.body|), 1, o);
      var value := Toks(i.value, start + |SpellKey(i.key)|, |tokens| + 1, |tokens|);
      assert ItemToks(i, pos, |tokens|, o) == [key] + value;
      Associate(all, tokens, [key], value);
      ValueLeadsUp(tokens + [key], i.value, start + |SpellKey(i.key)|, |tokens|, all);
      UpFrom(tokens, key, value, o, all);
    }
  }

  // ----- Arrays and objects -----

  lemma {:induction false} ParseValue(js: string, run: Runner, p: Parser, x: Spelling)
    requires IsRun(js, run)
    requires Sub(js, p.pos, Spell(x)) && Legal(x) && Ready(p) && (x.Plain? ==> Delimited(js, p.pos + |Spell(x)|))
    ensures run(p) == run(After(p, x))
    decreases x, 1
  {
    match x
    case Plain(text) => ParsePlain(js, run, p, text);
    case Quoted(body) => ParseQuoted(js, run, p, body);
    case List(kind, lead, items, tail) => ParseList(js, run, p, x);
  }

  /** The state after the opening bracket and the blanks that follow. */
  function Opened(p: Parser, x: Spelling): Parser
    requires x.List?
  {
    Moved(AfterOpen(p, x.kind), |x.lead|)
  }

  /** The state after the items. */
  function Itemised(p: Parser, x: Spelling): Parser
    requires x.List?
  {
    AfterItems(Opened(p, x), x.items)
  }

  /** The state before the closing bracket. */
  function Filled(p: Parser, x: Spelling): Parser
    requires x.List?
  {
    Moved(Itemised(p, x), |x.tail|)
  }

  lemma ListParts(js: string, p: Parser, x: Spelling)
    requires x.List? && Sub(js, p.pos, Spell(x))
    ensures p.pos < |js| && js[p.pos] == if x.kind.Object? then '{' else '['
    ensures Sub(js, AfterOpen(p, x.kind).pos, x.lead) && Sub(js, Opened(p, x).pos, Join(x.items))
    ensures Sub(js, Itemised(p, x).pos, x.tail)
    ensures Filled(p, x).pos < |js| && js[Filled(p, x).pos] == if x.kind.Object? then '}' else ']'
  {
    BracketParts(js, p.pos, AfterOpen(p, x.kind).pos, Opened(p, x).pos, Itemised(p, x).pos, Filled(p, x).pos,
                 if x.kind.Object? then "{" else "[", x.lead, Join(x.items), x.tail,
                 if x.kind.Object? then "}" else "]");
  }

  lemma BracketParts(js: string, pos: nat, open: nat, items: nat, end: nat, close: nat,
                     a: string, lead: string, join: string, tail: string, e: string)
    requires |a| == |e| == 1 && Sub(js, pos, a + lead + join + tail + e)
    requires open == pos + 1 && items == open + |lead| && end == items + |join| && close == end + |tail|
    ensures pos < |js| && js[pos] == a[0] && Sub(js, open, lead) && Sub(js, items, join) && Sub(js, end, tail)
    ensures close < |js| && js[close] == e[0]
  {
    SubSplit(js, pos, a + lead + join + tail, e);
    SubSplit4(js, pos, a, lead, join, tail);
    SubAt(js, pos, a, 0);
    SubAt(js, pos + 1 + |lead| + |join| + |tail|, e, 0);
  }

  lemma OpenStep(js: string, run: Runner, p: Parser, x: Spelling)
    requires IsRun(js, run)
    requires x.List? && Sub(js, p.pos, Spell(x)) && Legal(x) && Ready(p)
    ensures run(p) == run(Opened(p, x))
  {
    ListParts(js, p, x);
    StepAtOpen(js, run, p, x.kind);
    SkipBlanks(js, run, AfterOpen(p, x.kind), x.lead);
  }

  lemma CloseStep(js: string, run: Runner, p: Parser, x: Spelling)
    requires IsRun(js, run)
    requires x.List? && Sub(js, p.pos, Spell(x)) && Legal(x) && Ready(p)
    ensures run(Filled(p, x)) == run(After(p, x))
  {
    ListParts(js, p, x);
    FilledLeadsUp(p, x);
    ClosedIsAfter(p, x);
    StepAtClose(js, run, Filled(p, x), x.kind, |p.tokens|);
  }

  lemma FilledTokens(p: Parser, x: Spelling)
    requires x.List?
    ensures Filled(p, x).tokens == Bumped(p.tokens, p.super) + [Tok(x.kind, p.pos, None, |x.items|, p.super)]
      + ItemsToks(x.items, p.pos + 1 + |x.lead|, |p.tokens| + 1, |p.tokens|)
  {
    var before, t := Bumped(p.tokens, p.super), Tok(x.kind, p.pos, None, 0, p.super);
    assert Opened(p, x).tokens == before + [t];
    assert Sized(before + [t], |p.tokens|, |x.items|) == before + [t.(size := |x.items|)];
  }

  lemma FilledLeadsUp(p: Parser, x: Spelling)
    requires x.List?
    ensures var q := Filled(p, x);
      |p.tokens| < |q.tokens| && OpenFrom(q.tokens, |q.tokens| - 1) == Some(|p.tokens|)
      && q.tokens[|p.tokens|].kind == x.kind
  {
    FilledTokens(p, x);
    var head := Bumped(p.tokens, p.super) + [Tok(x.kind, p.pos, None, |x.items|, p.super)];
    var q := Filled(p, x);
    assert q.tokens[|p.tokens|] == head[|p.tokens|];
    if x.items != [] {
      ItemsLeadUp(head, x.items, p.pos + 1 + |x.lead|, |p.tokens|, q.tokens);
    } else {
      assert q.tokens == head;
    }
  }

  lemma ClosedIsAfter(p: Parser, x: Spelling)
    requires x.List?
    ensures |p.tokens| < |Filled(p, x).tokens| && AfterClose(Filled(p, x), |p.tokens|) == After(p, x)
  {
    FilledEnds(p, x);
    ClosedTokens(p, x, Some(p.pos + |Spell(x)|));
  }

  lemma ClosedTokens(p: Parser, x: Spelling, end: Option<nat>)
    requires x.List? && end == Some(p.pos + |Spell(x)|)
    ensures var q, o := Filled(p, x), |p.tokens|;
      && o < |q.tokens| && q.tokens[o].parent == p.super
      && q.tokens[o := q.tokens[o].(end := end)] == After(p, x).tokens
  {
    var rest := ItemsToks(x.items, p.pos + 1 + |x.lead|, |p.tokens| + 1, |p.tokens|);
    FilledTokens(p, x);
    AfterTokens(p, x, rest, end);
    CloseInPlace(Bumped(p.tokens, p.super), Tok(x.kind, p.pos, None, |x.items|, p.super), rest, end);
  }

  lemma AfterTokens(p: Parser, x: Spelling, rest: seq<Tok>, end: Option<nat>)
    requires x.List? && end == Some(p.pos + |Spell(x)|)
    requires rest == ItemsToks(x.items, p.pos + 1 + |x.lead|, |p.tokens| + 1, |p.tokens|)
    ensures After(p, x).tokens == Bumped(p.tokens, p.super) + ([Tok(x.kind, p.pos, end, |x.items|, p.super)] + rest)
  {
    ListToksAre(x, p.pos, |p.tokens|, p.super, rest);
  }

  lemma FilledEnds(p: Parser, x: Spelling)
    requires x.List?
    ensures Filled(p, x).pos + 1 == p.pos + |Spell(x)|
  {}

  lemma CloseInPlace(before: seq<Tok>, t: Tok, rest: seq<Tok>, end: Option<nat>)
    ensures (before + [t] + rest)[|before|] == t
    ensures (before + [t] + rest)[|before| := t.(end := end)] == before + ([t.(end := end)] + rest)
  {}

  lemma {:induction false} ParseList(js: string, run: Runner, p: Parser, x: Spelling)
    requires IsRun(js, run)
    requires x.List? && Sub(js, p.pos, Spell(x)) && Legal(x) && Ready(p)
    ensures run(p) == run(After(p, x))
    decreases x, 0
  {
    OpenStep(js, run, p, x);
    ListDelimited(js, p, x);
    ParseItems(js, run, Opened(p, x), x.kind, x.items);
    FinishList(js, run, p, x);
  }

  lemma ListDelimited(js: string, p: Parser, x: Spelling)
    requires x.List? && Sub(js, p.pos, Spell(x)) && Legal(x)
    ensures var q := Opened(p, x);
      Inside(q, x.kind) && Sub(js, q.pos, Join(x.items)) && Delimited(js, q.pos + |Join(x.items)|)
  {
    JoinDelimited(js, p, x);
    OpenedInside(p, x);
  }

  lemma JoinDelimited(js: string, p: Parser, x: Spelling)
    requires x.List? && Sub(js, p.pos, Spell(x)) && Legal(x)
    ensures Sub(js, Opened(p, x).pos, Join(x.items)) && Delimited(js, Itemised(p, x).pos)
  {
    ListParts(js, p, x);
    TailDelimits(js, Itemised(p, x).pos, Filled(p, x).pos, x.tail);
  }

  lemma OpenedInside(p: Parser, x: Spelling)
    requires x.List? && Legal(x)
    ensures Inside(Opened(p, x), x.kind)
  {}

  lemma TailDelimits(js: string, end: nat, close: nat, tail: string)
    requires Sub(js, end, tail) && Blank(tail) && close == end + |tail| < |js| && js[close] in {']', '}'}
    ensures Delimited(js, end)
  {
    BlankDelimits(js, end, tail);
  }

  lemma FinishList(js: string, run: Runner, p: Parser, x: Spelling)
    requires IsRun(js, run)
    requires x.List? && Sub(js, p.pos, Spell(x)) && Legal(x) && Ready(p)
    ensures run(Itemised(p, x)) == run(After(p, x))
  {
    ListParts(js, p, x);
    SkipBlanks(js, run, Itemised(p, x), x.tail);
    CloseStep(js, run, p, x);
  }

  /** Inside of an open array or object. */
  ghost predicate Inside(p: Parser, kind: Kind) {
    p.Super() && p.tokens[p.super].kind == kind && p.tokens[p.super].end.None? && (kind.Array? || kind.Object?)
  }

  lemma {:induction false} ParseItems(js: string, run: Runner, p: Parser, kind: Kind, items: seq<Item>)
    requires IsRun(js, run)
    requires Sub(js, p.pos, Join(items)) && LegalItems(kind, items) && Inside(p, kind)
      && Delimited(js, p.pos + |Join(items)|)
    ensures run(p) == run(AfterItems(p, items))
    decreases items, 1
  {
    if items == [] {
      NoItems(p);
    } else {
      ParseInit(js, run, p, kind, items);
      LastReady(js, p, kind, items);
      ParseItem(js, run, BeforeLast(p, items), kind, items[|items| - 1]);
      LastItem(p, items);
    }
  }

  /** All items but the last one, and the comma. */
  lemma {:induction false} ParseInit(js: string, run: Runner, p: Parser, kind: Kind, items: seq<Item>)
    requires IsRun(js, run)
    requires Sub(js, p.pos, Join(items)) && LegalItems(kind, items) && Inside(p, kind) && items != []
    ensures run(p) == run(BeforeLast(p, items))
    decreases items, 0
  {
    var n := |items| - 1;
    if n > 0 {
      ItemsParts(js, p, items);
      ParseItems(js, run, p, kind, items[..n]);
      CommaStep(js, run, p, kind, items);
    } else {
      FirstItem(p, items);
    }
  }

  lemma LastReady(js: string, p: Parser, kind: Kind, items: seq<Item>)
    requires Sub(js, p.pos, Join(items)) && LegalItems(kind, items) && Inside(p, kind) && items != []
    requires Delimited(js, p.pos + |Join(items)|)
    ensures var q, last := BeforeLast(p, items), items[|items| - 1];
      Inside(q, kind) && LegalItem(kind, last) && Sub(js, q.pos, SpellItem(last))
      && Delimited(js, q.pos + |SpellItem(last)|)
  {
    ItemsParts(js, p, items);
    LastInside(p, kind, items);
  }

  lemma NoItems(p: Parser)
    requires p.Super()
    ensures AfterItems(p, []) == p
  {
    assert Sized(p.tokens, p.super, 0) + [] == p.tokens;
  }

  lemma FirstItem(p: Parser, items: seq<Item>)
    requires p.Super() && |items| == 1
    ensures BeforeLast(p, items) == p
  {
    assert items[..0] == [];
    assert Sized(p.tokens, p.super, 0) + [] == p.tokens;
  }

  lemma LastInside(p: Parser, kind: Kind, items: seq<Item>)
    requires Inside(p, kind) && items != []
    ensures Inside(BeforeLast(p, items), kind)
  {}

  /** The state before the last of some items. */
  function BeforeLast(p: Parser, items: seq<Item>): Parser
    requires p.Super() && items != []
  {
    var n := |items| - 1;
    Parser(p.pos + |Join(items[..n])| + (if n > 0 then 1 else 0),
           Sized(p.tokens, p.super, n) + ItemsToks(items[..n], p.pos, |p.tokens|, p.super), p.super)
  }

  lemma ItemsParts(js: string, p: Parser, items: seq<Item>)
    requires p.Super() && items != [] && Sub(js, p.pos, Join(items))
    ensures var n := |items| - 1; var end := p.pos + |Join(items[..n])|;
      && Sub(js, p.pos, Join(items[..n])) && (n > 0 ==> Delimited(js, end) && js[end] == ',')
    ensures var q, last := BeforeLast(p, items), items[|items| - 1];
      Sub(js, q.pos, SpellItem(last)) && q.pos + |SpellItem(last)| == p.pos + |Join(items)|
  {
    var n := |items| - 1;
    var a, c := Join(items[..n]), SpellItem(items[n]);
    CommaParts(js, p.pos, p.pos + |a|, BeforeLast(p, items).pos, a, n > 0, c);
  }

  lemma CommaParts(js: string, pos: nat, end: nat, next: nat, a: string, comma: bool, c: string)
    requires Sub(js, pos, a + (if comma then "," else "") + c) && end == pos + |a|
      && next == end + if comma then 1 else 0
    ensures Sub(js, pos, a) && Sub(js, next, c) && (comma ==> Delimited(js, end) && js[end] == ',')
  {
    SubSplit3(js, pos, a, if comma then "," else "", c);
    if comma { SubAt(js, end, ",", 0); }
  }

  /** An item that has a key leaves the key as the token that comes next. */
  lemma KeyIsSuper(p: Parser, items: seq<Item>)
    requires p.Super() && items != [] && items[|items| - 1].key.Some?
    ensures var q := AfterItems(p, items);
      q.Super() && q.super != p.super && q.tokens[q.super].kind.String? && q.tokens[q.super].parent == p.super
  {
    var n := |items| - 1;
    var rest := ItemsToks(items[..n], p.pos, |p.tokens|, p.super);
    var pos := p.pos + |Join(items[..n])| + (if n > 0 then 1 else 0);
    var last := ItemToks(items[n], pos, |p.tokens| + |rest|, p.super);
    assert ItemsToks(items, p.pos, |p.tokens|, p.super) == rest + last;
    assert (Sized(p.tokens, p.super, n + 1) + (rest + last))[|p.tokens| + |rest|] == last[0];
  }

  lemma CommaStep(js: string, run: Runner, p: Parser, kind: Kind, items: seq<Item>)
    requires IsRun(js, run)
    requires |items| > 1 && Sub(js, p.pos, Join(items)) && LegalItems(kind, items) && Inside(p, kind)
    ensures run(AfterItems(p, items[..|items| - 1])) == run(BeforeLast(p, items))
  {
    var n := |items| - 1;
    var q := AfterItems(p, items[..n]);
    CommaAt(js, p, items);
    SuperOfItems(p, kind, items[..n]);
    StepAtComma(js, run, q, p.super);
    CommaIsBeforeLast(p, items);
  }

  lemma CommaAt(js: string, p: Parser, items: seq<Item>)
    requires p.Super() && |items| > 1 && Sub(js, p.pos, Join(items))
    ensures var q := AfterItems(p, items[..|items| - 1]); q.pos < |js| && js[q.pos] == ','
  {
    ItemsParts(js, p, items);
    CommaIsBeforeLast(p, items);
  }

  lemma CommaIsBeforeLast(p: Parser, items: seq<Item>)
    requires p.Super() && |items| > 1
    ensures AfterComma(AfterItems(p, items[..|items| - 1]), p.super) == BeforeLast(p, items)
    ensures AfterItems(p, items[..|items| - 1]).pos == p.pos + |Join(items[..|items| - 1])|
  {}

  lemma SuperOfItems(p: Parser, kind: Kind, items: seq<Item>)
    requires items != [] && Inside(p, kind)
    ensures var q := AfterItems(p, items);
      && q.Super() && p.super < |q.tokens|
      && if q.super == p.super then q.tokens[p.super].kind == kind
         else q.tokens[q.super].kind.String? && q.tokens[q.super].parent == p.super
  {
    if items[|items| - 1].key.Some? { KeyIsSuper(p, items); }
  }

  /** The last item comes on top of the others. */
  lemma LastItem(p: Parser, items: seq<Item>)
    requires p.Super() && items != []
    ensures AfterItem(BeforeLast(p, items), items[|items| - 1]) == AfterItems(p, items)
  {
    var n := |items| - 1;
    var q := BeforeLast(p, items);
    var rest := ItemsToks(items[..n], p.pos, |p.tokens|, p.super);
    var last := ItemToks(items[n], q.pos, |p.tokens| + |rest|, p.super);
    BumpSized(p.tokens, p.super, n, rest);
    ThreeParts(Sized(p.tokens, p.super, n + 1), rest, last);
  }

  lemma ThreeParts(a: seq<Tok>, b: seq<Tok>, c: seq<Tok>)
    ensures a + b + c == a + (b + c)
  {}

  lemma BumpSized(tokens: seq<Tok>, o: nat, n: nat, rest: seq<Tok>)
    requires o < |tokens|
    ensures Bumped(Sized(tokens, o, n) + rest, o) == Sized(tokens, o, n + 1) + rest
  {}

  // ----- One item -----

  /** The state after a colon between blanks. */
  function AfterColonOf(p: Parser, key: Key): Parser {
    Moved(AfterColon(Moved(p, |key.before|)), |key.after|)
  }

  /** The state before the value of an item. */
  function BeforeValue(p: Parser, i: Item): Parser {
    var q := Moved(p, |i.before|);
    if i.key.Some? then AfterColonOf(AfterString(q, i.key.value.body), i.key.value) else q
  }

  lemma ItemParts(js: string, p: Parser, i: Item)
    requires Sub(js, p.pos, SpellItem(i))
    ensures var q := Moved(p, |i.before|); var r := BeforeValue(p, i);
      && Sub(js, p.pos, i.before) && Sub(js, q.pos, SpellKey(i.key)) && r.pos == q.pos + |SpellKey(i.key)|
      && Sub(js, r.pos, Spell(i.value)) && Sub(js, After(r, i.value).pos, i.after)
      && After(r, i.value).pos + |i.after| == p.pos + |SpellItem(i)|
  {
    SubSplit4(js, p.pos, i.before, SpellKey(i.key), Spell(i.value), i.after);
  }

  lemma KeyParts(js: string, p: Parser, key: Key)
    requires Sub(js, p.pos, SpellKey(Some(key)))
    ensures Sub(js, p.pos, "\"" + key.body + "\"")
    ensures var q := AfterString(p, key.body); var r := Moved(q, |key.before|);
      Sub(js, q.pos, key.before) && r.pos < |js| && js[r.pos] == ':' && Sub(js, AfterColon(r).pos, key.after)
  {
    KeyPartsAt(js, p.pos, AfterString(p, key.body).pos, Moved(AfterString(p, key.body), |key.before|).pos, key);
  }

  lemma KeyPartsAt(js: string, pos: nat, blank: nat, colon: nat, key: Key)
    requires Sub(js, pos, SpellKey(Some(key))) && blank == pos + 2 + |key.body| && colon == blank + |key.before|
    ensures Sub(js, pos, "\"" + key.body + "\"") && Sub(js, blank, key.before)
    ensures colon < |js| && js[colon] == ':' && Sub(js, colon + 1, key.after)
  {
    ColonParts(js, pos, blank, colon, "\"" + key.body + "\"", key.before, key.after);
  }

  lemma ColonParts(js: string, pos: nat, blank: nat, colon: nat, name: string, before: string, after: string)
    requires Sub(js, pos, name + before + ":" + after) && blank == pos + |name| && colon == blank + |before|
    ensures Sub(js, pos, name) && Sub(js, blank, before) && colon < |js| && js[colon] == ':'
      && Sub(js, colon + 1, after)
  {
    SubSplit4(js, pos, name, before, ":", after);
    SubAt(js, colon, ":", 0);
  }

  lemma ParseKey(js: string, run: Runner, p: Parser, key: Key)
    requires IsRun(js, run)
    requires Sub(js, p.pos, SpellKey(Some(key))) && IsBody(key.body) && Blank(key.before) && Blank(key.after)
    ensures run(p) == run(AfterColonOf(AfterString(p, key.body), key))
  {
    KeyParts(js, p, key);
    StringStep(js, run, p, key.body);
    ParseColon(js, run, AfterString(p, key.body), key);
  }

  lemma ParseColon(js: string, run: Runner, q: Parser, key: Key)
    requires IsRun(js, run)
    requires Sub(js, q.pos, key.before) && Blank(key.before) && Blank(key.after)
    requires var r := Moved(q, |key.before|); r.pos < |js| && js[r.pos] == ':' && Sub(js, AfterColon(r).pos, key.after)
    ensures run(q) == run(AfterColonOf(q, key))
  {
    SkipBlanks(js, run, q, key.before);
    StepAtColon(js, run, Moved(q, |key.before|));
    SkipBlanks(js, run, AfterColon(Moved(q, |key.before|)), key.after);
  }

  lemma BeginItem(js: string, run: Runner, p: Parser, kind: Kind, i: Item)
    requires IsRun(js, run)
    requires Sub(js, p.pos, SpellItem(i)) && LegalItem(kind, i) && Inside(p, kind)
    ensures run(p) == run(BeforeValue(p, i))
  {
    ItemParts(js, p, i);
    SkipBlanks(js, run, p, i.before);
    if i.key.Some? { ParseKey(js, run, Moved(p, |i.before|), i.key.value); }
  }

  lemma ValueReady(js: string, p: Parser, kind: Kind, i: Item)
    requires Sub(js, p.pos, SpellItem(i)) && LegalItem(kind, i) && Inside(p, kind)
      && Delimited(js, p.pos + |SpellItem(i)|)
    ensures var r := BeforeValue(p, i);
      Ready(r) && Sub(js, r.pos, Spell(i.value)) && Delimited(js, r.pos + |Spell(i.value)|)
  {
    ItemParts(js, p, i);
    BlankDelimits(js, After(BeforeValue(p, i), i.value).pos, i.after);
  }

  lemma FinishItem(js: string, run: Runner, p: Parser, kind: Kind, i: Item)
    requires IsRun(js, run)
    requires Sub(js, p.pos, SpellItem(i)) && LegalItem(kind, i) && Inside(p, kind)
    ensures run(After(BeforeValue(p, i), i.value)) == run(AfterItem(p, i))
  {
    ItemParts(js, p, i);
    SkipBlanks(js, run, After(BeforeValue(p, i), i.value), i.after);
    ItemEnds(p, i);
  }

  lemma {:induction false} ParseItem(js: string, run: Runner, p: Parser, kind: Kind, i: Item)
    requires IsRun(js, run)
    requires Sub(js, p.pos, SpellItem(i)) && LegalItem(kind, i) && Inside(p, kind)
      && Delimited(js, p.pos + |SpellItem(i)|)
    ensures run(p) == run(AfterItem(p, i))
    decreases i
  {
    BeginItem(js, run, p, kind, i);
    ValueReady(js, p, kind, i);
    ParseValue(js, run, BeforeValue(p, i), i.value);
    FinishItem(js, run, p, kind, i);
  }

  lemma ItemEnds(p: Parser, i: Item)
    requires p.Super()
    ensures Moved(After(BeforeValue(p, i), i.value), |i.after|) == AfterItem(p, i)
  {
    if i.key.Some? { KeyEnds(p, i, i.key.value); }
  }

  lemma KeyEnds(p: Parser, i: Item, key: Key)
    requires p.Super() && i.key == Some(key)
    ensures Moved(After(BeforeValue(p, i), i.value), |i.after|) == AfterItem(p, i)
  {
    var start := p.pos + |i.before|;
    var a, k := Bumped(p.tokens, p.super), Tok(String, start + 1, Some(start + 1 + |key.body|), 0, p.super);
    var value := Toks(i.value, start + |SpellKey(i.key)|, |p.tokens| + 1, |p.tokens|);
    var r := BeforeValue(p, i);
    assert r.tokens == a + [k] && r.super == |a| && r.pos == start + |SpellKey(i.key)|;
    BumpKey(a, k, value);
    assert After(r, i.value).tokens == Bumped(a + [k], |a|) + value;
    assert ItemToks(i, p.pos, |p.tokens|, p.super) == [k.(size := 1)] + value;
  }

  lemma BumpKey(a: seq<Tok>, k: Tok, value: seq<Tok>)
    requires k.size == 0
    ensures Bumped(a + [k], |a|) + value == a + ([k.(size := 1)] + value)
  {
    assert Bumped(a + [k], |a|) == a + [k.(size := 1)];
  }

  // ----- Whole texts -----

  lemma {:induction false} AllClosed(x: Spelling, pos: nat, base: nat, parent: int)
    ensures forall t | t in Toks(x, pos, base, parent) :: t.end.Some?
    decreases x, 0
  {
    if x.List? { ItemsClosed(x.items, pos + 1 + |x.lead|, base + 1, base); }
  }

  lemma {:induction false} ItemsClosed(items: seq<Item>, pos: nat, base: nat, parent: nat)
    ensures forall t | t in ItemsToks(items, pos, base, parent) :: t.end.Some?
    decreases items
  {
    if items != [] {
      var n := |items| - 1;
      ItemsClosed(items[..n], pos, base, parent);
      ItemClosed(items[n], pos + |Join(items[..n])| + (if n > 0 then 1 else 0),
                 base + |ItemsToks(items[..n], pos, base, parent)|, parent);
    }
  }

  lemma {:induction false} ItemClosed(i: Item, pos: nat, base: nat, parent: nat)
    ensures forall t | t in ItemToks(i, pos, base, parent) :: t.end.Some?
    decreases i
  {
    if i.key.None? { AllClosed(i.value, pos + |i.before|, base, parent); }
    else { AllClosed(i.value, pos + |i.before| + |SpellKey(i.key)|, base + 1, base); }
  }

  /** The parser accepts every spelled array or object and finds its tokens. */
  lemma ParseSpelled(x: Spelling)
    requires x.List? && Legal(x)
    ensures Parse(Spell(x)) == Some(Toks(x, 0, 0, -1))
  {
    var js, p := Spell(x), Parser(0, [], -1);
    SubIsSlice(js, 0, js);
    assert js[0..|js|] == js;
    var run: Runner := q => Run(js, q);
    ParseValue(js, run, p, x);
    assert run(p) == Run(js, p);
    AllClosed(x, 0, 0, -1);
    assert [] + Toks(x, 0, 0, -1) == Toks(x, 0, 0, -1);
  }

  // ----- Tokens with their texts -----

  /** A function that gives the tokens with their texts. */
  type Texts = seq<Tok> -> seq<Token>

  ghost predicate IsTexts(js: string, texts: Texts) {
    && (forall t {:trigger WithText(js, t)} :: texts([t]) == [WithText(js, t)])
    && (forall a, b {:trigger Parts(a, b)} :: Parts(a, b) ==> texts(a + b) == texts(a) + texts(b))
    && texts([]) == []
  }

  /** Two parts of a sequence of tokens. */
  predicate Parts(a: seq<Tok>, b: seq<Tok>) {
    |a + b| == |a| + |b|
  }

  lemma TextsAppend(js: string, texts: Texts, a: seq<Tok>, b: seq<Tok>)
    requires IsTexts(js, texts)
    ensures texts(a + b) == texts(a) + texts(b)
  {
    assert Parts(a, b);
  }

  lemma TextAt(js: string, texts: Texts, pos: nat, s: string, t: Tok)
    requires IsTexts(js, texts)
    requires Sub(js, pos, s) && t.start == pos && t.end == Some(pos + |s|)
    ensures texts([t]) == [Token(t.kind, t.size, s)]
  {
    SubIsSlice(js, pos, s);
    assert WithText(js, t) == Token(t.kind, t.size, s);
  }

  lemma {:induction false} TextsAreTokens(js: string, texts: Texts, x: Spelling, pos: nat, base: nat, parent: int)
    requires IsTexts(js, texts)
    requires Sub(js, pos, Spell(x))
    ensures texts(Toks(x, pos, base, parent)) == Tokens(Value(x))
    decreases x, 1
  {
    if x.List? {
      var start := pos + 1 + |x.lead|;
      JoinAt(js, pos, start, x);
      ItemsTexts(js, texts, x.items, start, base + 1, base);
      ListTexts(js, texts, x, pos, base, parent, start);
    } else {
      LeafTexts(js, texts, x, pos, base, parent);
    }
  }

  lemma LeafTexts(js: string, texts: Texts, x: Spelling, pos: nat, base: nat, parent: int)
    requires IsTexts(js, texts)
    requires !x.List? && Sub(js, pos, Spell(x))
    ensures texts(Toks(x, pos, base, parent)) == Tokens(Value(x))
  {
    assert Tokens(Value(x)) == [First(Value(x))];
    if x.Plain? {
      TextAt(js, texts, pos, x.text, Toks(x, pos, base, parent)[0]);
    } else {
      QuotesFound(js, pos, x.body);
      TextAt(js, texts, pos + 1, x.body, Toks(x, pos, base, parent)[0]);
    }
  }

  lemma ListTexts(js: string, texts: Texts, x: Spelling, pos: nat, base: nat, parent: int, start: nat)
    requires IsTexts(js, texts)
    requires x.List? && Sub(js, pos, Spell(x)) && start == pos + 1 + |x.lead|
    requires texts(ItemsToks(x.items, start, base + 1, base)) == TokensOf(Children(x.items))
    ensures texts(Toks(x, pos, base, parent)) == Tokens(Value(x))
  {
    var rest := ItemsToks(x.items, start, base + 1, base);
    HeadTexts(js, texts, pos, parent, x, rest);
    ListToksAre(x, pos, base, parent, rest);
  }

  lemma ListToksAre(x: Spelling, pos: nat, base: nat, parent: int, rest: seq<Tok>)
    requires x.List? && rest == ItemsToks(x.items, pos + 1 + |x.lead|, base + 1, base)
    ensures Toks(x, pos, base, parent) == [Tok(x.kind, pos, Some(pos + |Spell(x)|), |x.items|, parent)] + rest
  {}

  lemma HeadTexts(js: string, texts: Texts, pos: nat, parent: int, x: Spelling, rest: seq<Tok>)
    requires IsTexts(js, texts)
    requires x.List? && Sub(js, pos, Spell(x)) && texts(rest) == TokensOf(Children(x.items))
    ensures texts([Tok(x.kind, pos, Some(pos + |Spell(x)|), |x.items|, parent)] + rest) == Tokens(Value(x))
  {
    var t := Tok(x.kind, pos, Some(pos + |Spell(x)|), |x.items|, parent);
    TextAt(js, texts, pos, Spell(x), t);
    TextsAppend(js, texts, [t], rest);
    ListTokens(x);
  }

  lemma ListTokens(x: Spelling)
    requires x.List?
    ensures Tokens(Value(x)) == [Token(x.kind, |x.items|, Spell(x))] + TokensOf(Children(x.items))
  {}

  lemma JoinAt(js: string, pos: nat, start: nat, x: Spelling)
    requires x.List? && Sub(js, pos, Spell(x)) && start == pos + 1 + |x.lead|
    ensures Sub(js, start, Join(x.items))
  {
    var end := start + |Join(x.items)|;
    BracketParts(js, pos, pos + 1, start, end, end + |x.tail|,
                 if x.kind.Object? then "{" else "[", x.lead, Join(x.items), x.tail,
                 if x.kind.Object? then "}" else "]");
  }

  lemma {:induction false} ItemsTexts(js: string, texts: Texts, items: seq<Item>, pos: nat, base: nat, parent: nat)
    requires IsTexts(js, texts)
    requires Sub(js, pos, Join(items))
    ensures texts(ItemsToks(items, pos, base, parent)) == TokensOf(Children(items))
    decreases items
  {
    if items != [] {
      var n := |items| - 1;
      var next, number := NextPos(items, pos), base + |ItemsToks(items[..n], pos, base, parent)|;
      LastItemAt(js, pos, next, items);
      ItemsTexts(js, texts, items[..n], pos, base, parent);
      ItemTexts(js, texts, items[n], next, number, parent);
      LastTexts(js, texts, items, pos, base, parent, next, number);
    }
  }

  /** Where the last item begins. */
  function NextPos(items: seq<Item>, pos: nat): nat
    requires items != []
  {
    pos + |Join(items[..|items| - 1])| + if |items| > 1 then 1 else 0
  }

  lemma LastTexts(js: string, texts: Texts, items: seq<Item>, pos: nat, base: nat, parent: nat, next: nat, number: nat)
    requires IsTexts(js, texts) && items != []
    requires next == NextPos(items, pos)
    requires number == base + |ItemsToks(items[..|items| - 1], pos, base, parent)|
    requires texts(ItemsToks(items[..|items| - 1], pos, base, parent)) == TokensOf(Children(items[..|items| - 1]))
    requires texts(ItemToks(items[|items| - 1], next, number, parent)) == Tokens(ItemValue(items[|items| - 1]))
    ensures texts(ItemsToks(items, pos, base, parent)) == TokensOf(Children(items))
  {
    OneMoreText(js, texts, items, ItemsToks(items[..|items| - 1], pos, base, parent),
                ItemToks(items[|items| - 1], next, number, parent));
  }

  lemma LastItemAt(js: string, pos: nat, next: nat, items: seq<Item>)
    requires items != [] && Sub(js, pos, Join(items))
    requires next == NextPos(items, pos)
    ensures Sub(js, pos, Join(items[..|items| - 1])) && Sub(js, next, SpellItem(items[|items| - 1]))
  {
    var n := |items| - 1;
    CommaParts(js, pos, pos + |Join(items[..n])|, next, Join(items[..n]), n > 0, SpellItem(items[n]));
  }

  lemma OneMoreText(js: string, texts: Texts, items: seq<Item>, rest: seq<Tok>, last: seq<Tok>)
    requires IsTexts(js, texts)
    requires items != [] && texts(rest) == TokensOf(Children(items[..|items| - 1]))
    requires texts(last) == Tokens(ItemValue(items[|items| - 1]))
    ensures texts(rest + last) == TokensOf(Children(items))
  {
    TextsAppend(js, texts, rest, last);
    TokensOfChildren(items);
  }

  lemma TokensOfChildren(items: seq<Item>)
    requires items != []
    ensures TokensOf(Children(items))
      == TokensOf(Children(items[..|items| - 1])) + Tokens(ItemValue(items[|items| - 1]))
  {
    TokensOfSnoc(Children(items[..|items| - 1]), ItemValue(items[|items| - 1]));
  }

  lemma TokensOfSnoc(values: seq<Json>, v: Json)
    ensures TokensOf(values + [v]) == TokensOf(values) + Tokens(v)
  {
    assert (values + [v])[..|values|] == values;
  }

  lemma {:induction false} ItemTexts(js: string, texts: Texts, i: Item, pos: nat, base: nat, parent: nat)
    requires IsTexts(js, texts)
    requires Sub(js, pos, SpellItem(i))
    ensures texts(ItemToks(i, pos, base, parent)) == Tokens(ItemValue(i))
    decreases i, 1
  {
    if i.key.None? {
      PlainItemTexts(js, texts, i, pos, base, parent);
    } else {
      KeyedItemTexts(js, texts, i, i.key.value, pos, base, parent);
    }
  }

  lemma {:induction false} PlainItemTexts(js: string, texts: Texts, i: Item, pos: nat, base: nat, parent: nat)
    requires IsTexts(js, texts)
    requires i.key.None? && Sub(js, pos, SpellItem(i))
    ensures texts(ItemToks(i, pos, base, parent)) == Tokens(ItemValue(i))
    decreases i, 0
  {
    var start := pos + |i.before|;
    ItemAt(js, pos, start, start, i);
    TextsAreTokens(js, texts, i.value, start, base, parent);
  }

  lemma {:induction false} KeyedItemTexts(js: string, texts: Texts, i: Item, key: Key, pos: nat, base: nat, parent: nat)
    requires IsTexts(js, texts)
    requires i.key == Some(key) && Sub(js, pos, SpellItem(i))
    ensures texts(ItemToks(i, pos, base, parent)) == Tokens(ItemValue(i))
    decreases i, 0
  {
    var start := pos + |i.before|;
    var v := start + |SpellKey(i.key)|;
    ItemAt(js, pos, start, v, i);
    TextsAreTokens(js, texts, i.value, v, base + 1, base);
    KeyTexts(js, texts, key, start, parent, Toks(i.value, v, base + 1, base), Value(i.value));
  }

  lemma ItemAt(js: string, pos: nat, start: nat, v: nat, i: Item)
    requires Sub(js, pos, SpellItem(i)) && start == pos + |i.before| && v == start + |SpellKey(i.key)|
    ensures Sub(js, start, SpellKey(i.key)) && Sub(js, v, Spell(i.value)) && (i.key.None? ==> v == start)
  {
    ItemPartsAt(js, pos, start, v, i.before, SpellKey(i.key), Spell(i.value), i.after);
  }

  lemma ItemPartsAt(js: string, pos: nat, start: nat, v: nat, before: string, key: string, value: string, after: string)
    requires Sub(js, pos, before + key + value + after) && start == pos + |before| && v == start + |key|
    ensures Sub(js, start, key) && Sub(js, v, value)
  {
    SubSplit4(js, pos, before, key, value, after);
  }

  lemma KeyTexts(js: string, texts: Texts, key: Key, start: nat, parent: int, value: seq<Tok>, v: Json)
    requires IsTexts(js, texts)
    requires Sub(js, start, SpellKey(Some(key))) && texts(value) == Tokens(v)
    ensures texts([Tok(String, start + 1, Some(start + 1 + |key.body|), 1, parent)] + value)
      == Tokens(Json(String, key.body, [v]))
  {
    var t := Tok(String, start + 1, Some(start + 1 + |key.body|), 1, parent);
    KeyText(js, texts, start, key, t);
    TextsAppend(js, texts, [t], value);
    KeyTokens(key.body, v);
  }

  lemma KeyText(js: string, texts: Texts, pos: nat, key: Key, t: Tok)
    requires IsTexts(js, texts)
    requires Sub(js, pos, SpellKey(Some(key))) && t.start == pos + 1 && t.end == Some(pos + 1 + |key.body|)
    ensures texts([t]) == [Token(t.kind, t.size, key.body)]
  {
    SubSplit4(js, pos, "\"" + key.body + "\"", key.before, ":", key.after);
    QuotesFound(js, pos, key.body);
    TextAt(js, texts, pos + 1, key.body, t);
  }

  lemma KeyTokens(body: string, v: Json)
    ensures Tokens(Json(String, body, [v])) == [Token(String, 1, body)] + Tokens(v)
  {
    TokensOfSnoc([], v);
    assert [] + [v] == [v];
  }

  lemma {:induction false} ValueIsWellFormed(x: Spelling)
    requires Legal(x)
    ensures WellFormed(Value(x))
    decreases x, 0
  {
    if x.List? { ChildrenAreWellFormed(x.kind, x.items); }
  }

  lemma {:induction false} ChildrenAreWellFormed(kind: Kind, items: seq<Item>)
    requires LegalItems(kind, items)
    ensures forall c | c in Children(items) :: if kind.Object? then IsKey(c) else WellFormed(c)
    decreases items
  {
    if items != [] {
      ChildrenAreWellFormed(kind, items[..|items| - 1]);
      ItemIsWellFormed(kind, items[|items| - 1]);
    }
  }

  lemma {:induction false} ItemIsWellFormed(kind: Kind, i: Item)
    requires LegalItem(kind, i)
    ensures if kind.Object? then IsKey(ItemValue(i)) else WellFormed(ItemValue(i))
    decreases i
  {
    ValueIsWellFormed(i.value);
  }

  // ----- No NUL -----

  lemma {:induction false} BodyHasNoNul(s: string)
    requires IsBody(s)
    ensures '\0' !in s
    decreases |s|
  {
    if s != "" {
      var k := if s[0] != '\\' then 1 else if s[1] == 'u' then 6 else 2;
      BodyHasNoNul(s[k..]);
      assert s == s[..k] + s[k..];
    }
  }

  lemma {:induction false} SpellHasNoNul(x: Spelling)
    requires Legal(x)
    ensures '\0' !in Spell(x)
    decreases x, 0
  {
    match x
    case Plain(text) =>
    case Quoted(body) => BodyHasNoNul(body);
    case List(kind, lead, items, tail) => JoinHasNoNul(kind, items);
  }

  lemma {:induction false} JoinHasNoNul(kind: Kind, items: seq<Item>)
    requires LegalItems(kind, items)
    ensures '\0' !in Join(items)
    decreases items
  {
    if items != [] {
      JoinHasNoNul(kind, items[..|items| - 1]);
      ItemHasNoNul(kind, items[|items| - 1]);
    }
  }

  lemma {:induction false} ItemHasNoNul(kind: Kind, i: Item)
    requires LegalItem(kind, i)
    ensures '\0' !in SpellItem(i)
    decreases i
  {
    SpellHasNoNul(i.value);
    if i.key.Some? { BodyHasNoNul(i.key.value.body); }
  }

  lemma WithTextsIsTexts(js: string, texts: Texts)
    requires forall tokens :: texts(tokens) == WithTexts(js, tokens)
    ensures IsTexts(js, texts)
  {
    forall a, b | Parts(a, b) ensures texts(a + b) == texts(a) + texts(b) {
      assert WithTexts(js, a + b) == WithTexts(js, a) + WithTexts(js, b);
    }
  }

  /** The parser finds exactly the tokens of the value that is spelled, each with its text. */
  lemma TokensOfSpelling(x: Spelling)
    requires x.List? && Legal(x)
    ensures Parse(Spell(x)).Some? && WithTexts(Spell(x), Parse(Spell(x)).value) == Tokens(Value(x))
      && WellFormed(Value(x))
  {
    ParseSpelled(x);
    SubIsSlice(Spell(x), 0, Spell(x));
    assert Spell(x)[0..|Spell(x)|] == Spell(x);
    var texts: Texts := tokens => WithTexts(Spell(x), tokens);
    WithTextsIsTexts(Spell(x), texts);
    TextsAreTokens(Spell(x), texts, x, 0, 0, -1);
    assert texts(Toks(x, 0, 0, -1)) == WithTexts(Spell(x), Toks(x, 0, 0, -1));
    ValueIsWellFormed(x);
  }
}
