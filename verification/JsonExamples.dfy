/** Texts that the JSON parser accepts although they are not JSON. */
module JsonExamples {
  import opened Options
  import opened JsonTokens
  import opened JsonParser
  import opened PrintScan

  const START := Parser(0, [], -1)
  const OPENED := Parser(1, [Tok(Array, 0, None, 0, -1)], 0)

  /** The array begins. */
  lemma OpenArray(js: string)
    requires js != "" && js[0] == '['
    ensures Run(js, START) == Run(js, OPENED)
  {
    assert Bumped([], -1) + OPENED.tokens == OPENED.tokens;
    assert Step(js, START) == Some(OPENED);
  }

  /** A digit in an array. */
  lemma AddDigit(js: string, p: Parser)
    requires p.pos + 1 < |js| && '0' <= js[p.pos] <= '9' && IsDelimiter(js[p.pos + 1])
    requires p.Super() && !TakesNoPrimitive(p.tokens[p.super])
    ensures Run(js, p) == Run(js, Add(p, Primitive, p.pos, p.pos + 1, p.pos + 1))
  {
    assert PrimitiveEnd(js, p.pos + 1) == Some(p.pos + 1) && PrimitiveEnd(js, p.pos) == Some(p.pos + 1);
    assert Step(js, p) == Some(Add(p, Primitive, p.pos, p.pos + 1, p.pos + 1));
  }

  /** The array ends, and so does the text. */
  lemma CloseArray(js: string, p: Parser, done: seq<Tok>)
    requires p.pos + 1 == |js| && js[p.pos] == ']' && p.tokens != [] && p.tokens[0].kind.Array? && p.tokens[0].end.None?
    requires OpenFrom(p.tokens, |p.tokens| - 1) == Some(0)
    requires done == p.tokens[0 := p.tokens[0].(end := Some(|js|))]
    ensures Run(js, p) == Some(Parser(|js|, done, p.tokens[0].parent))
  {
    var q := Parser(|js|, done, p.tokens[0].parent);
    assert Step(js, p) == Some(q);
    assert Run(js, q) == Some(q);
  }

  /** Two items without a comma between them, with the tokens of an array of two. */
  lemma MissingComma(js: string)
    requires js == "[1 2]"
    ensures Parse(js)
      == Some([Tok(Array, 0, Some(5), 2, -1), Tok(Primitive, 1, Some(2), 0, 0), Tok(Primitive, 3, Some(4), 0, 0)])
  {
    var one, two := Tok(Primitive, 1, Some(2), 0, 0), Tok(Primitive, 3, Some(4), 0, 0);
    var p := Parser(2, [Tok(Array, 0, None, 1, -1), one], 0);
    var q := Parser(4, [Tok(Array, 0, None, 2, -1), one, two], 0);
    OpenArray(js);
    AddDigit(js, OPENED);
    assert Add(OPENED, Primitive, 1, 2, 2) == p;
    SkipBlank(js, p);
    AddDigit(js, p.(pos := 3));
    assert Add(p.(pos := 3), Primitive, 3, 4, 4) == q;
    var done := [Tok(Array, 0, Some(5), 2, -1), one, two];
    assert done == q.tokens[0 := done[0]] && OpenFrom(q.tokens, 0) == Some(0);
    CloseArray(js, q, done);
  }

  lemma SkipBlank(js: string, p: Parser)
    requires p.pos < |js| && IsBlank(js[p.pos])
    ensures Run(js, p) == Run(js, p.(pos := p.pos + 1))
  {
    assert Step(js, p) == Some(p.(pos := p.pos + 1));
  }

  /** What lacks a comma is scanned like what has it. */
  lemma MissingCommaIsScanned(js: string, j: Json)
    requires js == "[1 2]" && j == Json(Array, js, [Json(Primitive, "1", []), Json(Primitive, "2", [])])
    ensures WellFormed(j) && TokensIn(js) == Some(Tokens(j))
  {
    var one, two := j.children[0], j.children[1];
    MissingComma(js);
    assert js[0..5] == js && js[1..2] == "1" && js[3..4] == "2";
    LeafTokens(one);
    LeafTokens(two);
    assert j.children[..1] == [one] && [one][..0] == [];
    assert TokensOf([one]) == [First(one)];
    assert TokensOf(j.children) == [First(one), First(two)];
    assert TokensIn(js).value == [First(j), First(one), First(two)];
    assert [First(j)] + [First(one), First(two)] == [First(j), First(one), First(two)];
  }

  lemma LeafTokens(j: Json)
    requires j.children == []
    ensures Tokens(j) == [First(j)]
  {}

  /** A second closing bracket after a colon is ignored, since the array it would close is closed, by a bracket of
      the same kind; one of the other kind is refused. */
  lemma ClosedAgain(js: string, c: char)
    requires js == "[1]:" + [c] && (c == ']' || c == '}')
    ensures c == ']' ==> Parse(js) == Some([Tok(Array, 0, Some(3), 1, -1), Tok(Primitive, 1, Some(2), 0, 0)])
    ensures c == '}' ==> Parse(js) == None
  {
    var one := Tok(Primitive, 1, Some(2), 0, 0);
    var open, closed := Tok(Array, 0, None, 1, -1), Tok(Array, 0, Some(3), 1, -1);
    var p := Parser(2, [open, one], 0);
    var q := Parser(3, [closed, one], -1);
    var r := Parser(4, [closed, one], 1);
    assert js[0] == '[' && js[1] == '1' && js[2] == ']' && js[3] == ':' && js[4] == c;
    OpenArray(js);
    AddDigit(js, OPENED);
    assert Add(OPENED, Primitive, 1, 2, 2) == p;
    assert p.tokens[0 := closed] == q.tokens && OpenFrom(p.tokens, 0) == Some(0) && OpenFrom(p.tokens, 1) == Some(0);
    assert Step(js, p) == Some(q);
    assert Step(js, q) == Some(r);
    assert OpenFrom(r.tokens, 0) == None && OpenFrom(r.tokens, 1) == None;
    assert RootOf(r.tokens, 0) == closed && RootOf(r.tokens, 1) == closed;
    assert Step(js, r) == if c == ']' then Some(r.(pos := 5)) else None;
    assert Run(js, q) == Run(js, r);
    assert Run(js, r.(pos := 5)) == Some(r.(pos := 5));
  }

  /** An array that ends after a key with its value. */
  lemma KeyInArray(js: string)
    requires js == "[\"a\":1]"
    ensures Parse(js)
      == Some([Tok(Array, 0, Some(7), 1, -1), Tok(String, 2, Some(3), 1, 0), Tok(Primitive, 5, Some(6), 0, 1)])
  {
    var key, one := Tok(String, 2, Some(3), 1, 0), Tok(Primitive, 5, Some(6), 0, 1);
    var p := Parser(4, [Tok(Array, 0, None, 1, -1), key.(size := 0)], 0);
    var q := p.(pos := 5, super := 1);
    var r := Parser(6, [Tok(Array, 0, None, 1, -1), key, one], 1);
    OpenArray(js);
    AddKey(js, p);
    assert Step(js, p) == Some(q);
    AddDigit(js, q);
    assert Add(q, Primitive, 5, 6, 6) == r;
    var done := [Tok(Array, 0, Some(7), 1, -1), key, one];
    assert done == r.tokens[0 := done[0]] && OpenFrom(r.tokens, 0) == Some(0) && OpenFrom(r.tokens, 1) == Some(0);
    CloseArray(js, r, done);
  }

  lemma AddKey(js: string, p: Parser)
    requires |js| > 4 && js[1..4] == "\"a\""
    requires p == Parser(4, [Tok(Array, 0, None, 1, -1), Tok(String, 2, Some(3), 0, 0)], 0)
    ensures Run(js, OPENED) == Run(js, p)
  {
    assert js[1] == js[1..4][0] && js[2] == js[1..4][1] && js[3] == js[1..4][2];
    assert StringEnd(js, 3) == Some(3) && StringEnd(js, 2) == Some(3);
    assert Add(OPENED, String, 2, 3, 4) == p;
    assert Step(js, OPENED) == Some(p);
  }

  /** No JSON value has these tokens. */
  lemma KeyInArrayIsNoValue(js: string, j: Json)
    requires js == "[\"a\":1]" && WellFormed(j)
    ensures TokensIn(js).Some? && !At(TokensIn(js).value, 0, Tokens(j))
  {
    KeyInArray(js);
    var tokens := TokensIn(js).value;
    if At(tokens, 0, Tokens(j)) {
      FirstAt(tokens, 0, j);
      ChildAt(tokens, 0, j, 0);
      assert j.children[..0] == [] && j.children[0] in j.children;
      FirstAt(tokens, 1, j.children[0]);
      assert false;
    }
  }
}
