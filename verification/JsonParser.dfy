/** The JSON parser (`utils/jsmn.h`, in strict mode and with parent links): it finds the tokens of every
    value that is spelled as JSON. */
module JsonParser {
  import opened Options
  import opened JsonTokens

  // ----- The parser -----

  /** A token under construction; an array or object without an end is still open. */
  datatype Tok = Tok(kind: Kind, start: nat, end: Option<nat>, size: nat, parent: int)

  /** Position in the text, tokens so far, and the token that the next one belongs to, or -1. */
  datatype Parser = Parser(pos: nat, tokens: seq<Tok>, super: int) {
    predicate Super() {
      0 <= super < |tokens|
    }
  }

  predicate IsBlank(c: char) {
    c in {'\t', '\r', '\n', ' '}
  }

  /** What ends a primitive. */
  predicate IsDelimiter(c: char) {
    IsBlank(c) || c in {',', ']', '}'}
  }

  predicate IsPrintable(c: char) {
    ' ' <= c < (127 as char)
  }

  /** jsmn_parse_primitive(): the end of the primitive. */
  function PrimitiveEnd(js: string, pos: nat): (end: Option<nat>)
    ensures end.Some? ==> pos <= end.value < |js| && (!IsDelimiter(js[pos]) ==> pos < end.value)
    decreases |js| - pos
  {
    if pos >= |js| then None
    else if IsDelimiter(js[pos]) then Some(pos)
    else if !IsPrintable(js[pos]) then None
    else PrimitiveEnd(js, pos + 1)
  }

  predicate IsHex(c: char) {
    '0' <= c <= '9' || 'A' <= c <= 'F' || 'a' <= c <= 'f'
  }

  /** The first position from pos on after n hexadecimal digits, or at the end of the text. */
  function HexEnd(js: string, pos: nat, n: nat): (end: Option<nat>)
    ensures end.Some? ==> end.value >= pos
    decreases n
  {
    if n == 0 || pos >= |js| then Some(pos)
    else if IsHex(js[pos]) then HexEnd(js, pos + 1, n - 1)
    else None
  }

  /** jsmn_parse_string(): the position of the closing quote. */
  function StringEnd(js: string, pos: nat): (end: Option<nat>)
    ensures end.Some? ==> pos <= end.value < |js|
    decreases |js| - pos
  {
    if pos >= |js| then None
    else if js[pos] == '"' then Some(pos)
    else if js[pos] == '\\' && pos + 1 < |js| then
      if js[pos + 1] in {'"', '/', '\\', 'b', 'f', 'r', 'n', 't'} then StringEnd(js, pos + 2)
      else if js[pos + 1] == 'u' then
        var end := HexEnd(js, pos + 2, 4);
        if end.Some? then StringEnd(js, end.value) else None
      else None
    else StringEnd(js, pos + 1)
  }

  /** One item more for the super token. */
  function Bumped(tokens: seq<Tok>, super: int): (r: seq<Tok>)
    ensures |r| == |tokens|
  {
    if 0 <= super < |tokens| then tokens[super := tokens[super].(size := tokens[super].size + 1)] else tokens
  }

  /** The open token that is reached first from token i along the parents. */
  function OpenFrom(tokens: seq<Tok>, i: int): (r: Option<nat>)
    ensures r.Some? ==> r.value < |tokens| && tokens[r.value].end.None?
    decreases i
  {
    if !(0 <= i < |tokens|) then None
    else if tokens[i].end.None? then Some(i)
    else if tokens[i].parent < i then OpenFrom(tokens, tokens[i].parent)
    else None
  }

  /** An opening bracket; objects and arrays cannot be keys. */
  function Open(p: Parser, kind: Kind): Option<Parser> {
    if p.Super() && p.tokens[p.super].kind.Object? then None
    else
      var t := Tok(kind, p.pos, None, 0, if p.Super() then p.super else -1);
      Some(Parser(p.pos + 1, Bumped(p.tokens, p.super) + [t], |p.tokens|))
  }

  /** A closing bracket, for which there must be an open token of the same kind. Where everything is closed it
      is ignored after a colon. */
  function Close(p: Parser, kind: Kind): Option<Parser> {
    if p.tokens == [] then None
    else
      var i := OpenFrom(p.tokens, |p.tokens| - 1);
      if i.Some? then
        var t := p.tokens[i.value];
        if t.kind != kind then None
        else Some(Parser(p.pos + 1, p.tokens[i.value := t.(end := Some(p.pos + 1))], t.parent))
      else if RootOf(p.tokens, |p.tokens| - 1).kind != kind || p.super == -1 then None
      else Some(p.(pos := p.pos + 1))
  }

  /** The last token along the parents. */
  function RootOf(tokens: seq<Tok>, i: nat): Tok
    requires i < |tokens|
    decreases i
  {
    if 0 <= tokens[i].parent < i then RootOf(tokens, tokens[i].parent) else tokens[i]
  }

  /** A token without items, after which the parser goes on at pos. */
  function Add(p: Parser, kind: Kind, start: nat, end: nat, pos: nat): Parser {
    Parser(pos, Bumped(p.tokens, p.super) + [Tok(kind, start, Some(end), 0, p.super)], p.super)
  }

  /** The body of the loop of jsmn_parse(). */
  function Step(js: string, p: Parser): (r: Option<Parser>)
    requires p.pos < |js|
    ensures r.Some? ==> r.value.pos > p.pos
  {
    var c := js[p.pos];
    if c == '{' then Open(p, Object)
    else if c == '[' then Open(p, Array)
    else if c == '}' then Close(p, Object)
    else if c == ']' then Close(p, Array)
    else if c == '"' then
      var end := StringEnd(js, p.pos + 1);
      if end.Some? then Some(Add(p, String, p.pos + 1, end.value, end.value + 1)) else None
    else if IsBlank(c) then Some(p.(pos := p.pos + 1))
    else if c == ':' then Some(p.(pos := p.pos + 1, super := |p.tokens| - 1))
    else if c == ',' then
      Some(p.(pos := p.pos + 1,
              super := if p.Super() && !p.tokens[p.super].kind.Array? && !p.tokens[p.super].kind.Object?
                       then p.tokens[p.super].parent else p.super))
    else if StartsPrimitive(c) && !(p.Super() && TakesNoPrimitive(p.tokens[p.super])) then
      var end := PrimitiveEnd(js, p.pos);
      if end.Some? then Some(Add(p, Primitive, p.pos, end.value, end.value)) else None
    else None
  }

  predicate StartsPrimitive(c: char) {
    c == '-' || '0' <= c <= '9' || c in {'t', 'f', 'n'}
  }

  /** Objects, whose keys are strings, and keys that have a value. */
  predicate TakesNoPrimitive(t: Tok) {
    t.kind.Object? || (t.kind.String? && t.size != 0)
  }

  /** The loop of jsmn_parse(). */
  function Run(js: string, p: Parser): Option<Parser>
    decreases |js| - p.pos
  {
    if p.pos >= |js| then Some(p)
    else
      var r := Step(js, p);
      if r.None? then None else Run(js, r.value)
  }

  /** jsmn_parse() of a whole text: the tokens, or None for a text that is not a complete JSON packet. */
  function Parse(js: string): Option<seq<Tok>> {
    var r := Run(js, Parser(0, [], -1));
    if r.Some? && forall t | t in r.value.tokens :: t.end.Some? then Some(r.value.tokens) else None
  }

  /** The token with its text in place of its position. */
  function WithText(js: string, t: Tok): Token {
    Token(t.kind, t.size, if t.end.Some? && t.start <= t.end.value <= |js| then js[t.start..t.end.value] else "")
  }

  function WithTexts(js: string, tokens: seq<Tok>): (r: seq<Token>)
    ensures |r| == |tokens| && forall i | 0 <= i < |r| :: r[i] == WithText(js, tokens[i])
  {
    seq(|tokens|, i requires 0 <= i < |tokens| => WithText(js, tokens[i]))
  }

  /** jsmn_parse_alloc(): the tokens of a text, with their texts, or None for an error. */
  method ParseTokens(js: string) returns (r: Option<seq<Token>>)
    ensures r == if Parse(js).Some? then Some(WithTexts(js, Parse(js).value)) else None
  {
    var p := Parser(0, [], -1);
    while p.pos < |js|
      invariant Run(js, p) == Run(js, Parser(0, [], -1))
      decreases |js| - p.pos
    {
      var q := Step(js, p);
      if q.None? { return None; }
      p := q.value;
    }
    if exists t | t in p.tokens :: t.end.None? { return None; }
    return Some(WithTexts(js, p.tokens));
  }

  // ----- How values are spelled -----

  /** A spelling of a JSON value: a primitive, a string, or an array or object with blanks after the opening
      and before the closing bracket. */
  datatype Spelling =
    | Plain(text: string)
    | Quoted(body: string)
    | List(kind: Kind, lead: string, items: seq<Item>, tail: string)

  /** An item with blanks around it; those of objects have a key. */
  datatype Item = Item(before: string, key: Option<Key>, value: Spelling, after: string)

  /** A key with blanks around the colon. */
  datatype Key = Key(body: string, before: string, after: string)

  function Spell(x: Spelling): string
    decreases x, 0
  {
    match x
    case Plain(text) => text
    case Quoted(body) => "\"" + body + "\""
    case List(kind, lead, items, tail) =>
      (if kind.Object? then "{" else "[") + lead + Join(items) + tail + (if kind.Object? then "}" else "]")
  }

  function Join(items: seq<Item>): string
    decreases items
  {
    if items == [] then ""
    else
      var n := |items| - 1;
      Join(items[..n]) + (if n > 0 then "," else "") + SpellItem(items[n])
  }

  function SpellItem(i: Item): string
    decreases i
  {
    i.before + SpellKey(i.key) + Spell(i.value) + i.after
  }

  function SpellKey(key: Option<Key>): string {
    if key.None? then "" else "\"" + key.value.body + "\"" + key.value.before + ":" + key.value.after
  }

  /** The value that is spelled. */
  function Value(x: Spelling): Json
    decreases x, 0
  {
    match x
    case Plain(text) => Json(Primitive, text, [])
    case Quoted(body) => Json(String, body, [])
    case List(kind, _, items, _) => Json(kind, Spell(x), Children(items))
  }

  function Children(items: seq<Item>): (values: seq<Json>)
    ensures |values| == |items|
    decreases items
  {
    if items == [] then []
    else
      var n := |items| - 1;
      Children(items[..n]) + [ItemValue(items[n])]
  }

  function ItemValue(i: Item): Json
    decreases i
  {
    if i.key.None? then Value(i.value) else Json(String, i.key.value.body, [Value(i.value)])
  }

  predicate Blank(s: string) {
    forall c | c in s :: IsBlank(c)
  }

  predicate IsPlain(s: string) {
    s != "" && StartsPrimitive(s[0]) && forall c | c in s :: IsPrintable(c) && !IsDelimiter(c)
  }

  /** The characters of a string, with complete escapes, without quotes of its own or a NUL. */
  predicate IsBody(s: string) {
    if s == "" then true
    else if s[0] == '"' || s[0] == '\0' then false
    else if s[0] == '\\' then
      |s| > 1 && (if s[1] == 'u' then |s| >= 6 && (forall i | 2 <= i < 6 :: IsHex(s[i])) && IsBody(s[6..])
                  else s[1] in {'"', '/', '\\', 'b', 'f', 'r', 'n', 't'} && IsBody(s[2..]))
    else IsBody(s[1..])
  }

  /** The spelling follows the rules of JSON, as far as the parser checks them. */
  predicate Legal(x: Spelling)
    decreases x, 0
  {
    match x
    case Plain(text) => IsPlain(text)
    case Quoted(body) => IsBody(body)
    case List(kind, lead, items, tail) =>
      (kind.Object? || kind.Array?) && Blank(lead) && Blank(tail) && LegalItems(kind, items)
  }

  predicate LegalItems(kind: Kind, items: seq<Item>)
    decreases items
  {
    items == [] || (LegalItems(kind, items[..|items| - 1]) && LegalItem(kind, items[|items| - 1]))
  }

  predicate LegalItem(kind: Kind, i: Item)
    decreases i
  {
    && Blank(i.before) && Blank(i.after) && Legal(i.value) && i.key.Some? == kind.Object?
    && (i.key.Some? ==> IsBody(i.key.value.body) && Blank(i.key.value.before) && Blank(i.key.value.after))
  }

  // ----- Tokens of a spelling -----

  /** The tokens of a spelling that begins at pos; their numbers begin at base, and the value belongs to the
      given parent. */
  function Toks(x: Spelling, pos: nat, base: nat, parent: int): (t: seq<Tok>)
    ensures |t| > 0
    decreases x, 0
  {
    match x
    case Plain(text) => [Tok(Primitive, pos, Some(pos + |text|), 0, parent)]
    case Quoted(body) => [Tok(String, pos + 1, Some(pos + 1 + |body|), 0, parent)]
    case List(kind, lead, items, tail) =>
      [Tok(kind, pos, Some(pos + |Spell(x)|), |items|, parent)] + ItemsToks(items, pos + 1 + |lead|, base + 1, base)
  }

  function ItemsToks(items: seq<Item>, pos: nat, base: nat, parent: nat): seq<Tok>
    decreases items
  {
    if items == [] then []
    else
      var n := |items| - 1;
      var rest := ItemsToks(items[..n], pos, base, parent);
      rest + ItemToks(items[n], pos + |Join(items[..n])| + (if n > 0 then 1 else 0), base + |rest|, parent)
  }

  function ItemToks(i: Item, pos: nat, base: nat, parent: nat): seq<Tok>
    decreases i
  {
    var start := pos + |i.before|;
    if i.key.None? then Toks(i.value, start, base, parent)
    else
      [Tok(String, start + 1, Some(start + 1 + |i.key.value.body|), 1, parent)]
      + Toks(i.value, start + |SpellKey(i.key)|, base + 1, base)
  }
}
