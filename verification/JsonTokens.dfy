/** Tokens of JSON values, and counting them (`utils/jsmnx.c`). */
module JsonTokens {
  datatype Kind = Object | Array | String | Primitive

  /** A JSON value with its text; the children of an object are its keys, each with its value as a child. */
  datatype Json = Json(kind: Kind, text: string, children: seq<Json>)

  /** What the JSON parser makes of a value: its kind, the number of its items and its text. */
  datatype Token = Token(kind: Kind, size: nat, text: string)

  /** Strings and primitives have no children; those of an object are keys. */
  ghost predicate WellFormed(j: Json) {
    && (j.kind.String? || j.kind.Primitive? ==> j.children == [])
    && forall c | c in j.children :: if j.kind.Object? then IsKey(c) else WellFormed(c)
  }

  /** A string with a value. */
  ghost predicate IsKey(j: Json) {
    j.kind.String? && |j.children| == 1 && WellFormed(j.children[0])
  }

  function First(j: Json): Token {
    Token(j.kind, |j.children|, j.text)
  }

  /** The tokens of a value: each is followed by those of its children. */
  function Tokens(j: Json): (t: seq<Token>)
    ensures |t| > 0
    decreases j
  {
    [First(j)] + TokensOf(j.children)
  }

  function TokensOf(values: seq<Json>): seq<Token>
    decreases values
  {
    if values == [] then [] else TokensOf(values[..|values| - 1]) + Tokens(values[|values| - 1])
  }

  /** The tokens of a value begin at t. */
  ghost predicate At(tokens: seq<Token>, t: nat, part: seq<Token>) {
    t + |part| <= |tokens| && tokens[t..t + |part|] == part
  }

  lemma {:induction false} TokensOfPrefix(values: seq<Json>, k: nat)
    requires k < |values|
    ensures |TokensOf(values[..k])| + |Tokens(values[k])| <= |TokensOf(values)|
    ensures var b := |TokensOf(values[..k])|; TokensOf(values)[b..b + |Tokens(values[k])|] == Tokens(values[k])
    decreases |values|
  {
    var n := |values| - 1;
    if k < n {
      assert values[..n][..k] == values[..k];
      TokensOfPrefix(values[..n], k);
      var a, b := TokensOf(values[..n]), |TokensOf(values[..k])|;
      assert TokensOf(values)[b..b + |Tokens(values[k])|] == a[b..b + |Tokens(values[k])|];
    }
  }

  lemma AtSlice(tokens: seq<Token>, t: nat, part: seq<Token>, b: nat, n: nat)
    requires At(tokens, t, part) && b + n <= |part|
    ensures At(tokens, t + b, part[b..b + n])
  {
    var x, y := tokens[t + b..t + b + n], part[b..b + n];
    forall k | 0 <= k < n ensures x[k] == y[k] {
      assert tokens[t..t + |part|][b + k] == part[b + k];
    }
  }

  lemma FirstAt(tokens: seq<Token>, t: nat, j: Json)
    requires At(tokens, t, Tokens(j))
    ensures t < |tokens| && tokens[t] == First(j)
  {
    assert tokens[t..t + |Tokens(j)|][0] == First(j);
  }

  lemma TokensOfNext(values: seq<Json>, k: nat)
    requires k < |values|
    ensures |TokensOf(values[..k + 1])| == |TokensOf(values[..k])| + |Tokens(values[k])|
  {
    assert values[..k + 1][..k] == values[..k];
  }

  /** Child k of a value at t begins after the tokens of the children before it. */
  lemma ChildAt(tokens: seq<Token>, t: nat, j: Json, k: nat)
    requires At(tokens, t, Tokens(j)) && k < |j.children|
    ensures At(tokens, t + 1 + |TokensOf(j.children[..k])|, Tokens(j.children[k]))
  {
    TokensOfPrefix(j.children, k);
    ChildrenAt(tokens, t, j);
    AtSlice(tokens, t + 1, TokensOf(j.children), |TokensOf(j.children[..k])|, |Tokens(j.children[k])|);
  }

  lemma ChildrenAt(tokens: seq<Token>, t: nat, j: Json)
    requires At(tokens, t, Tokens(j))
    ensures At(tokens, t + 1, TokensOf(j.children))
  {
    var all, rest := Tokens(j), TokensOf(j.children);
    AtSlice(tokens, t, all, 1, |rest|);
    assert all[1..1 + |rest|] == rest;
  }

  /** jsmn_count(): the number of tokens inside of a value. */
  method Count(tokens: seq<Token>, t: nat, ghost j: Json) returns (n: nat)
    requires WellFormed(j) && At(tokens, t, Tokens(j))
    ensures n == |Tokens(j)| - 1
    decreases j, 1
  {
    n := 0;
    FirstAt(tokens, t, j);
    var kind := tokens[t].kind;
    if kind.Object? {
      n := CountPairs(tokens, t, j);
    } else if kind.Array? {
      n := CountItems(tokens, t, j);
    }
  }

  method CountItems(tokens: seq<Token>, t: nat, ghost j: Json) returns (n: nat)
    requires WellFormed(j) && At(tokens, t, Tokens(j)) && j.kind.Array? && t < |tokens| && tokens[t] == First(j)
    ensures n == |Tokens(j)| - 1
    decreases j, 0
  {
    n := 0;
    var i: nat := 0;
    while i < tokens[t].size
      invariant i <= |j.children| && n == |TokensOf(j.children[..i])|
    {
      ChildAt(tokens, t, j, i);
      TokensOfNext(j.children, i);
      n := n + 1;
      var m := Count(tokens, t + n, j.children[i]);
      n := n + m;
      i := i + 1;
    }
    assert j.children[..i] == j.children;
  }

  method CountPairs(tokens: seq<Token>, t: nat, ghost j: Json) returns (n: nat)
    requires WellFormed(j) && At(tokens, t, Tokens(j)) && j.kind.Object? && t < |tokens| && tokens[t] == First(j)
    ensures n == |Tokens(j)| - 1
    decreases j, 0
  {
    n := 0;
    var i: nat := 0;
    while i < tokens[t].size
      invariant i <= |j.children| && n == |TokensOf(j.children[..i])|
    {
      ghost var key := j.children[i];
      assert key in j.children && IsKey(key);
      PairAt(tokens, t, j, i);
      n := n + 1;
      assert tokens[t + n].kind.String?;
      n := n + 1;
      var m := Count(tokens, t + n, key.children[0]);
      n := n + m;
      i := i + 1;
    }
    assert j.children[..i] == j.children;
  }

  /** The value of a key at b is the token after it. */
  lemma KeyAt(tokens: seq<Token>, b: nat, key: Json)
    requires At(tokens, b, Tokens(key)) && IsKey(key)
    ensures At(tokens, b + 1, Tokens(key.children[0])) && |Tokens(key)| == 1 + |Tokens(key.children[0])|
  {
    ChildAt(tokens, b, key, 0);
    TokensOfNext(key.children, 0);
    assert key.children[..0] == [] && key.children[..1] == key.children;
  }

  /** A key and its value. */
  lemma PairAt(tokens: seq<Token>, t: nat, j: Json, k: nat)
    requires At(tokens, t, Tokens(j)) && k < |j.children| && IsKey(j.children[k])
    ensures var key, b := j.children[k], t + |TokensOf(j.children[..k])|;
      && b + 1 < |tokens| && tokens[b + 1] == First(key) && At(tokens, b + 2, Tokens(key.children[0]))
      && |TokensOf(j.children[..k + 1])| == |TokensOf(j.children[..k])| + 1 + |Tokens(key.children[0])|
  {
    var key, b := j.children[k], t + |TokensOf(j.children[..k])|;
    ChildAt(tokens, t, j, k);
    FirstAt(tokens, b + 1, key);
    KeyAt(tokens, b + 1, key);
    TokensOfNext(j.children, k);
  }
}
