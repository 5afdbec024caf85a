/** Writing and reading n-dimensional arrays as nested JSON arrays (`dlite-entity.c`). */
module PrintScan {
  import opened Options
  import opened MixedRadix
  import opened JsonTokens
  import opened JsonParser
  import opened JsonParsing

  // ----- Scanning -----

  type Scan = string -> Option<int>

  /** The members that scanning the value with the given shape should give. */
  function Scanned(j: Json, shape: seq<nat>, scan: Scan): Option<seq<int>>
    decreases |shape|, 0
  {
    if shape == [] then
      var x := scan(j.text); if x.Some? then Some([x.value]) else None
    else if !j.kind.Array? || |j.children| != shape[0] then None
    else ScannedAll(j.children, shape[1..], scan)
  }

  function ScannedAll(values: seq<Json>, shape: seq<nat>, scan: Scan): Option<seq<int>>
    decreases |shape|, 1 + |values|
  {
    if values == [] then Some([])
    else
      var a := ScannedAll(values[..|values| - 1], shape, scan);
      var b := Scanned(values[|values| - 1], shape, scan);
      if a.Some? && b.Some? then Some(a.value + b.value) else None
  }

  /** The nesting is that of the shape, and each innermost value can be scanned. */
  ghost predicate Conforms(j: Json, shape: seq<nat>, scan: Scan)
    decreases |shape|
  {
    if shape == [] then scan(j.text).Some?
    else
      j.kind.Array? && |j.children| == shape[0] &&
      forall i | 0 <= i < |j.children| :: Conforms(j.children[i], shape[1..], scan)
  }

  lemma {:induction false} ScannedIff(j: Json, shape: seq<nat>, scan: Scan)
    ensures Scanned(j, shape, scan).Some? <==> Conforms(j, shape, scan)
    ensures Scanned(j, shape, scan).Some? ==> |Scanned(j, shape, scan).value| == Product(shape)
    decreases |shape|, 0
  {
    if shape != [] && j.kind.Array? && |j.children| == shape[0] { ScannedAllIff(j.children, shape[1..], scan); }
  }

  lemma {:induction false} ScannedAllIff(values: seq<Json>, shape: seq<nat>, scan: Scan)
    ensures ScannedAll(values, shape, scan).Some? <==> forall i | 0 <= i < |values| :: Conforms(values[i], shape, scan)
    ensures ScannedAll(values, shape, scan).Some? ==>
      |ScannedAll(values, shape, scan).value| == |values| * Product(shape)
    decreases |shape|, 1 + |values|
  {
    if values != [] {
      var n := |values| - 1;
      ScannedAllIff(values[..n], shape, scan);
      ScannedIff(values[n], shape, scan);
      assert forall i | 0 <= i < n :: values[..n][i] == values[i];
      MulDistributes(n, 1, Product(shape));
    }
  }

  /** The value that an index tuple leads to. */
  function Path(j: Json, idx: seq<int>): Json {
    if idx == [] || !(0 <= idx[0] < |j.children|) then j else Path(j.children[idx[0]], idx[1..])
  }

  lemma {:induction false} ScannedRow(values: seq<Json>, shape: seq<nat>, scan: Scan, i: nat)
    requires ScannedAll(values, shape, scan).Some? && i < |values|
    ensures Scanned(values[i], shape, scan).Some? && 0 <= i * Product(shape)
      && (i + 1) * Product(shape) <= |ScannedAll(values, shape, scan).value|
    ensures Scanned(values[i], shape, scan).value
      == ScannedAll(values, shape, scan).value[i * Product(shape)..(i + 1) * Product(shape)]
    decreases |values|
  {
    var n, p := |values| - 1, Product(shape);
    var rest := values[..n];
    ScannedAllIff(values, shape, scan);
    ScannedAllIff(rest, shape, scan);
    MulDistributes(n, 1, p);
    MulDistributes(i, 1, p);
    MulMonotonic(0, i, p);
    MulMonotonic(i + 1, n + 1, p);
    if i < n {
      ScannedRow(rest, shape, scan, i);
      MulMonotonic(i + 1, n, p);
      assert ScannedAll(values, shape, scan).value[..n * p] == ScannedAll(rest, shape, scan).value;
      var a := ScannedAll(values, shape, scan).value;
      assert a[..n * p][i * p..(i + 1) * p] == a[i * p..(i + 1) * p];
    } else {
      ScannedIff(values[n], shape, scan);
    }
  }

  /** The members are in row-major order: that of an index tuple is scanned from the value it leads to. */
  lemma {:induction false} ScannedAt(j: Json, shape: seq<nat>, scan: Scan, idx: seq<int>)
    requires Scanned(j, shape, scan).Some? && InBounds(idx, shape)
    ensures 0 <= Ravel(idx, shape) < |Scanned(j, shape, scan).value|
    ensures scan(Path(j, idx).text) == Some(Scanned(j, shape, scan).value[Ravel(idx, shape)])
    decreases |shape|
  {
    ScannedIff(j, shape, scan);
    if shape != [] {
      var p, i := Product(shape[1..]), idx[0];
      ScannedRow(j.children, shape[1..], scan, i);
      ScannedAt(j.children[i], shape[1..], scan, idx[1..]);
      MulDistributes(i, 1, p);
      var a, r := Scanned(j, shape, scan).value, Ravel(idx[1..], shape[1..]);
      assert a[i * p..(i + 1) * p][r] == a[i * p + r];
    }
  }

  /** scandim(): on success all members have been written and t is at the last token of the array. */
  method ScanDim(d: nat, tokens: seq<Token>, dest: array<int>, pos: nat, shape: seq<nat>, t: nat, scan: Scan,
                 ghost j: Json)
    returns (ok: bool, next: nat, last: nat)
    requires d <= |shape| && WellFormed(j) && At(tokens, t, Tokens(j)) && pos + Product(shape[d..]) <= dest.Length
    modifies dest
    ensures ok == Scanned(j, shape[d..], scan).Some?
    ensures ok ==> next == pos + Product(shape[d..]) && last == t + |Tokens(j)| - 1
    ensures ok ==> dest[pos..next] == Scanned(j, shape[d..], scan).value
    ensures dest[..pos] == old(dest[..pos])
    ensures dest[pos + Product(shape[d..])..] == old(dest[pos + Product(shape[d..])..])
    decreases |shape| - d, 0
  {
    next, last := pos, t;
    FirstAt(tokens, t, j);
    if d < |shape| {
      if tokens[t].kind != Array { return false, next, last; }
      if tokens[t].size != shape[d] { return false, next, last; }
      assert shape[d..][1..] == shape[d + 1..];
      ok, next, last := ScanItems(d, tokens, dest, pos, shape, t, scan, j);
    } else {
      var x := scan(tokens[t].text);
      if x.None? { return false, next, last; }
      dest[pos] := x.value;
      var n := Count(tokens, t, j);
      return true, pos + 1, t + n;
    }
  }

  lemma ScannedAllFails(values: seq<Json>, shape: seq<nat>, scan: Scan, i: nat)
    requires i < |values| && Scanned(values[i], shape, scan).None?
    ensures ScannedAll(values, shape, scan).None?
  {
    ScannedAllIff(values, shape, scan);
    ScannedIff(values[i], shape, scan);
  }

  lemma ScannedSnoc(values: seq<Json>, shape: seq<nat>, scan: Scan, i: nat)
    requires i < |values| && ScannedAll(values[..i], shape, scan).Some? && Scanned(values[i], shape, scan).Some?
    ensures ScannedAll(values[..i + 1], shape, scan)
      == Some(ScannedAll(values[..i], shape, scan).value + Scanned(values[i], shape, scan).value)
  {
    assert values[..i + 1][..i] == values[..i];
  }

  /** The loop over the items of one dimension. */
  method ScanItems(d: nat, tokens: seq<Token>, dest: array<int>, pos: nat, shape: seq<nat>, t: nat, scan: Scan,
                   ghost j: Json)
    returns (ok: bool, next: nat, last: nat)
    requires d < |shape| && WellFormed(j) && At(tokens, t, Tokens(j)) && j.kind.Array? && |j.children| == shape[d]
    requires pos + shape[d] * Product(shape[d + 1..]) <= dest.Length
    modifies dest
    ensures ok == ScannedAll(j.children, shape[d + 1..], scan).Some?
    ensures ok ==> next == pos + shape[d] * Product(shape[d + 1..]) && last == t + |Tokens(j)| - 1
    ensures ok ==> dest[pos..next] == ScannedAll(j.children, shape[d + 1..], scan).value
    ensures dest[..pos] == old(dest[..pos])
    ensures dest[pos + shape[d] * Product(shape[d + 1..])..] == old(dest[pos + shape[d] * Product(shape[d + 1..])..])
    decreases |shape| - d - 1, 2
  {
    next, last := pos, t;
    ghost var rest := shape[d + 1..];
    ghost var end := pos + shape[d] * Product(rest);
    ghost var original, done := dest[..], [];
    var i: nat := 0;
    while i < shape[d]
      invariant ItemsScanned(j.children, i, rest, scan, pos, next, t, last, done)
      invariant Filled(dest, original, pos, next, end, done)
    {
      ok, next, last, done := ScanItem(d, tokens, dest, pos, next, end, shape, t, last, scan, j, i, original, done);
      if !ok { return; }
      i := i + 1;
    }
    assert j.children[..i] == j.children;
    return true, next, last;
  }

  /** The first i values have been scanned: the position of the next member, the last token, and the members. */
  ghost predicate ItemsScanned(values: seq<Json>, i: nat, shape: seq<nat>, scan: Scan, pos: nat, next: nat, t: nat,
                               last: nat, done: seq<int>)
  {
    && i <= |values| && next == pos + i * Product(shape)
    && last == t + |TokensOf(values[..i])| && ScannedAll(values[..i], shape, scan) == Some(done)
  }

  lemma NextScanned(values: seq<Json>, i: nat, shape: seq<nat>, scan: Scan, pos: nat, next: nat, t: nat, last: nat,
                    done: seq<int>, more: seq<int>)
    requires ItemsScanned(values, i, shape, scan, pos, next, t, last, done) && i < |values|
    requires Scanned(values[i], shape, scan) == Some(more)
    ensures ItemsScanned(values, i + 1, shape, scan, pos, next + Product(shape), t, last + |Tokens(values[i])|,
                         done + more)
  {
    MulDistributes(i, 1, Product(shape));
    TokensOfNext(values, i);
    ScannedSnoc(values, shape, scan, i);
  }

  lemma RowEnds(i: nat, n: nat, p: nat)
    requires i < n
    ensures i * p + p == (i + 1) * p <= n * p
  {
    MulDistributes(i, 1, p);
    MulMonotonic(i + 1, n, p);
  }

  /** The members from pos to next have been written, and nothing before pos or after end. */
  ghost predicate Filled(dest: array<int>, original: seq<int>, pos: nat, next: nat, end: nat, done: seq<int>)
    reads dest
  {
    && pos <= next <= end <= dest.Length == |original| && dest[pos..next] == done
    && dest[..pos] == original[..pos] && dest[end..] == original[end..]
  }

  /** One item of the loop. */
  method ScanItem(d: nat, tokens: seq<Token>, dest: array<int>, ghost pos: nat, from: nat, ghost end: nat,
                  shape: seq<nat>, ghost t: nat, cur: nat, scan: Scan, ghost j: Json, ghost i: nat,
                  ghost original: seq<int>, ghost done: seq<int>)
    returns (ok: bool, next: nat, last: nat, ghost more: seq<int>)
    requires d < |shape| && WellFormed(j) && j.kind.Array? && At(tokens, t, Tokens(j)) && i < |j.children|
    requires end == pos + |j.children| * Product(shape[d + 1..])
    requires Filled(dest, original, pos, from, end, done)
    requires ItemsScanned(j.children, i, shape[d + 1..], scan, pos, from, t, cur, done)
    modifies dest
    ensures !ok ==> ScannedAll(j.children, shape[d + 1..], scan).None?
    ensures ok ==> ItemsScanned(j.children, i + 1, shape[d + 1..], scan, pos, next, t, last, more)
    ensures ok ==> Filled(dest, original, pos, next, end, more)
    ensures dest[..pos] == original[..pos] && dest[end..] == original[end..]
    decreases |shape| - d - 1, 1
  {
    ChildAt(tokens, t, j, i);
    RowEnds(i, |j.children|, Product(shape[d + 1..]));
    ghost var a := dest[..];
    ok, next, last := ScanDim(d + 1, tokens, dest, from, shape, cur + 1, scan, j.children[i]);
    ghost var to := from + Product(shape[d + 1..]);
    FillMore(a, dest[..], original, pos, from, to, end, done);
    more := done + dest[from..to];
    if ok {
      NextScanned(j.children, i, shape[d + 1..], scan, pos, from, t, cur, done, dest[from..to]);
    } else {
      ScannedAllFails(j.children, shape[d + 1..], scan, i);
    }
  }

  lemma FillMore(a: seq<int>, b: seq<int>, original: seq<int>, pos: nat, from: nat, to: nat, end: nat, done: seq<int>)
    requires pos <= from <= to <= end <= |a| == |b| == |original|
    requires a[pos..from] == done && a[..pos] == original[..pos] && a[end..] == original[end..]
    requires b[..from] == a[..from] && b[to..] == a[to..]
    ensures b[pos..to] == done + b[from..to] && b[..pos] == original[..pos] && b[end..] == original[end..]
  {
    assert b[..pos] == b[..from][..pos] == a[..from][..pos];
    assert b[end..] == b[to..][end - to..] == a[to..][end - to..];
    assert b[pos..from] == b[..from][pos..] == a[..from][pos..];
  }

  // ----- Printing -----

  /** How nested arrays are delimited: the blanks after the opening bracket, after a comma and before the
      closing bracket. */
  datatype Style = Style(open: string, between: string, close: string) {
    function Start(): string { "[" + open }
    function Sep(): string { "," + between }
    function End(): string { close + "]" }

    predicate IsBlank() {
      Blank(open) && Blank(between) && Blank(close)
    }
  }

  const COMPACT := Style("", " ", "")
  const WIDE := Style("\n        ", "\n        ", "\n      ")

  /** The style for relations that are not to be compact, and for everything else. */
  function StyleOf(compact: bool): (s: Style)
    ensures s.IsBlank()
  {
    if compact then COMPACT else WIDE
  }

  lemma Delimiters()
    ensures StyleOf(true).Start() == "[" && StyleOf(true).Sep() == ", " && StyleOf(true).End() == "]"
    ensures StyleOf(false).Start() == "[\n        " && StyleOf(false).Sep() == ",\n        "
    ensures StyleOf(false).End() == "\n      ]"
  {}

  /** How members are printed, and how that spells a JSON value with blanks around it. */
  datatype Codec = Codec(show: int -> string, lead: int -> string, spelling: int -> Spelling, trail: int -> string) {
    predicate PrintsJson(x: int) {
      && Blank(lead(x)) && Legal(spelling(x)) && Blank(trail(x))
      && show(x) == lead(x) + Spell(spelling(x)) + trail(x)
    }
  }

  /** What is printed for the data are legal spellings of JSON values, padded with blanks. */
  ghost predicate PrintsJson(data: seq<int>, codec: Codec) {
    forall x {:trigger codec.PrintsJson(x)} | x in data :: codec.PrintsJson(x)
  }

  lemma RowSizes(n: nat, p: nat)
    requires n > 0
    ensures 0 <= (n - 1) * p <= n * p && n * p == (n - 1) * p + p
  {
    MulDistributes(n - 1, 1, p);
    MulMonotonic(0, n - 1, p);
  }

  /** The text of an array. */
  function Text(data: seq<int>, shape: seq<nat>, style: Style, codec: Codec): string
    requires |data| == Product(shape)
    decreases |shape|, 0
  {
    if shape == [] then codec.show(data[0])
    else style.Start() + Rows(data, shape[0], shape[1..], style, codec) + style.End()
  }

  /** The text of n subarrays with separators between them. */
  function Rows(data: seq<int>, n: nat, shape: seq<nat>, style: Style, codec: Codec): string
    requires |data| == n * Product(shape)
    decreases |shape|, 1 + n
  {
    if n == 0 then ""
    else
      RowSizes(n, Product(shape));
      var k := (n - 1) * Product(shape);
      Rows(data[..k], n - 1, shape, style, codec) + (if n > 1 then style.Sep() else "")
        + Text(data[k..], shape, style, codec)
  }

  /** The blanks before and after the text, if it is that of a member. */
  function Lead(data: seq<int>, shape: seq<nat>, codec: Codec): string
    requires |data| == Product(shape)
  {
    if shape == [] then codec.lead(data[0]) else ""
  }

  function Trail(data: seq<int>, shape: seq<nat>, codec: Codec): string
    requires |data| == Product(shape)
  {
    if shape == [] then codec.trail(data[0]) else ""
  }

  /** How that text spells a JSON value. */
  function Nested(data: seq<int>, shape: seq<nat>, style: Style, codec: Codec): Spelling
    requires |data| == Product(shape)
    decreases |shape|, 0
  {
    if shape == [] then codec.spelling(data[0])
    else List(Array, style.open, NestedRows(data, shape[0], shape[1..], style, codec), style.close)
  }

  function NestedRows(data: seq<int>, n: nat, shape: seq<nat>, style: Style, codec: Codec): (rows: seq<Item>)
    requires |data| == n * Product(shape)
    ensures |rows| == n
    decreases |shape|, 1 + n
  {
    if n == 0 then []
    else
      RowSizes(n, Product(shape));
      var k := (n - 1) * Product(shape);
      NestedRows(data[..k], n - 1, shape, style, codec) + [Row(data[k..], n > 1, shape, style, codec)]
  }

  /** A row, after a comma or not. */
  function Row(data: seq<int>, comma: bool, shape: seq<nat>, style: Style, codec: Codec): Item
    requires |data| == Product(shape)
    decreases |shape|, 1
  {
    Item((if comma then style.between else "") + Lead(data, shape, codec), None, Nested(data, shape, style, codec),
         Trail(data, shape, codec))
  }

  lemma {:induction false} TextIsSpelled(data: seq<int>, shape: seq<nat>, style: Style, codec: Codec)
    requires |data| == Product(shape) && PrintsJson(data, codec) && style.IsBlank()
    ensures Text(data, shape, style, codec)
      == Lead(data, shape, codec) + Spell(Nested(data, shape, style, codec)) + Trail(data, shape, codec)
    ensures Legal(Nested(data, shape, style, codec))
    ensures Blank(Lead(data, shape, codec)) && Blank(Trail(data, shape, codec))
    decreases |shape|, 0
  {
    if shape == [] {
      assert codec.PrintsJson(data[0]);
    } else {
      RowsAreSpelled(data, shape[0], shape[1..], style, codec);
      var rows := NestedRows(data, shape[0], shape[1..], style, codec);
      assert style.Start() + Join(rows) + style.End() == "[" + style.open + Join(rows) + style.close + "]";
    }
  }

  lemma ArrayTextIsSpelled(data: seq<int>, shape: seq<nat>, style: Style, codec: Codec)
    requires |data| == Product(shape) && shape != [] && PrintsJson(data, codec) && style.IsBlank()
    ensures Text(data, shape, style, codec) == Spell(Nested(data, shape, style, codec))
    ensures Legal(Nested(data, shape, style, codec))
  {
    TextIsSpelled(data, shape, style, codec);
    assert "" + Spell(Nested(data, shape, style, codec)) + "" == Spell(Nested(data, shape, style, codec));
  }

  lemma {:induction false} RowsAreSpelled(data: seq<int>, n: nat, shape: seq<nat>, style: Style, codec: Codec)
    requires |data| == n * Product(shape) && PrintsJson(data, codec) && style.IsBlank()
    ensures Rows(data, n, shape, style, codec) == Join(NestedRows(data, n, shape, style, codec))
    ensures LegalItems(Array, NestedRows(data, n, shape, style, codec))
    decreases |shape|, 1 + n
  {
    if n > 0 {
      RowSizes(n, Product(shape));
      var k := (n - 1) * Product(shape);
      SplitData(data, k);
      RowsAreSpelled(data[..k], n - 1, shape, style, codec);
      TextIsSpelled(data[k..], shape, style, codec);
      OneMoreRow(NestedRows(data[..k], n - 1, shape, style, codec), if n > 1 then style.between else "",
                 Lead(data[k..], shape, codec), Nested(data[k..], shape, style, codec), Trail(data[k..], shape, codec));
    }
  }

  lemma PaddedItem(between: string, lead: string, value: Spelling, trail: string)
    ensures SpellItem(Item(between + lead, None, value, trail)) == between + (lead + Spell(value) + trail)
  {
    assert between + lead + "" + Spell(value) + trail == between + (lead + Spell(value) + trail);
  }

  lemma OneMoreRow(rows: seq<Item>, between: string, lead: string, value: Spelling, trail: string)
    requires Legal(value) && Blank(between) && Blank(lead) && Blank(trail) && LegalItems(Array, rows)
    ensures var all := rows + [Item(between + lead, None, value, trail)];
      && LegalItems(Array, all)
      && Join(all) == Join(rows) + (if rows != [] then "," + between else between) + (lead + Spell(value) + trail)
  {
    var i := Item(between + lead, None, value, trail);
    assert (rows + [i])[..|rows|] == rows;
    PaddedItem(between, lead, value, trail);
    assert Join(rows + [i]) == Join(rows) + (if rows != [] then "," else "") + SpellItem(i);
  }

  /** Each member of the data can be read back from its text. */
  ghost predicate ReadsBack(data: seq<int>, codec: Codec, scan: Scan) {
    forall x {:trigger IsReadBack(x, codec, scan)} | x in data :: IsReadBack(x, codec, scan)
  }

  ghost predicate IsReadBack(x: int, codec: Codec, scan: Scan) {
    scan(Value(codec.spelling(x)).text) == Some(x)
  }

  lemma SplitData(data: seq<int>, k: nat)
    requires k <= |data|
    ensures data == data[..k] + data[k..]
    ensures forall x {:trigger x in data[..k]} {:trigger x in data[k..]} ::
      x in data[..k] || x in data[k..] ==> x in data
  {}

  /** Scanning the value that is spelled gives the data again. */
  lemma {:induction false} ScanNested(data: seq<int>, shape: seq<nat>, style: Style, codec: Codec, scan: Scan)
    requires |data| == Product(shape) && ReadsBack(data, codec, scan)
    ensures Scanned(Value(Nested(data, shape, style, codec)), shape, scan) == Some(data)
    decreases |shape|, 0
  {
    if shape == [] {
      assert data == [data[0]] && IsReadBack(data[0], codec, scan);
    } else {
      ScanNestedRows(data, shape[0], shape[1..], style, codec, scan);
    }
  }

  lemma {:induction false} ScanNestedRows(data: seq<int>, n: nat, shape: seq<nat>, style: Style, codec: Codec,
                                          scan: Scan)
    requires |data| == n * Product(shape) && ReadsBack(data, codec, scan)
    ensures ScannedAll(Children(NestedRows(data, n, shape, style, codec)), shape, scan) == Some(data)
    decreases |shape|, 1 + n
  {
    if n > 0 {
      RowSizes(n, Product(shape));
      var k := (n - 1) * Product(shape);
      SplitData(data, k);
      ScanNestedRows(data[..k], n - 1, shape, style, codec, scan);
      ScanNested(data[k..], shape, style, codec, scan);
      var rows, last := NestedRows(data[..k], n - 1, shape, style, codec), Row(data[k..], n > 1, shape, style, codec);
      assert NestedRows(data, n, shape, style, codec) == rows + [last];
      JoinScans(rows, last, data[..k], data[k..], data, shape, scan);
    }
  }

  lemma JoinScans(rows: seq<Item>, last: Item, a: seq<int>, b: seq<int>, data: seq<int>, shape: seq<nat>, scan: Scan)
    requires ScannedAll(Children(rows), shape, scan) == Some(a) && data == a + b && last.key.None?
    requires Scanned(Value(last.value), shape, scan) == Some(b)
    ensures ScannedAll(Children(rows + [last]), shape, scan) == Some(data)
  {
    ScanOneMore(rows, last, shape, scan, a, b);
  }

  lemma ScanOneMore(rows: seq<Item>, last: Item, shape: seq<nat>, scan: Scan, a: seq<int>, b: seq<int>)
    requires ScannedAll(Children(rows), shape, scan) == Some(a) && Scanned(ItemValue(last), shape, scan) == Some(b)
    ensures ScannedAll(Children(rows + [last]), shape, scan) == Some(a + b)
  {
    assert (rows + [last])[..|rows|] == rows;
    var values := Children(rows + [last]);
    assert values == Children(rows) + [ItemValue(last)] && values[..|rows|] == Children(rows);
  }

  /** What is printed for an array can be parsed, its tokens are those of the nested value, and scanning that
      gives the data again. */
  lemma ScanPrinted(data: seq<int>, shape: seq<nat>, style: Style, codec: Codec, scan: Scan)
    requires |data| == Product(shape) && shape != [] && style.IsBlank() && PrintsJson(data, codec)
      && ReadsBack(data, codec, scan)
    ensures var text, j := Text(data, shape, style, codec), Value(Nested(data, shape, style, codec));
      && Parse(text).Some? && WithTexts(text, Parse(text).value) == Tokens(j)
      && WellFormed(j) && Scanned(j, shape, scan) == Some(data)
  {
    ArrayTextIsSpelled(data, shape, style, codec);
    TokensOfSpelling(Nested(data, shape, style, codec));
    ScanNested(data, shape, style, codec, scan);
  }

  // ----- Writing to a buffer -----

  /** Expands to a - b if that is positive, else to 0. */
  function Diff(a: nat, b: nat): nat {
    if a > b then a - b else 0
  }

  /** What snprintf() leaves in a buffer: as much as fits before a terminating NUL in the n characters at off. */
  function Put(buffer: string, off: nat, n: nat, s: string): (r: string)
    requires n > 0 ==> off + n <= |buffer|
    ensures |r| == |buffer|
    decreases |s|
  {
    if n == 0 then buffer
    else if s == "" || n == 1 then buffer[off := '\0']
    else Put(buffer[off := s[0]], off + 1, n - 1, s[1..])
  }

  lemma {:induction false} PutAt(buffer: string, off: nat, n: nat, s: string, i: nat)
    requires (n > 0 ==> off + n <= |buffer|) && i < |buffer|
    ensures var k := if |s| < n then |s| else n - 1;
      Put(buffer, off, n, s)[i] ==
        if n > 0 && off <= i < off + k then s[i - off] else if n > 0 && i == off + k then '\0' else buffer[i]
    decreases |s|
  {
    if n > 1 && s != "" { PutAt(buffer[off := s[0]], off + 1, n - 1, s[1..], i); }
  }

  /** Writing piece by piece is the same as writing all at once. */
  lemma {:induction false} PutPut(buffer: string, off: nat, n: nat, a: string, b: string)
    requires n > 0 ==> off + n <= |buffer|
    ensures Put(Put(buffer, off, n, a), off + |a|, Diff(n, |a|), b) == Put(buffer, off, n, a + b)
    decreases |a|
  {
    if n > 0 {
      if a == "" {
        assert a + b == b;
        PutOver(buffer, off, n, b);
      } else if n > 1 {
        assert (a + b)[1..] == a[1..] + b;
        PutPut(buffer[off := a[0]], off + 1, n - 1, a[1..], b);
      }
    }
  }

  lemma PutOver(buffer: string, off: nat, n: nat, s: string)
    requires n > 0 && off + n <= |buffer|
    ensures Put(buffer[off := '\0'], off, n, s) == Put(buffer, off, n, s)
  {
    if s == "" || n == 1 {
      assert buffer[off := '\0'][off := '\0'] == buffer[off := '\0'];
    } else {
      assert buffer[off := '\0'][off := s[0]] == buffer[off := s[0]];
    }
  }

  /** snprintf() */
  method Append(dest: array<char>, off: nat, n: nat, s: string) returns (m: nat)
    requires n > 0 ==> off + n <= dest.Length
    modifies dest
    ensures m == |s| && dest[..] == Put(old(dest[..]), off, n, s)
  {
    if n > 0 {
      var i: nat := 0;
      while i < |s| && i < n - 1
        invariant i <= |s| && i < n && Put(dest[..], off + i, n - i, s[i..]) == Put(old(dest[..]), off, n, s)
      {
        ghost var before := dest[..];
        dest[off + i] := s[i];
        assert dest[..] == before[off + i := s[i]] && s[i..][1..] == s[i + 1..];
        i := i + 1;
      }
      ghost var before := dest[..];
      dest[off + i] := '\0';
      assert dest[..] == before[off + i := '\0'];
    }
    return |s|;
  }

  /** The buffer holds a text, as far as it fits. */
  ghost predicate Holds(dest: array<char>, original: string, off: nat, n: nat, s: string)
    requires n > 0 ==> off + n <= |original|
    reads dest
  {
    dest[..] == Put(original, off, n, s)
  }

  /** snprintf() after a text that has been written before. */
  method AppendTo(dest: array<char>, ghost original: string, off: nat, n: nat, ghost head: string, m: nat, s: string)
    returns (total: nat)
    requires (n > 0 ==> off + n <= |original|) && |original| == dest.Length && m == |head|
    requires Holds(dest, original, off, n, head)
    modifies dest
    ensures total == |head + s| && Holds(dest, original, off, n, head + s)
  {
    var k := Append(dest, off + m, Diff(n, m), s);
    PutPut(original, off, n, head, s);
    total := m + k;
  }

  /** writedim(): prints the subarray of dimension d at pos; the text may be cut off, but its full length is
      returned, and the position after the last member printed. */
  method WriteDim(d: nat, dest: array<char>, off: nat, n: nat, data: seq<int>, pos: nat, shape: seq<nat>,
                  style: Style, codec: Codec)
    returns (m: nat, next: nat)
    requires d <= |shape| && pos + Product(shape[d..]) <= |data| && (n > 0 ==> off + n <= dest.Length)
    modifies dest
    ensures next == pos + Product(shape[d..])
    ensures m == |Text(data[pos..next], shape[d..], style, codec)|
    ensures Holds(dest, old(dest[..]), off, n, Text(data[pos..next], shape[d..], style, codec))
    decreases |shape| - d, 0
  {
    if d < |shape| {
      ghost var before := dest[..];
      assert shape[d..][1..] == shape[d + 1..];
      m := Append(dest, off, n, style.Start());
      m, next := WriteRows(d, dest, before, off, n, m, data, pos, shape, style, codec);
      ghost var rows := Rows(data[pos..next], shape[d], shape[d + 1..], style, codec);
      m := AppendTo(dest, before, off, n, style.Start() + rows, m, style.End());
    } else {
      m := Append(dest, off, n, codec.show(data[pos]));
      next := pos + 1;
    }
  }

  /** The loop over the subarrays of dimension d. */
  method WriteRows(d: nat, dest: array<char>, ghost original: string, off: nat, n: nat, m0: nat, data: seq<int>,
                   pos: nat, shape: seq<nat>, style: Style, codec: Codec)
    returns (m: nat, next: nat)
    requires d < |shape| && pos + shape[d] * Product(shape[d + 1..]) <= |data| && m0 == |style.Start()|
    requires (n > 0 ==> off + n <= |original|) && |original| == dest.Length
      && Holds(dest, original, off, n, style.Start())
    modifies dest
    ensures next == pos + shape[d] * Product(shape[d + 1..])
    ensures m == |style.Start() + Rows(data[pos..next], shape[d], shape[d + 1..], style, codec)|
    ensures Holds(dest, original, off, n, style.Start() + Rows(data[pos..next], shape[d], shape[d + 1..], style, codec))
    decreases |shape| - d - 1, 3
  {
    ghost var p, rest := Product(shape[d + 1..]), shape[d + 1..];
    m, next := m0, pos;
    HeadEnds(data, pos, shape[d], rest, style, codec);
    var i: nat := 0;
    while i < shape[d]
      invariant i <= shape[d] && 0 <= i * p && next == pos + i * p <= |data|
      invariant var head := Head(data, pos, i, shape[d], rest, style, codec);
        m == |head| && Holds(dest, original, off, n, head)
    {
      m, next := WriteRowAt(d, dest, original, off, n, m, data, pos, next, shape, style, codec, i);
      i := i + 1;
    }
  }

  /** The body of that loop. */
  method WriteRowAt(d: nat, dest: array<char>, ghost original: string, off: nat, n: nat, m0: nat, data: seq<int>,
                    ghost pos: nat, from: nat, shape: seq<nat>, style: Style, codec: Codec, i: nat)
    returns (m: nat, next: nat)
    requires d < |shape| && pos + shape[d] * Product(shape[d + 1..]) <= |data| && i < shape[d]
    requires 0 <= i * Product(shape[d + 1..]) && from == pos + i * Product(shape[d + 1..]) <= |data|
    requires (n > 0 ==> off + n <= |original|) && |original| == dest.Length
    requires var head := Head(data, pos, i, shape[d], shape[d + 1..], style, codec);
      m0 == |head| && Holds(dest, original, off, n, head)
    modifies dest
    ensures 0 <= (i + 1) * Product(shape[d + 1..]) && next == pos + (i + 1) * Product(shape[d + 1..]) <= |data|
    ensures var head := Head(data, pos, i + 1, shape[d], shape[d + 1..], style, codec);
      m == |head| && Holds(dest, original, off, n, head)
    decreases |shape| - d - 1, 2
  {
    ghost var p, rest := Product(shape[d + 1..]), shape[d + 1..];
    RowSizes(i + 1, p);
    MulMonotonic(i + 1, shape[d], p);
    HeadNext(data, pos, i, shape[d], rest, style, codec);
    m, next := WriteRow(d, dest, original, off, n, Head(data, pos, i, shape[d], rest, style, codec), m0, data, from,
                        shape, style, codec, i + 1 < shape[d]);
  }

  /** The text before subarray i of n. */
  ghost function Head(data: seq<int>, pos: nat, i: nat, n: nat, shape: seq<nat>, style: Style, codec: Codec): string
    requires 0 <= i * Product(shape) && pos + i * Product(shape) <= |data|
  {
    style.Start() + Rows(data[pos..pos + i * Product(shape)], i, shape, style, codec)
      + (if 0 < i < n then style.Sep() else "")
  }

  lemma HeadEnds(data: seq<int>, pos: nat, n: nat, shape: seq<nat>, style: Style, codec: Codec)
    requires 0 <= n * Product(shape) && pos + n * Product(shape) <= |data|
    ensures Head(data, pos, 0, n, shape, style, codec) == style.Start()
    ensures Head(data, pos, n, n, shape, style, codec)
      == style.Start() + Rows(data[pos..pos + n * Product(shape)], n, shape, style, codec)
  {}

  lemma HeadNext(data: seq<int>, pos: nat, i: nat, n: nat, shape: seq<nat>, style: Style, codec: Codec)
    requires i < n && 0 <= i * Product(shape) <= (i + 1) * Product(shape) && pos + (i + 1) * Product(shape) <= |data|
    requires (i + 1) * Product(shape) == i * Product(shape) + Product(shape)
    ensures var p := Product(shape);
      Head(data, pos, i + 1, n, shape, style, codec)
        == Head(data, pos, i, n, shape, style, codec) + Text(data[pos + i * p..pos + i * p + p], shape, style, codec)
           + (if i + 1 < n then style.Sep() else "")
  {
    var p := Product(shape);
    var part, k := data[pos..pos + (i + 1) * p], i * p;
    assert part[..k] == data[pos..pos + k];
    assert part[k..] == data[pos + k..pos + (i + 1) * p];
    var rows, row := Rows(part[..k], i, shape, style, codec), Text(part[k..], shape, style, codec);
    assert Rows(part, i + 1, shape, style, codec) == rows + (if i > 0 then style.Sep() else "") + row;
    assert style.Start() + (rows + (if i > 0 then style.Sep() else "") + row)
      == (style.Start() + rows + (if i > 0 then style.Sep() else "")) + row;
  }

  /** One subarray, and the separator if more follow. */
  method WriteRow(d: nat, dest: array<char>, ghost original: string, off: nat, n: nat, ghost head: string, m0: nat,
                  data: seq<int>, pos: nat, shape: seq<nat>, style: Style, codec: Codec, more: bool)
    returns (m: nat, next: nat)
    requires d < |shape| && pos + Product(shape[d + 1..]) <= |data| && m0 == |head|
    requires (n > 0 ==> off + n <= |original|) && |original| == dest.Length && Holds(dest, original, off, n, head)
    modifies dest
    ensures next == pos + Product(shape[d + 1..])
    ensures var s := head + Text(data[pos..next], shape[d + 1..], style, codec) + (if more then style.Sep() else "");
      m == |s| && Holds(dest, original, off, n, s)
    decreases |shape| - d - 1, 1
  {
    var k: nat;
    k, next := WriteDim(d + 1, dest, off + m0, Diff(n, m0), data, pos, shape, style, codec);
    ghost var row := Text(data[pos..next], shape[d + 1..], style, codec);
    PutPut(original, off, n, head, row);
    m := m0 + k;
    if more {
      m := AppendTo(dest, original, off, n, head + row, m, style.Sep());
    } else {
      assert head + row + "" == head + row;
    }
  }

  /** The text s stands at pos, with a NUL after it. */
  ghost predicate HasText(buffer: string, pos: nat, s: string) {
    pos + |s| < |buffer| && buffer[pos..pos + |s|] == s && buffer[pos + |s|] == '\0'
  }

  /** dlite_property_aprint(): prints at pos into a buffer that is made larger if need be. */
  method PrintToBuffer(buffer: array<char>, pos: nat, data: seq<int>, shape: seq<nat>, style: Style, codec: Codec)
    returns (m: nat, dest: array<char>)
    requires |data| == Product(shape) && pos <= buffer.Length
    modifies buffer
    ensures m == |Text(data, shape, style, codec)| && HasText(dest[..], pos, Text(data, shape, style, codec))
    ensures dest[..][..pos] == old(buffer[..])[..pos]
  {
    var n := Diff(buffer.Length, pos);
    m := PrintAt(buffer, pos, n, data, shape, style, codec);
    dest := buffer;
    if m >= n {
      dest := Enlarge(buffer, m + pos + 1, pos);
      m := PrintAt(dest, pos, Diff(m + pos + 1, pos), data, shape, style, codec);
    }
  }

  /** realloc() */
  method Enlarge(buffer: array<char>, size: nat, ghost pos: nat) returns (dest: array<char>)
    requires pos <= buffer.Length && pos <= size
    ensures fresh(dest) && dest.Length == size && dest[..][..pos] == buffer[..][..pos]
  {
    dest := new char[size](i requires 0 <= i reads buffer => if i < buffer.Length then buffer[i] else '\0');
  }

  /** dlite_property_print() */
  method PrintAt(buffer: array<char>, pos: nat, n: nat, data: seq<int>, shape: seq<nat>, style: Style, codec: Codec)
    returns (m: nat)
    requires |data| == Product(shape) && pos + n <= buffer.Length
    modifies buffer
    ensures m == |Text(data, shape, style, codec)| && buffer[..][..pos] == old(buffer[..])[..pos]
    ensures m < n ==> HasText(buffer[..], pos, Text(data, shape, style, codec))
  {
    ghost var before := buffer[..];
    assert shape[0..] == shape && data[0..0 + Product(shape)] == data;
    var next;
    m, next := WriteDim(0, buffer, pos, n, data, 0, shape, style, codec);
    PutIsText(before, pos, n, Text(data, shape, style, codec));
  }

  /** A text that fits is all there, and nothing before it changes. */
  lemma PutIsText(buffer: string, off: nat, n: nat, s: string)
    requires off + n <= |buffer|
    ensures var r := Put(buffer, off, n, s); r[..off] == buffer[..off] && (|s| < n ==> HasText(r, off, s))
  {
    forall i: nat | i < |buffer|
      ensures i < off ==> Put(buffer, off, n, s)[i] == buffer[i]
      ensures |s| < n && off <= i < off + |s| ==> Put(buffer, off, n, s)[i] == s[i - off]
      ensures |s| < n && i == off + |s| ==> Put(buffer, off, n, s)[i] == '\0'
    {
      PutAt(buffer, off, n, s, i);
    }
  }

  // ----- Printing and scanning -----

  /** The text before the terminating NUL. */
  function CString(buffer: string): string {
    if buffer == "" || buffer[0] == '\0' then "" else [buffer[0]] + CString(buffer[1..])
  }

  lemma {:induction false} CStringOf(buffer: string, s: string)
    requires |s| < |buffer| && buffer[..|s|] == s && buffer[|s|] == '\0' && '\0' !in s
    ensures CString(buffer) == s
    decreases |s|
  {
    if s != "" {
      assert buffer[0] == s[0] && s[0] in s;
      assert buffer[1..][..|s| - 1] == buffer[..|s|][1..];
      CStringOf(buffer[1..], s[1..]);
      assert s == [s[0]] + s[1..];
    }
  }

  lemma TextInBuffer(buffer: string, pos: nat, s: string)
    requires HasText(buffer, pos, s) && '\0' !in s
    ensures CString(buffer[pos..]) == s
  {
    assert buffer[pos..][..|s|] == buffer[pos..pos + |s|];
    CStringOf(buffer[pos..], s);
  }

  /** The tokens that the parser finds in a text. */
  function TokensIn(js: string): (r: Option<seq<Token>>) {
    if Parse(js).Some? then Some(WithTexts(js, Parse(js).value)) else None
  }

  /** dlite_property_scan() of an array: the text is parsed and the first value in it is scanned. The tokens of what
      the parser accepts are supposed to begin with those of a value j; a text without tokens is refused. */
  method ScanProperty(js: string, dest: array<int>, shape: seq<nat>, scan: Scan, ghost j: Json)
    returns (ok: bool, last: nat)
    requires shape != [] && Product(shape) <= dest.Length
    requires TokensIn(js).Some? && TokensIn(js).value != [] ==> WellFormed(j) && At(TokensIn(js).value, 0, Tokens(j))
    modifies dest
    ensures ok <==> TokensIn(js).Some? && TokensIn(js).value != [] && Scanned(j, shape, scan).Some?
    ensures ok ==> dest[..Product(shape)] == Scanned(j, shape, scan).value && last + 1 == |Tokens(j)|
    ensures dest[Product(shape)..] == old(dest[Product(shape)..])
  {
    var r := ParseTokens(js);
    if r.None? || r.value == [] { return false, 0; }
    assert shape[0..] == shape;
    var next;
    ok, next, last := ScanDim(0, r.value, dest, 0, shape, 0, scan, j);
  }

  lemma TextHasNoNul(data: seq<int>, shape: seq<nat>, style: Style, codec: Codec)
    requires |data| == Product(shape) && shape != [] && PrintsJson(data, codec) && style.IsBlank()
    ensures '\0' !in Text(data, shape, style, codec)
  {
    ArrayTextIsSpelled(data, shape, style, codec);
    SpellHasNoNul(Nested(data, shape, style, codec));
  }

  /** What is found in a buffer that holds the text of an array. */
  lemma PrintedText(buffer: string, pos: nat, s: string, data: seq<int>, shape: seq<nat>, style: Style, codec: Codec,
                    scan: Scan, j: Json)
    requires |data| == Product(shape) && shape != [] && style.IsBlank() && PrintsJson(data, codec)
    requires ReadsBack(data, codec, scan) && j == Value(Nested(data, shape, style, codec))
    requires s == Text(data, shape, style, codec) && HasText(buffer, pos, s)
    ensures TokensIn(CString(buffer[pos..])) == Some(Tokens(j)) && At(Tokens(j), 0, Tokens(j))
    ensures WellFormed(j) && Scanned(j, shape, scan) == Some(data)
  {
    ScanPrinted(data, shape, style, codec, scan);
    TextHasNoNul(data, shape, style, codec);
    TextInBuffer(buffer, pos, s);
  }

  /** Printing an array into a buffer, which is made larger if need be, and scanning the text in the buffer
      succeeds, ends on the last token, and gives the data again. */
  method PrintAndScan(buffer: array<char>, pos: nat, data: seq<int>, shape: seq<nat>, compact: bool,
                      codec: Codec, dest: array<int>, scan: Scan)
    returns (ok: bool, last: nat)
    requires |data| == Product(shape) && shape != [] && PrintsJson(data, codec) && ReadsBack(data, codec, scan)
    requires pos <= buffer.Length && |data| <= dest.Length
    modifies buffer, dest
    ensures ok && dest[..|data|] == data
    ensures last + 1 == |Tokens(Value(Nested(data, shape, StyleOf(compact), codec)))|
  {
    ghost var j := Value(Nested(data, shape, StyleOf(compact), codec));
    var js := PrintedString(buffer, pos, data, shape, StyleOf(compact), codec, scan, j);
    ok, last := ScanProperty(js, dest, shape, scan, j);
  }

  /** The string that is found in the buffer after printing. */
  method PrintedString(buffer: array<char>, pos: nat, data: seq<int>, shape: seq<nat>, style: Style, codec: Codec,
                       ghost scan: Scan, ghost j: Json)
    returns (js: string)
    requires |data| == Product(shape) && shape != [] && style.IsBlank() && PrintsJson(data, codec)
    requires pos <= buffer.Length && ReadsBack(data, codec, scan) && j == Value(Nested(data, shape, style, codec))
    modifies buffer
    ensures TokensIn(js) == Some(Tokens(j)) && At(Tokens(j), 0, Tokens(j))
    ensures WellFormed(j) && Scanned(j, shape, scan) == Some(data)
  {
    var m, printed := PrintToBuffer(buffer, pos, data, shape, style, codec);
    PrintedText(printed[..], pos, Text(data, shape, style, codec), data, shape, style, codec, scan, j);
    js := CString(printed[..][pos..]);
  }
}
