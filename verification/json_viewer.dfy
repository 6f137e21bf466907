/**
 * The text the JSON viewer of the collector's web page lays out
 * (server/src/smello_server/static/json-viewer.js): `escapeHtml`, and the
 * characters `renderJson`/`renderCollection` put into the document, read in
 * document order.  DOM nodes, CSS classes and the collapse toggle are not
 * part of the text and are not modelled.
 */
module JsonViewer {
  import opened Text

  /** A value as `JSON.parse` produces it; numbers are integers here. */
  datatype Json =
    | Null
    | Bool(b: bool)
    | Number(n: int)
    | Str(s: string)
    | Array(items: seq<Json>)
    | Object(entries: seq<(string, Json)>)  // in `Object.keys` order

  // ---------------------------------------------------------------------------
  // escapeHtml

  /** `str.replace(/c/g, rep)`: every occurrence of `c` becomes `rep`. */
  function ReplaceAll(s: string, c: char, rep: string): (r: string)
    ensures c !in s ==> r == s
    ensures |rep| >= 1 ==> |r| >= |s|
  {
    if s == [] then []
    else (if s[0] == c then rep else [s[0]]) + ReplaceAll(s[1..], c, rep)
  }

  /** `escapeHtml`, as written: three global replacements, `&` first. */
  function EscapeHtml(s: string): (r: string)
    ensures |r| >= |s|
    ensures '&' !in s && '<' !in s && '>' !in s ==> r == s
  {
    ReplaceAll(ReplaceAll(ReplaceAll(s, '&', "&amp;"), '<', "&lt;"), '>', "&gt;")
  }

  /** The entity each character stands for in one pass over the input. */
  function EscapeChar(c: char): string {
    if c == '&' then "&amp;" else if c == '<' then "&lt;" else if c == '>' then "&gt;" else [c]
  }

  /** The reference escaper: each character is replaced on its own, once. */
  function EscapeEach(s: string): (r: string)
    ensures '<' !in r && '>' !in r
  {
    if s == [] then [] else EscapeChar(s[0]) + EscapeEach(s[1..])
  }

  lemma {:induction false} ReplaceAllAppend(a: string, b: string, c: char, rep: string)
    ensures ReplaceAll(a + b, c, rep) == ReplaceAll(a, c, rep) + ReplaceAll(b, c, rep)
  {
    if a == [] {
      assert a + b == b;
    } else {
      assert (a + b)[0] == a[0];
      assert (a + b)[1..] == a[1..] + b;
      ReplaceAllAppend(a[1..], b, c, rep);
    }
  }

  lemma EscapeHtmlAppend(a: string, b: string)
    ensures EscapeHtml(a + b) == EscapeHtml(a) + EscapeHtml(b)
  {
    var a1, b1 := ReplaceAll(a, '&', "&amp;"), ReplaceAll(b, '&', "&amp;");
    ReplaceAllAppend(a, b, '&', "&amp;");
    var a2, b2 := ReplaceAll(a1, '<', "&lt;"), ReplaceAll(b1, '<', "&lt;");
    ReplaceAllAppend(a1, b1, '<', "&lt;");
    ReplaceAllAppend(a2, b2, '>', "&gt;");
  }

  lemma ReplaceAllSingle(x: char, c: char, rep: string)
    ensures ReplaceAll([x], c, rep) == if x == c then rep else [x]
  {
    assert [x][1..] == [];
  }

  lemma EscapeHtmlChar(c: char)
    ensures EscapeHtml([c]) == EscapeChar(c)
  {
    ReplaceAllSingle(c, '&', "&amp;");
    var a := if c == '&' then "&amp;" else [c];
    if c == '&' {
      assert '<' !in a && '>' !in a;
    } else {
      ReplaceAllSingle(c, '<', "&lt;");
      if c == '<' {
        assert '>' !in "&lt;";
      } else {
        ReplaceAllSingle(c, '>', "&gt;");
      }
    }
  }

  /** Replacing `&` first means no entity produced by a later replacement is escaped again. */
  lemma {:induction false} EscapeHtmlIsOnePass(s: string)
    ensures EscapeHtml(s) == EscapeEach(s)
  {
    if s == [] {
    } else {
      EscapeHtmlIsOnePass(s[1..]);
      assert s == [s[0]] + s[1..];
      EscapeHtmlAppend([s[0]], s[1..]);
      EscapeHtmlChar(s[0]);
    }
  }

  /** The escaped text holds no `<` and no `>`. */
  lemma EscapeHtmlNoAngleBrackets(s: string)
    ensures '<' !in EscapeHtml(s) && '>' !in EscapeHtml(s)
  {
    EscapeHtmlIsOnePass(s);
  }

  /** Reading the entities back: the inverse of the one-pass escaper. */
  function Unescape(s: string): string
  {
    if s == [] then []
    else if |s| >= 5 && s[..5] == "&amp;" then "&" + Unescape(s[5..])
    else if |s| >= 4 && s[..4] == "&lt;" then "<" + Unescape(s[4..])
    else if |s| >= 4 && s[..4] == "&gt;" then ">" + Unescape(s[4..])
    else [s[0]] + Unescape(s[1..])
  }

  /** Escaping loses nothing: every `&` becomes exactly one `&amp;`, and decoding restores the input. */
  lemma {:induction false} UnescapeEscapeHtml(s: string)
    ensures Unescape(EscapeHtml(s)) == s
  {
    EscapeHtmlIsOnePass(s);
    UnescapeEscapeEach(s);
  }

  lemma {:induction false} UnescapeEscapeEach(s: string)
    ensures Unescape(EscapeEach(s)) == s
  {
    if s != [] {
      UnescapeEscapeEach(s[1..]);
      UnescapeChar(s[0], EscapeEach(s[1..]));
      assert [s[0]] + s[1..] == s;
    }
  }

  /** The entity of one character is read back as that character, whatever follows. */
  lemma UnescapeChar(c: char, rest: string)
    ensures Unescape(EscapeChar(c) + rest) == [c] + Unescape(rest)
  {
    if c == '&' {
      UnescapeAmp(rest);
    } else if c == '<' {
      UnescapeAngle("&lt;", '<', rest);
    } else if c == '>' {
      UnescapeAngle("&gt;", '>', rest);
    } else {
      UnescapePlain(c, rest);
    }
  }

  lemma UnescapeAmp(rest: string)
    ensures Unescape("&amp;" + rest) == "&" + Unescape(rest)
  {
    var e := "&amp;" + rest;
    assert e[..5] == "&amp;" && e[5..] == rest;
  }

  /** `&lt;` and `&gt;` are read back as the bracket they stand for. */
  lemma UnescapeAngle(entity: string, c: char, rest: string)
    requires (entity == "&lt;" && c == '<') || (entity == "&gt;" && c == '>')
    ensures Unescape(entity + rest) == [c] + Unescape(rest)
  {
    var e := entity + rest;
    assert e[..4] == entity && e[1] == entity[1] && e[4..] == rest;
  }

  lemma UnescapePlain(c: char, rest: string)
    requires c != '&' && c != '<' && c != '>'
    ensures Unescape([c] + rest) == [c] + Unescape(rest)
  {
    var e := [c] + rest;
    assert e[0] == c && e[1..] == rest;
  }

  // ---------------------------------------------------------------------------
  // Layout

  /** `'  '.repeat(n)`. */
  function Pad(n: nat): (r: string)
    ensures |r| == 2 * n
    ensures forall i :: 0 <= i < |r| ==> r[i] == ' '
  {
    if n == 0 then [] else "  " + Pad(n - 1)
  }

  function Quoted(s: string): string {
    "\"" + EscapeHtml(s) + "\""
  }

  /** The text after item `i` of `n`: a comma, except after the last one. */
  function Separator(i: nat, n: nat): string {
    if i + 1 < n then "," else ""
  }

  /** The items part of a collection: each item on its own line after the padding, commas between. */
  function Items(rendered: seq<string>, pad: string, from: nat): string
    requires from <= |rendered|
    decreases |rendered| - from
  {
    if from == |rendered| then []
    else "\n" + pad + rendered[from] + Separator(from, |rendered|) + Items(rendered, pad, from + 1)
  }

  /** The text `renderCollection` produces around already-rendered items. */
  function Collection(open: string, close: string, indent: nat, rendered: seq<string>): (r: string)
    ensures |r| >= |open| + 1 + 2 * indent + |close|
    ensures r[..|open|] == open
    ensures r[|r| - |close| - 2 * indent - 1..] == "\n" + Pad(indent) + close
  {
    open + Items(rendered, Pad(indent + 1), 0) + "\n" + Pad(indent) + close
  }

  /** `renderJson(value, indent)`, as the text of the nodes it builds. */
  function RenderJson(value: Json, indent: nat): (r: string)
    ensures value.Null? ==> r == "null"
    ensures value.Bool? ==> r == (if value.b then "true" else "false")
    ensures value.Number? ==> r == IntToString(value.n)
    ensures value.Str? ==> r == "\"" + EscapeHtml(value.s) + "\""
    ensures value == Array([]) ==> r == "[]"
    ensures value == Object([]) ==> r == "{}"
    decreases value
  {
    match value
    case Null => "null"
    case Bool(b) => if b then "true" else "false"
    case Number(n) => IntToString(n)
    case Str(s) => Quoted(s)
    case Array(items) =>
      if items == [] then "[]"
      else Collection("[", "]", indent,
                      seq(|items|, i requires 0 <= i < |items| => RenderJson(items[i], indent + 1)))
    case Object(entries) =>
      if entries == [] then "{}"
      else Collection("{", "}", indent,
                      seq(|entries|, i requires 0 <= i < |entries| =>
                            Quoted(entries[i].0) + ": " + RenderJson(entries[i].1, indent + 1)))
  }

  /** Join with a separator: the reference layout with exactly n - 1 separators. */
  function Join(xs: seq<string>, sep: string): (r: string)
    ensures |xs| > 0 ==> |r| == TotalLength(xs) + (|xs| - 1) * |sep|
    ensures xs == [] ==> r == []
  {
    if xs == [] then [] else if |xs| == 1 then xs[0] else xs[0] + sep + Join(xs[1..], sep)
  }

  function TotalLength(xs: seq<string>): nat {
    if xs == [] then 0 else |xs[0]| + TotalLength(xs[1..])
  }

  /**
   * The loop's layout is the join of the items with ",\n" and the padding:
   * n items, n - 1 commas between them and none after the last.
   */
  lemma {:induction false} ItemsAreJoined(rendered: seq<string>, pad: string, from: nat)
    requires from < |rendered|
    ensures Items(rendered, pad, from) == "\n" + pad + Join(rendered[from..], ",\n" + pad)
    decreases |rendered| - from
  {
    if from + 1 < |rendered| {
      ItemsAreJoined(rendered, pad, from + 1);
      assert rendered[from..][1..] == rendered[from + 1..];
    }
  }

  /** A non-empty collection: open, items joined by commas at indent + 1, close at indent. */
  lemma CollectionLayout(open: string, close: string, indent: nat, rendered: seq<string>)
    requires |rendered| > 0
    ensures Collection(open, close, indent, rendered)
         == open + "\n" + Pad(indent + 1) + Join(rendered, ",\n" + Pad(indent + 1))
            + "\n" + Pad(indent) + close
  {
    ItemsAreJoined(rendered, Pad(indent + 1), 0);
    assert rendered[0..] == rendered;
  }

  /** A non-empty array: each element one level deeper, joined by commas. */
  lemma ArrayLayout(items: seq<Json>, indent: nat)
    requires |items| > 0
    ensures var rendered := seq(|items|, i requires 0 <= i < |items| => RenderJson(items[i], indent + 1));
            RenderJson(Array(items), indent)
              == "[" + "\n" + Pad(indent + 1) + Join(rendered, ",\n" + Pad(indent + 1))
                 + "\n" + Pad(indent) + "]"
  {
    var rendered := seq(|items|, i requires 0 <= i < |items| => RenderJson(items[i], indent + 1));
    CollectionLayout("[", "]", indent, rendered);
  }

  /**
   * A non-empty object: each entry is the quoted, escaped key, `": "` and the
   * value one level deeper; entries are joined by commas.
   */
  lemma ObjectLayout(entries: seq<(string, Json)>, indent: nat)
    requires |entries| > 0
    ensures var rendered := seq(|entries|, i requires 0 <= i < |entries| =>
                              "\"" + EscapeHtml(entries[i].0) + "\": " + RenderJson(entries[i].1, indent + 1));
            RenderJson(Object(entries), indent)
              == "{" + "\n" + Pad(indent + 1) + Join(rendered, ",\n" + Pad(indent + 1))
                 + "\n" + Pad(indent) + "}"
  {
    var rendered := seq(|entries|, i requires 0 <= i < |entries| =>
                      "\"" + EscapeHtml(entries[i].0) + "\": " + RenderJson(entries[i].1, indent + 1));
    var used := seq(|entries|, i requires 0 <= i < |entries| =>
                  Quoted(entries[i].0) + ": " + RenderJson(entries[i].1, indent + 1));
    assert used == rendered by {
      forall i | 0 <= i < |entries| ensures used[i] == rendered[i] {
        var k := EscapeHtml(entries[i].0);
        assert "\"" + k + "\"" + ": " == "\"" + k + "\": ";
      }
    }
    CollectionLayout("{", "}", indent, rendered);
  }

  /** A character that cannot start an HTML tag: `<` and `>` are the ones escaped. */
  predicate TagFree(s: string) {
    '<' !in s && '>' !in s
  }

  /** The rendered text of any value is free of `<` and `>`: strings and keys are escaped. */
  lemma {:induction false} RenderJsonIsTagFree(value: Json, indent: nat)
    ensures TagFree(RenderJson(value, indent))
    decreases value
  {
    match value
    case Null =>
    case Bool(_) =>
    case Number(n) =>
      NumberIsTagFree(n);
    case Str(s) =>
      EscapeHtmlNoAngleBrackets(s);
      assert Quoted(s) == "\"" + EscapeHtml(s) + "\"";
    case Array(items) =>
      forall i | 0 <= i < |items| ensures TagFree(RenderJson(items[i], indent + 1)) {
        RenderJsonIsTagFree(items[i], indent + 1);
      }
      ArrayIsTagFree(items, indent);
    case Object(entries) =>
      forall i | 0 <= i < |entries|
        ensures TagFree(EscapeHtml(entries[i].0)) && TagFree(RenderJson(entries[i].1, indent + 1))
      {
        EscapeHtmlNoAngleBrackets(entries[i].0);
        RenderJsonIsTagFree(entries[i].1, indent + 1);
      }
      ObjectIsTagFree(entries, indent);
  }

  /** An array whose elements render tag-free renders tag-free. */
  lemma ArrayIsTagFree(items: seq<Json>, indent: nat)
    requires forall i :: 0 <= i < |items| ==> TagFree(RenderJson(items[i], indent + 1))
    ensures TagFree(RenderJson(Array(items), indent))
  {
    if items != [] {
      var rendered := seq(|items|, i requires 0 <= i < |items| => RenderJson(items[i], indent + 1));
      CollectionIsTagFree("[", "]", indent, rendered);
    }
  }

  /** An object whose escaped keys and values render tag-free renders tag-free. */
  lemma ObjectIsTagFree(entries: seq<(string, Json)>, indent: nat)
    requires forall i :: 0 <= i < |entries| ==>
               TagFree(EscapeHtml(entries[i].0)) && TagFree(RenderJson(entries[i].1, indent + 1))
    ensures TagFree(RenderJson(Object(entries), indent))
  {
    if entries != [] {
      var rendered := seq(|entries|, i requires 0 <= i < |entries| =>
                        Quoted(entries[i].0) + ": " + RenderJson(entries[i].1, indent + 1));
      forall i | 0 <= i < |entries| ensures TagFree(rendered[i]) {
        assert rendered[i] == "\"" + EscapeHtml(entries[i].0) + "\"" + ": " + RenderJson(entries[i].1, indent + 1);
      }
      CollectionIsTagFree("{", "}", indent, rendered);
    }
  }

  lemma NumberIsTagFree(n: int)
    ensures TagFree(IntToString(n))
  {
    var r := IntToString(n);
    assert forall i :: 0 <= i < |r| ==> r[i] == '-' || IsDigit(r[i]);
  }

  lemma CollectionIsTagFree(open: string, close: string, indent: nat, rendered: seq<string>)
    requires TagFree(open) && TagFree(close)
    requires forall i :: 0 <= i < |rendered| ==> TagFree(rendered[i])
    ensures TagFree(Collection(open, close, indent, rendered))
  {
    ItemsFree(rendered, Pad(indent + 1), 0);
  }

  lemma {:induction false} ItemsFree(rendered: seq<string>, pad: string, from: nat)
    requires from <= |rendered|
    requires forall i :: 0 <= i < |pad| ==> pad[i] == ' '
    requires forall i :: 0 <= i < |rendered| ==> TagFree(rendered[i])
    ensures TagFree(Items(rendered, pad, from))
    decreases |rendered| - from
  {
    if from < |rendered| {
      ItemsFree(rendered, pad, from + 1);
      assert TagFree(pad);
    }
  }

  /**
   * `renderCollection(items, open, close, indent, renderItem)`: the loop that
   * appends, for each item, a newline and the padding, the rendered item,
   * and a comma unless it is the last; then the closing newline, padding and
   * bracket.
   */
  method RenderCollection<T>(items: seq<T>, open: string, close: string, indent: nat,
                             renderItem: (T, nat) -> string)
    returns (text: string)
    ensures text == Collection(open, close, indent,
                               seq(|items|, i requires 0 <= i < |items| => renderItem(items[i], i)))
  {
    ghost var rendered := seq(|items|, i requires 0 <= i < |items| => renderItem(items[i], i));
    var pad := Pad(indent + 1);
    var closePad := Pad(indent);
    text := open;
    var i := 0;
    while i < |items|
      invariant 0 <= i <= |items|
      invariant text + Items(rendered, pad, i) == open + Items(rendered, pad, 0)
    {
      text := text + "\n" + pad + renderItem(items[i], i);
      if i < |items| - 1 {
        text := text + ",";
      }
      i := i + 1;
    }
    text := text + "\n" + closePad + close;
  }
}
