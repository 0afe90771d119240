/** The editor's `shortcodify` serializer (public/assets/js/source/process-save.js):
    top-level nodes parsed from the editable region become one string, component
    elements become `[aesop_<type> k="v" ...]` shortcodes and everything else is
    copied as markup. */
module Shortcode {
  import opened Wrappers

  /** Class that marks an element as a component. */
  const ComponentClass := "aesop-component"
  /** Data key that holds the component's shortcode name. */
  const TypeKey := "componentType"

  /** One entry of an element's data object: (key, value), in enumeration order. */
  type Attr = (string, string)

  /** A top-level node returned by the HTML parser.
      `classes` are the element's classes, `dataset` its own data entries and
      `contentData` the inner HTML of each descendant carrying the class
      `aesop-component-content-data`, in document order. */
  datatype Node =
    | Text(data: string)
    | Comment(data: string)
    | Element(outerHtml: string, classes: set<string>, dataset: seq<Attr>, contentData: seq<string>)

  predicate IsComponent(n: Node) {
    n.Element? && ComponentClass in n.classes
  }

  /** The value of the first entry with key `key`, if there is one. */
  function Lookup(data: seq<Attr>, key: string): (r: Option<string>)
  {
    if data == [] then None
    else if data[0].0 == key then Some(data[0].1)
    else Lookup(data[1..], key)
  }

  /** One shortcode parameter: ` key="value"`, the value not escaped. */
  function Param(a: Attr): string {
    " " + a.0 + "=\"" + a.1 + "\""
  }

  /** What one data entry adds to the parameter string. */
  function ParamOf(a: Attr): string {
    if a.0 == TypeKey then "" else Param(a)
  }

  /** The strings `f` gives for the elements of `xs`, concatenated left to right. */
  function Concat<T>(f: T -> string, xs: seq<T>): string {
    if xs == [] then ""
    else Concat(f, xs[..|xs| - 1]) + f(xs[|xs| - 1])
  }

  lemma ConcatPrefix<T>(f: T -> string, xs: seq<T>, i: nat)
    requires i < |xs|
    ensures Concat(f, xs[..i + 1]) == Concat(f, xs[..i]) + f(xs[i])
  {
    assert xs[..i + 1][..i] == xs[..i];
  }

  lemma ConcatSnoc<T>(f: T -> string, xs: seq<T>, x: T)
    ensures Concat(f, xs + [x]) == Concat(f, xs) + f(x)
  {
    assert (xs + [x])[..|xs|] == xs;
  }

  lemma {:induction false} ConcatAppend<T>(f: T -> string, a: seq<T>, b: seq<T>)
    ensures Concat(f, a + b) == Concat(f, a) + Concat(f, b)
    decreases |b|
  {
    if b == [] {
      assert a + b == a;
    } else {
      var b', x := b[..|b| - 1], b[|b| - 1];
      assert a + b == (a + b') + [x];
      assert b == b' + [x];
      ConcatAppend(f, a, b');
      ConcatSnoc(f, a + b', x);
      ConcatSnoc(f, b', x);
    }
  }

  lemma ConcatCons<T>(f: T -> string, x: T, rest: seq<T>)
    ensures Concat(f, [x] + rest) == f(x) + Concat(f, rest)
  {
    ConcatAppend(f, [x], rest);
    assert [x][..0] == [];
  }

  /** The parameter string built by the `for ... in data` loop. */
  function Params(data: seq<Attr>): string {
    Concat(ParamOf, data)
  }

  lemma ParamsSingle(x: Attr)
    ensures Params([x]) == ParamOf(x)
  {
    ConcatCons(ParamOf, x, []);
    assert [x] + [] == [x];
  }

  /** The data entries that become parameters, in order. */
  function Attributes(data: seq<Attr>): seq<Attr> {
    if data == [] then []
    else Attributes(data[..|data| - 1]) + (if data[|data| - 1].0 == TypeKey then [] else [data[|data| - 1]])
  }

  function OpenTag(t: string, data: seq<Attr>): string {
    "[aesop_" + t + Params(data) + "]"
  }

  function CloseTag(t: string): string {
    "[/aesop_" + t + "]"
  }

  /** What one top-level node adds to the output. */
  function Contribution(n: Node): string {
    match n
    case Text(d) => d
    case Comment(d) => "<!--" + d + "-->"
    case Element(outer, classes, data, inner) =>
      if ComponentClass !in classes then outer
      else match Lookup(data, TypeKey)
        case None => ""
        case Some(t) => OpenTag(t, data) + (if |inner| != 0 then inner[0] + CloseTag(t) else "")
  }

  /** The output of `shortcodify`: the contributions, accumulated left to right. */
  function Serialize(nodes: seq<Node>): string {
    Concat(Contribution, nodes)
  }

  /** The loop over an element's data object that builds the parameter string. */
  method BuildParams(data: seq<Attr>) returns (params: string)
    ensures params == Params(data)
  {
    params := "";
    var i := 0;
    while i < |data|
      invariant 0 <= i <= |data|
      invariant params == Params(data[..i])
    {
      ConcatPrefix(ParamOf, data, i);
      if data[i].0 != TypeKey {
        params := params + (" " + data[i].0 + "=\"" + data[i].1 + "\"");
      }
      i := i + 1;
    }
    assert data[..|data|] == data;
  }

  /** `shortcodify`: one pass over the top-level nodes, appending to `processed`. */
  method Shortcodify(nodes: seq<Node>) returns (processed: string)
    ensures processed == Serialize(nodes)
  {
    processed := "";
    var i := 0;
    while i < |nodes|
      invariant 0 <= i <= |nodes|
      invariant processed == Serialize(nodes[..i])
    {
      ConcatPrefix(Contribution, nodes, i);
      var n := nodes[i];
      if !IsComponent(n) {
        if n.Text? {
          processed := processed + n.data;
        } else if n.Comment? {
          processed := processed + ("<!--" + n.data + "-->");
        } else {
          processed := processed + n.outerHtml;
        }
        i := i + 1;
        continue;
      }
      var t := Lookup(n.dataset, TypeKey);
      if t.Some? {
        ComponentContribution(n, t.value);
        var params := BuildParams(n.dataset);
        var sc := "[aesop_" + t.value + params + "]";
        if |n.contentData| != 0 {
          sc := sc + (n.contentData[0] + ("[/aesop_" + t.value + "]"));
        }
        assert sc == Contribution(n);
        processed := processed + sc;
      } else {
        assert Contribution(n) == "";
        assert processed + Contribution(n) == processed;
      }
      i := i + 1;
    }
    assert nodes[..|nodes|] == nodes;
  }

  // ---------------------------------------------------------------------------
  // Concatenation structure

  lemma SerializeAppend(a: seq<Node>, b: seq<Node>)
    ensures Serialize(a + b) == Serialize(a) + Serialize(b)
  {
    ConcatAppend(Contribution, a, b);
  }

  /** The output is the in-order concatenation of every node's contribution,
      and the empty node list gives the empty string. */
  lemma SerializeCons(n: Node, rest: seq<Node>)
    ensures Serialize([]) == ""
    ensures Serialize([n] + rest) == Contribution(n) + Serialize(rest)
  {
    ConcatCons(Contribution, n, rest);
  }

  predicate Untyped(n: Node) {
    IsComponent(n) && Lookup(n.dataset, TypeKey).None?
  }

  function DropUntyped(nodes: seq<Node>): seq<Node> {
    if nodes == [] then []
    else (if Untyped(nodes[0]) then [] else [nodes[0]]) + DropUntyped(nodes[1..])
  }

  /** A component without `componentType` contributes nothing: removing every
      such node leaves the output unchanged (it is dropped, not passed through). */
  lemma {:induction false} UntypedComponentsDropped(nodes: seq<Node>)
    ensures Serialize(DropUntyped(nodes)) == Serialize(nodes)
  {
    if nodes != [] {
      assert nodes == [nodes[0]] + nodes[1..];
      SerializeCons(nodes[0], nodes[1..]);
      UntypedComponentsDropped(nodes[1..]);
      if Untyped(nodes[0]) {
        assert DropUntyped(nodes) == DropUntyped(nodes[1..]);
      } else {
        SerializeCons(nodes[0], DropUntyped(nodes[1..]));
      }
    }
  }

  /** What a typed component contributes: its opening tag, then, when a content
      block is present, the first block's inner HTML and the closing tag. */
  lemma ComponentContribution(n: Node, t: string)
    requires IsComponent(n) && Lookup(n.dataset, TypeKey) == Some(t)
    ensures Contribution(n) == OpenTag(t, n.dataset) + (if |n.contentData| != 0 then n.contentData[0] + CloseTag(t) else "")
  {
  }

  // ---------------------------------------------------------------------------
  // Reading an opening tag back: the parameters round-trip when keys hold no
  // `=`, values no `"` and the type no space.

  /** Index of the first `c` in `s`. */
  function Find(s: string, c: char): (r: Option<nat>)
    ensures r.Some? ==> r.value < |s| && s[r.value] == c && c !in s[..r.value]
    ensures r.None? ==> c !in s
  {
    if s == [] then None
    else if s[0] == c then Some(0)
    else match Find(s[1..], c)
      case None => None
      case Some(i) => assert s[..i + 1] == [s[0]] + s[1..][..i]; Some(i + 1)
  }

  lemma FindFirst(p: string, c: char, r: string)
    requires c !in p
    ensures Find(p + [c] + r, c) == Some(|p|)
  {
    var s := p + [c] + r;
    assert s[..|p|] == p;
    assert s[|p|] == c;
  }

  /** Parses one leading ` key="value"` parameter: the entry and the rest. */
  function ParseParam(s: string): (r: Option<(Attr, string)>)
    ensures r.Some? ==> |r.value.1| < |s|
  {
    if s == [] || s[0] != ' ' then None
    else match Find(s[1..], '=')
      case None => None
      case Some(i) =>
        var after := s[i + 2..];
        if after == [] || after[0] != '"' then None
        else match Find(after[1..], '"')
          case None => None
          case Some(j) => Some(((s[1..i + 1], after[1..j + 1]), after[j + 2..]))
  }

  /** Parses a string made only of ` key="value"` parameters. */
  function ParseParams(s: string): Option<seq<Attr>>
    decreases |s|
  {
    if s == [] then Some([])
    else match ParseParam(s)
      case None => None
      case Some((a, rest)) =>
        match ParseParams(rest)
        case None => None
        case Some(ps) => Some([a] + ps)
  }

  /** Parses `[aesop_<type><params>]` into its type and its parameters. */
  function ParseOpenTag(s: string): Option<(string, seq<Attr>)> {
    if |s| < 8 || s[..7] != "[aesop_" || s[|s| - 1] != ']' then None
    else ParseTagBody(s[7..|s| - 1])
  }

  /** Splits `<type><params>` at the first space. */
  function ParseTagBody(m: string): Option<(string, seq<Attr>)> {
    match Find(m, ' ')
    case None => Some((m, []))
    case Some(i) =>
      match ParseParams(m[i..])
      case None => None
      case Some(ps) => Some((m[..i], ps))
  }

  predicate SafeAttr(a: Attr) {
    '=' !in a.0 && '"' !in a.1
  }

  /** Every entry that becomes a parameter is safe; the `componentType` entry
      is never written as a parameter, so it may hold anything. */
  predicate SafeEntries(data: seq<Attr>) {
    forall i :: 0 <= i < |data| ==> data[i].0 == TypeKey || SafeAttr(data[i])
  }

  lemma {:induction false} AttributesAppend(a: seq<Attr>, b: seq<Attr>)
    ensures Attributes(a + b) == Attributes(a) + Attributes(b)
    decreases |b|
  {
    if b == [] {
      assert a + b == a;
    } else {
      var b' := b[..|b| - 1];
      assert (a + b)[..|a + b| - 1] == a + b';
      AttributesAppend(a, b');
    }
  }

  lemma AttributesCons(x: Attr, rest: seq<Attr>)
    ensures Attributes([x] + rest) == (if x.0 == TypeKey then [] else [x]) + Attributes(rest)
  {
    AttributesAppend([x], rest);
    assert [x][..0] == [];
  }

  /** Where the key of one parameter lies, and that its `=` is the first one. */
  lemma ParamKey(x: Attr, r: string)
    requires SafeAttr(x)
    ensures var s := Param(x) + r;
      s != [] && s[0] == ' ' && Find(s[1..], '=') == Some(|x.0|) && s[1..|x.0| + 1] == x.0
  {
    var k, v := x.0, x.1;
    var s := Param(x) + r;
    var tail := ['"'] + v + ['"'] + r;
    assert s == [' '] + (k + ['='] + tail);
    assert s[1..] == k + ['='] + tail;
    FindFirst(k, '=', tail);
  }

  /** Where the value of one parameter lies, that its closing `"` is the
      first one, and what follows it. */
  lemma ParamValue(x: Attr, r: string)
    requires SafeAttr(x)
    ensures var s := Param(x) + r; var n := |x.0|;
      |s| > n + 2 && s[n + 2] == '"' && Find(s[n + 3..], '"') == Some(|x.1|) &&
      s[n + 3..n + |x.1| + 3] == x.1 && s[n + |x.1| + 4..] == r
  {
    var k, v := x.0, x.1;
    var s := Param(x) + r;
    var tail := v + ['"'] + r;
    assert s == [' '] + k + ['='] + ['"'] + tail;
    assert s[|k| + 3..] == tail;
    FindFirst(v, '"', r);
    assert tail[..|v|] == v && tail[|v| + 1..] == r;
  }

  /** A safe parameter is read back, with the rest of the text after it. */
  lemma ParseOneParam(x: Attr, r: string)
    requires SafeAttr(x)
    ensures ParseParam(Param(x) + r) == Some((x, r))
  {
    var s := Param(x) + r;
    var n := |x.0|;
    ParamKey(x, r);
    ParamValue(x, r);
    var after := s[n + 2..];
    assert after[1..] == s[n + 3..];
    assert after[1..|x.1| + 1] == x.1;
    assert after[|x.1| + 2..] == r;
  }

  lemma ParseParamStep(x: Attr, r: string)
    requires SafeAttr(x)
    ensures ParseParams(Param(x) + r) ==
      match ParseParams(r)
      case None => None
      case Some(ps) => Some([x] + ps)
  {
    ParseOneParam(x, r);
  }

  /** The parameters of any data object whose parameter entries are safe parse back to
      exactly the entries other than `componentType`, in order. */
  lemma {:induction false} ParamsRoundTrip(data: seq<Attr>)
    requires SafeEntries(data)
    ensures ParseParams(Params(data)) == Some(Attributes(data))
  {
    if data != [] {
      var x, rest := data[0], data[1..];
      assert data == [x] + rest;
      ConcatCons(ParamOf, x, rest);
      AttributesCons(x, rest);
      ParamsRoundTrip(rest);
      if x.0 == TypeKey {
        assert Params(data) == Params(rest);
        assert Attributes(data) == Attributes(rest);
      } else {
        assert Params(data) == Param(x) + Params(rest);
        ParseParamStep(x, Params(rest));
        assert Attributes(data) == [x] + Attributes(rest);
      }
    }
  }

  lemma {:induction false} ParamsShape(data: seq<Attr>)
    ensures Params(data) == "" <==> Attributes(data) == []
    ensures Params(data) != "" ==> Params(data)[0] == ' '
  {
    if data != [] {
      assert data == [data[0]] + data[1..];
      ConcatCons(ParamOf, data[0], data[1..]);
      AttributesCons(data[0], data[1..]);
      ParamsShape(data[1..]);
    }
  }

  lemma OpenTagFrame(t: string, p: string)
    ensures var s := "[aesop_" + t + p + "]";
      |s| >= 8 && s[..7] == "[aesop_" && s[|s| - 1] == ']' && s[7..|s| - 1] == t + p
  {
  }

  lemma TagBodySplit(t: string, p: string)
    requires ' ' !in t
    requires p != "" && p[0] == ' '
    ensures ParseTagBody(t + p) ==
      match ParseParams(p)
      case None => None
      case Some(ps) => Some((t, ps))
  {
    var m := t + p;
    assert m == t + [' '] + p[1..];
    FindFirst(t, ' ', p[1..]);
    assert m[|t|..] == p;
    assert m[..|t|] == t;
  }

  lemma TagBodyRoundTrip(t: string, data: seq<Attr>)
    requires ' ' !in t
    requires SafeEntries(data)
    ensures ParseTagBody(t + Params(data)) == Some((t, Attributes(data)))
  {
    ParamsShape(data);
    ParamsRoundTrip(data);
    if Params(data) == "" {
      assert t + Params(data) == t;
    } else {
      TagBodySplit(t, Params(data));
    }
  }

  /** Round trip of an opening tag: the type and the parameter entries are
      recovered from the text the serializer emits. */
  lemma OpenTagRoundTrip(t: string, data: seq<Attr>)
    requires ' ' !in t
    requires SafeEntries(data)
    ensures ParseOpenTag(OpenTag(t, data)) == Some((t, Attributes(data)))
  {
    OpenTagFrame(t, Params(data));
    TagBodyRoundTrip(t, data);
  }

  /** A typed component is written as an opening tag from which the parser
      recovers its type and the parameters in order; the content block, when
      present, follows it, closed by the matching closing tag. */
  lemma ComponentTagReadsBack(n: Node, t: string)
    requires IsComponent(n) && Lookup(n.dataset, TypeKey) == Some(t)
    requires ' ' !in t
    requires SafeEntries(n.dataset)
    ensures var tag, c := OpenTag(t, n.dataset), Contribution(n);
      && |tag| <= |c| && c[..|tag|] == tag
      && ParseOpenTag(tag) == Some((t, Attributes(n.dataset)))
      && (|n.contentData| == 0 ==> c == tag)
      && (|n.contentData| != 0 ==> c[|tag|..] == n.contentData[0] + CloseTag(t))
  {
    ComponentContribution(n, t);
    OpenTagRoundTrip(t, n.dataset);
  }

  /** Values are not escaped: two different attribute lists can produce the
      same opening tag, so a value holding `"` does not round-trip. */
  lemma UnescapedQuoteCollision()
    ensures OpenTag("quote", [("a", "1\" b=\"2")]) == OpenTag("quote", [("a", "1"), ("b", "2")])
    ensures Attributes([("a", "1\" b=\"2")]) != Attributes([("a", "1"), ("b", "2")])
  {
    assert [("a", "1"), ("b", "2")][..1] == [("a", "1")];
    assert [("a", "1\" b=\"2")][..0] == [];
    assert [("a", "1")][..0] == [];
    assert |Attributes([("a", "1\" b=\"2")])| == 1;
  }
}
