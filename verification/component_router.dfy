/** `get_aesop_component` (public/includes/lasso.php): collects the posted
    fields other than `code` and `action` into an attribute array and echoes
    the fragment of the component named by `code`. */
module ComponentRouter {
  import opened Wrappers
  import opened Php
  import Shortcode

  type Entries = seq<(string, PhpValue)>

  const CodeKey := "code"
  const ActionKey := "action"
  /** The components the router knows, in the order their `if` statements
      are evaluated. */
  datatype Component = Image | Quote | Parallax | Character | Collection | Chapter | Gallery

  /** The `code` literal each `if` compares with. */
  function Literal(c: Component): string {
    match c
    case Image => "aesop_image"
    case Quote => "aesop_quote"
    case Parallax => "aesop_parallax"
    case Character => "aesop_character"
    case Collection => "aesop_collection"
    case Chapter => "aesop_chapter"
    case Gallery => "aesop_gallery"
  }

  /** The component a code names, if any. */
  function Named(s: string): Option<Component> {
    if s == Literal(Image) then Some(Image)
    else if s == Literal(Quote) then Some(Quote)
    else if s == Literal(Parallax) then Some(Parallax)
    else if s == Literal(Character) then Some(Character)
    else if s == Literal(Collection) then Some(Collection)
    else if s == Literal(Chapter) then Some(Chapter)
    else if s == Literal(Gallery) then Some(Gallery)
    else None
  }

  /** Every literal names its own component, so no two branches share a literal. */
  lemma NamedLiteral(c: Component)
    ensures Named(Literal(c)) == Some(c)
  {
    match c
    case Image =>
    case Quote => assert Literal(Quote)[6] != Literal(Image)[6];
    case Parallax =>
    case Character =>
    case Collection => assert Literal(Collection)[7] != Literal(Character)[7];
    case Chapter => assert Literal(Chapter)[8] != Literal(Parallax)[8];
    case Gallery =>
  }

  lemma LiteralInjective(c: Component, d: Component)
    ensures Literal(c) == Literal(d) <==> c == d
  {
    NamedLiteral(c);
    NamedLiteral(d);
  }

  /** What one branch echoes: the output of the external renderer of a
      component on the attributes, or the expansion of a shortcode text. */
  datatype Echo = Rendered(component: Component, atts: Entries) | ShortcodeOutput(text: string)

  predicate Keep(key: string) {
    key != CodeKey && key != ActionKey
  }

  /** `$a[$key] = $value`: replaces the value in place when the key is
      present, and appends the entry otherwise. */
  function ArraySet(a: Entries, key: string, value: PhpValue): (r: Entries)
    ensures Index(r, key) == value
  {
    if a == [] then [(key, value)]
    else if a[0].0 == key then [(key, value)] + a[1..]
    else [a[0]] + ArraySet(a[1..], key, value)
  }

  /** `$atts` after the `foreach` over the posted fields. */
  function CollectAtts(post: Entries): Entries {
    if post == [] then []
    else
      var prev := CollectAtts(post[..|post| - 1]);
      var e := post[|post| - 1];
      if Keep(e.0) then ArraySet(prev, e.0, e.1) else prev
  }

  /** The posted entries without `code` and `action`, in order. */
  function Filtered(post: Entries): Entries {
    if post == [] then []
    else (if Keep(post[0].0) then [post[0]] else []) + Filtered(post[1..])
  }

  predicate HasKey(a: Entries, key: string) {
    exists i :: 0 <= i < |a| && a[i].0 == key
  }

  /** Keys of a PHP array are unique. */
  predicate UniqueKeys(a: Entries) {
    forall i, j :: 0 <= i < j < |a| ==> a[i].0 != a[j].0
  }

  lemma {:induction false} ArraySetFresh(a: Entries, key: string, value: PhpValue)
    requires !HasKey(a, key)
    ensures ArraySet(a, key, value) == a + [(key, value)]
  {
    if a != [] {
      assert a[0].0 != key;
      assert !HasKey(a[1..], key) by {
        forall i | 0 <= i < |a[1..]| ensures a[1..][i].0 != key {
          assert a[1..][i] == a[i + 1];
        }
      }
      ArraySetFresh(a[1..], key, value);
    }
  }

  lemma {:induction false} FilteredSnoc(post: Entries, e: (string, PhpValue))
    ensures Filtered(post + [e]) == Filtered(post) + (if Keep(e.0) then [e] else [])
  {
    if post != [] {
      assert (post + [e])[1..] == post[1..] + [e];
      FilteredSnoc(post[1..], e);
    }
  }

  /** Every entry of the filtered list is an entry of the post. */
  lemma {:induction false} FilteredSub(post: Entries)
    ensures forall x :: x in Filtered(post) ==> x in post
  {
    if post != [] {
      FilteredSub(post[1..]);
    }
  }

  /** Over unique keys the `foreach` builds exactly the filtered post. */
  lemma {:induction false} CollectIsFilter(post: Entries)
    requires UniqueKeys(post)
    ensures CollectAtts(post) == Filtered(post)
  {
    if post != [] {
      var init := post[..|post| - 1];
      var e := post[|post| - 1];
      assert post == init + [e];
      CollectIsFilter(init);
      FilteredSnoc(init, e);
      if Keep(e.0) {
        FilteredSub(init);
        assert !HasKey(Filtered(init), e.0) by {
          forall i | 0 <= i < |Filtered(init)| ensures Filtered(init)[i].0 != e.0 {
            var x := Filtered(init)[i];
            assert x in init;
            var j :| 0 <= j < |init| && init[j] == x;
            assert post[j] == x;
          }
        }
        ArraySetFresh(Filtered(init), e.0, e.1);
      }
    }
  }

  /** An entry is an attribute exactly when it was posted under a key other
      than `code` and `action`; values are not changed. */
  lemma {:induction false} FilteredMembership(post: Entries, x: (string, PhpValue))
    ensures x in Filtered(post) <==> x in post && Keep(x.0)
  {
    if post != [] {
      FilteredMembership(post[1..], x);
      assert x in post <==> x == post[0] || x in post[1..];
    }
  }

  /** Looking a key up in the attributes gives what was posted under it. */
  lemma {:induction false} FilteredIndex(post: Entries, key: string)
    requires Keep(key)
    ensures Index(Filtered(post), key) == Index(post, key)
  {
    if post != [] {
      FilteredIndex(post[1..], key);
      if Keep(post[0].0) {
        assert Filtered(post) == [post[0]] + Filtered(post[1..]);
        assert ([post[0]] + Filtered(post[1..]))[1..] == Filtered(post[1..]);
      } else {
        assert post[0].0 != key;
        assert Filtered(post) == [] + Filtered(post[1..]) == Filtered(post[1..]);
      }
    }
  }

  /** The text given to `do_shortcode` for a gallery. */
  function GalleryShortcode(id: string): string {
    "[aesop_gallery id=\"" + id + "\"]"
  }

  /** The gallery shortcode has the shape the editor's serializer writes for a
      gallery component whose only data attribute is its id. */
  lemma GalleryShortcodeIsOpenTag(id: string)
    ensures GalleryShortcode(id) == Shortcode.OpenTag("gallery", [("id", id)])
  {
    Shortcode.ParamsSingle(("id", id));
  }

  /** What the branch for `c` echoes. */
  function Output(c: Component, atts: Entries): Echo {
    if c == Gallery then ShortcodeOutput(GalleryShortcode(ToStr(Index(atts, "id"))))
    else Rendered(c, atts)
  }

  /** What the `if` testing `c` echoes. */
  function Hit(code: PhpValue, c: Component, atts: Entries): seq<Echo> {
    if EqualsLiteral(code, Literal(c)) then [Output(c, atts)] else []
  }

  /** The echoes of the chain of `if` statements, in order. */
  function Dispatch(code: PhpValue, atts: Entries): seq<Echo> {
    Hit(code, Image, atts) + Hit(code, Quote, atts) + Hit(code, Parallax, atts) +
    Hit(code, Character, atts) + Hit(code, Collection, atts) + Hit(code, Chapter, atts) +
    Hit(code, Gallery, atts)
  }

  /** The component a posted code names, if any. */
  function CodeComponent(code: PhpValue): Option<Component> {
    if code.Str? then Named(code.s) else None
  }

  /** A code that is not `true` hits exactly the component it names. */
  lemma HitNamed(code: PhpValue, c: Component, atts: Entries)
    requires code != Bool(true)
    ensures Hit(code, c, atts) == if CodeComponent(code) == Some(c) then [Output(c, atts)] else []
  {
    NamedLiteral(c);
    if CodeComponent(code) == Some(c) {
      NamedSound(code.s);
    }
  }

  lemma NamedSound(s: string)
    ensures Named(s).Some? ==> Literal(Named(s).value) == s
  {
  }

  /** At most one renderer runs; nothing is echoed exactly when the code
      names no component; a known code runs its own branch. (`true` equals
      every literal and would run all seven; a posted field is never a
      boolean.) */
  lemma AtMostOneRenderer(code: PhpValue, atts: Entries)
    requires code != Bool(true)
    ensures |Dispatch(code, atts)| <= 1
    ensures Dispatch(code, atts) == [] <==> CodeComponent(code).None?
    ensures CodeComponent(code).Some? ==> Dispatch(code, atts) == [Output(CodeComponent(code).value, atts)]
  {
    HitNamed(code, Image, atts);
    HitNamed(code, Quote, atts);
    HitNamed(code, Parallax, atts);
    HitNamed(code, Character, atts);
    HitNamed(code, Collection, atts);
    HitNamed(code, Chapter, atts);
    HitNamed(code, Gallery, atts);
  }

  /** The gallery branch reads only the `id` attribute; the six others pass
      the whole attribute array to their renderer. */
  lemma GalleryIgnoresOtherAttributes(a1: Entries, a2: Entries)
    requires Index(a1, "id") == Index(a2, "id")
    ensures Dispatch(Str(Literal(Gallery)), a1) == Dispatch(Str(Literal(Gallery)), a2)
    ensures Dispatch(Str(Literal(Gallery)), a1) == [ShortcodeOutput(GalleryShortcode(ToStr(Index(a1, "id"))))]
  {
    NamedLiteral(Gallery);
    AtMostOneRenderer(Str(Literal(Gallery)), a1);
    AtMostOneRenderer(Str(Literal(Gallery)), a2);
  }

  /** `get_aesop_component` on the posted fields `post`: the returned list is
      what is echoed before `exit`. */
  method GetAesopComponent(post: Entries) returns (echoed: seq<Echo>)
    ensures echoed == Dispatch(Index(post, CodeKey), CollectAtts(post))
  {
    var code := Index(post, CodeKey);
    var atts := GatherAttributes(post);
    echoed := EchoComponent(code, atts);
  }

  /** The `foreach` over the posted fields. */
  method GatherAttributes(post: Entries) returns (atts: Entries)
    ensures atts == CollectAtts(post)
  {
    atts := [];
    for i := 0 to |post|
      invariant atts == CollectAtts(post[..i])
    {
      var (key, value) := post[i];
      assert post[..i + 1][..i] == post[..i];
      if key != CodeKey && key != ActionKey {
        atts := ArraySet(atts, key, value);
      }
    }
    assert post[..|post|] == post;
  }

  /** The chain of `if` statements on `code`. */
  method EchoComponent(code: PhpValue, atts: Entries) returns (echoed: seq<Echo>)
    ensures echoed == Dispatch(code, atts)
  {
    echoed := [];
    if EqualsLiteral(code, "aesop_image") {
      echoed := echoed + [Rendered(Image, atts)];
    }
    assert echoed == Hit(code, Image, atts);
    if EqualsLiteral(code, "aesop_quote") {
      echoed := echoed + [Rendered(Quote, atts)];
    }
    assert echoed == Hit(code, Image, atts) + Hit(code, Quote, atts);
    if EqualsLiteral(code, "aesop_parallax") {
      echoed := echoed + [Rendered(Parallax, atts)];
    }
    assert echoed == Hit(code, Image, atts) + Hit(code, Quote, atts) + Hit(code, Parallax, atts);
    if EqualsLiteral(code, "aesop_character") {
      echoed := echoed + [Rendered(Character, atts)];
    }
    assert echoed == Hit(code, Image, atts) + Hit(code, Quote, atts) + Hit(code, Parallax, atts) + Hit(code, Character, atts);
    if EqualsLiteral(code, "aesop_collection") {
      echoed := echoed + [Rendered(Collection, atts)];
    }
    assert echoed == Hit(code, Image, atts) + Hit(code, Quote, atts) + Hit(code, Parallax, atts) + Hit(code, Character, atts) + Hit(code, Collection, atts);
    if EqualsLiteral(code, "aesop_chapter") {
      echoed := echoed + [Rendered(Chapter, atts)];
    }
    assert echoed == Hit(code, Image, atts) + Hit(code, Quote, atts) + Hit(code, Parallax, atts) + Hit(code, Character, atts) + Hit(code, Collection, atts) + Hit(code, Chapter, atts);
    if EqualsLiteral(code, "aesop_gallery") {
      echoed := echoed + [ShortcodeOutput(GalleryShortcode(ToStr(Index(atts, "id"))))];
    }
  }
}
