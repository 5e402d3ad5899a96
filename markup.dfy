/** HTML fragments as the widget writes them. An element is written by the
    widget itself: `<tag` followed by its attribute text, `>`, its children and
    `</tag>`. A raw piece is text that a host collaborator produced (image
    markup, the title as the author typed it); the widget inserts it as is and
    never looks inside it. */
module Markup {

  import opened Wrappers

  datatype Node =
    | Element(tag: string, attrs: string, children: seq<Node>)
    | Raw(text: string)

  /** `attrs` is the literal text between the tag name and `>`, leading blank included. */
  function OpenTag(tag: string, attrs: string): string
  {
    "<" + tag + attrs + ">"
  }

  function CloseTag(tag: string): string
  {
    "</" + tag + ">"
  }

  /** The markup text of a fragment. */
  function Html(n: Node): string
    decreases n
  {
    match n
    case Raw(text) => text
    case Element(tag, attrs, children) => OpenTag(tag, attrs) + HtmlSeq(children) + CloseTag(tag)
  }

  function HtmlSeq(ns: seq<Node>): string
    decreases ns
  {
    if ns == [] then "" else Html(ns[0]) + HtmlSeq(ns[1..])
  }

  lemma {:induction false} HtmlSeqAppend(a: seq<Node>, b: seq<Node>)
    ensures HtmlSeq(a + b) == HtmlSeq(a) + HtmlSeq(b)
    decreases a
  {
    if a == [] {
      assert a + b == b;
    } else {
      assert (a + b)[1..] == a[1..] + b;
      HtmlSeqAppend(a[1..], b);
    }
  }

  // ---------------------------------------------------------------------------
  // The tag stream of a fragment and what it means for it to be well nested

  /** What a reader of the markup sees: opening tags, closing tags and opaque text. */
  datatype Token = Open(tag: string, attrs: string) | Close(tag: string) | CharData(text: string)

  function Spelling(t: Token): string
  {
    match t
    case Open(tag, attrs) => OpenTag(tag, attrs)
    case Close(tag) => CloseTag(tag)
    case CharData(text) => text
  }

  function Spell(ts: seq<Token>): string
  {
    if ts == [] then "" else Spelling(ts[0]) + Spell(ts[1..])
  }

  function Tokens(n: Node): seq<Token>
    decreases n
  {
    match n
    case Raw(text) => [CharData(text)]
    case Element(tag, attrs, children) => [Open(tag, attrs)] + TokensSeq(children) + [Close(tag)]
  }

  function TokensSeq(ns: seq<Node>): seq<Token>
    decreases ns
  {
    if ns == [] then [] else Tokens(ns[0]) + TokensSeq(ns[1..])
  }

  /** Reads a token stream with the stack of tags still open, innermost
      first: an opening tag pushes its name, a closing tag must name the
      innermost open element and pops it. None means a closing tag that does
      not match. */
  function Nest(ts: seq<Token>, open: seq<string>): Option<seq<string>>
  {
    if ts == [] then Some(open)
    else match ts[0]
      case Open(tag, _) => Nest(ts[1..], [tag] + open)
      case Close(tag) => if open != [] && open[0] == tag then Nest(ts[1..], open[1..]) else None
      case CharData(_) => Nest(ts[1..], open)
  }

  /** Every opening tag is closed, by a closing tag of the same name, in last-opened-first-closed order. */
  predicate WellNested(ts: seq<Token>)
  {
    Nest(ts, []) == Some([])
  }

  lemma {:induction false} SpellAppend(a: seq<Token>, b: seq<Token>)
    ensures Spell(a + b) == Spell(a) + Spell(b)
  {
    if a == [] {
      assert a + b == b;
    } else {
      assert (a + b)[1..] == a[1..] + b;
      SpellAppend(a[1..], b);
    }
  }

  /** The markup text is exactly the spelling of the tag stream: the stream
      is a faithful reading of the text. */
  lemma {:induction false} HtmlIsSpelled(n: Node)
    ensures Html(n) == Spell(Tokens(n))
    decreases n
  {
    match n
    case Raw(text) =>
    case Element(tag, attrs, children) =>
      HtmlSeqIsSpelled(children);
      SpellAppend([Open(tag, attrs)], TokensSeq(children));
      SpellAppend([Open(tag, attrs)] + TokensSeq(children), [Close(tag)]);
  }

  lemma {:induction false} HtmlSeqIsSpelled(ns: seq<Node>)
    ensures HtmlSeq(ns) == Spell(TokensSeq(ns))
    decreases ns
  {
    if ns != [] {
      HtmlIsSpelled(ns[0]);
      HtmlSeqIsSpelled(ns[1..]);
      SpellAppend(Tokens(ns[0]), TokensSeq(ns[1..]));
    }
  }

  lemma {:induction false} NestAppend(a: seq<Token>, b: seq<Token>, open: seq<string>)
    ensures Nest(a + b, open) == match Nest(a, open) case None => None case Some(o) => Nest(b, o)
  {
    if a == [] {
      assert a + b == b;
    } else {
      assert (a + b)[0] == a[0];
      assert (a + b)[1..] == a[1..] + b;
      match a[0]
      case Open(tag, _) => NestAppend(a[1..], b, [tag] + open);
      case Close(tag) =>
        if open != [] && open[0] == tag {
          NestAppend(a[1..], b, open[1..]);
        }
      case CharData(_) => NestAppend(a[1..], b, open);
    }
  }

  /** Reading a whole fragment leaves the stack of open tags as it found it. */
  lemma {:induction false} TokensNest(n: Node, open: seq<string>)
    ensures Nest(Tokens(n), open) == Some(open)
    decreases n
  {
    match n
    case Raw(text) =>
    case Element(tag, attrs, children) =>
      var inner := TokensSeq(children);
      NestAppend([Open(tag, attrs)], inner + [Close(tag)], open);
      assert [Open(tag, attrs)] + (inner + [Close(tag)]) == Tokens(n);
      NestAppend(inner, [Close(tag)], [tag] + open);
      TokensSeqNest(children, [tag] + open);
  }

  lemma {:induction false} TokensSeqNest(ns: seq<Node>, open: seq<string>)
    ensures Nest(TokensSeq(ns), open) == Some(open)
    decreases ns
  {
    if ns != [] {
      NestAppend(Tokens(ns[0]), TokensSeq(ns[1..]), open);
      TokensNest(ns[0], open);
      TokensSeqNest(ns[1..], open);
    }
  }

  /** Whatever the raw pieces hold, the elements a fragment writes are well
      nested, and an element's opening tag is the first token and its own
      closing tag the last. */
  lemma ElementWellNested(n: Node)
    requires n.Element?
    ensures WellNested(Tokens(n))
    ensures WellNested(TokensSeq(n.children))
    ensures Tokens(n) == [Open(n.tag, n.attrs)] + TokensSeq(n.children) + [Close(n.tag)]
  {
    TokensNest(n, []);
    TokensSeqNest(n.children, []);
  }

  // ---------------------------------------------------------------------------
  // Comparing and counting

  /** A fragment with its attribute text and raw pieces blanked out: only the
      element names and their nesting remain. */
  function Shape(n: Node): Node
    decreases n
  {
    match n
    case Raw(_) => Raw("")
    case Element(tag, _, children) => Element(tag, "", ShapeSeq(children))
  }

  function ShapeSeq(ns: seq<Node>): seq<Node>
    decreases ns
  {
    if ns == [] then [] else [Shape(ns[0])] + ShapeSeq(ns[1..])
  }

  /** How many elements named `tag` a fragment writes (raw pieces are not looked into). */
  function CountTag(n: Node, tag: string): nat
    decreases n
  {
    match n
    case Raw(_) => 0
    case Element(t, _, children) => (if t == tag then 1 else 0) + CountTagSeq(children, tag)
  }

  function CountTagSeq(ns: seq<Node>, tag: string): nat
    decreases ns
  {
    if ns == [] then 0 else CountTag(ns[0], tag) + CountTagSeq(ns[1..], tag)
  }

  lemma {:induction false} CountTagSeqAppend(a: seq<Node>, b: seq<Node>, tag: string)
    ensures CountTagSeq(a + b, tag) == CountTagSeq(a, tag) + CountTagSeq(b, tag)
  {
    if a == [] {
      assert a + b == b;
    } else {
      assert (a + b)[1..] == a[1..] + b;
      CountTagSeqAppend(a[1..], b, tag);
    }
  }

  /** `part` occurs in `s` as a contiguous piece. */
  predicate Contains(s: string, part: string)
  {
    exists i :: 0 <= i <= |s| && part <= s[i..]
  }

  lemma ContainsMiddle(pre: string, part: string, post: string)
    ensures Contains(pre + part + post, part)
  {
    var s := pre + part + post;
    assert s[|pre|..] == part + post;
  }

  lemma ContainsPrefix(s: string, part: string)
    requires part <= s
    ensures Contains(s, part)
  {
    assert s[0..] == s;
  }

  /** What occurs in either half occurs in the whole. */
  lemma ContainsJoin(a: string, b: string, part: string)
    requires Contains(a, part) || Contains(b, part)
    ensures Contains(a + b, part)
  {
    if Contains(a, part) {
      var i :| 0 <= i <= |a| && part <= a[i..];
      assert (a + b)[i..] == a[i..] + b;
    } else {
      var i :| 0 <= i <= |b| && part <= b[i..];
      assert (a + b)[|a| + i..] == b[i..];
    }
  }

  lemma ContainsTrans(s: string, mid: string, part: string)
    requires Contains(s, mid) && Contains(mid, part)
    ensures Contains(s, part)
  {
    var i :| 0 <= i <= |s| && mid <= s[i..];
    var j :| 0 <= j <= |mid| && part <= mid[j..];
    forall k | 0 <= k < |part|
      ensures s[i + j + k] == part[k]
    {
      assert part[k] == mid[j..][k] == mid[j + k] == s[i..][j + k];
    }
    assert part <= s[i + j..];
  }
}
