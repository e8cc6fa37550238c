/**
 The part of BeautifulSoup the scraper uses, over an already parsed document:
 a tree of elements and text strings, `find` and `find_all` by tag name (and
 by one attribute value), the `.string` shortcut, and
 `get_text(separator, strip=True)`. The parser that builds the tree is not
 part of this model.
 */
module Html {
  import opened Wrappers
  import opened Text

  /** A node of a parsed document: a text string, or an element with its tag name, attributes and children in source order. */
  datatype Node =
    | TextNode(text: string)
    | Element(name: string, attrs: map<string, string>, children: seq<Node>)

  /** The two kinds of search the scraper makes: by a list of tag names, or by tag name and one attribute value. */
  datatype Query =
    | AnyOf(names: seq<string>)
    | WithAttr(tag: string, attr: string, value: string)

  predicate Matches(q: Query, n: Node) {
    && n.Element?
    && match q
       case AnyOf(names) => n.name in names
       case WithAttr(tag, attr, value) => n.name == tag && attr in n.attrs && n.attrs[attr] == value
  }

  /** Document order: each node, then everything below it, then its following siblings and what is below them. */
  function Preorder(ns: seq<Node>): seq<Node> {
    if ns == [] then [] else [ns[0]] + (Descendants(ns[0]) + Preorder(ns[1..]))
  }

  /** Everything below a node, in document order. */
  function Descendants(n: Node): seq<Node> {
    if n.Element? then Preorder(n.children) else []
  }

  /**
   Reference definition of "first in document order": the position of the
   first node of `nodes` that matches, or `|nodes|` when none does.
   */
  function FirstIndex(nodes: seq<Node>, q: Query): (k: nat)
    ensures k <= |nodes|
    ensures forall j :: 0 <= j < k ==> !Matches(q, nodes[j])
    ensures k < |nodes| ==> Matches(q, nodes[k])
  {
    if nodes == [] then 0
    else if Matches(q, nodes[0]) then 0
    else 1 + FirstIndex(nodes[1..], q)
  }

  /** Reference definition of "all matches in document order": the matching nodes of `nodes`, in order. */
  function Select(nodes: seq<Node>, q: Query): (r: seq<Node>)
    ensures |r| <= |nodes|
  {
    if nodes == [] then []
    else if Matches(q, nodes[0]) then [nodes[0]] + Select(nodes[1..], q)
    else Select(nodes[1..], q)
  }

  /** The selection holds exactly the matching nodes. */
  lemma {:induction false} SelectMatches(nodes: seq<Node>, q: Query)
    ensures forall n :: n in Select(nodes, q) <==> n in nodes && Matches(q, n)
  {
    if nodes != [] {
      SelectMatches(nodes[1..], q);
      assert nodes == [nodes[0]] + nodes[1..];
    }
  }

  /** `tag.find_all(...)` over the children `ns` of a tag: a recursive walk of the tree. */
  function FindAll(ns: seq<Node>, q: Query): (r: seq<Node>)
    ensures forall i :: 0 <= i < |r| ==> Matches(q, r[i])
  {
    if ns == [] then []
    else
      (if Matches(q, ns[0]) then [ns[0]] else [])
      + ((if ns[0].Element? then FindAll(ns[0].children, q) else []) + FindAll(ns[1..], q))
  }

  /** `tag.find(...)` over the children `ns` of a tag: the walk stops at the first match. */
  function Find(ns: seq<Node>, q: Query): (r: Option<Node>)
    ensures r.Some? ==> Matches(q, r.value)
  {
    if ns == [] then None
    else if Matches(q, ns[0]) then Some(ns[0])
    else
      var inner := if ns[0].Element? then Find(ns[0].children, q) else None;
      if inner.Some? then inner else Find(ns[1..], q)
  }

  lemma {:induction false} AppendTail(a: seq<Node>, b: seq<Node>)
    requires a != []
    ensures (a + b)[0] == a[0]
    ensures (a + b)[1..] == a[1..] + b
  {
    forall i | 0 <= i < |a| + |b| - 1
      ensures (a + b)[1..][i] == (a[1..] + b)[i]
    {
      if i < |a| - 1 {
        assert (a + b)[1..][i] == a[i + 1];
      } else {
        assert (a + b)[1..][i] == b[i + 1 - |a|];
      }
    }
  }

  lemma {:induction false} SelectAppend(a: seq<Node>, b: seq<Node>, q: Query)
    ensures Select(a + b, q) == Select(a, q) + Select(b, q)
  {
    if a != [] {
      AppendTail(a, b);
      SelectAppend(a[1..], b, q);
      if Matches(q, a[0]) {
        assert Select(a + b, q) == [a[0]] + Select(a[1..] + b, q);
        assert Select(a, q) == [a[0]] + Select(a[1..], q);
      } else {
        assert Select(a + b, q) == Select(a[1..] + b, q);
        assert Select(a, q) == Select(a[1..], q);
      }
    } else {
      assert a + b == b;
    }
  }

  lemma {:induction false} FirstIndexAppend(a: seq<Node>, b: seq<Node>, q: Query)
    ensures FirstIndex(a + b, q) == if FirstIndex(a, q) < |a| then FirstIndex(a, q) else |a| + FirstIndex(b, q)
  {
    if a != [] {
      AppendTail(a, b);
      FirstIndexAppend(a[1..], b, q);
      if !Matches(q, a[0]) {
        assert FirstIndex(a + b, q) == 1 + FirstIndex(a[1..] + b, q);
        assert FirstIndex(a, q) == 1 + FirstIndex(a[1..], q);
      }
    } else {
      assert a + b == b;
    }
  }

  /** `find_all` returns exactly the matching nodes, in document order. */
  lemma {:induction false} FindAllInDocumentOrder(ns: seq<Node>, q: Query)
    ensures FindAll(ns, q) == Select(Preorder(ns), q)
    decreases ns, 1
  {
    if ns != [] {
      var n := ns[0];
      DescendantsInDocumentOrder(n, q);
      FindAllInDocumentOrder(ns[1..], q);
      var below := Descendants(n);
      SelectAppend([n], below + Preorder(ns[1..]), q);
      SelectAppend(below, Preorder(ns[1..]), q);
      assert Select([n], q) == if Matches(q, n) then [n] else [];
    }
  }

  lemma {:induction false} DescendantsInDocumentOrder(n: Node, q: Query)
    ensures (if n.Element? then FindAll(n.children, q) else []) == Select(Descendants(n), q)
    decreases n, 0
  {
    if n.Element? {
      FindAllInDocumentOrder(n.children, q);
    }
  }

  /** The first node of `nodes` that matches, if any. */
  function FirstOf(nodes: seq<Node>, q: Query): Option<Node> {
    var k := FirstIndex(nodes, q);
    if k < |nodes| then Some(nodes[k]) else None
  }

  /** The first match in `a + b` is the first match in `a`, or else the first in `b`. */
  lemma {:induction false} FirstOfAppend(a: seq<Node>, b: seq<Node>, q: Query)
    ensures FirstOf(a + b, q) == if FirstOf(a, q).Some? then FirstOf(a, q) else FirstOf(b, q)
  {
    FirstIndexAppend(a, b, q);
    var ka := FirstIndex(a, q);
    var kb := FirstIndex(b, q);
    if ka < |a| {
      assert (a + b)[ka] == a[ka];
    } else if kb < |b| {
      assert (a + b)[|a| + kb] == b[kb];
    }
  }

  /** `find` returns the first matching node in document order, and nothing when no node matches. */
  lemma {:induction false} FindIsFirstInDocumentOrder(ns: seq<Node>, q: Query)
    ensures Find(ns, q) == FirstOf(Preorder(ns), q)
    decreases ns, 1
  {
    if ns != [] {
      var n := ns[0];
      var below := Descendants(n);
      var after := Preorder(ns[1..]);
      FindBelowIsFirst(n, q);
      FindIsFirstInDocumentOrder(ns[1..], q);
      FirstOfAppend([n], below + after, q);
      FirstOfAppend(below, after, q);
      assert FirstOf([n], q) == if Matches(q, n) then Some(n) else None;
    }
  }

  lemma {:induction false} FindBelowIsFirst(n: Node, q: Query)
    ensures (if n.Element? then Find(n.children, q) else None) == FirstOf(Descendants(n), q)
    decreases n, 0
  {
    if n.Element? {
      FindIsFirstInDocumentOrder(n.children, q);
    }
  }

  /** `find` is the first element of what `find_all` returns (BeautifulSoup's `find` is `find_all` with limit 1). */
  lemma {:induction false} FindIsHeadOfFindAll(ns: seq<Node>, q: Query)
    ensures var all := FindAll(ns, q);
            Find(ns, q) == if all == [] then None else Some(all[0])
  {
    var order := Preorder(ns);
    FindAllInDocumentOrder(ns, q);
    FindIsFirstInDocumentOrder(ns, q);
    SelectHead(order, q);
  }

  lemma {:induction false} SelectHead(nodes: seq<Node>, q: Query)
    ensures var k := FirstIndex(nodes, q);
            var s := Select(nodes, q);
            (s == [] <==> k == |nodes|) && (s != [] ==> s[0] == nodes[k])
  {
    if nodes != [] {
      SelectHead(nodes[1..], q);
    }
  }

  /**
   The elements whose text BeautifulSoup keeps in string classes of their own
   (`Script`, `Stylesheet`, `TemplateString`, `RubyTextString`,
   `RubyParenthesisString`). `get_text` on an ordinary tag skips that text.
   */
  const HiddenTextTags: set<string> := {"script", "style", "template", "rt", "rp"}

  /**
   The text strings below the nodes `ns`, in document order, without the text
   inside the elements of `HiddenTextTags` (`_all_strings` before stripping).
   */
  function Strings(ns: seq<Node>): (r: seq<string>) {
    if ns == [] then []
    else
      (match ns[0]
       case TextNode(t) => [t]
       case Element(name, _, children) => if name in HiddenTextTags then [] else Strings(children))
      + Strings(ns[1..])
  }

  /** A node with everything inside `HiddenTextTags` elements removed. */
  function Prune(n: Node): (r: Node)
    decreases n, 0
  {
    match n
    case TextNode(_) => n
    case Element(name, attrs, children) =>
      Element(name, attrs, if name in HiddenTextTags then [] else PruneAll(children))
  }

  function PruneAll(ns: seq<Node>): (r: seq<Node>)
    ensures |r| == |ns|
    decreases ns, 1
  {
    if ns == [] then [] else [Prune(ns[0])] + PruneAll(ns[1..])
  }

  /** Reference definition: the strings of the text nodes among `nodes`, in order. */
  function TextsOf(nodes: seq<Node>): (r: seq<string>)
    ensures |r| <= |nodes|
  {
    if nodes == [] then []
    else (if nodes[0].TextNode? then [nodes[0].text] else []) + TextsOf(nodes[1..])
  }

  lemma {:induction false} TextsOfAppend(a: seq<Node>, b: seq<Node>)
    ensures TextsOf(a + b) == TextsOf(a) + TextsOf(b)
  {
    if a != [] {
      TextsOfAppend(a[1..], b);
      AppendTail(a, b);
    } else {
      assert a + b == b;
    }
  }

  /**
   The strings `get_text` works on are the text nodes among the descendants,
   in document order, once the inside of every `HiddenTextTags` element is removed.
   */
  lemma {:induction false} StringsInDocumentOrder(ns: seq<Node>)
    ensures Strings(ns) == TextsOf(Preorder(PruneAll(ns)))
    decreases ns, 1
  {
    if ns != [] {
      var n := Prune(ns[0]);
      var rest := PruneAll(ns[1..]);
      var below := Descendants(n);
      StringsBelow(ns[0]);
      StringsInDocumentOrder(ns[1..]);
      PreorderCons(n, rest);
      TextsOfAppend([n], below + Preorder(rest));
      TextsOfAppend(below, Preorder(rest));
    }
  }

  lemma {:induction false} PreorderCons(n: Node, rest: seq<Node>)
    ensures Preorder([n] + rest) == [n] + (Descendants(n) + Preorder(rest))
  {
    AppendTail([n], rest);
    assert [n][1..] + rest == rest;
  }

  lemma {:induction false} StringsBelow(n: Node)
    ensures (match n
             case TextNode(t) => [t]
             case Element(name, _, children) => if name in HiddenTextTags then [] else Strings(children))
            == TextsOf([Prune(n)]) + TextsOf(Descendants(Prune(n)))
    decreases n, 0
  {
    if n.Element? && n.name !in HiddenTextTags {
      StringsInDocumentOrder(n.children);
    }
  }

  /** Pruning changes nothing in a tree without `HiddenTextTags` elements. */
  lemma {:induction false} PruneWithoutHidden(ns: seq<Node>)
    requires forall i :: 0 <= i < |Preorder(ns)| ==> !(Preorder(ns)[i].Element? && Preorder(ns)[i].name in HiddenTextTags)
    ensures PruneAll(ns) == ns
    decreases ns
  {
    if ns != [] {
      var n := ns[0];
      var pre := Preorder(ns);
      assert pre[0] == n;
      forall i | 0 <= i < |Preorder(ns[1..])|
        ensures !(Preorder(ns[1..])[i].Element? && Preorder(ns[1..])[i].name in HiddenTextTags)
      {
        assert Preorder(ns[1..])[i] == pre[1 + |Descendants(n)| + i];
      }
      PruneWithoutHidden(ns[1..]);
      if n.Element? {
        forall i | 0 <= i < |Preorder(n.children)|
          ensures !(Preorder(n.children)[i].Element? && Preorder(n.children)[i].name in HiddenTextTags)
        {
          assert Preorder(n.children)[i] == pre[1 + i];
        }
        PruneWithoutHidden(n.children);
      }
      assert [n] + ns[1..] == ns;
    }
  }

  /** `tag.get_text(separator=sep, strip=True)`: the stripped non-blank strings below the tag, joined by `sep`. */
  function GetText(tag: Node, sep: string): (r: string)
    requires tag.Element?
    ensures IsStripped(r)
    ensures r == [] <==> AllBlank(Strings(tag.children))
  {
    var pieces := NonBlank(Strings(tag.children));
    JoinOfNonEmpty(sep, pieces);
    JoinStripped(sep, pieces);
    NonBlankEmpty(Strings(tag.children));
    Join(sep, pieces)
  }

  /** Joining stripped non-empty pieces gives a stripped string, whatever the separator. */
  lemma {:induction false} JoinStripped(sep: string, pieces: seq<string>)
    requires forall i :: 0 <= i < |pieces| ==> pieces[i] != [] && IsStripped(pieces[i])
    ensures IsStripped(Join(sep, pieces))
  {
    if |pieces| > 1 {
      var rest := Join(sep, pieces[1..]);
      JoinStripped(sep, pieces[1..]);
      JoinOfNonEmpty(sep, pieces[1..]);
      var r := pieces[0] + sep + rest;
      assert r[0] == pieces[0][0];
      assert r[|r| - 1] == rest[|rest| - 1];
    }
  }

  /** Joining pieces that are all non-empty gives the empty string only for no pieces. */
  lemma {:induction false} JoinOfNonEmpty(sep: string, pieces: seq<string>)
    requires forall i :: 0 <= i < |pieces| ==> pieces[i] != []
    ensures Join(sep, pieces) == [] <==> pieces == []
  {
    if |pieces| > 1 {
      assert |Join(sep, pieces)| >= |pieces[0]|;
    }
  }

  /**
   When no stripped string holds a line break, the lines of
   `get_text(separator="\n", strip=True)` are exactly the stripped non-blank
   strings, or one empty line when there are none.
   */
  lemma {:induction false} GetTextLines(tag: Node)
    requires tag.Element?
    requires forall l :: l in NonBlank(Strings(tag.children)) ==> '\n' !in l
    ensures var pieces := NonBlank(Strings(tag.children));
            Lines(GetText(tag, "\n")) == if pieces == [] then [""] else pieces
  {
    var pieces := NonBlank(Strings(tag.children));
    if pieces != [] {
      LinesJoin(pieces);
    }
  }

  /**
   BeautifulSoup's `.string`: the text of a tag whose only child is a string,
   looked up through a chain of only children; nothing otherwise.
   */
  function StringOf(n: Node): (r: Option<string>)
    ensures n.TextNode? ==> r == Some(n.text)
    ensures n.Element? && |n.children| != 1 ==> r == None
  {
    match n
    case TextNode(t) => Some(t)
    case Element(_, _, children) => if |children| == 1 then StringOf(children[0]) else None
  }

  /** A string found by `.string` is the only text node in the subtree, the hidden ones included. */
  lemma {:induction false} StringOfIsOnlyText(n: Node)
    ensures StringOf(n).Some? ==> TextsOf(Preorder([n])) == [StringOf(n).value]
  {
    assert Preorder([n]) == [n] + (Descendants(n) + Preorder([]));
    TextsOfAppend([n], Descendants(n) + Preorder([]));
    if n.Element? && |n.children| == 1 {
      var c := n.children[0];
      StringOfIsOnlyText(c);
      assert n.children == [c];
      TextsOfAppend(Preorder([c]), []);
      assert Descendants(n) + Preorder([]) == Preorder([c]) + [];
    }
  }
}
