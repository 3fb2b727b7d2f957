/**
 The already-parsed template tree as the extractor sees it, and the
 pre-order walk that collects the rendered text of its action nodes
 (`listTemplateNodes` in template.go).
 */
module Parse {

  /**
   A node of the parse tree, classified by the two checks the walk makes.
   - `Action`: a `parse.ActionNode`; `text` is its `String()` rendering,
     delimiters included (`{{.Name}}`), taken as given.
   - `List`: a `parse.ListNode` with its ordered children.
   - `Other`: every other node kind (text, if, range, with, template, ...);
     `nested` holds the nodes stored under it, which the walk never enters.
   */
  datatype Node =
    | Action(text: string)
    | List(children: seq<Node>)
    | Other(nested: seq<Node>)

  /** The raw placeholders one call of `listTemplateNodes(n)` appends. */
  function Walk(n: Node): (raw: seq<string>)
  {
    match n
    case Action(t) => [t]
    case List(cs) => WalkAll(cs)
    case Other(_) => []
  }

  /** The raw placeholders appended by walking `cs` in order. */
  function WalkAll(cs: seq<Node>): (raw: seq<string>)
  {
    if |cs| == 0 then [] else Walk(cs[0]) + WalkAll(cs[1..])
  }

  /** Walking two runs of siblings appends the first run's output, then the second's. */
  lemma {:induction false} WalkAllAppend(a: seq<Node>, b: seq<Node>)
    ensures WalkAll(a + b) == WalkAll(a) + WalkAll(b)
  {
    if |a| > 0 {
      assert (a + b)[1..] == a[1..] + b;
      WalkAllAppend(a[1..], b);
    } else {
      assert a + b == b;
    }
  }

  /** Walking the siblings from position `i` on: the `i`-th node, then the rest. */
  lemma WalkAllFrom(cs: seq<Node>, i: nat)
    requires i < |cs|
    ensures WalkAll(cs[i..]) == Walk(cs[i]) + WalkAll(cs[i + 1..])
  {
    assert cs[i..][1..] == cs[i + 1..];
  }

  /** The nodes the walk visits from `n`, in visiting order (pre-order, left to right). */
  function PreOrder(n: Node): (r: seq<Node>)
    ensures |r| >= 1 && r[0] == n
  {
    match n
    case List(cs) => [n] + PreOrderAll(cs)
    case _ => [n]
  }

  function PreOrderAll(cs: seq<Node>): seq<Node>
  {
    if |cs| == 0 then [] else PreOrder(cs[0]) + PreOrderAll(cs[1..])
  }

  /** The texts of the action nodes among `ns`, in order, repeats included. */
  function ActionTexts(ns: seq<Node>): (r: seq<string>)
    ensures |r| <= |ns|
  {
    if |ns| == 0 then []
    else (if ns[0].Action? then [ns[0].text] else []) + ActionTexts(ns[1..])
  }

  lemma {:induction false} ActionTextsAppend(a: seq<Node>, b: seq<Node>)
    ensures ActionTexts(a + b) == ActionTexts(a) + ActionTexts(b)
  {
    if |a| > 0 {
      assert (a + b)[1..] == a[1..] + b;
      ActionTextsAppend(a[1..], b);
    } else {
      assert a + b == b;
    }
  }

  /** A text is among the action texts exactly when its action node is among the nodes. */
  lemma {:induction false} ActionTextsMembership(ns: seq<Node>, t: string)
    ensures t in ActionTexts(ns) <==> Action(t) in ns
  {
    if |ns| > 0 {
      ActionTextsMembership(ns[1..], t);
      assert ns == [ns[0]] + ns[1..];
    }
  }

  /**
   The raw placeholders of a walk are the texts of the action nodes in
   pre-order, left to right, repeats included; nodes below a non-list node
   are never visited.
   */
  lemma {:induction false} WalkIsPreOrder(n: Node)
    ensures Walk(n) == ActionTexts(PreOrder(n))
  {
    match n
    case List(cs) =>
      WalkAllIsPreOrder(cs);
      ActionTextsAppend([n], PreOrderAll(cs));
    case Action(_) =>
    case Other(_) =>
  }

  lemma {:induction false} WalkAllIsPreOrder(cs: seq<Node>)
    ensures WalkAll(cs) == ActionTexts(PreOrderAll(cs))
  {
    if |cs| > 0 {
      WalkIsPreOrder(cs[0]);
      WalkAllIsPreOrder(cs[1..]);
      ActionTextsAppend(PreOrder(cs[0]), PreOrderAll(cs[1..]));
    }
  }

  /** A text is a raw placeholder exactly when the walk visits an action node rendering to it. */
  lemma WalkMembership(n: Node, t: string)
    ensures t in Walk(n) <==> Action(t) in PreOrder(n)
  {
    WalkIsPreOrder(n);
    ActionTextsMembership(PreOrder(n), t);
  }

  /** The tree holds no action node anywhere, not even below a non-list node. */
  predicate ActionFree(n: Node) {
    match n
    case Action(_) => false
    case List(cs) => forall i :: 0 <= i < |cs| ==> ActionFree(cs[i])
    case Other(ns) => forall i :: 0 <= i < |ns| ==> ActionFree(ns[i])
  }

  /** A tree without action nodes yields no raw placeholder. */
  lemma {:induction false} ActionFreeWalk(n: Node)
    requires ActionFree(n)
    ensures Walk(n) == []
  {
    match n
    case List(cs) => ActionFreeWalkAll(cs);
    case Action(_) =>
    case Other(_) =>
  }

  lemma {:induction false} ActionFreeWalkAll(cs: seq<Node>)
    requires forall i :: 0 <= i < |cs| ==> ActionFree(cs[i])
    ensures WalkAll(cs) == []
  {
    if |cs| > 0 {
      ActionFreeWalk(cs[0]);
      ActionFreeWalkAll(cs[1..]);
    }
  }

  /**
   `listTemplateNodes`: appends the text of `n` when it is an action node,
   then, when `n` is a list node, walks its children in order.
   */
  method ListTemplateNodes(n: Node, raw: seq<string>) returns (raw': seq<string>)
    ensures raw' == raw + Walk(n)
    decreases n
  {
    raw' := raw;
    if n.Action? {
      raw' := raw' + [n.text];
    }
    if n.List? {
      var cs := n.children;
      var i := 0;
      while i < |cs|
        invariant 0 <= i <= |cs|
        invariant raw' == raw + WalkAll(cs[..i])
      {
        raw' := ListTemplateNodes(cs[i], raw');
        WalkAllAppend(cs[..i], [cs[i]]);
        assert cs[..i + 1] == cs[..i] + [cs[i]];
        i := i + 1;
      }
      assert cs[..i] == cs;
    }
  }
}
