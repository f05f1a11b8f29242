/** The small optional-value wrapper used throughout: `None` stands for the
    JavaScript `null`/`undefined` of the modelled code. */
module Wrappers {

  datatype Option<+T> = None | Some(value: T)
}

/** The part of the browser DOM that the ancestor matcher and the mouse sensor
    read: parent links, SVG `<use>` indirection, element kinds, selector
    matching and the hosts (documents and shadow roots) listeners live on. */
module DomTree {
  import opened Wrappers

  /** A DOM node, identified by object identity. */
  type Node = int

  /** What a selector match or a user predicate produced when applied to a node:
      a truthy value, a falsy value, or an exception. */
  datatype Verdict = Truthy | Falsy | Threw

  /** A document or shadow root. `root` is the node itself, `shadowHost` is
      its `.host` (the element a shadow root is attached to; absent for a
      document) and `body` is its `.body` (absent for a shadow root). */
  datatype Host = Host(root: Node, shadowHost: Option<Node>, body: Option<Node>)

  /** A snapshot of the document.
      - `parent`: `parentNode`, absent for a node without a parent;
      - `useElement`, `correspondingElement`: the SVG `correspondingUseElement`
        and `correspondingElement` links, absent when undefined;
      - `htmlElements`: the nodes that are instances of `HTMLElement`;
      - `selectorMatch`: `Element.matches`, which may throw on a malformed selector;
      - `ownerDocument`: the document a node belongs to;
      - `rank`: a measure that strictly decreases along every step of the
        ancestor walk; its existence is what makes the parent structure acyclic. */
  datatype Dom = Dom(
    parent: map<Node, Node>,
    useElement: map<Node, Node>,
    correspondingElement: map<Node, Node>,
    htmlElements: set<Node>,
    selectorMatch: (Node, string) -> Verdict,
    ownerDocument: Node -> Host,
    rank: map<Node, nat>)

  /** `current.correspondingUseElement || current.correspondingElement || current` */
  function Resolve(dom: Dom, n: Node): Node
  {
    if n in dom.useElement then dom.useElement[n]
    else if n in dom.correspondingElement then dom.correspondingElement[n]
    else n
  }

  function ParentNode(dom: Dom, n: Node): Option<Node>
  {
    if n in dom.parent then Some(dom.parent[n]) else None
  }

  /** One step of the ancestor walk: resolve the indirection, then go to the parent. */
  function Next(dom: Dom, n: Node): Option<Node>
  {
    ParentNode(dom, Resolve(dom, n))
  }

  function Rank(dom: Dom, n: Node): nat
  {
    if n in dom.rank then dom.rank[n] else 0
  }

  /** The walk step never returns to a node of equal or higher rank, so no
      node can be reached from itself. */
  ghost predicate WellFormed(dom: Dom)
  {
    forall n :: Next(dom, n).Some? ==>
      n in dom.rank && Next(dom, n).value in dom.rank && dom.rank[Next(dom, n).value] < dom.rank[n]
  }

  /** A document whose ancestor walk is acyclic. */
  type WfDom = d: Dom | WellFormed(d)
    witness Dom(map[], map[], map[], {}, (n: Node, sel: string) => Falsy, (n: Node) => Host(0, None, None), map[])

  /** `host.host || host.body` */
  function Boundary(h: Host): Option<Node>
  {
    if h.shadowHost.Some? then h.shadowHost else h.body
  }

  /** The ancestor walk for host `h` does not continue to `n`. */
  predicate StopsAt(h: Host, n: Node)
  {
    Boundary(h) == Some(n) || n == h.root
  }
}
