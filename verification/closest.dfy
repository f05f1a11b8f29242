/** The ancestor matcher `closest`: from a starting element, walk up through
    `parentNode` (resolving SVG `<use>` indirection at every step) until a node
    satisfies the criterion or the walk leaves the host; with several hosts,
    try each in turn. */
module Ancestor {
  import opened Wrappers
  import opened DomTree

  /** The `value` argument, by its run-time type: a selector string, a list
      (`NodeList` or array) of candidates, a single element, a predicate, or
      anything else. */
  datatype Criterion =
    | Selector(selector: string)
    | Candidates(list: seq<Node>)
    | Single(element: Node)
    | Callback(test: Node -> Verdict)
    | Unsupported

  /** `conditionFn`: whether node `n` satisfies the criterion. A test that
      throws is a non-match; an element criterion that is not an
      `HTMLElement` (an SVG element, say) falls through to "never matches". */
  function Satisfies(dom: Dom, c: Criterion, n: Node): (b: bool)
    ensures c.Selector? ==> (b <==> dom.selectorMatch(n, c.selector) == Truthy)
    ensures c.Candidates? ==> (b <==> n in c.list)
    ensures c.Single? ==> (b <==> c.element in dom.htmlElements && n == c.element)
    ensures c.Callback? ==> (b <==> c.test(n) == Truthy)
    ensures c.Unsupported? ==> !b
  {
    match c
    case Selector(sel) => dom.selectorMatch(n, sel) == Truthy
    case Candidates(list) => n in list
    case Single(e) => e in dom.htmlElements && e == n
    case Callback(f) => f(n) == Truthy
    case Unsupported => false
  }

  /** The nodes the do-while loop reaches for host `h`, before resolution:
      the start, then each parent of the resolved node, up to (and excluding)
      a null parent, the host's boundary element or the host itself. */
  function Walk(dom: WfDom, h: Host, n: Node): (w: seq<Node>)
    ensures |w| >= 1 && w[0] == n
    ensures forall i :: 0 < i < |w| ==> !StopsAt(h, w[i])
    ensures forall i :: 0 <= i < |w| - 1 ==> Next(dom, w[i]) == Some(w[i + 1])
    ensures Next(dom, w[|w| - 1]).None? || StopsAt(h, Next(dom, w[|w| - 1]).value)
    decreases Rank(dom, n)
  {
    match Next(dom, n)
    case None => [n]
    case Some(p) => if StopsAt(h, p) then [n] else [n] + Walk(dom, h, p)
  }

  /** The nodes actually tested: each reached node after `<use>` resolution. */
  function Tested(dom: WfDom, h: Host, n: Node): (t: seq<Node>)
    ensures |t| == |Walk(dom, h, n)|
    ensures forall i :: 0 <= i < |t| ==> t[i] == Resolve(dom, Walk(dom, h, n)[i])
  {
    var w := Walk(dom, h, n);
    seq(|w|, i requires 0 <= i < |w| => Resolve(dom, w[i]))
  }

  /** Unfolding `Tested` by one step of the walk. */
  lemma TestedUnfold(dom: WfDom, h: Host, n: Node)
    ensures Tested(dom, h, n)[0] == Resolve(dom, n)
    ensures Next(dom, n).Some? && !StopsAt(h, Next(dom, n).value) ==>
              Tested(dom, h, n) == [Resolve(dom, n)] + Tested(dom, h, Next(dom, n).value)
    ensures Next(dom, n).None? || StopsAt(h, Next(dom, n).value) ==> |Tested(dom, h, n)| == 1
  {
    var w := Walk(dom, h, n);
    match Next(dom, n)
    case None =>
    case Some(p) =>
      if !StopsAt(h, p) {
        var t, tp := Tested(dom, h, n), Tested(dom, h, p);
        assert w == [n] + Walk(dom, h, p);
        assert |t| == 1 + |tp|;
        forall i | 0 <= i < |t|
          ensures t[i] == ([Resolve(dom, n)] + tp)[i]
        {
          if i > 0 { assert w[i] == Walk(dom, h, p)[i - 1]; }
        }
      }
  }

  /** No node of `t` satisfies the criterion. */
  ghost predicate NoneSatisfy(dom: WfDom, c: Criterion, t: seq<Node>)
  {
    forall i :: 0 <= i < |t| ==> !Satisfies(dom, c, t[i])
  }

  /** `x` is the first node of `t` that satisfies the criterion. */
  ghost predicate FirstSatisfying(dom: WfDom, c: Criterion, t: seq<Node>, x: Node)
  {
    exists i :: 0 <= i < |t| && t[i] == x && Satisfies(dom, c, x) && NoneSatisfy(dom, c, t[..i])
  }

  lemma NoneSatisfyCons(dom: WfDom, c: Criterion, x: Node, t: seq<Node>)
    ensures NoneSatisfy(dom, c, [x] + t) <==> !Satisfies(dom, c, x) && NoneSatisfy(dom, c, t)
  {
    var xt := [x] + t;
    assert xt[0] == x;
    assert forall i :: 0 <= i < |t| ==> t[i] == xt[i + 1];
    assert forall i :: 0 < i < |xt| ==> xt[i] == t[i - 1];
  }

  lemma FirstSatisfyingCons(dom: WfDom, c: Criterion, x: Node, t: seq<Node>, y: Node)
    requires !Satisfies(dom, c, x) && FirstSatisfying(dom, c, t, y)
    ensures FirstSatisfying(dom, c, [x] + t, y)
  {
    var i :| 0 <= i < |t| && t[i] == y && Satisfies(dom, c, y) && NoneSatisfy(dom, c, t[..i]);
    var xt := [x] + t;
    assert xt[..i + 1] == [x] + t[..i];
    NoneSatisfyCons(dom, c, x, t[..i]);
    assert xt[i + 1] == y;
  }

  /** `closestSingle`: the do-while walk for one host. What it finds is
      stated by `ClosestSingleIsNearest`. */
  function ClosestSingle(dom: WfDom, c: Criterion, h: Host, n: Node): (r: Option<Node>)
    ensures r.Some? ==> Satisfies(dom, c, r.value)
    decreases Rank(dom, n)
  {
    var current := Resolve(dom, n);
    if Satisfies(dom, c, current) then Some(current)
    else match ParentNode(dom, current)
      case None => None
      case Some(p) => if StopsAt(h, p) then None else ClosestSingle(dom, c, h, p)
  }

  /** The walk for one host yields null exactly when no tested node
      satisfies the criterion, and otherwise the first tested node that does:
      the nearest match on the resolved ancestor-or-self chain, never beyond
      the host's boundary. */
  lemma {:induction false} ClosestSingleIsNearest(dom: WfDom, c: Criterion, h: Host, n: Node)
    ensures ClosestSingle(dom, c, h, n).None? <==> NoneSatisfy(dom, c, Tested(dom, h, n))
    ensures ClosestSingle(dom, c, h, n).Some? ==> FirstSatisfying(dom, c, Tested(dom, h, n), ClosestSingle(dom, c, h, n).value)
    decreases Rank(dom, n)
  {
    TestedUnfold(dom, h, n);
    var current := Resolve(dom, n);
    if Satisfies(dom, c, current) {
      assert Tested(dom, h, n)[..0] == [];
    } else {
      match ParentNode(dom, current)
      case None =>
      case Some(p) =>
        if !StopsAt(h, p) {
          ClosestSingleIsNearest(dom, c, h, p);
          NoneSatisfyCons(dom, c, current, Tested(dom, h, p));
          if ClosestSingle(dom, c, h, p).Some? {
            FirstSatisfyingCons(dom, c, current, Tested(dom, h, p), ClosestSingle(dom, c, h, p).value);
          }
        }
    }
  }

  /** With an element criterion the walk finds that element exactly when it
      is an `HTMLElement` and lies on the tested chain; anything else, an SVG
      element say, is never found. */
  lemma SingleFoundIffOnChain(dom: WfDom, e: Node, h: Host, n: Node)
    ensures ClosestSingle(dom, Single(e), h, n).Some? <==>
              e in dom.htmlElements && exists i :: 0 <= i < |Tested(dom, h, n)| && Tested(dom, h, n)[i] == e
    ensures ClosestSingle(dom, Single(e), h, n).Some? ==> ClosestSingle(dom, Single(e), h, n).value == e
  {
    ClosestSingleIsNearest(dom, Single(e), h, n);
  }

  /** With a candidate list the walk yields null exactly when no tested node
      is in the list. */
  lemma CandidatesMissIffNoneListed(dom: WfDom, list: seq<Node>, h: Host, n: Node)
    ensures ClosestSingle(dom, Candidates(list), h, n).None? <==>
              forall i :: 0 <= i < |Tested(dom, h, n)| ==> Tested(dom, h, n)[i] !in list
  {
    ClosestSingleIsNearest(dom, Candidates(list), h, n);
  }

  /** Every host in `hosts` yields null for the walk from `n`. */
  ghost predicate AllMiss(dom: WfDom, c: Criterion, hosts: seq<Host>, n: Node)
  {
    forall i :: 0 <= i < |hosts| ==> ClosestSingle(dom, c, hosts[i], n).None?
  }

  /** The loop over an explicit list of hosts: the first host's non-null
      result, or null when every host yields null. */
  function ClosestIn(dom: WfDom, c: Criterion, hosts: seq<Host>, n: Node): (r: Option<Node>)
    ensures r.None? <==> AllMiss(dom, c, hosts, n)
    ensures r.Some? ==> exists i :: 0 <= i < |hosts| && ClosestSingle(dom, c, hosts[i], n) == r
                          && AllMiss(dom, c, hosts[..i], n)
  {
    if |hosts| == 0 then None
    else
      var first := ClosestSingle(dom, c, hosts[0], n);
      if first.Some? then
        assert AllMiss(dom, c, hosts[..0], n);
        first
      else
        var rest := ClosestIn(dom, c, hosts[1..], n);
        assert forall i :: 0 < i < |hosts| ==> hosts[i] == hosts[1..][i - 1];
        if rest.Some? then AllMissShift(dom, c, hosts, n, rest); rest
        else rest
  }

  lemma AllMissShift(dom: WfDom, c: Criterion, hosts: seq<Host>, n: Node, r: Option<Node>)
    requires |hosts| > 0 && ClosestSingle(dom, c, hosts[0], n).None?
    requires exists k :: 0 <= k < |hosts[1..]| && ClosestSingle(dom, c, hosts[1..][k], n) == r
                         && AllMiss(dom, c, hosts[1..][..k], n)
    ensures exists i :: 0 <= i < |hosts| && ClosestSingle(dom, c, hosts[i], n) == r && AllMiss(dom, c, hosts[..i], n)
  {
    var k :| 0 <= k < |hosts[1..]| && ClosestSingle(dom, c, hosts[1..][k], n) == r
             && AllMiss(dom, c, hosts[1..][..k], n);
    var pre, tail := hosts[..k + 1], hosts[1..][..k];
    forall j | 0 <= j < |pre|
      ensures ClosestSingle(dom, c, pre[j], n).None?
    {
      if j > 0 {
        assert pre[j] == tail[j - 1];
      }
    }
    assert hosts[k + 1] == hosts[1..][k];
  }

  /** `closest(element, value, currHosts)`. A missing element yields null; a
      missing host list means the element's own document; an empty list is
      an (empty) list, so it yields null. */
  function Closest(dom: WfDom, element: Option<Node>, c: Criterion, hosts: Option<seq<Host>>): (r: Option<Node>)
    ensures element.None? ==> r.None?
    ensures element.Some? && hosts.None? ==> r == ClosestSingle(dom, c, dom.ownerDocument(element.value), element.value)
    ensures element.Some? && hosts.Some? ==> r == ClosestIn(dom, c, hosts.value, element.value)
    ensures hosts == Some([]) ==> r.None?
    ensures r.Some? ==> Satisfies(dom, c, r.value)
  {
    match element
    case None => None
    case Some(e) =>
      var hs := if hosts.Some? then hosts.value else [dom.ownerDocument(e)];
      ClosestIn(dom, c, hs, e)
  }

  /** The do-while loop is entered unconditionally: the (resolved) start is
      tested even when the start is itself the host or its boundary
      element, and a match there is returned. */
  lemma StartAlwaysTested(dom: WfDom, c: Criterion, h: Host, n: Node)
    ensures Satisfies(dom, c, Resolve(dom, n)) ==> ClosestSingle(dom, c, h, n) == Some(Resolve(dom, n))
  {
    TestedUnfold(dom, h, n);
  }

  /** Trying the hosts of `a + b` in order is trying those of `a`, and
      only when all of them yield null, those of `b`. */
  lemma {:induction false} ClosestInAppend(dom: WfDom, c: Criterion, a: seq<Host>, b: seq<Host>, n: Node)
    ensures ClosestIn(dom, c, a, n).Some? ==> ClosestIn(dom, c, a + b, n) == ClosestIn(dom, c, a, n)
    ensures ClosestIn(dom, c, a, n).None? ==> ClosestIn(dom, c, a + b, n) == ClosestIn(dom, c, b, n)
    decreases |a|
  {
    if |a| == 0 {
      assert a + b == b;
    } else {
      assert (a + b)[0] == a[0] && (a + b)[1..] == a[1..] + b;
      if ClosestSingle(dom, c, a[0], n).None? {
        ClosestInAppend(dom, c, a[1..], b, n);
      }
    }
  }

  /** `closestSingle` as written: the do-while loop over `current`. It
      returns exactly what the recursive walk returns, so null precisely
      when no tested node satisfies the criterion. */
  method ClosestSingleLoop(dom: WfDom, c: Criterion, h: Host, element: Node) returns (r: Option<Node>)
    ensures r == ClosestSingle(dom, c, h, element)
    ensures r.None? <==> NoneSatisfy(dom, c, Tested(dom, h, element))
    ensures r.Some? ==> Satisfies(dom, c, r.value)
  {
    ClosestSingleIsNearest(dom, c, h, element);
    var current := element;
    while true
      invariant ClosestSingle(dom, c, h, current) == ClosestSingle(dom, c, h, element)
      decreases Rank(dom, current)
    {
      var resolved := Resolve(dom, current);
      if Satisfies(dom, c, resolved) {
        return Some(resolved);
      }
      var parent := ParentNode(dom, resolved);
      if parent.None? || StopsAt(h, parent.value) {
        return None;
      }
      assert Next(dom, current) == parent;
      current := parent.value;
    }
  }

  /** `closest` as written: the `for ... of` loop over the hosts, returning
      the first non-null per-host result. */
  method ClosestLoop(dom: WfDom, element: Option<Node>, c: Criterion, hosts: Option<seq<Host>>) returns (r: Option<Node>)
    ensures r == Closest(dom, element, c, hosts)
    ensures r.Some? ==> Satisfies(dom, c, r.value)
  {
    if element.None? {
      return None;
    }
    var e := element.value;
    var hs := if hosts.Some? then hosts.value else [dom.ownerDocument(e)];
    assert Closest(dom, element, c, hosts) == ClosestIn(dom, c, hs, e);
    var i := 0;
    while i < |hs|
      invariant 0 <= i <= |hs|
      invariant AllMiss(dom, c, hs[..i], e)
    {
      var found := ClosestSingleLoop(dom, c, hs[i], e);
      assert found == ClosestSingle(dom, c, hs[i], e);
      if found.Some? {
        StopsAtFirstMatchingHost(dom, c, hs, i, e);
        return found;
      }
      AllMissSnoc(dom, c, hs, i, e);
      i := i + 1;
    }
    assert hs[..i] == hs;
    r := None;
  }

  lemma AllMissSnoc(dom: WfDom, c: Criterion, hs: seq<Host>, i: nat, n: Node)
    requires i < |hs| && AllMiss(dom, c, hs[..i], n) && ClosestSingle(dom, c, hs[i], n).None?
    ensures AllMiss(dom, c, hs[..i + 1], n)
  {
    assert hs[..i + 1] == hs[..i] + [hs[i]];
  }

  /** When every host before `i` yields null and host `i` does not, the
      hosts loop stops at host `i`. */
  lemma StopsAtFirstMatchingHost(dom: WfDom, c: Criterion, hs: seq<Host>, i: nat, n: Node)
    requires i < |hs| && AllMiss(dom, c, hs[..i], n) && ClosestSingle(dom, c, hs[i], n).Some?
    ensures ClosestIn(dom, c, hs, n) == ClosestSingle(dom, c, hs[i], n)
  {
    ClosestInAppend(dom, c, hs[..i], hs[i..], n);
    assert hs[..i] + hs[i..] == hs;
    assert hs[i..][0] == hs[i];
  }
}
