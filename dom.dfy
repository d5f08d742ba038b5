/** An abstract model of the part of the YouTube page that the integration
    reads and changes: the elements under `#player-container`, in document
    order.  `document.querySelector('#player-container .c')` becomes `Find`,
    `elm.querySelector('.c')` becomes `Find` restricted to the descendants of
    `elm`, and `classList.add` / `classList.remove` update one node's class set.
    An element is identified by its index in document order. */
module Dom {

  datatype Option<+T> = None | Some(value: T)

  /** One element: its CSS classes, the indices of the elements it lies inside,
      its `textContent` and its `aria-valuenow` attribute (`None` when the
      attribute is missing, so `getAttribute` returns `null`). */
  datatype Node = Node(classes: set<string>, ancestors: set<nat>, text: string, ariaValueNow: Option<string>)

  type Document = seq<Node>

  /** Where a `click` event lands horizontally on its target: the centre
      (`Nuvola.clickOnElement(elm)`), or an offset computed from the action's
      parameter (divided by the track length for SEEK, as is for the volume
      slider).  The floating-point offset itself is not modelled. */
  datatype Offset = Centre | ParameterOverTotal(parameter: real) | Parameter(parameter: real)

  /** A synthetic click dispatched by `Nuvola.clickOnElement`; the target is
      `None` when the caller passed `null`.  A click on `null` is taken to
      return normally; what the page does in response is not modelled. */
  datatype Click = Click(target: Option<nat>, at: Offset)

  /** The node carries class `cls` and, when a scope element is given, lies inside it. */
  predicate Matches(n: Node, cls: string, scope: Option<nat>)
  {
    cls in n.classes && (scope.Some? ==> scope.value in n.ancestors)
  }

  /** Some element of the document matches. */
  ghost predicate Present(doc: Document, cls: string, scope: Option<nat>)
  {
    exists i :: 0 <= i < |doc| && Matches(doc[i], cls, scope)
  }

  /** Element `i` is the first match in document order. */
  ghost predicate IsFirst(doc: Document, cls: string, scope: Option<nat>, i: int)
  {
    && 0 <= i < |doc|
    && Matches(doc[i], cls, scope)
    && forall j :: 0 <= j < i ==> !Matches(doc[j], cls, scope)
  }

  /** The first match at or after position `k`. */
  function FindFrom(doc: Document, cls: string, scope: Option<nat>, k: nat): (r: Option<nat>)
    requires k <= |doc|
    ensures r.Some? ==> k <= r.value < |doc| && Matches(doc[r.value], cls, scope)
    ensures r.Some? ==> forall j :: k <= j < r.value ==> !Matches(doc[j], cls, scope)
    ensures r.None? ==> forall j :: k <= j < |doc| ==> !Matches(doc[j], cls, scope)
    decreases |doc| - k
  {
    if k == |doc| then None
    else if Matches(doc[k], cls, scope) then Some(k)
    else FindFrom(doc, cls, scope, k + 1)
  }

  /** `querySelector`: the first matching element, or `null` when there is none. */
  function Find(doc: Document, cls: string, scope: Option<nat>): (r: Option<nat>)
    ensures r.Some? <==> Present(doc, cls, scope)
    ensures r.Some? ==> IsFirst(doc, cls, scope, r.value)
  {
    FindFrom(doc, cls, scope, 0)
  }

  /** `elm ? elm.textContent || null : null` for the first element with class `cls`:
      an empty text reads as `null`. */
  function TextOf(doc: Document, cls: string): (r: Option<string>)
    ensures r.Some? <==> exists i :: IsFirst(doc, cls, None, i) && doc[i].text != ""
    ensures r.Some? ==> r.value != "" && exists i :: IsFirst(doc, cls, None, i) && doc[i].text == r.value
  {
    match Find(doc, cls, None)
    case None => None
    case Some(i) => if doc[i].text == "" then None else Some(doc[i].text)
  }

  /** `classList.add` of every class in `cs` on element `i`. */
  function AddClasses(doc: Document, i: nat, cs: set<string>): (d: Document)
    requires i < |doc|
    ensures |d| == |doc| && d[i].classes == doc[i].classes + cs
    ensures SameExcept(doc, d, cs)
  {
    doc[i := doc[i].(classes := doc[i].classes + cs)]
  }

  /** `classList.remove` of every class in `cs` on element `i`. */
  function RemoveClasses(doc: Document, i: nat, cs: set<string>): (d: Document)
    requires i < |doc|
    ensures |d| == |doc| && d[i].classes == doc[i].classes - cs
    ensures SameExcept(doc, d, cs)
  {
    doc[i := doc[i].(classes := doc[i].classes - cs)]
  }

  /** The two documents differ at most in whether elements carry classes from `cs`. */
  ghost predicate SameExcept(doc: Document, doc': Document, cs: set<string>)
  {
    && |doc| == |doc'|
    && forall j :: 0 <= j < |doc| ==>
         && doc'[j].ancestors == doc[j].ancestors
         && doc'[j].text == doc[j].text
         && doc'[j].ariaValueNow == doc[j].ariaValueNow
         && doc'[j].classes - cs == doc[j].classes - cs
  }

  lemma SameExceptTransitive(d0: Document, d1: Document, d2: Document, cs: set<string>, cs': set<string>)
    requires SameExcept(d0, d1, cs) && SameExcept(d1, d2, cs')
    ensures SameExcept(d0, d2, cs + cs')
  {
    forall j | 0 <= j < |d0|
      ensures d2[j].classes - (cs + cs') == d0[j].classes - (cs + cs')
    {
      assert d2[j].classes - (cs + cs') == (d2[j].classes - cs') - cs;
      assert d1[j].classes - (cs + cs') == (d1[j].classes - cs') - cs;
      assert d1[j].classes - (cs + cs') == (d1[j].classes - cs) - cs';
      assert d0[j].classes - (cs + cs') == (d0[j].classes - cs) - cs';
    }
  }

  lemma SameExceptWiden(doc: Document, doc': Document, cs: set<string>, cs': set<string>)
    requires SameExcept(doc, doc', cs) && cs <= cs'
    ensures SameExcept(doc, doc', cs')
  {
    forall j | 0 <= j < |doc|
      ensures doc'[j].classes - cs' == doc[j].classes - cs'
    {
      assert doc'[j].classes - cs' == (doc'[j].classes - cs) - cs';
      assert doc[j].classes - cs' == (doc[j].classes - cs) - cs';
    }
  }

  /** Two documents on which every element matches alike give the same first match. */
  lemma FindFromAgrees(doc: Document, doc': Document, cls: string, scope: Option<nat>, k: nat)
    requires |doc| == |doc'| && k <= |doc|
    requires forall j :: k <= j < |doc| ==> (Matches(doc[j], cls, scope) <==> Matches(doc'[j], cls, scope))
    ensures FindFrom(doc, cls, scope, k) == FindFrom(doc', cls, scope, k)
  {
  }

  /** Changing classes other than `cls` does not change where `querySelector('.cls')` lands. */
  lemma FindUnaffected(doc: Document, doc': Document, cs: set<string>, cls: string, scope: Option<nat>)
    requires SameExcept(doc, doc', cs) && cls !in cs
    ensures Find(doc', cls, scope) == Find(doc, cls, scope)
  {
    forall j | 0 <= j < |doc|
      ensures Matches(doc[j], cls, scope) <==> Matches(doc'[j], cls, scope)
    {
      assert cls in doc[j].classes <==> cls in doc[j].classes - cs;
      assert cls in doc'[j].classes <==> cls in doc'[j].classes - cs;
    }
    FindFromAgrees(doc, doc', cls, scope, 0);
  }

  /** The live page: its elements, whose classes the integration adds and
      removes in place, and the clicks dispatched to it so far. */
  class Page {
    var nodes: Document
    var clicks: seq<Click>

    constructor (nodes: Document)
      ensures this.nodes == nodes && clicks == []
    {
      this.nodes := nodes;
      clicks := [];
    }

    method AddClass(i: nat, cls: string)
      requires i < |nodes|
      modifies this
      ensures nodes == AddClasses(old(nodes), i, {cls}) && clicks == old(clicks)
    {
      nodes := nodes[i := nodes[i].(classes := nodes[i].classes + {cls})];
    }

    method RemoveClass(i: nat, cls: string)
      requires i < |nodes|
      modifies this
      ensures nodes == RemoveClasses(old(nodes), i, {cls}) && clicks == old(clicks)
    {
      nodes := nodes[i := nodes[i].(classes := nodes[i].classes - {cls})];
    }

    /** `Nuvola.clickOnElement(target, ...)`: the click is recorded; what the
        page does in response is the page's business. */
    method ClickOn(target: Option<nat>, at: Offset)
      modifies this
      ensures clicks == old(clicks) + [Click(target, at)] && nodes == old(nodes)
    {
      clicks := clicks + [Click(target, at)];
    }
  }
}
