/** What the log redactor keeps to itself, and how deep what it writes can be. */
module RedactionProperties {
  import opened Options
  import opened KeyMatcher
  import opened Redaction

  // ---------------------------------------------------------------------------
  // Nesting
  // ---------------------------------------------------------------------------

  /** At most `n` lists and records stand inside one another. */
  ghost predicate NestsWithin(o: Out, n: nat)
    decreases n, 0
  {
    match o
    case Items(items) => n > 0 && forall i :: 0 <= i < |items| ==> NestsWithin(items[i], n - 1)
    case Fields(fields) => n > 0 && FieldsNestWithin(fields, n - 1)
    case _ => true
  }

  ghost predicate FieldsNestWithin(fields: map<string, Out>, n: nat)
    decreases n, 1
  {
    forall key :: key in fields ==> NestsWithin(fields[key], n)
  }

  /** On any graph, cycles included, the log entry is no deeper than the policy allows. */
  lemma NestingIsBounded(w: Walker, h: Heap, v: Val)
    ensures NestsWithin(Redact(w, h, v), w.maxDepth + 1)
  {
    VisitNests(w, h, v, 0, []);
  }

  lemma {:induction false} VisitNests(w: Walker, h: Heap, v: Val, depth: nat, ancestors: seq<nat>)
    requires depth <= w.maxDepth + 1
    ensures NestsWithin(Visit(w, h, v, depth, ancestors), w.maxDepth + 1 - depth)
    decreases w.maxDepth + 1 - depth, 2
  {
    hide VisitNode;
    if v.Ref? && v.id !in ancestors && depth <= w.maxDepth {
      NodeNests(w, h, h(v.id), depth, ancestors + [v.id]);
    }
  }

  lemma {:induction false} NodeNests(w: Walker, h: Heap, node: Node, depth: nat, ancestors: seq<nat>)
    requires depth <= w.maxDepth
    ensures NestsWithin(VisitNode(w, h, node, depth, ancestors), w.maxDepth + 1 - depth)
    decreases w.maxDepth + 1 - depth, 1
  {
    hide Visit, VisitProps, VisitItems;
    match node
    case ErrorNode(_, _, _, cause, props) =>
      if cause.Some? {
        VisitNests(w, h, cause.value, depth + 1, ancestors);
      }
      PropsNest(w, h, props, true, depth + 1, ancestors, VisitHead(w, h, node, depth, ancestors));
    case ArrayNode(items) =>
      ItemsNest(w, h, if |items| > w.maxArrayLength then items[..w.maxArrayLength] else items, depth + 1, ancestors);
    case PlainNode(props) =>
      PropsNest(w, h, props, false, depth + 1, ancestors, map[]);
    case _ =>
  }

  lemma {:induction false} ItemsNest(w: Walker, h: Heap, items: seq<Val>, depth: nat, ancestors: seq<nat>)
    requires depth <= w.maxDepth + 1
    ensures |VisitItems(w, h, items, depth, ancestors)| == |items|
    ensures forall i :: 0 <= i < |items| ==>
      NestsWithin(VisitItems(w, h, items, depth, ancestors)[i], w.maxDepth + 1 - depth)
    decreases w.maxDepth + 1 - depth, 3, |items|
  {
    hide Visit, NestsWithin;
    if items != [] {
      ItemsNest(w, h, items[..|items| - 1], depth, ancestors);
      VisitNests(w, h, items[|items| - 1], depth, ancestors);
    }
  }

  lemma {:induction false} PropsNest(
    w: Walker, h: Heap, props: seq<Prop>, ofError: bool, depth: nat, ancestors: seq<nat>, start: map<string, Out>)
    requires depth <= w.maxDepth + 1 && FieldsNestWithin(start, w.maxDepth + 1 - depth)
    ensures FieldsNestWithin(VisitProps(w, h, props, ofError, depth, ancestors, start), w.maxDepth + 1 - depth)
    decreases w.maxDepth + 1 - depth, 3, |props|
  {
    hide Visit, NestsWithin, Sensitive;
    if props != [] {
      PropsNest(w, h, props[..|props| - 1], ofError, depth, ancestors, start);
      VisitNests(w, h, props[|props| - 1].value, depth, ancestors);
      MarkerNests(w.maxDepth + 1 - depth);
    }
  }

  lemma MarkerNests(n: nat)
    ensures NestsWithin(Text(REDACTED), n)
  {
  }

  // ---------------------------------------------------------------------------
  // Noninterference
  // ---------------------------------------------------------------------------

  /** Which object of one graph stands for which of the other. */
  type Pairing = (nat, nat) -> bool

  ghost predicate OneToOne(pair: Pairing) {
    forall a, b, c, d :: pair(a, b) && pair(c, d) ==> (a == c <==> b == d)
  }

  /** Texts the detectors make the same. */
  predicate TextsAgree(w: Walker, a: string, b: string) {
    w.scrub(a) == w.scrub(b)
  }

  predicate ValuesAgree(w: Walker, pair: Pairing, a: Val, b: Val) {
    if a.Str? && b.Str? then TextsAgree(w, a.text, b.text)
    else if a.Ref? && b.Ref? then pair(a.id, b.id)
    else !a.Ref? && a == b
  }

  /** The same keys; what stands under a sensitive one, or one an error renders apart, may differ. */
  ghost predicate PropsAgree(w: Walker, pair: Pairing, a: seq<Prop>, b: seq<Prop>, ofError: bool) {
    && |a| == |b|
    && forall i :: 0 <= i < |a| ==> PropAgrees(w, pair, a[i], b[i], ofError)
  }

  ghost predicate PropAgrees(w: Walker, pair: Pairing, a: Prop, b: Prop, ofError: bool) {
    && a.key == b.key
    && (Sensitive(w.terms, a.key) || (ofError && Reserved(a.key)) || ValuesAgree(w, pair, a.value, b.value))
  }

  /** Array elements past the cap may differ; their number may not. */
  ghost predicate ItemsAgree(w: Walker, pair: Pairing, a: seq<Val>, b: seq<Val>) {
    && |a| == |b|
    && forall i :: 0 <= i < |a| && i < w.maxArrayLength ==> ValuesAgree(w, pair, a[i], b[i])
  }

  ghost predicate NodesAgree(w: Walker, pair: Pairing, a: Node, b: Node) {
    match (a, b)
    case (ArrayNode(xs), ArrayNode(ys)) => ItemsAgree(w, pair, xs, ys)
    case (PlainNode(xs), PlainNode(ys)) => PropsAgree(w, pair, xs, ys, false)
    case (ErrorNode(_, _, _, _, xs), ErrorNode(_, _, _, _, ys)) =>
      && a.name == b.name && TextsAgree(w, a.message, b.message)
      && a.stack.Some? == b.stack.Some? && (a.stack.Some? ==> TextsAgree(w, a.stack.value, b.stack.value))
      && a.cause.Some? == b.cause.Some? && (a.cause.Some? ==> ValuesAgree(w, pair, a.cause.value, b.cause.value))
      && PropsAgree(w, pair, xs, ys, true)
    case _ => !a.ArrayNode? && !a.PlainNode? && !a.ErrorNode? && a == b
  }

  /** Paired objects agree on everything that is reached without passing a sensitive key. */
  ghost predicate GraphsAgree(w: Walker, pair: Pairing, g: Heap, h: Heap) {
    OneToOne(pair) && forall a, b :: pair(a, b) ==> NodesAgree(w, pair, g(a), h(b))
  }

  ghost predicate StacksAgree(pair: Pairing, above: seq<nat>, other: seq<nat>) {
    |above| == |other| && forall i :: 0 <= i < |above| ==> pair(above[i], other[i])
  }

  /**
   * Two graphs that agree on everything reachable without crossing a sensitive
   * key give the same log entry, whatever stands behind those keys.
   */
  lemma Noninterference(w: Walker, pair: Pairing, g: Heap, h: Heap, a: Val, b: Val)
    requires GraphsAgree(w, pair, g, h) && ValuesAgree(w, pair, a, b)
    ensures Redact(w, g, a) == Redact(w, h, b)
  {
    VisitAgrees(w, pair, g, h, a, b, 0, [], []);
  }

  lemma {:induction false} VisitAgrees(
    w: Walker, pair: Pairing, g: Heap, h: Heap, a: Val, b: Val, depth: nat, above: seq<nat>, other: seq<nat>)
    requires depth <= w.maxDepth + 1 && GraphsAgree(w, pair, g, h) && ValuesAgree(w, pair, a, b)
    requires StacksAgree(pair, above, other)
    ensures Visit(w, g, a, depth, above) == Visit(w, h, b, depth, other)
    decreases w.maxDepth + 1 - depth, 2
  {
    hide VisitNode, NodesAgree;
    if a.Ref? {
      assert a.id in above <==> b.id in other by { StacksHoldAlike(pair, above, other, a.id, b.id); }
      if a.id !in above && depth <= w.maxDepth {
        assert StacksAgree(pair, above + [a.id], other + [b.id]);
        NodeAgrees(w, pair, g, h, g(a.id), h(b.id), depth, above + [a.id], other + [b.id]);
      }
    }
  }

  lemma StacksHoldAlike(pair: Pairing, above: seq<nat>, other: seq<nat>, x: nat, y: nat)
    requires OneToOne(pair) && StacksAgree(pair, above, other) && pair(x, y)
    ensures x in above <==> y in other
  {
    assert forall i :: 0 <= i < |above| ==> (above[i] == x <==> other[i] == y);
  }

  lemma {:induction false} NodeAgrees(
    w: Walker, pair: Pairing, g: Heap, h: Heap, a: Node, b: Node, depth: nat, above: seq<nat>, other: seq<nat>)
    requires depth <= w.maxDepth && GraphsAgree(w, pair, g, h) && NodesAgree(w, pair, a, b)
    requires StacksAgree(pair, above, other)
    ensures VisitNode(w, g, a, depth, above) == VisitNode(w, h, b, depth, other)
    decreases w.maxDepth + 1 - depth, 1
  {
    hide GraphsAgree, ValuesAgree, PropsAgree, StacksAgree, Visit, VisitItems, VisitProps;
    match a
    case ErrorNode(_, _, _, cause, props) =>
      if cause.Some? {
        VisitAgrees(w, pair, g, h, cause.value, b.cause.value, depth + 1, above, other);
      }
      assert VisitHead(w, g, a, depth, above) == VisitHead(w, h, b, depth, other);
      VisitPropsAgree(w, pair, g, h, props, b.props, true, depth + 1, above, other, VisitHead(w, g, a, depth, above));
    case ArrayNode(items) =>
      var n := if |items| > w.maxArrayLength then w.maxArrayLength else |items|;
      assert |items| <= w.maxArrayLength ==> items[..n] == items && b.items[..n] == b.items;
      VisitItemsAgree(w, pair, g, h, items[..n], b.items[..n], depth + 1, above, other);
    case PlainNode(props) =>
      VisitPropsAgree(w, pair, g, h, props, b.props, false, depth + 1, above, other, map[]);
    case _ =>
  }

  lemma {:induction false} VisitItemsAgree(
    w: Walker, pair: Pairing, g: Heap, h: Heap, a: seq<Val>, b: seq<Val>, depth: nat, above: seq<nat>, other: seq<nat>)
    requires depth <= w.maxDepth + 1 && GraphsAgree(w, pair, g, h) && StacksAgree(pair, above, other)
    requires |a| == |b| && forall i :: 0 <= i < |a| ==> ValuesAgree(w, pair, a[i], b[i])
    ensures VisitItems(w, g, a, depth, above) == VisitItems(w, h, b, depth, other)
    decreases w.maxDepth + 1 - depth, 3, |a|
  {
    hide GraphsAgree, ValuesAgree, StacksAgree, Visit;
    if a != [] {
      var n := |a| - 1;
      VisitItemsAgree(w, pair, g, h, a[..n], b[..n], depth, above, other);
      VisitAgrees(w, pair, g, h, a[n], b[n], depth, above, other);
    }
  }

  lemma {:induction false} VisitPropsAgree(
    w: Walker, pair: Pairing, g: Heap, h: Heap, a: seq<Prop>, b: seq<Prop>, ofError: bool, depth: nat,
    above: seq<nat>, other: seq<nat>, start: map<string, Out>)
    requires depth <= w.maxDepth + 1 && GraphsAgree(w, pair, g, h) && StacksAgree(pair, above, other)
    requires PropsAgree(w, pair, a, b, ofError)
    ensures VisitProps(w, g, a, ofError, depth, above, start) == VisitProps(w, h, b, ofError, depth, other, start)
    decreases w.maxDepth + 1 - depth, 3, |a|
  {
    hide GraphsAgree, ValuesAgree, StacksAgree, Visit, Sensitive, Put, VisitString;
    if a != [] {
      var n := |a| - 1;
      VisitPropsAgree(w, pair, g, h, a[..n], b[..n], ofError, depth, above, other, start);
      assert PropAgrees(w, pair, a[n], b[n], ofError);
      if !Sensitive(w.terms, a[n].key) && !(ofError && Reserved(a[n].key)) {
        VisitAgrees(w, pair, g, h, a[n].value, b[n].value, depth, above, other);
      }
    }
  }

  // ---------------------------------------------------------------------------
  // A secret does not show
  // ---------------------------------------------------------------------------

  /** The graph with one property of one object changed. */
  ghost function Changed(h: Heap, id: nat, i: nat, value: Val): Heap
    requires h(id).PlainNode? && i < |h(id).props|
  {
    var props := h(id).props;
    var node := PlainNode(props[i := Prop(props[i].key, value)]);
    (r: nat) => if r == id then node else h(r)
  }

  /** Whatever is put under a sensitive key, anywhere in the graph, no log entry changes. */
  lemma SecretsDoNotShow(w: Walker, h: Heap, id: nat, i: nat, secret: Val, v: Val)
    requires h(id).PlainNode? && i < |h(id).props| && Sensitive(w.terms, h(id).props[i].key)
    ensures Redact(w, h, v) == Redact(w, Changed(h, id, i, secret), v)
  {
    var pair: Pairing := (a, b) => a == b;
    var g := Changed(h, id, i, secret);
    forall a, b | pair(a, b)
      ensures NodesAgree(w, pair, h(a), g(b))
    {
      if a != id {
        AgreesWithItself(w, pair, h(a));
      } else {
        assert forall k :: 0 <= k < |h(a).props| && k != i ==> g(a).props[k] == h(a).props[k];
      }
    }
    Noninterference(w, pair, h, g, v, v);
  }

  lemma AgreesWithItself(w: Walker, pair: Pairing, node: Node)
    requires forall a :: pair(a, a)
    ensures NodesAgree(w, pair, node, node)
  {
    hide Sensitive, VisitString;
  }

  // ---------------------------------------------------------------------------
  // Shared is not circular
  // ---------------------------------------------------------------------------

  /** The object holds this value, under whatever key or index. */
  ghost predicate Mentions(node: Node, v: Val) {
    match node
    case ArrayNode(items) => v in items
    case PlainNode(props) => exists i :: 0 <= i < |props| && props[i].value == v
    case ErrorNode(_, _, _, cause, props) =>
      cause == Some(v) || exists i :: 0 <= i < |props| && props[i].value == v
    case _ => false
  }

  /** No object leads back to itself; one object may still be reached along many paths. */
  ghost predicate Acyclic(h: Heap, rank: nat -> nat) {
    forall id, child :: Mentions(h(id), Ref(child)) ==> rank(child) < rank(id)
  }

  ghost predicate Below(rank: nat -> nat, v: Val, stack: seq<nat>) {
    v.Ref? ==> forall i :: 0 <= i < |stack| ==> rank(v.id) < rank(stack[i])
  }

  ghost predicate AllBelow(rank: nat -> nat, node: Node, stack: seq<nat>) {
    forall v :: Mentions(node, v) ==> Below(rank, v, stack)
  }

  /**
   * On a graph without cycles the check for ancestors never bites: a value is
   * rendered the same wherever it is met, and however often.
   */
  lemma SharedIsNotCircular(w: Walker, h: Heap, rank: nat -> nat, v: Val, depth: nat, ancestors: seq<nat>)
    requires depth <= w.maxDepth + 1 && Acyclic(h, rank) && Below(rank, v, ancestors)
    ensures Visit(w, h, v, depth, ancestors) == Visit(w, h, v, depth, [])
  {
    VisitIgnores(w, h, rank, v, depth, ancestors, []);
  }

  lemma {:induction false} VisitIgnores(
    w: Walker, h: Heap, rank: nat -> nat, v: Val, depth: nat, above: seq<nat>, other: seq<nat>)
    requires depth <= w.maxDepth + 1 && Acyclic(h, rank) && Below(rank, v, above) && Below(rank, v, other)
    ensures Visit(w, h, v, depth, above) == Visit(w, h, v, depth, other)
    decreases w.maxDepth + 1 - depth, 2
  {
    hide VisitNode, VisitString, Acyclic, Mentions;
    if v.Ref? {
      assert v.id !in above && v.id !in other;
      if depth <= w.maxDepth {
        ChildrenAreBelow(h, rank, v.id, above);
        ChildrenAreBelow(h, rank, v.id, other);
        NodeIgnores(w, h, rank, h(v.id), depth, above + [v.id], other + [v.id]);
      }
    }
  }

  lemma ChildrenAreBelow(h: Heap, rank: nat -> nat, id: nat, stack: seq<nat>)
    requires Acyclic(h, rank) && Below(rank, Ref(id), stack)
    ensures AllBelow(rank, h(id), stack + [id])
  {
    hide Mentions;
    assert Ref(id).id == id;
  }

  lemma {:induction false} NodeIgnores(
    w: Walker, h: Heap, rank: nat -> nat, node: Node, depth: nat, above: seq<nat>, other: seq<nat>)
    requires depth <= w.maxDepth && Acyclic(h, rank) && AllBelow(rank, node, above) && AllBelow(rank, node, other)
    ensures VisitNode(w, h, node, depth, above) == VisitNode(w, h, node, depth, other)
    decreases w.maxDepth + 1 - depth, 1
  {
    hide Acyclic, Below, Visit, VisitItems, VisitProps;
    match node
    case ErrorNode(_, _, _, cause, props) =>
      if cause.Some? {
        VisitIgnores(w, h, rank, cause.value, depth + 1, above, other);
      }
      assert VisitHead(w, h, node, depth, above) == VisitHead(w, h, node, depth, other);
      PropsIgnore(w, h, rank, props, true, depth + 1, above, other, VisitHead(w, h, node, depth, above));
    case ArrayNode(items) =>
      ItemsIgnore(
        w, h, rank, if |items| > w.maxArrayLength then items[..w.maxArrayLength] else items, depth + 1, above, other);
    case PlainNode(props) =>
      PropsIgnore(w, h, rank, props, false, depth + 1, above, other, map[]);
    case _ =>
  }

  lemma {:induction false} ItemsIgnore(
    w: Walker, h: Heap, rank: nat -> nat, items: seq<Val>, depth: nat, above: seq<nat>, other: seq<nat>)
    requires depth <= w.maxDepth + 1 && Acyclic(h, rank)
    requires forall v :: v in items ==> Below(rank, v, above) && Below(rank, v, other)
    ensures VisitItems(w, h, items, depth, above) == VisitItems(w, h, items, depth, other)
    decreases w.maxDepth + 1 - depth, 3, |items|
  {
    hide Acyclic, Below, Visit;
    if items != [] {
      ItemsIgnore(w, h, rank, items[..|items| - 1], depth, above, other);
      VisitIgnores(w, h, rank, items[|items| - 1], depth, above, other);
    }
  }

  lemma {:induction false} PropsIgnore(
    w: Walker, h: Heap, rank: nat -> nat, props: seq<Prop>, ofError: bool, depth: nat,
    above: seq<nat>, other: seq<nat>, start: map<string, Out>)
    requires depth <= w.maxDepth + 1 && Acyclic(h, rank)
    requires forall i :: 0 <= i < |props| ==> Below(rank, props[i].value, above) && Below(rank, props[i].value, other)
    ensures VisitProps(w, h, props, ofError, depth, above, start) == VisitProps(w, h, props, ofError, depth, other, start)
    decreases w.maxDepth + 1 - depth, 3, |props|
  {
    hide Acyclic, Below, Visit, Sensitive, Put, VisitString;
    if props != [] {
      var n := |props| - 1;
      PropsIgnore(w, h, rank, props[..n], ofError, depth, above, other, start);
      VisitIgnores(w, h, rank, props[n].value, depth, above, other);
    }
  }
}
