/** What the log redactor does show: everything that no sensitive key hides, scrubbed and cut to size. */
module RedactionShows {
  import opened Options
  import opened Numerals
  import opened KeyMatcher
  import opened Redaction

  const ELLIPSIS: char := '\U{2026}'

  /** The scrubbed text if it fits the cap, and its beginning with an ellipsis if it does not. */
  predicate ShowsAs(w: Walker, s: string, shown: string) {
    var scrubbed := w.scrub(s);
    if |scrubbed| <= w.maxStringLength then shown == scrubbed
    else
      && |shown| == w.maxStringLength + 1 && shown[w.maxStringLength] == ELLIPSIS
      && shown[..w.maxStringLength] == scrubbed[..w.maxStringLength]
  }

  lemma StringShows(w: Walker, s: string)
    ensures ShowsAs(w, s, VisitString(w, s))
  {
  }

  // ---------------------------------------------------------------------------
  // Records
  // ---------------------------------------------------------------------------

  /** What an error shows from itself is not read from its properties again. */
  predicate Skipped(ofError: bool, key: string) {
    ofError && key in {"name", "message", "stack", "cause"}
  }

  /** Property `i` is written under its own key and nothing after it is. */
  ghost predicate WritesLast(w: Walker, props: seq<Prop>, ofError: bool, i: nat) {
    && i < |props| && !Skipped(ofError, props[i].key) && VisitString(w, props[i].key) != "__proto__"
    && forall j :: i < j < |props| && !Skipped(ofError, props[j].key) ==>
         VisitString(w, props[j].key) != VisitString(w, props[i].key)
  }

  /** No property is written under this name. */
  ghost predicate WritesNever(w: Walker, props: seq<Prop>, ofError: bool, name: string) {
    forall j :: 0 <= j < |props| && !Skipped(ofError, props[j].key) ==> VisitString(w, props[j].key) != name
  }

  /** A property stands under its key: as the marker if the key is sensitive, as its own rendering if not. */
  lemma {:induction false} PropertyShows(
    w: Walker, h: Heap, props: seq<Prop>, ofError: bool, depth: nat, ancestors: seq<nat>, start: map<string, Out>,
    i: nat)
    requires depth <= w.maxDepth + 1 && WritesLast(w, props, ofError, i)
    ensures var fields := VisitProps(w, h, props, ofError, depth, ancestors, start);
      var shown := VisitString(w, props[i].key);
      && shown in fields
      && fields[shown] == if Sensitive(w.terms, props[i].key) then Text("[redacted]")
                          else Visit(w, h, props[i].value, depth, ancestors)
  {
    hide Visit, Sensitive, VisitString;
    var n := |props| - 1;
    if i < n {
      PropertyShows(w, h, props[..n], ofError, depth, ancestors, start, i);
    }
  }

  lemma {:induction false} OthersStay(
    w: Walker, h: Heap, props: seq<Prop>, ofError: bool, depth: nat, ancestors: seq<nat>, start: map<string, Out>,
    name: string)
    requires depth <= w.maxDepth + 1 && WritesNever(w, props, ofError, name)
    ensures var fields := VisitProps(w, h, props, ofError, depth, ancestors, start);
      (name in fields <==> name in start) && (name in start ==> fields[name] == start[name])
  {
    hide Visit, Sensitive, VisitString;
    if props != [] {
      OthersStay(w, h, props[..|props| - 1], ofError, depth, ancestors, start, name);
    }
  }

  /** An error shows its name, its message and stack scrubbed, and its cause, where no property of its own replaces them. */
  lemma ErrorShows(w: Walker, h: Heap, node: Node, depth: nat, ancestors: seq<nat>)
    requires node.ErrorNode? && depth <= w.maxDepth
    ensures VisitNode(w, h, node, depth, ancestors).Fields?
    ensures var fields := VisitNode(w, h, node, depth, ancestors).fields;
      && (WritesNever(w, node.props, true, "name") ==> "name" in fields && fields["name"] == Text(node.name))
      && (WritesNever(w, node.props, true, "message") ==>
            "message" in fields && fields["message"].Text? && ShowsAs(w, node.message, fields["message"].text))
      && (WritesNever(w, node.props, true, "stack") ==>
            && ("stack" in fields <==> node.stack.Some?)
            && (node.stack.Some? ==> fields["stack"].Text? && ShowsAs(w, node.stack.value, fields["stack"].text)))
      && (WritesNever(w, node.props, true, "cause") ==>
            && ("cause" in fields <==> node.cause.Some?)
            && (node.cause.Some? ==> fields["cause"] == Visit(w, h, node.cause.value, depth + 1, ancestors)))
  {
    hide Visit, VisitProps, VisitString, WritesNever, ShowsAs;
    var start := VisitHead(w, h, node, depth, ancestors);
    StringShows(w, node.message);
    if node.stack.Some? {
      StringShows(w, node.stack.value);
    }
    ShowsUnlessWritten(w, h, node.props, depth + 1, ancestors, start, "name");
    ShowsUnlessWritten(w, h, node.props, depth + 1, ancestors, start, "message");
    ShowsUnlessWritten(w, h, node.props, depth + 1, ancestors, start, "stack");
    ShowsUnlessWritten(w, h, node.props, depth + 1, ancestors, start, "cause");
  }

  lemma ShowsUnlessWritten(
    w: Walker, h: Heap, props: seq<Prop>, depth: nat, ancestors: seq<nat>, start: map<string, Out>, name: string)
    requires depth <= w.maxDepth + 1
    ensures WritesNever(w, props, true, name) ==>
      var fields := VisitProps(w, h, props, true, depth, ancestors, start);
      (name in fields <==> name in start) && (name in start ==> fields[name] == start[name])
  {
    if WritesNever(w, props, true, name) {
      OthersStay(w, h, props, true, depth, ancestors, start, name);
    }
  }

  // ---------------------------------------------------------------------------
  // Lists
  // ---------------------------------------------------------------------------

  lemma {:induction false} ItemShows(w: Walker, h: Heap, items: seq<Val>, depth: nat, ancestors: seq<nat>, i: nat)
    requires depth <= w.maxDepth + 1 && i < |items|
    ensures |VisitItems(w, h, items, depth, ancestors)| == |items|
    ensures VisitItems(w, h, items, depth, ancestors)[i] == Visit(w, h, items[i], depth, ancestors)
  {
    hide Visit;
    var n := |items| - 1;
    if n > 0 {
      ItemShows(w, h, items[..n], depth, ancestors, if i < n then i else 0);
    }
  }

  /** Elements up to the cap stand in their places; if there are more, one marker says how many. */
  lemma ListShows(w: Walker, h: Heap, items: seq<Val>, depth: nat, ancestors: seq<nat>)
    requires depth <= w.maxDepth
    ensures VisitNode(w, h, ArrayNode(items), depth, ancestors).Items?
    ensures var shown := VisitNode(w, h, ArrayNode(items), depth, ancestors).items;
      && (|items| <= w.maxArrayLength ==> |shown| == |items|)
      && (|items| > w.maxArrayLength ==>
            && |shown| == w.maxArrayLength + 1
            && shown[w.maxArrayLength] == Text("[truncated:" + Decimal(|items| - w.maxArrayLength) + " more item"
                                               + (if |items| - w.maxArrayLength == 1 then "" else "s") + "]"))
      && forall i :: 0 <= i < |items| && i < w.maxArrayLength ==>
           shown[i] == Visit(w, h, items[i], depth + 1, ancestors)
  {
    hide Visit, VisitItems, Decimal;
    var n := if |items| > w.maxArrayLength then w.maxArrayLength else |items|;
    var kept := items[..n];
    assert |items| <= w.maxArrayLength ==> kept == items;
    assert |VisitItems(w, h, kept, depth + 1, ancestors)| == n by {
      if n > 0 {
        ItemShows(w, h, kept, depth + 1, ancestors, 0);
      } else {
        NoItems(w, h, kept, depth + 1, ancestors);
      }
    }
    forall i | 0 <= i < n
      ensures VisitItems(w, h, kept, depth + 1, ancestors)[i] == Visit(w, h, items[i], depth + 1, ancestors)
    {
      ItemShows(w, h, kept, depth + 1, ancestors, i);
    }
  }

  lemma NoItems(w: Walker, h: Heap, items: seq<Val>, depth: nat, ancestors: seq<nat>)
    requires depth <= w.maxDepth + 1 && items == []
    ensures VisitItems(w, h, items, depth, ancestors) == []
  {
  }

  // ---------------------------------------------------------------------------
  // A whole path
  // ---------------------------------------------------------------------------

  /** One step into an object: to its property `i`, or to its element `i`. */
  datatype Hop = ByKey(i: nat) | ByIndex(i: nat)

  /** What the step leads to, if the object at hand has it and nothing hides it. */
  ghost function Next(w: Walker, h: Heap, v: Val, hop: Hop): Option<Val> {
    if !v.Ref? then None
    else match (h(v.id), hop)
      case (PlainNode(props), ByKey(i)) =>
        if WritesLast(w, props, false, i) && !Sensitive(w.terms, props[i].key) then Some(props[i].value) else None
      case (ErrorNode(_, _, _, _, props), ByKey(i)) =>
        if WritesLast(w, props, true, i) && !Sensitive(w.terms, props[i].key) then Some(props[i].value) else None
      case (ArrayNode(items), ByIndex(i)) =>
        if i < |items| && i < w.maxArrayLength then Some(items[i]) else None
      case _ => None
  }

  /** Where that stands in the entry. */
  ghost function Place(w: Walker, h: Heap, v: Val, hop: Hop, out: Out): Option<Out>
    requires Next(w, h, v, hop).Some?
  {
    match h(v.id)
    case PlainNode(props) =>
      var shown := VisitString(w, props[hop.i].key);
      if out.Fields? && shown in out.fields then Some(out.fields[shown]) else None
    case ErrorNode(_, _, _, _, props) =>
      var shown := VisitString(w, props[hop.i].key);
      if out.Fields? && shown in out.fields then Some(out.fields[shown]) else None
    case _ => if out.Items? && hop.i < |out.items| then Some(out.items[hop.i]) else None
  }

  /** The value at the end of a path nothing hides, if no object on it is met twice. */
  ghost function Follow(w: Walker, h: Heap, v: Val, path: seq<Hop>, met: seq<nat>): Option<Val>
    decreases |path|
  {
    if path == [] then Some(v)
    else if !v.Ref? || v.id in met then None
    else match Next(w, h, v, path[0])
      case None => None
      case Some(next) => Follow(w, h, next, path[1..], met + [v.id])
  }

  /** What the entry has at the end of that path. */
  ghost function Find(w: Walker, h: Heap, v: Val, path: seq<Hop>, out: Out): Option<Out>
    decreases |path|
  {
    if path == [] then Some(out)
    else match Next(w, h, v, path[0])
      case None => None
      case Some(next) =>
        match Place(w, h, v, path[0], out)
        case None => None
        case Some(inner) => Find(w, h, next, path[1..], inner)
  }

  lemma HopShows(w: Walker, h: Heap, v: Val, hop: Hop, depth: nat, ancestors: seq<nat>)
    requires depth <= w.maxDepth && Next(w, h, v, hop).Some? && v.id !in ancestors
    ensures Place(w, h, v, hop, Visit(w, h, v, depth, ancestors)) ==
      Some(Visit(w, h, Next(w, h, v, hop).value, depth + 1, ancestors + [v.id]))
  {
    hide VisitProps, VisitItems, WritesLast, Sensitive, VisitString;
    var met := ancestors + [v.id];
    match h(v.id)
    case PlainNode(props) =>
      PropertyShows(w, h, props, false, depth + 1, met, map[], hop.i);
    case ErrorNode(_, _, _, _, props) =>
      PropertyShows(w, h, props, true, depth + 1, met, VisitHead(w, h, h(v.id), depth, met), hop.i);
    case ArrayNode(items) =>
      ListShows(w, h, items, depth, met);
    case _ =>
  }

  lemma {:induction false} PathShowsAt(
    w: Walker, h: Heap, v: Val, path: seq<Hop>, depth: nat, ancestors: seq<nat>, leaf: Val) returns (met: seq<nat>)
    requires depth + |path| <= w.maxDepth + 1 && Follow(w, h, v, path, ancestors) == Some(leaf)
    ensures Find(w, h, v, path, Visit(w, h, v, depth, ancestors)) == Some(Visit(w, h, leaf, depth + |path|, met))
    decreases |path|
  {
    hide Visit, Next, Place;
    if path == [] {
      met := ancestors;
    } else {
      var next := Next(w, h, v, path[0]).value;
      HopShows(w, h, v, path[0], depth, ancestors);
      met := PathShowsAt(w, h, next, path[1..], depth + 1, ancestors + [v.id], leaf);
    }
  }

  /**
   * A string at the end of a path that no sensitive key, no cap and no cycle cuts
   * short stands in the entry at the end of the same path, scrubbed and, if it is
   * too long, cut.
   */
  lemma PathShows(w: Walker, h: Heap, v: Val, path: seq<Hop>, s: string)
    requires |path| <= w.maxDepth + 1 && Follow(w, h, v, path, []) == Some(Str(s))
    ensures var found := Find(w, h, v, path, Redact(w, h, v));
      found.Some? && found.value.Text? && ShowsAs(w, s, found.value.text)
  {
    var met := PathShowsAt(w, h, v, path, 0, [], Str(s));
    assert Find(w, h, v, path, Redact(w, h, v)) == Some(Visit(w, h, Str(s), |path|, met));
    StringShows(w, s);
  }

  /** What is no string, list or record is written as it reads. */
  lemma LeafShows(w: Walker, h: Heap, v: Val, depth: nat, ancestors: seq<nat>)
    requires depth <= w.maxDepth + 1
    ensures var out := Visit(w, h, v, depth, ancestors);
      match v
      case Str(s) => out.Text? && ShowsAs(w, s, out.text)
      case Num(digits, finite) => out == if finite then Number(digits) else Text(digits)
      case Bool(b) => out == Boolean(b)
      case Undefined => out == Absent
      case BigInt(digits) => out == Text(digits + "n")
      case Sym(name) => out == Text(name)
      case Func => out == Text("[opaque:function]")
      case Null => out == Nil
      case Ref(id) =>
        if id in ancestors then out == Text("[circular]")
        else if depth == w.maxDepth + 1 then out == Text("[truncated:depth]")
        else match h(id)
          case DateNode(None) => out == Text("Invalid Date")
          case DateNode(Some(iso)) => out == Text(iso)
          case OpaqueNode(description) => out == Text(description)
          case ArrayNode(_) => out.Items?
          case _ => out.Fields?
  {
    hide VisitProps, VisitItems, VisitHead;
    if v.Str? {
      StringShows(w, v.text);
    }
  }
}
