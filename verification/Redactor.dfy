/** The log redactor: a bounded walk over a value that may be a cyclic object graph. */
module Redaction {
  import opened Options
  import opened Numerals
  import opened KeyMatcher

  const REDACTED := "[redacted]"
  const TRUNCATED_DEPTH := "[truncated:depth]"
  const CIRCULAR := "[circular]"

  /** A value as `typeof` tells them apart; an object is a reference into the heap. */
  datatype Val =
    | Str(text: string)
    | Num(digits: string, finite: bool)
    | Bool(b: bool)
    | Undefined
    | BigInt(digits: string)
    | Sym(name: string)
    | Func
    | Null
    | Ref(id: nat)

  datatype Prop = Prop(key: string, value: Val)

  /** What an object holds. An opaque one is known by its description only. */
  datatype Node =
    | DateNode(iso: Option<string>)
    | ErrorNode(name: string, message: string, stack: Option<string>, cause: Option<Val>, props: seq<Prop>)
    | ArrayNode(items: seq<Val>)
    | PlainNode(props: seq<Prop>)
    | OpaqueNode(description: string)

  type Heap = nat -> Node

  /** What is written to the log. */
  datatype Out =
    | Text(text: string)
    | Number(digits: string)
    | Boolean(b: bool)
    | Absent
    | Nil
    | Items(items: seq<Out>)
    | Fields(fields: map<string, Out>)

  /** The policy, the detectors that scrub a string, and the sensitive terms. */
  datatype Walker = Walker(
    maxDepth: nat, maxArrayLength: nat, maxStringLength: nat, scrub: string -> string, terms: set<string>)

  function TruncatedItems(count: nat): string {
    "[truncated:" + Decimal(count) + " more item" + (if count == 1 then "" else "s") + "]"
  }

  function VisitString(w: Walker, s: string): string {
    var scrubbed := w.scrub(s);
    if |scrubbed| > w.maxStringLength then scrubbed[..w.maxStringLength] + "\U{2026}" else scrubbed
  }

  /** `rendered[key] = value`, which leaves no property of its own for one special key. */
  function Put(fields: map<string, Out>, key: string, value: Out): map<string, Out> {
    if key == "__proto__" then fields else fields[key := value]
  }

  predicate Reserved(key: string) {
    key == "name" || key == "message" || key == "stack" || key == "cause"
  }

  // ---------------------------------------------------------------------------
  // The walk
  // ---------------------------------------------------------------------------

  ghost function Visit(w: Walker, h: Heap, v: Val, depth: nat, ancestors: seq<nat>): Out
    requires depth <= w.maxDepth + 1
    decreases w.maxDepth + 1 - depth, 2
  {
    match v
    case Str(text) => Text(VisitString(w, text))
    case Num(digits, finite) => if finite then Number(digits) else Text(digits)
    case Bool(b) => Boolean(b)
    case Undefined => Absent
    case BigInt(digits) => Text(digits + "n")
    case Sym(name) => Text(name)
    case Func => Text("[opaque:function]")
    case Null => Nil
    case Ref(id) =>
      if id in ancestors then Text(CIRCULAR)
      else if depth > w.maxDepth then Text(TRUNCATED_DEPTH)
      else VisitNode(w, h, h(id), depth, ancestors + [id])
  }

  ghost function VisitNode(w: Walker, h: Heap, node: Node, depth: nat, ancestors: seq<nat>): Out
    requires depth <= w.maxDepth
    decreases w.maxDepth + 1 - depth, 1
  {
    match node
    case DateNode(iso) => Text(if iso.Some? then iso.value else "Invalid Date")
    case ErrorNode(_, _, _, _, props) =>
      Fields(VisitProps(w, h, props, true, depth + 1, ancestors, VisitHead(w, h, node, depth, ancestors)))
    case ArrayNode(items) =>
      var kept := if |items| > w.maxArrayLength then items[..w.maxArrayLength] else items;
      var dropped := |items| - |kept|;
      var rendered := VisitItems(w, h, kept, depth + 1, ancestors);
      Items(if dropped > 0 then rendered + [Text(TruncatedItems(dropped))] else rendered)
    case PlainNode(props) => Fields(VisitProps(w, h, props, false, depth + 1, ancestors, map[]))
    case OpaqueNode(description) => Text(description)
  }

  /** The fields an error is rendered with before its own properties. */
  ghost function VisitHead(w: Walker, h: Heap, node: Node, depth: nat, ancestors: seq<nat>): map<string, Out>
    requires node.ErrorNode? && depth <= w.maxDepth
    decreases w.maxDepth + 1 - depth, 0
  {
    var base := map["name" := Text(node.name), "message" := Text(VisitString(w, node.message))];
    var withStack := if node.stack.Some? then base["stack" := Text(VisitString(w, node.stack.value))] else base;
    if node.cause.Some? then withStack["cause" := Visit(w, h, node.cause.value, depth + 1, ancestors)] else withStack
  }

  ghost function VisitItems(w: Walker, h: Heap, items: seq<Val>, depth: nat, ancestors: seq<nat>): seq<Out>
    requires depth <= w.maxDepth + 1
    decreases w.maxDepth + 1 - depth, 3, |items|
  {
    if items == [] then []
    else
      VisitItems(w, h, items[..|items| - 1], depth, ancestors)
      + [Visit(w, h, items[|items| - 1], depth, ancestors)]
  }

  ghost function VisitProps(
    w: Walker, h: Heap, props: seq<Prop>, ofError: bool, depth: nat, ancestors: seq<nat>, start: map<string, Out>)
    : map<string, Out>
    requires depth <= w.maxDepth + 1
    decreases w.maxDepth + 1 - depth, 3, |props|
  {
    if props == [] then start
    else
      var before := VisitProps(w, h, props[..|props| - 1], ofError, depth, ancestors, start);
      var Prop(key, value) := props[|props| - 1];
      if ofError && Reserved(key) then before
      else Put(before, VisitString(w, key), VisitProp(w, h, key, value, depth, ancestors))
  }

  /** What stands beside a key: the value under a sensitive one is not looked at. */
  ghost function VisitProp(w: Walker, h: Heap, key: string, value: Val, depth: nat, ancestors: seq<nat>): Out
    requires depth <= w.maxDepth + 1
    decreases w.maxDepth + 1 - depth, 3, 0
  {
    if Sensitive(w.terms, key) then Text(REDACTED) else Visit(w, h, value, depth, ancestors)
  }

  ghost function Redact(w: Walker, h: Heap, v: Val): Out {
    Visit(w, h, v, 0, [])
  }
}

module RedactorClass {
  import opened KeyMatcher
  import opened Redaction

  class Redactor {
    const walker: Walker
    const matcher: SensitiveKeyMatcher
    var ancestors: seq<nat>

    ghost predicate Valid()
      reads this, matcher
    {
      matcher.Valid() && matcher.terms == walker.terms
    }

    constructor (
      extraKeys: seq<string>, maxDepth: nat, maxArrayLength: nat, maxStringLength: nat, scrub: string -> string)
      ensures Valid() && fresh(matcher) && ancestors == []
      ensures walker == Walker(maxDepth, maxArrayLength, maxStringLength, scrub, TermsOf(extraKeys))
    {
      var m := new SensitiveKeyMatcher(extraKeys);
      matcher := m;
      walker := Walker(maxDepth, maxArrayLength, maxStringLength, scrub, m.terms);
      ancestors := [];
    }

    /** The walk from the top leaves nothing behind but what the matcher remembers. */
    method DoRedact(h: Heap, v: Val) returns (r: Out)
      requires Valid() && ancestors == []
      modifies this`ancestors, matcher`cache
      ensures Valid() && ancestors == []
      ensures r == Redact(walker, h, v)
    {
      r := DoVisit(h, v, 0);
    }

    method DoVisit(h: Heap, v: Val, depth: nat) returns (r: Out)
      requires Valid() && depth <= walker.maxDepth + 1
      modifies this`ancestors, matcher`cache
      ensures Valid() && ancestors == old(ancestors)
      ensures r == Visit(walker, h, v, depth, ancestors)
      decreases walker.maxDepth + 1 - depth, 2
    {
      match v {
        case Str(text) => return Text(VisitString(walker, text));
        case Num(digits, finite) => return if finite then Number(digits) else Text(digits);
        case Bool(b) => return Boolean(b);
        case Undefined => return Absent;
        case BigInt(digits) => return Text(digits + "n");
        case Sym(name) => return Text(name);
        case Func => return Text("[opaque:function]");
        case Null => return Nil;
        case Ref(id) =>
          if id in ancestors {
            return Text(CIRCULAR);
          }
          if depth > walker.maxDepth {
            return Text(TRUNCATED_DEPTH);
          }
          ancestors := ancestors + [id];
          r := DoVisitNode(h, h(id), depth);
          ancestors := ancestors[..|ancestors| - 1];
      }
    }

    method DoVisitNode(h: Heap, node: Node, depth: nat) returns (r: Out)
      requires Valid() && depth <= walker.maxDepth
      modifies this`ancestors, matcher`cache
      ensures Valid() && ancestors == old(ancestors)
      ensures r == VisitNode(walker, h, node, depth, ancestors)
      decreases walker.maxDepth + 1 - depth, 1
    {
      hide Visit, VisitHead, VisitItems, VisitProps, TruncatedItems, Sensitive;
      match node {
        case DateNode(iso) => return Text(if iso.Some? then iso.value else "Invalid Date");
        case ErrorNode(_, _, _, _, props) =>
          var head := DoVisitHead(h, node, depth);
          var fields := DoVisitProps(h, props, true, depth + 1, head);
          return Fields(fields);
        case ArrayNode(items) =>
          var kept := if |items| > walker.maxArrayLength then items[..walker.maxArrayLength] else items;
          var rendered := DoVisitItems(h, kept, depth + 1);
          var dropped := |items| - |kept|;
          if dropped > 0 {
            rendered := rendered + [Text(TruncatedItems(dropped))];
          }
          return Items(rendered);
        case PlainNode(props) =>
          var fields := DoVisitProps(h, props, false, depth + 1, map[]);
          return Fields(fields);
        case OpaqueNode(description) => return Text(description);
      }
    }

    method DoVisitHead(h: Heap, node: Node, depth: nat) returns (fields: map<string, Out>)
      requires Valid() && depth <= walker.maxDepth && node.ErrorNode?
      modifies this`ancestors, matcher`cache
      ensures Valid() && ancestors == old(ancestors)
      ensures fields == VisitHead(walker, h, node, depth, ancestors)
      decreases walker.maxDepth + 1 - depth, 0
    {
      fields := map["name" := Text(node.name), "message" := Text(VisitString(walker, node.message))];
      if node.stack.Some? {
        fields := fields["stack" := Text(VisitString(walker, node.stack.value))];
      }
      if node.cause.Some? {
        var cause := DoVisit(h, node.cause.value, depth + 1);
        fields := fields["cause" := cause];
      }
    }

    method DoVisitItems(h: Heap, items: seq<Val>, depth: nat) returns (rendered: seq<Out>)
      requires Valid() && depth <= walker.maxDepth + 1
      modifies this`ancestors, matcher`cache
      ensures Valid() && ancestors == old(ancestors)
      ensures rendered == VisitItems(walker, h, items, depth, ancestors)
      decreases walker.maxDepth + 1 - depth, 3
    {
      hide Visit;
      rendered := [];
      for i := 0 to |items|
        invariant Valid() && ancestors == old(ancestors)
        invariant rendered == VisitItems(walker, h, items[..i], depth, ancestors)
      {
        assert items[..i + 1][..i] == items[..i];
        var one := DoVisit(h, items[i], depth);
        rendered := rendered + [one];
      }
      assert items[..|items|] == items;
    }

    method DoVisitProps(h: Heap, props: seq<Prop>, ofError: bool, depth: nat, start: map<string, Out>)
      returns (fields: map<string, Out>)
      requires Valid() && depth <= walker.maxDepth + 1
      modifies this`ancestors, matcher`cache
      ensures Valid() && ancestors == old(ancestors)
      ensures fields == VisitProps(walker, h, props, ofError, depth, ancestors, start)
      decreases walker.maxDepth + 1 - depth, 3
    {
      hide Visit, Put, VisitString, Sensitive;
      fields := start;
      for i := 0 to |props|
        invariant Valid() && ancestors == old(ancestors)
        invariant fields == VisitProps(walker, h, props[..i], ofError, depth, ancestors, start)
      {
        assert props[..i + 1][..i] == props[..i];
        var Prop(key, value) := props[i];
        if !(ofError && Reserved(key)) {
          var sensitive := matcher.IsSensitiveKey(key);
          var shown := Text(REDACTED);
          if !sensitive {
            shown := DoVisit(h, value, depth);
          }
          fields := Put(fields, VisitString(walker, key), shown);
        }
      }
      assert props[..|props|] == props;
    }
  }
}
