/**
  The struct-keys rule (validator.go): a visitor that, offered every node of a file in
  pre-order, reports each struct composite literal whose elements are given by position.
 */
module Validation {
  import opened Wrappers
  import opened Ast
  import opened TypeInfo
  import opened Failures

  /** The one message the rule reports. */
  const Message := "struct literals must use keys during initialization"

  /**
    The failure callback: the closure that appends each reported failure to a slice, as the
    package's test driver installs it.
   */
  class FailureCollector {
    var failures: seq<Failure>

    constructor ()
      ensures failures == []
    {
      failures := [];
    }

    /** Invoking the callback appends the failure and changes nothing else. */
    method OnFailure(f: Failure)
      modifies this
      ensures failures == old(failures) + [f]
    {
      failures := failures + [f];
    }
  }

  /** The Validator record. Its fields are set once, by NewValidator, and never change. */
  datatype Validator = Validator(fileSet: FileSet, info: Info, onFailure: FailureCollector)
  {
    /**
      Visit: reports `node` when it is an unkeyed struct literal, and hands the walk back
      this same validator, so that the walk always goes on into the node's children.
     */
    method Visit(node: Node) returns (w: Option<Validator>)
      requires Resolves(info, node)
      modifies onFailure
      ensures w == Some(this)
      ensures onFailure.failures == old(onFailure.failures) + Reported(this, [node])
    {
      assert UnkeyedStructLits(info, [node][1..]) == [];
      var structInit := AsStructCompositeLit(info, node);
      if structInit.None? {
        return Some(this);
      }
      var elements := structInit.value.elts;
      if |elements| == 0 {
        // an empty literal is allowed
        return Some(this);
      }
      // the first element decides: Go forbids mixing keyed and positional elements
      var element := elements[0];
      if element.KeyValueExpr? {
        return Some(this);
      }
      var failure := NewFailure(Message, structInit.value, fileSet);
      onFailure.OnFailure(failure);
      return Some(this);
    }
  }

  /** The errors NewValidator returns, in the order it checks for them. */
  const FsIsNil := "fs is nil"
  const InfoIsNil := "info is nil"
  const DefsIsNil := "info.Defs is nil"
  const UsesIsNil := "info.Uses is nil"
  const OnFailureIsNil := "onFailure is nil"

  /**
    NewValidator: a validator over the given file set, type information and callback, or
    an error naming the first of them that is missing. `None` and `null` stand for Go's nil.
   */
  function NewValidator(fs: Option<FileSet>, info: Option<Info>, onFailure: FailureCollector?)
    : (r: Result<Validator, string>)
    ensures r.Ok? <==>
      fs.Some? && info.Some? && info.value.defs.Some? && info.value.uses.Some? && onFailure != null
    ensures r.Ok? ==>
      r.value.fileSet == fs.value && r.value.info == info.value && r.value.onFailure == onFailure
    ensures fs.None? ==> r == Err(FsIsNil)
    ensures fs.Some? && info.None? ==> r == Err(InfoIsNil)
    ensures fs.Some? && info.Some? && info.value.defs.None? ==> r == Err(DefsIsNil)
    ensures fs.Some? && info.Some? && info.value.defs.Some? && info.value.uses.None? ==> r == Err(UsesIsNil)
    ensures fs.Some? && info.Some? && info.value.defs.Some? && info.value.uses.Some? && onFailure == null ==>
      r == Err(OnFailureIsNil)
  {
    if fs.None? then Err(FsIsNil)
    else if info.None? then Err(InfoIsNil)
    else if info.value.defs.None? then Err(DefsIsNil)
    else if info.value.uses.None? then Err(UsesIsNil)
    else if onFailure == null then Err(OnFailureIsNil)
    else Ok(Validator(fs.value, info.value, onFailure))
  }

  /**
    The node can be classified without a crash: a composite literal whose type is an
    identifier needs that identifier to denote an object (otherwise the Go code calls a
    method on a nil Object and panics).
   */
  predicate Resolves(info: Info, n: Node) {
    n.CompositeLit? && n.typ.Some? && n.typ.value.IdentNode? ==>
      ObjectOf(info, n.typ.value.ident).Some?
  }

  /** Every node in the sequence can be classified. */
  predicate ResolvesAll(info: Info, ns: seq<Node>) {
    forall n :: n in ns ==> Resolves(info, n)
  }

  /**
    asStructCompositeLit: the node itself when it is a composite literal of struct type,
    that is, whose type is an inline `struct{...}` or an identifier denoting an object whose
    type has a struct as underlying type.
   */
  function AsStructCompositeLit(info: Info, n: Node): (r: Option<Node>)
    requires Resolves(info, n)
    ensures r.Some? ==> r.value == n && n.CompositeLit?
    ensures !n.CompositeLit? ==> r.None?
    ensures n.CompositeLit? && n.typ.Some? && n.typ.value.StructType? ==> r == Some(n)
    ensures n.CompositeLit? && n.typ.Some? && n.typ.value.IdentNode? ==>
      (r.Some? <==> ObjectOf(info, n.typ.value.ident).value.underlying == StructShape)
    ensures n.CompositeLit? && !(n.typ.Some? && (n.typ.value.StructType? || n.typ.value.IdentNode?)) ==>
      r.None?
  {
    match n
    case CompositeLit(t, _, _) =>
      if t.Some? && t.value.StructType? then Some(n)
      else if !(t.Some? && t.value.IdentNode?) then None
      else if ObjectOf(info, t.value.ident).value.underlying == StructShape then Some(n)
      else None
    case _ => None
  }

  /** The verdict of Visit: a struct literal with elements, the first of them positional. */
  predicate IsUnkeyedStructLit(info: Info, n: Node)
    requires Resolves(info, n)
  {
    AsStructCompositeLit(info, n).Some? && |n.elts| > 0 && !n.elts[0].KeyValueExpr?
  }

  /** The unkeyed struct literals among `ns`, in their order in `ns`. */
  function UnkeyedStructLits(info: Info, ns: seq<Node>): seq<Node>
    requires ResolvesAll(info, ns)
  {
    if ns == [] then []
    else (if IsUnkeyedStructLit(info, ns[0]) then [ns[0]] else []) + UnkeyedStructLits(info, ns[1..])
  }

  /**
    The filter keeps exactly the unkeyed struct literals, each as often as `ns` has it, and
    drops every other node.
   */
  lemma {:induction false} UnkeyedStructLitsFilter(info: Info, ns: seq<Node>)
    requires ResolvesAll(info, ns)
    ensures forall n :: n in UnkeyedStructLits(info, ns) <==> n in ns && IsUnkeyedStructLit(info, n)
    ensures forall n :: n in ns ==>
      multiset(UnkeyedStructLits(info, ns))[n] == if IsUnkeyedStructLit(info, n) then multiset(ns)[n] else 0
  {
    if ns != [] {
      UnkeyedStructLitsFilter(info, ns[1..]);
      assert ns == [ns[0]] + ns[1..];
    }
  }

  /** A stretch of nodes without composite literals can be classified and reports nothing. */
  lemma {:induction false} NoCompositeLitsNoneReported(info: Info, ns: seq<Node>)
    requires forall n :: n in ns ==> !n.CompositeLit?
    ensures ResolvesAll(info, ns) && UnkeyedStructLits(info, ns) == []
  {
    if ns != [] {
      assert ns[0] in ns;
      NoCompositeLitsNoneReported(info, ns[1..]);
    }
  }

  /** One failure per literal, in the same order: the fixed message, the literal, its position. */
  function Reports(fs: FileSet, lits: seq<Node>): (r: seq<Failure>)
    ensures |r| == |lits|
    ensures forall i :: 0 <= i < |r| ==>
      r[i].message == Message && r[i].node == lits[i] && r[i].position == fs.PositionOf(lits[i].Pos())
  {
    if lits == [] then [] else [NewFailure(Message, lits[0], fs)] + Reports(fs, lits[1..])
  }

  /** The failures the validator reports over the nodes `ns`, offered in order. */
  function Reported(v: Validator, ns: seq<Node>): seq<Failure>
    requires ResolvesAll(v.info, ns)
  {
    Reports(v.fileSet, UnkeyedStructLits(v.info, ns))
  }

  lemma {:induction false} UnkeyedStructLitsAppend(info: Info, a: seq<Node>, b: seq<Node>)
    requires ResolvesAll(info, a) && ResolvesAll(info, b)
    ensures UnkeyedStructLits(info, a + b) == UnkeyedStructLits(info, a) + UnkeyedStructLits(info, b)
  {
    if a == [] {
      assert a + b == b;
    } else {
      var ab := a + b;
      assert ab != [] && ab[0] == a[0] && ab[1..] == a[1..] + b;
      UnkeyedStructLitsAppend(info, a[1..], b);
    }
  }

  lemma {:induction false} ReportsAppend(fs: FileSet, a: seq<Node>, b: seq<Node>)
    ensures Reports(fs, a + b) == Reports(fs, a) + Reports(fs, b)
  {
    if a != [] {
      assert (a + b)[0] == a[0];
      assert (a + b)[1..] == a[1..] + b;
      ReportsAppend(fs, a[1..], b);
    }
  }

  /** Offering `a + b` reports what offering `a` reports, then what offering `b` reports. */
  lemma ReportedAppend(v: Validator, a: seq<Node>, b: seq<Node>)
    requires ResolvesAll(v.info, a) && ResolvesAll(v.info, b)
    ensures Reported(v, a + b) == Reported(v, a) + Reported(v, b)
  {
    UnkeyedStructLitsAppend(v.info, a, b);
    ReportsAppend(v.fileSet, UnkeyedStructLits(v.info, a), UnkeyedStructLits(v.info, b));
  }

  lemma ResolvesAllAppend(info: Info, a: seq<Node>, b: seq<Node>)
    ensures ResolvesAll(info, a + b) <==> ResolvesAll(info, a) && ResolvesAll(info, b)
  {
    if ResolvesAll(info, a) && ResolvesAll(info, b) {
      forall n | n in a + b
        ensures Resolves(info, n)
      {
        assert n in a || n in b;
      }
    }
  }

  /**
    What visiting one node reports: nothing, or exactly one failure carrying the fixed message
    and the literal itself, and the latter exactly for an unkeyed struct literal.
   */
  lemma {:induction false} VisitReportsAtMostOne(v: Validator, node: Node)
    requires Resolves(v.info, node)
    ensures |Reported(v, [node])| <= 1
    ensures |Reported(v, [node])| == 1 <==> IsUnkeyedStructLit(v.info, node)
    ensures IsUnkeyedStructLit(v.info, node) ==>
      Reported(v, [node]) == [Failure(Message, node, v.fileSet.PositionOf(node.Pos()))]
  {
    assert [node][1..] == [];
    assert UnkeyedStructLits(v.info, [node][1..]) == [];
  }

  /** A node that is not a composite literal is never a struct literal and is never reported. */
  lemma NotCompositeLitNotReported(v: Validator, node: Node)
    requires !node.CompositeLit?
    ensures AsStructCompositeLit(v.info, node).None? && Reported(v, [node]) == []
  {
    VisitReportsAtMostOne(v, node);
  }

  /** A struct literal with no elements is allowed, whether its type is named or inline. */
  lemma EmptyLiteralAllowed(v: Validator, node: Node)
    requires node.CompositeLit? && Resolves(v.info, node) && node.elts == []
    ensures Reported(v, [node]) == []
  {
    VisitReportsAtMostOne(v, node);
  }

  /** Only the first element is sampled: keyed first means allowed, positional first means reported. */
  lemma FirstElementDecides(v: Validator, node: Node)
    requires node.CompositeLit? && Resolves(v.info, node) && |node.elts| > 0
    requires AsStructCompositeLit(v.info, node).Some?
    ensures node.elts[0].KeyValueExpr? ==> Reported(v, [node]) == []
    ensures !node.elts[0].KeyValueExpr? ==>
      Reported(v, [node]) == [NewFailure(Message, node, v.fileSet)]
  {
    VisitReportsAtMostOne(v, node);
  }

  /** A composite literal whose type is neither an identifier nor `struct{...}` is never reported. */
  lemma OtherLiteralTypeNotReported(v: Validator, node: Node)
    requires node.CompositeLit? && !(node.typ.Some? && (node.typ.value.IdentNode? || node.typ.value.StructType?))
    ensures Reported(v, [node]) == []
  {
    VisitReportsAtMostOne(v, node);
  }

  /**
    The failures reported over a sequence of nodes correspond one to one, in order, to the
    unkeyed struct literals among them: the i-th failure is about the i-th such literal.
   */
  lemma {:induction false} ReportedAreUnkeyedStructLits(v: Validator, ns: seq<Node>)
    requires ResolvesAll(v.info, ns)
    ensures |Reported(v, ns)| == |UnkeyedStructLits(v.info, ns)|
    ensures forall i :: 0 <= i < |Reported(v, ns)| ==>
      Reported(v, ns)[i] == NewFailure(Message, UnkeyedStructLits(v.info, ns)[i], v.fileSet)
    ensures forall f :: f in Reported(v, ns) ==> f.node in ns && IsUnkeyedStructLit(v.info, f.node)
    ensures forall n :: n in ns && IsUnkeyedStructLit(v.info, n) ==> NewFailure(Message, n, v.fileSet) in Reported(v, ns)
  {
    var lits := UnkeyedStructLits(v.info, ns);
    UnkeyedStructLitsFilter(v.info, ns);
    forall n | n in ns && IsUnkeyedStructLit(v.info, n)
      ensures NewFailure(Message, n, v.fileSet) in Reported(v, ns)
    {
      var i :| 0 <= i < |lits| && lits[i] == n;
      assert Reported(v, ns)[i] == NewFailure(Message, n, v.fileSet);
    }
    forall f | f in Reported(v, ns)
      ensures f.node in ns && IsUnkeyedStructLit(v.info, f.node)
    {
      var i :| 0 <= i < |Reported(v, ns)| && Reported(v, ns)[i] == f;
      assert f.node == lits[i] && lits[i] in lits;
    }
  }

  /**
    The kinds of node the rule distinguishes, judged on all elements: a literal counts as
    keyed when any element is a `Key: Value` pair and unkeyed when all of them are positional.
   */
  datatype Classification = NotAStructLiteral | EmptyStructLiteral | KeyedStructLiteral | UnkeyedStructLiteral

  function Classify(info: Info, n: Node): Classification
    requires Resolves(info, n)
  {
    if AsStructCompositeLit(info, n).None? then NotAStructLiteral
    else if n.elts == [] then EmptyStructLiteral
    else if exists e :: e in n.elts && e.KeyValueExpr? then KeyedStructLiteral
    else UnkeyedStructLiteral
  }

  /**
    The type checker (go/types) rejects literals that mix `Key: Value` and positional
    elements. The test driver discards that error, so such literals still reach Visit.
   */
  predicate UniformlyKeyed(elts: seq<Node>) {
    (forall e :: e in elts ==> e.KeyValueExpr?) || (forall e :: e in elts ==> !e.KeyValueExpr?)
  }

  /**
    For literals Go accepts, sampling the first element gives the all-elements classification: a node is
    reported exactly when it classifies as an unkeyed struct literal.
   */
  lemma SamplingAgreesWithClassification(info: Info, n: Node)
    requires Resolves(info, n) && (n.CompositeLit? ==> UniformlyKeyed(n.elts))
    ensures IsUnkeyedStructLit(info, n) <==> Classify(info, n) == UnkeyedStructLiteral
  {
    if AsStructCompositeLit(info, n).Some? && n.elts != [] {
      assert n.elts[0] in n.elts;
      if n.elts[0].KeyValueExpr? {
        assert Classify(info, n) == KeyedStructLiteral;
      }
    }
  }

  /**
    Without that guarantee the two differ: `struct{ A, B int }{1, B: 2}`, which the type
    checker rejects but the walk is still offered, is reported although one of its elements
    is keyed.
   */
  lemma MixedLiteralSampledByFirstElement(info: Info)
    ensures var lit := CompositeLit(Some(StructType(1, [Other("Field", 9, [IdentNode(Ident("A", 9)), IdentNode(Ident("B", 12)), IdentNode(Ident("int", 14))])])), 19,
        [Other("BasicLit", 20, []), KeyValueExpr(IdentNode(Ident("B", 23)), Other("BasicLit", 26, []))]);
      IsUnkeyedStructLit(info, lit) && Classify(info, lit) == KeyedStructLiteral
  {
    var lit := CompositeLit(Some(StructType(1, [Other("Field", 9, [IdentNode(Ident("A", 9)), IdentNode(Ident("B", 12)), IdentNode(Ident("int", 14))])])), 19,
        [Other("BasicLit", 20, []), KeyValueExpr(IdentNode(Ident("B", 23)), Other("BasicLit", 26, []))]);
    assert lit.elts[1] in lit.elts && lit.elts[1].KeyValueExpr?;
  }

  /** Reporting `first` and then `second` after `start` reports `both` after `start`. */
  lemma AppendAfter(start: seq<Failure>, mid: seq<Failure>, end: seq<Failure>,
                    first: seq<Failure>, second: seq<Failure>, both: seq<Failure>)
    requires mid == start + first && end == mid + second && both == first + second
    ensures end == start + both
  {
  }

  /** A node's walk reports what the node itself reports, then what its children's walks report. */
  lemma WalkStart(v: Validator, node: Node)
    requires ResolvesAll(v.info, Preorder(node))
    ensures Resolves(v.info, node) && ResolvesAll(v.info, PreorderList(Children(node)))
    ensures Reported(v, Preorder(node)) == Reported(v, [node]) + Reported(v, PreorderList(Children(node)))
  {
    PreorderChildren(node);
    ResolvesAllAppend(v.info, [node], PreorderList(Children(node)));
    ReportedAppend(v, [node], PreorderList(Children(node)));
  }

  /** One more tree of a list walked: what it reports comes after what the trees before it report. */
  lemma WalkListStep(v: Validator, ns: seq<Node>, i: nat)
    requires i < |ns| && ResolvesAll(v.info, PreorderList(ns))
    ensures ResolvesAll(v.info, Preorder(ns[i]))
    ensures ResolvesAll(v.info, PreorderList(ns[..i])) && ResolvesAll(v.info, PreorderList(ns[..i + 1]))
    ensures Reported(v, PreorderList(ns[..i + 1])) == Reported(v, PreorderList(ns[..i])) + Reported(v, Preorder(ns[i]))
  {
    var before, tree, after := PreorderList(ns[..i]), Preorder(ns[i]), PreorderList(ns[i + 1..]);
    PreorderListAt(ns, i);
    ResolvesAllAppend(v.info, before + tree, after);
    ResolvesAllAppend(v.info, before, tree);
    PreorderListSnoc(ns, i);
    ReportedAppend(v, before, tree);
  }

  /**
    ast.Walk driving the validator: Visit the node and, unless Visit returned nil, walk the
    node's children with the visitor it returned. Since Visit always returns the validator,
    what is reported is what every node of the tree reports, in pre-order.
   */
  method Walk(v: Validator, node: Node)
    requires ResolvesAll(v.info, Preorder(node))
    modifies v.onFailure
    ensures v.onFailure.failures == old(v.onFailure.failures) + Reported(v, Preorder(node))
    decreases node, 1
  {
    WalkStart(v, node);
    var w := v.Visit(node);
    ghost var visited := v.onFailure.failures;
    if w.Some? {
      WalkList(w.value, node, Children(node));
      AppendAfter(old(v.onFailure.failures), visited, v.onFailure.failures,
        Reported(v, [node]), Reported(v, PreorderList(Children(node))), Reported(v, Preorder(node)));
    }
  }

  /** ast's walkList over the children of `parent`: walk each of them in turn. */
  method WalkList(v: Validator, ghost parent: Node, ns: seq<Node>)
    requires ns == Children(parent) && ResolvesAll(v.info, PreorderList(ns))
    modifies v.onFailure
    ensures v.onFailure.failures == old(v.onFailure.failures) + Reported(v, PreorderList(ns))
    decreases parent, 0
  {
    assert Reported(v, PreorderList(ns[..0])) == [];
    for i := 0 to |ns|
      invariant ResolvesAll(v.info, PreorderList(ns[..i]))
      invariant v.onFailure.failures == old(v.onFailure.failures) + Reported(v, PreorderList(ns[..i]))
    {
      WalkListStep(v, ns, i);
      ghost var before := v.onFailure.failures;
      Walk(v, ns[i]);
      AppendAfter(old(v.onFailure.failures), before, v.onFailure.failures,
        Reported(v, PreorderList(ns[..i])), Reported(v, Preorder(ns[i])), Reported(v, PreorderList(ns[..i + 1])));
    }
    assert ns[..|ns|] == ns;
  }

  /**
    The package's test driver: collect failures with a fresh callback, build the validator,
    and walk the whole file. The result is one failure per unkeyed struct literal of the
    file, in pre-order.
   */
  method Validate(fs: FileSet, info: Info, file: Node) returns (failures: seq<Failure>)
    requires info.defs.Some? && info.uses.Some? && ResolvesAll(info, Preorder(file))
    ensures failures == Reports(fs, UnkeyedStructLits(info, Preorder(file)))
  {
    var collector := new FailureCollector();
    var r := NewValidator(Some(fs), Some(info), collector);
    var validator := r.value;
    Walk(validator, file);
    failures := collector.failures;
  }
}
