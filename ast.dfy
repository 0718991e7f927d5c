/**
  The part of Go's syntax tree (package go/ast) that the struct-keys rule looks at.
  Every node kind the rule does not distinguish (basic literals, declarations, slice and
  map types, the file itself, ...) is an `Other` node that only carries its children.
 */
module Ast {
  import opened Wrappers

  /** A token.Pos: an offset into the file set; 0 is token.NoPos. */
  type Pos = nat

  /** An *ast.Ident. The identity of the Go pointer is modelled by name and position. */
  datatype Ident = Ident(name: string, namePos: Pos)

  datatype Node =
      /** *ast.Ident used as an expression or a type name. */
    | IdentNode(ident: Ident)
      /**
        *ast.StructType: an inline `struct{...}` type. `fields` are the field list's nodes,
        held directly: the *ast.FieldList node between them is not modelled.
       */
    | StructType(structPos: Pos, fields: seq<Node>)
      /** *ast.CompositeLit: `typ` is None when the type is elided (`[]T{{...}}`). */
    | CompositeLit(typ: Option<Node>, lbrace: Pos, elts: seq<Node>)
      /** *ast.KeyValueExpr: `Key: Value`, a keyed element of a composite literal. */
    | KeyValueExpr(key: Node, value: Node)
      /** Any other node, with its children in the order ast.Walk visits them. */
    | Other(kind: string, pos: Pos, children: seq<Node>)
  {
    /** The node's start position, as go/ast's Pos methods define it. */
    function Pos(): Pos {
      match this
      case IdentNode(id) => id.namePos
      case StructType(p, _) => p
      case CompositeLit(t, lb, _) => if t.Some? then t.value.Pos() else lb
      case KeyValueExpr(k, _) => k.Pos()
      case Other(_, p, _) => p
    }
  }

  /**
    All nodes of a tree in the order ast.Walk offers them to a visitor that never prunes
    (leaving out the field list node of a struct type): a node before its children, and the
    children in ast.Walk's order for that node kind (a composite literal's type before its
    elements, a key before its value).
   */
  function Preorder(n: Node): seq<Node>
    decreases n, 1
  {
    [n] +
    match n
    case IdentNode(_) => []
    case StructType(_, fields) => PreorderList(fields)
    case CompositeLit(t, _, elts) => (if t.Some? then Preorder(t.value) else []) + PreorderList(elts)
    case KeyValueExpr(k, v) => Preorder(k) + Preorder(v)
    case Other(_, _, children) => PreorderList(children)
  }

  /** The pre-order walks of a list of trees, one after the other (ast's walkList). */
  function PreorderList(ns: seq<Node>): seq<Node>
    decreases ns, 0
  {
    if ns == [] then [] else Preorder(ns[0]) + PreorderList(ns[1..])
  }

  /** The children of a node, in the order ast.Walk visits them. */
  function Children(n: Node): (cs: seq<Node>)
    ensures forall c :: c in cs ==> c < n
  {
    match n
    case IdentNode(_) => []
    case StructType(_, fields) => fields
    case CompositeLit(t, _, elts) => (if t.Some? then [t.value] else []) + elts
    case KeyValueExpr(k, v) => [k, v]
    case Other(_, _, children) => children
  }

  /** Walking two lists one after the other is walking their concatenation. */
  lemma {:induction false} PreorderListAppend(a: seq<Node>, b: seq<Node>)
    ensures PreorderList(a + b) == PreorderList(a) + PreorderList(b)
  {
    if a == [] {
      assert a + b == b;
    } else {
      var ab := a + b;
      assert ab != [] && ab[0] == a[0] && ab[1..] == a[1..] + b;
      PreorderListAppend(a[1..], b);
      calc {
        PreorderList(ab);
        Preorder(a[0]) + PreorderList(a[1..] + b);
        Preorder(a[0]) + (PreorderList(a[1..]) + PreorderList(b));
        (Preorder(a[0]) + PreorderList(a[1..])) + PreorderList(b);
      }
    }
  }

  /** The walk of a one-tree list is the walk of that tree. */
  lemma PreorderListSingle(n: Node)
    ensures PreorderList([n]) == Preorder(n)
  {
    assert [n][1..] == [];
  }

  /** The pre-order walk of a node is the node, then the walks of its children in order. */
  lemma PreorderChildren(n: Node)
    ensures Preorder(n) == [n] + PreorderList(Children(n))
  {
    match n
    case CompositeLit(t, _, elts) =>
      var typ := if t.Some? then [t.value] else [];
      PreorderListAppend(typ, elts);
      if t.Some? {
        PreorderListSingle(t.value);
      }
    case KeyValueExpr(k, v) =>
      PreorderListAppend([k], [v]);
      assert [k] + [v] == [k, v];
      PreorderListSingle(k);
      PreorderListSingle(v);
    case _ =>
  }

  /** Walking one more tree of a list adds that tree's walk at the end. */
  lemma PreorderListSnoc(ns: seq<Node>, i: nat)
    requires i < |ns|
    ensures PreorderList(ns[..i + 1]) == PreorderList(ns[..i]) + Preorder(ns[i])
  {
    assert ns[..i + 1] == ns[..i] + [ns[i]];
    PreorderListAppend(ns[..i], [ns[i]]);
    PreorderListSingle(ns[i]);
  }

  /** Walking a list splits, at any tree, into the walk before it, its own walk, and the rest. */
  lemma PreorderListAt(ns: seq<Node>, i: nat)
    requires i < |ns|
    ensures PreorderList(ns) == PreorderList(ns[..i]) + Preorder(ns[i]) + PreorderList(ns[i + 1..])
  {
    assert ns == ns[..i + 1] + ns[i + 1..];
    PreorderListAppend(ns[..i + 1], ns[i + 1..]);
    PreorderListSnoc(ns, i);
  }
}
