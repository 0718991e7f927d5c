/**
  The package's tests (validator_test.go), each a small Go file given as the tree and the
  type information the Go front end produces for it, run through the test driver.
 */
module Scenarios {
  import opened Wrappers
  import opened Ast
  import opened TypeInfo
  import opened Failures
  import opened Validation
  import opened Decimal

  function BasicLit(pos: Pos): Node {
    Other("BasicLit", pos, [])
  }

  /** `name typ`, one field of a struct type. */
  function Field(name: Ident, typ: Ident): Node {
    Other("Field", name.namePos, [IdentNode(name), IdentNode(typ)])
  }

  /** `var name = value`. */
  function VarDecl(varPos: Pos, name: Ident, value: Node): Node {
    Other("GenDecl", varPos, [Other("ValueSpec", name.namePos, [IdentNode(name), value])])
  }

  /** `package p` followed by the given declarations. */
  function File(decls: seq<Node>): Node {
    Other("File", 5, [IdentNode(Ident("p", 13))] + decls)
  }

  /** `type A struct { Field1 string; Field2 int }`. */
  function TypeA(): Node {
    Other("GenDecl", 20, [Other("TypeSpec", 25, [IdentNode(Ident("A", 25)),
      StructType(27, [Field(Ident("Field1", 40), Ident("string", 47)), Field(Ident("Field2", 60), Ident("int", 67))])])])
  }

  /** The type checker's Defs and Uses for a file that declares A and uses it at offset 90. */
  function InfoA(): Info {
    Info(Some(map[Ident("A", 25) := Object(StructShape), Ident("Field1", 40) := Object(OtherShape),
                  Ident("Field2", 60) := Object(OtherShape)]),
         Some(map[Ident("A", 90) := Object(StructShape), Ident("string", 47) := Object(OtherShape),
                  Ident("int", 67) := Object(OtherShape)]))
  }

  /** `A{...}` at offset 90. */
  function LitA(elts: seq<Node>): Node {
    CompositeLit(Some(IdentNode(Ident("A", 90))), 91, elts)
  }

  /** `struct{ Field1 string }{...}` starting at `pos`. */
  function InlineLit(pos: Pos, elts: seq<Node>): Node {
    CompositeLit(Some(StructType(pos, [Field(Ident("Field1", pos + 8), Ident("string", pos + 15))])), pos + 22, elts)
  }

  const NoFileSet := FileSet(map[])

  lemma PreorderField(name: Ident, typ: Ident)
    ensures Preorder(Field(name, typ)) == [Field(name, typ), IdentNode(name), IdentNode(typ)]
  {
    PreorderChildren(Field(name, typ));
    PreorderListAppend([IdentNode(name)], [IdentNode(typ)]);
    PreorderListSingle(IdentNode(name));
    PreorderListSingle(IdentNode(typ));
    assert [IdentNode(name)] + [IdentNode(typ)] == [IdentNode(name), IdentNode(typ)];
  }

  lemma PreorderVarDecl(varPos: Pos, name: Ident, value: Node)
    ensures Preorder(VarDecl(varPos, name, value))
         == [VarDecl(varPos, name, value), VarDecl(varPos, name, value).children[0], IdentNode(name)] + Preorder(value)
  {
    var spec := VarDecl(varPos, name, value).children[0];
    PreorderChildren(spec);
    PreorderListAppend([IdentNode(name)], [value]);
    PreorderListSingle(IdentNode(name));
    PreorderListSingle(value);
    assert [IdentNode(name)] + [value] == [IdentNode(name), value];
    PreorderChildren(VarDecl(varPos, name, value));
    PreorderListSingle(spec);
  }

  lemma PreorderFile(decls: seq<Node>)
    ensures Preorder(File(decls)) == [File(decls), IdentNode(Ident("p", 13))] + PreorderList(decls)
  {
    PreorderChildren(File(decls));
    PreorderListAppend([IdentNode(Ident("p", 13))], decls);
    PreorderListSingle(IdentNode(Ident("p", 13)));
  }

  lemma PreorderPair(a: Node, b: Node)
    ensures PreorderList([a, b]) == Preorder(a) + Preorder(b)
  {
    PreorderListAppend([a], [b]);
    PreorderListSingle(a);
    PreorderListSingle(b);
    assert [a] + [b] == [a, b];
  }

  /** The declaration of A contains no composite literal. */
  lemma TypeAHasNoCompositeLit()
    ensures forall n :: n in PreorderList([TypeA()]) ==> !n.CompositeLit?
  {
    var f1, f2 := Field(Ident("Field1", 40), Ident("string", 47)), Field(Ident("Field2", 60), Ident("int", 67));
    var st := StructType(27, [f1, f2]);
    var spec := TypeA().children[0];
    PreorderField(Ident("Field1", 40), Ident("string", 47));
    PreorderField(Ident("Field2", 60), Ident("int", 67));
    PreorderPair(f1, f2);
    PreorderChildren(st);
    PreorderPair(IdentNode(Ident("A", 25)), st);
    PreorderChildren(spec);
    PreorderChildren(TypeA());
    PreorderListSingle(spec);
    PreorderListSingle(TypeA());
  }

  /**
    A file whose declarations `pre` hold no composite literal, followed by one variable
    initialised by `lit`, where `lit` holds no nested composite literal: the walk of the file
    finds what `lit` alone gives.
   */
  lemma FileWithOneLiteral(info: Info, pre: seq<Node>, varPos: Pos, name: Ident, lit: Node, rest: seq<Node>)
    requires forall n :: n in PreorderList(pre) ==> !n.CompositeLit?
    requires lit.CompositeLit? && Resolves(info, lit)
    requires Preorder(lit) == [lit] + rest && forall n :: n in rest ==> !n.CompositeLit?
    ensures var file := File(pre + [VarDecl(varPos, name, lit)]);
      ResolvesAll(info, Preorder(file)) && UnkeyedStructLits(info, Preorder(file)) == UnkeyedStructLits(info, [lit])
  {
    var decl := VarDecl(varPos, name, lit);
    var decls := pre + [decl];
    var file := File(decls);
    var head := [file, IdentNode(Ident("p", 13))];
    var declHead := [decl, decl.children[0], IdentNode(name)];
    PreorderFile(decls);
    PreorderListAppend(pre, [decl]);
    PreorderListSingle(decl);
    PreorderVarDecl(varPos, name, lit);
    assert Preorder(file) == head + (PreorderList(pre) + (declHead + ([lit] + rest)));
    NoCompositeLitsNoneReported(info, head);
    NoCompositeLitsNoneReported(info, PreorderList(pre));
    NoCompositeLitsNoneReported(info, declHead);
    NoCompositeLitsNoneReported(info, rest);
    assert ResolvesAll(info, [lit]);
    ResolvesAllAppend(info, [lit], rest);
    UnkeyedStructLitsAppend(info, [lit], rest);
    ResolvesAllAppend(info, declHead, [lit] + rest);
    UnkeyedStructLitsAppend(info, declHead, [lit] + rest);
    ResolvesAllAppend(info, PreorderList(pre), declHead + ([lit] + rest));
    UnkeyedStructLitsAppend(info, PreorderList(pre), declHead + ([lit] + rest));
    ResolvesAllAppend(info, head, PreorderList(pre) + (declHead + ([lit] + rest)));
    UnkeyedStructLitsAppend(info, head, PreorderList(pre) + (declHead + ([lit] + rest)));
  }

  /** The rendering of a failure at line 4, column 12 of test.go. */
  lemma RenderAtLine4Column12(f: Failure)
    requires f.message == Message && f.position == Position("test.go", 4, 12)
    ensures f.String() == "test.go:4:12: " + Message
  {
    assert DigitChar(1) == '1' && DigitChar(2) == '2' && DigitChar(4) == '4';
    assert NatToString(4) == "4";
    assert NatToString(12) == NatToString(1) + [DigitChar(2)] == "12";
    assert PositionString(f.position) == "test.go:4:12";
    assert "test.go:4:12" + ": " == "test.go:4:12: ";
  }

  /** A node with nothing below it and no composite literal: an identifier or a basic literal. */
  predicate Leaf(n: Node) {
    n.IdentNode? || (n.Other? && n.children == [])
  }

  /** Elements `Key: Value` whose key and value are leaves. */
  predicate KeyedLeaves(elts: seq<Node>) {
    forall e :: e in elts ==> e.KeyValueExpr? && Leaf(e.key) && Leaf(e.value)
  }

  lemma {:induction false} LeavesWalk(ns: seq<Node>)
    requires forall e :: e in ns ==> Leaf(e)
    ensures PreorderList(ns) == ns
  {
    if ns != [] {
      assert ns[0] in ns;
      PreorderChildren(ns[0]);
      LeavesWalk(ns[1..]);
      assert ns == [ns[0]] + ns[1..];
    }
  }

  lemma {:induction false} KeyedLeavesWalk(ns: seq<Node>)
    requires KeyedLeaves(ns)
    ensures forall n :: n in PreorderList(ns) ==> !n.CompositeLit?
  {
    if ns != [] {
      assert ns[0] in ns;
      var kv := ns[0];
      PreorderChildren(kv);
      PreorderPair(kv.key, kv.value);
      PreorderChildren(kv.key);
      PreorderChildren(kv.value);
      KeyedLeavesWalk(ns[1..]);
    }
  }

  /**
    A composite literal whose type walks as `typ` and whose elements are leaves or keyed
    leaves: nothing below it is a composite literal.
   */
  lemma LiteralWalk(lit: Node, typ: seq<Node>)
    requires lit.CompositeLit? && lit.typ.Some? && Preorder(lit.typ.value) == typ
    requires forall n :: n in typ ==> !n.CompositeLit?
    requires (forall e :: e in lit.elts ==> Leaf(e)) || KeyedLeaves(lit.elts)
    ensures Preorder(lit) == [lit] + typ + PreorderList(lit.elts)
    ensures forall n :: n in typ + PreorderList(lit.elts) ==> !n.CompositeLit?
  {
    PreorderChildren(lit);
    PreorderListAppend([lit.typ.value], lit.elts);
    PreorderListSingle(lit.typ.value);
    if forall e :: e in lit.elts ==> Leaf(e) {
      LeavesWalk(lit.elts);
    } else {
      KeyedLeavesWalk(lit.elts);
    }
  }

  /** The inline struct type `struct{ Field1 string }` walks as the type, its field, and the field's two names. */
  lemma PreorderInlineType(pos: Pos)
    ensures var field := Field(Ident("Field1", pos + 8), Ident("string", pos + 15));
      Preorder(StructType(pos, [field])) == [StructType(pos, [field]), field, IdentNode(Ident("Field1", pos + 8)), IdentNode(Ident("string", pos + 15))]
  {
    var field := Field(Ident("Field1", pos + 8), Ident("string", pos + 15));
    PreorderChildren(StructType(pos, [field]));
    PreorderListSingle(field);
    PreorderField(Ident("Field1", pos + 8), Ident("string", pos + 15));
  }

  /** `var a = A{...}` after the declaration of A, the literal's elements being leaves or keyed leaves. */
  lemma FileWithLiteralOfA(elts: seq<Node>)
    requires (forall e :: e in elts ==> Leaf(e)) || KeyedLeaves(elts)
    ensures var file := File([TypeA()] + [VarDecl(82, Ident("a", 86), LitA(elts))]);
      ResolvesAll(InfoA(), Preorder(file)) && UnkeyedStructLits(InfoA(), Preorder(file)) == UnkeyedStructLits(InfoA(), [LitA(elts)])
  {
    var lit := LitA(elts);
    LiteralWalk(lit, [IdentNode(Ident("A", 90))]);
    TypeAHasNoCompositeLit();
    assert Resolves(InfoA(), lit);
    FileWithOneLiteral(InfoA(), [TypeA()], 82, Ident("a", 86), lit, [IdentNode(Ident("A", 90))] + PreorderList(elts));
  }

  /** The type information of a file declaring `e` as an inline struct literal at `pos`. */
  function InlineInfo(pos: Pos): Info {
    Info(Some(map[Ident("Field1", pos + 8) := Object(OtherShape)]), Some(map[Ident("string", pos + 15) := Object(OtherShape)]))
  }

  /** `var name = struct{ Field1 string }{...}` as the file's only declaration. */
  lemma FileWithInlineLiteral(varPos: Pos, name: Ident, pos: Pos, elts: seq<Node>)
    requires (forall e :: e in elts ==> Leaf(e)) || KeyedLeaves(elts)
    ensures var file := File([] + [VarDecl(varPos, name, InlineLit(pos, elts))]);
      ResolvesAll(InlineInfo(pos), Preorder(file))
      && UnkeyedStructLits(InlineInfo(pos), Preorder(file)) == UnkeyedStructLits(InlineInfo(pos), [InlineLit(pos, elts)])
  {
    var lit := InlineLit(pos, elts);
    PreorderInlineType(pos);
    LiteralWalk(lit, Preorder(lit.typ.value));
    FileWithOneLiteral(InlineInfo(pos), [], varPos, name, lit, Preorder(lit.typ.value) + PreorderList(elts));
  }

  /** The composite literals among `ns` all have a slice, map or other non-struct type expression. */
  predicate NoStructLiterals(ns: seq<Node>) {
    forall n :: n in ns ==> n.CompositeLit? ==> n.typ.Some? && n.typ.value.Other?
  }

  /** Nodes that hold no struct literal report nothing. */
  lemma {:induction false} NonStructLiteralsReportNothing(info: Info, ns: seq<Node>)
    requires NoStructLiterals(ns)
    ensures ResolvesAll(info, ns) && UnkeyedStructLits(info, ns) == []
  {
    if ns != [] {
      assert ns[0] in ns;
      NonStructLiteralsReportNothing(info, ns[1..]);
    }
  }

  /** `var name = T{...}` where T is a slice, map or other non-struct type made of identifiers. */
  lemma DeclaresNonStructLiteral(varPos: Pos, name: Ident, lit: Node)
    requires lit.CompositeLit? && lit.typ.Some? && lit.typ.value.Other?
    requires forall c :: c in lit.typ.value.children ==> c.IdentNode?
    requires (forall e :: e in lit.elts ==> Leaf(e)) || KeyedLeaves(lit.elts)
    ensures NoStructLiterals(Preorder(VarDecl(varPos, name, lit)))
  {
    var t := lit.typ.value;
    PreorderChildren(t);
    LeavesWalk(t.children);
    LiteralWalk(lit, Preorder(t));
    PreorderVarDecl(varPos, name, lit);
  }

  /** `[]string{...}` at offset 30. */
  function SliceLit(elts: seq<Node>): Node {
    CompositeLit(Some(Other("ArrayType", 30, [IdentNode(Ident("string", 32))])), 38, elts)
  }

  /** `map[string]int{...}` at offset 70. */
  function MapLit(elts: seq<Node>): Node {
    CompositeLit(Some(Other("MapType", 70, [IdentNode(Ident("string", 74)), IdentNode(Ident("int", 81))])), 84, elts)
  }

  /** The file of `var c = []string{...}` and `var d = map[string]int{...}` holds no struct literal. */
  lemma SliceAndMapFile(info: Info, sliceElts: seq<Node>, mapElts: seq<Node>)
    requires forall e :: e in sliceElts ==> Leaf(e)
    requires KeyedLeaves(mapElts)
    ensures var file := File([VarDecl(22, Ident("c", 26), SliceLit(sliceElts)), VarDecl(62, Ident("d", 66), MapLit(mapElts))]);
      ResolvesAll(info, Preorder(file)) && UnkeyedStructLits(info, Preorder(file)) == []
  {
    var c, d := VarDecl(22, Ident("c", 26), SliceLit(sliceElts)), VarDecl(62, Ident("d", 66), MapLit(mapElts));
    DeclaresNonStructLiteral(22, Ident("c", 26), SliceLit(sliceElts));
    DeclaresNonStructLiteral(62, Ident("d", 66), MapLit(mapElts));
    PreorderFile([c, d]);
    PreorderPair(c, d);
    NonStructLiteralsReportNothing(info, Preorder(File([c, d])));
  }

  /**
    `var c = []string{"a", "b", "c"}` and `var d = map[string]int{"a": 1, "b": 2}`, for any
    leaf elements of the slice and any keyed leaf elements of the map: no failure.
   */
  method IgnoresNonStructCompositeLiterals(sliceElts: seq<Node>, mapElts: seq<Node>) returns (failures: seq<Failure>)
    requires forall e :: e in sliceElts ==> Leaf(e)
    requires KeyedLeaves(mapElts)
    ensures failures == []
  {
    var info := Info(Some(map[Ident("c", 26) := Object(OtherShape), Ident("d", 66) := Object(OtherShape)]),
      Some(map[Ident("string", 32) := Object(OtherShape), Ident("string", 74) := Object(OtherShape),
               Ident("int", 81) := Object(OtherShape)]));
    SliceAndMapFile(info, sliceElts, mapElts);
    failures := Validate(NoFileSet, info,
      File([VarDecl(22, Ident("c", 26), SliceLit(sliceElts)), VarDecl(62, Ident("d", 66), MapLit(mapElts))]));
  }

  /** `var a = A{}`: an empty literal of a named struct type, no failure. */
  method EmptyStructLiteralAllowed() returns (failures: seq<Failure>)
    ensures failures == []
  {
    FileWithLiteralOfA([]);
    failures := Validate(NoFileSet, InfoA(), File([TypeA()] + [VarDecl(82, Ident("a", 86), LitA([]))]));
  }

  /** `var a = A{Field1: "hello", Field2: 1}`, for any keyed leaf elements: no failure. */
  method KeyedStructLiteralAllowed(elts: seq<Node>) returns (failures: seq<Failure>)
    requires KeyedLeaves(elts)
    ensures failures == []
  {
    FileWithLiteralOfA(elts);
    if elts != [] {
      assert elts[0] in elts;
    }
    failures := Validate(NoFileSet, InfoA(), File([TypeA()] + [VarDecl(82, Ident("a", 86), LitA(elts))]));
  }

  /** `var a = A{"hello", 1}`, for any non-empty leaf elements: one failure, at A. */
  method UnkeyedStructLiteralReported(fs: FileSet, elts: seq<Node>) returns (failures: seq<Failure>)
    requires elts != [] && forall e :: e in elts ==> Leaf(e)
    ensures failures == [Failure(Message, LitA(elts), fs.PositionOf(90))]
  {
    FileWithLiteralOfA(elts);
    assert elts[0] in elts;
    assert IsUnkeyedStructLit(InfoA(), LitA(elts));
    assert UnkeyedStructLits(InfoA(), [LitA(elts)]) == [LitA(elts)];
    assert LitA(elts).Pos() == 90;
    failures := Validate(fs, InfoA(), File([TypeA()] + [VarDecl(82, Ident("a", 86), LitA(elts))]));
  }

  /** `var e = struct{ Field1 string }{"hello"}`, for any non-empty leaf elements: one failure. */
  method InlineUnkeyedStructLiteralReported(fs: FileSet, elts: seq<Node>) returns (failures: seq<Failure>)
    requires elts != [] && forall e :: e in elts ==> Leaf(e)
    ensures failures == [Failure(Message, InlineLit(30, elts), fs.PositionOf(30))]
  {
    FileWithInlineLiteral(22, Ident("e", 26), 30, elts);
    assert elts[0] in elts;
    assert IsUnkeyedStructLit(InlineInfo(30), InlineLit(30, elts));
    assert UnkeyedStructLits(InlineInfo(30), [InlineLit(30, elts)]) == [InlineLit(30, elts)];
    assert InlineLit(30, elts).Pos() == 30;
    failures := Validate(fs, InlineInfo(30), File([] + [VarDecl(22, Ident("e", 26), InlineLit(30, elts))]));
  }

  /** `var e = struct{ Field1 string }{Field1: "hello"}`, for any keyed leaf elements: no failure. */
  method InlineKeyedStructLiteralAllowed(elts: seq<Node>) returns (failures: seq<Failure>)
    requires KeyedLeaves(elts)
    ensures failures == []
  {
    FileWithInlineLiteral(22, Ident("e", 26), 30, elts);
    if elts != [] {
      assert elts[0] in elts;
    }
    failures := Validate(NoFileSet, InlineInfo(30), File([] + [VarDecl(22, Ident("e", 26), InlineLit(30, elts))]));
  }

  /**
    `var a = struct{ Field1 string}{"hello"}` on line 4 of test.go after four tabs: the
    literal starts at token.Pos 27, which the file set places at line 4, column 12, and its
    failure renders as `test.go:4:12: struct literals must use keys during initialization`.
   */
  method ReportsFailurePosition(elts: seq<Node>) returns (failures: seq<Failure>, rendered: string)
    requires elts != [] && forall e :: e in elts ==> Leaf(e)
    ensures failures == [Failure(Message, InlineLit(27, elts), Position("test.go", 4, 12))]
    ensures Renderable(failures[0].position) && rendered == failures[0].String()
    ensures rendered == "test.go:4:12: " + Message
  {
    var fs := FileSet(map[27 := Position("test.go", 4, 12)]);
    FileWithInlineLiteral(15, Ident("a", 19), 27, elts);
    assert elts[0] in elts;
    assert IsUnkeyedStructLit(InlineInfo(27), InlineLit(27, elts));
    assert UnkeyedStructLits(InlineInfo(27), [InlineLit(27, elts)]) == [InlineLit(27, elts)];
    assert InlineLit(27, elts).Pos() == 27;
    failures := Validate(fs, InlineInfo(27), File([] + [VarDecl(15, Ident("a", 19), InlineLit(27, elts))]));
    RenderAtLine4Column12(failures[0]);
    rendered := failures[0].String();
  }
}
