/** Option and Result types shared by every module, and the error kinds of the
    Python exceptions the engine can raise. */
module Common {

  datatype Option<+T> = None | Some(value: T)

  /** The exceptions that abort a rule compilation or a run. */
  datatype Error =
    | SyntaxError          // ast.parse rejected the template text
    | EmptyBody            // ast.parse(...).body[0] on a template without a statement
    | MissingKey(key: string) // a rule dictionary lacks a key that is read with rule[key]
    | UnboundWildcard(id: string) // fillVariables looked up a wildcard that was never bound
    | NoLocation           // copy_location on a replacement that is a list or None, not a node

  datatype Result<+T> = Ok(value: T) | Err(error: Error) {
    predicate IsFailure() { Err? }
    function PropagateFailure<U>(): Result<U> requires Err? { Err(error) }
    function Extract(): T requires Ok? { value }
  }
}

/** The syntax tree the engine works on: a kind tag and the named fields that
    Python's `ast.iter_fields` yields, in order.  A field that was deleted
    (`del node.ctx`, or a child the transformer replaced by None) is simply
    absent from the sequence. */
module Ast {
  import opened Common

  datatype Kind =
    | Module | Expr | Assign | Call | Keyword | Attribute | Subscript | Name
    | Constant | List | BinOp | Import | ImportFrom | Alias
    | Load | Store | Del | Add | Sub | Mult | Div

  /** Primitive field values: str, int, bool and None. */
  datatype Prim = PStr(s: string) | PInt(i: int) | PBool(b: bool) | PNone

  datatype Value =
    | Child(node: Node)         // a single AST child
    | Nodes(nodes: seq<Node>)   // a list of AST children
    | Plains(plains: seq<Prim>) // a list of plain values, e.g. the names of `global`
    | Prim(prim: Prim)          // a primitive, e.g. Name.id or Constant.value

  datatype Field = Field(name: string, value: Value)

  datatype Node = Node(kind: Kind, fields: seq<Field>)

  /** How a field of a kind is laid out. */
  datatype Shape = SingleShape | ListShape | PlainListShape | PrimShape

  /** The fields each kind has, in Python's `_fields` order. */
  function Schema(k: Kind): seq<(string, Shape)>
  {
    match k
    case Module => [("body", ListShape), ("type_ignores", ListShape)]
    case Expr => [("value", SingleShape)]
    case Assign => [("targets", ListShape), ("value", SingleShape), ("type_comment", PrimShape)]
    case Call => [("func", SingleShape), ("args", ListShape), ("keywords", ListShape)]
    case Keyword => [("arg", PrimShape), ("value", SingleShape)]
    case Attribute => [("value", SingleShape), ("attr", PrimShape), ("ctx", SingleShape)]
    case Subscript => [("value", SingleShape), ("slice", SingleShape), ("ctx", SingleShape)]
    case Name => [("id", PrimShape), ("ctx", SingleShape)]
    case Constant => [("value", PrimShape), ("kind", PrimShape)]
    case List => [("elts", ListShape), ("ctx", SingleShape)]
    case BinOp => [("left", SingleShape), ("op", SingleShape), ("right", SingleShape)]
    case Import => [("names", ListShape)]
    case ImportFrom => [("module", PrimShape), ("names", ListShape), ("level", PrimShape)]
    case Alias => [("name", PrimShape), ("asname", PrimShape)]
    case Load => []
    case Store => []
    case Del => []
    case Add => []
    case Sub => []
    case Mult => []
    case Div => []
  }

  function ShapeOf(schema: seq<(string, Shape)>, name: string): Option<Shape>
  {
    if schema == [] then None
    else if schema[0].0 == name then Some(schema[0].1)
    else ShapeOf(schema[1..], name)
  }

  /** An optional single child holds None when it is absent. */
  predicate Fits(v: Value, shape: Shape)
  {
    match shape
    case SingleShape => v.Child? || v == Prim(PNone)
    case ListShape => v.Nodes?
    case PlainListShape => v.Plains?
    case PrimShape => v.Prim?
  }

  predicate DistinctNames(fs: seq<Field>)
  {
    forall i, j :: 0 <= i < j < |fs| ==> fs[i].name != fs[j].name
  }

  /** A node whose fields are fields of its kind, each at most once and of the
      kind's shape, and whose children are again well formed.  Fields may be
      missing (deleted attributes). */
  predicate WellFormed(n: Node)
    decreases n, 1
  {
    && DistinctNames(n.fields)
    && (forall i :: 0 <= i < |n.fields| ==>
          ShapeOf(Schema(n.kind), n.fields[i].name).Some? &&
          Fits(n.fields[i].value, ShapeOf(Schema(n.kind), n.fields[i].name).value))
    && WellFormedFields(n.fields)
  }

  predicate WellFormedFields(fs: seq<Field>)
    decreases fs, 0
  {
    fs != [] ==>
      && (match fs[0].value
          case Child(c) => WellFormed(c)
          case Nodes(ns) => WellFormedList(ns)
          case _ => true)
      && WellFormedFields(fs[1..])
  }

  predicate WellFormedList(ns: seq<Node>)
    decreases ns, 0
  {
    ns != [] ==> WellFormed(ns[0]) && WellFormedList(ns[1..])
  }

  /** `getattr(node, name)`, None when the attribute is absent. */
  function Lookup(fs: seq<Field>, name: string): (r: Option<Value>)
    ensures r.Some? <==> exists i :: 0 <= i < |fs| && fs[i].name == name
    ensures r.Some? ==> exists i :: 0 <= i < |fs| && fs[i] == Field(name, r.value)
  {
    if fs == [] then None
    else if fs[0].name == name then Some(fs[0].value)
    else
      var r := Lookup(fs[1..], name);
      assert forall i :: 0 < i < |fs| ==> fs[i] == fs[1..][i - 1];
      r
  }

  /** Python's `==` on primitives: `True == 1` and `False == 0`. */
  function BoolAsInt(b: bool): int { if b then 1 else 0 }

  predicate PyEq(a: Prim, b: Prim)
  {
    match (a, b)
    case (PStr(x), PStr(y)) => x == y
    case (PInt(x), PInt(y)) => x == y
    case (PBool(x), PBool(y)) => x == y
    case (PInt(x), PBool(y)) => x == BoolAsInt(y)
    case (PBool(x), PInt(y)) => BoolAsInt(x) == y
    case (PNone, PNone) => true
    case _ => false
  }

  predicate PyListEq(a: seq<Prim>, b: seq<Prim>)
  {
    |a| == |b| && forall i :: 0 <= i < |a| ==> PyEq(a[i], b[i])
  }

  /** A list-valued field seen as a Python list of plain values: an empty list
      of nodes is the empty list. */
  function PlainsOf(v: Value): Option<seq<Prim>>
  {
    match v
    case Nodes(ns) => if ns == [] then Some([]) else None
    case Plains(ps) => Some(ps)
    case _ => None
  }

  /** The `id` of a Name node. */
  function NameId(n: Node): Option<string>
  {
    if n.kind != Name then None
    else match Lookup(n.fields, "id")
      case Some(Prim(PStr(id))) => Some(id)
      case _ => None
  }

  /** `isinstance(node, ast.Expr)` and the node has no `value` attribute. */
  predicate IsInvalidNode(n: Node)
  {
    n.kind == Expr && Lookup(n.fields, "value").None?
  }

  /** isInvalidNode: exactly the expression statements without any field
      named `value`; an Expr built around a value is never invalid. */
  lemma InvalidNodes(n: Node)
    ensures IsInvalidNode(n) <==> n.kind == Expr && forall f :: f in n.fields ==> f.name != "value"
    ensures forall c :: !IsInvalidNode(ExprNode(c))
  {
    if n.kind == Expr && !IsInvalidNode(n) {
      var i :| 0 <= i < |n.fields| && n.fields[i].name == "value";
      assert n.fields[i] in n.fields;
    }
    forall c ensures !IsInvalidNode(ExprNode(c)) {
      assert ExprNode(c).fields[0].name == "value";
    }
  }

  // Constructors for the nodes ast.parse produces.

  function LoadNode(): Node { Node(Load, []) }
  function StoreNode(): Node { Node(Store, []) }

  function NameNode(id: string, ctx: Node): Node
  {
    Node(Name, [Field("id", Prim(PStr(id))), Field("ctx", Child(ctx))])
  }

  function AttributeNode(value: Node, attr: string, ctx: Node): Node
  {
    Node(Attribute, [Field("value", Child(value)), Field("attr", Prim(PStr(attr))), Field("ctx", Child(ctx))])
  }

  function CallNode(func: Node, args: seq<Node>, keywords: seq<Node>): Node
  {
    Node(Call, [Field("func", Child(func)), Field("args", Nodes(args)), Field("keywords", Nodes(keywords))])
  }

  function ConstantNode(p: Prim): Node
  {
    Node(Constant, [Field("value", Prim(p)), Field("kind", Prim(PNone))])
  }

  function AssignNode(targets: seq<Node>, value: Node): Node
  {
    Node(Assign, [Field("targets", Nodes(targets)), Field("value", Child(value)), Field("type_comment", Prim(PNone))])
  }

  function ExprNode(value: Node): Node
  {
    Node(Expr, [Field("value", Child(value))])
  }

  function ModuleNode(body: seq<Node>): Node
  {
    Node(Module, [Field("body", Nodes(body)), Field("type_ignores", Nodes([]))])
  }

  function AliasNode(name: string, asname: Option<string>): Node
  {
    Node(Alias, [Field("name", Prim(PStr(name))),
                 Field("asname", Prim(if asname.Some? then PStr(asname.value) else PNone))])
  }

  function ImportNode(names: seq<Node>): Node
  {
    Node(Import, [Field("names", Nodes(names))])
  }

  /** With distinct field names, `getattr` finds every field of the node. */
  lemma {:induction false} LookupDistinct(fs: seq<Field>, f: Field)
    requires DistinctNames(fs) && f in fs
    ensures Lookup(fs, f.name) == Some(f.value)
  {
    if fs[0] != f {
      assert f in fs[1..];
      assert DistinctNames(fs[1..]) by {
        forall i, j | 0 <= i < j < |fs[1..]| ensures fs[1..][i].name != fs[1..][j].name {
          assert fs[1..][i] == fs[i + 1] && fs[1..][j] == fs[j + 1];
        }
      }
      var k :| 0 <= k < |fs| && fs[k] == f;
      assert k > 0;
      LookupDistinct(fs[1..], f);
    }
  }
}
