/** The rewriter (updator/astConverter.py).  A pass walks the tree in post
    order as Python's ast.NodeTransformer does: the children of a node are
    visited and stored back first, then the node itself is tested against
    the search template.  The functions below state what a pass computes;
    the class AstConverter performs the same walk with loops over the fields
    and child lists, updating its captures and flags as it goes. */
module Converter {
  import opened Common
  import opened Ast
  import opened PatternBuilder
  import opened Compare

  /** What a pass looks for: the compiled templates (None for an empty
      pattern) and whether it is the assignment-gated pass. */
  datatype Pass = Pass(search: Option<Node>, replace: Option<Node>, assignmentPattern: Option<Node>, assignment: bool)

  /** The converter's mutable state during a pass: the shared captures
      dictionary, the sticky `foundAssign` flag, and the first exception
      raised (which ends the run). */
  datatype PassState = PassState(variables: Bindings, foundAssign: bool, failed: Option<Error>)

  /** What a pass may do to its state between two points of the walk:
      captures are only added or overwritten, never removed; in the
      assignment pass a bound capture is never overwritten; `foundAssign` is
      sticky and only the assignment pass sets it; the first exception stays
      the one reported. */
  predicate Evolves(p: Pass, st: PassState, st': PassState)
  {
    && st.variables.Keys <= st'.variables.Keys
    && (p.assignment ==> Keeps(st.variables, st'.variables))
    && (st.foundAssign ==> st'.foundAssign)
    && (!p.assignment ==> st'.foundAssign == st.foundAssign)
    && (st.failed.Some? ==> st'.failed == st.failed)
    && (st.failed.None? && st'.failed.Some? ==> IsPassError(st'.failed.value))
  }

  /** The exceptions a pass itself can raise. */
  predicate IsPassError(e: Error)
  {
    e.UnboundWildcard? || e.NoLocation?
  }

  lemma EvolvesTransitive(p: Pass, a: PassState, b: PassState, c: PassState)
    requires Evolves(p, a, b) && Evolves(p, b, c)
    ensures Evolves(p, a, c)
  {
    if p.assignment {
      forall k | k in a.variables && Bound(a.variables, k)
        ensures k in c.variables && c.variables[k] == a.variables[k]
      {
        assert Bound(b.variables, k);
      }
    }
  }

  /** Record an exception unless an earlier one already ended the pass. */
  function Raise(st: PassState, e: Error): (r: PassState)
    ensures r.variables == st.variables && r.foundAssign == st.foundAssign
    ensures r.failed.Some? && (st.failed.Some? ==> r.failed == st.failed)
  {
    if st.failed.None? then st.(failed := Some(e)) else st
  }

  /** How NodeTransformer stores a visit result into a list field: a node is
      kept, a list is spliced in, None drops the element. */
  function SpliceInList(v: Value): seq<Node>
  {
    match v
    case Child(n) => [n]
    case Nodes(ns) => ns
    case _ => []
  }

  /** How NodeTransformer stores a visit result into a single field: None
      deletes the attribute, anything else is set. */
  function SetField(name: string, v: Value): seq<Field>
  {
    if v == Prim(PNone) then [] else [Field(name, v)]
  }

  // ----- fillVariables -----

  /** The replace template with every wildcard Name replaced by its capture
      (RetransformPattern on a deep copy); the error is the KeyError of the
      first wildcard without a capture.  Name nodes are not descended into. */
  function FillVariables(t: Node, vars: Bindings): (Value, Option<Error>)
    decreases t, 2
  {
    if t.kind == Name then
      if NameId(t).Some? && IsWildcard(NameId(t).value) then
        var id := NameId(t).value;
        if id in vars then (vars[id], None) else (Prim(PNone), Some(UnboundWildcard(id)))
      else (Child(t), None)
    else
      var (fs, e) := FillFields(t.fields, vars);
      (Child(Node(t.kind, fs)), e)
  }

  function FillFields(fs: seq<Field>, vars: Bindings): (seq<Field>, Option<Error>)
    decreases fs, 1
  {
    if fs == [] then ([], None)
    else
      var (head, e1) := FillField(fs[0], vars);
      var (rest, e2) := FillFields(fs[1..], vars);
      (head + rest, if e1.Some? then e1 else e2)
  }

  function FillField(f: Field, vars: Bindings): (seq<Field>, Option<Error>)
    decreases f, 0
  {
    match f.value
    case Child(c) =>
      var (v, e) := FillVariables(c, vars);
      (SetField(f.name, v), e)
    case Nodes(ns) =>
      var (ns', e) := FillList(ns, vars);
      ([Field(f.name, Nodes(ns'))], e)
    case _ => ([f], None)
  }

  function FillList(ns: seq<Node>, vars: Bindings): (seq<Node>, Option<Error>)
    decreases ns, 1
  {
    if ns == [] then ([], None)
    else
      var (v, e1) := FillVariables(ns[0], vars);
      var (rest, e2) := FillList(ns[1..], vars);
      (SpliceInList(v) + rest, if e1.Some? then e1 else e2)
  }

  // ----- getReplacedNode and wrapToNewLine -----

  /** wrapToNewLine: a Call that replaces an Assign statement becomes an
      expression statement. */
  function WrapToNewLine(v: Value, oldNode: Node): Value
  {
    if oldNode.kind == Assign && v.Child? && v.node.kind == Call then Child(ExprNode(v.node)) else v
  }

  /** getReplacedNode: what replaces a matched node, and the state after it. */
  function GetReplacedNode(replace: Option<Node>, oldNode: Node, st: PassState): (r: (Value, PassState))
    ensures r.1.variables == st.variables && r.1.foundAssign == st.foundAssign
    ensures st.failed.Some? ==> r.1.failed == st.failed
    ensures st.failed.None? && r.1.failed.Some? ==> IsPassError(r.1.failed.value)
  {
    if replace.Some? && st.variables != map[] then
      FillOutcome(replace.value, st.variables);
      var (filled, e) := FillVariables(replace.value, st.variables);
      var v := WrapToNewLine(filled, oldNode);
      if e.Some? then (v, Raise(st, e.value))
      else if !v.Child? then (v, Raise(st, NoLocation))
      else (v, st)
    else
      (if replace.Some? then Child(replace.value) else Prim(PNone), st)
  }

  // ----- the visit -----

  /** `isinstance(node, type(pattern)) and is_ast_like(node, pattern, ...)`;
      a None pattern has type NoneType and matches no node. */
  function Test(pattern: Option<Node>, n: Node, b: Bindings, assignment: bool): Match
  {
    if pattern.Some? && n.kind == pattern.value.kind then IsAstLike(n, pattern.value, b, assignment)
    else Match(false, b)
  }

  /** A node that is not replaced: an Expr that lost its value is dropped. */
  function Keep(n: Node): (r: Value)
    ensures r == Child(n) || r == Prim(PNone)
    ensures r == Prim(PNone) <==> n.kind == Expr && forall f :: f in n.fields ==> f.name != "value"
  {
    InvalidNodes(n);
    if IsInvalidNode(n) then Prim(PNone) else Child(n)
  }

  /** The test made at one node once its children have been visited. */
  function Step(p: Pass, n: Node, st: PassState): (r: (Value, PassState))
    ensures Evolves(p, st, r.1)
  {
    if !p.assignment then
      var m := Test(p.search, n, st.variables, false);
      var st1 := st.(variables := m.bindings);
      if m.ok then GetReplacedNode(p.replace, n, st1) else (Keep(n), st1)
    else
      var a := Test(p.assignmentPattern, n, st.variables, true);
      var found := st.foundAssign || a.ok;
      var m := if found then Test(p.search, n, a.bindings, true) else Match(false, a.bindings);
      var st1 := PassState(m.bindings, found, st.failed);
      if m.ok then GetReplacedNode(p.replace, n, st1) else (Keep(n), st1)
  }

  function VisitNode(p: Pass, n: Node, st: PassState): (r: (Value, PassState))
    decreases n, 2
    ensures Evolves(p, st, r.1)
  {
    var (fs, st1) := VisitFields(p, n.fields, st);
    var r := Step(p, Node(n.kind, fs), st1);
    EvolvesTransitive(p, st, st1, r.1);
    r
  }

  function VisitFields(p: Pass, fs: seq<Field>, st: PassState): (r: (seq<Field>, PassState))
    decreases fs, 1
    ensures Evolves(p, st, r.1)
  {
    if fs == [] then ([], st)
    else
      var (head, st1) := VisitField(p, fs[0], st);
      var (rest, st2) := VisitFields(p, fs[1..], st1);
      EvolvesTransitive(p, st, st1, st2);
      (head + rest, st2)
  }

  function VisitField(p: Pass, f: Field, st: PassState): (r: (seq<Field>, PassState))
    decreases f, 0
    ensures Evolves(p, st, r.1)
  {
    match f.value
    case Child(c) =>
      var (v, st1) := VisitNode(p, c, st);
      (SetField(f.name, v), st1)
    case Nodes(ns) =>
      var (ns', st1) := VisitList(p, ns, st);
      ([Field(f.name, Nodes(ns'))], st1)
    case _ => ([f], st)
  }

  function VisitList(p: Pass, ns: seq<Node>, st: PassState): (r: (seq<Node>, PassState))
    decreases ns, 1
    ensures Evolves(p, st, r.1)
  {
    if ns == [] then ([], st)
    else
      var (v, st1) := VisitNode(p, ns[0], st);
      var (rest, st2) := VisitList(p, ns[1..], st1);
      EvolvesTransitive(p, st, st1, st2);
      (SpliceInList(v) + rest, st2)
  }

  /** `convertTree().visit(tree)`: the root's children are rewritten in place;
      the root is tested like any node, but what the visit returns for it is
      discarded, so the root itself is never replaced. */
  function VisitRoot(p: Pass, tree: Node, st: PassState): (r: (Node, PassState))
    ensures r.0.kind == tree.kind
    ensures Evolves(p, st, r.1)
  {
    var (fs, st1) := VisitFields(p, tree.fields, st);
    var st2 := Step(p, Node(tree.kind, fs), st1).1;
    EvolvesTransitive(p, st, st1, st2);
    (Node(tree.kind, fs), st2)
  }

  // ----- properties of a pass -----

  /** The kinds of node at which the pass calls is_ast_like: the search
      template's kind (in the assignment pass only once `foundAssign` is
      set) and, in the assignment pass, the assignment pattern's kind. */
  function TestedKinds(p: Pass, found: bool): set<Kind>
  {
    (if p.search.Some? && (!p.assignment || found) then {p.search.value.kind} else {})
    + (if p.assignment && p.assignmentPattern.Some? then {p.assignmentPattern.value.kind} else {})
  }

  /** No node of the tree has one of the kinds `ks`, and no Expr lacks its value. */
  predicate Avoids(n: Node, ks: set<Kind>)
    decreases n, 2
  {
    n.kind !in ks && !IsInvalidNode(n) && AvoidsFields(n.fields, ks)
  }

  predicate AvoidsFields(fs: seq<Field>, ks: set<Kind>)
    decreases fs, 1
  {
    fs != [] ==> AvoidsValue(fs[0].value, ks) && AvoidsFields(fs[1..], ks)
  }

  predicate AvoidsValue(v: Value, ks: set<Kind>)
    decreases v, 0
  {
    match v
    case Child(c) => Avoids(c, ks)
    case Nodes(ns) => AvoidsList(ns, ks)
    case _ => true
  }

  predicate AvoidsList(ns: seq<Node>, ks: set<Kind>)
    decreases ns, 1
  {
    ns != [] ==> Avoids(ns[0], ks) && AvoidsList(ns[1..], ks)
  }

  /** A subtree in which the pass tests no node comes back unchanged, and
      the pass state is untouched: nodes that are not of the search
      template's kind are never rewritten, and in the assignment pass,
      while `foundAssign` is unset, nodes of the search template's kind are
      not tested either (see GatedNode for trees that do hold nodes of the
      assignment pattern's kind). */
  lemma {:induction false} UntouchedNode(p: Pass, n: Node, st: PassState)
    requires Avoids(n, TestedKinds(p, st.foundAssign))
    ensures VisitNode(p, n, st) == (Child(n), st)
    decreases n, 2
  {
    UntouchedFields(p, n.fields, st);
    assert Node(n.kind, n.fields) == n;
  }

  lemma {:induction false} UntouchedFields(p: Pass, fs: seq<Field>, st: PassState)
    requires AvoidsFields(fs, TestedKinds(p, st.foundAssign))
    ensures VisitFields(p, fs, st) == (fs, st)
    decreases fs, 1
  {
    if fs != [] {
      UntouchedField(p, fs[0], st);
      UntouchedFields(p, fs[1..], st);
      assert [fs[0]] + fs[1..] == fs;
    }
  }

  lemma {:induction false} UntouchedField(p: Pass, f: Field, st: PassState)
    requires AvoidsValue(f.value, TestedKinds(p, st.foundAssign))
    ensures VisitField(p, f, st) == ([f], st)
    decreases f, 0
  {
    match f.value
    case Child(c) =>
      UntouchedNode(p, c, st);
    case Nodes(ns) =>
      UntouchedList(p, ns, st);
    case _ =>
  }

  lemma {:induction false} UntouchedList(p: Pass, ns: seq<Node>, st: PassState)
    requires AvoidsList(ns, TestedKinds(p, st.foundAssign))
    ensures VisitList(p, ns, st) == (ns, st)
    decreases ns, 1
  {
    if ns != [] {
      UntouchedNode(p, ns[0], st);
      UntouchedList(p, ns[1..], st);
      assert [ns[0]] + ns[1..] == ns;
    }
  }

  /** The same for a whole pass: the tree and the state are unchanged. */
  lemma UntouchedTree(p: Pass, tree: Node, st: PassState)
    requires Avoids(tree, TestedKinds(p, st.foundAssign))
    ensures VisitRoot(p, tree, st) == (tree, st)
  {
    UntouchedFields(p, tree.fields, st);
    assert Node(tree.kind, tree.fields) == tree;
  }

  /** In the assignment pass, `foundAssign` is set at a node exactly when it
      was set before or the assignment pattern matches there. */
  lemma StepSetsFoundAssign(p: Pass, n: Node, st: PassState)
    requires p.assignment
    ensures Step(p, n, st).1.foundAssign
        == (st.foundAssign || Test(p.assignmentPattern, n, st.variables, true).ok)
  {
  }

  /** The gate of the assignment pass, for any tree: if a walk that starts
      with `foundAssign` unset ends with it still unset (the assignment
      pattern matched nowhere), the subtree comes back unchanged and no
      exception was raised, whatever nodes of the search template's kind
      it holds.  Only the captures may differ, written by failed
      comparisons against the assignment pattern. */
  lemma {:induction false} GatedNode(p: Pass, n: Node, st: PassState)
    requires p.assignment && !st.foundAssign && Avoids(n, {})
    ensures !VisitNode(p, n, st).1.foundAssign
        ==> VisitNode(p, n, st).0 == Child(n) && VisitNode(p, n, st).1.failed == st.failed
    decreases n, 2
  {
    var (fs, st1) := VisitFields(p, n.fields, st);
    var r := Step(p, Node(n.kind, fs), st1);
    if !r.1.foundAssign {
      GatedFields(p, n.fields, st);
      assert fs == n.fields;
      assert Node(n.kind, fs) == n;
      StepSetsFoundAssign(p, n, st1);
    }
  }

  lemma {:induction false} GatedFields(p: Pass, fs: seq<Field>, st: PassState)
    requires p.assignment && !st.foundAssign && AvoidsFields(fs, {})
    ensures !VisitFields(p, fs, st).1.foundAssign
        ==> VisitFields(p, fs, st).0 == fs && VisitFields(p, fs, st).1.failed == st.failed
    decreases fs, 1
  {
    if fs != [] {
      var (head, st1) := VisitField(p, fs[0], st);
      var (rest, st2) := VisitFields(p, fs[1..], st1);
      if !st2.foundAssign {
        GatedField(p, fs[0], st);
        GatedFields(p, fs[1..], st1);
        assert [fs[0]] + fs[1..] == fs;
      }
    }
  }

  lemma {:induction false} GatedField(p: Pass, f: Field, st: PassState)
    requires p.assignment && !st.foundAssign && AvoidsValue(f.value, {})
    ensures !VisitField(p, f, st).1.foundAssign
        ==> VisitField(p, f, st).0 == [f] && VisitField(p, f, st).1.failed == st.failed
    decreases f, 0
  {
    match f.value
    case Child(c) =>
      GatedNode(p, c, st);
    case Nodes(ns) =>
      GatedList(p, ns, st);
    case _ =>
  }

  lemma {:induction false} GatedList(p: Pass, ns: seq<Node>, st: PassState)
    requires p.assignment && !st.foundAssign && AvoidsList(ns, {})
    ensures !VisitList(p, ns, st).1.foundAssign
        ==> VisitList(p, ns, st).0 == ns && VisitList(p, ns, st).1.failed == st.failed
    decreases ns, 1
  {
    if ns != [] {
      var (v, st1) := VisitNode(p, ns[0], st);
      var (rest, st2) := VisitList(p, ns[1..], st1);
      if !st2.foundAssign {
        GatedNode(p, ns[0], st);
        GatedList(p, ns[1..], st1);
        assert [ns[0]] + ns[1..] == ns;
      }
    }
  }

  /** The same for a whole assignment pass: a tree in which the assignment
      pattern never matched is returned unchanged, without an exception. */
  lemma GatedTree(p: Pass, tree: Node, st: PassState)
    requires p.assignment && !st.foundAssign && Avoids(tree, {})
    ensures !VisitRoot(p, tree, st).1.foundAssign
        ==> VisitRoot(p, tree, st).0 == tree && VisitRoot(p, tree, st).1.failed == st.failed
  {
    var (fs, st1) := VisitFields(p, tree.fields, st);
    if !VisitRoot(p, tree, st).1.foundAssign {
      GatedFields(p, tree.fields, st);
      StepSetsFoundAssign(p, Node(tree.kind, fs), st1);
      assert Node(tree.kind, tree.fields) == tree;
    }
  }

  /** With an empty replace pattern, an expression statement whose call
      matches (and in which nothing else is tested) disappears: the call is
      deleted from the Expr, and the Expr left without a value is pruned, so
      a statement list simply loses it. */
  lemma DeletedStatementVanishes(p: Pass, call: Node, rest: seq<Node>, st: PassState)
    requires !p.assignment && p.replace.None? && p.search.Some?
    requires call.kind == p.search.value.kind && call.kind != Expr
    requires AvoidsFields(call.fields, TestedKinds(p, st.foundAssign))
    requires IsAstLike(call, p.search.value, st.variables, false).ok
    ensures VisitNode(p, ExprNode(call), st)
         == (Prim(PNone), st.(variables := IsAstLike(call, p.search.value, st.variables, false).bindings))
    ensures VisitList(p, [ExprNode(call)] + rest, st).0
         == VisitList(p, rest, st.(variables := IsAstLike(call, p.search.value, st.variables, false).bindings)).0
  {
    var st1 := st.(variables := IsAstLike(call, p.search.value, st.variables, false).bindings);
    MatchedCallDeleted(p, call, st);
    var e := ExprNode(call);
    assert Test(p.search, Node(Expr, []), st1.variables, false) == Match(false, st1.variables);
    assert VisitField(p, e.fields[0], st) == ([], st1);
    assert e.fields[1..] == [];
    assert VisitFields(p, e.fields[1..], st1) == ([], st1);
    assert VisitFields(p, e.fields, st) == ([] + [], st1);
    assert IsInvalidNode(Node(Expr, []));
    assert ([e] + rest)[1..] == rest;
  }

  /** The call itself: matched, with an empty replace pattern, it is deleted. */
  lemma MatchedCallDeleted(p: Pass, call: Node, st: PassState)
    requires !p.assignment && p.replace.None? && p.search.Some?
    requires call.kind == p.search.value.kind
    requires AvoidsFields(call.fields, TestedKinds(p, st.foundAssign))
    requires IsAstLike(call, p.search.value, st.variables, false).ok
    ensures VisitNode(p, call, st)
         == (Prim(PNone), st.(variables := IsAstLike(call, p.search.value, st.variables, false).bindings))
  {
    UntouchedFields(p, call.fields, st);
    assert Node(call.kind, call.fields) == call;
  }

  /** When nothing was captured the replace template itself is inserted:
      no copy, no substitution and no Expr wrapping, even for a Call
      replacing an Assign. */
  lemma EmptyCapturesInsertTemplate(t: Node, oldNode: Node, st: PassState)
    requires st.variables == map[]
    ensures GetReplacedNode(Some(t), oldNode, st) == (Child(t), st)
  {
  }

  /** wrapToNewLine changes its argument exactly when a Call replaces an
      Assign, and then wraps it in an Expr. */
  lemma WrapOnlyCallForAssign(v: Value, oldNode: Node)
    ensures WrapToNewLine(v, oldNode) != v <==> oldNode.kind == Assign && v.Child? && v.node.kind == Call
    ensures WrapToNewLine(v, oldNode) != v ==> WrapToNewLine(v, oldNode) == Child(ExprNode(v.node))
  {
    if oldNode.kind == Assign && v.Child? && v.node.kind == Call {
      assert ExprNode(v.node).kind != v.node.kind;
    }
  }

  /** The wildcard ids fillVariables looks up in a replace template. */
  function ReplaceIds(t: Node): set<string>
    decreases t, 2
  {
    if t.kind == Name then
      if NameId(t).Some? && IsWildcard(NameId(t).value) then {NameId(t).value} else {}
    else ReplaceIdsFields(t.fields)
  }

  function ReplaceIdsFields(fs: seq<Field>): set<string>
    decreases fs, 1
  {
    if fs == [] then {} else ReplaceIdsValue(fs[0].value) + ReplaceIdsFields(fs[1..])
  }

  function ReplaceIdsValue(v: Value): set<string>
    decreases v, 0
  {
    match v
    case Child(c) => ReplaceIds(c)
    case Nodes(ns) => ReplaceIdsList(ns)
    case _ => {}
  }

  function ReplaceIdsList(ns: seq<Node>): set<string>
    decreases ns, 1
  {
    if ns == [] then {} else ReplaceIds(ns[0]) + ReplaceIdsList(ns[1..])
  }

  /** fillVariables raises exactly when a wildcard of the template has no
      capture, naming one such wildcard; a template without wildcards comes
      back unchanged. */
  lemma {:induction false} FillOutcome(t: Node, vars: Bindings)
    ensures FillVariables(t, vars).1.None? <==> ReplaceIds(t) <= vars.Keys
    ensures FillVariables(t, vars).1.Some? ==>
              FillVariables(t, vars).1.value.UnboundWildcard? &&
              FillVariables(t, vars).1.value.id in ReplaceIds(t) - vars.Keys
    ensures ReplaceIds(t) == {} ==> FillVariables(t, vars) == (Child(t), None)
    decreases t, 2
  {
    if t.kind != Name {
      FillFieldsOutcome(t.fields, vars);
      assert Node(t.kind, t.fields) == t;
    }
  }

  lemma {:induction false} FillFieldsOutcome(fs: seq<Field>, vars: Bindings)
    ensures FillFields(fs, vars).1.None? <==> ReplaceIdsFields(fs) <= vars.Keys
    ensures FillFields(fs, vars).1.Some? ==>
              FillFields(fs, vars).1.value.UnboundWildcard? &&
              FillFields(fs, vars).1.value.id in ReplaceIdsFields(fs) - vars.Keys
    ensures ReplaceIdsFields(fs) == {} ==> FillFields(fs, vars) == (fs, None)
    decreases fs, 1
  {
    if fs != [] {
      FillFieldOutcome(fs[0], vars);
      FillFieldsOutcome(fs[1..], vars);
      assert [fs[0]] + fs[1..] == fs;
    }
  }

  lemma {:induction false} FillFieldOutcome(f: Field, vars: Bindings)
    ensures FillField(f, vars).1.None? <==> ReplaceIdsValue(f.value) <= vars.Keys
    ensures FillField(f, vars).1.Some? ==>
              FillField(f, vars).1.value.UnboundWildcard? &&
              FillField(f, vars).1.value.id in ReplaceIdsValue(f.value) - vars.Keys
    ensures ReplaceIdsValue(f.value) == {} ==> FillField(f, vars) == ([f], None)
    decreases f, 0
  {
    match f.value
    case Child(c) =>
      FillOutcome(c, vars);
    case Nodes(ns) =>
      FillListOutcome(ns, vars);
    case _ =>
  }

  lemma {:induction false} FillListOutcome(ns: seq<Node>, vars: Bindings)
    ensures FillList(ns, vars).1.None? <==> ReplaceIdsList(ns) <= vars.Keys
    ensures FillList(ns, vars).1.Some? ==>
              FillList(ns, vars).1.value.UnboundWildcard? &&
              FillList(ns, vars).1.value.id in ReplaceIdsList(ns) - vars.Keys
    ensures ReplaceIdsList(ns) == {} ==> FillList(ns, vars) == (ns, None)
    decreases ns, 1
  {
    if ns != [] {
      FillOutcome(ns[0], vars);
      FillListOutcome(ns[1..], vars);
      assert [ns[0]] + ns[1..] == ns;
    }
  }

  /** Captures taken from code hold no wildcard Name. */
  predicate WildcardFree(vars: Bindings)
  {
    forall k :: k in vars ==> ReplaceIdsValue(vars[k]) == {}
  }

  /** fillVariables replaces every wildcard wherever it occurs in the
      template: when each has a capture and the captures hold no wildcard,
      none is left in the result. */
  lemma {:induction false} FillReplacesAll(t: Node, vars: Bindings)
    requires ReplaceIds(t) <= vars.Keys && WildcardFree(vars)
    ensures ReplaceIdsValue(FillVariables(t, vars).0) == {}
    decreases t, 2
  {
    if t.kind != Name {
      FillFieldsReplaceAll(t.fields, vars);
    }
  }

  lemma {:induction false} FillFieldsReplaceAll(fs: seq<Field>, vars: Bindings)
    requires ReplaceIdsFields(fs) <= vars.Keys && WildcardFree(vars)
    ensures ReplaceIdsFields(FillFields(fs, vars).0) == {}
    decreases fs, 1
  {
    if fs != [] {
      FillFieldReplaceAll(fs[0], vars);
      FillFieldsReplaceAll(fs[1..], vars);
      ReplaceIdsFieldsAppend(FillField(fs[0], vars).0, FillFields(fs[1..], vars).0);
    }
  }

  lemma {:induction false} FillFieldReplaceAll(f: Field, vars: Bindings)
    requires ReplaceIdsValue(f.value) <= vars.Keys && WildcardFree(vars)
    ensures ReplaceIdsFields(FillField(f, vars).0) == {}
    decreases f, 0
  {
    match f.value
    case Child(c) =>
      FillReplacesAll(c, vars);
      var v := FillVariables(c, vars).0;
      assert ReplaceIdsFields(SetField(f.name, v)) == {} by {
        if v != Prim(PNone) { assert [Field(f.name, v)][1..] == []; }
      }
    case Nodes(ns) =>
      FillListReplaceAll(ns, vars);
      assert [Field(f.name, Nodes(FillList(ns, vars).0))][1..] == [];
    case _ =>
      assert [f][1..] == [];
  }

  lemma {:induction false} FillListReplaceAll(ns: seq<Node>, vars: Bindings)
    requires ReplaceIdsList(ns) <= vars.Keys && WildcardFree(vars)
    ensures ReplaceIdsList(FillList(ns, vars).0) == {}
    decreases ns, 1
  {
    if ns != [] {
      FillReplacesAll(ns[0], vars);
      FillListReplaceAll(ns[1..], vars);
      var v := FillVariables(ns[0], vars).0;
      ReplaceIdsListAppend(SpliceInList(v), FillList(ns[1..], vars).0);
      assert ReplaceIdsList(SpliceInList(v)) == {} by {
        if v.Child? { assert [v.node][1..] == []; }
      }
    }
  }

  lemma {:induction false} ReplaceIdsFieldsAppend(a: seq<Field>, b: seq<Field>)
    ensures ReplaceIdsFields(a + b) == ReplaceIdsFields(a) + ReplaceIdsFields(b)
    decreases |a|
  {
    if a == [] {
      assert a + b == b;
    } else {
      assert (a + b)[0] == a[0] && (a + b)[1..] == a[1..] + b;
      ReplaceIdsFieldsAppend(a[1..], b);
    }
  }

  lemma {:induction false} ReplaceIdsListAppend(a: seq<Node>, b: seq<Node>)
    ensures ReplaceIdsList(a + b) == ReplaceIdsList(a) + ReplaceIdsList(b)
    decreases |a|
  {
    if a == [] {
      assert a + b == b;
    } else {
      assert (a + b)[0] == a[0] && (a + b)[1..] == a[1..] + b;
      ReplaceIdsListAppend(a[1..], b);
    }
  }

  /** fillVariables on a list is element by element: a split list is filled
      part by part. */
  lemma {:induction false} FillListAppend(a: seq<Node>, b: seq<Node>, vars: Bindings)
    ensures FillList(a + b, vars).0 == FillList(a, vars).0 + FillList(b, vars).0
    decreases |a|
  {
    if a == [] {
      assert a + b == b;
    } else {
      assert (a + b)[0] == a[0] && (a + b)[1..] == a[1..] + b;
      FillListAppend(a[1..], b, vars);
    }
  }

  lemma {:induction false} FillFieldsAppend(a: seq<Field>, b: seq<Field>, vars: Bindings)
    ensures FillFields(a + b, vars).0 == FillFields(a, vars).0 + FillFields(b, vars).0
    decreases |a|
  {
    if a == [] {
      assert a + b == b;
    } else {
      assert (a + b)[0] == a[0] && (a + b)[1..] == a[1..] + b;
      FillFieldsAppend(a[1..], b, vars);
    }
  }

  /** A wildcard Name with a capture, at any position of a template list, is
      replaced by its own capture, spliced in place; the elements around it
      are filled on their own. */
  lemma FillListAt(pre: seq<Node>, w: Node, post: seq<Node>, vars: Bindings)
    requires NameId(w).Some? && IsWildcard(NameId(w).value) && NameId(w).value in vars
    ensures FillList(pre + [w] + post, vars).0
         == FillList(pre, vars).0 + SpliceInList(vars[NameId(w).value]) + FillList(post, vars).0
  {
    FillListAppend(pre, [w] + post, vars);
    assert pre + [w] + post == pre + ([w] + post);
    assert ([w] + post)[0] == w && ([w] + post)[1..] == post;
  }

  /** A wildcard Name with a capture as a single child is replaced by its own
      capture, and that anywhere among a node's fields. */
  lemma FillFieldAt(pre: seq<Field>, name: string, w: Node, post: seq<Field>, vars: Bindings)
    requires NameId(w).Some? && IsWildcard(NameId(w).value) && NameId(w).value in vars
    ensures FillField(Field(name, Child(w)), vars) == (SetField(name, vars[NameId(w).value]), None)
    ensures FillFields(pre + [Field(name, Child(w))] + post, vars).0
         == FillFields(pre, vars).0 + SetField(name, vars[NameId(w).value]) + FillFields(post, vars).0
  {
    var f := Field(name, Child(w));
    FillFieldsAppend(pre, [f] + post, vars);
    assert pre + [f] + post == pre + ([f] + post);
    assert ([f] + post)[0] == f && ([f] + post)[1..] == post;
  }

  /** A multi-wildcard element of a template list is replaced by the
      captured list, spliced in place. */
  lemma MultiCaptureSpliced(w: Node, rest: seq<Node>, ns: seq<Node>, vars: Bindings)
    requires NameId(w) == Some(MultiWildcardId)
    requires MultiWildcardId in vars && vars[MultiWildcardId] == Nodes(ns)
    ensures FillList([w] + rest, vars).0 == ns + FillList(rest, vars).0
  {
    WildcardIdentifiers('1');
    assert ([w] + rest)[1..] == rest;
  }

  // ----- nested rewriting -----

  /** The Name a `$d` sign becomes in a template. */
  function WildcardName(d: char): Node
  {
    NameNode(DefineWildcard(d), LoadNode())
  }

  /** The pass of a rule `f($1, $2)` -> `g($2, $1)`, such as
      `os.remove($1, $2)` -> `os.delete($2, $1)`. */
  function SwapPass(f: Node, g: Node, d1: char, d2: char): Pass
  {
    Pass(Some(CallNode(f, [WildcardName(d1), WildcardName(d2)], [])),
         Some(CallNode(g, [WildcardName(d2), WildcardName(d1)], [])), None, false)
  }

  /** The argument list `[$1, $2]` captures the two arguments. */
  lemma PairCaptured(a: Node, b: Node, vars: Bindings, d1: char, d2: char)
    requires IsDigit(d1) && IsDigit(d2)
    ensures CheckField(Some(Nodes([a, b])), Nodes([WildcardName(d1), WildcardName(d2)]), vars, false)
         == Match(true, vars[DefineWildcard(d1) := Child(a)][DefineWildcard(d2) := Child(b)])
  {
    WildcardIdentifiers(d1);
    WildcardIdentifiers(d2);
    NameIdOf(DefineWildcard(d1), LoadNode());
    NameIdOf(DefineWildcard(d2), LoadNode());
    var ws := [WildcardName(d1), WildcardName(d2)];
    var v1 := vars[DefineWildcard(d1) := Child(a)];
    assert !IsMultiLed(ws);
    assert CheckPairs([b], [WildcardName(d2)], v1, false) == Match(true, v1[DefineWildcard(d2) := Child(b)]) by {
      assert [b][1..] == [] && [WildcardName(d2)][1..] == [];
    }
    assert [a, b][1..] == [b] && ws[1..] == [WildcardName(d2)];
    assert CheckPairs([a, b], ws, vars, false) == CheckPairs([b], [WildcardName(d2)], v1, false);
  }

  /** A call `f(a, b)` matches the search template `f($1, $2)` and captures
      its two arguments. */
  lemma CallMatches(f: Node, a: Node, b: Node, vars: Bindings, d1: char, d2: char)
    requires IsDigit(d1) && IsDigit(d2) && Concrete(f)
    ensures AssertAstLike(CallNode(f, [a, b], []), CallNode(f, [WildcardName(d1), WildcardName(d2)], []), vars, false)
         == Match(true, vars[DefineWildcard(d1) := Child(a)][DefineWildcard(d2) := Child(b)])
  {
    CallMatch(f, [a, b], f, [WildcardName(d1), WildcardName(d2)], vars, false);
    MatchReflexive(f, vars, false);
    assert CheckField(Some(Child(f)), Child(f), vars, false) == Match(true, vars);
    PairCaptured(a, b, vars, d1, d2);
  }

  /** Filling `$d` with a captured node gives that node. */
  lemma FillCapturedName(d: char, a: Node, vars: Bindings)
    requires IsDigit(d) && DefineWildcard(d) in vars && vars[DefineWildcard(d)] == Child(a)
    ensures FillVariables(WildcardName(d), vars) == (Child(a), None)
  {
    WildcardIdentifiers(d);
    NameIdOf(DefineWildcard(d), LoadNode());
  }

  /** Filling `g($2, $1)` puts the two captures back in swapped order. */
  lemma FillSwapped(g: Node, a: Node, b: Node, vars: Bindings, d1: char, d2: char)
    requires IsDigit(d1) && IsDigit(d2) && ReplaceIds(g) == {}
    requires DefineWildcard(d1) in vars && vars[DefineWildcard(d1)] == Child(a)
    requires DefineWildcard(d2) in vars && vars[DefineWildcard(d2)] == Child(b)
    ensures FillVariables(CallNode(g, [WildcardName(d2), WildcardName(d1)], []), vars) == (Child(CallNode(g, [b, a], [])), None)
  {
    var ws := [WildcardName(d2), WildcardName(d1)];
    var t := CallNode(g, ws, []);
    FillOutcome(g, vars);
    FillCapturedName(d1, a, vars);
    FillCapturedName(d2, b, vars);
    assert FillField(t.fields[0], vars) == ([Field("func", Child(g))], None);
    assert ws[1..] == [WildcardName(d1)];
    assert [WildcardName(d1)][1..] == [];
    assert SpliceInList(Child(a)) + [] == [a];
    assert FillList([WildcardName(d1)], vars) == ([a], None);
    assert SpliceInList(Child(b)) + [a] == [b, a];
    assert FillList(ws, vars) == ([b, a], None);
    assert FillField(t.fields[1], vars) == ([Field("args", Nodes([b, a]))], None);
    assert t.fields[1..][1..][1..] == [];
    assert t.fields[1..][1..][0] == Field("keywords", Nodes([]));
    assert FillField(t.fields[1..][1..][0], vars) == ([Field("keywords", Nodes([]))], None);
    assert FillFields([], vars) == ([], None);
    assert [Field("keywords", Nodes([]))] + [] == [Field("keywords", Nodes([]))];
    assert FillFields(t.fields[1..][1..], vars) == ([Field("keywords", Nodes([]))], None);
    assert t.fields[1..][0] == t.fields[1] && t.fields[1..] != [];
    assert [Field("args", Nodes([b, a]))] + [Field("keywords", Nodes([]))]
        == [Field("args", Nodes([b, a])), Field("keywords", Nodes([]))];
    assert FillFields(t.fields[1..], vars) == ([Field("args", Nodes([b, a])), Field("keywords", Nodes([]))], None);
    assert FillFields(t.fields, vars).0 == CallNode(g, [b, a], []).fields;
  }

  /** Visiting a call whose function part the pass does not test: the
      arguments are visited, then the call itself is tested. */
  lemma VisitCall(p: Pass, f: Node, args: seq<Node>, st: PassState)
    requires Avoids(f, TestedKinds(p, st.foundAssign))
    ensures VisitNode(p, CallNode(f, args, []), st)
         == Step(p, CallNode(f, VisitList(p, args, st).0, []), VisitList(p, args, st).1)
  {
    var n := CallNode(f, args, []);
    UntouchedNode(p, f, st);
    var (args', st1) := VisitList(p, args, st);
    assert VisitField(p, n.fields[0], st) == ([n.fields[0]], st);
    assert VisitField(p, n.fields[1], st) == ([Field("args", Nodes(args'))], st1);
    assert n.fields[1..][1..][1..] == [];
    assert n.fields[1..][1..][0] == Field("keywords", Nodes([]));
    assert VisitField(p, n.fields[1..][1..][0], st1) == ([Field("keywords", Nodes([]))], st1);
    assert VisitFields(p, [], st1) == ([], st1);
    assert [Field("keywords", Nodes([]))] + [] == [Field("keywords", Nodes([]))];
    assert VisitFields(p, n.fields[1..][1..], st1) == ([Field("keywords", Nodes([]))], st1);
    assert n.fields[1..][0] == n.fields[1] && n.fields[1..] != [];
    assert [Field("args", Nodes(args'))] + [Field("keywords", Nodes([]))]
        == [Field("args", Nodes(args')), Field("keywords", Nodes([]))];
    assert VisitFields(p, n.fields[1..], st) == ([Field("args", Nodes(args')), Field("keywords", Nodes([]))], st1);
    assert VisitFields(p, n.fields, st).0 == CallNode(f, args', []).fields;
  }

  /** The rewriting of one matching call whose parts the pass does not
      otherwise touch. */
  lemma SwapOneCall(f: Node, g: Node, a: Node, b: Node, d1: char, d2: char, st: PassState)
    requires IsDigit(d1) && IsDigit(d2) && d1 != d2
    requires Concrete(f) && ReplaceIds(g) == {}
    ensures Step(SwapPass(f, g, d1, d2), CallNode(f, [a, b], []), st)
         == (Child(CallNode(g, [b, a], [])),
             st.(variables := st.variables[DefineWildcard(d1) := Child(a)][DefineWildcard(d2) := Child(b)]))
  {
    var vars := st.variables[DefineWildcard(d1) := Child(a)][DefineWildcard(d2) := Child(b)];
    CallMatches(f, a, b, st.variables, d1, d2);
    assert DefineWildcard(d1) != DefineWildcard(d2) by {
      assert DefineWildcard(d1)[|SingleWildcardId|] == d1;
      assert DefineWildcard(d2)[|SingleWildcardId|] == d2;
    }
    FillSwapped(g, a, b, vars, d1, d2);
    assert vars != map[] by { assert DefineWildcard(d1) in vars; }
  }

  /** Post order: in `f(f(x, k1), k2)` under `f($1, $2)` -> `g($2, $1)` the
      inner call is rewritten first and the outer one is then matched with
      the rewritten inner call as its argument, so each nested match is
      rewritten exactly once, innermost first. */
  lemma NestedCallsRewrittenInnermostFirst(f: Node, g: Node, x: Node, k1: Node, k2: Node,
                                           d1: char, d2: char, st: PassState)
    requires IsDigit(d1) && IsDigit(d2) && d1 != d2
    requires Concrete(f) && Avoids(f, {Call}) && ReplaceIds(g) == {}
    requires Avoids(x, {Call}) && Avoids(k1, {Call}) && Avoids(k2, {Call})
    ensures VisitNode(SwapPass(f, g, d1, d2), CallNode(f, [CallNode(f, [x, k1], []), k2], []), st).0
         == Child(CallNode(g, [k2, CallNode(g, [k1, x], [])], []))
  {
    var p := SwapPass(f, g, d1, d2);
    var inner := CallNode(f, [x, k1], []);
    var inner' := CallNode(g, [k1, x], []);
    var st1 := st.(variables := st.variables[DefineWildcard(d1) := Child(x)][DefineWildcard(d2) := Child(k1)]);
    InnerCallRewritten(f, g, x, k1, d1, d2, st);
    assert TestedKinds(p, st1.foundAssign) == {Call};
    ArgumentsAfterInner(p, inner, inner', k2, st, st1);
    assert TestedKinds(p, st.foundAssign) == {Call};
    VisitCall(p, f, [inner, k2], st);
    SwapOneCall(f, g, inner', k2, d1, d2, st1);
  }

  /** The inner call `f(x, k1)` of the nested example is rewritten on its own. */
  lemma {:induction false} InnerCallRewritten(f: Node, g: Node, x: Node, k1: Node, d1: char, d2: char, st: PassState)
    requires IsDigit(d1) && IsDigit(d2) && d1 != d2
    requires Concrete(f) && Avoids(f, {Call}) && ReplaceIds(g) == {}
    requires Avoids(x, {Call}) && Avoids(k1, {Call})
    ensures VisitNode(SwapPass(f, g, d1, d2), CallNode(f, [x, k1], []), st)
         == (Child(CallNode(g, [k1, x], [])),
             st.(variables := st.variables[DefineWildcard(d1) := Child(x)][DefineWildcard(d2) := Child(k1)]))
  {
    var p := SwapPass(f, g, d1, d2);
    assert TestedKinds(p, st.foundAssign) == {Call};
    assert AvoidsList([x, k1], {Call}) by { assert [x, k1][1..] == [k1]; assert [k1][1..] == []; }
    UntouchedList(p, [x, k1], st);
    VisitCall(p, f, [x, k1], st);
    SwapOneCall(f, g, x, k1, d1, d2, st);
  }

  /** The argument list of the outer call once its first argument, the inner
      call, has been rewritten. */
  lemma {:induction false} ArgumentsAfterInner(p: Pass, inner: Node, inner': Node, k2: Node, st: PassState, st1: PassState)
    requires VisitNode(p, inner, st) == (Child(inner'), st1)
    requires Avoids(k2, TestedKinds(p, st1.foundAssign))
    ensures VisitList(p, [inner, k2], st) == ([inner', k2], st1)
  {
    assert AvoidsList([k2], TestedKinds(p, st1.foundAssign)) by { assert [k2][1..] == []; }
    UntouchedList(p, [k2], st1);
    assert [inner, k2][1..] == [k2];
    assert [inner, k2][0] == inner;
    assert SpliceInList(Child(inner')) == [inner'];
    assert [inner'] + [k2] == [inner', k2];
  }

  /** One step of the walk over a field sequence, from position i. */
  lemma VisitFieldsUnfold(p: Pass, fs: seq<Field>, i: nat, st: PassState)
    requires i < |fs|
    ensures VisitFields(p, fs[i..], st)
         == (VisitField(p, fs[i], st).0 + VisitFields(p, fs[i + 1..], VisitField(p, fs[i], st).1).0,
             VisitFields(p, fs[i + 1..], VisitField(p, fs[i], st).1).1)
  {
    assert fs[i..][0] == fs[i] && fs[i..][1..] == fs[i + 1..];
  }

  /** One step of the walk over a child list, from position i. */
  lemma VisitListUnfold(p: Pass, ns: seq<Node>, i: nat, st: PassState)
    requires i < |ns|
    ensures VisitList(p, ns[i..], st)
         == (SpliceInList(VisitNode(p, ns[i], st).0) + VisitList(p, ns[i + 1..], VisitNode(p, ns[i], st).1).0,
             VisitList(p, ns[i + 1..], VisitNode(p, ns[i], st).1).1)
  {
    assert ns[i..][0] == ns[i] && ns[i..][1..] == ns[i + 1..];
  }

  /** AstConverter: the compiled templates of one rule and the state a pass
      updates in place. */
  class AstConverter {
    const patternToSearch: Option<Node>
    const patternToReplace: Option<Node>
    const assignmentPattern: Option<Node>
    var variables: Bindings
    var foundAssign: bool
    var failed: Option<Error>

    function State(): PassState
      reads this
    {
      PassState(variables, foundAssign, failed)
    }

    function PlainPass(): Pass
    {
      Pass(patternToSearch, patternToReplace, assignmentPattern, false)
    }

    function AssignmentPass(): Pass
    {
      Pass(patternToSearch, patternToReplace, assignmentPattern, true)
    }

    /** The converter of a plain rule. */
    constructor (rule: CompiledRule, patternVars: Bindings)
      ensures patternToSearch == rule.patternToSearch && patternToReplace == rule.patternToReplace
      ensures assignmentPattern == None
      ensures State() == PassState(patternVars, false, None)
    {
      patternToSearch := rule.patternToSearch;
      patternToReplace := rule.patternToReplace;
      assignmentPattern := None;
      variables := patternVars;
      foundAssign := false;
      failed := None;
    }

    /** The converter of an assignment rule (`assignRule=True`). */
    constructor ForAssignment(rule: CompiledAssignmentRule, patternVars: Bindings)
      ensures patternToSearch == rule.patternToSearch && patternToReplace == rule.patternToReplace
      ensures assignmentPattern == rule.assignmentPattern
      ensures State() == PassState(patternVars, false, None)
    {
      patternToSearch := rule.patternToSearch;
      patternToReplace := rule.patternToReplace;
      assignmentPattern := rule.assignmentPattern;
      variables := patternVars;
      foundAssign := false;
      failed := None;
    }

    /** scan_ast: the plain pass over `tree`; the updated tree is returned. */
    method ScanAst(tree: Node) returns (t: Node)
      modifies this
      ensures (t, State()) == VisitRoot(PlainPass(), tree, old(State()))
    {
      var fs := VisitFieldsOf(PlainPass(), tree.fields);
      t := Node(tree.kind, fs);
      var _ := StepAt(PlainPass(), t);
    }

    /** scan_ast_forAssignment: the assignment-gated pass; foundAssign is
        reset before the walk. */
    method ScanAstForAssignment(tree: Node) returns (t: Node)
      modifies this
      ensures (t, State()) == VisitRoot(AssignmentPass(), tree, old(State()).(foundAssign := false))
    {
      foundAssign := false;
      var fs := VisitFieldsOf(AssignmentPass(), tree.fields);
      t := Node(tree.kind, fs);
      var _ := StepAt(AssignmentPass(), t);
    }

    /** convertTree.visit: children first, then the node itself. */
    method Visit(p: Pass, n: Node) returns (v: Value)
      modifies this
      decreases n, 2
      ensures (v, State()) == VisitNode(p, n, old(State()))
    {
      var fs := VisitFieldsOf(p, n.fields);
      v := StepAt(p, Node(n.kind, fs));
    }

    /** NodeTransformer.generic_visit over the fields of a node. */
    method VisitFieldsOf(p: Pass, fs: seq<Field>) returns (out: seq<Field>)
      modifies this
      decreases fs, 1
      ensures (out, State()) == VisitFields(p, fs, old(State()))
    {
      out := [];
      var i := 0;
      assert fs[0..] == fs;
      while i < |fs|
        invariant 0 <= i <= |fs|
        invariant VisitFields(p, fs, old(State())).0 == out + VisitFields(p, fs[i..], State()).0
        invariant VisitFields(p, fs, old(State())).1 == VisitFields(p, fs[i..], State()).1
      {
        ghost var st := State();
        ghost var before := out;
        VisitFieldsUnfold(p, fs, i, st);
        var piece := VisitFieldOf(p, fs[i]);
        out := out + piece;
        assert before + (piece + VisitFields(p, fs[i + 1..], State()).0)
            == out + VisitFields(p, fs[i + 1..], State()).0;
        i := i + 1;
      }
      assert fs[i..] == [];
      assert out + [] == out;
    }

    /** One field: a child is visited and set (or deleted), a child list is
        visited element by element, anything else is kept. */
    method VisitFieldOf(p: Pass, f: Field) returns (out: seq<Field>)
      modifies this
      decreases f, 0
      ensures (out, State()) == VisitField(p, f, old(State()))
    {
      match f.value {
        case Child(c) =>
          var v := Visit(p, c);
          out := SetField(f.name, v);
        case Nodes(ns) =>
          var ns' := VisitListOf(p, ns);
          out := [Field(f.name, Nodes(ns'))];
        case _ =>
          out := [f];
      }
    }

    /** The list branch of generic_visit: each element is visited and the
        result spliced. */
    method VisitListOf(p: Pass, ns: seq<Node>) returns (out: seq<Node>)
      modifies this
      decreases ns, 1
      ensures (out, State()) == VisitList(p, ns, old(State()))
    {
      out := [];
      var i := 0;
      assert ns[0..] == ns;
      while i < |ns|
        invariant 0 <= i <= |ns|
        invariant VisitList(p, ns, old(State())).0 == out + VisitList(p, ns[i..], State()).0
        invariant VisitList(p, ns, old(State())).1 == VisitList(p, ns[i..], State()).1
      {
        ghost var st := State();
        ghost var before := out;
        VisitListUnfold(p, ns, i, st);
        var v := Visit(p, ns[i]);
        out := out + SpliceInList(v);
        assert before + (SpliceInList(v) + VisitList(p, ns[i + 1..], State()).0)
            == out + VisitList(p, ns[i + 1..], State()).0;
        i := i + 1;
      }
      assert ns[i..] == [];
      assert out + [] == out;
    }

    /** The body of convertTree.visit after the children: test, then replace,
        prune or keep the node. */
    method StepAt(p: Pass, n: Node) returns (v: Value)
      modifies this
      ensures (v, State()) == Step(p, n, old(State()))
    {
      if !p.assignment {
        var m := Test(p.search, n, variables, false);
        variables := m.bindings;
        if m.ok {
          v := ReplacedNode(p.replace, n);
          return;
        }
      } else {
        var a := Test(p.assignmentPattern, n, variables, true);
        variables := a.bindings;
        if a.ok {
          foundAssign := true;
        }
        if foundAssign {
          var m := Test(p.search, n, variables, true);
          variables := m.bindings;
          if m.ok {
            v := ReplacedNode(p.replace, n);
            return;
          }
        }
      }
      v := Keep(n);
    }

    /** getReplacedNode, raising as the Python code does. */
    method ReplacedNode(replace: Option<Node>, oldNode: Node) returns (v: Value)
      modifies this
      ensures (v, State()) == GetReplacedNode(replace, oldNode, old(State()))
    {
      if replace.Some? && variables != map[] {
        var (filled, e) := FillVariables(replace.value, variables);
        v := WrapToNewLine(filled, oldNode);
        if failed.None? {
          if e.Some? {
            failed := e;
          } else if !v.Child? {
            failed := Some(NoLocation);
          }
        }
      } else if replace.Some? {
        v := Child(replace.value);
      } else {
        v := Prim(PNone);
      }
    }
  }
}
