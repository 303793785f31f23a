/** The structural matcher (updator/astcompare.py).  The Python code writes
    captures into a shared dictionary and signals a mismatch by raising; here
    each function returns whether the comparison succeeded together with the
    dictionary as it stands afterwards.  Captures written before a mismatch
    stay in it, as they do in the source. */
module Compare {
  import opened Common
  import opened Ast
  import opened PatternBuilder

  /** The `variables` dictionary: wildcard identifier to captured field value. */
  type Bindings = map<string, Value>

  datatype Match = Match(ok: bool, bindings: Bindings)

  /** `variables.get(name) is not None`. */
  predicate Bound(b: Bindings, name: string)
  {
    name in b && b[name] != Prim(PNone)
  }

  /** Every capture that was bound in `b` is still bound to the same value in `b'`. */
  predicate Keeps(b: Bindings, b': Bindings)
  {
    forall k :: k in b && Bound(b, k) ==> k in b' && b'[k] == b[k]
  }

  /** A Name node whose id is a single wildcard. */
  predicate IsSingleWildcardName(n: Node)
  {
    NameId(n).Some? && IsSingleWildcard(NameId(n).value)
  }

  /** A list whose first element is the multi-wildcard Name. */
  predicate IsMultiLed(ts: seq<Node>)
  {
    ts != [] && NameId(ts[0]).Some? && IsMultiWildcard(NameId(ts[0]).value)
  }

  /** isNamesNodesEquals: both captures are Name nodes with the same id. */
  predicate IsNamesNodesEquals(existing: Value, saved: Value)
  {
    existing.Child? && saved.Child? && NameId(existing.node).Some? && NameId(existing.node) == NameId(saved.node)
  }

  /** treatWildcard: in assignment mode a capture that is already bound only
      re-matches a Name with the same id and is never overwritten; otherwise
      the new capture is stored, replacing any earlier one. */
  function TreatWildcard(saved: Value, b: Bindings, name: string, assignment: bool): (r: Match)
    ensures !(assignment && Bound(b, name)) ==> r == Match(true, b[name := saved])
    ensures assignment && Bound(b, name) ==>
              r.bindings == b && (r.ok <==> IsNamesNodesEquals(b[name], saved))
  {
    if assignment && Bound(b, name) then Match(IsNamesNodesEquals(b[name], saved), b)
    else Match(true, b[name := saved])
  }

  /** assert_ast_like: the sample must have the template's kind, and every
      field of the template must match the sample's field of that name. */
  function AssertAstLike(sample: Node, template: Node, b: Bindings, assignment: bool): (r: Match)
    decreases template, 2
    ensures b.Keys <= r.bindings.Keys
    ensures assignment ==> Keeps(b, r.bindings)
    ensures sample.kind != template.kind ==> r == Match(false, b)
  {
    if sample.kind != template.kind then Match(false, b)
    else CheckFields(sample, template.fields, b, assignment)
  }

  /** The loop over `ast.iter_fields(template)`; the first mismatch ends it. */
  function CheckFields(sample: Node, tfields: seq<Field>, b: Bindings, assignment: bool): (r: Match)
    decreases tfields, 1
    ensures b.Keys <= r.bindings.Keys
    ensures assignment ==> Keeps(b, r.bindings)
  {
    if tfields == [] then Match(true, b)
    else
      var m := CheckField(Lookup(sample.fields, tfields[0].name), tfields[0].value, b, assignment);
      if !m.ok then m else CheckFields(sample, tfields[1..], m.bindings, assignment)
  }

  /** One field: `sv` is the sample's attribute of the same name (None when it
      has none), `tv` the template's. */
  function CheckField(sv: Option<Value>, tv: Value, b: Bindings, assignment: bool): (r: Match)
    decreases tv, 0
    ensures b.Keys <= r.bindings.Keys
    ensures assignment ==> Keeps(b, r.bindings)
  {
    match tv
    case Nodes(ts) =>
      if ts == [] then Match(sv.Some? && PlainsOf(sv.value) == Some([]), b)
      else if IsMultiLed(ts) then
        if sv.None? then Match(false, b) else TreatWildcard(sv.value, b, MultiWildcardId, assignment)
      else if sv.Some? && sv.value.Nodes? then CheckNodeList(sv.value.nodes, ts, b, assignment)
      else Match(false, b)
    case Plains(ps) =>
      Match(sv.Some? && PlainsOf(sv.value).Some? && PyListEq(PlainsOf(sv.value).value, ps), b)
    case Child(t) =>
      if IsSingleWildcardName(t) then
        if sv.None? then Match(false, b) else TreatWildcard(sv.value, b, NameId(t).value, assignment)
      else if sv.Some? && sv.value.Child? then AssertAstLike(sv.value.node, t, b, assignment)
      else Match(false, b)
    case Prim(tp) =>
      Match(sv.Some? && ((sv.value.Prim? && PyEq(sv.value.prim, tp)) || (tp.PStr? && IsSingleWildcard(tp.s))), b)
  }

  /** check_node_list: the lists must have equal length, then each pair
      matches in order. */
  function CheckNodeList(ss: seq<Node>, ts: seq<Node>, b: Bindings, assignment: bool): (r: Match)
    decreases ts, 1
    ensures b.Keys <= r.bindings.Keys
    ensures assignment ==> Keeps(b, r.bindings)
    ensures |ss| != |ts| ==> r == Match(false, b)
  {
    if |ss| != |ts| then Match(false, b) else CheckPairs(ss, ts, b, assignment)
  }

  function CheckPairs(ss: seq<Node>, ts: seq<Node>, b: Bindings, assignment: bool): (r: Match)
    requires |ss| == |ts|
    decreases ts, 0
    ensures b.Keys <= r.bindings.Keys
    ensures assignment ==> Keeps(b, r.bindings)
  {
    if ts == [] then Match(true, b)
    else
      var m := if IsSingleWildcardName(ts[0]) then TreatWildcard(Child(ss[0]), b, NameId(ts[0]).value, assignment)
               else AssertAstLike(ss[0], ts[0], b, assignment);
      if !m.ok then m else CheckPairs(ss[1..], ts[1..], m.bindings, assignment)
  }

  /** is_ast_like: the outcome of assert_ast_like, with every capture it wrote. */
  function IsAstLike(sample: Node, template: Node, b: Bindings, assignment: bool): (r: Match)
    ensures b.Keys <= r.bindings.Keys
    ensures assignment ==> Keeps(b, r.bindings)
    ensures sample.kind != template.kind ==> r == Match(false, b)
  {
    AssertAstLike(sample, template, b, assignment)
  }

  /** A Name carrying a wildcard identifier of either form. */
  predicate HasWildcardId(n: Node)
  {
    NameId(n).Some? && (IsSingleWildcard(NameId(n).value) || IsMultiWildcard(NameId(n).value))
  }

  /** A tree without wildcards whose nodes have distinct field names: the
      shape of a pattern built from plain code. */
  predicate Concrete(n: Node)
    decreases n, 1
  {
    !HasWildcardId(n) && DistinctNames(n.fields) && ConcreteFields(n.fields)
  }

  predicate ConcreteFields(fs: seq<Field>)
    decreases fs, 0
  {
    fs != [] ==> ConcreteValue(fs[0].value) && ConcreteFields(fs[1..])
  }

  predicate ConcreteValue(v: Value)
    decreases v, 0
  {
    match v
    case Child(c) => Concrete(c)
    case Nodes(ns) => ConcreteList(ns)
    case _ => true
  }

  predicate ConcreteList(ns: seq<Node>)
    decreases ns, 0
  {
    ns != [] ==> Concrete(ns[0]) && ConcreteList(ns[1..])
  }

  /** A pattern without wildcards matches the code it was built from, and
      the comparison writes no capture. */
  lemma {:induction false} MatchReflexive(t: Node, b: Bindings, assignment: bool)
    requires Concrete(t)
    ensures AssertAstLike(t, t, b, assignment) == Match(true, b)
    decreases t, 2
  {
    forall f | f in t.fields ensures Lookup(t.fields, f.name) == Some(f.value) {
      LookupDistinct(t.fields, f);
    }
    FieldsMatchThemselves(t, t.fields, b, assignment);
  }

  lemma {:induction false} FieldsMatchThemselves(sample: Node, tfields: seq<Field>, b: Bindings, assignment: bool)
    requires ConcreteFields(tfields)
    requires forall f :: f in tfields ==> Lookup(sample.fields, f.name) == Some(f.value)
    ensures CheckFields(sample, tfields, b, assignment) == Match(true, b)
    decreases tfields, 1
  {
    if tfields != [] {
      assert tfields[0] in tfields;
      ValueMatchesItself(tfields[0].value, b, assignment);
      assert forall f :: f in tfields[1..] ==> f in tfields;
      FieldsMatchThemselves(sample, tfields[1..], b, assignment);
    }
  }

  lemma {:induction false} ValueMatchesItself(v: Value, b: Bindings, assignment: bool)
    requires ConcreteValue(v)
    ensures CheckField(Some(v), v, b, assignment) == Match(true, b)
    decreases v, 0
  {
    match v
    case Child(c) =>
      MatchReflexive(c, b, assignment);
    case Nodes(ns) =>
      if ns != [] {
        assert ConcreteList(ns);
        assert Concrete(ns[0]);
        assert !IsMultiLed(ns);
        PairsMatchThemselves(ns, b, assignment);
        assert CheckNodeList(ns, ns, b, assignment) == CheckPairs(ns, ns, b, assignment);
      }
    case Plains(ps) =>
      assert PyListEq(ps, ps) by {
        forall i | 0 <= i < |ps| ensures PyEq(ps[i], ps[i]) {
          match ps[i]
          case PStr(_) =>
          case PInt(_) =>
          case PBool(_) =>
          case PNone =>
        }
      }
    case Prim(p) =>
      match p
      case PStr(_) =>
      case PInt(_) =>
      case PBool(_) =>
      case PNone =>
  }

  lemma {:induction false} PairsMatchThemselves(ns: seq<Node>, b: Bindings, assignment: bool)
    requires ConcreteList(ns)
    ensures CheckPairs(ns, ns, b, assignment) == Match(true, b)
    decreases ns, 0
  {
    if ns != [] {
      MatchReflexive(ns[0], b, assignment);
      PairsMatchThemselves(ns[1..], b, assignment);
    }
  }

  /** A single wildcard in a child position captures the sample's field
      value whatever its shape. */
  lemma SingleWildcardCapturesSubtree(sv: Value, w: Node, b: Bindings)
    requires IsSingleWildcardName(w)
    ensures CheckField(Some(sv), Child(w), b, false) == Match(true, b[NameId(w).value := sv])
  {
  }

  /** A single wildcard as a list element is handled by treatWildcard with the
      element at its position; outside assignment mode it captures it. */
  lemma SingleWildcardCapturesElement(s: Node, w: Node, b: Bindings, assignment: bool, d: char)
    requires IsDigit(d) && NameId(w) == Some(DefineWildcard(d))
    ensures CheckField(Some(Nodes([s])), Nodes([w]), b, assignment) == TreatWildcard(Child(s), b, DefineWildcard(d), assignment)
    ensures CheckField(Some(Nodes([s])), Nodes([w]), b, false) == Match(true, b[DefineWildcard(d) := Child(s)])
  {
    WildcardIdentifiers(d);
    assert !IsMultiLed([w]) && IsSingleWildcardName([w][0]);
    assert [s][1..] == [] && [w][1..] == [];
    var m := TreatWildcard(Child(s), b, DefineWildcard(d), assignment);
    assert CheckPairs([s], [w], b, assignment) == m by {
      if m.ok {
        assert CheckPairs([], [], m.bindings, assignment) == Match(true, m.bindings);
      }
    }
  }

  /** check_node_list's loop over two split lists: the first parts are
      compared pair by pair, and only if they all match are the second parts
      compared, starting from the captures the first parts left. */
  lemma {:induction false} CheckPairsAppend(ss1: seq<Node>, ss2: seq<Node>, ts1: seq<Node>, ts2: seq<Node>, b: Bindings, assignment: bool)
    requires |ss1| == |ts1| && |ss2| == |ts2|
    ensures CheckPairs(ss1 + ss2, ts1 + ts2, b, assignment)
         == (var m := CheckPairs(ss1, ts1, b, assignment);
             if !m.ok then m else CheckPairs(ss2, ts2, m.bindings, assignment))
    decreases |ss1|
  {
    if ss1 == [] {
      assert ss1 + ss2 == ss2 && ts1 + ts2 == ts2;
    } else {
      assert (ss1 + ss2)[0] == ss1[0] && (ss1 + ss2)[1..] == ss1[1..] + ss2;
      assert (ts1 + ts2)[0] == ts1[0] && (ts1 + ts2)[1..] == ts1[1..] + ts2;
      var m0 := if IsSingleWildcardName(ts1[0]) then TreatWildcard(Child(ss1[0]), b, NameId(ts1[0]).value, assignment)
                else AssertAstLike(ss1[0], ts1[0], b, assignment);
      if m0.ok {
        CheckPairsAppend(ss1[1..], ss2, ts1[1..], ts2, m0.bindings, assignment);
      }
    }
  }

  /** A single wildcard at any position of a template list is handled by
      treatWildcard with the sample element at the same position, between
      the comparisons of the elements before it and those after it; outside
      assignment mode it captures that element. */
  lemma WildcardSlot(preS: seq<Node>, s: Node, postS: seq<Node>, preT: seq<Node>, w: Node, postT: seq<Node>,
                     b: Bindings, assignment: bool)
    requires |preS| == |preT| && |postS| == |postT|
    requires IsSingleWildcardName(w)
    ensures CheckPairs(preS + [s] + postS, preT + [w] + postT, b, assignment)
         == (var m := CheckPairs(preS, preT, b, assignment);
             if !m.ok then m else
             var m1 := TreatWildcard(Child(s), m.bindings, NameId(w).value, assignment);
             if !m1.ok then m1 else CheckPairs(postS, postT, m1.bindings, assignment))
    ensures CheckPairs(preS + [s] + postS, preT + [w] + postT, b, false)
         == (var m := CheckPairs(preS, preT, b, false);
             if !m.ok then m else CheckPairs(postS, postT, m.bindings[NameId(w).value := Child(s)], false))
  {
    WildcardSlotIn(preS, s, postS, preT, w, postT, b, assignment);
    WildcardSlotIn(preS, s, postS, preT, w, postT, b, false);
  }

  lemma {:induction false} WildcardSlotIn(preS: seq<Node>, s: Node, postS: seq<Node>, preT: seq<Node>, w: Node, postT: seq<Node>,
                                          b: Bindings, assignment: bool)
    requires |preS| == |preT| && |postS| == |postT|
    requires IsSingleWildcardName(w)
    ensures CheckPairs(preS + [s] + postS, preT + [w] + postT, b, assignment)
         == (var m := CheckPairs(preS, preT, b, assignment);
             if !m.ok then m else
             var m1 := TreatWildcard(Child(s), m.bindings, NameId(w).value, assignment);
             if !m1.ok then m1 else CheckPairs(postS, postT, m1.bindings, assignment))
  {
    CheckPairsAppend(preS, [s] + postS, preT, [w] + postT, b, assignment);
    assert preS + [s] + postS == preS + ([s] + postS);
    assert preT + [w] + postT == preT + ([w] + postT);
    var m := CheckPairs(preS, preT, b, assignment);
    if m.ok {
      assert ([s] + postS)[0] == s && ([s] + postS)[1..] == postS;
      assert ([w] + postT)[0] == w && ([w] + postT)[1..] == postT;
    }
  }

  /** A list led by the multi-wildcard captures the sample's whole field
      value, of any length, and the rest of the template list is ignored. */
  lemma MultiWildcardCapturesList(sv: Value, w: Node, rest: seq<Node>, b: Bindings)
    requires NameId(w) == Some(MultiWildcardId)
    ensures CheckField(Some(sv), Nodes([w] + rest), b, false) == Match(true, b[MultiWildcardId := sv])
  {
  }

  /** An empty template list only matches an empty sample list. */
  lemma EmptyListTemplate(sv: Value, b: Bindings, assignment: bool)
    ensures CheckField(Some(sv), Nodes([]), b, assignment) == Match(sv == Nodes([]) || sv == Plains([]), b)
  {
  }

  /** Constants compare with Python's `==`: the pattern `1` matches `True`. */
  lemma ConstantsCompareLikePython(b: Bindings, assignment: bool)
    ensures AssertAstLike(ConstantNode(PBool(true)), ConstantNode(PInt(1)), b, assignment) == Match(true, b)
    ensures AssertAstLike(ConstantNode(PInt(2)), ConstantNode(PBool(true)), b, assignment) == Match(false, b)
  {
  }

  /** A wildcard as the whole pattern captures nothing: it matches exactly
      the Name nodes of the same context, whatever their id. */
  lemma RootWildcardCapturesNothing(sample: Node, x: string, ctx: Node, b: Bindings, assignment: bool, d: char)
    requires IsDigit(d) && (ctx == LoadNode() || ctx == StoreNode())
    ensures sample.kind != Name ==> AssertAstLike(sample, NameNode(DefineWildcard(d), ctx), b, assignment) == Match(false, b)
    ensures AssertAstLike(NameNode(x, ctx), NameNode(DefineWildcard(d), ctx), b, assignment) == Match(true, b)
  {
    WildcardIdentifiers(d);
    var t := NameNode(DefineWildcard(d), ctx);
    var sample := NameNode(x, ctx);
    NameIdOf(x, ctx);
    assert CheckField(Lookup(sample.fields, "id"), t.fields[0].value, b, assignment) == Match(true, b);
    ContextMatches(ctx, b, assignment);
    assert CheckField(Lookup(sample.fields, "ctx"), t.fields[1].value, b, assignment) == Match(true, b);
    assert t.fields[1..][1..] == [];
    assert CheckFields(sample, t.fields[1..], b, assignment) == Match(true, b);
  }

  /** A Name pattern, a whole-pattern wildcard included, fails on a Name of
      another context (a load against a store). */
  lemma OtherContextFails(x: string, id: string, ctx: Node, ctx': Node, b: Bindings, assignment: bool)
    requires ctx.kind != ctx'.kind && NameId(ctx).None?
    ensures !AssertAstLike(NameNode(x, ctx'), NameNode(id, ctx), b, assignment).ok
  {
    NameIdOf(x, ctx');
    ChildMismatchFails(NameNode(x, ctx'), NameNode(id, ctx), 1, b, assignment);
  }

  lemma NameIdOf(id: string, ctx: Node)
    ensures NameId(NameNode(id, ctx)) == Some(id)
    ensures Lookup(NameNode(id, ctx).fields, "ctx") == Some(Child(ctx))
  {
    assert NameNode(id, ctx).fields[1..][0].name == "ctx";
  }

  lemma ContextMatches(ctx: Node, b: Bindings, assignment: bool)
    requires ctx == LoadNode() || ctx == StoreNode()
    ensures CheckField(Some(Child(ctx)), Child(ctx), b, assignment) == Match(true, b)
  {
    assert NameId(ctx).None?;
  }

  /** A template with three fields is checked field after field; the first
      mismatch ends the check. */
  lemma {:induction false} ThreeFields(sample: Node, f0: Field, f1: Field, f2: Field, b: Bindings, assignment: bool)
    ensures CheckFields(sample, [f0, f1, f2], b, assignment)
         == (var m0 := CheckField(Lookup(sample.fields, f0.name), f0.value, b, assignment);
             if !m0.ok then m0 else
             var m1 := CheckField(Lookup(sample.fields, f1.name), f1.value, m0.bindings, assignment);
             if !m1.ok then m1 else
             CheckField(Lookup(sample.fields, f2.name), f2.value, m1.bindings, assignment))
  {
    var fs := [f0, f1, f2];
    assert fs[0] == f0 && fs[1..] == [f1, f2];
    var m0 := CheckField(Lookup(sample.fields, f0.name), f0.value, b, assignment);
    if m0.ok {
      var m1 := CheckField(Lookup(sample.fields, f1.name), f1.value, m0.bindings, assignment);
      assert [f1, f2][0] == f1 && [f1, f2][1..] == [f2];
      if m1.ok {
        var m2 := CheckField(Lookup(sample.fields, f2.name), f2.value, m1.bindings, assignment);
        assert [f2][0] == f2 && [f2][1..] == [];
        assert CheckFields(sample, [], m2.bindings, assignment) == Match(true, m2.bindings);
        assert CheckFields(sample, [f2], m1.bindings, assignment) == m2;
      }
    }
  }

  /** The failing half of the field loop: a template field whose check fails
      whatever captures it starts from makes the whole comparison fail,
      whatever the fields before it do. */
  lemma {:induction false} FieldFailureEndsFields(sample: Node, tfields: seq<Field>, i: nat, b: Bindings, assignment: bool)
    requires i < |tfields|
    requires forall b' :: !CheckField(Lookup(sample.fields, tfields[i].name), tfields[i].value, b', assignment).ok
    ensures !CheckFields(sample, tfields, b, assignment).ok
    decreases i
  {
    var m := CheckField(Lookup(sample.fields, tfields[0].name), tfields[0].value, b, assignment);
    if i > 0 && m.ok {
      assert tfields[1..][i - 1] == tfields[i];
      FieldFailureEndsFields(sample, tfields[1..], i - 1, m.bindings, assignment);
    }
  }

  /** A primitive field of the template that is not a single-wildcard id
      fails when the sample's field of that name is absent, not a primitive,
      or not `==` to it, and then the whole comparison fails. */
  lemma PrimMismatchFails(sample: Node, template: Node, i: nat, b: Bindings, assignment: bool)
    requires i < |template.fields| && template.fields[i].value.Prim?
    requires var tp := template.fields[i].value.prim;
             && !(tp.PStr? && IsSingleWildcard(tp.s))
             && var sv := Lookup(sample.fields, template.fields[i].name);
                sv.None? || !sv.value.Prim? || !PyEq(sv.value.prim, tp)
    ensures !AssertAstLike(sample, template, b, assignment).ok
  {
    FieldFailureEndsFields(sample, template.fields, i, b, assignment);
  }

  /** A child of the template that is not a single wildcard fails against a
      sample child of another kind, or none, and then the whole comparison
      fails. */
  lemma ChildMismatchFails(sample: Node, template: Node, i: nat, b: Bindings, assignment: bool)
    requires i < |template.fields| && template.fields[i].value.Child?
    requires !IsSingleWildcardName(template.fields[i].value.node)
    requires var sv := Lookup(sample.fields, template.fields[i].name);
             sv.None? || !sv.value.Child? || sv.value.node.kind != template.fields[i].value.node.kind
    ensures !AssertAstLike(sample, template, b, assignment).ok
  {
    FieldFailureEndsFields(sample, template.fields, i, b, assignment);
  }

  /** Only the template's fields are compared: two samples of the same kind
      that agree on the template's field names compare alike, whatever
      other fields they have. */
  lemma {:induction false} OnlyTemplateFields(s1: Node, s2: Node, tfields: seq<Field>, b: Bindings, assignment: bool)
    requires forall f :: f in tfields ==> Lookup(s1.fields, f.name) == Lookup(s2.fields, f.name)
    ensures CheckFields(s1, tfields, b, assignment) == CheckFields(s2, tfields, b, assignment)
    decreases |tfields|
  {
    if tfields != [] {
      assert tfields[0] in tfields;
      var m := CheckField(Lookup(s1.fields, tfields[0].name), tfields[0].value, b, assignment);
      if m.ok {
        assert forall f :: f in tfields[1..] ==> f in tfields;
        OnlyTemplateFields(s1, s2, tfields[1..], m.bindings, assignment);
      }
    }
  }

  /** The template of an attribute pattern has lost its ctx, so it compares
      an attribute read and an attribute write alike. */
  lemma CtxFreeTemplate(value: Node, attr: string, ctx1: Node, ctx2: Node, t: Node, b: Bindings, assignment: bool)
    ensures AssertAstLike(AttributeNode(value, attr, ctx1), DropCtx(t), b, assignment)
         == AssertAstLike(AttributeNode(value, attr, ctx2), DropCtx(t), b, assignment)
  {
    var s1 := AttributeNode(value, attr, ctx1);
    var s2 := AttributeNode(value, attr, ctx2);
    forall f | f in DropCtx(t).fields ensures Lookup(s1.fields, f.name) == Lookup(s2.fields, f.name) {
      assert f.name != "ctx";
      assert s1.fields[1..][1..][0].name == "ctx";
    }
    OnlyTemplateFields(s1, s2, DropCtx(t).fields, b, assignment);
  }

  /** A missing type comment in the template matches a missing one in the sample. */
  lemma NoneMatchesNone(b: Bindings, assignment: bool)
    ensures CheckField(Some(Prim(PNone)), Prim(PNone), b, assignment) == Match(true, b)
  {
    assert PyEq(PNone, PNone);
  }

  /** An empty keyword list in the template matches an empty one in the sample. */
  lemma EmptyMatchesEmpty(b: Bindings, assignment: bool)
    ensures CheckField(Some(Nodes([])), Nodes([]), b, assignment) == Match(true, b)
  {
  }

  /** An assignment matches an assignment when its targets match and then
      its value does. */
  lemma AssignMatch(ss: seq<Node>, sv: Node, ts: seq<Node>, tv: Node, b: Bindings, assignment: bool)
    ensures AssertAstLike(AssignNode(ss, sv), AssignNode(ts, tv), b, assignment)
         == (var m := CheckField(Some(Nodes(ss)), Nodes(ts), b, assignment);
             if !m.ok then m else CheckField(Some(Child(sv)), Child(tv), m.bindings, assignment))
  {
    var sample := AssignNode(ss, sv);
    ThreeFields(sample, Field("targets", Nodes(ts)), Field("value", Child(tv)), Field("type_comment", Prim(PNone)), b, assignment);
    assert Lookup(sample.fields, "targets") == Some(Nodes(ss));
    assert Lookup(sample.fields, "value") == Some(Child(sv)) by {
      assert sample.fields[1..][0].name == "value";
    }
    assert Lookup(sample.fields, "type_comment") == Some(Prim(PNone)) by {
      assert sample.fields[1..][1..][0].name == "type_comment";
    }
    var m := CheckField(Some(Nodes(ss)), Nodes(ts), b, assignment);
    if m.ok {
      NoneMatchesNone(CheckField(Some(Child(sv)), Child(tv), m.bindings, assignment).bindings, assignment);
    }
  }

  /** A call without keywords matches a call without keywords when its
      function part matches and then its argument list does. */
  lemma CallMatch(sf: Node, sargs: seq<Node>, tf: Node, targs: seq<Node>, b: Bindings, assignment: bool)
    ensures AssertAstLike(CallNode(sf, sargs, []), CallNode(tf, targs, []), b, assignment)
         == (var m := CheckField(Some(Child(sf)), Child(tf), b, assignment);
             if !m.ok then m else CheckField(Some(Nodes(sargs)), Nodes(targs), m.bindings, assignment))
  {
    var sample := CallNode(sf, sargs, []);
    ThreeFields(sample, Field("func", Child(tf)), Field("args", Nodes(targs)), Field("keywords", Nodes([])), b, assignment);
    assert Lookup(sample.fields, "func") == Some(Child(sf));
    assert Lookup(sample.fields, "args") == Some(Nodes(sargs)) by {
      assert sample.fields[1..][0].name == "args";
    }
    assert Lookup(sample.fields, "keywords") == Some(Nodes([])) by {
      assert sample.fields[1..][1..][0].name == "keywords";
    }
    var m := CheckField(Some(Child(sf)), Child(tf), b, assignment);
    if m.ok {
      EmptyMatchesEmpty(CheckField(Some(Nodes(sargs)), Nodes(targs), m.bindings, assignment).bindings, assignment);
    }
  }

  /** A Name in load or store context with a plain id is free of wildcards. */
  lemma ConcreteName(id: string, ctx: Node)
    requires !IsSingleWildcard(id) && !IsMultiWildcard(id)
    requires ctx == LoadNode() || ctx == StoreNode()
    ensures Concrete(NameNode(id, ctx))
  {
    NameIdOf(id, ctx);
    var n := NameNode(id, ctx);
    assert ConcreteFields(n.fields[1..][1..]);
    assert Concrete(ctx) by { assert NameId(ctx).None?; }
    assert ConcreteFields(n.fields[1..]);
  }

  lemma ConcreteAttribute(value: Node, attr: string, ctx: Node)
    requires Concrete(value) && (ctx == LoadNode() || ctx == StoreNode())
    ensures Concrete(AttributeNode(value, attr, ctx))
  {
    var n := AttributeNode(value, attr, ctx);
    assert Concrete(ctx) by { assert NameId(ctx).None?; }
    assert ConcreteFields(n.fields[1..][1..][1..]);
    assert ConcreteFields(n.fields[1..][1..]);
    assert ConcreteFields(n.fields[1..]);
  }

  /** The assignment pattern `$1 = m.p` tried against `x = v` for some other
      value `v`: the comparison fails, yet the capture of `x` written before
      the mismatch stays in the dictionary. */
  lemma FailedMatchKeepsCaptures(x: string, v: Node, m: string, p: string, d: char)
    requires IsDigit(d) && v.kind != Attribute
    ensures IsAstLike(AssignNode([NameNode(x, StoreNode())], v),
                      AssignNode([NameNode(DefineWildcard(d), StoreNode())], AttributeNode(NameNode(m, LoadNode()), p, LoadNode())),
                      map[], true)
         == Match(false, map[DefineWildcard(d) := Child(NameNode(x, StoreNode()))])
  {
    WildcardIdentifiers(d);
    NameIdOf(DefineWildcard(d), StoreNode());
    var attr := AttributeNode(NameNode(m, LoadNode()), p, LoadNode());
    AssignMatch([NameNode(x, StoreNode())], v, [NameNode(DefineWildcard(d), StoreNode())], attr, map[], true);
    SingleWildcardCapturesElement(NameNode(x, StoreNode()), NameNode(DefineWildcard(d), StoreNode()), map[], true, d);
    assert NameId(attr).None?;
  }

  /** With that stale capture in place, the assignment `a = m.p` the pattern
      was written for no longer matches. */
  lemma StaleCaptureBlocksAssignment(x: string, a: string, m: string, p: string, d: char)
    requires IsDigit(d) && x != a
    ensures IsAstLike(AssignNode([NameNode(a, StoreNode())], AttributeNode(NameNode(m, LoadNode()), p, LoadNode())),
                      AssignNode([NameNode(DefineWildcard(d), StoreNode())], AttributeNode(NameNode(m, LoadNode()), p, LoadNode())),
                      map[DefineWildcard(d) := Child(NameNode(x, StoreNode()))], true)
         == Match(false, map[DefineWildcard(d) := Child(NameNode(x, StoreNode()))])
  {
    NameIdOf(DefineWildcard(d), StoreNode());
    NameIdOf(a, StoreNode());
    NameIdOf(x, StoreNode());
    var attr := AttributeNode(NameNode(m, LoadNode()), p, LoadNode());
    var w := NameNode(DefineWildcard(d), StoreNode());
    var stale := map[DefineWildcard(d) := Child(NameNode(x, StoreNode()))];
    AssignMatch([NameNode(a, StoreNode())], attr, [w], attr, stale, true);
    SingleWildcardCapturesElement(NameNode(a, StoreNode()), w, stale, true, d);
    assert Bound(stale, DefineWildcard(d));
  }

  /** From an empty dictionary the same pattern matches `a = m.p` and
      captures the target `a`. */
  lemma AssignmentPatternCaptures(a: string, m: string, p: string, d: char)
    requires IsDigit(d)
    requires !IsSingleWildcard(m) && !IsMultiWildcard(m)
    ensures IsAstLike(AssignNode([NameNode(a, StoreNode())], AttributeNode(NameNode(m, LoadNode()), p, LoadNode())),
                      AssignNode([NameNode(DefineWildcard(d), StoreNode())], AttributeNode(NameNode(m, LoadNode()), p, LoadNode())),
                      map[], true)
         == Match(true, map[DefineWildcard(d) := Child(NameNode(a, StoreNode()))])
  {
    NameIdOf(DefineWildcard(d), StoreNode());
    var attr := AttributeNode(NameNode(m, LoadNode()), p, LoadNode());
    var w := NameNode(DefineWildcard(d), StoreNode());
    var captured := map[DefineWildcard(d) := Child(NameNode(a, StoreNode()))];
    ConcreteName(m, LoadNode());
    ConcreteAttribute(NameNode(m, LoadNode()), p, LoadNode());
    MatchReflexive(attr, captured, true);
    assert NameId(attr).None?;
    AssignMatch([NameNode(a, StoreNode())], attr, [w], attr, map[], true);
    SingleWildcardCapturesElement(NameNode(a, StoreNode()), w, map[], true, d);
  }
}
