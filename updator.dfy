/** The driver (updator/updator.py): the module alias lookup, the per-rule
    mode dispatch and the `run` loop over the rules of one library.  Reading
    and writing the file, printing the tree back to text and the MongoDB rule
    store are outside the model: the store is a sequence of rules, and the
    parsed file is the tree given to Run. */
module Updator {
  import opened Common
  import opened Ast
  import opened PatternBuilder
  import opened Compare
  import opened Converter

  // ----- findModuleAlias -----

  /** What visit_alias records for one alias node: its asname when it has
      one, else its name, provided the name is the module; nothing otherwise. */
  function AliasMatch(n: Node, moduleName: string): seq<string>
  {
    match (Lookup(n.fields, "name"), Lookup(n.fields, "asname"))
    case (Some(Prim(PStr(name))), Some(Prim(PStr(asname)))) => if name == moduleName then [asname] else []
    case (Some(Prim(PStr(name))), Some(Prim(PNone))) => if name == moduleName then [name] else []
    case _ => []
  }

  /** The names visit_alias records, in visiting order, for the alias nodes
      reached from `n`.  `inImport` is false for ImportFinder's walk, which
      hands every Import statement to AliasFinder, and true for AliasFinder's
      walk inside it; alias nodes outside an Import (those of ImportFrom) are
      never recorded. */
  function Matches(n: Node, moduleName: string, inImport: bool): seq<string>
    decreases n, 2
  {
    if inImport && n.kind == Alias then AliasMatch(n, moduleName)
    else MatchesFields(n.fields, moduleName, inImport || n.kind == Import)
  }

  function MatchesFields(fs: seq<Field>, moduleName: string, inImport: bool): seq<string>
    decreases fs, 1
  {
    if fs == [] then [] else MatchesValue(fs[0].value, moduleName, inImport) + MatchesFields(fs[1..], moduleName, inImport)
  }

  function MatchesValue(v: Value, moduleName: string, inImport: bool): seq<string>
    decreases v, 0
  {
    match v
    case Child(c) => Matches(c, moduleName, inImport)
    case Nodes(ns) => MatchesList(ns, moduleName, inImport)
    case _ => []
  }

  function MatchesList(ns: seq<Node>, moduleName: string, inImport: bool): seq<string>
    decreases ns, 1
  {
    if ns == [] then [] else Matches(ns[0], moduleName, inImport) + MatchesList(ns[1..], moduleName, inImport)
  }

  /** The field after a sequence of overwrites: the last value written. */
  function LastOr(found: Option<string>, xs: seq<string>): Option<string>
  {
    if xs == [] then found else Some(xs[|xs| - 1])
  }

  lemma LastOrAppend(found: Option<string>, xs: seq<string>, ys: seq<string>)
    ensures LastOr(found, xs + ys) == LastOr(LastOr(found, xs), ys)
  {
    if ys != [] {
      assert (xs + ys)[|xs + ys| - 1] == ys[|ys| - 1];
    } else {
      assert xs + ys == xs;
    }
  }

  /** findModuleAlias: the alias under which the last matching Import
      statement brings the module in, or None when no Import names it. */
  function ModuleAlias(tree: Node, moduleName: string): Option<string>
  {
    LastOr(None, Matches(tree, moduleName, false))
  }

  /** AliasFinder: records the alias of every matching alias node it visits. */
  class AliasFinder {
    const moduleName: string
    var aliasModuleName: Option<string>

    constructor (moduleName: string)
      ensures this.moduleName == moduleName && aliasModuleName == None
    {
      this.moduleName := moduleName;
      aliasModuleName := None;
    }

    method VisitAlias(node: Node)
      modifies this
      ensures aliasModuleName == LastOr(old(aliasModuleName), AliasMatch(node, moduleName))
    {
      match (Lookup(node.fields, "name"), Lookup(node.fields, "asname"))
      case (Some(Prim(PStr(name))), Some(Prim(PStr(asname)))) =>
        if name == moduleName {
          aliasModuleName := Some(asname);
        }
      case (Some(Prim(PStr(name))), Some(Prim(PNone))) =>
        if name == moduleName {
          aliasModuleName := Some(name);
        }
      case _ =>
    }

    /** AliasFinder.visit: visit_alias for an alias node, generic_visit
        (every child, in field order) for any other node. */
    method Visit(n: Node)
      modifies this
      decreases n, 2
      ensures aliasModuleName == LastOr(old(aliasModuleName), Matches(n, moduleName, true))
    {
      if n.kind == Alias {
        VisitAlias(n);
        return;
      }
      var fs := n.fields;
      var i := 0;
      assert fs[0..] == fs;
      while i < |fs|
        invariant 0 <= i <= |fs|
        invariant LastOr(old(aliasModuleName), MatchesFields(fs, moduleName, true))
               == LastOr(aliasModuleName, MatchesFields(fs[i..], moduleName, true))
      {
        assert fs[i..][1..] == fs[i + 1..];
        LastOrAppend(aliasModuleName, MatchesValue(fs[i].value, moduleName, true), MatchesFields(fs[i + 1..], moduleName, true));
        VisitValue(fs[i].value);
        i := i + 1;
      }
    }

    /** One field of generic_visit: a child node is visited, each node of a
        list in order, anything else is skipped. */
    method VisitValue(v: Value)
      modifies this
      decreases v, 1
      ensures aliasModuleName == LastOr(old(aliasModuleName), MatchesValue(v, moduleName, true))
    {
      match v {
        case Child(c) => Visit(c);
        case Nodes(ns) => VisitList(ns);
        case _ =>
      }
    }

    method VisitList(ns: seq<Node>)
      modifies this
      decreases ns, 0
      ensures aliasModuleName == LastOr(old(aliasModuleName), MatchesList(ns, moduleName, true))
    {
      var j := 0;
      assert ns[0..] == ns;
      while j < |ns|
        invariant 0 <= j <= |ns|
        invariant LastOr(old(aliasModuleName), MatchesList(ns, moduleName, true))
               == LastOr(aliasModuleName, MatchesList(ns[j..], moduleName, true))
      {
        assert ns[j..][1..] == ns[j + 1..];
        LastOrAppend(aliasModuleName, Matches(ns[j], moduleName, true), MatchesList(ns[j + 1..], moduleName, true));
        Visit(ns[j]);
        j := j + 1;
      }
    }
  }

  /** ImportFinder: walks the whole tree and hands each Import statement to
      its AliasFinder. */
  class ImportFinder {
    const aliasFinder: AliasFinder

    constructor (moduleName: string)
      ensures fresh(aliasFinder)
      ensures aliasFinder.moduleName == moduleName && aliasFinder.aliasModuleName == None
    {
      aliasFinder := new AliasFinder(moduleName);
    }

    method Visit(n: Node)
      modifies aliasFinder
      decreases n, 2
      ensures aliasFinder.aliasModuleName
           == LastOr(old(aliasFinder.aliasModuleName), Matches(n, aliasFinder.moduleName, false))
    {
      if n.kind == Import {
        aliasFinder.Visit(n);
        return;
      }
      var m := aliasFinder.moduleName;
      var fs := n.fields;
      var i := 0;
      assert fs[0..] == fs;
      while i < |fs|
        invariant 0 <= i <= |fs|
        invariant LastOr(old(aliasFinder.aliasModuleName), MatchesFields(fs, m, false))
               == LastOr(aliasFinder.aliasModuleName, MatchesFields(fs[i..], m, false))
      {
        assert fs[i..][1..] == fs[i + 1..];
        LastOrAppend(aliasFinder.aliasModuleName, MatchesValue(fs[i].value, m, false), MatchesFields(fs[i + 1..], m, false));
        VisitValue(fs[i].value);
        i := i + 1;
      }
    }

    /** One field of generic_visit, as in AliasFinder. */
    method VisitValue(v: Value)
      modifies aliasFinder
      decreases v, 1
      ensures aliasFinder.aliasModuleName
           == LastOr(old(aliasFinder.aliasModuleName), MatchesValue(v, aliasFinder.moduleName, false))
    {
      match v {
        case Child(c) => Visit(c);
        case Nodes(ns) => VisitList(ns);
        case _ =>
      }
    }

    method VisitList(ns: seq<Node>)
      modifies aliasFinder
      decreases ns, 0
      ensures aliasFinder.aliasModuleName
           == LastOr(old(aliasFinder.aliasModuleName), MatchesList(ns, aliasFinder.moduleName, false))
    {
      var m := aliasFinder.moduleName;
      var j := 0;
      assert ns[0..] == ns;
      while j < |ns|
        invariant 0 <= j <= |ns|
        invariant LastOr(old(aliasFinder.aliasModuleName), MatchesList(ns, m, false))
               == LastOr(aliasFinder.aliasModuleName, MatchesList(ns[j..], m, false))
      {
        assert ns[j..][1..] == ns[j + 1..];
        LastOrAppend(aliasFinder.aliasModuleName, Matches(ns[j], m, false), MatchesList(ns[j + 1..], m, false));
        Visit(ns[j]);
        j := j + 1;
      }
    }
  }

  method FindModuleAlias(tree: Node, moduleName: string) returns (r: Option<string>)
    ensures r == ModuleAlias(tree, moduleName)
  {
    var finder := new ImportFinder(moduleName);
    finder.Visit(tree);
    r := finder.aliasFinder.aliasModuleName;
  }

  lemma MatchesOfModule(body: seq<Node>, m: string)
    ensures Matches(ModuleNode(body), m, false) == MatchesList(body, m, false)
  {
    var n := ModuleNode(body);
    assert n.fields[1..][1..] == [];
    assert MatchesValue(n.fields[1..][0].value, m, false) == [];
    assert MatchesFields(n.fields[1..], m, false) == [];
    assert MatchesFields(n.fields, m, false) == MatchesList(body, m, false) + [];
  }

  lemma MatchesOfImport(names: seq<Node>, m: string)
    ensures Matches(ImportNode(names), m, false) == MatchesList(names, m, true)
  {
    var n := ImportNode(names);
    assert n.fields[1..] == [];
    assert MatchesFields(n.fields, m, true) == MatchesList(names, m, true) + [];
  }

  lemma MatchesOfAlias(name: string, asname: Option<string>, m: string)
    ensures Matches(AliasNode(name, asname), m, true)
         == if name != m then [] else if asname.Some? then [asname.value] else [name]
    ensures Matches(AliasNode(name, asname), m, false) == []
  {
    var n := AliasNode(name, asname);
    assert n.fields[1..][0].name == "asname";
    assert n.fields[1..][1..] == [];
    assert MatchesFields(n.fields[1..], m, false) == [] + [];
    assert MatchesFields(n.fields, m, false) == [] + [];
  }

  lemma MatchesOfPair(x: Node, y: Node, m: string, inImport: bool)
    ensures MatchesList([x], m, inImport) == Matches(x, m, inImport)
    ensures MatchesList([x, y], m, inImport) == Matches(x, m, inImport) + Matches(y, m, inImport)
  {
    assert [x][1..] == [] && [y][1..] == [];
    assert MatchesList([x], m, inImport) == Matches(x, m, inImport) + [];
    assert MatchesList([y], m, inImport) == Matches(y, m, inImport) + [];
    assert [x, y][1..] == [y];
  }

  /** findModuleAlias on small files: the asname wins over the name, and an
      import of another module under the module's name does not count. */
  lemma AliasLookupAsName(m: string, a: string, other: string)
    requires other != m
    ensures ModuleAlias(ModuleNode([ImportNode([AliasNode(m, Some(a))])]), m) == Some(a)
    ensures ModuleAlias(ModuleNode([ImportNode([AliasNode(other, Some(m))])]), m) == None
  {
    MatchesOfModule([ImportNode([AliasNode(m, Some(a))])], m);
    MatchesOfPair(ImportNode([AliasNode(m, Some(a))]), ImportNode([]), m, false);
    MatchesOfImport([AliasNode(m, Some(a))], m);
    MatchesOfPair(AliasNode(m, Some(a)), AliasNode(m, None), m, true);
    MatchesOfAlias(m, Some(a), m);
    MatchesOfModule([ImportNode([AliasNode(other, Some(m))])], m);
    MatchesOfPair(ImportNode([AliasNode(other, Some(m))]), ImportNode([]), m, false);
    MatchesOfImport([AliasNode(other, Some(m))], m);
    MatchesOfPair(AliasNode(other, Some(m)), AliasNode(m, None), m, true);
    MatchesOfAlias(other, Some(m), m);
  }

  /** A later matching import overwrites an earlier one. */
  lemma AliasLookupLastWins(m: string, a: string, other: string)
    requires other != m
    ensures ModuleAlias(ModuleNode([ImportNode([AliasNode(m, Some(a))]),
                                    ImportNode([AliasNode(m, None), AliasNode(other, None)])]), m) == Some(m)
  {
    var first := ImportNode([AliasNode(m, Some(a))]);
    var second := ImportNode([AliasNode(m, None), AliasNode(other, None)]);
    MatchesOfModule([first, second], m);
    MatchesOfPair(first, second, m, false);
    MatchesOfImport([AliasNode(m, Some(a))], m);
    MatchesOfImport([AliasNode(m, None), AliasNode(other, None)], m);
    MatchesOfPair(AliasNode(m, Some(a)), AliasNode(m, None), m, true);
    MatchesOfPair(AliasNode(m, None), AliasNode(other, None), m, true);
    MatchesOfAlias(m, Some(a), m);
    MatchesOfAlias(m, None, m);
    MatchesOfAlias(other, None, m);
  }

  /** `from m import m` does not count as an import of m. */
  lemma AliasLookupIgnoresImportFrom(m: string)
    ensures ModuleAlias(ModuleNode([Node(ImportFrom, [Field("module", Prim(PStr(m))),
                                                      Field("names", Nodes([AliasNode(m, None)])),
                                                      Field("level", Prim(PInt(0)))])]), m) == None
  {
    var n := Node(ImportFrom, [Field("module", Prim(PStr(m))), Field("names", Nodes([AliasNode(m, None)])), Field("level", Prim(PInt(0)))]);
    MatchesOfModule([n], m);
    MatchesOfPair(n, n, m, false);
    MatchesOfPair(AliasNode(m, None), n, m, false);
    MatchesOfAlias(m, None, m);
    assert n.fields[1..][1..][1..] == [];
    assert MatchesFields(n.fields[1..][1..], m, false) == [];
    assert MatchesFields(n.fields[1..], m, false) == [];
  }

  // ----- the rule store -----

  /** dbInterface.findRulesByLib: the active rules of the library, in store order. */
  function FindRulesByLib(store: seq<Rule>, lib: string): (r: seq<Rule>)
    ensures forall x :: x in r <==> x in store && x.moduleName == lib && x.active
    ensures |r| <= |store|
  {
    if store == [] then []
    else (if store[0].moduleName == lib && store[0].active then [store[0]] else []) + FindRulesByLib(store[1..], lib)
  }

  lemma {:induction false} FindRulesByLibAppend(a: seq<Rule>, b: seq<Rule>, lib: string)
    ensures FindRulesByLib(a + b, lib) == FindRulesByLib(a, lib) + FindRulesByLib(b, lib)
  {
    if a != [] {
      assert (a + b)[1..] == a[1..] + b;
      FindRulesByLibAppend(a[1..], b, lib);
    } else {
      assert a + b == b;
    }
  }

  // ----- applyRule -----

  /** The bindings, flag and error slot every pass starts from. */
  function FreshState(): PassState
  {
    PassState(map[], false, None)
  }

  /** A plain pass (AstConverter(rule, {}).scan_ast) and how it ends. */
  function PlainPassResult(rule: CompiledRule, tree: Node): Result<Node>
  {
    var (t, st) := VisitRoot(Pass(rule.patternToSearch, rule.patternToReplace, None, false), tree, FreshState());
    if st.failed.Some? then Err(st.failed.value) else Ok(t)
  }

  /** An assignment pass (scan_ast_forAssignment) and how it ends. */
  function AssignmentPassResult(rule: CompiledAssignmentRule, tree: Node): Result<Node>
  {
    var (t, st) := VisitRoot(Pass(rule.patternToSearch, rule.patternToReplace, rule.assignmentPattern, true), tree, FreshState());
    if st.failed.Some? then Err(st.failed.value) else Ok(t)
  }

  /** Python truthiness of an optional string. */
  predicate Truthy(s: Option<string>)
  {
    s.Some? && s.value != ""
  }

  /** applyAssignmentRule. */
  function ApplyAssignmentRuleResult(parse: Parser, rule: Rule, moduleAlias: string, tree: Node, assignmentType: string): Result<Node>
  {
    var compiled :- CreateAssignmentRule(parse, rule, moduleAlias, assignmentType);
    AssignmentPassResult(compiled, tree)
  }

  /** applyRule: a truthy assignmentRule runs the assignment pass; no
      assignmentRule, or "auto", runs the plain pass (after it, for "auto"). */
  function ApplyRuleResult(parse: Parser, rule: Rule, moduleAlias: string, tree: Node): Result<Node>
  {
    var t :- if Truthy(rule.assignmentRule) then ApplyAssignmentRuleResult(parse, rule, moduleAlias, tree, rule.assignmentRule.value)
             else Ok(tree);
    if rule.assignmentRule.None? || rule.assignmentRule == Some("auto") then
      var compiled :- PrepareRule(parse, rule, moduleAlias);
      PlainPassResult(compiled, t)
    else Ok(t)
  }

  /** The four modes: none runs only the plain pass, "auto" the assignment
      pass and then the plain pass on its result, any other non-empty value
      only the assignment pass, and the empty string neither. */
  lemma ModeDispatch(parse: Parser, rule: Rule, moduleAlias: string, tree: Node)
    ensures rule.assignmentRule.None? ==>
              (ApplyRuleResult(parse, rule, moduleAlias, tree)
            == (var c :- PrepareRule(parse, rule, moduleAlias); PlainPassResult(c, tree)))
    ensures rule.assignmentRule == Some("auto") ==>
              (ApplyRuleResult(parse, rule, moduleAlias, tree)
            == (var t :- ApplyAssignmentRuleResult(parse, rule, moduleAlias, tree, "auto");
                var c :- PrepareRule(parse, rule, moduleAlias);
                PlainPassResult(c, t)))
    ensures Truthy(rule.assignmentRule) && rule.assignmentRule != Some("auto") ==>
              (ApplyRuleResult(parse, rule, moduleAlias, tree)
            == ApplyAssignmentRuleResult(parse, rule, moduleAlias, tree, rule.assignmentRule.value))
    ensures rule.assignmentRule == Some("") ==> ApplyRuleResult(parse, rule, moduleAlias, tree) == Ok(tree)
  {
  }

  method ApplyAssignmentRule(parse: Parser, rule: Rule, moduleAlias: string, tree: Node, assignmentType: string) returns (r: Result<Node>)
    ensures r == ApplyAssignmentRuleResult(parse, rule, moduleAlias, tree, assignmentType)
  {
    var compiled := CreateAssignmentRule(parse, rule, moduleAlias, assignmentType);
    if compiled.Err? {
      return Err(compiled.error);
    }
    var converter := new AstConverter.ForAssignment(compiled.value, map[]);
    var t := converter.ScanAstForAssignment(tree);
    if converter.failed.Some? {
      return Err(converter.failed.value);
    }
    return Ok(t);
  }

  method ApplyRule(parse: Parser, rule: Rule, moduleAlias: string, tree: Node) returns (r: Result<Node>)
    ensures r == ApplyRuleResult(parse, rule, moduleAlias, tree)
  {
    var t := tree;
    if Truthy(rule.assignmentRule) {
      var a := ApplyAssignmentRule(parse, rule, moduleAlias, tree, rule.assignmentRule.value);
      if a.Err? {
        return Err(a.error);
      }
      t := a.value;
    }
    if rule.assignmentRule.None? || rule.assignmentRule == Some("auto") {
      var compiled := PrepareRule(parse, rule, moduleAlias);
      if compiled.Err? {
        return Err(compiled.error);
      }
      var converter := new AstConverter(compiled.value, map[]);
      t := converter.ScanAst(t);
      if converter.failed.Some? {
        return Err(converter.failed.value);
      }
    }
    return Ok(t);
  }

  // ----- isRuleValid and createRule -----

  /** isRuleValid: the rule compiles for the library under its own name,
      in the mode the rule is being added with. */
  function IsRuleValid(parse: Parser, rule: Rule, lib: string, assignmentType: Option<string>): (r: bool)
    ensures Truthy(assignmentType) ==> (r <==> CreateAssignmentRule(parse, rule, lib, assignmentType.value).Ok?)
    ensures !Truthy(assignmentType) ==> (r <==> PrepareRule(parse, rule, lib).Ok?)
  {
    if Truthy(assignmentType) then CreateAssignmentRule(parse, rule, lib, assignmentType.value).Ok?
    else PrepareRule(parse, rule, lib).Ok?
  }

  /** createRule: the optional keys are set only from truthy arguments;
      everything else in the rule is left as it was. */
  function CreateRule(rule: Rule, assignmentType: Option<string>, assignmentPattern: Option<string>, property: Option<string>): (r: Rule)
    ensures r.assignmentRule == (if Truthy(assignmentType) then assignmentType else rule.assignmentRule)
    ensures r.assignmentPattern == (if Truthy(assignmentPattern) then assignmentPattern else rule.assignmentPattern)
    ensures r.property == (if Truthy(property) then property else rule.property)
    ensures r.moduleName == rule.moduleName && r.patternToSearch == rule.patternToSearch
    ensures r.patternToReplace == rule.patternToReplace && r.active == rule.active
  {
    var r1 := if Truthy(assignmentType) then rule.(assignmentRule := assignmentType) else rule;
    var r2 := if Truthy(assignmentPattern) then r1.(assignmentPattern := assignmentPattern) else r1;
    if Truthy(property) then r2.(property := property) else r2
  }

  /** An error that compiling a rule can raise, as opposed to one raised
      while rewriting. */
  predicate IsCompileError(e: Error)
  {
    e.SyntaxError? || e.EmptyBody? || e.MissingKey?
  }

  /** A rule built by add_rule with createRule and accepted by isRuleValid
      compiles again when it is applied to a file that imports the library
      under its own name, unless its mode is "auto": for "auto" isRuleValid
      only compiles the assignment patterns, while applyRule also compiles
      the plain ones. */
  lemma AcceptedRuleCompiles(parse: Parser, base: Rule, assignmentType: Option<string>,
                             assignmentPattern: Option<string>, property: Option<string>, tree: Node)
    requires base.assignmentRule.None?
    requires IsRuleValid(parse, CreateRule(base, assignmentType, assignmentPattern, property), base.moduleName, assignmentType)
    requires assignmentType != Some("auto")
    ensures var r := ApplyRuleResult(parse, CreateRule(base, assignmentType, assignmentPattern, property), base.moduleName, tree);
            r.Err? ==> !IsCompileError(r.error)
  {
  }

  // ----- run -----

  datatype RunResult = Unchanged | Converted(tree: Node) | Failed(error: Error)

  /** The rules applied one after another, each to the tree the previous
      one left. */
  function ApplyRules(parse: Parser, rules: seq<Rule>, moduleAlias: string, tree: Node): Result<Node>
  {
    if rules == [] then Ok(tree)
    else
      var t :- ApplyRules(parse, rules[..|rules| - 1], moduleAlias, tree);
      ApplyRuleResult(parse, rules[|rules| - 1], moduleAlias, t)
  }

  /** Lines 117-125 of `run`: nothing is done when the file does not import
      the library; otherwise its active rules are applied in order, and an
      exception ends the run without a converted tree. */
  function RunResultOf(parse: Parser, store: seq<Rule>, lib: string, tree: Node): (r: RunResult)
    ensures r == Unchanged <==> Matches(tree, lib, false) == []
    ensures Matches(tree, lib, false) != [] && FindRulesByLib(store, lib) == [] ==> r == Converted(tree)
  {
    match ModuleAlias(tree, lib)
    case None => Unchanged
    case Some(alias) =>
      match ApplyRules(parse, FindRulesByLib(store, lib), alias, tree)
      case Ok(t) => Converted(t)
      case Err(e) => Failed(e)
  }

  method Run(parse: Parser, store: seq<Rule>, lib: string, tree: Node) returns (r: RunResult)
    ensures r == RunResultOf(parse, store, lib, tree)
  {
    var moduleAlias := FindModuleAlias(tree, lib);
    if moduleAlias.None? {
      return Unchanged;
    }
    var rules := FindRulesByLib(store, lib);
    var t := tree;
    for i := 0 to |rules|
      invariant ApplyRules(parse, rules[..i], moduleAlias.value, tree) == Ok(t)
    {
      var next := ApplyRule(parse, rules[i], moduleAlias.value, t);
      ApplyRulesStep(parse, rules, i, moduleAlias.value, tree, t);
      if next.Err? {
        FailureEndsRun(parse, rules, i, moduleAlias.value, tree, next.error);
        return Failed(next.error);
      }
      t := next.value;
    }
    assert rules[..|rules|] == rules;
    return Converted(t);
  }

  /** One more rule of the loop: the prefix up to `i + 1` applies rule `i`
      to the prefix's tree. */
  lemma ApplyRulesStep(parse: Parser, rules: seq<Rule>, i: nat, moduleAlias: string, tree: Node, t: Node)
    requires i < |rules|
    requires ApplyRules(parse, rules[..i], moduleAlias, tree) == Ok(t)
    ensures ApplyRules(parse, rules[..i + 1], moduleAlias, tree) == ApplyRuleResult(parse, rules[i], moduleAlias, t)
  {
    assert rules[..i + 1][..i] == rules[..i];
  }

  /** An exception in rule `i` is the outcome of the whole sequence. */
  lemma FailureEndsRun(parse: Parser, rules: seq<Rule>, i: nat, moduleAlias: string, tree: Node, e: Error)
    requires i < |rules|
    requires ApplyRules(parse, rules[..i + 1], moduleAlias, tree) == Err(e)
    ensures ApplyRules(parse, rules, moduleAlias, tree) == Err(e)
  {
    RulesApplyInSequence(parse, rules[..i + 1], rules[i + 1..], moduleAlias, tree);
    assert rules[..i + 1] + rules[i + 1..] == rules;
  }

  /** Applying `a + b` is applying `a` and then `b` to its result; an
      exception in `a` ends it. */
  lemma {:induction false} RulesApplyInSequence(parse: Parser, a: seq<Rule>, b: seq<Rule>, moduleAlias: string, tree: Node)
    ensures ApplyRules(parse, a + b, moduleAlias, tree)
         == (match ApplyRules(parse, a, moduleAlias, tree)
             case Err(e) => Err(e)
             case Ok(t) => ApplyRules(parse, b, moduleAlias, t))
  {
    if b == [] {
      assert a + b == a;
    } else {
      assert (a + b)[..|a + b| - 1] == a + b[..|b| - 1];
      assert (a + b)[|a + b| - 1] == b[|b| - 1];
      RulesApplyInSequence(parse, a, b[..|b| - 1], moduleAlias, tree);
    }
  }

  /** A file that imports no alias of the library is left alone. */
  lemma NoImportNoRun(parse: Parser, store: seq<Rule>, lib: string, tree: Node)
    requires Matches(tree, lib, false) == []
    ensures RunResultOf(parse, store, lib, tree) == Unchanged
  {
  }

  /** Rules of other libraries and deactivated rules play no part in a run. */
  lemma OtherRulesIgnored(parse: Parser, store: seq<Rule>, x: Rule, lib: string, tree: Node)
    requires x.moduleName != lib || !x.active
    ensures RunResultOf(parse, store + [x], lib, tree) == RunResultOf(parse, store, lib, tree)
    ensures RunResultOf(parse, [x] + store, lib, tree) == RunResultOf(parse, store, lib, tree)
  {
    OtherRulesFiltered(store, x, lib);
  }

  lemma OtherRulesFiltered(store: seq<Rule>, x: Rule, lib: string)
    requires x.moduleName != lib || !x.active
    ensures FindRulesByLib(store + [x], lib) == FindRulesByLib(store, lib)
    ensures FindRulesByLib([x] + store, lib) == FindRulesByLib(store, lib)
  {
    FindRulesByLibAppend(store, [x], lib);
    FindRulesByLibAppend([x], store, lib);
    assert FindRulesByLib([x], lib) == [] by {
      assert [x][1..] == [];
    }
    assert FindRulesByLib(store, lib) + [] == FindRulesByLib(store, lib);
    assert [] + FindRulesByLib(store, lib) == FindRulesByLib(store, lib);
  }
}
