# updator — a Dafny model of the rewriting core

updator upgrades Python code that uses a library to a newer version of
the library's API. It works on syntax trees. Each rule of a library is
compiled from two pieces of text:

- the pattern to search, such as `math.pow($1, $2)`;
- the pattern to replace it with, such as `math.power($2, $1)`.

Wildcards in the patterns are written as follows:

- `$d` is a single wildcard: it captures one subtree;
- `$_` leads a list and captures the whole list;
- an empty replace pattern deletes the match.

A rule may be *assignment-scoped*. Its search and replace patterns are then
tried only after an assignment pattern such as `$1 = math.pow` has matched
somewhere earlier in the walk. In mode `"auto"` that assignment pattern and
the renumbered search and replace patterns are derived from the rule's
`property`.

The driver comes in three stages:

1. It finds the name under which the file imports the library.
2. It looks up the library's active rules in the rule store.
3. It applies the rules one after another, each to the tree the previous
   one left.

The model covers four files:

- the pattern compiler (`astPatternBuilder.py`), in `pattern_builder.dfy`;
- the structural matcher (`astcompare.py`), in `compare.dfy`;
- the rewriter (`astConverter.py`), in `converter.dfy`;
- the driver functions of `updator.py`, in `updator.dfy`.

The syntax tree itself is in `ast.dfy`. A node is a kind plus the named
fields that `ast.iter_fields` yields, in order. A deleted attribute is a
field that is absent.

The code is modelled in the form it has:

- The compiler and the matcher are pure functions.
- The matcher returns whether the comparison succeeded, together with the
  capture dictionary as it stands afterwards. Captures written before a
  mismatch stay in it, as they do in Python.
- The rewriter is the class `AstConverter`. Its fields are the templates,
  the captures, the sticky `foundAssign` flag and the first exception
  raised. Its methods walk the tree with loops over fields and child
  lists. Each method is proved equal to a post-order walk function
  (`VisitNode`, `VisitRoot`), and the lemmas are stated about that
  function.
- The alias finders of `findModuleAlias` are classes whose visits update
  `aliasModuleName`.

Parsing (`ast.parse`) is a function parameter of type
`string -> Option<seq<Node>>`. A rule store is a sequence of rules.

The code behaves as follows where a reader might expect otherwise, and the
model follows it:

- A failed match does not roll back the captures it wrote. This poisons
  later matches in the same pass; see `FailedMatchKeepsCaptures` and
  `StaleCaptureBlocksAssignment`.
- Constants compare with Python `==`, so the pattern `1` matches `True`.
- A wildcard that is the whole pattern is compared as a Name. It captures
  nothing.
- The root node is tested like any other node, but its replacement is
  thrown away, since the visit's result is discarded.
- In the assignment pass, a node that matches the assignment pattern is
  also tested against the search pattern at that same node.
- Wildcard numbers are not checked when a rule is compiled: a pattern may
  use `$3` without `$1`.
- A compile error, or an unbound wildcard in the replace pattern, raises
  an exception. That ends the whole run: the later rules do not run, and
  no converted tree is produced.
- `isRuleValid` in mode `"auto"` compiles only the assignment patterns,
  while `applyRule` compiles the plain patterns as well.
- The auto assignment pattern is alias-substituted twice. This is harmless
  for a file that imports the library under its own name
  (`OwnNameAssignmentPattern`).

## Model

| member | source | states |
|---|---|---|
| Ast.Lookup | updator-master/updator/astcompare.py:26 | `getattr` finds a field exactly when the node has one of that name, and returns that field's value |
| PatternBuilder.ReplaceBySelf | updator-master/updator/astPatternBuilder.py:62-63 | substituting the module name by itself (a file importing the library under its own name) leaves a pattern unchanged, however often it occurs |
| PatternBuilder.ReplaceAbsent | updator-master/updator/astPatternBuilder.py:62-63 | a pattern that does not mention the module name is not changed by alias substitution |
| PatternBuilder.ReplaceIdentity | updator-master/updator/astPatternBuilder.py:62-63 | `str.replace` leaves the text alone when the target is its own replacement, or a non-empty target does not occur |
| PatternBuilder.HandleAlias | updator-master/updator/astPatternBuilder.py:62-63 | alias substitution is the identity for a file importing the library under its own name, and for a pattern that does not mention the module |
| PatternBuilder.ReplaceLeftmost | updator-master/updator/astPatternBuilder.py:62-63 | `str.replace` rewrites the leftmost occurrence and resumes after it (non-overlapping, left to right) |
| PatternBuilder.SubSignDigitsNoSign | updator-master/updator/astPatternBuilder.py:71 | the `$`-digit substitution leaves text without `$` unchanged |
| PatternBuilder.SubSignDigitsAppend | updator-master/updator/astPatternBuilder.py:71 | the substitution is local: text not ending in `$` is rewritten independently of what follows |
| PatternBuilder.SignDigitRewritten | updator-master/updator/astPatternBuilder.py:58 | a `$` and a digit, wherever they stand after text not ending in `$`, are handed to the replacement function and the scan resumes right after the digit |
| PatternBuilder.DefineWildcard | updator-master/updator/astPatternBuilder.py:74-76 | the id made from `$d` is a single wildcard, not the multi-wildcard, and ends in d |
| PatternBuilder.IncreaseWildcardNum | updator-master/updator/astPatternBuilder.py:65-67 | `$d` becomes `$` followed by the canonical decimal text of d + 1 (no leading zero); `$9` becomes `$10` |
| PatternBuilder.NumberText | updator-master/updator/astPatternBuilder.py:67 | `str` of an integer from 1 to 10 is its decimal text without a leading zero |
| PatternBuilder.ReplacingWildCardSigns | updator-master/updator/astPatternBuilder.py:69-76 | after wildcard renaming no `$` followed by a digit is left in the pattern |
| PatternBuilder.DefinedWildcardsClean | updator-master/updator/astPatternBuilder.py:71-76 | every `$d` is consumed by the renaming scan, and the scan does not make a leading digit appear |
| PatternBuilder.IsWildcard | updator-master/updator/astPatternBuilder.py:78-81 | an id is a wildcard iff it is the single-wildcard id plus exactly one character, or the multi-wildcard id |
| PatternBuilder.IsSingleWildcard | updator-master/updator/astPatternBuilder.py:83-85 | an id counts as single wildcard iff dropping its last character leaves either wildcard id |
| PatternBuilder.IsMultiWildcard | updator-master/updator/astPatternBuilder.py:87-88 | the multi-wildcard id is a wildcard but not a single one |
| PatternBuilder.WildcardIdentifiers | updator-master/updator/astPatternBuilder.py:74-88 | a compiled `$d` is a wildcard, single and not multi; the multi-wildcard id is a wildcard but not a single one |
| PatternBuilder.TwoDigitSign | updator-master/updator/astPatternBuilder.py:71-85 | `$12` keeps only its first digit in the id, and the resulting id is no wildcard at all |
| PatternBuilder.ParsedTemplate | updator-master/updator/astPatternBuilder.py:26-29 | an expression statement is replaced by its value; an Attribute or Subscript, at the top or as that value, keeps its kind and every other field and loses its `ctx`; any other statement is used as parsed |
| PatternBuilder.DropCtx | updator-master/updator/astPatternBuilder.py:28-29 | `del pattern.ctx` keeps the kind and every other field and leaves no `ctx` |
| PatternBuilder.PreparePattern | updator-master/updator/astPatternBuilder.py:18-31 | empty text is the deletion sentinel and is never parsed; otherwise it fails iff the renamed, alias-substituted text does not parse or has no statement, and else yields the first statement as a template |
| PatternBuilder.PrepareRule | updator-master/updator/astPatternBuilder.py:10-16 | a plain rule compiles iff both patterns do, into their two templates |
| PatternBuilder.AssignmentTexts | updator-master/updator/astPatternBuilder.py:33-41 | "auto" needs `property` and derives the three texts from it; any other mode needs `assignmentPattern` and uses the rule's texts unchanged |
| PatternBuilder.CreateAssignmentRule | updator-master/updator/astPatternBuilder.py:33-50 | an assignment rule compiles iff its texts exist and all three compile, and then holds the three templates |
| PatternBuilder.CreateAssignmentPattern | updator-master/updator/astPatternBuilder.py:52-54 | the assignment pattern is `$1 = <property>` when the alias is the module name or the module name does not occur in it |
| PatternBuilder.OwnNameAssignmentPattern | updator-master/updator/astPatternBuilder.py:52-54 | under the library's own name the double alias substitution of the auto assignment pattern changes nothing |
| PatternBuilder.RenumberExample | updator-master/updator/astPatternBuilder.py:65-67 | `$1`, `$2` are renumbered to `$2`, `$3` and the surrounding text is kept |
| PatternBuilder.ConvertExample | updator-master/updator/astPatternBuilder.py:56-60 | renumbering happens before the property is replaced by `$1`, so that `$1` is not renumbered |
| PatternBuilder.ConvertAtProperty | updator-master/updator/astPatternBuilder.py:56-60 | for any pattern, the property at its front becomes `$1` and the rest is converted on its own, so the inserted `$1` is never renumbered |
| PatternBuilder.ConvertAtSign | updator-master/updator/astPatternBuilder.py:56-60 | for any pattern and a property starting like a name, a leading `$d` becomes `$` and the text of d + 1, and the rest is converted on its own |
| PatternBuilder.ConvertLeavesPlainText | updator-master/updator/astPatternBuilder.py:56-60 | a pattern with no `$` and no occurrence of the property is not changed |
| Compare.TreatWildcard | updator-master/updator/astcompare.py:63-78 | in assignment mode an already bound capture is never overwritten and only re-matches a Name with the same id; otherwise the capture is stored, replacing an earlier one |
| Compare.AssertAstLike | updator-master/updator/astcompare.py:17-51 | a kind mismatch fails with the captures untouched; captures only grow, and in assignment mode bound ones are kept |
| Compare.IsAstLike | updator-master/updator/astcompare.py:85-91 | the test returns the outcome with every capture written, even on a mismatch: captures only grow, bound ones are kept in assignment mode, a kind mismatch fails with the captures untouched |
| Compare.CheckFields | updator-master/updator/astcompare.py:25-51 | the per-field loop only adds captures, and keeps bound ones in assignment mode |
| Compare.CheckField | updator-master/updator/astcompare.py:28-51 | the same for one field of each shape (list, node, plain value) |
| Compare.FieldFailureEndsFields | updator-master/updator/astcompare.py:25-51 | a template field whose check fails whatever the captures makes the whole field loop fail, whatever the fields before it do |
| Compare.PrimMismatchFails | updator-master/updator/astcompare.py:48-51 | a primitive template field that is not a single-wildcard id fails the comparison when the sample field is absent, not primitive, or not `==` to it |
| Compare.ChildMismatchFails | updator-master/updator/astcompare.py:41-46 | a child template field that is not a single wildcard fails the comparison when the sample child is absent or of another kind |
| Compare.OnlyTemplateFields | updator-master/updator/astcompare.py:25-26 | only the template's fields are compared: samples agreeing on the template's field names compare alike, whatever their other fields |
| Compare.CtxFreeTemplate | updator-master/updator/astPatternBuilder.py:28-29 | a template whose ctx was deleted compares an attribute read and an attribute write alike |
| Compare.CheckNodeList | updator-master/updator/astcompare.py:6-15 | lists of different length never match and capture nothing; captures only grow |
| Compare.CheckPairs | updator-master/updator/astcompare.py:11-15 | the element-by-element loop only adds captures, and keeps bound ones in assignment mode |
| Compare.CheckPairsAppend | updator-master/updator/astcompare.py:11-15 | two equal-length lists split anywhere match iff the first parts match pair by pair and then the second parts match with the captures the first parts left |
| Compare.WildcardSlot | updator-master/updator/astcompare.py:11-13 | a single wildcard at any position of a template list goes through treatWildcard with the sample element at that position, after the elements before it and before those after it; outside assignment mode it captures that element |
| Compare.MatchReflexive | updator-master/updator/astcompare.py:17-51 | a pattern without wildcards matches the code it was built from, in either mode, and captures nothing |
| Compare.SingleWildcardCapturesSubtree | updator-master/updator/astcompare.py:41-43 | a single wildcard in a child position matches any field value and captures it |
| Compare.SingleWildcardCapturesElement | updator-master/updator/astcompare.py:11-13 | in a one-element template list a single wildcard goes through treatWildcard with the sample element, and captures it outside assignment mode |
| Compare.MultiWildcardCapturesList | updator-master/updator/astcompare.py:29-32 | a list led by `$_` captures the whole sample list of any length; the rest of the template list is ignored |
| Compare.EmptyListTemplate | updator-master/updator/astcompare.py:28-39 | an empty template list matches exactly an empty sample list |
| Compare.ConstantsCompareLikePython | updator-master/updator/astcompare.py:48-51 | constants compare with Python `==`: `1` matches `True`; `True` against `2` is a mismatch in the model, where Python raises (see Left out) |
| Compare.RootWildcardCapturesNothing | updator-master/updator/astcompare.py:17-23 | a wildcard that is the whole pattern matches every Name of its context and captures nothing, and fails on any other kind |
| Compare.OtherContextFails | updator-master/updator/astcompare.py:41-46 | a Name pattern, the whole-pattern wildcard included, fails on a Name of another context |
| Compare.FailedMatchKeepsCaptures | updator-master/updator/astcompare.py:63-70 | `$1 = m.p` tried on `x = v` fails, yet the capture of `x` stays in the dictionary |
| Compare.StaleCaptureBlocksAssignment | updator-master/updator/astcompare.py:63-68 | with that stale capture, `a = m.p` no longer matches the assignment pattern |
| Compare.AssignmentPatternCaptures | updator-master/updator/astcompare.py:17-70 | from an empty dictionary `$1 = m.p` matches `a = m.p` and captures the target `a` |
| Converter.GetReplacedNode | updator-master/updator/astConverter.py:75-83 | replacing keeps the captures and the flag; a new exception is an unbound wildcard or a failed copy_location, and an earlier exception stays the one reported |
| Converter.Step | updator-master/updator/astConverter.py:32-71 | the test at one node keeps the pass invariant: captures only grow, bound ones are kept in the assignment pass, `foundAssign` is sticky and only set there, the first exception persists |
| Converter.VisitNode | updator-master/updator/astConverter.py:28-71 | a post-order visit of a subtree keeps the same invariant |
| Converter.VisitRoot | updator-master/updator/astConverter.py:19-73 | a whole pass keeps the root's kind (the root itself is never replaced) and the invariant |
| Converter.UntouchedNode | updator-master/updator/astConverter.py:28-71 | a subtree with no node of a tested kind comes back unchanged and leaves the state alone; in the assignment pass, while `foundAssign` is unset, the search kind is not tested |
| Converter.UntouchedTree | updator-master/updator/astConverter.py:19-73 | the same for a whole pass over a tree |
| Converter.StepSetsFoundAssign | updator-master/updator/astConverter.py:59-60 | in the assignment pass `foundAssign` is set at a node iff it was set before or the assignment pattern matches there |
| Converter.GatedNode | updator-master/updator/astConverter.py:53-71 | in the assignment pass, for any subtree (search-kind nodes included), if the walk ends with `foundAssign` unset the subtree comes back unchanged and no exception is raised |
| Converter.GatedTree | updator-master/updator/astConverter.py:42-73 | the same for a whole assignment pass: a tree in which the assignment pattern never matched is returned unchanged |
| Converter.DeletedStatementVanishes | updator-master/updator/astConverter.py:32-36 | with an empty replace pattern a matching call statement is deleted, and its now-empty Expr is pruned from the statement list |
| Converter.EmptyCapturesInsertTemplate | updator-master/updator/astConverter.py:76-81 | with no captures the replace template itself is inserted, unfilled and unwrapped |
| Converter.Keep | updator-master/updator/astConverter.py:35-38 | a node that is not replaced is kept, or dropped (None) exactly when it is an Expr without a `value` field |
| Ast.InvalidNodes | updator-master/updator/astConverter.py:118-127 | isInvalidNode holds exactly for an Expr with no `value` field; an Expr built around a value is never invalid |
| Converter.WrapOnlyCallForAssign | updator-master/updator/astConverter.py:102-113 | wrapToNewLine changes its argument iff a Call replaces an Assign, and then wraps it in an Expr |
| Converter.FillOutcome | updator-master/updator/astConverter.py:85-100 | filling raises iff a wildcard of the template has no capture, and names such a wildcard; a template without wildcards comes back unchanged |
| Converter.FillReplacesAll | updator-master/updator/astConverter.py:85-100 | when every wildcard of the template has a capture and the captures hold no wildcard, the filled result has no wildcard left anywhere |
| Converter.FillListAt | updator-master/updator/astConverter.py:92-100 | a captured wildcard at any position of a template list is replaced by its own capture, spliced in place, the rest filled on its own |
| Converter.FillFieldAt | updator-master/updator/astConverter.py:92-100 | a captured wildcard as a single child, at any position among the fields, is replaced by its own capture (or the field deleted if that is None) |
| Converter.MultiCaptureSpliced | updator-master/updator/astConverter.py:92-100 | a `$_` element of a template list is replaced by the captured list, spliced in place |
| Converter.NestedCallsRewrittenInnermostFirst | updator-master/updator/astConverter.py:28-33 | in `f(f(x, k1), k2)` under `f($1, $2)`→`g($2, $1)` the inner call is rewritten first and the outer match sees the rewritten inner call |
| Converter.AstConverter.constructor | updator-master/updator/astConverter.py:11-17 | the converter of a plain rule holds its templates, the given captures, no assignment pattern |
| Converter.AstConverter.ForAssignment | updator-master/updator/astConverter.py:11-17 | the converter of an assignment rule also holds the assignment pattern |
| Converter.AstConverter.ScanAst | updator-master/updator/astConverter.py:19-40 | the in-place plain pass ends in the tree and state of `VisitRoot` |
| Converter.AstConverter.ScanAstForAssignment | updator-master/updator/astConverter.py:42-73 | the in-place assignment pass resets `foundAssign` and ends as `VisitRoot` does |
| Converter.AstConverter.Visit | updator-master/updator/astConverter.py:29-38 | one visit updates the object's state as `VisitNode` says |
| Converter.AstConverter.VisitFieldsOf | updator-master/updator/astConverter.py:30 | the loop over a node's fields stores back each visited field as `VisitFields` says |
| Converter.AstConverter.VisitListOf | updator-master/updator/astConverter.py:30 | the loop over a child list splices each visit result as `VisitList` says |
| Converter.AstConverter.VisitFieldOf | updator-master/updator/astConverter.py:30 | one field is visited (a child, a list, or left as it is) as `VisitField` says |
| Converter.AstConverter.StepAt | updator-master/updator/astConverter.py:32-71 | the test at a node updates captures, flag and error as `Step` says |
| Converter.AstConverter.ReplacedNode | updator-master/updator/astConverter.py:75-83 | replacing a node updates the error slot as `GetReplacedNode` says |
| Updator.AliasFinder.constructor | updator-master/updator/updator.py:16-19 | a fresh finder has found no alias |
| Updator.AliasFinder.VisitAlias | updator-master/updator/updator.py:21-25 | an alias of the module records its asname, else its name; any other alias changes nothing |
| Updator.AliasFinder.Visit | updator-master/updator/updator.py:14-25 | after a visit the field holds the last alias recorded in visiting order, or its old value |
| Updator.AliasFinder.VisitValue | updator-master/updator/updator.py:14-25 | one field of `generic_visit` records what `Matches` lists for a child or a list, nothing for a plain value |
| Updator.AliasFinder.VisitList | updator-master/updator/updator.py:14-25 | a list is visited element by element, the last record winning |
| Updator.ImportFinder.Visit | updator-master/updator/updator.py:30-37 | only Import statements are handed to the alias finder |
| Updator.ImportFinder.VisitValue | updator-master/updator/updator.py:30-37 | one field of the walk outside Import statements records only what Import statements below it give |
| Updator.ImportFinder.VisitList | updator-master/updator/updator.py:30-37 | a statement list is visited in order, the last recorded alias winning |
| Updator.FindModuleAlias | updator-master/updator/updator.py:13-44 | the result is the alias of the last matching Import, None when no Import names the module |
| Updator.AliasLookupAsName | updator-master/updator/updator.py:21-25 | `import m as a` gives `a`; `import other as m` does not count |
| Updator.AliasLookupLastWins | updator-master/updator/updator.py:21-25 | a later `import m` overwrites an earlier `import m as a` |
| Updator.AliasLookupIgnoresImportFrom | updator-master/updator/updator.py:30-37 | `from m import m` is not an import of `m` |
| Updator.FindRulesByLib | updator-master/updator/dbInterface.py:35-36 | a rule is selected iff it belongs to the library and is active |
| Updator.FindRulesByLibAppend | updator-master/updator/dbInterface.py:35-36 | selection keeps the store's order |
| Updator.ModeDispatch | updator-master/updator/updator.py:46-58 | no mode runs the plain pass; "auto" runs the assignment pass and then the plain pass on its result; another non-empty mode only the assignment pass; the empty mode neither |
| Updator.ApplyAssignmentRule | updator-master/updator/updator.py:60-65 | compiling and running the assignment pass on an AstConverter gives the rule's specified outcome |
| Updator.ApplyRule | updator-master/updator/updator.py:46-58 | running the passes on AstConverter objects gives the outcome `ModeDispatch` describes |
| Updator.IsRuleValid | updator-master/updator/updator.py:79-87 | a rule is valid iff it compiles in the mode it is added with: assignment compilation for a truthy mode, the plain patterns otherwise |
| Updator.CreateRule | updator-master/updator/updator.py:89-99 | each optional key is set only from a truthy argument; everything else is left as it was |
| Updator.AcceptedRuleCompiles | updator-master/updator/updator.py:46-99 | a rule accepted by isRuleValid, not in mode "auto", applied to a file importing the library under its own name, raises no compile error |
| Updator.Run | updator-master/updator/updator.py:110-125 | the run loop gives what `RunResultOf` describes: no import, no change; otherwise the selected rules applied in order, an exception ending the run |
| Updator.RunResultOf | updator-master/updator/updator.py:117-125 | the run leaves the file unchanged iff no Import of the library is found; with an import and no selected rule the tree is written back as it was |
| Updator.RulesApplyInSequence | updator-master/updator/updator.py:124-125 | applying `a + b` is applying `a` and then `b` to its result; an exception in `a` stops it |
| Updator.ApplyRulesStep | updator-master/updator/updator.py:122-125 | one more iteration of the loop applies the next rule to the tree reached so far |
| Updator.FailureEndsRun | updator-master/updator/updator.py:122-125 | an exception raised by one rule is the outcome of the whole run; later rules do not run |
| Updator.NoImportNoRun | updator-master/updator/updator.py:117-120 | a file without an Import of the library is left unchanged |
| Updator.OtherRulesIgnored | updator-master/updator/updator.py:122-125 | rules of other libraries and inactive rules play no part in a run |

## Left out

- Reading and writing files, the command line, printing and `astor.to_source` are outside the model. The tree given to `Run` is the parsed file.
- The MongoDB rule store is not modelled. It is a sequence of rules; `findRulesByLib` is the filter at `dbInterface.py:35-36`.
- `ast.parse` is a function parameter. Python's grammar is not modelled.
- `showRules`, `add_rule` and the other commands are not modelled: they print, or talk to the store.
- `isAttrNodeEqualsToNameNode` and `addAliasToPatterns` are not modelled: nothing in the core calls them.
- Trees are values. A pass returns the rewritten tree instead of mutating it. The model loses two kinds of sharing:
  - when nothing was captured, the one replace template object is shared between matches;
  - a capture used twice is shared between two places in the tree.
- Source positions set by `copy_location` are not modelled. Only its failure on a list or None replacement is, as an error.
- An `AttributeError` or `TypeError` inside the matcher is modelled as a mismatch. This covers a missing sample attribute, and a non-string template value tested as a wildcard name. `is_ast_like` catches only `ASTMismatch` (`astcompare.py:90`), so in Python these exceptions end the run instead.
- ConstantsCompareLikePython: its second clause states the model's mismatch for template `True` against sample `2`. Python raises `TypeError` there, since `is_single_wildcard(True)` slices a bool (`astPatternBuilder.py:84`); the same holds for any unequal int, bool or None template constant. The run then ends with that exception.
- `\d` in the wildcard regular expressions is restricted to the ASCII digits.
- A visit result that is a plain value other than None, or a list, occurs only together with a failed `copy_location`, so the run has already failed. The model then drops a plain value from a list field. Python stops at the exception; past it, `generic_visit` would extend the list with a string's characters, or raise `TypeError` for an int.
- `is` comparisons of strings (`pattern is ""`, `is MULTI_WILDCARD_ID`) are modelled as equality.
- `VisitNode`: after the first exception the model keeps walking, but the run's result is then `Failed` and the tree is discarded. Python stops at once.
- `AcceptedRuleCompiles`: does not cover mode "auto". There `isRuleValid` does not compile the plain patterns that `applyRule` compiles. It also assumes a file that imports the library under its own name.
- `UntouchedNode`, `GatedNode`, `DeletedStatementVanishes` and `NestedCallsRewrittenInnermostFirst` assume the hypothesis `Avoids`, which among other things says that no Expr of the tree lacks its value. The parser never produces such an Expr; the transformer itself prunes one that loses its value.
- Node kinds are a closed set of 21 (`Module`, `Expr`, `Assign`, `Call`, `Keyword`, `Attribute`, `Subscript`, `Name`, `Constant`, `List`, `BinOp`, `Import`, `ImportFrom`, `Alias`, and the contexts and operators). Code with other statements or expressions, such as tuples, `for`, `if` or function definitions, is not modelled, and no lemma speaks about it.
- Primitive values are str, int, bool and None. Floats, bytes and complex numbers are not modelled, so neither is `1 == 1.0`.
