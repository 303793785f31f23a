/** The pattern compiler: turns the text of a rule into template trees
    (updator/astPatternBuilder.py). */
module PatternBuilder {
  import opened Common
  import opened Ast

  const SingleWildcardId: string := "__updator_wildcard"
  const MultiWildcardId: string := "__updator_multiwildcard"
  const MultiWildcardSign: string := "$_"
  const SingleWildcardSign: string := "$"

  /** A rule as the rule store keeps it.  The optional keys are None when the
      dictionary does not hold them. */
  datatype Rule = Rule(
    moduleName: string,
    patternToSearch: string,
    patternToReplace: string,
    property: Option<string>,
    assignmentPattern: Option<string>,
    assignmentRule: Option<string>,
    active: bool)

  /** `ast.parse(text).body`: the statements of the parsed module, or None when
      the text is not valid Python. */
  type Parser = string -> Option<seq<Node>>

  datatype CompiledRule = CompiledRule(patternToSearch: Option<Node>, patternToReplace: Option<Node>)

  datatype CompiledAssignmentRule =
    CompiledAssignmentRule(assignmentPattern: Option<Node>, patternToSearch: Option<Node>, patternToReplace: Option<Node>)

  // ---------------------------------------------------------------------------
  // Python's str.replace

  /** `target` occurs in `s` at index `i`. */
  predicate OccursAt(s: string, target: string, i: int)
  {
    0 <= i && i + |target| <= |s| && s[i..i + |target|] == target
  }

  ghost predicate Occurs(s: string, target: string)
  {
    exists i :: OccursAt(s, target, i)
  }

  /** `s.replace(target, replacement)`: every non-overlapping occurrence, left
      to right.  An empty target inserts the replacement around every
      character, as Python does. */
  function Replace(s: string, target: string, replacement: string): string
    decreases |s|
  {
    if target == [] then InsertEverywhere(s, replacement)
    else if |s| < |target| then s
    else if s[..|target|] == target then replacement + Replace(s[|target|..], target, replacement)
    else [s[0]] + Replace(s[1..], target, replacement)
  }

  function InsertEverywhere(s: string, replacement: string): string
  {
    if s == [] then replacement else replacement + [s[0]] + InsertEverywhere(s[1..], replacement)
  }

  /** Replacing a string by itself changes nothing. */
  lemma {:induction false} ReplaceBySelf(s: string, target: string)
    ensures Replace(s, target, target) == s
    decreases |s|
  {
    if target == [] {
      InsertEverywhereEmpty(s);
    } else if |s| < |target| {
    } else if s[..|target|] == target {
      ReplaceBySelf(s[|target|..], target);
      assert s == s[..|target|] + s[|target|..];
    } else {
      ReplaceBySelf(s[1..], target);
      assert s == [s[0]] + s[1..];
    }
  }

  lemma {:induction false} InsertEverywhereEmpty(s: string)
    ensures InsertEverywhere(s, []) == s
  {
    if s != [] {
      InsertEverywhereEmpty(s[1..]);
      assert s == [s[0]] + s[1..];
    }
  }

  /** The two cases in which Replace leaves its text alone. */
  lemma ReplaceIdentity(s: string, target: string, replacement: string)
    ensures target == replacement ==> Replace(s, target, replacement) == s
    ensures target != [] && !Occurs(s, target) ==> Replace(s, target, replacement) == s
  {
    if target == replacement { ReplaceBySelf(s, target); }
    if target != [] && !Occurs(s, target) { ReplaceAbsent(s, target, replacement); }
  }

  /** Text without an occurrence of the target is left alone. */
  lemma {:induction false} ReplaceAbsent(s: string, target: string, replacement: string)
    requires target != []
    requires !Occurs(s, target)
    ensures Replace(s, target, replacement) == s
    decreases |s|
  {
    if |s| < |target| {
    } else if s[..|target|] == target {
      assert OccursAt(s, target, 0);
    } else {
      forall i | OccursAt(s[1..], target, i) ensures OccursAt(s, target, i + 1) {
        assert s[1..][i..i + |target|] == s[i + 1..i + 1 + |target|];
      }
      ReplaceAbsent(s[1..], target, replacement);
      assert s == [s[0]] + s[1..];
    }
  }

  /** The leftmost occurrence is replaced and the scan resumes after it:
      for `s == pre + target + suf` with no occurrence of the target starting
      inside `pre`, the result is `pre`, the replacement, and the rewritten
      `suf`. */
  lemma {:induction false} ReplaceLeftmost(pre: string, target: string, suf: string, replacement: string)
    requires target != []
    requires forall j :: 0 <= j < |pre| ==> !OccursAt(pre + target + suf, target, j)
    ensures Replace(pre + target + suf, target, replacement) == pre + replacement + Replace(suf, target, replacement)
    decreases |pre|
  {
    if pre == [] {
      ReplaceAtStart(target, suf, replacement);
      assert pre + target + suf == target + suf;
      assert pre + replacement == replacement;
    } else {
      NoEarlierInTail(pre, target, suf);
      ReplaceLeftmost(pre[1..], target, suf, replacement);
      ReplaceKeepsFirst(pre, target, suf, replacement);
    }
  }

  /** An occurrence at the front is replaced and the scan resumes after it. */
  lemma {:induction false} ReplaceAtStart(target: string, suf: string, replacement: string)
    requires target != []
    ensures Replace(target + suf, target, replacement) == replacement + Replace(suf, target, replacement)
  {
    assert (target + suf)[..|target|] == target && (target + suf)[|target|..] == suf;
  }

  /** Dropping the first character of `pre` keeps the leftmost occurrence leftmost. */
  lemma {:induction false} NoEarlierInTail(pre: string, target: string, suf: string)
    requires pre != []
    requires forall j :: 0 <= j < |pre| ==> !OccursAt(pre + target + suf, target, j)
    ensures forall j :: 0 <= j < |pre| - 1 ==> !OccursAt(pre[1..] + target + suf, target, j)
  {
    var s := pre + target + suf;
    assert s[1..] == pre[1..] + target + suf;
    forall j | 0 <= j < |pre| - 1 ensures !OccursAt(pre[1..] + target + suf, target, j) {
      OccursAtTail(s, target, j);
    }
  }

  /** The step of the induction: with no occurrence at the front, the first
      character of `pre` is kept and the rest is the tail's result. */
  lemma {:induction false} ReplaceKeepsFirst(pre: string, target: string, suf: string, replacement: string)
    requires target != [] && pre != []
    requires !OccursAt(pre + target + suf, target, 0)
    requires Replace(pre[1..] + target + suf, target, replacement) == pre[1..] + replacement + Replace(suf, target, replacement)
    ensures Replace(pre + target + suf, target, replacement) == pre + replacement + Replace(suf, target, replacement)
  {
    FrontAndTail(pre, target + suf);
    KeepStep(pre + target + suf, pre[1..] + target + suf, pre, target, replacement, Replace(suf, target, replacement));
  }

  /** The head and the tail of a non-empty prefix followed by more text. */
  lemma {:induction false} FrontAndTail(pre: string, rest: string)
    requires pre != []
    ensures (pre + rest)[0] == pre[0] && (pre + rest)[1..] == pre[1..] + rest
  {
  }

  /** The induction step stated on whole strings, free of concatenations. */
  lemma {:induction false} KeepStep(s: string, t: string, pre: string, target: string, replacement: string, rest: string)
    requires target != [] && pre != [] && s != []
    requires s[0] == pre[0] && s[1..] == t
    requires !OccursAt(s, target, 0)
    requires Replace(t, target, replacement) == pre[1..] + replacement + rest
    ensures Replace(s, target, replacement) == pre + replacement + rest
  {
    ReplaceSkip(s, target, replacement);
    Regroup(pre, replacement, rest, Replace(s, target, replacement), Replace(t, target, replacement));
  }

  /** Putting the kept first character back in front of the tail's result. */
  lemma {:induction false} Regroup(pre: string, r: string, rest: string, whole: string, tailResult: string)
    requires pre != []
    requires whole == [pre[0]] + tailResult
    requires tailResult == pre[1..] + r + rest
    ensures whole == pre + r + rest
  {
    assert [pre[0]] + pre[1..] == pre;
  }

  /** Without an occurrence at the front, the first character is kept. */
  lemma {:induction false} ReplaceSkip(s: string, target: string, replacement: string)
    requires target != [] && s != [] && !OccursAt(s, target, 0)
    ensures Replace(s, target, replacement) == [s[0]] + Replace(s[1..], target, replacement)
  {
    if |s| >= |target| {
      assert s[..|target|] != target by { assert s[0..0 + |target|] == s[..|target|]; }
    }
    else {
      assert |s[1..]| < |target|;
      assert [s[0]] + s[1..] == s;
    }
  }

  /** An occurrence in the tail is an occurrence one position later in the whole. */
  lemma OccursAtTail(s: string, target: string, j: nat)
    requires s != []
    ensures OccursAt(s[1..], target, j) <==> OccursAt(s, target, j + 1)
  {
    if j + |target| <= |s| - 1 {
      assert s[1..][j..j + |target|] == s[j + 1..j + 1 + |target|];
    }
  }

  // ---------------------------------------------------------------------------
  // re.sub(r'[$]\d', repl, text), scanned left to right

  predicate IsDigit(c: char) { '0' <= c <= '9' }

  function DigitValue(c: char): int
    requires IsDigit(c)
  {
    c as int - '0' as int
  }

  /** Every `$` followed by one digit d is replaced by repl(d); only that one
      digit is consumed, and the scan resumes after it. */
  function SubSignDigits(s: string, repl: char -> string): string
    decreases |s|
  {
    if |s| >= 2 && s[0] == '$' && IsDigit(s[1]) then repl(s[1]) + SubSignDigits(s[2..], repl)
    else if s == [] then []
    else [s[0]] + SubSignDigits(s[1..], repl)
  }

  /** Text without a `$` is left alone. */
  lemma {:induction false} SubSignDigitsNoSign(s: string, repl: char -> string)
    requires '$' !in s
    ensures SubSignDigits(s, repl) == s
    decreases |s|
  {
    if s != [] {
      assert s[0] in s;
      assert forall c :: c in s[1..] ==> c in s;
      SubSignDigitsNoSign(s[1..], repl);
      assert s == [s[0]] + s[1..];
    }
  }

  /** The scan is local: text that does not end in `$` is rewritten on its own,
      whatever follows it. */
  lemma {:induction false} SubSignDigitsAppend(a: string, b: string, repl: char -> string)
    requires a == [] || a[|a| - 1] != '$'
    ensures SubSignDigits(a + b, repl) == SubSignDigits(a, repl) + SubSignDigits(b, repl)
    decreases |a|
  {
    if a == [] {
      assert a + b == b;
    } else if |a| >= 2 && a[0] == '$' && IsDigit(a[1]) {
      assert (a + b)[2..] == a[2..] + b;
      SubSignDigitsAppend(a[2..], b, repl);
    } else if |a| == 1 {
      assert a[0] != '$';
      assert (a + b)[1..] == b;
    } else {
      assert (a + b)[1..] == a[1..] + b;
      SubSignDigitsAppend(a[1..], b, repl);
    }
  }

  /** A `$` and a digit after text that does not end in `$` are handed to
      repl, and the scan goes on right after the digit. */
  lemma SignDigitRewritten(a: string, d: char, b: string, repl: char -> string)
    requires a == [] || a[|a| - 1] != '$'
    requires IsDigit(d)
    ensures SubSignDigits(a + ['$', d] + b, repl) == SubSignDigits(a, repl) + repl(d) + SubSignDigits(b, repl)
  {
    assert a + ['$', d] + b == a + (['$', d] + b);
    SubSignDigitsAppend(a, ['$', d] + b, repl);
    assert (['$', d] + b)[2..] == b;
  }

  /** defineWildcard: `$d` becomes the single-wildcard identifier with d. */
  function DefineWildcard(d: char): (r: string)
    ensures IsWildcard(r) && IsSingleWildcard(r) && !IsMultiWildcard(r) && r[|r| - 1] == d
  {
    assert (SingleWildcardId + [d])[..|SingleWildcardId|] == SingleWildcardId;
    SingleWildcardId + [d]
  }

  /** increaseWildcardNum: `$d` becomes `$` followed by the decimal text of
      d + 1, so `$9` becomes `$10`. */
  function IncreaseWildcardNum(d: char): (r: string)
    ensures IsDigit(d) ==> |r| >= 2 && r[0] == '$' && IsDecimalText(r[1..], DigitValue(d) + 1)
    ensures d == '9' ==> r == "$10"
  {
    if IsDigit(d) then
      var t := NumberText(DigitValue(d) + 1);
      assert (SingleWildcardSign + t)[1..] == t;
      SingleWildcardSign + t
    else SingleWildcardSign + [d]
  }

  /** str(v) for 1 <= v <= 10. */
  function NumberText(v: int): (r: string)
    requires 1 <= v <= 10
    ensures IsDecimalText(r, v)
  {
    if v < 10 then
      var r := [('0' as int + v) as char];
      assert r[..0] == [];
      r
    else
      assert "10"[..1] == "1" && "1"[..0] == [];
      "10"
  }

  /** The value of a string of decimal digits, read left to right. */
  function DecimalValue(s: string): int
    requires forall i :: 0 <= i < |s| ==> IsDigit(s[i])
  {
    if s == [] then 0 else 10 * DecimalValue(s[..|s| - 1]) + DigitValue(s[|s| - 1])
  }

  /** `s` is what Python's str gives for the positive integer n: decimal
      digits without a leading zero. */
  predicate IsDecimalText(s: string, n: int)
  {
    && s != [] && s[0] != '0'
    && (forall i :: 0 <= i < |s| ==> IsDigit(s[i]))
    && DecimalValue(s) == n
  }

  /** No `$` left that is followed by a digit. */
  predicate NoSignDigit(s: string)
  {
    forall i :: 0 <= i < |s| - 1 && s[i] == '$' ==> !IsDigit(s[i + 1])
  }

  /** replacingWildCardSigns: every `$_` becomes the multi-wildcard identifier,
      then every `$d` the single-wildcard identifier ending in d. */
  function ReplacingWildCardSigns(pattern: string): (r: string)
    ensures NoSignDigit(r)
  {
    var s := Replace(pattern, MultiWildcardSign, MultiWildcardId);
    DefinedWildcardsClean(s);
    SubSignDigits(s, DefineWildcard)
  }

  /** After the defineWildcard scan no `$`digit pair is left, and the result
      starts with a digit only when the input does. */
  lemma {:induction false} DefinedWildcardsClean(s: string)
    ensures NoSignDigit(SubSignDigits(s, DefineWildcard))
    ensures s != [] && !IsDigit(s[0]) ==> SubSignDigits(s, DefineWildcard) != [] && !IsDigit(SubSignDigits(s, DefineWildcard)[0])
    decreases |s|
  {
    var r := SubSignDigits(s, DefineWildcard);
    if |s| >= 2 && s[0] == '$' && IsDigit(s[1]) {
      DefinedWildcardsClean(s[2..]);
      var head := DefineWildcard(s[1]);
      var rest := SubSignDigits(s[2..], DefineWildcard);
      assert r == head + rest;
      assert '$' !in head;
      forall i | 0 <= i < |r| - 1 && r[i] == '$' ensures !IsDigit(r[i + 1]) {
        assert i >= |head|;
        assert r[i] == rest[i - |head|] && r[i + 1] == rest[i + 1 - |head|];
      }
    } else if s != [] {
      DefinedWildcardsClean(s[1..]);
      var rest := SubSignDigits(s[1..], DefineWildcard);
      assert r == [s[0]] + rest;
      forall i | 0 <= i < |r| - 1 && r[i] == '$' ensures !IsDigit(r[i + 1]) {
        if i == 0 {
          assert s[0] == '$';
          assert |s| >= 2 && !IsDigit(s[1]);
          assert r[1] == rest[0];
        } else {
          assert r[i] == rest[i - 1] && r[i + 1] == rest[i];
        }
      }
    }
  }

  /** handleAlias: plain substring replacement of the module name by its alias. */
  function HandleAlias(pattern: string, moduleName: string, alias: string): (r: string)
    ensures moduleName == alias ==> r == pattern
    ensures moduleName != [] && !Occurs(pattern, moduleName) ==> r == pattern
  {
    ReplaceIdentity(pattern, moduleName, alias);
    Replace(pattern, moduleName, alias)
  }

  /** The text preparePattern hands to the parser. */
  function PatternText(pattern: string, alias: string, moduleName: string): string
  {
    HandleAlias(ReplacingWildCardSigns(pattern), moduleName, alias)
  }

  // ---------------------------------------------------------------------------
  // Wildcard tests

  /** is_wildcard: the single-wildcard identifier plus exactly one character,
      or the multi-wildcard identifier. */
  function IsWildcard(id: string): (r: bool)
    ensures r <==> (|id| == |SingleWildcardId| + 1 && id[..|SingleWildcardId|] == SingleWildcardId)
                   || id == MultiWildcardId
  {
    (|id| > 0 && id[..|id| - 1] == SingleWildcardId) || id == MultiWildcardId
  }

  /** is_single_wildcard: dropping the last character leaves one of the two
      identifiers. */
  function IsSingleWildcard(id: string): (r: bool)
    ensures r <==> (|id| == |SingleWildcardId| + 1 && id[..|SingleWildcardId|] == SingleWildcardId)
                   || (|id| == |MultiWildcardId| + 1 && id[..|MultiWildcardId|] == MultiWildcardId)
  {
    |id| > 0 && id[..|id| - 1] in [SingleWildcardId, MultiWildcardId]
  }

  /** is_multi_wildcard: the multi-wildcard identifier itself. */
  function IsMultiWildcard(id: string): (r: bool)
    ensures r ==> IsWildcard(id) && !IsSingleWildcard(id)
  {
    id == MultiWildcardId
  }

  /** The multi-wildcard identifier is a wildcard to instantiate but not a
      single wildcard to the matcher; a `$d` sign compiles to an identifier
      that is both. */
  lemma WildcardIdentifiers(d: char)
    requires IsDigit(d)
    ensures IsWildcard(MultiWildcardId) && !IsSingleWildcard(MultiWildcardId)
    ensures IsWildcard(DefineWildcard(d)) && IsSingleWildcard(DefineWildcard(d))
    ensures !IsMultiWildcard(DefineWildcard(d))
  {
    assert DefineWildcard(d)[..|SingleWildcardId|] == SingleWildcardId;
  }

  /** `$12` keeps only the first digit in the identifier, which then ends in
      "12" and is no wildcard. */
  lemma TwoDigitSign()
    ensures ReplacingWildCardSigns("$12") == SingleWildcardId + "12"
    ensures !IsWildcard(SingleWildcardId + "12") && !IsSingleWildcard(SingleWildcardId + "12")
  {
    var s := "$12";
    assert !OccursAt(s, MultiWildcardSign, 0) by { assert s[0..2][1] == '1'; }
    assert !OccursAt(s, MultiWildcardSign, 1) by { assert s[1..3][1] == '2'; }
    assert !Occurs(s, MultiWildcardSign);
    ReplaceAbsent(s, MultiWildcardSign, MultiWildcardId);
    assert s[2..] == "2";
    var id := SingleWildcardId + "12";
    assert id[..|SingleWildcardId|] == SingleWildcardId;
  }

  // ---------------------------------------------------------------------------
  // Compilation

  /** Unwrap an expression statement and drop the context of a top-level
      Attribute or Subscript. */
  function ParsedTemplate(stmt: Node): (r: Node)
    ensures stmt.kind != Expr && stmt.kind != Attribute && stmt.kind != Subscript ==> r == stmt
    // an expression statement is replaced by its value ...
    ensures stmt.kind == Expr && Lookup(stmt.fields, "value").Some? && Lookup(stmt.fields, "value").value.Child? ==>
              var v := Lookup(stmt.fields, "value").value.node;
              (v.kind != Attribute && v.kind != Subscript ==> r == v) &&
              (v.kind == Attribute || v.kind == Subscript ==>
                 r.kind == v.kind && Lookup(r.fields, "ctx") == None &&
                 forall f :: f in r.fields <==> f in v.fields && f.name != "ctx")
    // ... and a top-level Attribute or Subscript loses its ctx and nothing else
    ensures stmt.kind == Attribute || stmt.kind == Subscript ==>
              r.kind == stmt.kind && Lookup(r.fields, "ctx") == None &&
              forall f :: f in r.fields <==> f in stmt.fields && f.name != "ctx"
  {
    var n := if stmt.kind == Expr && Lookup(stmt.fields, "value").Some? && Lookup(stmt.fields, "value").value.Child?
             then Lookup(stmt.fields, "value").value.node else stmt;
    if n.kind == Attribute || n.kind == Subscript then DropCtx(n) else n
  }

  /** `del node.ctx`: the node keeps every other field, nested nodes included. */
  function DropCtx(n: Node): (r: Node)
    ensures r.kind == n.kind
    ensures Lookup(r.fields, "ctx") == None
    ensures forall f :: f in r.fields <==> f in n.fields && f.name != "ctx"
  {
    Node(n.kind, RemoveField(n.fields, "ctx"))
  }

  function RemoveField(fs: seq<Field>, name: string): (r: seq<Field>)
    ensures forall f :: f in r <==> f in fs && f.name != name
  {
    if fs == [] then []
    else if fs[0].name == name then RemoveField(fs[1..], name)
    else [fs[0]] + RemoveField(fs[1..], name)
  }

  /** preparePattern: empty text is the deletion sentinel None and is not
      parsed; any other text is parsed after wildcard and alias
      substitution. */
  function PreparePattern(parse: Parser, pattern: string, alias: string, moduleName: string): (r: Result<Option<Node>>)
    ensures pattern == "" <==> r == Ok(None)
    ensures r.Ok? && r.value.Some? ==>
              parse(PatternText(pattern, alias, moduleName)).Some? &&
              |parse(PatternText(pattern, alias, moduleName)).value| > 0 &&
              r.value.value == ParsedTemplate(parse(PatternText(pattern, alias, moduleName)).value[0])
    ensures r.Err? <==> pattern != "" && (parse(PatternText(pattern, alias, moduleName)).None? ||
                                          parse(PatternText(pattern, alias, moduleName)).value == [])
  {
    if pattern == "" then Ok(None)
    else
      match parse(PatternText(pattern, alias, moduleName))
      case None => Err(SyntaxError)
      case Some(body) => if body == [] then Err(EmptyBody) else Ok(Some(ParsedTemplate(body[0])))
  }

  /** prepareRule: the search and replace templates of a plain rule. */
  function PrepareRule(parse: Parser, rule: Rule, alias: string): (r: Result<CompiledRule>)
    ensures r.Ok? <==> PreparePattern(parse, rule.patternToSearch, alias, rule.moduleName).Ok? &&
                       PreparePattern(parse, rule.patternToReplace, alias, rule.moduleName).Ok?
    ensures r.Ok? ==> r.value.patternToSearch == PreparePattern(parse, rule.patternToSearch, alias, rule.moduleName).value &&
                      r.value.patternToReplace == PreparePattern(parse, rule.patternToReplace, alias, rule.moduleName).value
  {
    var search :- PreparePattern(parse, rule.patternToSearch, alias, rule.moduleName);
    var replace :- PreparePattern(parse, rule.patternToReplace, alias, rule.moduleName);
    Ok(CompiledRule(search, replace))
  }

  /** createAssignmentPattern: `$1 = <property>`, alias substituted. */
  function CreateAssignmentPattern(property: string, moduleName: string, alias: string): (r: string)
    ensures moduleName == alias ==> r == SingleWildcardSign + "1 = " + property
    ensures moduleName != [] && !Occurs(SingleWildcardSign + "1 = " + property, moduleName)
            ==> r == SingleWildcardSign + "1 = " + property
  {
    HandleAlias(SingleWildcardSign + "1 = " + property, moduleName, alias)
  }

  /** The assignment pattern of an "auto" rule goes through handleAlias twice,
      once in createAssignmentPattern and again in preparePattern; for a file
      that imports the library under its own name both passes leave the text
      alone, and the compiled text is `$1 = <property>` with its wildcards
      renamed. */
  lemma OwnNameAssignmentPattern(property: string, moduleName: string)
    ensures PatternText(CreateAssignmentPattern(property, moduleName, moduleName), moduleName, moduleName)
         == ReplacingWildCardSigns(SingleWildcardSign + "1 = " + property)
  {
    ReplaceBySelf(SingleWildcardSign + "1 = " + property, moduleName);
    ReplaceBySelf(ReplacingWildCardSigns(SingleWildcardSign + "1 = " + property), moduleName);
  }

  /** convertPatternToAssignment: first `$d` becomes `$(d+1)`, then every
      occurrence of the property becomes `$1`. */
  function ConvertPatternToAssignment(pattern: string, property: string): string
  {
    Replace(SubSignDigits(pattern, IncreaseWildcardNum), property, SingleWildcardSign + "1")
  }

  /** A pattern without wildcards or occurrences of the property is kept. */
  lemma ConvertLeavesPlainText(pattern: string, property: string)
    requires '$' !in pattern && property != [] && !Occurs(pattern, property)
    ensures ConvertPatternToAssignment(pattern, property) == pattern
  {
    SubSignDigitsNoSign(pattern, IncreaseWildcardNum);
    ReplaceAbsent(pattern, property, SingleWildcardSign + "1");
  }

  /** The property at the front of a pattern becomes `$1` and the rest is
      converted on its own: the `$1` is put in after the renumbering and is
      not renumbered itself. */
  lemma ConvertAtProperty(property: string, rest: string)
    requires property != [] && '$' !in property
    ensures ConvertPatternToAssignment(property + rest, property)
         == SingleWildcardSign + "1" + ConvertPatternToAssignment(rest, property)
  {
    assert property[|property| - 1] in property;
    SubSignDigitsAppend(property, rest, IncreaseWildcardNum);
    SubSignDigitsNoSign(property, IncreaseWildcardNum);
    ReplaceAtStart(property, SubSignDigits(rest, IncreaseWildcardNum), SingleWildcardSign + "1");
  }

  /** A wildcard `$d` at the front becomes `$` and the text of d + 1, and the
      rest is converted on its own, for a property that starts like a dotted
      name (neither `$` nor a digit), so that no occurrence of it starts
      inside the renumbered wildcard. */
  lemma ConvertAtSign(d: char, rest: string, property: string)
    requires IsDigit(d) && property != [] && property[0] != '$' && !IsDigit(property[0])
    ensures ConvertPatternToAssignment(['$', d] + rest, property)
         == IncreaseWildcardNum(d) + ConvertPatternToAssignment(rest, property)
  {
    assert (['$', d] + rest)[2..] == rest;
    var w := IncreaseWildcardNum(d);
    forall i | 0 <= i < |w| ensures w[i] != property[0] {
      if i > 0 { assert w[i] == w[1..][i - 1]; }
    }
    ReplaceSkipPrefix(w, SubSignDigits(rest, IncreaseWildcardNum), property, SingleWildcardSign + "1");
  }

  /** Text none of whose characters starts the target is kept in front. */
  lemma {:induction false} ReplaceSkipPrefix(w: string, t: string, target: string, replacement: string)
    requires target != []
    requires forall i :: 0 <= i < |w| ==> w[i] != target[0]
    ensures Replace(w + t, target, replacement) == w + Replace(t, target, replacement)
    decreases |w|
  {
    if w != [] {
      FrontAndTail(w, t);
      assert !OccursAt(w + t, target, 0) by {
        if |target| <= |w + t| { assert (w + t)[0..|target|][0] == w[0]; }
      }
      ReplaceSkip(w + t, target, replacement);
      ReplaceSkipPrefix(w[1..], t, target, replacement);
      assert [w[0]] + w[1..] == w;
    } else {
      assert w + t == t;
    }
  }

  /** The three template texts of an assignment rule, before compilation. */
  function AssignmentTexts(rule: Rule, alias: string, assignmentType: string): (r: Result<(string, string, string)>)
    ensures assignmentType == "auto" ==>
              (r.Ok? <==> rule.property.Some?) &&
              (r.Ok? ==> r.value == (CreateAssignmentPattern(rule.property.value, rule.moduleName, alias),
                                     ConvertPatternToAssignment(rule.patternToSearch, rule.property.value),
                                     ConvertPatternToAssignment(rule.patternToReplace, rule.property.value)))
    ensures assignmentType != "auto" ==>
              (r.Ok? <==> rule.assignmentPattern.Some?) &&
              (r.Ok? ==> r.value == (rule.assignmentPattern.value, rule.patternToSearch, rule.patternToReplace))
  {
    if assignmentType == "auto" then
      match rule.property
      case None => Err(MissingKey("property"))
      case Some(property) =>
        Ok((CreateAssignmentPattern(property, rule.moduleName, alias),
            ConvertPatternToAssignment(rule.patternToSearch, property),
            ConvertPatternToAssignment(rule.patternToReplace, property)))
    else
      match rule.assignmentPattern
      case None => Err(MissingKey("assignmentPattern"))
      case Some(a) => Ok((a, rule.patternToSearch, rule.patternToReplace))
  }

  /** createAssignmentRule: compile the assignment, search and replace texts. */
  function CreateAssignmentRule(parse: Parser, rule: Rule, alias: string, assignmentType: string): (r: Result<CompiledAssignmentRule>)
    ensures r.Ok? ==>
              AssignmentTexts(rule, alias, assignmentType).Ok? &&
              var texts := AssignmentTexts(rule, alias, assignmentType).value;
              && PreparePattern(parse, texts.0, alias, rule.moduleName) == Ok(r.value.assignmentPattern)
              && PreparePattern(parse, texts.1, alias, rule.moduleName) == Ok(r.value.patternToSearch)
              && PreparePattern(parse, texts.2, alias, rule.moduleName) == Ok(r.value.patternToReplace)
    ensures r.Err? <==>
              AssignmentTexts(rule, alias, assignmentType).Err? ||
              var texts := AssignmentTexts(rule, alias, assignmentType).value;
              PreparePattern(parse, texts.0, alias, rule.moduleName).Err? ||
              PreparePattern(parse, texts.1, alias, rule.moduleName).Err? ||
              PreparePattern(parse, texts.2, alias, rule.moduleName).Err?
  {
    var texts :- AssignmentTexts(rule, alias, assignmentType);
    var assignment :- PreparePattern(parse, texts.0, alias, rule.moduleName);
    var search :- PreparePattern(parse, texts.1, alias, rule.moduleName);
    var replace :- PreparePattern(parse, texts.2, alias, rule.moduleName);
    Ok(CompiledAssignmentRule(assignment, search, replace))
  }

  /** `$1`, `$2` become `$2`, `$3`; the text around them is kept. */
  lemma RenumberExample()
    ensures SubSignDigits("math.pow($1, $2)", IncreaseWildcardNum) == "math.pow($2, $3)"
  {
    RenumberWhole("math.pow($1, $2)", "math.pow(", "$1", ", ", "$2", ")", IncreaseWildcardNum);
  }

  lemma RenumberWhole(w: string, a: string, b: string, c: string, d: string, e: string, repl: char -> string)
    requires a == "math.pow(" && b == "$1" && d == "$2" && c == ", " && e == ")"
    requires w == a + b + c + d + e
    requires repl == IncreaseWildcardNum
    ensures SubSignDigits(w, repl) == a + "$2, $3)"
  {
    RenumberPiece(b, d, c, e, repl);
    SubSignDigitsNoSign(a, repl);
    SubSignDigitsAppend(a, b + c + d + e, repl);
    assert w == a + (b + c + d + e);
  }

  lemma RenumberPiece(b: string, d: string, c: string, e: string, repl: char -> string)
    requires b == "$1" && d == "$2" && c == ", " && e == ")"
    requires repl == IncreaseWildcardNum
    ensures SubSignDigits(b + c + d + e, repl) == "$2, $3)"
  {
    SubSignDigitsNoSign(c, repl);
    SubSignDigitsNoSign(e, repl);
    assert SubSignDigits(b, repl) == "$2" by { assert b[2..] == []; }
    assert SubSignDigits(d, repl) == "$3" by { assert d[2..] == []; }
    SubSignDigitsAppend(d, e, repl);
    SubSignDigitsAppend(c, d + e, repl);
    SubSignDigitsAppend(b, c + (d + e), repl);
    assert b + c + d + e == b + (c + (d + e));
  }

  /** The renumbering runs before the property is replaced, so the `$1` put in
      for the property is not renumbered. */
  lemma ConvertExample(pattern: string, property: string)
    requires pattern == "math.pow($1, $2)" && property == "math.pow"
    ensures ConvertPatternToAssignment(pattern, property) == "$1($2, $3)"
  {
    RenumberExample();
    ConvertPiece(SubSignDigits(pattern, IncreaseWildcardNum), property, SingleWildcardSign + "1", "$1($2, $3)");
  }

  /** The replacement step of the example, on the renumbered text. */
  lemma ConvertPiece(r: string, p: string, one: string, expected: string)
    requires r == "math.pow($2, $3)" && p == "math.pow" && one == "$1" && expected == "$1($2, $3)"
    ensures Replace(r, p, one) == expected
  {
    var tail := "($2, $3)";
    assert r == p + tail;
    assert r[..|p|] == p;
    assert r[|p|..] == tail;
    assert !OccursAt(tail, p, 0) by { assert tail[0] != p[0]; }
    ReplaceSkip(tail, p, one);
    assert |tail[1..]| < |p|;
    assert [tail[0]] + tail[1..] == tail;
    assert expected == one + tail;
  }
}
