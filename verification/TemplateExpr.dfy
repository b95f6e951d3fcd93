/** The expression evaluator of the template runtime (`resolve`, `resolvePath`), the expression
    trees it is meant to read, and the proof that reading a printed tree evaluates that tree. */
module TemplateExpr {
  import opened Common
  import opened TemplateText

  // ----- values -----

  /** JavaScript values. Numbers and objects stay opaque: `Host` says how they behave. */
  datatype Value = Undefined | Null | Bool(b: bool) | Text(text: string) | Other(id: int)

  /** The JavaScript operations the evaluator leans on, as parameters. */
  datatype Host = Host(
    number: string -> Value,
    member: (Value, Value) -> Value,
    truthy: Value -> bool,
    strictEqual: (Value, Value) -> bool,
    looseEqual: (Value, Value) -> bool)

  /** `cur == null ? undefined : cur[key]` */
  function Member(host: Host, cur: Value, key: Value): Value {
    if cur == Undefined || cur == Null then Undefined else host.member(cur, key)
  }

  function Compare(host: Host, op: string, l: Value, r: Value): Value {
    Bool(if op == "===" then host.strictEqual(l, r)
         else if op == "!==" then !host.strictEqual(l, r)
         else if op == "==" then host.looseEqual(l, r)
         else !host.looseEqual(l, r))
  }

  // ----- the evaluator on text -----

  predicate IsQuoted(expr: string) {
    |expr| >= 2 && (expr[0] == '"' || expr[0] == '\'') && expr[|expr| - 1] == expr[0]
  }

  predicate IsKeyword(expr: string) {
    expr == "true" || expr == "false" || expr == "null" || expr == "undefined"
  }

  function Keyword(expr: string): Value
    requires IsKeyword(expr)
  {
    if expr == "true" then Bool(true) else if expr == "false" then Bool(false)
    else if expr == "null" then Null else Undefined
  }

  predicate Wrapped(s: string)
    requires s != ""
  {
    s[0] == '(' && s[|s| - 1] == ')' && ParensWrapWhole(s)
  }

  /** What `resolve` returns. Every recursive call is on a strictly shorter text. */
  function Resolve(host: Host, vals: Value, src: string): Value
    decreases |src|, 3
  {
    var expr := Trim(src);
    if expr == "" then Undefined else ResolveTrimmed(host, vals, expr)
  }

  function ResolveTrimmed(host: Host, vals: Value, expr: string): Value
    requires expr != ""
    decreases |expr|, 2
  {
    if Wrapped(expr) then Resolve(host, vals, expr[1..|expr| - 1])
    else match FirstEquality(expr, 0)
      case Some(i) =>
        var n := OperatorLength(expr, i);
        Compare(host, expr[i..i + n], Resolve(host, vals, expr[..i]), Resolve(host, vals, expr[i + n..]))
      case None =>
        if expr[0] == '!' then Bool(!host.truthy(Resolve(host, vals, expr[1..])))
        else ResolveLeaf(host, vals, expr)
  }

  function ResolveLeaf(host: Host, vals: Value, expr: string): Value
    requires expr != ""
    decreases |expr|, 1
  {
    if IsKeyword(expr) then Keyword(expr)
    else if IsNumber(expr) then host.number(expr)
    else if IsQuoted(expr) then Text(expr[1..|expr| - 1])
    else ResolvePath(host, vals, expr)
  }

  function ResolvePath(host: Host, vals: Value, expr: string): Value
    decreases |expr|, 0
  {
    var n := IdentLength(expr);
    if n == 0 then Undefined
    else ResolveSteps(host, vals, Member(host, vals, Text(expr[..n])), expr[n..])
  }

  /** The loop of `resolvePath`, as a function of the value so far and the text still unread. */
  function ResolveSteps(host: Host, vals: Value, cur: Value, rest: string): Value
    decreases |rest|
  {
    if rest == "" then cur
    else if rest[0] == '.' then
      var n := MemberLength(rest[1..]);
      if n == 0 then Undefined
      else ResolveSteps(host, vals, Member(host, cur, Text(rest[1..1 + n])), rest[1 + n..])
    else if rest[0] == '[' then
      match FirstClose(rest, 1)
      case None => Undefined
      case Some(j) =>
        ResolveSteps(host, vals, Member(host, cur, Resolve(host, vals, rest[1..j])), rest[j + 1..])
    else Undefined
  }

  // One unfolding lemma per form, so that proofs need not open the evaluator itself.

  lemma UnfoldGroup(host: Host, vals: Value, s: string)
    requires s != "" && Wrapped(s)
    ensures ResolveTrimmed(host, vals, s) == Resolve(host, vals, s[1..|s| - 1])
  {
  }

  lemma UnfoldEquality(host: Host, vals: Value, s: string, i: nat, n: nat)
    requires s != "" && !Wrapped(s) && FirstEquality(s, 0) == Some(i) && n == OperatorLength(s, i)
    ensures ResolveTrimmed(host, vals, s)
         == Compare(host, s[i..i + n], Resolve(host, vals, s[..i]), Resolve(host, vals, s[i + n..]))
  {
  }

  lemma UnfoldNot(host: Host, vals: Value, s: string)
    requires s != "" && s[0] == '!' && FirstEquality(s, 0) == None
    ensures ResolveTrimmed(host, vals, s) == Bool(!host.truthy(Resolve(host, vals, s[1..])))
  {
  }

  lemma UnfoldLeaf(host: Host, vals: Value, s: string)
    requires s != "" && !Wrapped(s) && s[0] != '!' && FirstEquality(s, 0) == None
    ensures ResolveTrimmed(host, vals, s) == ResolveLeaf(host, vals, s)
  {
  }

  lemma StepDot(host: Host, vals: Value, cur: Value, rest: string, n: nat)
    requires rest != "" && rest[0] == '.' && n == MemberLength(rest[1..])
    ensures n == 0 ==> ResolveSteps(host, vals, cur, rest) == Undefined
    ensures n > 0 ==>
              ResolveSteps(host, vals, cur, rest)
              == ResolveSteps(host, vals, Member(host, cur, Text(rest[1..1 + n])), rest[1 + n..])
  {
  }

  lemma StepUnclosed(host: Host, vals: Value, cur: Value, rest: string)
    requires rest != "" && rest[0] == '[' && FirstClose(rest, 1) == None
    ensures ResolveSteps(host, vals, cur, rest) == Undefined
  {
  }

  lemma StepOther(host: Host, vals: Value, cur: Value, rest: string)
    requires rest != "" && rest[0] != '.' && rest[0] != '['
    ensures ResolveSteps(host, vals, cur, rest) == Undefined
  {
  }

  lemma EndOfSteps(host: Host, vals: Value, cur: Value)
    ensures ResolveSteps(host, vals, cur, "") == cur
  {
  }

  lemma StepIndex(host: Host, vals: Value, cur: Value, rest: string, j: nat)
    requires rest != "" && rest[0] == '[' && FirstClose(rest, 1) == Some(j)
    ensures ResolveSteps(host, vals, cur, rest)
         == ResolveSteps(host, vals, Member(host, cur, Resolve(host, vals, rest[1..j])), rest[j + 1..])
  {
  }

  // ----- the same evaluator, scanning in place -----

  method Evaluate(host: Host, vals: Value, src: string) returns (v: Value)
    ensures v == Resolve(host, vals, src)
    decreases |src|, 2
  {
    hide ResolveTrimmed;
    var expr := Trim(src);
    if expr == "" {
      return Undefined;
    }
    v := EvaluateTrimmed(host, vals, expr);
  }

  method EvaluateTrimmed(host: Host, vals: Value, expr: string) returns (v: Value)
    requires expr != ""
    ensures v == ResolveTrimmed(host, vals, expr)
    decreases |expr|, 1
  {
    hide Resolve, ResolveTrimmed, ResolvePath, ParensWrapWhole, FirstEquality, OperatorLength, IsTopEquality;
    hide Compare, Keyword, IsNumber;
    if expr[0] == '(' && expr[|expr| - 1] == ')' {
      var whole := ScanParensWrapWhole(expr);
      if whole {
        UnfoldGroup(host, vals, expr);
        v := Evaluate(host, vals, expr[1..|expr| - 1]);
        return;
      }
    }
    var eq := ScanTopLevelEquality(expr);
    if eq.Some? {
      var (index, op) := eq.value;
      UnfoldEquality(host, vals, expr, index, |op|);
      var lv := Evaluate(host, vals, expr[..index]);
      var rv := Evaluate(host, vals, expr[index + |op|..]);
      return Compare(host, op, lv, rv);
    }
    if expr[0] == '!' {
      UnfoldNot(host, vals, expr);
      var inner := Evaluate(host, vals, expr[1..]);
      return Bool(!host.truthy(inner));
    }
    UnfoldLeaf(host, vals, expr);
    if IsKeyword(expr) {
      return Keyword(expr);
    }
    if IsNumber(expr) {
      return host.number(expr);
    }
    if IsQuoted(expr) {
      return Text(expr[1..|expr| - 1]);
    }
    v := WalkPath(host, vals, expr);
  }

  method WalkPath(host: Host, vals: Value, expr: string) returns (v: Value)
    ensures v == ResolvePath(host, vals, expr)
    decreases |expr|, 0
  {
    hide Resolve, ResolveSteps, FirstClose, MemberLength, IdentLength, Member;
    var head := IdentLength(expr);
    if head == 0 {
      return Undefined;
    }
    assert ResolvePath(host, vals, expr)
        == ResolveSteps(host, vals, Member(host, vals, Text(expr[..head])), expr[head..]);
    var cur := Member(host, vals, Text(expr[..head]));
    var i := head;
    while i < |expr|
      invariant head <= i <= |expr|
      invariant ResolvePath(host, vals, expr) == ResolveSteps(host, vals, cur, expr[i..])
    {
      ghost var rest := expr[i..];
      if expr[i] == '.' {
        var n := MemberLength(expr[i + 1..]);
        WalkDot(host, vals, cur, expr, i, n);
        if n == 0 {
          return Undefined;
        }
        cur := Member(host, cur, Text(expr[i + 1..i + 1 + n]));
        i := i + 1 + n;
      } else if expr[i] == '[' {
        var close := ScanClose(expr, i);
        if close.None? {
          StepUnclosed(host, vals, cur, rest);
          return Undefined;
        }
        var j := close.value;
        WalkIndex(host, vals, cur, expr, i, j);
        var key := Evaluate(host, vals, expr[i + 1..j]);
        cur := Member(host, cur, key);
        i := j + 1;
      } else {
        StepOther(host, vals, cur, rest);
        return Undefined;
      }
    }
    assert expr[i..] == "";
    EndOfSteps(host, vals, cur);
    return cur;
  }

  lemma WalkDot(host: Host, vals: Value, cur: Value, expr: string, i: nat, n: nat)
    requires i < |expr| && expr[i] == '.' && n == MemberLength(expr[i + 1..])
    ensures ResolveSteps(host, vals, cur, expr[i..])
         == if n == 0 then Undefined
            else ResolveSteps(host, vals, Member(host, cur, Text(expr[i + 1..i + 1 + n])), expr[i + 1 + n..])
  {
    hide ResolveSteps, MemberLength, Member;
    var rest := expr[i..];
    assert rest[1..] == expr[i + 1..];
    StepDot(host, vals, cur, rest, n);
    assert rest[1..1 + n] == expr[i + 1..i + 1 + n];
    assert rest[1 + n..] == expr[i + 1 + n..];
  }

  lemma WalkIndex(host: Host, vals: Value, cur: Value, expr: string, i: nat, j: nat)
    requires i < j < |expr| && expr[i] == '[' && FirstClose(expr[i..], 1) == Some(j - i)
    ensures ResolveSteps(host, vals, cur, expr[i..])
         == ResolveSteps(host, vals, Member(host, cur, Resolve(host, vals, expr[i + 1..j])), expr[j + 1..])
  {
    hide ResolveSteps, FirstClose, Member, Resolve;
    var rest := expr[i..];
    StepIndex(host, vals, cur, rest, j - i);
    assert rest[1..j - i] == expr[i + 1..j];
    assert rest[j - i + 1..] == expr[j + 1..];
  }

  /** Finds the bracket closing the one at `i`. */
  method ScanClose(expr: string, i: nat) returns (r: Option<nat>)
    requires i < |expr| && expr[i] == '['
    ensures r.None? <==> FirstClose(expr[i..], 1).None?
    ensures r.Some? ==> i < r.value < |expr| && FirstClose(expr[i..], 1) == Some(r.value - i)
  {
    ghost var rest := expr[i..];
    var depth, j := 1, i + 1;
    assert Depth(Brackets, rest[..1]) == 1 by {
      DepthStep(Brackets, rest, 0);
    }
    while j < |expr| && depth > 0
      invariant i < j <= |expr|
      invariant depth >= 1 && depth == Depth(Brackets, rest[..j - i])
      invariant FirstClose(rest, 1) == FirstClose(rest, j - i)
    {
      DepthStep(Brackets, rest, j - i);
      if expr[j] == '[' {
        depth := depth + 1;
      } else if expr[j] == ']' {
        depth := depth - 1;
        if depth == 0 {
          return Some(j);
        }
      }
      j := j + 1;
    }
    return None;
  }

  // ----- expression trees -----

  datatype Expr =
    | Word(text: string)                    // true, false, null, undefined
    | Number(text: string)
    | Quoted(quote: char, body: string)
    | Path(head: string, steps: Steps)
    | Not(pad: string, e: Expr)
    | Group(before: string, e: Expr, after: string)
    | Equality(l: Expr, before: string, op: string, after: string, r: Expr)

  datatype Steps =
    | End
    | Dot(name: string, next: Steps)
    | Index(before: string, key: Expr, after: string, next: Steps)

  /** Direct evaluation of a tree: no text is looked at beyond the leaves. */
  function Eval(host: Host, vals: Value, e: Expr): Value
    decreases e
  {
    match e
    case Word(text) => if IsKeyword(text) then Keyword(text) else Undefined
    case Number(text) => host.number(text)
    case Quoted(_, body) => Text(body)
    case Path(head, steps) => EvalSteps(host, vals, Member(host, vals, Text(head)), steps)
    case Not(_, e) => Bool(!host.truthy(Eval(host, vals, e)))
    case Group(_, e, _) => Eval(host, vals, e)
    case Equality(l, _, op, _, r) => Compare(host, op, Eval(host, vals, l), Eval(host, vals, r))
  }

  function EvalSteps(host: Host, vals: Value, cur: Value, steps: Steps): Value
    decreases steps
  {
    match steps
    case End => cur
    case Dot(name, next) => EvalSteps(host, vals, Member(host, cur, Text(name)), next)
    case Index(_, key, _, next) => EvalSteps(host, vals, Member(host, cur, Eval(host, vals, key)), next)
  }

  function Print(e: Expr): string {
    match e
    case Word(text) => text
    case Number(text) => text
    case Quoted(quote, body) => [quote] + body + [quote]
    case Path(head, steps) => head + PrintSteps(steps)
    case Not(pad, e) => "!" + pad + Print(e)
    case Group(before, e, after) => "(" + (before + Print(e) + after) + ")"
    case Equality(l, before, op, after, r) => Print(l) + before + op + (after + Print(r))
  }

  function PrintSteps(steps: Steps): string {
    match steps
    case End => ""
    case Dot(name, next) => "." + name + PrintSteps(next)
    case Index(before, key, after, next) => "[" + (before + Print(key) + after) + "]" + PrintSteps(next)
  }

  predicate IsBracket(c: char) {
    c == '(' || c == ')' || c == '[' || c == ']'
  }

  /** A text that neither opens nor closes a bracket and holds no equality operator. */
  predicate Plain(s: string) {
    && (forall i :: 0 <= i < |s| ==> !IsBracket(s[i]))
    && (forall i :: 0 <= i < |s| - 1 && EqChar(s[i]) ==> s[i + 1] != '=')
    && (s != "" ==> s[0] != '=' && !EqChar(s[|s| - 1]))
  }

  /** The trees that have an unambiguous text: operands of `!` and of an equality are not bare
      equalities, a lone path is not a keyword, and string bodies hold no bracket and no operator. */
  predicate Readable(e: Expr) {
    match e
    case Word(text) => IsKeyword(text)
    case Number(text) => IsNumber(text)
    case Quoted(quote, body) => (quote == '"' || quote == '\'') && Plain([quote] + body + [quote])
    case Path(head, steps) => IsIdentifier(head) && (steps.End? ==> !IsKeyword(head)) && ReadableSteps(steps)
    case Not(pad, e) => Blank(pad) && !e.Equality? && Readable(e)
    case Group(before, e, after) => Blank(before) && Blank(after) && Readable(e)
    case Equality(l, before, op, after, r) =>
      && Blank(before) && Blank(after) && IsOperator(op)
      && !l.Equality? && Readable(l) && !r.Equality? && Readable(r)
  }

  predicate ReadableSteps(steps: Steps) {
    match steps
    case End => true
    case Dot(name, next) => (IsIdentifier(name) || AllDigits(name)) && ReadableSteps(next)
    case Index(before, key, after, next) =>
      Blank(before) && Blank(after) && Readable(key) && ReadableSteps(next)
  }

  // ----- shape of printed texts -----

  /** No equality operator at depth 0, nor one made by what follows unless that starts with `=`. */
  predicate NoOperator(s: string) {
    forall i :: 0 <= i < |s| && EqChar(s[i]) && Depth(Both, s[..i]) == 0 ==> i + 1 < |s| && s[i + 1] != '='
  }

  predicate Quiet(s: string) {
    Nested(s) && NoOperator(s)
  }

  /** What every printed tree looks like from outside. */
  predicate Solid(s: string) {
    Trimmed(s) && Nested(s) && s[0] != '=' && !EqChar(s[|s| - 1])
  }

  lemma BalancedConcat(n: Nesting, a: string, b: string)
    requires Balanced(n, a) && Balanced(n, b)
    ensures Balanced(n, a + b)
  {
    DepthConcat(n, a, b);
    forall i | 0 <= i <= |a + b|
      ensures Depth(n, (a + b)[..i]) >= 0
    {
      if i <= |a| {
        assert (a + b)[..i] == a[..i];
      } else {
        assert (a + b)[..i] == a + b[..i - |a|];
        DepthConcat(n, a, b[..i - |a|]);
      }
    }
  }

  lemma NestedConcat(a: string, b: string)
    requires Nested(a) && Nested(b)
    ensures Nested(a + b)
  {
    BalancedConcat(Parens, a, b);
    BalancedConcat(Brackets, a, b);
  }

  lemma QuietConcat(a: string, b: string)
    requires Quiet(a) && Quiet(b)
    ensures Quiet(a + b)
  {
    NestedConcat(a, b);
    DepthBoth(a);
    forall i | 0 <= i < |a + b| && EqChar((a + b)[i]) && Depth(Both, (a + b)[..i]) == 0
      ensures i + 1 < |a + b| && (a + b)[i + 1] != '='
    {
      if i < |a| {
        assert (a + b)[..i] == a[..i];
      } else {
        assert (a + b)[..i] == a + b[..i - |a|];
        DepthConcat(Both, a, b[..i - |a|]);
      }
    }
  }

  predicate NoBracket(s: string) {
    forall i :: 0 <= i < |s| ==> !IsBracket(s[i])
  }

  lemma {:induction false} NoBracketDepth(n: Nesting, s: string)
    requires NoBracket(s)
    ensures Depth(n, s) == 0
  {
    if s != "" {
      NoBracketDepth(n, s[..|s| - 1]);
    }
  }

  lemma NoBracketNested(s: string)
    requires NoBracket(s)
    ensures Nested(s)
  {
    forall n: Nesting, i | 0 <= i <= |s|
      ensures Depth(n, s[..i]) == 0
    {
      NoBracketDepth(n, s[..i]);
    }
    assert s[..|s|] == s;
  }

  lemma PlainQuiet(s: string)
    requires Plain(s)
    ensures Quiet(s)
  {
    NoBracketNested(s);
  }

  lemma BlankPlain(s: string)
    requires Blank(s)
    ensures Plain(s)
  {
    forall i | 0 <= i < |s|
      ensures !IsBracket(s[i]) && !EqChar(s[i])
    {
      assert IsSpace(s[i]);
    }
  }

  lemma BlankQuiet(s: string)
    requires Blank(s)
    ensures Quiet(s)
  {
    BlankPlain(s);
    PlainQuiet(s);
  }

  /** The depth inside a pair of brackets. */
  lemma DepthInside(n: Nesting, open: char, x: string, close: char, i: nat)
    requires 0 < i <= |x| + 1
    ensures Depth(n, ([open] + x + [close])[..i]) == Delta(n, open) + Depth(n, x[..i - 1])
  {
    assert ([open] + x + [close])[..i] == [open] + x[..i - 1];
    DepthConcat(n, [open], x[..i - 1]);
  }

  lemma BalancedEnclosed(n: Nesting, open: char, x: string, close: char)
    requires Balanced(n, x) && Delta(n, open) >= 0 && Delta(n, open) + Delta(n, close) == 0
    ensures Balanced(n, [open] + x + [close])
  {
    var s := [open] + x + [close];
    forall i | 0 <= i <= |s|
      ensures Depth(n, s[..i]) >= 0
      ensures i == |s| ==> Depth(n, s[..i]) == 0
    {
      if 0 < i <= |x| + 1 {
        DepthInside(n, open, x, close, i);
      } else if i == |s| {
        DepthInside(n, open, x, close, |x| + 1);
        assert x[..|x|] == x;
        DepthStep(n, s, |x| + 1);
      }
    }
    assert s[..|s|] == s;
  }

  predicate Pair(open: char, close: char) {
    (open == '(' && close == ')') || (open == '[' && close == ']')
  }

  /** Whatever stands between a pair of brackets is out of sight. */
  lemma EnclosedQuiet(open: char, x: string, close: char)
    requires Nested(x) && Pair(open, close)
    ensures Quiet([open] + x + [close])
  {
    var s := [open] + x + [close];
    BalancedEnclosed(Parens, open, x, close);
    BalancedEnclosed(Brackets, open, x, close);
    forall i | 0 <= i < |s| && EqChar(s[i])
      ensures Depth(Both, s[..i]) != 0
    {
      DepthInside(Both, open, x, close, i);
      DepthBoth(x[..i - 1]);
    }
  }

  lemma PaddedNested(before: string, x: string, after: string)
    requires Blank(before) && Blank(after) && Nested(x)
    ensures Nested(before + x + after)
  {
    BlankQuiet(before);
    BlankQuiet(after);
    NestedConcat(before, x);
    NestedConcat(before + x, after);
  }

  lemma EnclosedSolid(open: char, before: string, x: string, after: string, close: char)
    requires Blank(before) && Blank(after) && Nested(x) && Pair(open, close)
    ensures var s := [open] + (before + x + after) + [close]; Solid(s) && Quiet(s)
  {
    PaddedNested(before, x, after);
    EnclosedQuiet(open, before + x + after, close);
  }

  lemma BalancedNot(n: Nesting, s: string)
    requires Balanced(n, s)
    ensures Balanced(n, "!" + s)
  {
    assert Balanced(n, "!") by {
      NoBracketNested("!");
      DepthBoth("!");
      assert forall i :: 0 <= i <= 1 ==> "!"[..i] == "" || "!"[..i] == "!";
    }
    BalancedConcat(n, "!", s);
  }

  lemma NotNoOperator(s: string)
    requires NoOperator(s) && s != "" && s[0] != '='
    ensures NoOperator("!" + s)
  {
    var t := "!" + s;
    assert Depth(Both, "!") == 0 by {
      NoBracketDepth(Both, "!");
    }
    hide Depth;
    forall i | 0 < i < |t| && EqChar(t[i]) && Depth(Both, t[..i]) == 0
      ensures i + 1 < |t| && t[i + 1] != '='
    {
      assert t[..i] == "!" + s[..i - 1];
      DepthConcat(Both, "!", s[..i - 1]);
      assert EqChar(s[i - 1]);
    }
  }

  lemma NotSolid(pad: string, x: string)
    requires Blank(pad) && Solid(x) && Quiet(x)
    ensures Solid("!" + (pad + x)) && Quiet("!" + (pad + x))
  {
    hide Depth, Balanced, NoOperator;
    var s := pad + x;
    BlankQuiet(pad);
    QuietConcat(pad, x);
    BalancedNot(Parens, s);
    BalancedNot(Brackets, s);
    assert s[0] != '=' by {
      BlankPlain(pad);
    }
    NotNoOperator(s);
  }

  predicate IsOperator(op: string) {
    op == "===" || op == "!==" || op == "==" || op == "!="
  }

  lemma EqualitySolid(l: string, before: string, op: string, after: string, r: string)
    requires Solid(l) && Solid(r) && Blank(before) && Blank(after) && IsOperator(op)
    ensures Solid(l + before + op + (after + r))
  {
    BlankQuiet(before);
    BlankQuiet(after);
    NoBracketNested(op);
    NestedConcat(l, before);
    NestedConcat(after, r);
    NestedConcat(l + before, op);
    NestedConcat(l + before + op, after + r);
  }

  /** A printed path step, or nothing. */
  predicate StepShape(s: string) {
    Quiet(s) && (s != "" ==> (s[0] == '.' || s[0] == '[') && !IsSpace(s[|s| - 1]) && !EqChar(s[|s| - 1]))
  }

  lemma PathSolid(head: string, rest: string)
    requires IsIdentifier(head) && StepShape(rest)
    ensures Solid(head + rest) && Quiet(head + rest)
  {
    forall i | 0 <= i < |head|
      ensures !IsBracket(head[i]) && !EqChar(head[i]) && !IsSpace(head[i])
    {
      assert IsIdentPart(head[i]);
    }
    PlainQuiet(head);
    QuietConcat(head, rest);
  }

  lemma DotShape(name: string, rest: string)
    requires (IsIdentifier(name) || AllDigits(name)) && StepShape(rest)
    ensures StepShape("." + name + rest)
  {
    var s := "." + name;
    forall i | 0 <= i < |s|
      ensures !IsBracket(s[i]) && !EqChar(s[i]) && !IsSpace(s[i])
    {
      assert i > 0 ==> IsIdentPart(name[i - 1]);
    }
    PlainQuiet(s);
    QuietConcat(s, rest);
  }

  lemma IndexShape(before: string, x: string, after: string, rest: string)
    requires Blank(before) && Blank(after) && Nested(x) && StepShape(rest)
    ensures StepShape("[" + (before + x + after) + "]" + rest)
  {
    EnclosedSolid('[', before, x, after, ']');
    QuietConcat("[" + (before + x + after) + "]", rest);
  }

  lemma QuotedSolid(quote: char, body: string)
    requires (quote == '"' || quote == '\'') && Plain([quote] + body + [quote])
    ensures var s := [quote] + body + [quote]; Solid(s) && Quiet(s)
  {
    PlainQuiet([quote] + body + [quote]);
  }

  lemma NumberSolid(s: string)
    requires IsNumber(s)
    ensures Solid(s) && Quiet(s)
  {
    hide IsNumber, Nested, NoOperator;
    NumberChars(s);
    assert !IsSpace(s[0]) && !IsSpace(s[|s| - 1]);
    assert NoBracket(s) && forall i :: 0 <= i < |s| ==> !EqChar(s[i]);
    PlainQuiet(s);
  }

  lemma KeywordSolid(s: string)
    requires IsKeyword(s)
    ensures Solid(s) && Quiet(s)
  {
    PlainQuiet(s);
  }

  lemma {:induction false} PrintSolid(e: Expr)
    requires Readable(e)
    ensures Solid(Print(e))
    ensures !e.Equality? ==> Quiet(Print(e))
    decreases e
  {
    match e
    case Word(text) => KeywordSolid(text);
    case Number(text) => NumberSolid(text);
    case Quoted(quote, body) => QuotedSolid(quote, body);
    case Path(head, steps) =>
      PrintStepsShape(steps);
      PathSolid(head, PrintSteps(steps));
    case Not(pad, inner) =>
      PrintSolid(inner);
      NotSolid(pad, Print(inner));
      assert "!" + pad + Print(inner) == "!" + (pad + Print(inner));
    case Group(before, inner, after) =>
      PrintSolid(inner);
      EnclosedSolid('(', before, Print(inner), after, ')');
    case Equality(l, before, op, after, r) =>
      PrintSolid(l);
      PrintSolid(r);
      EqualitySolid(Print(l), before, op, after, Print(r));
  }

  lemma {:induction false} PrintStepsShape(steps: Steps)
    requires ReadableSteps(steps)
    ensures StepShape(PrintSteps(steps))
    decreases steps
  {
    match steps
    case End =>
      PlainQuiet("");
    case Dot(name, next) =>
      PrintStepsShape(next);
      DotShape(name, PrintSteps(next));
    case Index(before, key, after, next) =>
      PrintStepsShape(next);
      PrintSolid(key);
      IndexShape(before, Print(key), after, PrintSteps(next));
  }

  // ----- reading back, one text form at a time -----

  /** Padding does not change what a text resolves to. */
  lemma ResolvePadded(host: Host, vals: Value, before: string, x: string, after: string)
    requires Blank(before) && Blank(after) && Trimmed(x)
    ensures Resolve(host, vals, before + x + after) == ResolveTrimmed(host, vals, x)
  {
    TrimPad(before, x, after);
  }

  lemma ResolveGroup(host: Host, vals: Value, before: string, x: string, after: string)
    requires Blank(before) && Blank(after) && Solid(x)
    ensures ResolveTrimmed(host, vals, "(" + (before + x + after) + ")") == ResolveTrimmed(host, vals, x)
  {
    var inner := before + x + after;
    var s := "(" + inner + ")";
    PaddedNested(before, x, after);
    forall i | 0 <= i < |s| - 1 && s[i] == ')'
      ensures Depth(Parens, s[..i + 1]) != 0
    {
      DepthInside(Parens, '(', inner, ')', i + 1);
    }
    UnfoldGroup(host, vals, s);
    assert s[1..|s| - 1] == inner;
    ResolvePadded(host, vals, before, x, after);
  }

  lemma QuietHasNoEquality(s: string)
    requires Quiet(s)
    ensures FirstEquality(s, 0) == None
  {
    FirstEqualityNone(s, 0);
  }

  lemma ResolveNot(host: Host, vals: Value, pad: string, x: string)
    requires Blank(pad) && Solid(x) && Quiet(x)
    ensures ResolveTrimmed(host, vals, "!" + (pad + x)) == Bool(!host.truthy(ResolveTrimmed(host, vals, x)))
  {
    var s := "!" + (pad + x);
    NotSolid(pad, x);
    QuietHasNoEquality(s);
    ResolvePadded(host, vals, pad, x, "");
    assert s[1..] == pad + x + "";
  }

  lemma ReadLeaf(host: Host, vals: Value, s: string)
    requires Quiet(s) && s != "" && s[0] != '(' && s[0] != '!'
    ensures ResolveTrimmed(host, vals, s) == ResolveLeaf(host, vals, s)
  {
    QuietHasNoEquality(s);
    UnfoldLeaf(host, vals, s);
  }

  /** A text opening with a parenthesis closes it inside itself. */
  lemma {:induction false} OpeningParenCloses(s: string, k: nat) returns (i: nat)
    requires 1 <= k <= |s| && s[0] == '(' && Depth(Parens, s[..k]) == 0
    requires Balanced(Parens, s)
    ensures i < k && s[i] == ')' && Depth(Parens, s[..i + 1]) == 0
    decreases k
  {
    i := k - 1;
    DepthStep(Parens, s, i);
    DepthStep(Parens, s, 0);
    if s[i] != ')' {
      i := OpeningParenCloses(s, k - 1);
    }
  }

  /** The operator of a printed equality is the first one the scan accepts. */
  lemma EqualityFound(l: string, before: string, op: string, after: string, r: string)
    requires Solid(l) && Quiet(l) && Solid(r) && Blank(before) && Blank(after) && IsOperator(op)
    ensures var s := l + before + op + (after + r);
            && FirstEquality(s, 0) == Some(|l + before|)
            && OperatorLength(s, |l + before|) == |op|
  {
    var left, right := l + before, after + r;
    var s := left + op + right;
    var k := |left|;
    BlankPlain(after);
    assert right[0] != '=' && s[k + |op|] == right[0];
    assert |op| == 3 ==> s[k + 2] == op[2];
    assert Quiet(left) && !Blank(left) && !EqChar(left[k - 1]) by {
      BlankPlain(before);
      BlankQuiet(before);
      QuietConcat(l, before);
      assert left[0] == l[0];
    }
    OperatorIsTop(left, op, right);
    NoneBefore(left, op + right);
    assert s == left + (op + right);
    FirstEqualityIs(s, 0, k);
  }

  lemma OperatorIsTop(left: string, op: string, right: string)
    requires Quiet(left) && !Blank(left) && !EqChar(left[|left| - 1]) && IsOperator(op)
    ensures IsTopEquality(left + op + right, |left|)
  {
    var s, k := left + op + right, |left|;
    DepthBoth(left);
    assert s[..k] == left && s[k - 1] == left[k - 1] && s[k] == op[0] && s[k + 1] == op[1];
  }

  lemma NoneBefore(left: string, rest: string)
    requires Quiet(left)
    ensures forall j :: 0 <= j < |left| ==> !IsTopEquality(left + rest, j)
  {
    var s := left + rest;
    forall j | 0 <= j < |left|
      ensures !IsTopEquality(s, j)
    {
      assert s[..j] == left[..j] && s[j] == left[j] && (j + 1 < |left| ==> s[j + 1] == left[j + 1]);
    }
  }

  lemma EqualityNotWrapped(l: string, rest: string)
    requires Solid(l) && rest != ""
    ensures !Wrapped(l + rest)
  {
    var s := l + rest;
    if s[0] == '(' {
      assert l[..|l|] == l;
      var i := OpeningParenCloses(l, |l|);
      assert s[..i + 1] == l[..i + 1] && s[i] == ')';
    }
  }

  lemma ResolveEquality(host: Host, vals: Value, l: string, before: string, op: string, after: string, r: string)
    requires Solid(l) && Quiet(l) && Solid(r) && Blank(before) && Blank(after) && IsOperator(op)
    ensures ResolveTrimmed(host, vals, l + before + op + (after + r))
         == Compare(host, op, ResolveTrimmed(host, vals, l), ResolveTrimmed(host, vals, r))
  {
    hide ResolveTrimmed, Resolve, Quiet, Wrapped, IsTopEquality, FirstEquality, OperatorLength, Compare, Nested;
    var s := l + before + op + (after + r);
    var k := |l + before|;
    EqualityFound(l, before, op, after, r);
    assert s == l + (before + op + (after + r));
    EqualityNotWrapped(l, before + op + (after + r));
    UnfoldEquality(host, vals, s, k, |op|);
    assert s[..k] == "" + l + before && s[k..k + |op|] == op && s[k + |op|..] == after + r + "";
    ResolvePadded(host, vals, "", l, before);
    ResolvePadded(host, vals, after, r, "");
  }

  /** The bracket scan stops at the bracket that was printed for it. */
  lemma IndexCloses(x: string, rest: string)
    requires Nested(x)
    ensures FirstClose("[" + x + "]" + rest, 1) == Some(|x| + 1)
  {
    var t := "[" + x + "]";
    var s := t + rest;
    BalancedEnclosed(Brackets, '[', x, ']');
    assert s[..|x| + 2] == t;
    forall i | 1 <= i < |x| + 1
      ensures !Closes(s, i)
    {
      assert s[..i + 1] == t[..i + 1];
      DepthInside(Brackets, '[', x, ']', i + 1);
    }
    FirstCloseIs(s, 1, |x| + 1);
  }

  lemma ReadDot(host: Host, vals: Value, cur: Value, name: string, rest: string)
    requires (IsIdentifier(name) || AllDigits(name)) && StepShape(rest)
    ensures ResolveSteps(host, vals, cur, "." + name + rest)
         == ResolveSteps(host, vals, Member(host, cur, Text(name)), rest)
  {
    var s := "." + name + rest;
    assert s[1..] == name + rest;
    if IsIdentifier(name) {
      IdentLengthIs(name, rest);
    } else {
      DigitsLengthIs(name, rest);
    }
    StepDot(host, vals, cur, s, |name|);
    assert s[1..1 + |name|] == name && s[1 + |name|..] == rest;
  }

  lemma ReadIndex(host: Host, vals: Value, cur: Value, before: string, x: string, after: string, rest: string)
    requires Blank(before) && Blank(after) && Trimmed(x) && Nested(x)
    ensures ResolveSteps(host, vals, cur, "[" + (before + x + after) + "]" + rest)
         == ResolveSteps(host, vals, Member(host, cur, ResolveTrimmed(host, vals, x)), rest)
  {
    hide Resolve, ResolveTrimmed, ResolveSteps, FirstClose, Nested, Member;
    var key := before + x + after;
    var s := "[" + key + "]" + rest;
    PaddedNested(before, x, after);
    IndexCloses(key, rest);
    StepIndex(host, vals, cur, s, |key| + 1);
    assert s[1..|key| + 1] == key && s[|key| + 2..] == rest;
    ResolvePadded(host, vals, before, x, after);
  }

  lemma HeadIsNoLiteral(s: string)
    requires s != "" && IsIdentStart(s[0])
    ensures !IsNumber(s) && !IsQuoted(s) && s[0] != '(' && s[0] != '!'
  {
    if IsNumber(s) {
      NumberChars(s);
    }
  }

  lemma ReadHead(host: Host, vals: Value, head: string, rest: string)
    requires IsIdentifier(head) && StepShape(rest) && (rest == "" ==> !IsKeyword(head))
    ensures ResolveTrimmed(host, vals, head + rest)
         == ResolveSteps(host, vals, Member(host, vals, Text(head)), rest)
  {
    hide Resolve, ResolveTrimmed, ResolveSteps, Quiet, Member, IsNumber, IsQuoted, IdentLength;
    var s := head + rest;
    PathSolid(head, rest);
    assert s[0] == head[0];
    HeadIsNoLiteral(s);
    ReadLeaf(host, vals, s);
    assert !IsKeyword(s) by {
      if rest == "" {
        assert s == head;
      } else {
        assert s[|head|] == rest[0];
      }
    }
    IdentLengthIs(head, rest);
    assert s[..|head|] == head && s[|head|..] == rest;
  }

  // ----- main result -----

  lemma {:induction false} ReadExpr(host: Host, vals: Value, e: Expr)
    requires Readable(e)
    ensures Print(e) != "" && ResolveTrimmed(host, vals, Print(e)) == Eval(host, vals, e)
    decreases e
  {
    hide ResolveTrimmed, Resolve, ResolveSteps, ResolvePath, Solid, Quiet;
    PrintSolid(e);
    match e
    case Word(text) =>
      ReadLeaf(host, vals, text);
    case Number(text) =>
      NumberChars(text);
      ReadLeaf(host, vals, text);
    case Quoted(quote, body) =>
      ReadQuoted(host, vals, quote, body);
    case Path(head, steps) =>
      PrintStepsShape(steps);
      assert PrintSteps(steps) == "" ==> steps.End?;
      ReadHead(host, vals, head, PrintSteps(steps));
      ReadSteps(host, vals, Member(host, vals, Text(head)), steps);
    case Not(pad, inner) =>
      PrintSolid(inner);
      assert Print(e) == "!" + (pad + Print(inner));
      ResolveNot(host, vals, pad, Print(inner));
      ReadExpr(host, vals, inner);
    case Group(before, inner, after) =>
      PrintSolid(inner);
      ResolveGroup(host, vals, before, Print(inner), after);
      ReadExpr(host, vals, inner);
    case Equality(l, before, op, after, r) =>
      PrintSolid(l);
      PrintSolid(r);
      ResolveEquality(host, vals, Print(l), before, op, after, Print(r));
      ReadExpr(host, vals, l);
      ReadExpr(host, vals, r);
  }

  lemma ReadQuoted(host: Host, vals: Value, quote: char, body: string)
    requires Readable(Quoted(quote, body))
    ensures ResolveTrimmed(host, vals, [quote] + body + [quote]) == Text(body)
  {
    var s := [quote] + body + [quote];
    QuotedSolid(quote, body);
    ReadLeaf(host, vals, s);
    if IsNumber(s) {
      NumberChars(s);
    }
    assert s[1..|s| - 1] == body;
  }

  lemma {:induction false} ReadSteps(host: Host, vals: Value, cur: Value, steps: Steps)
    requires ReadableSteps(steps)
    ensures ResolveSteps(host, vals, cur, PrintSteps(steps)) == EvalSteps(host, vals, cur, steps)
    decreases steps
  {
    match steps
    case End =>
    case Dot(name, next) =>
      PrintStepsShape(next);
      ReadDot(host, vals, cur, name, PrintSteps(next));
      ReadSteps(host, vals, Member(host, cur, Text(name)), next);
    case Index(before, key, after, next) =>
      PrintSolid(key);
      ReadIndex(host, vals, cur, before, Print(key), after, PrintSteps(next));
      ReadExpr(host, vals, key);
      ReadSteps(host, vals, Member(host, cur, Eval(host, vals, key)), next);
  }

  /** Main result: resolving the text of a tree gives the value of the tree, at any nesting depth
      and with any blank padding inside and around it. */
  lemma ResolveReadsPrint(host: Host, vals: Value, before: string, e: Expr, after: string)
    requires Readable(e) && Blank(before) && Blank(after)
    ensures Resolve(host, vals, before + Print(e) + after) == Eval(host, vals, e)
  {
    PrintSolid(e);
    ResolvePadded(host, vals, before, Print(e), after);
    ReadExpr(host, vals, e);
  }

  /** A quoted text with any body reads as that body exactly when the scan, which does not skip
      quotes, sees no equality operator in it. */
  lemma QuotedReadsBackExactly(host: Host, vals: Value, quote: char, body: string)
    requires quote == '"' || quote == '\''
    ensures var s := [quote] + body + [quote];
            Resolve(host, vals, s) == Text(body) <==> FirstEquality(s, 0) == None
  {
    hide Resolve, ResolveTrimmed, FirstEquality, IsTopEquality, OperatorLength, IsNumber, ResolvePath, ParensWrapWhole;
    var s := [quote] + body + [quote];
    ResolvePadded(host, vals, "", s, "");
    assert "" + s + "" == s;
    match FirstEquality(s, 0)
    case Some(i) =>
      UnfoldEquality(host, vals, s, i, OperatorLength(s, i));
    case None =>
      UnfoldLeaf(host, vals, s);
      if IsNumber(s) {
        NumberChars(s);
      }
      assert s[1..|s| - 1] == body;
  }
}
