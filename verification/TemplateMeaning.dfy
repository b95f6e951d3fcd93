/** What resolved texts mean, form by form: each lemma gives the value of a text in terms of the values
    of its parts and of the JavaScript operation the form stands for. */
module TemplateMeaning {
  import opened Common
  import opened TemplateText
  import opened TemplateExpr

  // ----- characters -----

  const DIGITS := {'0', '1', '2', '3', '4', '5', '6', '7', '8', '9'}
  const UPPER := {'A', 'B', 'C', 'D', 'E', 'F', 'G', 'H', 'I', 'J', 'K', 'L', 'M', 'N', 'O', 'P', 'Q', 'R',
                 'S', 'T', 'U', 'V', 'W', 'X', 'Y', 'Z'}
  const LOWER := {'a', 'b', 'c', 'd', 'e', 'f', 'g', 'h', 'i', 'j', 'k', 'l', 'm', 'n', 'o', 'p', 'q', 'r',
                 's', 't', 'u', 'v', 'w', 'x', 'y', 'z'}

  /** The alphabets of `[A-Za-z_$][A-Za-z0-9_$]*` and of `\d`. */
  lemma Alphabets(c: char)
    ensures IsDigit(c) <==> c in DIGITS
    ensures IsIdentStart(c) <==> c in UPPER || c in LOWER || c == '_' || c == '$'
    ensures IsIdentPart(c) <==> IsIdentStart(c) || IsDigit(c)
  {
    assert 'A' <= c <= 'Z' <==> c in UPPER;
    assert 'a' <= c <= 'z' <==> c in LOWER;
  }

  /** White space as ECMAScript has it: the code points of its white space and line terminators. */
  const SPACES := {0x9, 0xA, 0xB, 0xC, 0xD, 0x20, 0xA0, 0x1680, 0x2000, 0x2001, 0x2002, 0x2003, 0x2004, 0x2005,
                   0x2006, 0x2007, 0x2008, 0x2009, 0x200A, 0x2028, 0x2029, 0x202F, 0x205F, 0x3000, 0xFEFF}

  lemma SpacesAre(c: char)
    ensures IsSpace(c) <==> c as int in SPACES
  {
  }

  /** Digits, and optionally a point and more digits. */
  predicate IsDecimal(body: string, whole: string, fraction: string) {
    && AllDigits(whole) && (fraction == "" || (fraction[0] == '.' && AllDigits(fraction[1..])))
    && body == whole + fraction
  }

  /** The part of a number after its sign. */
  predicate IsBody(body: string) {
    var n := Span(IsDigit, body);
    n > 0 && (n == |body| || (body[n] == '.' && AllDigits(body[n + 1..])))
  }

  lemma BodyExactly(body: string)
    ensures IsBody(body) <==> exists whole, fraction :: IsDecimal(body, whole, fraction)
  {
    var n := Span(IsDigit, body);
    if IsBody(body) {
      assert n < |body| ==> body[n..][1..] == body[n + 1..];
      assert IsDecimal(body, body[..n], body[n..]);
    }
    if whole, fraction :| IsDecimal(body, whole, fraction) {
      assert forall i :: 0 <= i < |whole| ==> body[i] == whole[i];
      SpanIs(IsDigit, body, |whole|);
      assert fraction != "" ==> body[|whole|] == fraction[0] && body[|whole| + 1..] == fraction[1..];
    }
  }

  /** A number is an optional minus sign, digits, and optionally a point and more digits. */
  lemma NumberExactly(s: string)
    ensures IsNumber(s)
       <==> var body := if s != "" && s[0] == '-' then s[1..] else s;
            exists whole, fraction :: IsDecimal(body, whole, fraction)
  {
    var body := if s != "" && s[0] == '-' then s[1..] else s;
    hide IsDecimal, AllDigits, Span;
    assert IsNumber(s) <==> IsBody(body);
    BodyExactly(body);
  }

  // ----- leaves -----

  lemma BlankMeans(host: Host, vals: Value, s: string)
    requires Blank(s)
    ensures Resolve(host, vals, s) == Undefined
  {
    TrimBlank(s);
  }

  /** The four words. */
  lemma WordsMean(host: Host, vals: Value)
    ensures Resolve(host, vals, "true") == Bool(true) && Resolve(host, vals, "false") == Bool(false)
    ensures Resolve(host, vals, "null") == Null && Resolve(host, vals, "undefined") == Undefined
  {
    hide Resolve, Eval;
    TreeMeans(host, vals, Word("true"));
    TreeMeans(host, vals, Word("false"));
    TreeMeans(host, vals, Word("null"));
    TreeMeans(host, vals, Word("undefined"));
    WordValues(host, vals);
  }

  lemma WordValues(host: Host, vals: Value)
    ensures Eval(host, vals, Word("true")) == Bool(true) && Eval(host, vals, Word("false")) == Bool(false)
    ensures Eval(host, vals, Word("null")) == Null && Eval(host, vals, Word("undefined")) == Undefined
  {
  }

  lemma TreeMeans(host: Host, vals: Value, e: Expr)
    requires Readable(e)
    ensures Resolve(host, vals, Print(e)) == Eval(host, vals, e)
  {
    hide Resolve, Eval, Readable, Print;
    ResolveReadsPrint(host, vals, "", e, "");
    assert "" + Print(e) + "" == Print(e);
  }

  lemma NumbersMean(host: Host, vals: Value, text: string)
    requires IsNumber(text)
    ensures Resolve(host, vals, text) == host.number(text)
  {
    hide Resolve, IsNumber;
    TreeMeans(host, vals, Number(text));
  }

  // ----- operators -----

  predicate Operand(e: Expr) {
    Readable(e) && !e.Equality?
  }

  /** Each equality is the host's comparison of what the operands give, or its negation. */
  lemma EqualityMeans(host: Host, vals: Value, l: Expr, before: string, op: string, after: string, r: Expr)
    requires Operand(l) && Operand(r) && Blank(before) && Blank(after) && IsOperator(op)
    ensures var lv, rv := Resolve(host, vals, Print(l)), Resolve(host, vals, Print(r));
            var v := Resolve(host, vals, Print(l) + before + op + after + Print(r));
            && (op == "===" ==> v == Bool(host.strictEqual(lv, rv)))
            && (op == "!==" ==> v == Bool(!host.strictEqual(lv, rv)))
            && (op == "==" ==> v == Bool(host.looseEqual(lv, rv)))
            && (op == "!=" ==> v == Bool(!host.looseEqual(lv, rv)))
  {
    hide Resolve, Print, Readable, Blank;
    TreeMeans(host, vals, l);
    TreeMeans(host, vals, r);
    EqualityRead(host, vals, l, before, op, after, r);
  }

  lemma EqualityRead(host: Host, vals: Value, l: Expr, before: string, op: string, after: string, r: Expr)
    requires Operand(l) && Operand(r) && Blank(before) && Blank(after) && IsOperator(op)
    ensures Resolve(host, vals, Print(l) + before + op + after + Print(r))
         == Eval(host, vals, Equality(l, before, op, after, r))
  {
    hide Resolve, Eval, IsOperator, Blank;
    var e := Equality(l, before, op, after, r);
    assert Print(e) == Print(l) + before + op + (after + Print(r));
    hide Print;
    Regroup(Print(l) + before + op, after, Print(r));
    TreeMeans(host, vals, e);
  }

  lemma Regroup(a: string, b: string, c: string)
    ensures a + (b + c) == a + b + c
  {
  }

  lemma NotMeans(host: Host, vals: Value, pad: string, e: Expr)
    requires Operand(e) && Blank(pad)
    ensures Resolve(host, vals, "!" + pad + Print(e)) == Bool(!host.truthy(Resolve(host, vals, Print(e))))
  {
    hide Resolve;
    TreeMeans(host, vals, e);
    TreeMeans(host, vals, Not(pad, e));
  }

  lemma GroupMeans(host: Host, vals: Value, before: string, e: Expr, after: string)
    requires Readable(e) && Blank(before) && Blank(after)
    ensures Resolve(host, vals, "(" + (before + Print(e) + after) + ")") == Resolve(host, vals, Print(e))
  {
    hide Resolve;
    TreeMeans(host, vals, e);
    TreeMeans(host, vals, Group(before, e, after));
  }

  // ----- paths -----

  predicate Nullish(v: Value) {
    v.Undefined? || v.Null?
  }

  /** A path is read: its head is no keyword standing alone. */
  predicate IsPath(head: string, steps: Steps) {
    IsIdentifier(head) && ReadableSteps(steps) && (steps.End? ==> !IsKeyword(head))
  }

  lemma HeadMeans(host: Host, vals: Value, head: string)
    requires IsIdentifier(head) && !IsKeyword(head)
    ensures Resolve(host, vals, head) == if Nullish(vals) then Undefined else host.member(vals, Text(head))
  {
    hide Resolve;
    TreeMeans(host, vals, Path(head, End));
    assert head + "" == head;
  }

  function Extend(steps: Steps, last: Steps): Steps {
    match steps
    case End => last
    case Dot(name, next) => Dot(name, Extend(next, last))
    case Index(before, key, after, next) => Index(before, key, after, Extend(next, last))
  }

  lemma {:induction false} ExtendPrints(steps: Steps, last: Steps)
    ensures PrintSteps(Extend(steps, last)) == PrintSteps(steps) + PrintSteps(last)
    ensures ReadableSteps(steps) && ReadableSteps(last) ==> ReadableSteps(Extend(steps, last))
    ensures Extend(steps, last).End? ==> steps.End? && last.End?
    decreases steps
  {
    hide Print, Readable;
    match steps
    case End =>
    case Dot(name, next) =>
      ExtendPrints(next, last);
    case Index(before, key, after, next) =>
      ExtendPrints(next, last);
      var inner := before + Print(key) + after;
      assert "[" + inner + "]" + (PrintSteps(next) + PrintSteps(last))
          == "[" + inner + "]" + PrintSteps(next) + PrintSteps(last);
  }

  lemma {:induction false} ExtendEvaluates(host: Host, vals: Value, cur: Value, steps: Steps, last: Steps)
    ensures EvalSteps(host, vals, cur, Extend(steps, last))
         == EvalSteps(host, vals, EvalSteps(host, vals, cur, steps), last)
    decreases steps
  {
    hide Eval, Member;
    match steps
    case End =>
    case Dot(name, next) =>
      ExtendEvaluates(host, vals, Member(host, cur, Text(name)), next, last);
    case Index(before, key, after, next) =>
      ExtendEvaluates(host, vals, Member(host, cur, Eval(host, vals, key)), next, last);
  }

  /** One more step after a path: a member of what the path gives, unless that is null or undefined. */
  lemma StepMeans(host: Host, vals: Value, head: string, steps: Steps, last: Steps)
    requires IsPath(head, steps) && ReadableSteps(last) && !last.End?
    ensures Resolve(host, vals, head + PrintSteps(steps) + PrintSteps(last))
         == EvalSteps(host, vals, Resolve(host, vals, head + PrintSteps(steps)), last)
  {
    hide Resolve, PrintSteps, EvalSteps, ReadableSteps, IsKeyword, IsIdentifier, Member;
    TreeMeans(host, vals, Path(head, steps));
    ExtendPrints(steps, last);
    ExtendEvaluates(host, vals, Member(host, vals, Text(head)), steps, last);
    TreeMeans(host, vals, Path(head, Extend(steps, last)));
    assert head + (PrintSteps(steps) + PrintSteps(last)) == head + PrintSteps(steps) + PrintSteps(last);
  }

  lemma DotMeans(host: Host, vals: Value, head: string, steps: Steps, name: string)
    requires IsPath(head, steps) && (IsIdentifier(name) || AllDigits(name))
    ensures var base := Resolve(host, vals, head + PrintSteps(steps));
            Resolve(host, vals, head + PrintSteps(steps) + "." + name)
            == if Nullish(base) then Undefined else host.member(base, Text(name))
  {
    hide Resolve;
    StepMeans(host, vals, head, steps, Dot(name, End));
    assert PrintSteps(Dot(name, End)) == "." + name;
    assert head + PrintSteps(steps) + ("." + name) == head + PrintSteps(steps) + "." + name;
  }

  lemma IndexMeans(host: Host, vals: Value, head: string, steps: Steps, before: string, key: Expr, after: string)
    requires IsPath(head, steps) && Readable(key) && Blank(before) && Blank(after)
    ensures var base := Resolve(host, vals, head + PrintSteps(steps));
            Resolve(host, vals, head + PrintSteps(steps) + "[" + (before + Print(key) + after) + "]")
            == if Nullish(base) then Undefined else host.member(base, Resolve(host, vals, Print(key)))
  {
    hide Resolve, Print, Readable, IsPath, Blank;
    var path, inner := head + PrintSteps(steps), before + Print(key) + after;
    var last := Index(before, key, after, End);
    TreeMeans(host, vals, key);
    StepMeans(host, vals, head, steps, last);
    assert EvalSteps(host, vals, Resolve(host, vals, path), last)
        == Member(host, Resolve(host, vals, path), Eval(host, vals, key));
    assert PrintSteps(last) == "[" + inner + "]" + "";
    hide PrintSteps, EvalSteps, Eval;
    BracketStep(path, inner);
  }

  lemma BracketStep(path: string, inner: string)
    ensures path + ("[" + inner + "]" + "") == path + "[" + inner + "]"
  {
  }
}
