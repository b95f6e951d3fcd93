/** Text scanning for the template runtime's expression language: trimming, bracket depth,
    the two depth-counting scans of `resolve`, and the identifier and digit matchers. */
module TemplateText {
  import opened Common

  // ----- whitespace -----

  /** The characters `String.prototype.trim` removes. */
  predicate IsSpace(c: char) {
    || '\t' <= c <= '\r' || c == ' ' || c == '\U{00A0}' || c == '\U{1680}' || '\U{2000}' <= c <= '\U{200A}'
    || c == '\U{2028}' || c == '\U{2029}' || c == '\U{202F}' || c == '\U{205F}' || c == '\U{3000}' || c == '\U{FEFF}'
  }

  predicate Blank(s: string) {
    forall i :: 0 <= i < |s| ==> IsSpace(s[i])
  }

  function TrimStart(s: string): (r: string)
    ensures |r| <= |s|
  {
    if s != "" && IsSpace(s[0]) then TrimStart(s[1..]) else s
  }

  function TrimEnd(s: string): (r: string)
    ensures |r| <= |s|
  {
    if s != "" && IsSpace(s[|s| - 1]) then TrimEnd(s[..|s| - 1]) else s
  }

  function Trim(s: string): (r: string)
    ensures |r| <= |s|
  {
    TrimEnd(TrimStart(s))
  }

  /** A text that `Trim` leaves alone. */
  predicate Trimmed(s: string) {
    s != "" && !IsSpace(s[0]) && !IsSpace(s[|s| - 1])
  }

  lemma {:induction false} TrimStartPad(a: string, x: string)
    requires Blank(a) && (x == "" || !IsSpace(x[0]))
    ensures TrimStart(a + x) == x
  {
    if a == "" {
      assert a + x == x;
    } else {
      assert (a + x)[1..] == a[1..] + x;
      TrimStartPad(a[1..], x);
    }
  }

  lemma {:induction false} TrimEndPad(x: string, b: string)
    requires Blank(b) && (x == "" || !IsSpace(x[|x| - 1]))
    ensures TrimEnd(x + b) == x
  {
    if b == "" {
      assert x + b == x;
    } else {
      assert (x + b)[..|x + b| - 1] == x + b[..|b| - 1];
      TrimEndPad(x, b[..|b| - 1]);
    }
  }

  lemma TrimPad(a: string, x: string, b: string)
    requires Blank(a) && Blank(b) && Trimmed(x)
    ensures Trim(a + x + b) == x
  {
    assert a + x + b == a + (x + b);
    TrimStartPad(a, x + b);
    TrimEndPad(x, b);
  }

  lemma {:induction false} TrimBlank(s: string)
    ensures Trim(s) == "" <==> Blank(s)
  {
    if s != "" && IsSpace(s[0]) {
      TrimBlank(s[1..]);
      assert Blank(s[1..]) ==> Blank(s) by {
        assert s == [s[0]] + s[1..];
      }
    } else if s != "" {
      TrimEndKeepsHead(s);
    }
  }

  lemma {:induction false} TrimEndKeepsHead(s: string)
    requires s != "" && !IsSpace(s[0])
    ensures TrimEnd(s) != ""
  {
    if IsSpace(s[|s| - 1]) {
      TrimEndKeepsHead(s[..|s| - 1]);
    }
  }

  // ----- bracket depth -----

  datatype Nesting = Parens | Brackets | Both

  function Delta(n: Nesting, c: char): int {
    (if !n.Brackets? && c == '(' then 1 else if !n.Brackets? && c == ')' then -1 else 0)
    + (if !n.Parens? && c == '[' then 1 else if !n.Parens? && c == ']' then -1 else 0)
  }

  /** Openers minus closers in the whole text. */
  function Depth(n: Nesting, s: string): int {
    if s == "" then 0 else Depth(n, s[..|s| - 1]) + Delta(n, s[|s| - 1])
  }

  lemma DepthStep(n: Nesting, s: string, i: nat)
    requires i < |s|
    ensures Depth(n, s[..i + 1]) == Depth(n, s[..i]) + Delta(n, s[i])
  {
    assert s[..i + 1][..i] == s[..i];
  }

  lemma {:induction false} DepthConcat(n: Nesting, a: string, b: string)
    ensures Depth(n, a + b) == Depth(n, a) + Depth(n, b)
  {
    if b == "" {
      assert a + b == a;
    } else {
      assert (a + b)[..|a + b| - 1] == a + b[..|b| - 1];
      DepthConcat(n, a, b[..|b| - 1]);
    }
  }

  lemma {:induction false} DepthBoth(s: string)
    ensures Depth(Both, s) == Depth(Parens, s) + Depth(Brackets, s)
  {
    if s != "" {
      DepthBoth(s[..|s| - 1]);
    }
  }

  predicate Balanced(n: Nesting, s: string) {
    Depth(n, s) == 0 && forall i :: 0 <= i <= |s| ==> Depth(n, s[..i]) >= 0
  }

  /** Parentheses and square brackets are each balanced. */
  predicate Nested(s: string) {
    Balanced(Parens, s) && Balanced(Brackets, s)
  }

  // ----- parensWrapWhole -----

  /** No closing parenthesis before the last character brings the depth back to zero. */
  predicate ParensWrapWhole(expr: string) {
    forall i :: 0 <= i < |expr| - 1 && expr[i] == ')' ==> Depth(Parens, expr[..i + 1]) != 0
  }

  method ScanParensWrapWhole(expr: string) returns (whole: bool)
    ensures whole <==> ParensWrapWhole(expr)
  {
    var depth, i := 0, 0;
    while i < |expr| - 1
      invariant 0 <= i <= |expr|
      invariant depth == Depth(Parens, expr[..i])
      invariant forall k :: 0 <= k < i && expr[k] == ')' ==> Depth(Parens, expr[..k + 1]) != 0
    {
      DepthStep(Parens, expr, i);
      if expr[i] == '(' {
        depth := depth + 1;
      } else if expr[i] == ')' {
        depth := depth - 1;
        if depth == 0 {
          return false;
        }
      }
      i := i + 1;
    }
    return true;
  }

  // ----- findTopLevelEquality -----

  predicate EqChar(c: char) {
    c == '=' || c == '!'
  }

  /** An equality operator starts at `i`: net depth 0, `=` or `!` followed by `=`, not preceded
      by either, with something other than blanks on its left. */
  predicate IsTopEquality(expr: string, i: nat)
    requires i < |expr|
  {
    && Depth(Both, expr[..i]) == 0
    && EqChar(expr[i])
    && i + 1 < |expr| && expr[i + 1] == '='
    && !(i > 0 && EqChar(expr[i - 1]))
    && !Blank(expr[..i])
  }

  /** The leftmost such position at or after `from`. */
  function FirstEquality(expr: string, from: nat): (r: Option<nat>)
    requires from <= |expr|
    ensures r.Some? ==> from <= r.value < |expr| && IsTopEquality(expr, r.value)
    ensures r.Some? ==> forall j :: from <= j < r.value ==> !IsTopEquality(expr, j)
    ensures r.None? ==> forall j :: from <= j < |expr| ==> !IsTopEquality(expr, j)
    decreases |expr| - from
  {
    if from == |expr| then None
    else if IsTopEquality(expr, from) then Some(from)
    else FirstEquality(expr, from + 1)
  }

  lemma FirstEqualityIs(expr: string, from: nat, k: nat)
    requires from <= k < |expr| && IsTopEquality(expr, k)
    requires forall j :: from <= j < k ==> !IsTopEquality(expr, j)
    ensures FirstEquality(expr, from) == Some(k)
  {
    assert FirstEquality(expr, from).Some?;
    var r := FirstEquality(expr, from).value;
    assert r == k by {
      assert IsTopEquality(expr, r);
    }
  }

  lemma FirstEqualityNone(expr: string, from: nat)
    requires from <= |expr|
    requires forall j :: from <= j < |expr| ==> !IsTopEquality(expr, j)
    ensures FirstEquality(expr, from) == None
  {
  }

  /** Operator length: three characters when a second `=` follows. */
  function OperatorLength(expr: string, i: nat): (n: nat)
    requires i < |expr| && IsTopEquality(expr, i)
    ensures 2 <= n && i + n <= |expr|
  {
    if i + 2 < |expr| && expr[i + 2] == '=' then 3 else 2
  }

  /** The tests of the scan at one position, the last one on the trimmed left side. */
  lemma TopEqualityTests(expr: string, i: nat)
    requires i < |expr|
    ensures IsTopEquality(expr, i)
       <==> && Depth(Both, expr[..i]) == 0
            && (expr[i] == '=' || expr[i] == '!') && i + 1 < |expr| && expr[i + 1] == '='
            && !(i > 0 && (expr[i - 1] == '=' || expr[i - 1] == '!'))
            && Trim(expr[..i]) != ""
  {
    hide Depth, Trim;
    TrimBlank(expr[..i]);
  }

  lemma OperatorText(expr: string, i: nat)
    requires i < |expr| && IsTopEquality(expr, i)
    ensures expr[i..i + OperatorLength(expr, i)]
         == if i + 2 < |expr| && expr[i + 2] == '=' then [expr[i]] + "==" else [expr[i]] + "="
  {
  }

  method ScanTopLevelEquality(expr: string) returns (r: Option<(nat, string)>)
    ensures r.None? <==> FirstEquality(expr, 0).None?
    ensures r.Some? ==>
              && FirstEquality(expr, 0) == Some(r.value.0)
              && var i := r.value.0;
              r.value.1 == expr[i..i + OperatorLength(expr, i)]
  {
    var depth := 0;
    assert Depth(Both, expr[..0]) == 0;
    hide Depth, Trim, IsTopEquality, FirstEquality, OperatorLength;
    for i := 0 to |expr|
      invariant depth == Depth(Both, expr[..i])
      invariant forall j :: 0 <= j < i ==> !IsTopEquality(expr, j)
    {
      DepthStep(Both, expr, i);
      TopEqualityTests(expr, i);
      var c := expr[i];
      if c == '[' || c == '(' {
        depth := depth + 1;
      } else if c == ']' || c == ')' {
        depth := depth - 1;
      } else if depth == 0 && (c == '=' || c == '!') && i + 1 < |expr| && expr[i + 1] == '=' {
        if i > 0 && (expr[i - 1] == '=' || expr[i - 1] == '!') {
          continue;
        }
        if Trim(expr[..i]) == "" {
          continue;
        }
        var op := if i + 2 < |expr| && expr[i + 2] == '=' then [c] + "==" else [c] + "=";
        OperatorText(expr, i);
        FirstEqualityIs(expr, 0, i);
        return Some((i, op));
      }
    }
    FirstEqualityNone(expr, 0);
    return None;
  }

  // ----- the bracket scan of resolvePath -----

  /** The square brackets opened in `s` are all closed after position `j`. */
  predicate Closes(s: string, j: nat)
    requires j < |s|
  {
    Depth(Brackets, s[..j + 1]) == 0
  }

  /** The first such position at or after `j`. */
  function FirstClose(s: string, j: nat): (r: Option<nat>)
    requires j <= |s|
    ensures r.Some? ==> j <= r.value < |s| && Closes(s, r.value)
    decreases |s| - j
  {
    if j == |s| then None
    else if Closes(s, j) then Some(j)
    else FirstClose(s, j + 1)
  }

  lemma {:induction false} FirstCloseIs(s: string, j: nat, k: nat)
    requires j <= k < |s| && Closes(s, k)
    requires forall i :: j <= i < k ==> !Closes(s, i)
    ensures FirstClose(s, j) == Some(k)
    decreases k - j
  {
    if j < k {
      FirstCloseIs(s, j + 1, k);
    }
  }

  // ----- identifiers, digits, numbers -----

  predicate IsDigit(c: char) {
    '0' <= c <= '9'
  }

  predicate IsIdentStart(c: char) {
    'A' <= c <= 'Z' || 'a' <= c <= 'z' || c == '_' || c == '$'
  }

  predicate IsIdentPart(c: char) {
    IsIdentStart(c) || IsDigit(c)
  }

  predicate IsIdentifier(s: string) {
    s != "" && IsIdentStart(s[0]) && forall i :: 0 <= i < |s| ==> IsIdentPart(s[i])
  }

  predicate AllDigits(s: string) {
    s != "" && forall i :: 0 <= i < |s| ==> IsDigit(s[i])
  }

  /** Length of the longest prefix whose characters all satisfy `p`. */
  function Span(p: char -> bool, s: string): (n: nat)
    ensures n <= |s|
    ensures forall i :: 0 <= i < n ==> p(s[i])
    ensures n < |s| ==> !p(s[n])
  {
    if s == "" || !p(s[0]) then 0 else 1 + Span(p, s[1..])
  }

  lemma {:induction false} SpanIs(p: char -> bool, s: string, n: nat)
    requires n <= |s| && (forall i :: 0 <= i < n ==> p(s[i])) && (n < |s| ==> !p(s[n]))
    ensures Span(p, s) == n
  {
    if n > 0 {
      SpanIs(p, s[1..], n - 1);
    }
  }

  /** Length of the identifier match at the start of `s`, 0 when there is none. */
  function IdentLength(s: string): (n: nat)
    ensures n <= |s|
  {
    if s != "" && IsIdentStart(s[0]) then Span(IsIdentPart, s) else 0
  }

  /** A member step after `.`: an identifier, or failing that a run of digits. */
  function MemberLength(s: string): (n: nat)
    ensures n <= |s|
  {
    if IdentLength(s) > 0 then IdentLength(s) else Span(IsDigit, s)
  }

  lemma IdentLengthIs(x: string, y: string)
    requires IsIdentifier(x) && (y == "" || !IsIdentPart(y[0]))
    ensures IdentLength(x + y) == |x|
  {
    SpanIs(IsIdentPart, x + y, |x|);
  }

  lemma DigitsLengthIs(x: string, y: string)
    requires AllDigits(x) && (y == "" || !IsIdentPart(y[0]))
    ensures MemberLength(x + y) == |x|
  {
    SpanIs(IsDigit, x + y, |x|);
  }

  /** `-?digits(.digits)?`, over the whole text. */
  predicate IsNumber(s: string) {
    var body := if s != "" && s[0] == '-' then s[1..] else s;
    var whole := Span(IsDigit, body);
    && whole > 0
    && (whole == |body| || (body[whole] == '.' && AllDigits(body[whole + 1..])))
  }

  lemma NumberChars(s: string)
    requires IsNumber(s)
    ensures s != "" && (IsDigit(s[0]) || s[0] == '-') && IsDigit(s[|s| - 1])
    ensures forall i :: 0 <= i < |s| ==> IsDigit(s[i]) || s[i] == '-' || s[i] == '.'
  {
    var shift := if s[0] == '-' then 1 else 0;
    var body := s[shift..];
    var whole := Span(IsDigit, body);
    forall i | 0 <= i < |s|
      ensures IsDigit(s[i]) || s[i] == '-' || s[i] == '.'
      ensures i == |s| - 1 ==> IsDigit(s[i])
    {
      if i >= shift {
        assert s[i] == body[i - shift];
        if i - shift > whole {
          assert body[whole + 1..][i - shift - whole - 1] == s[i];
        }
      }
    }
  }
}
