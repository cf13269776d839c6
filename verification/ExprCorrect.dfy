/** The evaluator gives every printed expression tree its meaning. */
module ExprCorrect {

  import opened Wrappers
  import opened Text
  import opened Expr

  datatype Operator = StrictEq | StrictNe | LooseEq | LooseNe

  datatype Tree =
    | True | False | Null | Undefined
    | Number(digits: string)
    | Str(chars: string, quote: char)
    | Head(name: string)
    | Member(obj: Tree, name: string)
    | Index(obj: Tree, key: Tree)
    | Not(operand: Tree)
    | Compare(op: Operator, left: Tree, right: Tree)

  predicate IsKeyword(s: string) { s == "true" || s == "false" || s == "null" || s == "undefined" }

  predicate IsIdent(s: string) { s != "" && IdentLength(s) == |s| }

  predicate IsMemberName(s: string) { s != "" && (IsIdent(s) || DigitRun(s) == |s|) }

  /** Text that cannot be mistaken for structure: no bracket, and no `==` or `!=`. */
  predicate PlainText(s: string) {
    && (forall i :: 0 <= i < |s| ==> s[i] !in {'(', ')', '[', ']'})
    && (forall i :: 0 <= i < |s| - 1 ==> !(IsEqualityMark(s[i]) && s[i + 1] == '='))
  }

  predicate IsPath(t: Tree) { t.Head? || t.Member? || t.Index? }

  /** A variable whose name, standing alone, would be read as a literal. */
  predicate NamesKeyword(t: Tree) { t.Head? && IsKeyword(t.name) }

  predicate WellFormed(t: Tree) {
    match t
    case Number(d) => IsNumber(d)
    case Str(s, q) => PlainText(s) && (q == '"' || q == '\'')
    case Head(n) => IsIdent(n)
    case Member(o, n) => IsPath(o) && WellFormed(o) && IsMemberName(n)
    case Index(o, k) => IsPath(o) && WellFormed(o) && WellFormed(k) && !NamesKeyword(k)
    case Not(e) => WellFormed(e) && !NamesKeyword(e)
    case Compare(_, l, r) => WellFormed(l) && !NamesKeyword(l) && WellFormed(r) && !NamesKeyword(r)
    case _ => true
  }

  /** A whole expression: well formed, and not a keyword standing for a variable. */
  predicate Printable(t: Tree) { WellFormed(t) && !NamesKeyword(t) }

  function OperatorText(op: Operator): string {
    match op
    case StrictEq => "==="
    case StrictNe => "!=="
    case LooseEq => "=="
    case LooseNe => "!="
  }

  function Print(t: Tree): string {
    match t
    case True => "true"
    case False => "false"
    case Null => "null"
    case Undefined => "undefined"
    case Number(d) => d
    case Str(s, q) => [q] + s + [q]
    case Head(n) => n
    case Member(o, n) => Print(o) + "." + n
    case Index(o, k) => Print(o) + "[" + Print(k) + "]"
    case Not(e) => "!(" + Print(e) + ")"
    case Compare(op, l, r) => "(" + Print(l) + ")" + OperatorText(op) + "(" + Print(r) + ")"
  }

  /** The value of a comparison from the values of its sides. */
  function Compared<V>(h: Host<V>, op: Operator, a: V, b: V): V {
    h.boolean(match op
              case StrictEq => h.strictEqual(a, b)
              case StrictNe => !h.strictEqual(a, b)
              case LooseEq => h.looseEqual(a, b)
              case LooseNe => !h.looseEqual(a, b))
  }

  /** What a tree means, read off the tree alone. */
  function Meaning<V>(h: Host<V>, vals: V, t: Tree): V {
    match t
    case True => h.boolean(true)
    case False => h.boolean(false)
    case Null => h.nul
    case Undefined => h.undef
    case Number(d) => h.number(d)
    case Str(s, _) => h.text(s)
    case Head(n) => if h.nullish(vals) then h.undef else h.get(vals, h.text(n))
    case Member(o, n) =>
      var v := Meaning(h, vals, o);
      if h.nullish(v) then h.undef else h.get(v, h.text(n))
    case Index(o, k) =>
      var v, key := Meaning(h, vals, o), Meaning(h, vals, k);
      if h.nullish(v) then h.undef else h.get(v, key)
    case Not(e) => h.boolean(!h.truthy(Meaning(h, vals, e)))
    case Compare(op, l, r) => Compared(h, op, Meaning(h, vals, l), Meaning(h, vals, r))
  }

  // ---- depth of concatenations --------------------------------------------------------------

  lemma {:induction false} DepthConcat(a: string, b: string, k: Brackets)
    ensures Depth(a + b, k) == Depth(a, k) + Depth(b, k)
  {
    if b == [] {
      assert a + b == a;
    } else {
      assert (a + b)[..|a + b| - 1] == a + b[..|b| - 1];
      DepthConcat(a, b[..|b| - 1], k);
    }
  }

  lemma DepthOne(c: char, k: Brackets)
    ensures Depth([c], k) == Delta(c, k)
  {
    assert [c][..0] == [];
  }

  lemma {:induction false} DepthFlat(s: string, k: Brackets)
    requires forall i :: 0 <= i < |s| ==> Delta(s[i], k) == 0
    ensures Depth(s, k) == 0
  {
    if s != [] { DepthFlat(s[..|s| - 1], k); }
  }

  /** Brackets open and close inside `s`, never below where they started. */
  ghost predicate Nested(s: string, k: Brackets) {
    Depth(s, k) == 0 && forall i :: 0 <= i <= |s| ==> Depth(s[..i], k) >= 0
  }

  lemma NestedFlat(s: string, k: Brackets)
    requires forall i :: 0 <= i < |s| ==> Delta(s[i], k) == 0
    ensures Nested(s, k)
  {
    DepthFlat(s, k);
    forall i | 0 <= i <= |s| ensures Depth(s[..i], k) >= 0 { DepthFlat(s[..i], k); }
  }

  /** The depth at a point inside the second of three parts. */
  lemma DepthInside(a: string, s: string, b: string, i: nat, k: Brackets)
    requires i <= |s|
    ensures (a + s + b)[..|a| + i] == a + s[..i]
    ensures Depth((a + s + b)[..|a| + i], k) == Depth(a, k) + Depth(s[..i], k)
  {
    assert (a + s + b)[..|a| + i] == a + s[..i];
    DepthConcat(a, s[..i], k);
  }

  lemma NestedConcat(a: string, b: string, k: Brackets)
    requires Nested(a, k) && Nested(b, k)
    ensures Nested(a + b, k)
  {
    DepthConcat(a, b, k);
    forall i | 0 <= i <= |a + b| ensures Depth((a + b)[..i], k) >= 0 {
      if i <= |a| {
        assert (a + b)[..i] == a[..i];
      } else {
        assert (a + b)[..i] == a + b[..i - |a|];
        DepthConcat(a, b[..i - |a|], k);
      }
    }
  }

  lemma NestedWrap(open: char, s: string, close: char, k: Brackets)
    requires Nested(s, k)
    requires (open == '(' && close == ')') || (open == '[' && close == ']')
    ensures Nested([open] + s + [close], k)
    ensures forall i :: 0 <= i <= |s| ==>
              Depth(([open] + s + [close])[..1 + i], k) == Delta(open, k) + Depth(s[..i], k)
  {
    var w := [open] + s + [close];
    DepthOne(open, k);
    DepthOne(close, k);
    DepthConcat([open] + s, [close], k);
    DepthConcat([open], s, k);
    forall i | 0 <= i <= |s| ensures Depth(w[..1 + i], k) == Delta(open, k) + Depth(s[..i], k) {
      DepthInside([open], s, [close], i, k);
    }
    forall i | 0 <= i <= |w| ensures Depth(w[..i], k) >= 0 {
      if i == 0 { assert w[..0] == []; }
      else if i <= |s| + 1 { assert Depth(w[..1 + (i - 1)], k) == Delta(open, k) + Depth(s[..i - 1], k); }
      else { assert w[..i] == w; }
    }
  }

  // ---- no operator in sight -----------------------------------------------------------------

  /** Every equality mark stands inside brackets. */
  ghost predicate Quiet(s: string) {
    forall i :: 0 <= i < |s| && IsEqualityMark(s[i]) ==> Depth(s[..i], Either) > 0
  }

  lemma QuietConcat(a: string, b: string)
    requires Quiet(a) && Quiet(b) && Nested(a, Either)
    ensures Quiet(a + b)
  {
    forall i | 0 <= i < |a + b| && IsEqualityMark((a + b)[i]) ensures Depth((a + b)[..i], Either) > 0 {
      if i < |a| {
        assert (a + b)[..i] == a[..i];
      } else {
        assert (a + b)[..i] == a + b[..i - |a|];
        DepthConcat(a, b[..i - |a|], Either);
        assert b[i - |a|] == (a + b)[i];
      }
    }
  }

  lemma QuietWrap(open: char, s: string, close: char)
    requires Nested(s, Either)
    requires (open == '(' && close == ')') || (open == '[' && close == ']')
    ensures Quiet([open] + s + [close])
  {
    var w := [open] + s + [close];
    NestedWrap(open, s, close, Either);
    forall i | 0 <= i < |w| && IsEqualityMark(w[i]) ensures Depth(w[..i], Either) > 0 {
      assert Depth(w[..1 + (i - 1)], Either) == 1 + Depth(s[..i - 1], Either);
    }
  }

  lemma QuietHasNoEquality(s: string)
    requires Quiet(s)
    ensures FindTopLevelEquality(s) == None
  {
  }

  // ---- identifiers and numbers --------------------------------------------------------------

  lemma {:induction false} PartRunOf(s: string, rest: string)
    requires PartRun(s) == |s| && (rest == [] || !IsIdentPart(rest[0]))
    ensures PartRun(s + rest) == |s|
  {
    if s == [] {
      assert s + rest == rest;
    } else {
      assert (s + rest)[1..] == s[1..] + rest;
      PartRunOf(s[1..], rest);
    }
  }

  lemma IdentLengthOf(s: string, rest: string)
    requires IsIdent(s) && (rest == [] || !IsIdentPart(rest[0]))
    ensures IdentLength(s + rest) == |s|
  {
    assert (s + rest)[1..] == s[1..] + rest;
    PartRunOf(s[1..], rest);
  }

  lemma {:induction false} DigitRunOf(s: string, rest: string)
    requires DigitRun(s) == |s| && (rest == [] || !IsDigit(rest[0]))
    ensures DigitRun(s + rest) == |s|
  {
    if s == [] {
      assert s + rest == rest;
    } else {
      assert (s + rest)[1..] == s[1..] + rest;
      DigitRunOf(s[1..], rest);
    }
  }

  lemma MemberLengthOf(s: string, rest: string)
    requires IsMemberName(s) && (rest == [] || !IsIdentPart(rest[0]))
    ensures MemberLength(s + rest) == |s|
  {
    if IsIdent(s) {
      IdentLengthOf(s, rest);
    } else {
      assert IsDigit(s[0]);
      DigitRunOf(s, rest);
      assert (s + rest)[0] == s[0];
    }
  }

  predicate IsNumberChar(c: char) { IsDigit(c) || c == '-' || c == '.' }

  /** Digits, and at most one fraction after them. */
  predicate Unsigned(t: string) {
    var d := DigitRun(t);
    d > 0 && (d == |t| || (t[d] == '.' && d + 1 < |t| && DigitRun(t[d + 1..]) == |t| - d - 1))
  }

  lemma UnsignedChars(t: string)
    requires Unsigned(t)
    ensures t != "" && IsDigit(t[0]) && IsDigit(t[|t| - 1])
    ensures forall i :: 0 <= i < |t| ==> IsNumberChar(t[i])
  {
    var d := DigitRun(t);
    DigitRunDigits(t);
    if d < |t| {
      var frac := t[d + 1..];
      DigitRunDigits(frac);
      forall i | d < i < |t| ensures IsDigit(t[i]) { assert t[i] == frac[i - d - 1]; }
    }
  }

  lemma NumberChars(s: string)
    requires IsNumber(s)
    ensures s != "" && IsNumberChar(s[0]) && s[0] != '.' && IsDigit(s[|s| - 1])
    ensures forall i :: 0 <= i < |s| ==> IsNumberChar(s[i])
  {
    var t := if s[0] == '-' then s[1..] else s;
    UnsignedChars(t);
    if s[0] == '-' {
      forall i | 0 < i < |s| ensures IsNumberChar(s[i]) { assert s[i] == t[i - 1]; }
    }
  }

  lemma {:induction false} IdentChars(s: string)
    requires IsMemberName(s)
    ensures forall i :: 0 <= i < |s| ==> IsIdentPart(s[i])
  {
    if IsIdent(s) {
      PartRunParts(s[1..]);
      forall i | 0 <= i < |s| ensures IsIdentPart(s[i]) { if i > 0 { assert s[i] == s[1..][i - 1]; } }
    } else {
      DigitRunDigits(s);
    }
  }

  lemma IdentPartIsFlat(c: char)
    requires IsIdentPart(c) || IsNumberChar(c)
    ensures !IsSpace(c) && !IsEqualityMark(c) && c !in {'(', ')', '[', ']', '"', '\''}
  {
  }

  lemma FlatChars(s: string)
    requires forall i :: 0 <= i < |s| ==> IsIdentPart(s[i]) || IsNumberChar(s[i])
    ensures forall k :: Nested(s, k)
    ensures Quiet(s)
  {
    forall i | 0 <= i < |s| ensures forall k :: Delta(s[i], k) == 0 { IdentPartIsFlat(s[i]); }
    forall k ensures Nested(s, k) { NestedFlat(s, k); }
    forall i | 0 <= i < |s| ensures !IsEqualityMark(s[i]) { IdentPartIsFlat(s[i]); }
  }

  // ---- printed trees ------------------------------------------------------------------------

  lemma KeywordChars(s: string)
    requires IsKeyword(s)
    ensures forall i :: 0 <= i < |s| ==> IsIdentPart(s[i])
  {
  }

  /** Nested in every kind of bracket, not empty, and with no blank at either end. */
  ghost predicate Solid(s: string) {
    (forall k :: Nested(s, k)) && s != "" && !IsSpace(s[0]) && !IsSpace(s[|s| - 1])
  }

  lemma SolidFlat(s: string)
    requires s != "" && forall i :: 0 <= i < |s| ==> IsIdentPart(s[i]) || IsNumberChar(s[i])
    ensures Solid(s) && Quiet(s)
  {
    FlatChars(s);
    IdentPartIsFlat(s[0]);
    IdentPartIsFlat(s[|s| - 1]);
  }

  lemma SolidStr(s: string, q: char)
    requires PlainText(s) && (q == '"' || q == '\'')
    ensures Solid([q] + s + [q])
  {
    forall k ensures Nested([q] + s + [q], k) { NestedFlat([q] + s + [q], k); }
  }

  lemma SolidAppend(a: string, b: string)
    requires Solid(a) && Solid(b)
    ensures Solid(a + b)
  {
    forall k ensures Nested(a + b, k) { NestedConcat(a, b, k); }
    assert (a + b)[0] == a[0] && (a + b)[|a + b| - 1] == b[|b| - 1];
  }

  lemma SolidWrap(open: char, s: string, close: char)
    requires Solid(s)
    requires (open == '(' && close == ')') || (open == '[' && close == ']')
    ensures Solid([open] + s + [close])
  {
    forall k ensures Nested([open] + s + [close], k) { NestedWrap(open, s, close, k); }
  }

  lemma SolidOperator(op: Operator)
    ensures Solid(OperatorText(op))
  {
    var s := OperatorText(op);
    forall k ensures Nested(s, k) { NestedFlat(s, k); }
  }

  lemma SolidBang()
    ensures Solid("!")
  {
    forall k ensures Nested("!", k) { NestedFlat("!", k); }
  }

  lemma DotName(n: string)
    requires IsMemberName(n)
    ensures Solid("." + n) && Quiet("." + n)
  {
    IdentChars(n);
    SolidFlat("." + n);
  }

  lemma SolidMember(a: string, n: string)
    requires Solid(a) && IsMemberName(n)
    ensures Solid(a + "." + n)
  {
    DotName(n);
    SolidAppend(a, "." + n);
    assert a + "." + n == a + ("." + n);
  }

  lemma SolidIndex(a: string, key: string)
    requires Solid(a) && Solid(key)
    ensures Solid(a + "[" + key + "]")
  {
    SolidWrap('[', key, ']');
    SolidAppend(a, "[" + key + "]");
    assert a + "[" + key + "]" == a + ("[" + key + "]");
  }

  lemma SolidNot(a: string)
    requires Solid(a)
    ensures Solid("!(" + a + ")")
  {
    SolidBang();
    SolidWrap('(', a, ')');
    SolidAppend("!", "(" + a + ")");
    assert "!(" + a + ")" == "!" + ("(" + a + ")");
  }

  lemma SolidCompare(a: string, op: Operator, b: string)
    requires Solid(a) && Solid(b)
    ensures Solid("(" + a + ")" + OperatorText(op) + "(" + b + ")")
  {
    SolidOperator(op);
    SolidWrap('(', a, ')');
    SolidWrap('(', b, ')');
    var front := "(" + a + ")" + OperatorText(op);
    SolidAppend("(" + a + ")", OperatorText(op));
    SolidAppend(front, "(" + b + ")");
    assert front + "(" + b + ")" == front + ("(" + b + ")");
  }

  /** Every printed tree is solid. */
  lemma {:induction false} PrintShape(t: Tree)
    requires WellFormed(t)
    ensures Solid(Print(t))
  {
    match t {
      case Number(d) => NumberChars(d); SolidFlat(d);
      case Str(s, q) => SolidStr(s, q);
      case Head(n) => IdentChars(n); SolidFlat(n);
      case Member(o, n) => PrintShape(o); SolidMember(Print(o), n);
      case Index(o, key) => PrintShape(o); PrintShape(key); SolidIndex(Print(o), Print(key));
      case Not(e) => PrintShape(e); SolidNot(Print(e));
      case Compare(op, l, r) => PrintShape(l); PrintShape(r); SolidCompare(Print(l), op, Print(r));
      case _ => KeywordChars(Print(t)); SolidFlat(Print(t));
    }
  }

  lemma QuietMember(a: string, n: string)
    requires Solid(a) && Quiet(a) && IsMemberName(n)
    ensures Quiet(a + "." + n) && '.' in a + "." + n && (a + "." + n)[0] == a[0]
  {
    DotName(n);
    assert Nested(a, Either);
    QuietConcat(a, "." + n);
    assert a + "." + n == a + ("." + n);
    assert (a + "." + n)[|a|] == '.';
  }

  lemma QuietIndex(a: string, key: string)
    requires Solid(a) && Quiet(a) && Solid(key)
    ensures Quiet(a + "[" + key + "]") && '[' in a + "[" + key + "]" && (a + "[" + key + "]")[0] == a[0]
  {
    assert Nested(a, Either) && Nested(key, Either);
    QuietWrap('[', key, ']');
    QuietConcat(a, "[" + key + "]");
    assert a + "[" + key + "]" == a + ("[" + key + "]");
    assert (a + "[" + key + "]")[|a|] == '[';
  }

  /** A path: no operator outside brackets, an identifier in front, and not a keyword unless it is a
      bare name. */
  lemma {:induction false} PathShape(t: Tree)
    requires WellFormed(t) && IsPath(t)
    ensures Quiet(Print(t)) && Print(t) != "" && IsIdentStart(Print(t)[0])
    ensures !t.Head? ==> '.' in Print(t) || '[' in Print(t)
  {
    match t {
      case Head(n) => IdentChars(n); SolidFlat(n);
      case Member(o, n) => PathShape(o); PrintShape(o); QuietMember(Print(o), n);
      case Index(o, key) => PathShape(o); PrintShape(o); PrintShape(key); QuietIndex(Print(o), Print(key));
    }
  }

  // ---- wrapping parens ----------------------------------------------------------------------

  /** A nested expression in parens is the expression itself. */
  lemma ResolveWrapped<V>(h: Host<V>, vals: V, s: string)
    requires Nested(s, Round)
    ensures Resolve(h, vals, "(" + s + ")") == Resolve(h, vals, s)
  {
    var w := "(" + s + ")";
    NestedWrap('(', s, ')', Round);
    TrimFixed(w);
    forall i | 0 <= i < |w| - 1 ensures !(w[i] == ')' && Depth(w[..i + 1], Round) == 0) {
      assert Depth(w[..1 + i], Round) == 1 + Depth(s[..i], Round);
    }
    assert w[1..|w| - 1] == s;
  }

  // ---- comparisons --------------------------------------------------------------------------

  lemma NotWrapped(a: string, rest: string)
    requires Nested(a, Round) && rest != ""
    ensures !ParensWrapWhole("(" + a + ")" + rest)
  {
    var s := "(" + a + ")" + rest;
    NestedWrap('(', a, ')', Round);
    var i := |a| + 1;
    assert s[..i + 1] == "(" + a + ")";
    assert s[i] == ')' && Depth(s[..i + 1], Round) == 0;
  }

  lemma NoEqualityInside(a: string, rest: string, j: nat)
    requires Nested(a, Either) && j < |a| + 2
    ensures !EqualityAt("(" + a + ")" + rest, j)
  {
    var w := "(" + a + ")";
    var s := w + rest;
    NestedWrap('(', a, ')', Either);
    if j == 0 {
      assert s[0] == '(';
    } else if j <= |a| {
      assert s[..j] == w[..1 + (j - 1)];
      assert Depth(w[..1 + (j - 1)], Either) == 1 + Depth(a[..j - 1], Either);
    } else {
      assert s[j] == ')';
    }
  }

  lemma FirstOperator(a: string, op: Operator, rest: string)
    requires Nested(a, Either) && (rest == "" || rest[0] != '=')
    ensures FindTopLevelEquality("(" + a + ")" + OperatorText(op) + rest) == Some(|a| + 2)
    ensures OperatorLength("(" + a + ")" + OperatorText(op) + rest, |a| + 2) == |OperatorText(op)|
  {
    var w, mark := "(" + a + ")", OperatorText(op);
    var s := w + mark + rest;
    var at := |a| + 2;
    assert s == w + (mark + rest);
    OperatorAt(a, mark, rest);
    forall j | 0 <= j < at ensures !EqualityAt(s, j) { NoEqualityInside(a, mark + rest, j); }
    FirstEquality(s, 0, at);
  }

  lemma OperatorAt(a: string, mark: string, rest: string)
    requires Nested(a, Either) && (rest == "" || rest[0] != '=')
    requires mark in {"==", "===", "!=", "!=="}
    ensures var s := "(" + a + ")" + mark + rest;
            EqualityAt(s, |a| + 2) && OperatorLength(s, |a| + 2) == |mark|
  {
    var w := "(" + a + ")";
    var s := w + mark + rest;
    var at := |a| + 2;
    NestedWrap('(', a, ')', Either);
    assert s[..at] == w && s[at] == mark[0] && s[at + 1] == '=' && s[at - 1] == ')';
    TrimFixed(w);
    if |mark| == 2 && rest != "" { assert s[at + 2] == rest[0]; }
    if |mark| == 3 { assert s[at + 2] == mark[2]; }
  }

  lemma {:induction false} FirstEquality(s: string, i: nat, at: nat)
    requires i <= at < |s| && EqualityAt(s, at) && forall j :: i <= j < at ==> !EqualityAt(s, j)
    ensures FindEqualityFrom(s, i) == Some(at)
    decreases at - i
  {
    if i < at { FirstEquality(s, i + 1, at); }
  }

  lemma CompareOpens<V>(h: Host<V>, vals: V, a: string, rest: string)
    requires Nested(a, Round) && rest != "" && rest[|rest| - 1] == ')'
    ensures Resolve(h, vals, "(" + a + ")" + rest) == ResolveOpen(h, vals, "(" + a + ")" + rest)
  {
    TrimFixed("(" + a + ")" + rest);
    NotWrapped(a, rest);
  }

  lemma CompareSplits<V>(h: Host<V>, vals: V, s: string, at: nat, op: Operator, right: string)
    requires at + |OperatorText(op)| <= |s| && s[at] == OperatorText(op)[0]
    requires s[at + |OperatorText(op)|..] == right
    requires FindTopLevelEquality(s) == Some(at) && OperatorLength(s, at) == |OperatorText(op)|
    ensures ResolveOpen(h, vals, s)
            == Compared(h, op, Resolve(h, vals, s[..at]), Resolve(h, vals, right))
  {
  }

  lemma ResolveCompare<V>(h: Host<V>, vals: V, a: string, op: Operator, b: string)
    requires Nested(a, Round) && Nested(a, Either) && Nested(b, Round)
    ensures Resolve(h, vals, "(" + a + ")" + OperatorText(op) + "(" + b + ")")
            == Compared(h, op, Resolve(h, vals, a), Resolve(h, vals, b))
  {
    var left, mark, right := "(" + a + ")", OperatorText(op), "(" + b + ")";
    var s := left + mark + right;
    var at := |a| + 2;
    assert s == left + mark + "(" + b + ")";
    assert s == left + (mark + right);
    CompareOpens(h, vals, a, mark + right);
    FirstOperator(a, op, right);
    assert s[..at] == left && s[at] == mark[0] && s[at + |mark|..] == right;
    CompareSplits(h, vals, s, at, op, right);
    ResolveWrapped(h, vals, a);
    ResolveWrapped(h, vals, b);
  }

  lemma NotShape(s: string, w: string, a: string)
    requires Nested(a, Round) && Nested(a, Either) && w == "(" + a + ")" && s == "!" + w
    ensures Trim(s) == s && s[0] == '!' && s[1..] == w && FindTopLevelEquality(s) == None
  {
    TrimFixed(s);
    QuietWrap('(', a, ')');
    forall j | 0 <= j < |s| ensures !EqualityAt(s, j) {
      if j == 0 { assert s[1] == '('; } else { NoEqualityAfterBang(s, w, j); }
    }
  }

  lemma NoEqualityAfterBang(s: string, w: string, j: nat)
    requires s == "!" + w && 0 < j < |s| && Quiet(w)
    ensures !EqualityAt(s, j)
  {
    assert s[..j] == "!" + w[..j - 1];
    DepthConcat("!", w[..j - 1], Either);
    DepthOne('!', Either);
    assert w[j - 1] == s[j];
  }

  lemma ResolveBang<V>(h: Host<V>, vals: V, s: string, w: string)
    requires s != "" && Trim(s) == s && s[0] == '!' && s[1..] == w && FindTopLevelEquality(s) == None
    ensures Resolve(h, vals, s) == h.boolean(!h.truthy(Resolve(h, vals, w)))
  {
  }

  lemma ResolveNot<V>(h: Host<V>, vals: V, a: string)
    requires Nested(a, Round) && Nested(a, Either)
    ensures Resolve(h, vals, "!(" + a + ")") == h.boolean(!h.truthy(Resolve(h, vals, a)))
  {
    var w := "(" + a + ")";
    var s := "!" + w;
    assert s == "!(" + a + ")";
    NotShape(s, w, a);
    ResolveBang(h, vals, s, w);
    ResolveWrapped(h, vals, a);
  }

  // ---- literals -----------------------------------------------------------------------------

  lemma ResolveQuiet<V>(h: Host<V>, vals: V, s: string)
    requires s != "" && !IsSpace(s[0]) && !IsSpace(s[|s| - 1])
    requires s[0] != '(' && s[0] != '!' && FindTopLevelEquality(s) == None
    ensures Resolve(h, vals, s) == ResolveAtom(h, vals, s)
  {
    TrimFixed(s);
  }

  /** A string literal standing alone has its text as its value exactly when no operator is found in
      it; brackets inside it matter only through that. The host's truth values must not be texts. */
  lemma LoneLiteral<V>(h: Host<V>, vals: V, s: string, q: char)
    requires q == '"' || q == '\''
    requires forall b :: h.boolean(b) != h.text(s)
    ensures Resolve(h, vals, [q] + s + [q]) == h.text(s) <==> FindTopLevelEquality([q] + s + [q]).None?
  {
    var w := [q] + s + [q];
    if FindTopLevelEquality(w).None? {
      ResolveUnsplit(h, vals, s, q);
    } else {
      TrimFixed(w);
      assert w[0] == q != '(';
      var b := SplitGivesTruth(h, vals, w);
    }
  }

  lemma SplitGivesTruth<V>(h: Host<V>, vals: V, expr: string) returns (b: bool)
    requires expr != "" && FindTopLevelEquality(expr).Some?
    ensures ResolveOpen(h, vals, expr) == h.boolean(b)
  {
    var i := FindTopLevelEquality(expr).value;
    var n := OperatorLength(expr, i);
    var lv, rv := Resolve(h, vals, expr[..i]), Resolve(h, vals, expr[i + n..]);
    var same := if n == 3 then h.strictEqual(lv, rv) else h.looseEqual(lv, rv);
    b := if expr[i] == '=' then same else !same;
  }

  lemma ResolveUnsplit<V>(h: Host<V>, vals: V, s: string, q: char)
    requires (q == '"' || q == '\'') && FindTopLevelEquality([q] + s + [q]).None?
    ensures Resolve(h, vals, [q] + s + [q]) == h.text(s)
  {
    var w := [q] + s + [q];
    ResolveQuiet(h, vals, w);
    assert w[1..|w| - 1] == s;
    if IsNumber(w) { NumberChars(w); }
    assert w[0] == q;
  }

  lemma ResolveStr<V>(h: Host<V>, vals: V, s: string, q: char)
    requires PlainText(s) && (q == '"' || q == '\'')
    ensures Resolve(h, vals, [q] + s + [q]) == h.text(s)
  {
    var w := [q] + s + [q];
    forall j | 0 <= j < |w| ensures !EqualityAt(w, j) {
      if 0 < j && j + 1 < |w| {
        assert w[j] == s[j - 1];
        if j < |s| { assert w[j + 1] == s[j]; }
      }
    }
    ResolveUnsplit(h, vals, s, q);
  }

  lemma ResolveNumber<V>(h: Host<V>, vals: V, d: string)
    requires IsNumber(d)
    ensures Resolve(h, vals, d) == h.number(d)
  {
    NumberChars(d);
    FlatChars(d);
    IdentPartIsFlat(d[0]);
    IdentPartIsFlat(d[|d| - 1]);
    ResolveQuiet(h, vals, d);
  }

  lemma ResolveKeyword<V>(h: Host<V>, vals: V, s: string)
    requires IsKeyword(s)
    ensures Resolve(h, vals, s) == ResolveAtom(h, vals, s)
  {
    KeywordChars(s);
    FlatChars(s);
    ResolveQuiet(h, vals, s);
  }

  // ---- paths --------------------------------------------------------------------------------

  /** Scanning from inside a nested stretch finds the bracket right after it. */
  lemma {:induction false} ClosingAfter(pre: string, s: string, rest: string, m: nat)
    requires m <= |s| && Nested(s, Square)
    ensures var expr := pre + s + "]" + rest;
            ClosingBracket(expr, |pre| + m, 1 + Depth(s[..m], Square)) == Some(|pre| + |s|)
    decreases |s| - m
  {
    var expr := pre + s + "]" + rest;
    if m == |s| {
      assert s[..m] == s;
      assert expr[|pre| + m] == ']';
    } else {
      assert expr[|pre| + m] == s[m];
      DepthSnoc(s, m, Square);
      assert Depth(s[..m + 1], Square) >= 0;
      ClosingAfter(pre, s, rest, m + 1);
    }
  }

  /** The expression ends at `i`, or a path goes on there. */
  predicate PathGoesOn(expr: string, i: nat) {
    i == |expr| || (i < |expr| && (expr[i] == '.' || expr[i] == '['))
  }

  predicate Opens(expr: string, s: string) { |s| <= |expr| && expr[..|s|] == s }

  /** What the walker finds where a printed expression goes on with a member. */
  predicate MemberHere(expr: string, i: nat, n: string) {
    && i + 1 + |n| <= |expr| && n != "" && expr[i] == '.'
    && MemberLength(expr[i + 1..]) == |n| && expr[i + 1..i + 1 + |n|] == n
  }

  /** What the walker finds where a printed expression goes on with an index. */
  predicate IndexHere(expr: string, i: nat, inner: string) {
    && i + |inner| + 2 <= |expr| && expr[i] == '[' && expr[i + 1..i + 1 + |inner|] == inner
    && ClosingBracket(expr, i + 1, 1) == Some(i + 1 + |inner|)
  }

  lemma HeadPrefix(expr: string, n: string)
    requires Opens(expr, n) && IsIdent(n) && PathGoesOn(expr, |n|)
    ensures IdentLength(expr) == |n| && expr[..|n|] == n
  {
    assert expr == n + expr[|n|..];
    IdentLengthOf(n, expr[|n|..]);
  }

  lemma MemberPrefix(expr: string, pre: string, n: string)
    requires Opens(expr, pre + "." + n) && IsMemberName(n) && PathGoesOn(expr, |pre| + 1 + |n|)
    ensures Opens(expr, pre) && PathGoesOn(expr, |pre|) && MemberHere(expr, |pre|, n)
  {
    var i, rest := |pre|, expr[|pre| + 1 + |n|..];
    assert expr[..i] == (pre + "." + n)[..i] == pre;
    assert expr[i] == (pre + "." + n)[i] == '.';
    assert expr[i + 1..i + 1 + |n|] == (pre + "." + n)[i + 1..] == n;
    assert expr[i + 1..] == n + rest;
    MemberLengthOf(n, rest);
  }

  lemma IndexPrefix(expr: string, pre: string, inner: string)
    requires Opens(expr, pre + "[" + inner + "]") && Nested(inner, Square)
    ensures Opens(expr, pre) && PathGoesOn(expr, |pre|) && IndexHere(expr, |pre|, inner)
  {
    var front := pre + "[" + inner + "]";
    var rest := expr[|front|..];
    assert expr == front + rest;
    FrontOf(pre + "[" + inner + "]", rest, pre, "[" + inner + "]");
    MiddleOf(pre, "[", inner + "]" + rest, expr);
    MiddleOf(pre + "[", inner, "]" + rest, expr);
    ClosingAfter(pre + "[", inner, rest, 0);
    assert inner[..0] == [];
  }

  lemma FrontOf(s: string, rest: string, a: string, b: string)
    requires s == a + b
    ensures (s + rest)[..|a|] == a
  {
  }

  lemma MiddleOf(a: string, b: string, c: string, s: string)
    requires s == a + b + c
    ensures s[|a|..|a| + |b|] == b
    ensures |b| == 1 ==> s[|a|] == b[0]
  {
  }

  lemma StepMember<V>(h: Host<V>, vals: V, expr: string, j: nat, cur: V, n: string, i: nat, v: V)
    requires MemberHere(expr, j, n) && i == j + 1 + |n| && v == Step(h, cur, h.text(n))
    ensures PathFrom(h, vals, expr, j, cur) == PathFrom(h, vals, expr, i, v)
  {
    PathMember(h, vals, expr, j, cur, |n|);
  }

  lemma StepIndex<V>(h: Host<V>, vals: V, expr: string, j: nat, cur: V, inner: string, key: V, i: nat, v: V)
    requires IndexHere(expr, j, inner) && key == Resolve(h, vals, inner)
    requires i == j + |inner| + 2 && v == Step(h, cur, key)
    ensures PathFrom(h, vals, expr, j, cur) == PathFrom(h, vals, expr, i, v)
  {
    PathIndex(h, vals, expr, j, cur, j + 1 + |inner|, key);
  }

  /** The path stands at the front of the expression as the walker takes it apart. */
  predicate Laid(t: Tree, expr: string) {
    match t
    case Head(n) => |n| <= |expr| && IdentLength(expr) == |n| > 0 && expr[..|n|] == n
    case Member(o, n) => Laid(o, expr) && MemberHere(expr, |Print(o)|, n)
    case Index(o, key) => Laid(o, expr) && IndexHere(expr, |Print(o)|, Print(key))
    case _ => false
  }

  lemma {:induction false} PrintedLaid(t: Tree, text: string, expr: string)
    requires WellFormed(t) && IsPath(t) && text == Print(t) && Opens(expr, text) && PathGoesOn(expr, |text|)
    ensures Laid(t, expr)
  {
    match t {
      case Head(n) => HeadPrefix(expr, n);
      case Member(o, n) =>
        MemberPrefix(expr, Print(o), n);
        PrintedLaid(o, Print(o), expr);
      case Index(o, key) =>
        PrintShape(key);
        IndexPrefix(expr, Print(o), Print(key));
        PrintedLaid(o, Print(o), expr);
    }
  }

  /** The keys of the path's indexes resolve to their meanings. */
  ghost predicate KeysResolve<V>(h: Host<V>, vals: V, t: Tree) {
    match t
    case Member(o, _) => KeysResolve(h, vals, o)
    case Index(o, key) => KeysResolve(h, vals, o) && Resolve(h, vals, Print(key)) == Meaning(h, vals, key)
    case _ => true
  }

  lemma {:induction false} PrintedKeysResolve<V>(h: Host<V>, vals: V, t: Tree)
    requires WellFormed(t) && IsPath(t)
    ensures KeysResolve(h, vals, t)
    decreases t, 1
  {
    match t {
      case Head(_) =>
      case Member(o, _) => PrintedKeysResolve(h, vals, o);
      case Index(o, key) =>
        PrintedKeysResolve(h, vals, o);
        ResolvePrinted(h, vals, key);
    }
  }

  lemma {:induction false} WalkLaid<V>(h: Host<V>, vals: V, t: Tree, expr: string, i: nat, v: V)
    requires Laid(t, expr) && KeysResolve(h, vals, t) && i == |Print(t)| && v == Meaning(h, vals, t)
    ensures i <= |expr| && ResolvePath(h, vals, expr) == PathFrom(h, vals, expr, i, v)
    decreases t
  {
    match t {
      case Head(n) => PathStart(h, vals, expr, i);
      case Member(o, n) =>
        var j, cur := |Print(o)|, Meaning(h, vals, o);
        WalkLaid(h, vals, o, expr, j, cur);
        StepMember(h, vals, expr, j, cur, n, i, v);
      case Index(o, key) =>
        var j, cur := |Print(o)|, Meaning(h, vals, o);
        WalkLaid(h, vals, o, expr, j, cur);
        StepIndex(h, vals, expr, j, cur, Print(key), Meaning(h, vals, key), i, v);
    }
  }

  /** A printed path at the front of an expression is walked to its meaning. */
  lemma {:induction false} WalkPrinted<V>(h: Host<V>, vals: V, t: Tree, text: string, expr: string)
    requires WellFormed(t) && IsPath(t) && text == Print(t) && Opens(expr, text) && PathGoesOn(expr, |text|)
    ensures ResolvePath(h, vals, expr) == PathFrom(h, vals, expr, |text|, Meaning(h, vals, t))
    decreases t, 2
  {
    PrintedLaid(t, text, expr);
    PrintedKeysResolve(h, vals, t);
    WalkLaid(h, vals, t, expr, |text|, Meaning(h, vals, t));
  }

  lemma PathIsNoLiteral(t: Tree)
    requires Printable(t) && IsPath(t)
    ensures !IsKeyword(Print(t)) && !IsNumber(Print(t)) && Print(t) != "" && IsIdentStart(Print(t)[0])
  {
    PathShape(t);
    IdentPartIsFlat(Print(t)[0]);
    if IsNumber(Print(t)) { NumberChars(Print(t)); }
    if IsKeyword(Print(t)) { KeywordChars(Print(t)); }
  }

  lemma ResolvePathTree<V>(h: Host<V>, vals: V, t: Tree)
    requires Printable(t) && IsPath(t)
    ensures Resolve(h, vals, Print(t)) == ResolvePath(h, vals, Print(t))
  {
    PrintShape(t);
    PathShape(t);
    PathIsNoLiteral(t);
    QuietHasNoEquality(Print(t));
    AtomOfPath(h, vals, Print(t));
    ResolveQuiet(h, vals, Print(t));
  }

  lemma AtomOfPath<V>(h: Host<V>, vals: V, s: string)
    requires !IsKeyword(s) && !IsNumber(s) && s != "" && IsIdentStart(s[0])
    ensures ResolveAtom(h, vals, s) == ResolvePath(h, vals, s)
  {
  }

  /** Every printable tree, printed and resolved, has its meaning, whatever the host's primitives do. */
  lemma {:induction false} ResolvePrinted<V>(h: Host<V>, vals: V, t: Tree)
    requires Printable(t)
    ensures Resolve(h, vals, Print(t)) == Meaning(h, vals, t)
    decreases t, 3
  {
    match t {
      case Number(d) => ResolveNumber(h, vals, d);
      case Str(s, q) => ResolveStr(h, vals, s, q);
      case Not(e) =>
        PrintShape(e);
        ResolvePrinted(h, vals, e);
        ResolveNot(h, vals, Print(e));
      case Compare(op, l, r) =>
        PrintShape(l);
        PrintShape(r);
        ResolvePrinted(h, vals, l);
        ResolvePrinted(h, vals, r);
        ResolveCompare(h, vals, Print(l), op, Print(r));
      case True => ResolveKeyword(h, vals, "true");
      case False => ResolveKeyword(h, vals, "false");
      case Null => ResolveKeyword(h, vals, "null");
      case Undefined => ResolveKeyword(h, vals, "undefined");
      case _ =>
        WalkPrinted(h, vals, t, Print(t), Print(t));
        ResolvePathTree(h, vals, t);
    }
  }
}
