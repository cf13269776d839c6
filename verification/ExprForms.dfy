/** Expressions as they are usually written: without parentheses, with whitespace, or malformed. */
module ExprForms {

  import opened Wrappers
  import opened Text
  import opened Expr
  import opened ExprCorrect

  // ---- whitespace ---------------------------------------------------------------------------

  lemma {:induction false} StartSkipped(front: string, s: string)
    requires AllSpace(front) && s != "" && !IsSpace(s[0])
    ensures TrimStart(front + s) == s
  {
    if front == "" {
      assert front + s == s;
    } else {
      assert (front + s)[1..] == front[1..] + s;
      StartSkipped(front[1..], s);
    }
  }

  lemma {:induction false} EndSkipped(s: string, back: string)
    requires AllSpace(back) && s != "" && !IsSpace(s[|s| - 1])
    ensures TrimEnd(s + back) == s
  {
    if back == "" {
      assert s + back == s;
    } else {
      assert (s + back)[..|s + back| - 1] == s + back[..|back| - 1];
      EndSkipped(s, back[..|back| - 1]);
    }
  }

  lemma TrimmedAway(front: string, s: string, back: string)
    requires AllSpace(front) && AllSpace(back) && s != "" && !IsSpace(s[0]) && !IsSpace(s[|s| - 1])
    ensures Trim(front + s + back) == s
  {
    assert front + s + back == front + (s + back);
    StartSkipped(front, s + back);
    EndSkipped(s, back);
  }

  lemma SameTrim<V>(h: Host<V>, vals: V, a: string, b: string)
    requires Trim(a) == Trim(b)
    ensures Resolve(h, vals, a) == Resolve(h, vals, b)
  {
  }

  /** Whitespace around an expression changes nothing. */
  lemma ResolveTrims<V>(h: Host<V>, vals: V, front: string, s: string, back: string)
    requires AllSpace(front) && AllSpace(back) && s != "" && !IsSpace(s[0]) && !IsSpace(s[|s| - 1])
    ensures Resolve(h, vals, front + s + back) == Resolve(h, vals, s)
  {
    TrimmedAway(front, s, back);
    TrimFixed(s);
    SameTrim(h, vals, front + s + back, s);
  }

  /** An expression of whitespace only is undefined. */
  lemma BlankIsUndefined<V>(h: Host<V>, vals: V, s: string)
    requires AllSpace(s)
    ensures Resolve(h, vals, s) == h.undef
  {
    StartOfSpace(s);
  }

  lemma {:induction false} StartOfSpace(s: string)
    requires AllSpace(s)
    ensures TrimStart(s) == "" && Trim(s) == ""
  {
    if s != "" { StartOfSpace(s[1..]); }
  }

  // ---- operators without parentheses --------------------------------------------------------

  /** A whole operand: brackets balanced, and every mark outside them followed by something that makes
      no operator of it. */
  ghost predicate Operand(s: string) {
    && Depth(s, Either) == 0
    && forall i :: 0 <= i < |s| && IsEqualityMark(s[i]) && Depth(s[..i], Either) == 0 ==>
         i + 1 < |s| && s[i + 1] != '='
  }

  lemma OperandHasNoOperator(s: string, left: string, rest: string, j: nat)
    requires Operand(left) && j < |left| && s == left + rest
    ensures !EqualityAt(s, j)
  {
    assert s[..j] == left[..j] && s[j] == left[j];
    if j + 1 < |left| { assert s[j + 1] == left[j + 1]; }
  }

  lemma OperatorHere(left: string, mark: string, right: string)
    requires Operand(left) && Trim(left) != "" && mark in {"==", "===", "!=", "!=="}
    requires right == "" || right[0] != '='
    ensures var s := left + mark + right;
            EqualityAt(s, |left|) && OperatorLength(s, |left|) == |mark|
  {
    var s, at := left + mark + right, |left|;
    assert s[..at] == left && s[at] == mark[0] && s[at + 1] == mark[1] == '=';
    if at > 0 {
      assert s[at - 1] == left[at - 1];
      LastIsNoMark(left);
    }
    if |mark| == 2 && right != "" { assert s[at + 2] == right[0]; }
    if |mark| == 3 { assert s[at + 2] == mark[2]; }
  }

  lemma LastIsNoMark(left: string)
    requires Operand(left) && left != ""
    ensures !IsEqualityMark(left[|left| - 1])
  {
    var i := |left| - 1;
    assert Depth(left, Either) == Depth(left[..i], Either) + Delta(left[i], Either);
  }

  /** Of several operators the first one outside brackets divides the expression, and its sides are
      resolved on their own: a comparison without parentheses. */
  lemma BareCompare<V>(h: Host<V>, vals: V, left: string, op: Operator, right: string)
    requires Operand(left) && left != "" && !IsSpace(left[0]) && left[0] != '('
    requires right != "" && right[0] != '=' && !IsSpace(right[|right| - 1])
    ensures Resolve(h, vals, left + OperatorText(op) + right)
            == Compared(h, op, Resolve(h, vals, left), Resolve(h, vals, right))
  {
    var mark := OperatorText(op);
    var s, at := left + mark + right, |left|;
    BareOperator(left, mark, right);
    TrimFixed(s);
    assert s[..at] == left && s[at] == mark[0] && s[at + |mark|..] == right;
    CompareSplits(h, vals, s, at, op, right);
    Unwrapped(h, vals, s);
  }

  lemma Unwrapped<V>(h: Host<V>, vals: V, s: string)
    requires s != "" && Trim(s) == s && s[0] != '('
    ensures Resolve(h, vals, s) == ResolveOpen(h, vals, s)
  {
  }

  lemma BareOperator(left: string, mark: string, right: string)
    requires Operand(left) && left != "" && !IsSpace(left[0]) && mark in {"==", "===", "!=", "!=="}
    requires right != "" && right[0] != '='
    ensures var s := left + mark + right;
            FindTopLevelEquality(s) == Some(|left|) && OperatorLength(s, |left|) == |mark|
  {
    var s := left + mark + right;
    OperandNotBlank(left);
    OperatorHere(left, mark, right);
    assert s == left + (mark + right);
    OperatorFirst(s, left, mark + right);
  }

  lemma OperandNotBlank(left: string)
    requires left != "" && !IsSpace(left[0])
    ensures Trim(left) != ""
  {
    var front, back := TrimTakesSpace(left);
    assert left[0] == (front + Trim(left) + back)[0];
  }

  lemma OperatorFirst(s: string, left: string, rest: string)
    requires Operand(left) && s == left + rest && EqualityAt(s, |left|)
    ensures FindTopLevelEquality(s) == Some(|left|)
  {
    forall j | 0 <= j < |left| ensures !EqualityAt(s, j) { OperandHasNoOperator(s, left, rest, j); }
    FirstEquality(s, 0, |left|);
  }

  lemma QuietOperand(s: string)
    requires Quiet(s) && Nested(s, Either)
    ensures Operand(s)
  {
    assert s[..|s|] == s;
  }

  lemma BangOperand(a: string)
    requires Quiet(a) && Nested(a, Either) && a != "" && a[0] != '='
    ensures Operand("!" + a)
  {
    var s := "!" + a;
    DepthConcat("!", a, Either);
    DepthOne('!', Either);
    forall i | 0 <= i < |s| && IsEqualityMark(s[i]) && Depth(s[..i], Either) == 0
      ensures i + 1 < |s| && s[i + 1] != '='
    {
      if i > 0 {
        assert s[..i] == "!" + a[..i - 1] && s[i] == a[i - 1];
        DepthConcat("!", a[..i - 1], Either);
      }
    }
  }

  /** A negation binds more tightly than a comparison. */
  lemma BangBindsFirst<V>(h: Host<V>, vals: V, a: string, op: Operator, right: string)
    requires Quiet(a) && Nested(a, Either) && a != "" && a[0] != '=' && !IsSpace(a[|a| - 1])
    requires right != "" && right[0] != '=' && !IsSpace(right[|right| - 1])
    ensures Resolve(h, vals, "!" + a + OperatorText(op) + right)
            == Compared(h, op, h.boolean(!h.truthy(Resolve(h, vals, a))), Resolve(h, vals, right))
  {
    BangOperand(a);
    BangAlone(h, vals, "!" + a, a);
    NegatedCompare(h, vals, "!" + a, op, right, h.boolean(!h.truthy(Resolve(h, vals, a))));
  }

  lemma NegatedCompare<V>(h: Host<V>, vals: V, left: string, op: Operator, right: string, v: V)
    requires Operand(left) && left != "" && !IsSpace(left[0]) && left[0] != '(' && v == Resolve(h, vals, left)
    requires right != "" && right[0] != '=' && !IsSpace(right[|right| - 1])
    ensures Resolve(h, vals, left + OperatorText(op) + right) == Compared(h, op, v, Resolve(h, vals, right))
  {
    BareCompare(h, vals, left, op, right);
  }

  lemma BangAlone<V>(h: Host<V>, vals: V, s: string, a: string)
    requires s == "!" + a && Operand(s) && a != "" && !IsSpace(a[|a| - 1])
    ensures Resolve(h, vals, s) == h.boolean(!h.truthy(Resolve(h, vals, a)))
  {
    TrimFixed(s);
    forall j | 0 <= j < |s| ensures !EqualityAt(s, j) {
      assert s == s + "";
      OperandHasNoOperator(s, s, "", j);
    }
    assert s[1..] == a;
    ResolveBang(h, vals, s, a);
  }

  /** A chain of comparisons groups to the right. */
  lemma ChainGroupsRight<V>(h: Host<V>, vals: V, a: string, op: Operator, b: string, op': Operator, c: string)
    requires Operand(a) && a != "" && !IsSpace(a[0]) && a[0] != '('
    requires Operand(b) && b != "" && !IsSpace(b[0]) && b[0] != '(' && b[0] != '='
    requires c != "" && c[0] != '=' && !IsSpace(c[|c| - 1])
    ensures Resolve(h, vals, a + OperatorText(op) + (b + OperatorText(op') + c))
            == Compared(h, op, Resolve(h, vals, a), Compared(h, op', Resolve(h, vals, b), Resolve(h, vals, c)))
  {
    BareCompare(h, vals, b, op', c);
    BareCompare(h, vals, a, op, b + OperatorText(op') + c);
  }

  /** With nothing before it there is no operator: such an expression is undefined, or the negation of
      something undefined. */
  lemma NothingBefore<V>(h: Host<V>, vals: V, op: Operator, right: string)
    requires Quiet(right) && Nested(right, Either) && right != "" && !IsSpace(right[|right| - 1])
    ensures FindTopLevelEquality(OperatorText(op) + right) == None
    ensures op.StrictEq? || op.LooseEq? ==> Resolve(h, vals, OperatorText(op) + right) == h.undef
    ensures op.StrictNe? || op.LooseNe? ==>
              Resolve(h, vals, OperatorText(op) + right) == h.boolean(!h.truthy(h.undef))
  {
    var mark := OperatorText(op);
    NoOperatorIn(mark, right);
    if op.StrictEq? || op.LooseEq? {
      EqualsIsUndefined(h, vals, mark + right);
    } else {
      var w := mark[1..] + right;
      assert (mark + right)[1..] == w;
      NoOperatorIn(mark[1..], right);
      EqualsIsUndefined(h, vals, w);
      TrimFixed(mark + right);
      ResolveBang(h, vals, mark + right, w);
    }
  }

  lemma EqualsIsUndefined<V>(h: Host<V>, vals: V, s: string)
    requires s != "" && s[0] == '=' && !IsSpace(s[|s| - 1]) && FindTopLevelEquality(s) == None
    ensures Resolve(h, vals, s) == h.undef
  {
    ResolveQuiet(h, vals, s);
    if IsNumber(s) { NumberChars(s); }
  }

  lemma NoOperatorIn(mark: string, right: string)
    requires mark in {"==", "===", "!=", "!==", "="}
    requires Quiet(right) && Nested(right, Either) && right != ""
    ensures FindTopLevelEquality(mark + right) == None
  {
    var s := mark + right;
    forall j | 0 <= j < |s| ensures !EqualityAt(s, j) {
      if j < |mark| { NoneInMark(mark, right, j); } else { NoneInRight(mark, right, j); }
    }
  }

  lemma NoneInMark(mark: string, right: string, j: nat)
    requires mark in {"==", "===", "!=", "!==", "="} && j < |mark|
    ensures !EqualityAt(mark + right, j)
  {
    var s := mark + right;
    if j == 0 {
      assert s[..0] == "";
    } else {
      assert s[j - 1] == mark[j - 1] && IsEqualityMark(mark[j - 1]);
    }
  }

  lemma NoneInRight(mark: string, right: string, j: nat)
    requires mark in {"==", "===", "!=", "!==", "="} && Quiet(right) && |mark| <= j < |mark| + |right|
    ensures !EqualityAt(mark + right, j)
  {
    var s, k := mark + right, j - |mark|;
    assert s[..j] == mark + right[..k] && s[j] == right[k];
    DepthConcat(mark, right[..k], Either);
    DepthFlat(mark, Either);
  }

  // ---- malformed paths ----------------------------------------------------------------------

  /** What cannot follow a path: something other than a member or an index, a dot without a name, or an
      index that never closes. */
  predicate Malformed(junk: string) {
    && junk != ""
    && if junk[0] == '.' then MemberLength(junk[1..]) == 0
       else if junk[0] == '[' then ']' !in junk
       else !IsIdentPart(junk[0])
  }

  lemma {:induction false} NeverCloses(expr: string, j: nat, depth: nat)
    requires j <= |expr| && ']' !in expr[j..]
    ensures ClosingBracket(expr, j, depth) == None
    decreases |expr| - j
  {
    if j < |expr| {
      assert expr[j] == expr[j..][0] && expr[j + 1..] == expr[j..][1..];
      NeverCloses(expr, j + 1, if expr[j] == '[' then depth + 1 else depth);
    }
  }

  /** A path that something malformed follows is undefined, however far it could be read. */
  lemma MalformedIsUndefined<V>(h: Host<V>, vals: V, t: Tree, junk: string)
    requires WellFormed(t) && IsPath(t) && Malformed(junk) && (t.Head? || junk[0] == '.' || junk[0] == '[')
    ensures ResolvePath(h, vals, Print(t) + junk) == h.undef
  {
    if junk[0] == '.' || junk[0] == '[' {
      WalkPrinted(h, vals, t, Print(t), Print(t) + junk);
      JunkEnds(h, vals, Print(t), junk, Meaning(h, vals, t));
    } else {
      HeadThenJunk(h, vals, t, junk);
    }
  }

  lemma JunkEnds<V>(h: Host<V>, vals: V, text: string, junk: string, v: V)
    requires Malformed(junk) && (junk[0] == '.' || junk[0] == '[')
    ensures PathFrom(h, vals, text + junk, |text|, v) == h.undef
  {
    var expr := text + junk;
    assert expr[|text|] == junk[0] && expr[|text| + 1..] == junk[1..];
    if junk[0] == '.' {
      PathMember(h, vals, expr, |text|, v, 0);
    } else {
      assert ']' !in expr[|text| + 1..];
      NeverCloses(expr, |text| + 1, 1);
      PathUnclosed(h, vals, expr, |text|, v);
    }
  }

  lemma HeadThenJunk<V>(h: Host<V>, vals: V, t: Tree, junk: string)
    requires WellFormed(t) && t.Head? && Malformed(junk) && junk[0] != '.' && junk[0] != '['
    ensures ResolvePath(h, vals, Print(t) + junk) == h.undef
  {
    var n := Print(t);
    var expr := n + junk;
    var v := Step(h, vals, h.text(n));
    assert expr[|n|..] == junk && expr[|n|] == junk[0] && expr[|n| + 1..] == junk[1..];
    IdentLengthOf(n, junk);
    assert expr[..|n|] == n;
    PathStart(h, vals, expr, |n|);
    PathEnd(h, vals, expr, |n|, v);
  }

  // ---- words and numbers --------------------------------------------------------------------

  lemma {:induction false} PartRunIsLongest(s: string)
    ensures forall i :: 0 <= i < PartRun(s) ==> IsIdentPart(s[i])
    ensures PartRun(s) < |s| ==> !IsIdentPart(s[PartRun(s)])
  {
    PartRunParts(s);
    if s != [] && IsIdentPart(s[0]) { PartRunIsLongest(s[1..]); }
  }

  predicate IsLetter(c: char) { 'a' <= c <= 'z' || 'A' <= c <= 'Z' }

  /** The identifier at the front is the longest one there is. */
  lemma IdentifierIsLongest(s: string)
    ensures var n := IdentLength(s);
            && (n == 0 <==> s == "" || !(IsLetter(s[0]) || s[0] == '_' || s[0] == '$'))
            && (forall i :: 0 <= i < n ==> IsLetter(s[i]) || '0' <= s[i] <= '9' || s[i] == '_' || s[i] == '$')
            && (0 < n < |s| ==> !(IsLetter(s[n]) || '0' <= s[n] <= '9' || s[n] == '_' || s[n] == '$'))
  {
    if s != [] && IsIdentStart(s[0]) {
      PartRunIsLongest(s[1..]);
      forall i | 0 <= i < IdentLength(s) ensures IsIdentPart(s[i]) {
        if i > 0 { assert s[i] == s[1..][i - 1]; }
      }
    }
  }

  lemma {:induction false} DigitsThen(ds: string, rest: string)
    requires AllDigits(ds) && (rest == "" || !IsDigit(rest[0]))
    ensures DigitRun(ds + rest) == |ds|
  {
    if ds == [] {
      assert ds + rest == rest;
    } else {
      assert (ds + rest)[1..] == ds[1..] + rest;
      DigitsThen(ds[1..], rest);
    }
  }

  predicate NumberParts(s: string, sign: string, whole: string, fraction: string) {
    && s == sign + whole + (if fraction == "" then "" else "." + fraction)
    && (sign == "" || sign == "-") && whole != "" && AllDigits(whole) && AllDigits(fraction)
  }

  lemma NumberSplits(t: string) returns (whole: string, fraction: string)
    requires Unsigned(t)
    ensures t == whole + (if fraction == "" then "" else "." + fraction)
    ensures whole != "" && AllDigits(whole) && AllDigits(fraction)
  {
    var d := DigitRun(t);
    whole, fraction := t[..d], if d == |t| then "" else t[d + 1..];
    DigitRunDigits(t);
    if d < |t| {
      DigitRunDigits(t[d + 1..]);
      assert t == t[..d] + ("." + t[d + 1..]);
    } else {
      assert t[..d] + "" == t;
    }
  }

  /** A number is an optional minus, digits, and optionally a point and more digits; nothing else is. */
  lemma NumberExactly(s: string)
    ensures IsNumber(s) <==> exists sign: string, whole: string, fraction: string ::
              NumberParts(s, sign, whole, fraction)
  {
    if IsNumber(s) { var sign, whole, fraction := NumberHasParts(s); }
    forall sign: string, whole: string, fraction: string | NumberParts(s, sign, whole, fraction)
      ensures IsNumber(s)
    {
      PartsAreNumber(s, sign, whole, fraction);
    }
  }

  lemma NumberHasParts(s: string) returns (sign: string, whole: string, fraction: string)
    requires IsNumber(s)
    ensures NumberParts(s, sign, whole, fraction)
  {
    sign := if s[0] == '-' then "-" else "";
    var t := s[|sign|..];
    assert s == sign + t;
    whole, fraction := NumberSplits(t);
    var tail := if fraction == "" then "" else "." + fraction;
    assert sign + (whole + tail) == sign + whole + tail;
  }

  lemma PartsAreNumber(s: string, sign: string, whole: string, fraction: string)
    requires NumberParts(s, sign, whole, fraction)
    ensures IsNumber(s)
  {
    var tail := if fraction == "" then "" else "." + fraction;
    assert s == sign + (whole + tail);
    UnsignedParts(whole + tail, whole, fraction, tail);
    SignedNumber(s, sign, whole + tail);
  }

  lemma SignedNumber(s: string, sign: string, t: string)
    requires s == sign + t && (sign == "" || sign == "-") && Unsigned(t) && t != "" && t[0] != '-'
    ensures IsNumber(s)
  {
    assert s[|sign|..] == t;
  }

  lemma UnsignedParts(t: string, whole: string, fraction: string, tail: string)
    requires t == whole + tail && tail == (if fraction == "" then "" else "." + fraction)
    requires whole != "" && AllDigits(whole) && AllDigits(fraction)
    ensures Unsigned(t) && t != "" && t[0] != '-'
  {
    DigitsThen(whole, tail);
    assert t[0] == whole[0];
    if fraction != "" {
      assert t[|whole|] == '.' && t[|whole| + 1..] == fraction;
      DigitsThen(fraction, "");
      assert fraction + "" == fraction;
    }
  }
}
