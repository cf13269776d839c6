/** The template expression evaluator: bracket-depth scans, path lookup and the recursive resolver,
    over any host semantics for JavaScript's primitive operations. */
module Expr {

  import opened Wrappers
  import opened Text

  /** The primitive operations of the host language the evaluator is built on. */
  datatype Host<!V> = Host(
    undef: V,
    nul: V,
    boolean: bool -> V,
    number: string -> V,
    text: string -> V,
    truthy: V -> bool,
    nullish: V -> bool,
    strictEqual: (V, V) -> bool,
    looseEqual: (V, V) -> bool,
    get: (V, V) -> V)

  // ---- bracket depth ------------------------------------------------------------------------

  datatype Brackets = Round | Square | Either

  function Delta(c: char, k: Brackets): int {
    if (c == '(' && !k.Square?) || (c == '[' && !k.Round?) then 1
    else if (c == ')' && !k.Square?) || (c == ']' && !k.Round?) then -1
    else 0
  }

  /** How many brackets of the kind are open at the end of `s`. */
  function Depth(s: string, k: Brackets): int {
    if s == [] then 0 else Depth(s[..|s| - 1], k) + Delta(s[|s| - 1], k)
  }

  // ---- scanners -----------------------------------------------------------------------------

  /** No closing paren before the last character takes the paren depth back to zero. */
  predicate ParensWrapWhole(expr: string) {
    forall i :: 0 <= i < |expr| - 1 ==> !(expr[i] == ')' && Depth(expr[..i + 1], Round) == 0)
  }

  predicate IsEqualityMark(c: char) { c == '=' || c == '!' }

  /** An equality operator starts at `i`, outside all brackets, with an operand before it. */
  predicate EqualityAt(expr: string, i: nat) {
    && i + 1 < |expr|
    && IsEqualityMark(expr[i]) && expr[i + 1] == '='
    && Depth(expr[..i], Either) == 0
    && !(i > 0 && IsEqualityMark(expr[i - 1]))
    && Trim(expr[..i]) != ""
  }

  function FindEqualityFrom(expr: string, i: nat): (r: Option<nat>)
    ensures r.Some? ==> i <= r.value && EqualityAt(expr, r.value)
    ensures forall j :: i <= j < (if r.Some? then r.value else |expr|) ==> !EqualityAt(expr, j)
    decreases |expr| - i
  {
    if i >= |expr| then None else if EqualityAt(expr, i) then Some(i) else FindEqualityFrom(expr, i + 1)
  }

  /** The leftmost top-level equality operator. */
  function FindTopLevelEquality(expr: string): Option<nat> { FindEqualityFrom(expr, 0) }

  function OperatorLength(expr: string, i: nat): nat {
    if i + 2 < |expr| && expr[i + 2] == '=' then 3 else 2
  }

  /** The bracket that closes depth `depth`, looking from `j`. */
  function ClosingBracket(expr: string, j: nat, depth: nat): (r: Option<nat>)
    ensures r.Some? ==> j <= r.value < |expr|
    decreases |expr| - j
  {
    if j >= |expr| then None
    else if expr[j] == '[' then ClosingBracket(expr, j + 1, depth + 1)
    else if expr[j] == ']' then (if depth <= 1 then Some(j) else ClosingBracket(expr, j + 1, depth - 1))
    else ClosingBracket(expr, j + 1, depth)
  }

  // ---- lexical classes ----------------------------------------------------------------------

  predicate IsIdentStart(c: char) { 'A' <= c <= 'Z' || 'a' <= c <= 'z' || c == '_' || c == '$' }
  predicate IsIdentPart(c: char) { IsIdentStart(c) || IsDigit(c) }

  function PartRun(s: string): (n: nat)
    ensures n <= |s|
  {
    if s != [] && IsIdentPart(s[0]) then 1 + PartRun(s[1..]) else 0
  }

  lemma {:induction false} PartRunParts(s: string)
    ensures forall i :: 0 <= i < PartRun(s) ==> IsIdentPart(s[i])
  {
    if s != [] && IsIdentPart(s[0]) {
      PartRunParts(s[1..]);
      forall i | 0 <= i < PartRun(s) ensures IsIdentPart(s[i]) { if i > 0 { assert s[i] == s[1..][i - 1]; } }
    }
  }

  /** The length of the identifier at the front, zero if there is none. */
  function IdentLength(s: string): (n: nat)
    ensures n <= |s|
  {
    if s != [] && IsIdentStart(s[0]) then 1 + PartRun(s[1..]) else 0
  }

  function DigitRun(s: string): (n: nat)
    ensures n <= |s|
  {
    if s != [] && IsDigit(s[0]) then 1 + DigitRun(s[1..]) else 0
  }

  lemma {:induction false} DigitRunDigits(s: string)
    ensures forall i :: 0 <= i < DigitRun(s) ==> IsDigit(s[i])
  {
    if s != [] && IsDigit(s[0]) {
      DigitRunDigits(s[1..]);
      forall i | 0 <= i < DigitRun(s) ensures IsDigit(s[i]) { if i > 0 { assert s[i] == s[1..][i - 1]; } }
    }
  }

  /** The pattern for numeric literals: an optional minus, digits, and an optional fraction. */
  predicate IsNumber(s: string) {
    var t := if s != [] && s[0] == '-' then s[1..] else s;
    var d := DigitRun(t);
    d > 0 && (d == |t| || (t[d] == '.' && d + 1 < |t| && DigitRun(t[d + 1..]) == |t| - d - 1))
  }

  /** The name after a dot: an identifier, or a run of digits. */
  function MemberLength(s: string): (n: nat)
    ensures n <= |s|
  {
    if IdentLength(s) > 0 then IdentLength(s) else DigitRun(s)
  }

  // ---- the resolver -------------------------------------------------------------------------

  function Step<V>(h: Host<V>, cur: V, key: V): V {
    if h.nullish(cur) then h.undef else h.get(cur, key)
  }

  /** The value of an expression: parens around the whole of it are dropped, then it is resolved. */
  function Resolve<V>(h: Host<V>, vals: V, src: string): V
    decreases |src|, 2, 0
  {
    var expr := Trim(src);
    if expr == "" then h.undef
    else if expr[0] == '(' && expr[|expr| - 1] == ')' && ParensWrapWhole(expr) then
      Resolve(h, vals, expr[1..|expr| - 1])
    else ResolveOpen(h, vals, expr)
  }

  /** A trimmed expression that is not wrapped in parens. */
  function ResolveOpen<V>(h: Host<V>, vals: V, expr: string): V
    requires expr != ""
    decreases |expr|, 1, 2
  {
    match FindTopLevelEquality(expr)
    case Some(i) =>
      var n := OperatorLength(expr, i);
      var lv := Resolve(h, vals, expr[..i]);
      var rv := Resolve(h, vals, expr[i + n..]);
      var same := if n == 3 then h.strictEqual(lv, rv) else h.looseEqual(lv, rv);
      h.boolean(if expr[i] == '=' then same else !same)
    case None =>
      if expr[0] == '!' then h.boolean(!h.truthy(Resolve(h, vals, expr[1..])))
      else ResolveAtom(h, vals, expr)
  }

  /** An expression with no operator left: a literal or a path. */
  function ResolveAtom<V>(h: Host<V>, vals: V, expr: string): V
    decreases |expr|, 1, 1
  {
    if expr == "true" then h.boolean(true)
    else if expr == "false" then h.boolean(false)
    else if expr == "null" then h.nul
    else if expr == "undefined" then h.undef
    else if IsNumber(expr) then h.number(expr)
    else if |expr| >= 2 && (expr[0] == '"' || expr[0] == '\'') && expr[|expr| - 1] == expr[0] then
      h.text(expr[1..|expr| - 1])
    else ResolvePath(h, vals, expr)
  }

  function ResolvePath<V>(h: Host<V>, vals: V, expr: string): V
    decreases |expr|, 1, 0
  {
    var n := IdentLength(expr);
    if n == 0 then h.undef else PathFrom(h, vals, expr, n, Step(h, vals, h.text(expr[..n])))
  }

  function PathFrom<V>(h: Host<V>, vals: V, expr: string, i: nat, cur: V): V
    requires i <= |expr|
    decreases |expr|, 0, |expr| - i
  {
    if i == |expr| then cur
    else if expr[i] == '.' then
      var n := MemberLength(expr[i + 1..]);
      if n == 0 then h.undef
      else PathFrom(h, vals, expr, i + 1 + n, Step(h, cur, h.text(expr[i + 1..i + 1 + n])))
    else if expr[i] == '[' then
      match ClosingBracket(expr, i + 1, 1)
      case None => h.undef
      case Some(j) => PathFrom(h, vals, expr, j + 1, Step(h, cur, Resolve(h, vals, expr[i + 1..j])))
    else h.undef
  }

  // ---- the source's loops -------------------------------------------------------------------

  lemma DepthSnoc(expr: string, i: nat, k: Brackets)
    requires i < |expr|
    ensures Depth(expr[..i + 1], k) == Depth(expr[..i], k) + Delta(expr[i], k)
  {
    assert expr[..i + 1][..i] == expr[..i];
  }

  method CheckParensWrapWhole(expr: string) returns (wraps: bool)
    ensures wraps == ParensWrapWhole(expr)
  {
    var depth := 0;
    var i := 0;
    while i < |expr| - 1
      invariant 0 <= i && (|expr| > 0 ==> i <= |expr| - 1)
      invariant |expr| > 0 ==> depth == Depth(expr[..i], Round)
      invariant forall j :: 0 <= j < i && j < |expr| - 1 ==>
                  !(expr[j] == ')' && Depth(expr[..j + 1], Round) == 0)
    {
      DepthSnoc(expr, i, Round);
      if expr[i] == '(' {
        depth := depth + 1;
      } else if expr[i] == ')' {
        depth := depth - 1;
        if depth == 0 { return false; }
      }
      i := i + 1;
    }
    wraps := true;
  }

  method ScanForEquality(expr: string) returns (found: Option<nat>)
    ensures found == FindTopLevelEquality(expr)
  {
    var depth := 0;
    var i := 0;
    while i < |expr|
      invariant i <= |expr|
      invariant depth == Depth(expr[..i], Either)
      invariant FindTopLevelEquality(expr) == FindEqualityFrom(expr, i)
    {
      DepthSnoc(expr, i, Either);
      var c := expr[i];
      if c == '[' || c == '(' {
        depth := depth + 1;
      } else if c == ']' || c == ')' {
        depth := depth - 1;
      } else if depth == 0 && (c == '=' || c == '!') && i + 1 < |expr| && expr[i + 1] == '=' {
        var doubled := i > 0 && (expr[i - 1] == '=' || expr[i - 1] == '!');
        if !doubled && Trim(expr[..i]) != "" {
          return Some(i);
        }
      }
      i := i + 1;
    }
    found := None;
  }

  method ScanForClosing(expr: string, start: nat) returns (found: Option<nat>)
    ensures found == ClosingBracket(expr, start, 1)
  {
    var depth := 1;
    var j := start;
    while j < |expr|
      invariant depth >= 1
      invariant ClosingBracket(expr, start, 1) == ClosingBracket(expr, j, depth)
      decreases |expr| - j
    {
      if expr[j] == '[' {
        depth := depth + 1;
      } else if expr[j] == ']' {
        depth := depth - 1;
        if depth == 0 { return Some(j); }
      }
      j := j + 1;
    }
    found := None;
  }

  lemma PathStart<V>(h: Host<V>, vals: V, expr: string, n: nat)
    requires n == IdentLength(expr)
    ensures ResolvePath(h, vals, expr)
         == if n == 0 then h.undef else PathFrom(h, vals, expr, n, Step(h, vals, h.text(expr[..n])))
  {
  }

  lemma PathMember<V>(h: Host<V>, vals: V, expr: string, i: nat, cur: V, m: nat)
    requires i < |expr| && expr[i] == '.' && m == MemberLength(expr[i + 1..])
    ensures PathFrom(h, vals, expr, i, cur)
         == if m == 0 then h.undef
            else PathFrom(h, vals, expr, i + 1 + m, Step(h, cur, h.text(expr[i + 1..i + 1 + m])))
  {
  }

  lemma PathIndex<V>(h: Host<V>, vals: V, expr: string, i: nat, cur: V, close: nat, key: V)
    requires i < |expr| && expr[i] == '[' && ClosingBracket(expr, i + 1, 1) == Some(close)
    requires key == Resolve(h, vals, expr[i + 1..close])
    ensures PathFrom(h, vals, expr, i, cur) == PathFrom(h, vals, expr, close + 1, Step(h, cur, key))
  {
  }

  lemma PathUnclosed<V>(h: Host<V>, vals: V, expr: string, i: nat, cur: V)
    requires i < |expr| && expr[i] == '[' && ClosingBracket(expr, i + 1, 1) == None
    ensures PathFrom(h, vals, expr, i, cur) == h.undef
  {
  }

  lemma PathEnd<V>(h: Host<V>, vals: V, expr: string, i: nat, cur: V)
    requires i <= |expr| && (i < |expr| ==> expr[i] != '.' && expr[i] != '[')
    ensures PathFrom(h, vals, expr, i, cur) == if i == |expr| then cur else h.undef
  {
  }

  /** One turn of the path loop: past a member or an index, or nowhere when the path is malformed. */
  method FollowStep<V>(h: Host<V>, vals: V, expr: string, i: nat, cur: V) returns (next: Option<(nat, V)>)
    requires i < |expr|
    ensures next.Some? ==> i < next.value.0 <= |expr|
    ensures PathFrom(h, vals, expr, i, cur)
         == if next.None? then h.undef else PathFrom(h, vals, expr, next.value.0, next.value.1)
    decreases |expr|, 0
  {
    if expr[i] == '.' {
      var m := MemberLength(expr[i + 1..]);
      PathMember(h, vals, expr, i, cur, m);
      if m == 0 { return None; }
      next := Some((i + 1 + m, Step(h, cur, h.text(expr[i + 1..i + 1 + m]))));
    } else if expr[i] == '[' {
      next := FollowIndex(h, vals, expr, i, cur);
    } else {
      PathEnd(h, vals, expr, i, cur);
      next := None;
    }
  }

  method FollowIndex<V>(h: Host<V>, vals: V, expr: string, i: nat, cur: V) returns (next: Option<(nat, V)>)
    requires i < |expr| && expr[i] == '['
    ensures next.Some? ==> i < next.value.0 <= |expr|
    ensures PathFrom(h, vals, expr, i, cur)
         == if next.None? then h.undef else PathFrom(h, vals, expr, next.value.0, next.value.1)
    decreases |expr|, 0, 0
  {
    var close := ScanForClosing(expr, i + 1);
    if close.None? {
      PathUnclosed(h, vals, expr, i, cur);
      return None;
    }
    var key := Evaluate(h, vals, expr[i + 1..close.value]);
    PathIndex(h, vals, expr, i, cur, close.value, key);
    next := Some((close.value + 1, Step(h, cur, key)));
  }

  method WalkPath<V>(h: Host<V>, vals: V, expr: string) returns (v: V)
    ensures v == ResolvePath(h, vals, expr)
    decreases |expr|, 1, 0
  {
    var n := IdentLength(expr);
    PathStart(h, vals, expr, n);
    if n == 0 { return h.undef; }
    ghost var total := ResolvePath(h, vals, expr);
    v := Step(h, vals, h.text(expr[..n]));
    var i := n;
    while i < |expr|
      invariant i <= |expr|
      invariant total == PathFrom(h, vals, expr, i, v)
    {
      var next := FollowStep(h, vals, expr, i, v);
      if next.None? { return h.undef; }
      i, v := next.value.0, next.value.1;
    }
    PathEnd(h, vals, expr, i, v);
  }

  /** The evaluator as the source runs it, with its loops; it computes `Resolve`. */
  method Evaluate<V>(h: Host<V>, vals: V, src: string) returns (v: V)
    ensures v == Resolve(h, vals, src)
    decreases |src|, 2, 0
  {
    var expr := Trim(src);
    if expr == "" { return h.undef; }
    if expr[0] == '(' && expr[|expr| - 1] == ')' {
      var wraps := CheckParensWrapWhole(expr);
      if wraps {
        v := Evaluate(h, vals, expr[1..|expr| - 1]);
        return;
      }
    }
    v := EvaluateOpen(h, vals, expr);
  }

  method EvaluateOpen<V>(h: Host<V>, vals: V, expr: string) returns (v: V)
    requires expr != ""
    ensures v == ResolveOpen(h, vals, expr)
    decreases |expr|, 1, 2
  {
    var eq := ScanForEquality(expr);
    if eq.Some? {
      var n := OperatorLength(expr, eq.value);
      var lv := Evaluate(h, vals, expr[..eq.value]);
      var rv := Evaluate(h, vals, expr[eq.value + n..]);
      var same := if n == 3 then h.strictEqual(lv, rv) else h.looseEqual(lv, rv);
      return h.boolean(if expr[eq.value] == '=' then same else !same);
    }
    if expr[0] == '!' {
      var operand := Evaluate(h, vals, expr[1..]);
      return h.boolean(!h.truthy(operand));
    }
    v := EvaluateAtom(h, vals, expr);
  }

  method EvaluateAtom<V>(h: Host<V>, vals: V, expr: string) returns (v: V)
    ensures v == ResolveAtom(h, vals, expr)
    decreases |expr|, 1, 1
  {
    if expr == "true" { return h.boolean(true); }
    if expr == "false" { return h.boolean(false); }
    if expr == "null" { return h.nul; }
    if expr == "undefined" { return h.undef; }
    if IsNumber(expr) { return h.number(expr); }
    if |expr| >= 2 && (expr[0] == '"' || expr[0] == '\'') && expr[|expr| - 1] == expr[0] {
      return h.text(expr[1..|expr| - 1]);
    }
    v := WalkPath(h, vals, expr);
  }
}
