/** React keys for the children of a deck: slides are keyed by their persistent id, whitespace by
    the slide that follows it, and everything else by position. */
module DeckKeys {

  import opened Text
  import opened Wrappers

  /** A child the template walker kept. */
  datatype Child =
    | TextNode(value: string)
    | Element(tag: string, slideId: Option<string>)
    | OtherNode

  datatype Key = Position(j: nat) | Named(name: string)

  const CONTROL_FLOW: set<string> := {"sc-if", "sc-for", "sc-else", "dc-import", "x-import"}
  const AUXILIARY: set<string> := {"template", "script", "style", "sc-helmet", "helmet"}

  predicate IsHex(c: char) { '0' <= c <= '9' || 'a' <= c <= 'f' }

  /** Exactly eight lower-case hexadecimal digits. */
  predicate IsSlideId(v: string) { |v| == 8 && forall i :: 0 <= i < 8 ==> IsHex(v[i]) }

  predicate IsBlank(c: Child) { c.TextNode? && Trim(c.value) == "" }

  predicate IsSlide(c: Child) { c.Element? && c.tag !in AUXILIARY && c.tag !in CONTROL_FLOW }

  // ---- what the keys are --------------------------------------------------------------------

  /** The slide id of the next element from `j` on, when that element is a slide. */
  function NextSlideId(kids: seq<Child>, j: nat): Option<string>
    requires j <= |kids|
    decreases |kids| - j
  {
    if j == |kids| then None
    else if kids[j].Element? then (if IsSlide(kids[j]) then kids[j].slideId else None)
    else NextSlideId(kids, j + 1)
  }

  function BlankBase(id: Option<string>): string {
    if id.Some? && id.value != "" then "omid-ws:" + id.value else "omid-ws:aux"
  }

  function Numbered(base: string, n: nat): string {
    if n == 0 then base else base + ":" + Decimal(n)
  }

  predicate BlankWith(kids: seq<Child>, j: nat, base: string)
    requires j < |kids|
  {
    IsBlank(kids[j]) && BlankBase(NextSlideId(kids, j)) == base
  }

  /** How many whitespace children before `j` share the base. */
  function BlanksBefore(kids: seq<Child>, j: nat, base: string): nat
    requires j <= |kids|
  {
    if j == 0 then 0
    else BlanksBefore(kids, j - 1, base) + (if BlankWith(kids, j - 1, base) then 1 else 0)
  }

  /** The child can be keyed: nothing whose rendered count may vary, and no slide without an id
      of its own. */
  predicate Keyable(kids: seq<Child>, j: nat)
    requires j < |kids|
  {
    match kids[j]
    case TextNode(_) => IsBlank(kids[j])
    case OtherNode => true
    case Element(tag, id) =>
      tag in AUXILIARY
      || (tag !in CONTROL_FLOW && id.Some? && IsSlideId(id.value)
          && forall k :: 0 <= k < j && IsSlide(kids[k]) ==> kids[k].slideId != id)
  }

  function KeyOf(kids: seq<Child>, j: nat): Key
    requires j < |kids|
  {
    if IsBlank(kids[j]) then
      var base := BlankBase(NextSlideId(kids, j));
      Named(Numbered(base, BlanksBefore(kids, j, base)))
    else if IsSlide(kids[j]) && kids[j].slideId.Some? then Named("omid:" + kids[j].slideId.value)
    else Position(j)
  }

  predicate AllKeyable(kids: seq<Child>) { forall j :: 0 <= j < |kids| ==> Keyable(kids, j) }

  function KeysUpTo(kids: seq<Child>, n: nat): (keys: seq<Key>)
    requires n <= |kids|
    ensures |keys| == n && forall j :: 0 <= j < n ==> keys[j] == KeyOf(kids, j)
  {
    if n == 0 then [] else KeysUpTo(kids, n - 1) + [KeyOf(kids, n - 1)]
  }

  /** The keys of the children, or none when some child cannot be keyed. */
  function DeckKeys(kids: seq<Child>): Option<seq<Key>> {
    if AllKeyable(kids) then Some(KeysUpTo(kids, |kids|)) else None
  }

  // ---- the keys are sound -------------------------------------------------------------------

  /** The string React compares keys by. */
  function Rendered(k: Key): string {
    match k
    case Position(j) => Decimal(j)
    case Named(name) => name
  }

  /** In a keyable list, whitespace takes its name from a genuine slide id or from none. */
  lemma {:induction false} NextIsGenuine(kids: seq<Child>, j: nat)
    requires j <= |kids| && AllKeyable(kids)
    ensures var id := NextSlideId(kids, j); id.Some? ==> IsSlideId(id.value)
    decreases |kids| - j
  {
    if j < |kids| {
      assert Keyable(kids, j);
      if !kids[j].Element? { NextIsGenuine(kids, j + 1); }
    }
  }

  /** Earlier whitespace of the same base has a smaller number. */
  lemma {:induction false} BlanksGrow(kids: seq<Child>, i: nat, j: nat, base: string)
    requires i < j <= |kids| && BlankWith(kids, i, base)
    ensures BlanksBefore(kids, i, base) < BlanksBefore(kids, j, base)
    decreases j
  {
    if j > i + 1 { BlanksGrow(kids, i, j - 1, base); }
  }

  function NameOf(id: Option<string>): string { if id.Some? then id.value else "aux" }

  function NumberTail(n: nat): string { if n == 0 then "" else ":" + Decimal(n) }

  /** An id, or none, is determined by the text that starts with its name. */
  lemma NameInjective(a: Option<string>, m: string, b: Option<string>, n: string)
    requires a.Some? ==> IsSlideId(a.value)
    requires b.Some? ==> IsSlideId(b.value)
    requires NameOf(a) + m == NameOf(b) + n
    ensures a == b && m == n
  {
    var s := NameOf(a) + m;
    assert s[1] == NameOf(a)[1] == NameOf(b)[1];
    assert a.Some? ==> IsHex(NameOf(a)[1]);
    assert b.Some? ==> IsHex(NameOf(b)[1]);
    assert s[..|NameOf(a)|] == NameOf(a) && s[|NameOf(a)|..] == m;
    assert s[..|NameOf(b)|] == NameOf(b) && s[|NameOf(b)|..] == n;
  }

  lemma TailInjective(m: nat, n: nat)
    requires NumberTail(m) == NumberTail(n)
    ensures m == n
  {
    if m != 0 && n != 0 {
      assert NumberTail(m)[1..] == Decimal(m) && NumberTail(n)[1..] == Decimal(n);
      if m != n { DecimalInjective(m, n); }
    }
  }

  lemma NumberedParts(id: Option<string>, n: nat)
    requires id.Some? ==> IsSlideId(id.value)
    ensures Numbered(BlankBase(id), n) == "omid-ws:" + (NameOf(id) + NumberTail(n))
  {
    Associate("omid-ws:", NameOf(id), NumberTail(n));
    Associate(BlankBase(id), ":", Decimal(n));
  }

  /** A whitespace key determines its base and its number. */
  lemma NumberedInjective(a: Option<string>, m: nat, b: Option<string>, n: nat)
    requires a.Some? ==> IsSlideId(a.value)
    requires b.Some? ==> IsSlideId(b.value)
    requires Numbered(BlankBase(a), m) == Numbered(BlankBase(b), n)
    ensures a == b && m == n
  {
    NumberedParts(a, m);
    NumberedParts(b, n);
    var x, y := NameOf(a) + NumberTail(m), NameOf(b) + NumberTail(n);
    if x != y { PrefixInjective("omid-ws:", x, y); }
    NameInjective(a, NumberTail(m), b, NumberTail(n));
    TailInjective(m, n);
  }

  /** A named key starts like none of the other kinds. */
  lemma KeyShape(kids: seq<Child>, j: nat)
    requires j < |kids| && Keyable(kids, j)
    ensures var s := Rendered(KeyOf(kids, j));
            && |s| > 0
            && (IsBlank(kids[j]) ==> |s| > 8 && s[0] == 'o' && s[4] == '-')
            && (IsSlide(kids[j]) ==> s == "omid:" + kids[j].slideId.value && s[0] == 'o' && s[4] == ':')
            && (!IsBlank(kids[j]) && !IsSlide(kids[j]) ==> s == Decimal(j) && IsDigit(s[0]))
  {
    var base := BlankBase(NextSlideId(kids, j));
    assert base[0] == 'o' && base[4] == '-' && |base| > 8;
  }

  lemma DistinctPair(kids: seq<Child>, i: nat, j: nat)
    requires AllKeyable(kids) && i < j < |kids|
    ensures Rendered(KeyOf(kids, i)) != Rendered(KeyOf(kids, j))
  {
    assert Keyable(kids, i) && Keyable(kids, j);
    KeyShape(kids, i);
    KeyShape(kids, j);
    var s, t := Rendered(KeyOf(kids, i)), Rendered(KeyOf(kids, j));
    if s == t {
      if IsBlank(kids[i]) {
        var a, b := NextSlideId(kids, i), NextSlideId(kids, j);
        NextIsGenuine(kids, i);
        NextIsGenuine(kids, j);
        BlanksGrow(kids, i, j, BlankBase(a));
        NumberedInjective(a, BlanksBefore(kids, i, BlankBase(a)), b, BlanksBefore(kids, j, BlankBase(b)));
      } else if IsSlide(kids[i]) {
        PrefixInjective("omid:", kids[i].slideId.value, kids[j].slideId.value);
      } else {
        DecimalInjective(i, j);
      }
    }
  }

  lemma PrefixInjective(p: string, a: string, b: string)
    requires a != b
    ensures p + a != p + b
  {
    assert (p + a)[|p|..] == a && (p + b)[|p|..] == b;
  }

  lemma DecimalInjective(i: nat, j: nat)
    requires i != j
    ensures Decimal(i) != Decimal(j)
  {
    assert NumeralValue(Decimal(i)) == i && NumeralValue(Decimal(j)) == j;
  }

  /** Element `k` is the first after child `j`. */
  predicate FirstElementAfter(kids: seq<Child>, j: nat, k: nat) {
    j < k < |kids| && kids[k].Element? && forall i :: j < i < k ==> !kids[i].Element?
  }

  lemma {:induction false} NextIsFirst(kids: seq<Child>, j: nat, k: nat)
    requires j <= k < |kids| && kids[k].Element? && forall i :: j <= i < k ==> !kids[i].Element?
    ensures NextSlideId(kids, j)
         == if kids[k].tag in AUXILIARY || kids[k].tag in CONTROL_FLOW then None else kids[k].slideId
    decreases k - j
  {
    if j < k { NextIsFirst(kids, j + 1, k); }
  }

  lemma {:induction false} NoNext(kids: seq<Child>, j: nat)
    requires j <= |kids| && forall i :: j <= i < |kids| ==> !kids[i].Element?
    ensures NextSlideId(kids, j) == None
    decreases |kids| - j
  {
    if j < |kids| { NoNext(kids, j + 1); }
  }

  /** The name, and from the second child of that name on a number. */
  predicate KeyedAs(kids: seq<Child>, j: nat, name: string)
    requires j < |kids|
  {
    var n := BlanksBefore(kids, j, name);
    KeyOf(kids, j) == Named(if n == 0 then name else name + ":" + Decimal(n))
  }

  /** Blank text is named after the first element that follows it, if that is a slide with an id;
      before an auxiliary element, or with no element after it, it has the common name. */
  lemma BlankNamesNext(kids: seq<Child>, j: nat, k: nat)
    requires j < |kids| && IsBlank(kids[j])
    ensures FirstElementAfter(kids, j, k) && IsSlide(kids[k])
            && kids[k].slideId.Some? && kids[k].slideId.value != "" ==>
              KeyedAs(kids, j, "omid-ws:" + kids[k].slideId.value)
    ensures FirstElementAfter(kids, j, k) && kids[k].tag in AUXILIARY ==> KeyedAs(kids, j, "omid-ws:aux")
    ensures (forall i :: j < i < |kids| ==> !kids[i].Element?) ==> KeyedAs(kids, j, "omid-ws:aux")
  {
    if FirstElementAfter(kids, j, k) { NextIsFirst(kids, j, k); }
    if forall i :: j < i < |kids| ==> !kids[i].Element? { NoNext(kids, j); }
  }

  /** What is keyed otherwise: a slide by its id, an auxiliary element or any other node by its place. */
  lemma OthersKeyed(kids: seq<Child>, j: nat)
    requires DeckKeys(kids).Some? && j < |kids| && !IsBlank(kids[j])
    ensures if kids[j].Element? && kids[j].tag !in AUXILIARY
            then kids[j].slideId.Some? && DeckKeys(kids).value[j] == Named("omid:" + kids[j].slideId.value)
            else DeckKeys(kids).value[j] == Position(j)
  {
    assert Keyable(kids, j);
  }

  /** Whenever keys are returned there is exactly one for every kept child, and no two children
      share one, not even when position keys are written as strings. */
  lemma KeysAreSound(kids: seq<Child>)
    requires DeckKeys(kids).Some?
    ensures |DeckKeys(kids).value| == |kids|
    ensures var keys := DeckKeys(kids).value;
            forall i, j :: 0 <= i < j < |keys| ==> Rendered(keys[i]) != Rendered(keys[j])
  {
    forall i, j | 0 <= i < j < |kids| ensures Rendered(KeyOf(kids, i)) != Rendered(KeyOf(kids, j)) {
      DistinctPair(kids, i, j);
    }
  }

  /** The slide ids of a list, in order. */
  function SlideIds(kids: seq<Child>): seq<Option<string>> {
    if kids == [] then []
    else SlideIds(kids[..|kids| - 1])
         + (if IsSlide(kids[|kids| - 1]) then [kids[|kids| - 1].slideId] else [])
  }

  /** Every slide id of a prefix comes from a slide of it, and the reverse. */
  lemma {:induction false} SlideIdsFrom(kids: seq<Child>, id: Option<string>)
    ensures id in SlideIds(kids) <==> exists k :: 0 <= k < |kids| && IsSlide(kids[k]) && kids[k].slideId == id
  {
    if kids != [] {
      var front, last := kids[..|kids| - 1], kids[|kids| - 1];
      SlideIdsFrom(front, id);
      if id in SlideIds(front) {
        var k :| 0 <= k < |front| && IsSlide(front[k]) && front[k].slideId == id;
        assert kids[k] == front[k];
      } else if id in SlideIds(kids) {
        assert kids[|kids| - 1].slideId == id;
      }
      if k :| 0 <= k < |kids| && IsSlide(kids[k]) && kids[k].slideId == id {
        if k < |front| { assert front[k] == kids[k]; }
      }
    }
  }

  predicate NoRepeats(ids: seq<Option<string>>) {
    forall i, j :: 0 <= i < j < |ids| ==> ids[i] != ids[j]
  }

  /** No child is text with words in it or control flow. */
  predicate OnlySlidesAndFillers(kids: seq<Child>) {
    forall j :: 0 <= j < |kids| ==>
      match kids[j]
      case TextNode(_) => IsBlank(kids[j])
      case Element(tag, _) => tag in AUXILIARY || tag !in CONTROL_FLOW
      case OtherNode => true
  }

  predicate GenuineIds(ids: seq<Option<string>>) {
    forall i :: 0 <= i < |ids| ==> ids[i].Some? && EightHexDigits(ids[i].value)
  }

  predicate EightHexDigits(v: string) {
    |v| == 8 && forall i :: 0 <= i < |v| ==> v[i] in "0123456789abcdef"
  }

  lemma SlideIdExactly(v: string)
    ensures IsSlideId(v) <==> EightHexDigits(v)
  {
    assert forall c: char :: IsHex(c) <==> c in "0123456789abcdef";
  }

  /** Keys are returned exactly when the children are slides and fillers and the slide ids are
      well formed and never repeated. */
  lemma {:induction false} KeyedExactly(kids: seq<Child>)
    ensures DeckKeys(kids).Some?
        <==> OnlySlidesAndFillers(kids) && GenuineIds(SlideIds(kids)) && NoRepeats(SlideIds(kids))
  {
    if kids != [] {
      var front, last := kids[..|kids| - 1], kids[|kids| - 1];
      KeyedExactly(front);
      KeyableSnoc(front, last);
      assert kids == front + [last];
      FillersSnoc(front, last);
      if IsSlide(last) {
        SlideKeyable(front, last);
        IdsSnoc(SlideIds(front), last.slideId);
        assert SlideIds(kids) == SlideIds(front) + [last.slideId];
      } else {
        assert SlideIds(kids) == SlideIds(front);
      }
    }
  }

  lemma SlideKeyable(front: seq<Child>, last: Child)
    requires IsSlide(last)
    ensures Keyable(front + [last], |front|)
        <==> last.slideId.Some? && IsSlideId(last.slideId.value) && last.slideId !in SlideIds(front)
  {
    var kids := front + [last];
    SlideIdsFrom(front, last.slideId);
    assert forall k :: 0 <= k < |front| ==> kids[k] == front[k];
    assert kids[|front|] == last;
  }

  lemma KeyableSnoc(front: seq<Child>, last: Child)
    ensures AllKeyable(front + [last]) <==> AllKeyable(front) && Keyable(front + [last], |front|)
  {
    var kids := front + [last];
    forall j | 0 <= j < |front| ensures Keyable(front, j) <==> Keyable(kids, j) {
      assert kids[j] == front[j];
      assert forall k :: 0 <= k < j ==> kids[k] == front[k];
    }
  }

  lemma FillersSnoc(front: seq<Child>, last: Child)
    ensures OnlySlidesAndFillers(front + [last]) <==> OnlySlidesAndFillers(front) && OnlySlidesAndFillers([last])
  {
    var kids := front + [last];
    assert kids[|front|] == last == [last][0];
    assert forall j :: 0 <= j < |front| ==> kids[j] == front[j];
  }

  lemma IdsSnoc(ids: seq<Option<string>>, id: Option<string>)
    ensures NoRepeats(ids + [id]) <==> NoRepeats(ids) && id !in ids
    ensures GenuineIds(ids + [id]) <==> GenuineIds(ids) && id.Some? && IsSlideId(id.value)
  {
    if id.Some? { SlideIdExactly(id.value); }
    var all := ids + [id];
    assert all[|ids|] == id;
    assert forall i :: 0 <= i < |ids| ==> all[i] == ids[i];
  }

  // ---- the source's two passes --------------------------------------------------------------

  /** The backward pass: for every child, the slide id of the next element. */
  method CollectNextSlideIds(kids: seq<Child>) returns (nextSlideId: seq<Option<string>>)
    ensures |nextSlideId| == |kids|
    ensures forall j :: 0 <= j < |kids| ==> nextSlideId[j] == NextSlideId(kids, j)
  {
    var next := new Option<string>[|kids|](_ => None);
    var upcoming: Option<string> := None;
    var j := |kids|;
    while j > 0
      invariant 0 <= j <= |kids|
      invariant upcoming == NextSlideId(kids, j)
      invariant forall k :: j <= k < |kids| ==> next[k] == NextSlideId(kids, k)
    {
      j := j - 1;
      if kids[j].Element? {
        upcoming := if kids[j].tag !in AUXILIARY && kids[j].tag !in CONTROL_FLOW then kids[j].slideId else None;
      }
      next[j] := upcoming;
    }
    nextSlideId := next[..];
  }

  /** The ids of the slides before `j`. */
  ghost predicate SeenIs(kids: seq<Child>, j: nat, seen: set<string>)
    requires j <= |kids|
  {
    forall v :: v in seen <==> exists k :: 0 <= k < j && IsSlide(kids[k]) && kids[k].slideId == Some(v)
  }

  /** How often each whitespace base was used before `j`. */
  ghost predicate CountsAre(kids: seq<Child>, j: nat, counts: map<string, nat>)
    requires j <= |kids|
  {
    forall b :: CountOf(counts, b) == BlanksBefore(kids, j, b)
  }

  function CountOf(counts: map<string, nat>, b: string): nat { if b in counts then counts[b] else 0 }

  lemma BlankStep(kids: seq<Child>, j: nat, counts: map<string, nat>, base: string)
    requires j < |kids| && BlankWith(kids, j, base) && CountsAre(kids, j, counts)
    ensures CountsAre(kids, j + 1, counts[base := CountOf(counts, base) + 1])
  {
    var next := counts[base := CountOf(counts, base) + 1];
    forall b ensures CountOf(next, b) == BlanksBefore(kids, j + 1, b) {
      assert CountOf(counts, b) == BlanksBefore(kids, j, b);
    }
  }

  lemma OtherStep(kids: seq<Child>, j: nat, counts: map<string, nat>)
    requires j < |kids| && !IsBlank(kids[j]) && CountsAre(kids, j, counts)
    ensures CountsAre(kids, j + 1, counts)
  {
    forall b ensures CountOf(counts, b) == BlanksBefore(kids, j + 1, b) {
      assert CountOf(counts, b) == BlanksBefore(kids, j, b);
    }
  }

  lemma SeenStep(kids: seq<Child>, j: nat, seen: set<string>)
    requires j < |kids| && SeenIs(kids, j, seen) && (IsSlide(kids[j]) ==> kids[j].slideId.Some?)
    ensures SeenIs(kids, j + 1, if IsSlide(kids[j]) then seen + {kids[j].slideId.value} else seen)
  {
    var next := if IsSlide(kids[j]) then seen + {kids[j].slideId.value} else seen;
    forall v ensures v in next <==> exists k :: 0 <= k < j + 1 && IsSlide(kids[k]) && kids[k].slideId == Some(v) {
      if v in next && v !in seen { assert kids[j].slideId == Some(v); }
    }
  }

  lemma SeenDecides(kids: seq<Child>, j: nat, seen: set<string>)
    requires j < |kids| && SeenIs(kids, j, seen) && IsSlide(kids[j])
    ensures Keyable(kids, j)
        <==> kids[j].slideId.Some? && IsSlideId(kids[j].slideId.value) && kids[j].slideId.value !in seen
  {
  }

  /** Where the forward pass stands before child `j`. */
  ghost predicate Walked(kids: seq<Child>, j: nat, keys: seq<Key>, seen: set<string>, counts: map<string, nat>) {
    && j <= |kids|
    && keys == KeysUpTo(kids, j)
    && (forall k :: 0 <= k < j ==> Keyable(kids, k))
    && SeenIs(kids, j, seen)
    && CountsAre(kids, j, counts)
  }

  lemma WalkBlank(kids: seq<Child>, j: nat, keys: seq<Key>, seen: set<string>, counts: map<string, nat>, base: string)
    requires j < |kids| && Walked(kids, j, keys, seen, counts) && BlankWith(kids, j, base)
    ensures var n := CountOf(counts, base);
            Walked(kids, j + 1, keys + [Named(Numbered(base, n))], seen, counts[base := n + 1])
  {
    BlankStep(kids, j, counts, base);
    SeenStep(kids, j, seen);
    assert CountOf(counts, base) == BlanksBefore(kids, j, base);
    assert KeyOf(kids, j) == Named(Numbered(base, CountOf(counts, base)));
  }

  lemma WalkFiller(kids: seq<Child>, j: nat, keys: seq<Key>, seen: set<string>, counts: map<string, nat>)
    requires j < |kids| && Walked(kids, j, keys, seen, counts)
    requires kids[j].OtherNode? || (kids[j].Element? && kids[j].tag in AUXILIARY)
    ensures Walked(kids, j + 1, keys + [Position(j)], seen, counts)
  {
    OtherStep(kids, j, counts);
    SeenStep(kids, j, seen);
    assert KeyOf(kids, j) == Position(j);
  }

  lemma WalkSlide(kids: seq<Child>, j: nat, keys: seq<Key>, seen: set<string>, counts: map<string, nat>, v: string)
    requires j < |kids| && Walked(kids, j, keys, seen, counts) && IsSlide(kids[j])
    requires kids[j].slideId == Some(v) && IsSlideId(v) && v !in seen
    ensures Walked(kids, j + 1, keys + [Named("omid:" + v)], seen + {v}, counts)
  {
    OtherStep(kids, j, counts);
    SeenStep(kids, j, seen);
    SeenDecides(kids, j, seen);
    assert KeyOf(kids, j) == Named("omid:" + v);
  }

  /** The forward pass. */
  method WalkDeckChildren(kids: seq<Child>) returns (keys: Option<seq<Key>>)
    ensures keys == DeckKeys(kids)
  {
    var next := CollectNextSlideIds(kids);
    var seen: set<string> := {};
    var wsSeen: map<string, nat> := map[];
    var out: seq<Key> := [];
    for j := 0 to |kids|
      invariant Walked(kids, j, out, seen, wsSeen)
    {
      match kids[j]
      case TextNode(value) =>
        if Trim(value) != "" {
          assert !Keyable(kids, j);
          return None;
        }
        var base := BlankBase(next[j]);
        var n := CountOf(wsSeen, base);
        WalkBlank(kids, j, out, seen, wsSeen, base);
        wsSeen := wsSeen[base := n + 1];
        out := out + [Named(Numbered(base, n))];
      case OtherNode =>
        WalkFiller(kids, j, out, seen, wsSeen);
        out := out + [Position(j)];
      case Element(tag, id) =>
        if tag in AUXILIARY {
          WalkFiller(kids, j, out, seen, wsSeen);
          out := out + [Position(j)];
        } else {
          if tag in CONTROL_FLOW {
            assert !Keyable(kids, j);
            return None;
          }
          SeenDecides(kids, j, seen);
          if id.None? || !IsSlideId(id.value) || id.value in seen { return None; }
          WalkSlide(kids, j, out, seen, wsSeen, id.value);
          seen := seen + {id.value};
          out := out + [Named("omid:" + id.value)];
        }
    }
    keys := Some(out);
  }
}
