/** The two JSON depth checks of datasets/schema_inspection.py: the one-pass bracket scan of the
    text (`_check_json_lexical_depth`) and the walk over the parsed tree (`_check_json_bounds`).
    Texts are those of RFC 8259. */
module JsonDepth {

  const MAX_JSON_DEPTH := 64
  const MAX_STRING_BYTES := 0x100_0000

  /******* Texts *******/

  // One character of a string literal, or a backslash and the character it escapes.
  datatype StringItem = Raw(c: char) | Escape(c: char)

  /** The syntax tree of a text.  A gap is the white space, comma or colon before or after a
      value, and `Plain` a number or a name: neither holds a quote or a bracket. */
  datatype Json =
    | Plain(text: string)
    | Str(items: seq<StringItem>)
    | Arr(elements: seq<Element>, end: string)
    | Obj(members: seq<Member>, end: string)

  datatype Element = Element(gap: string, value: Json)

  datatype Member = Member(gap: string, key: seq<StringItem>, colon: string, value: Json)

  predicate Opens(c: char) { c == '[' || c == '{' }

  predicate Closes(c: char) { c == ']' || c == '}' }

  predicate Neutral(s: string)
  {
    forall i :: 0 <= i < |s| ==> s[i] != '"' && !Opens(s[i]) && !Closes(s[i])
  }

  predicate WellFormedString(items: seq<StringItem>)
  {
    forall i :: 0 <= i < |items| ==> items[i].Raw? ==> items[i].c != '"' && items[i].c != '\\'
  }

  predicate WellFormed(j: Json)
  {
    match j
    case Plain(text) => Neutral(text)
    case Str(items) => WellFormedString(items)
    case Arr(elements, end) => Neutral(end) && forall i :: 0 <= i < |elements| ==> Neutral(elements[i].gap) && WellFormed(elements[i].value)
    case Obj(members, end) =>
      && Neutral(end)
      && forall i :: 0 <= i < |members| ==>
           Neutral(members[i].gap) && WellFormedString(members[i].key) && Neutral(members[i].colon) && WellFormed(members[i].value)
  }

  function RenderItems(items: seq<StringItem>): string
  {
    if items == [] then ""
    else RenderItems(items[..|items| - 1]) + (match items[|items| - 1] case Raw(c) => [c] case Escape(c) => ['\\', c])
  }

  function RenderString(items: seq<StringItem>): string { "\"" + RenderItems(items) + "\"" }

  function Render(j: Json): string
  {
    match j
    case Plain(text) => text
    case Str(items) => RenderString(items)
    case Arr(elements, end) => "[" + RenderElements(elements) + end + "]"
    case Obj(members, end) => "{" + RenderMembers(members) + end + "}"
  }

  function RenderElements(es: seq<Element>): string
  {
    if es == [] then "" else RenderElements(es[..|es| - 1]) + (es[|es| - 1].gap + Render(es[|es| - 1].value))
  }

  function RenderMembers(ms: seq<Member>): string
  {
    if ms == [] then ""
    else
      var m := ms[|ms| - 1];
      RenderMembers(ms[..|ms| - 1]) + (m.gap + RenderString(m.key) + m.colon + Render(m.value))
  }

  function Max(a: int, b: int): int { if a < b then b else a }

  /** How deeply containers are nested. */
  function Nesting(j: Json): int
  {
    match j
    case Plain(_) => 0
    case Str(_) => 0
    case Arr(elements, _) => 1 + NestingOf(elements)
    case Obj(members, _) => 1 + NestingIn(members)
  }

  function NestingOf(es: seq<Element>): int
  {
    if es == [] then 0 else Max(NestingOf(es[..|es| - 1]), Nesting(es[|es| - 1].value))
  }

  function NestingIn(ms: seq<Member>): int
  {
    if ms == [] then 0 else Max(NestingIn(ms[..|ms| - 1]), Nesting(ms[|ms| - 1].value))
  }

  /******* The scan *******/

  // `peak` is the greatest depth so far.
  datatype Scan = Scan(depth: int, inString: bool, escaped: bool, peak: int)

  const START := Scan(0, false, false, 0)

  function Step(s: Scan, c: char): Scan
  {
    if s.inString then
      if s.escaped then s.(escaped := false)
      else if c == '\\' then s.(escaped := true)
      else if c == '"' then s.(inString := false)
      else s
    else if c == '"' then s.(inString := true)
    else if Opens(c) then s.(depth := s.depth + 1, peak := Max(s.peak, s.depth + 1))
    else if Closes(c) then s.(depth := s.depth - 1)
    else s
  }

  function Scanned(s: Scan, text: string): Scan
  {
    if text == "" then s else Step(Scanned(s, text[..|text| - 1]), text[|text| - 1])
  }

  lemma {:induction false} ScannedAppend(s: Scan, a: string, b: string)
    ensures Scanned(s, a + b) == Scanned(Scanned(s, a), b)
  {
    if b == "" {
      assert a + b == a;
    } else {
      assert (a + b)[..|a + b| - 1] == a + b[..|b| - 1];
      ScannedAppend(s, a, b[..|b| - 1]);
    }
  }

  lemma OneScanned(s: Scan, c: char)
    ensures Scanned(s, [c]) == Step(s, c) && Scanned(s, "") == s
  {
    assert [c][..0] == "";
  }

  lemma {:induction false} PeakGrows(s: Scan, text: string, n: nat)
    requires n <= |text|
    ensures Scanned(s, text[..n]).peak <= Scanned(s, text).peak
  {
    if n < |text| {
      assert text[..|text| - 1][..n] == text[..n];
      PeakGrows(s, text[..|text| - 1], n);
    } else {
      assert text[..n] == text;
    }
  }

  /** `_check_json_lexical_depth`: accepts exactly the texts whose scan never goes too deep. */
  method CheckLexicalDepth(text: string) returns (ok: bool)
    ensures ok <==> Scanned(START, text).peak <= MAX_JSON_DEPTH
  {
    var depth, inString, escaped := 0, false, false;
    for i := 0 to |text|
      invariant Scanned(START, text[..i]) == Scan(depth, inString, escaped, Scanned(START, text[..i]).peak)
      invariant Scanned(START, text[..i]).peak <= MAX_JSON_DEPTH
    {
      var c := text[i];
      assert text[..i + 1][..i] == text[..i];
      PeakGrows(START, text, i + 1);
      if inString {
        if escaped {
          escaped := false;
        } else if c == '\\' {
          escaped := true;
        } else if c == '"' {
          inString := false;
        }
        continue;
      }
      if c == '"' {
        inString := true;
      } else if Opens(c) {
        depth := depth + 1;
        if depth > MAX_JSON_DEPTH { return false; }
      } else if Closes(c) {
        depth := depth - 1;
      }
    }
    assert text[..|text|] == text;
    return true;
  }

  lemma {:induction false} NeutralScan(s: Scan, text: string)
    requires Neutral(text) && !s.inString
    ensures Scanned(s, text) == s
  {
    if text != "" {
      NeutralScan(s, text[..|text| - 1]);
    }
  }

  // Inside a string nothing but its end is noticed.
  lemma {:induction false} ItemsScan(s: Scan, items: seq<StringItem>)
    requires WellFormedString(items) && s.inString && !s.escaped
    ensures Scanned(s, RenderItems(items)) == s
  {
    hide Scanned;
    OneScanned(s, ' ');
    if items != [] {
      var last, front := items[|items| - 1], items[..|items| - 1];
      ItemsScan(s, front);
      OneScanned(s, last.c);
      if last.Raw? {
        ScannedAppend(s, RenderItems(front), [last.c]);
      } else {
        ScannedAppend(s, RenderItems(front), ['\\'] + [last.c]);
        ScannedAppend(s, ['\\'], [last.c]);
        OneScanned(s, '\\');
        OneScanned(s.(escaped := true), last.c);
        assert ['\\', last.c] == ['\\'] + [last.c];
      }
    }
  }

  lemma StringScan(s: Scan, items: seq<StringItem>)
    requires WellFormedString(items) && !s.inString && !s.escaped
    ensures Scanned(s, RenderString(items)) == s
  {
    hide Scanned;
    var inside := s.(inString := true);
    ScannedAppend(s, "\"" + RenderItems(items), "\"");
    ScannedAppend(s, "\"", RenderItems(items));
    OneScanned(s, '"');
    OneScanned(inside, '"');
    ItemsScan(inside, items);
  }

  // The state after a value of the given nesting.
  function Raised(s: Scan, nesting: int): Scan { s.(peak := Max(s.peak, s.depth + nesting)) }

  // `s` is between tokens.
  predicate Outside(s: Scan) { !s.inString && !s.escaped && s.depth <= s.peak }

  // The state after an opening bracket.
  function Inside(s: Scan): Scan { s.(depth := s.depth + 1, peak := Max(s.peak, s.depth + 1)) }

  lemma BracketScan(s: Scan, open: char, body: string, end: string, close: char, nesting: int)
    requires Outside(s) && Opens(open) && Closes(close) && Neutral(end) && nesting >= 0
    requires Scanned(Inside(s), body) == Raised(Inside(s), nesting)
    ensures Scanned(s, [open] + body + end + [close]) == Raised(s, 1 + nesting)
  {
    hide Scanned, Neutral;
    ScannedAppend(s, [open] + body + end, [close]);
    ScannedAppend(s, [open] + body, end);
    ScannedAppend(s, [open], body);
    assert Scanned(s, [open]) == Inside(s) by { OneScanned(s, open); }
    var t := Raised(Inside(s), nesting);
    assert Scanned(t, end) == t by { NeutralScan(t, end); }
    assert Scanned(t, [close]) == Raised(s, 1 + nesting) by { OneScanned(t, close); }
  }

  lemma {:induction false} NestingNatural(j: Json)
    ensures Nesting(j) >= 0
  {
    match j
    case Arr(elements, _) => ElementsNatural(elements);
    case Obj(members, _) => MembersNatural(members);
    case _ =>
  }

  lemma {:induction false} ElementsNatural(es: seq<Element>)
    ensures NestingOf(es) >= 0
  {
    if es != [] { ElementsNatural(es[..|es| - 1]); }
  }

  lemma {:induction false} MembersNatural(ms: seq<Member>)
    ensures NestingIn(ms) >= 0
  {
    if ms != [] { MembersNatural(ms[..|ms| - 1]); }
  }

  /** Over the text of a value the scan returns to where it was, having gone exactly as deep as
      the value is nested. */
  lemma {:induction false} ValueScan(s: Scan, j: Json)
    requires WellFormed(j) && Outside(s)
    ensures Scanned(s, Render(j)) == Raised(s, Nesting(j))
    decreases j
  {
    match j
    case Plain(text) => NeutralScan(s, text);
    case Str(items) => StringScan(s, items);
    case Arr(elements, end) =>
      ElementsScan(Inside(s), elements);
      ElementsNatural(elements);
      BracketScan(s, '[', RenderElements(elements), end, ']', NestingOf(elements));
    case Obj(members, end) =>
      MembersScan(Inside(s), members);
      MembersNatural(members);
      BracketScan(s, '{', RenderMembers(members), end, '}', NestingIn(members));
  }

  lemma {:induction false} ElementsScan(s: Scan, es: seq<Element>)
    requires Outside(s) && forall i :: 0 <= i < |es| ==> Neutral(es[i].gap) && WellFormed(es[i].value)
    ensures Scanned(s, RenderElements(es)) == Raised(s, NestingOf(es))
    decreases es
  {
    if es != [] {
      var e, front := es[|es| - 1], es[..|es| - 1];
      ElementsScan(s, front);
      ElementsNatural(front);
      var t := Raised(s, NestingOf(front));
      ScannedAppend(s, RenderElements(front), e.gap + Render(e.value));
      ScannedAppend(t, e.gap, Render(e.value));
      NeutralScan(t, e.gap);
      ValueScan(t, e.value);
    }
  }

  lemma {:induction false} MembersScan(s: Scan, ms: seq<Member>)
    requires Outside(s)
    requires forall i :: 0 <= i < |ms| ==>
               Neutral(ms[i].gap) && WellFormedString(ms[i].key) && Neutral(ms[i].colon) && WellFormed(ms[i].value)
    ensures Scanned(s, RenderMembers(ms)) == Raised(s, NestingIn(ms))
    decreases ms
  {
    if ms != [] {
      var m, front := ms[|ms| - 1], ms[..|ms| - 1];
      MembersScan(s, front);
      MembersNatural(front);
      var t := Raised(s, NestingIn(front));
      ScannedAppend(s, RenderMembers(front), m.gap + RenderString(m.key) + m.colon + Render(m.value));
      ScannedAppend(t, m.gap + RenderString(m.key) + m.colon, Render(m.value));
      ScannedAppend(t, m.gap + RenderString(m.key), m.colon);
      ScannedAppend(t, m.gap, RenderString(m.key));
      NeutralScan(t, m.gap);
      StringScan(t, m.key);
      NeutralScan(t, m.colon);
      ValueScan(t, m.value);
    }
  }

  /** The scan of a whole text finds exactly the nesting of its tree. */
  lemma ScanFindsNesting(before: string, j: Json, after: string)
    requires Neutral(before) && WellFormed(j) && Neutral(after)
    ensures Scanned(START, before + Render(j) + after).peak == Nesting(j)
  {
    NestingNatural(j);
    ScannedAppend(START, before + Render(j), after);
    ScannedAppend(START, before, Render(j));
    NeutralScan(START, before);
    ValueScan(START, j);
    NeutralScan(Raised(START, Nesting(j)), after);
  }

  /******* The walk over the tree *******/

  // `bytes` gives the UTF-8 length of a decoded string literal.
  predicate WithinBounds(bytes: seq<StringItem> -> nat, j: Json, depth: int)
    decreases j
  {
    match j
    case Plain(_) => true
    case Str(items) => bytes(items) <= MAX_STRING_BYTES
    case Arr(es, _) => depth <= MAX_JSON_DEPTH && forall i :: 0 <= i < |es| ==> WithinBounds(bytes, es[i].value, depth + 1)
    case Obj(ms, _) =>
      && depth <= MAX_JSON_DEPTH
      && forall i :: 0 <= i < |ms| ==> bytes(ms[i].key) <= MAX_STRING_BYTES && WithinBounds(bytes, ms[i].value, depth + 1)
  }

  // Every string and every member name fits.
  predicate StringsFit(bytes: seq<StringItem> -> nat, j: Json)
  {
    match j
    case Plain(_) => true
    case Str(items) => bytes(items) <= MAX_STRING_BYTES
    case Arr(es, _) => forall i :: 0 <= i < |es| ==> StringsFit(bytes, es[i].value)
    case Obj(ms, _) => forall i :: 0 <= i < |ms| ==> bytes(ms[i].key) <= MAX_STRING_BYTES && StringsFit(bytes, ms[i].value)
  }

  // A value at `depth` fits when its innermost container does.
  predicate DepthFits(depth: int, nesting: int) { nesting == 0 || depth + nesting - 1 <= MAX_JSON_DEPTH }

  lemma {:induction false} BoundsAreNesting(bytes: seq<StringItem> -> nat, j: Json, depth: int)
    ensures WithinBounds(bytes, j, depth) <==> StringsFit(bytes, j) && DepthFits(depth, Nesting(j))
    decreases j
  {
    match j
    case Arr(es, _) =>
      forall i | 0 <= i < |es| ensures WithinBounds(bytes, es[i].value, depth + 1) <==> StringsFit(bytes, es[i].value) && DepthFits(depth + 1, Nesting(es[i].value)) {
        BoundsAreNesting(bytes, es[i].value, depth + 1);
      }
      ElementsDepth(es, depth);
    case Obj(ms, _) =>
      forall i | 0 <= i < |ms| ensures WithinBounds(bytes, ms[i].value, depth + 1) <==> StringsFit(bytes, ms[i].value) && DepthFits(depth + 1, Nesting(ms[i].value)) {
        BoundsAreNesting(bytes, ms[i].value, depth + 1);
      }
      MembersDepth(ms, depth);
    case _ =>
  }

  lemma {:induction false} ElementsDepth(es: seq<Element>, depth: int)
    ensures DepthFits(depth, 1 + NestingOf(es)) <==>
            depth <= MAX_JSON_DEPTH && forall i :: 0 <= i < |es| ==> DepthFits(depth + 1, Nesting(es[i].value))
  {
    ElementsNatural(es);
    if es != [] {
      ElementsDepth(es[..|es| - 1], depth);
      ElementsNatural(es[..|es| - 1]);
      NestingNatural(es[|es| - 1].value);
      assert es == es[..|es| - 1] + [es[|es| - 1]];
    }
  }

  lemma {:induction false} MembersDepth(ms: seq<Member>, depth: int)
    ensures DepthFits(depth, 1 + NestingIn(ms)) <==>
            depth <= MAX_JSON_DEPTH && forall i :: 0 <= i < |ms| ==> DepthFits(depth + 1, Nesting(ms[i].value))
  {
    MembersNatural(ms);
    if ms != [] {
      MembersDepth(ms[..|ms| - 1], depth);
      MembersNatural(ms[..|ms| - 1]);
      NestingNatural(ms[|ms| - 1].value);
      assert ms == ms[..|ms| - 1] + [ms[|ms| - 1]];
    }
  }

  datatype Pending = Pending(value: Json, depth: int)

  ghost predicate AllWithin(bytes: seq<StringItem> -> nat, stack: seq<Pending>)
  {
    forall i :: 0 <= i < |stack| ==> WithinBounds(bytes, stack[i].value, stack[i].depth)
  }

  // How many values are still to be visited.
  function Size(j: Json): nat
  {
    match j
    case Arr(es, _) => 1 + SizeOf(es)
    case Obj(ms, _) => 1 + SizeIn(ms)
    case _ => 1
  }

  function SizeOf(es: seq<Element>): nat
  {
    if es == [] then 0 else SizeOf(es[..|es| - 1]) + Size(es[|es| - 1].value)
  }

  function SizeIn(ms: seq<Member>): nat
  {
    if ms == [] then 0 else SizeIn(ms[..|ms| - 1]) + Size(ms[|ms| - 1].value)
  }

  function StackSize(stack: seq<Pending>): nat
  {
    if stack == [] then 0 else StackSize(stack[..|stack| - 1]) + Size(stack[|stack| - 1].value)
  }

  lemma Pushed(bytes: seq<StringItem> -> nat, stack: seq<Pending>, p: Pending)
    ensures StackSize(stack + [p]) == StackSize(stack) + Size(p.value)
    ensures AllWithin(bytes, stack + [p]) <==> AllWithin(bytes, stack) && WithinBounds(bytes, p.value, p.depth)
  {
    var longer := stack + [p];
    assert longer[..|stack|] == stack && longer[|stack|] == p;
    assert forall i :: 0 <= i < |stack| ==> longer[i] == stack[i];
  }

  method PushElements(bytes: seq<StringItem> -> nat, stack: seq<Pending>, es: seq<Element>, depth: int) returns (r: seq<Pending>)
    ensures StackSize(r) == StackSize(stack) + SizeOf(es)
    ensures AllWithin(bytes, r) <==> AllWithin(bytes, stack) && forall i :: 0 <= i < |es| ==> WithinBounds(bytes, es[i].value, depth)
  {
    hide AllWithin, WithinBounds, Size, StackSize;
    r := stack;
    for k := 0 to |es|
      invariant StackSize(r) == StackSize(stack) + SizeOf(es[..k])
      invariant AllWithin(bytes, r) <==> AllWithin(bytes, stack) && forall i :: 0 <= i < k ==> WithinBounds(bytes, es[i].value, depth)
    {
      Pushed(bytes, r, Pending(es[k].value, depth));
      SizeOfStep(es, k);
      r := r + [Pending(es[k].value, depth)];
    }
    assert es[..|es|] == es;
  }

  lemma SizeInStep(ms: seq<Member>, k: nat)
    requires k < |ms|
    ensures SizeIn(ms[..k + 1]) == SizeIn(ms[..k]) + Size(ms[k].value)
  {
    assert ms[..k + 1][..k] == ms[..k];
  }

  lemma SizeOfStep(es: seq<Element>, k: nat)
    requires k < |es|
    ensures SizeOf(es[..k + 1]) == SizeOf(es[..k]) + Size(es[k].value)
  {
    assert es[..k + 1][..k] == es[..k];
  }

  method PushMembers(bytes: seq<StringItem> -> nat, stack: seq<Pending>, ms: seq<Member>, depth: int) returns (ok: bool, r: seq<Pending>)
    ensures ok <==> forall i :: 0 <= i < |ms| ==> bytes(ms[i].key) <= MAX_STRING_BYTES
    ensures ok ==> StackSize(r) == StackSize(stack) + SizeIn(ms)
    ensures ok ==> (AllWithin(bytes, r) <==> AllWithin(bytes, stack) && forall i :: 0 <= i < |ms| ==> WithinBounds(bytes, ms[i].value, depth))
  {
    hide AllWithin, WithinBounds, Size, StackSize;
    r := stack;
    for k := 0 to |ms|
      invariant forall i :: 0 <= i < k ==> bytes(ms[i].key) <= MAX_STRING_BYTES
      invariant StackSize(r) == StackSize(stack) + SizeIn(ms[..k])
      invariant AllWithin(bytes, r) <==> AllWithin(bytes, stack) && forall i :: 0 <= i < k ==> WithinBounds(bytes, ms[i].value, depth)
    {
      if bytes(ms[k].key) > MAX_STRING_BYTES { return false, r; }
      Pushed(bytes, r, Pending(ms[k].value, depth));
      SizeInStep(ms, k);
      r := r + [Pending(ms[k].value, depth)];
    }
    assert ms[..|ms|] == ms;
    ok := true;
  }

  /** `_check_json_bounds`, with its explicit stack: accepts exactly the trees whose strings fit
      and whose containers are nested at most 64 deep. */
  method CheckJsonBounds(bytes: seq<StringItem> -> nat, root: Json) returns (ok: bool)
    ensures ok <==> StringsFit(bytes, root) && Nesting(root) <= MAX_JSON_DEPTH
  {
    hide AllWithin, StringsFit, Nesting;
    BoundsAreNesting(bytes, root, 1);
    Pushed(bytes, [], Pending(root, 1));
    NothingPending(bytes);
    var stack := [Pending(root, 1)];
    assert stack == [] + [Pending(root, 1)];
    while stack != []
      invariant AllWithin(bytes, stack) <==> WithinBounds(bytes, root, 1)
      decreases StackSize(stack)
    {
      var rest, top := stack[..|stack| - 1], stack[|stack| - 1];
      assert stack == rest + [top];
      Pushed(bytes, rest, top);
      if top.value.Str? && bytes(top.value.items) > MAX_STRING_BYTES { return false; }
      stack := rest;
      if top.value.Obj? {
        if top.depth > MAX_JSON_DEPTH { return false; }
        var fit, more := PushMembers(bytes, rest, top.value.members, top.depth + 1);
        if !fit { return false; }
        stack := more;
      } else if top.value.Arr? {
        if top.depth > MAX_JSON_DEPTH { return false; }
        stack := PushElements(bytes, rest, top.value.elements, top.depth + 1);
      }
    }
    return true;
  }

  lemma NothingPending(bytes: seq<StringItem> -> nat)
    ensures AllWithin(bytes, []) && StackSize([]) == 0
  {
  }

  /** The scan of the text refines the depth check of the walk: on the text of any tree both
      say the same about its nesting. */
  method ScanRefinesWalk(bytes: seq<StringItem> -> nat, before: string, j: Json, after: string) returns (scanned: bool, walked: bool)
    requires Neutral(before) && WellFormed(j) && Neutral(after)
    ensures scanned <==> Nesting(j) <= MAX_JSON_DEPTH
    ensures walked <==> scanned && StringsFit(bytes, j)
  {
    ScanFindsNesting(before, j, after);
    scanned := CheckLexicalDepth(before + Render(j) + after);
    walked := CheckJsonBounds(bytes, j);
  }
}
