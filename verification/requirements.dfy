/** Authorization requirements: what they decide, how `|` and `&` build them, and how they print. */
module Requirements {

  import opened Wrappers

  datatype Claims = Claims(roles: set<string>, scopes: set<string>)

  /** `Custom` carries an arbitrary predicate and an arbitrary text. */
  datatype Requirement =
    | HasRole(values: seq<string>)
    | HasScope(values: seq<string>)
    | Custom(decides: Claims -> bool, description: string)
    | AnyOf(parts: seq<Requirement>)
    | AllOf(parts: seq<Requirement>)

  /** No constructor accepts an empty list. */
  predicate Valid(r: Requirement) {
    match r
    case HasRole(values) => values != []
    case HasScope(values) => values != []
    case Custom(_, _) => true
    case AnyOf(parts) => parts != [] && forall i | 0 <= i < |parts| :: Valid(parts[i])
    case AllOf(parts) => parts != [] && forall i | 0 <= i < |parts| :: Valid(parts[i])
  }

  predicate Check(r: Requirement, c: Claims)
    decreases r, 1
  {
    match r
    case HasRole(values) => exists v :: v in values && v in c.roles
    case HasScope(values) => exists v :: v in values && v in c.scopes
    case Custom(p, _) => p(c)
    case AnyOf(parts) => AnyPasses(parts, c)
    case AllOf(parts) => AllPass(parts, c)
  }

  predicate AnyPasses(parts: seq<Requirement>, c: Claims)
    decreases parts, 0
  {
    parts != [] && (Check(parts[0], c) || AnyPasses(parts[1..], c))
  }

  predicate AllPass(parts: seq<Requirement>, c: Claims)
    decreases parts, 0
  {
    parts == [] || (Check(parts[0], c) && AllPass(parts[1..], c))
  }

  // -- Composition ---------------------------------------------------------------------------

  datatype Kind = Any | All

  predicate IsKind(r: Requirement, kind: Kind) { if kind.Any? then r.AnyOf? else r.AllOf? }

  function Spliced(r: Requirement, kind: Kind): seq<Requirement> {
    if IsKind(r, kind) then r.parts else [r]
  }

  function Flattened(kind: Kind, parts: seq<Requirement>): seq<Requirement> {
    if parts == [] then [] else Flattened(kind, parts[..|parts| - 1]) + Spliced(parts[|parts| - 1], kind)
  }

  /** `_flatten`. */
  method Flatten(kind: Kind, parts: seq<Requirement>) returns (out: seq<Requirement>)
    ensures out == Flattened(kind, parts)
  {
    out := [];
    for i := 0 to |parts|
      invariant out == Flattened(kind, parts[..i])
    {
      if IsKind(parts[i], kind) {
        out := out + parts[i].parts;
      } else {
        out := out + [parts[i]];
      }
      assert parts[..i + 1][..i] == parts[..i];
    }
    assert parts[..|parts|] == parts;
  }

  /** `a | b` and `a & b`. */
  function Or(a: Requirement, b: Requirement): Requirement { AnyOf(Flattened(Any, [a, b])) }

  function And(a: Requirement, b: Requirement): Requirement { AllOf(Flattened(All, [a, b])) }

  lemma FlattenTwo(kind: Kind, a: Requirement, b: Requirement)
    ensures Flattened(kind, [a, b]) == Spliced(a, kind) + Spliced(b, kind)
  {
    assert [a, b][..1] == [a] && [a][..0] == [];
    assert Flattened(kind, [a]) == [] + Spliced(a, kind);
  }

  lemma {:induction false} PassesConcat(a: seq<Requirement>, b: seq<Requirement>, c: Claims)
    ensures AnyPasses(a + b, c) == (AnyPasses(a, c) || AnyPasses(b, c))
    ensures AllPass(a + b, c) == (AllPass(a, c) && AllPass(b, c))
  {
    if a == [] {
      assert a + b == b;
    } else {
      assert (a + b)[0] == a[0] && (a + b)[1..] == a[1..] + b;
      PassesConcat(a[1..], b, c);
    }
  }

  lemma SplicedChecks(r: Requirement, c: Claims)
    ensures Check(r, c) == AnyPasses(Spliced(r, Any), c) == AllPass(Spliced(r, All), c)
  {
    assert [r][1..] == [];
  }

  lemma SplicedValid(r: Requirement, kind: Kind)
    requires Valid(r)
    ensures Spliced(r, kind) != [] && forall i | 0 <= i < |Spliced(r, kind)| :: Valid(Spliced(r, kind)[i])
  {
  }

  /** `|` decides or, `&` decides and, for all operands; both keep requirements well formed. */
  lemma OrAndMeanOrAnd(a: Requirement, b: Requirement, c: Claims)
    requires Valid(a) && Valid(b)
    ensures Check(Or(a, b), c) <==> Check(a, c) || Check(b, c)
    ensures Check(And(a, b), c) <==> Check(a, c) && Check(b, c)
    ensures Valid(Or(a, b)) && Valid(And(a, b))
  {
    FlattenTwo(Any, a, b);
    FlattenTwo(All, a, b);
    PassesConcat(Spliced(a, Any), Spliced(b, Any), c);
    PassesConcat(Spliced(a, All), Spliced(b, All), c);
    SplicedChecks(a, c);
    SplicedChecks(b, c);
    SplicedValid(a, Any);
    SplicedValid(a, All);
    SplicedValid(b, Any);
    SplicedValid(b, All);
  }

  lemma Associates(kind: Kind, a: Requirement, b: Requirement, c: Requirement, ab: Requirement, bc: Requirement)
    requires IsKind(ab, kind) && ab.parts == Spliced(a, kind) + Spliced(b, kind)
    requires IsKind(bc, kind) && bc.parts == Spliced(b, kind) + Spliced(c, kind)
    ensures Flattened(kind, [ab, c]) == Flattened(kind, [a, bc])
  {
    FlattenTwo(kind, ab, c);
    FlattenTwo(kind, a, bc);
    assert Spliced(ab, kind) == ab.parts && Spliced(bc, kind) == bc.parts;
  }

  /** Chains of one operator build the same flat tree however they are bracketed. */
  lemma OrAndAssociate(a: Requirement, b: Requirement, c: Requirement)
    ensures Or(Or(a, b), c) == Or(a, Or(b, c))
    ensures And(And(a, b), c) == And(a, And(b, c))
  {
    FlattenTwo(Any, a, b);
    FlattenTwo(Any, b, c);
    Associates(Any, a, b, c, Or(a, b), Or(b, c));
    FlattenTwo(All, a, b);
    FlattenTwo(All, b, c);
    Associates(All, a, b, c, And(a, b), And(b, c));
  }

  predicate CustomFree(r: Requirement) {
    match r
    case Custom(_, _) => false
    case AnyOf(parts) => forall i | 0 <= i < |parts| :: CustomFree(parts[i])
    case AllOf(parts) => forall i | 0 <= i < |parts| :: CustomFree(parts[i])
    case _ => true
  }

  /** Adding roles or scopes never turns a pass into a denial. */
  lemma {:induction false} Monotone(r: Requirement, c: Claims, more: Claims)
    requires CustomFree(r) && c.roles <= more.roles && c.scopes <= more.scopes && Check(r, c)
    ensures Check(r, more)
    decreases r, 1
  {
    match r
    case AnyOf(parts) => MonotoneParts(parts, c, more);
    case AllOf(parts) => MonotoneParts(parts, c, more);
    case _ =>
  }

  lemma {:induction false} MonotoneParts(parts: seq<Requirement>, c: Claims, more: Claims)
    requires forall i | 0 <= i < |parts| :: CustomFree(parts[i])
    requires c.roles <= more.roles && c.scopes <= more.scopes
    ensures AnyPasses(parts, c) ==> AnyPasses(parts, more)
    ensures AllPass(parts, c) ==> AllPass(parts, more)
    decreases parts, 0
  {
    if parts != [] {
      if Check(parts[0], c) { Monotone(parts[0], c, more); }
      MonotoneParts(parts[1..], c, more);
    }
  }

  // -- Printing --------------------------------------------------------------------------------

  function Joined(texts: seq<string>, separator: string): string {
    if texts == [] then ""
    else if |texts| == 1 then texts[0]
    else texts[0] + separator + Joined(texts[1..], separator)
  }

  predicate Contains(text: string, pattern: string) {
    exists i | 0 <= i <= |text| :: pattern <= text[i..]
  }

  function OpText(kind: Kind): string { if kind.Any? then " OR " else " AND " }

  function LeafText(isRole: bool, name: string): string { (if isRole then "role:" else "scope:") + name }

  function LeafTexts(isRole: bool, values: seq<string>): seq<string> {
    if values == [] then [] else [LeafText(isRole, values[0])] + LeafTexts(isRole, values[1..])
  }

  function Describe(r: Requirement): string
    decreases r, 1
  {
    match r
    case HasRole(values) => Joined(LeafTexts(true, values), OpText(Any))
    case HasScope(values) => Joined(LeafTexts(false, values), OpText(Any))
    case Custom(_, description) => description
    case AnyOf(parts) => Joined(WrapAll(parts), OpText(Any))
    case AllOf(parts) => Joined(WrapAll(parts), OpText(All))
  }

  /** `_wrap`. */
  function Wrap(r: Requirement): string
    decreases r, 2
  {
    var text := Describe(r);
    if Contains(text, OpText(Any)) || Contains(text, OpText(All)) then "(" + text + ")" else text
  }

  function WrapAll(parts: seq<Requirement>): seq<string>
    decreases parts, 0
  {
    if parts == [] then [] else [Wrap(parts[0])] + WrapAll(parts[1..])
  }

  // -- Reading the text back -------------------------------------------------------------------

  datatype Token = Open | Close | Op(kind: Kind) | Leaf(isRole: bool, name: string)

  predicate Delimits(c: char) { c == ' ' || c == '(' || c == ')' }

  function WordLength(s: string): nat {
    if s == "" || Delimits(s[0]) then 0 else 1 + WordLength(s[1..])
  }

  function Classify(word: string): Option<Token> {
    if "role:" <= word then Some(Leaf(true, word[5..]))
    else if "scope:" <= word then Some(Leaf(false, word[6..]))
    else None
  }

  function Lex(s: string): Option<seq<Token>>
    decreases |s|
  {
    if s == "" then Some([])
    else if s[0] == '(' then Prepend(Open, Lex(s[1..]))
    else if s[0] == ')' then Prepend(Close, Lex(s[1..]))
    else if OpText(Any) <= s then Prepend(Op(Any), Lex(s[4..]))
    else if OpText(All) <= s then Prepend(Op(All), Lex(s[5..]))
    else if s[0] == ' ' then None
    else match Classify(s[..WordCut(s)])
      case None => None
      case Some(t) => Prepend(t, Lex(s[WordCut(s)..]))
  }

  /** The end of the word at the start of `s`. */
  function WordCut(s: string): (n: nat)
    requires s != "" && !Delimits(s[0])
    ensures 1 <= n <= |s|
  {
    WordBound(s);
    WordLength(s)
  }

  lemma {:induction false} WordBound(s: string)
    ensures WordLength(s) <= |s|
  {
    if s != "" && !Delimits(s[0]) { WordBound(s[1..]); }
  }

  function Prepend(t: Token, ts: Option<seq<Token>>): Option<seq<Token>> {
    if ts.None? then None else Some([t] + ts.value)
  }

  datatype Rule = Single(isRole: bool, name: string) | Node(kind: Kind, left: Rule, right: Rule)

  predicate Eval(rule: Rule, c: Claims) {
    match rule
    case Single(isRole, name) => name in (if isRole then c.roles else c.scopes)
    case Node(kind, l, r) => if kind.Any? then Eval(l, c) || Eval(r, c) else Eval(l, c) && Eval(r, c)
  }

  /** A precedence parser in which `tight` binds tighter. Level 0 reads a list joined by the other
      operator, level 1 a list joined by `tight`, level 2 a leaf or a bracketed level 0. */
  function Parse(level: nat, tight: Kind, ts: seq<Token>): (r: Option<(Rule, seq<Token>)>)
    requires level <= 2
    ensures r.Some? ==> |r.value.1| < |ts|
    decreases |ts|, 2 - level
  {
    if level == 2 then
      if ts == [] then None
      else match ts[0]
        case Leaf(isRole, name) => Some((Single(isRole, name), ts[1..]))
        case Open =>
          var inner := Parse(0, tight, ts[1..]);
          if inner.Some? && inner.value.1 != [] && inner.value.1[0] == Close
          then Some((inner.value.0, inner.value.1[1..])) else None
        case _ => None
    else
      var kind := LevelKind(level, tight);
      var first := Parse(level + 1, tight, ts);
      if first.Some? && first.value.1 != [] && first.value.1[0] == Op(kind) then
        var second := Parse(level, tight, first.value.1[1..]);
        if second.Some? then Some((Node(kind, first.value.0, second.value.0), second.value.1)) else None
      else first
  }

  function Other(kind: Kind): Kind { if kind.Any? then All else Any }

  function LevelKind(level: nat, tight: Kind): Kind { if level == 0 then Other(tight) else tight }

  function ReadBack(text: string, tight: Kind): Option<Rule> {
    match Lex(text)
    case None => None
    case Some(ts) =>
      var r := Parse(0, tight, ts);
      if r.Some? && r.value.1 == [] then Some(r.value.0) else None
  }

  // -- The tokens a requirement prints -----------------------------------------------------------

  function Interleave(items: seq<seq<Token>>, kind: Kind): seq<Token> {
    if items == [] then []
    else if |items| == 1 then items[0]
    else items[0] + [Op(kind)] + Interleave(items[1..], kind)
  }

  function Leaves(isRole: bool, values: seq<string>): seq<seq<Token>> {
    if values == [] then [] else [[Leaf(isRole, values[0])]] + Leaves(isRole, values[1..])
  }

  predicate HasOp(ts: seq<Token>) { exists i :: 0 <= i < |ts| && ts[i].Op? }

  function Tokens(r: Requirement): seq<Token>
    decreases r, 1
  {
    match r
    case HasRole(values) => Interleave(Leaves(true, values), Any)
    case HasScope(values) => Interleave(Leaves(false, values), Any)
    case Custom(_, _) => []
    case AnyOf(parts) => Interleave(WrapTokensAll(parts), Any)
    case AllOf(parts) => Interleave(WrapTokensAll(parts), All)
  }

  function WrapTokens(r: Requirement): seq<Token>
    decreases r, 2
  {
    var ts := Tokens(r);
    if HasOp(ts) then [Open] + ts + [Close] else ts
  }

  function WrapTokensAll(parts: seq<Requirement>): seq<seq<Token>>
    decreases parts, 0
  {
    if parts == [] then [] else [WrapTokens(parts[0])] + WrapTokensAll(parts[1..])
  }

  // -- Parsing the tokens gives the same rule back, whichever operator binds tighter ---------------

  function Fold(rules: seq<Rule>, kind: Kind): Rule
    requires rules != []
  {
    if |rules| == 1 then rules[0] else Node(kind, rules[0], Fold(rules[1..], kind))
  }

  function Singles(isRole: bool, values: seq<string>): seq<Rule> {
    if values == [] then [] else [Single(isRole, values[0])] + Singles(isRole, values[1..])
  }

  function RuleOf(r: Requirement): Rule
    requires Valid(r) && CustomFree(r)
    decreases r, 1
  {
    match r
    case HasRole(values) => SinglesSize(true, values); Fold(Singles(true, values), Any)
    case HasScope(values) => SinglesSize(false, values); Fold(Singles(false, values), Any)
    case AnyOf(parts) => Fold(RulesOf(parts), Any)
    case AllOf(parts) => Fold(RulesOf(parts), All)
  }

  function RulesOf(parts: seq<Requirement>): (rules: seq<Rule>)
    requires forall i | 0 <= i < |parts| :: Valid(parts[i]) && CustomFree(parts[i])
    ensures |rules| == |parts|
    decreases parts, 0
  {
    if parts == [] then [] else [RuleOf(parts[0])] + RulesOf(parts[1..])
  }

  lemma {:induction false} SinglesSize(isRole: bool, values: seq<string>)
    ensures |Singles(isRole, values)| == |values| == |Leaves(isRole, values)| == |LeafTexts(isRole, values)|
  {
    if values != [] { SinglesSize(isRole, values[1..]); }
  }

  /** The item parses as this rule on its own, whatever follows. */
  ghost predicate IsAtom(item: seq<Token>, rule: Rule, tight: Kind) {
    forall rest: seq<Token> :: Parse(2, tight, item + rest) == Some((rule, rest))
  }

  ghost predicate Atoms(items: seq<seq<Token>>, rules: seq<Rule>, tight: Kind) {
    && |items| == |rules|
    && (items == [] || (IsAtom(items[0], rules[0], tight) && Atoms(items[1..], rules[1..], tight)))
  }

  predicate Closing(rest: seq<Token>) { rest == [] || rest[0] == Close }

  lemma ParseJoined(level: nat, tight: Kind, ts: seq<Token>, rule: Rule, tail: seq<Token>, more: Rule, rest: seq<Token>)
    requires level <= 1
    requires Parse(level + 1, tight, ts) == Some((rule, [Op(LevelKind(level, tight))] + tail))
    requires Parse(level, tight, tail) == Some((more, rest))
    ensures Parse(level, tight, ts) == Some((Node(LevelKind(level, tight), rule, more), rest))
  {
    assert ([Op(LevelKind(level, tight))] + tail)[1..] == tail;
  }

  lemma ParseLast(level: nat, tight: Kind, ts: seq<Token>, rule: Rule, rest: seq<Token>)
    requires level <= 1 && Closing(rest) && Parse(level + 1, tight, ts) == Some((rule, rest))
    ensures Parse(level, tight, ts) == Some((rule, rest))
  {
  }

  lemma InterleaveFirst(items: seq<seq<Token>>, kind: Kind, rest: seq<Token>)
    requires |items| > 1
    ensures Interleave(items, kind) + rest == items[0] + ([Op(kind)] + (Interleave(items[1..], kind) + rest))
  {
  }

  /** A list of atoms joined by one operator, up to a bracket or the end, parses as that list at the
      operator's own level. */
  lemma {:induction false} ListAtLevel(items: seq<seq<Token>>, rules: seq<Rule>, level: nat, tight: Kind,
                                       rest: seq<Token>)
    requires items != [] && Atoms(items, rules, tight) && Closing(rest) && level <= 1
    ensures Parse(level, tight, Interleave(items, LevelKind(level, tight)) + rest)
         == Some((Fold(rules, LevelKind(level, tight)), rest))
    decreases |items|
  {
    var kind := LevelKind(level, tight);
    var ts := Interleave(items, kind) + rest;
    if |items| > 1 {
      var tail := Interleave(items[1..], kind) + rest;
      InterleaveFirst(items, kind, rest);
      ListAtLevel(items[1..], rules[1..], level, tight, rest);
      FirstAtom(items[0], rules[0], tight, [Op(kind)] + tail, level);
      ParseJoined(level, tight, ts, rules[0], tail, Fold(rules[1..], kind), rest);
    } else {
      FirstAtom(items[0], rules[0], tight, rest, level);
      ParseLast(level, tight, ts, rules[0], rest);
    }
  }

  /** So it parses as that list from the top, whichever operator is the tighter one. */
  lemma ListParses(items: seq<seq<Token>>, rules: seq<Rule>, kind: Kind, tight: Kind, rest: seq<Token>)
    requires items != [] && Atoms(items, rules, tight) && Closing(rest)
    ensures Parse(0, tight, Interleave(items, kind) + rest) == Some((Fold(rules, kind), rest))
  {
    if kind == tight {
      ListAtLevel(items, rules, 1, tight, rest);
      ParseLast(0, tight, Interleave(items, kind) + rest, Fold(rules, kind), rest);
    } else {
      ListAtLevel(items, rules, 0, tight, rest);
    }
  }

  /** Above its own level an atom followed by an operator of another level is read as itself. */
  lemma FirstAtom(item: seq<Token>, rule: Rule, tight: Kind, after: seq<Token>, level: nat)
    requires IsAtom(item, rule, tight) && level <= 1
    requires after == [] || after[0] == Close || after[0] == Op(LevelKind(level, tight))
    ensures Parse(level + 1, tight, item + after) == Some((rule, after))
  {
    assert Parse(2, tight, item + after) == Some((rule, after));
  }

  lemma {:induction false} LeavesAreAtoms(isRole: bool, values: seq<string>, tight: Kind)
    ensures |Leaves(isRole, values)| == |values|
    ensures Atoms(Leaves(isRole, values), Singles(isRole, values), tight)
  {
    if values != [] {
      LeavesAreAtoms(isRole, values[1..], tight);
      forall rest: seq<Token>
        ensures Parse(2, tight, [Leaf(isRole, values[0])] + rest) == Some((Single(isRole, values[0]), rest))
      {
        assert ([Leaf(isRole, values[0])] + rest)[1..] == rest;
      }
      assert IsAtom([Leaf(isRole, values[0])], Single(isRole, values[0]), tight);
      assert Leaves(isRole, values)[1..] == Leaves(isRole, values[1..]);
      assert Singles(isRole, values)[1..] == Singles(isRole, values[1..]);
    }
  }

  lemma {:induction false} TokensParse(r: Requirement, tight: Kind, rest: seq<Token>)
    requires Valid(r) && CustomFree(r) && Closing(rest)
    ensures Parse(0, tight, Tokens(r) + rest) == Some((RuleOf(r), rest))
    decreases r, 1
  {
    match r
    case HasRole(values) =>
      LeavesAreAtoms(true, values, tight);
      ListParses(Leaves(true, values), Singles(true, values), Any, tight, rest);
    case HasScope(values) =>
      LeavesAreAtoms(false, values, tight);
      ListParses(Leaves(false, values), Singles(false, values), Any, tight, rest);
    case AnyOf(parts) =>
      PartsAreAtoms(parts, tight);
      ListParses(WrapTokensAll(parts), RulesOf(parts), Any, tight, rest);
    case AllOf(parts) =>
      PartsAreAtoms(parts, tight);
      ListParses(WrapTokensAll(parts), RulesOf(parts), All, tight, rest);
  }

  lemma {:induction false} PartsAreAtoms(parts: seq<Requirement>, tight: Kind)
    requires forall i | 0 <= i < |parts| :: Valid(parts[i]) && CustomFree(parts[i])
    ensures |WrapTokensAll(parts)| == |parts|
    ensures Atoms(WrapTokensAll(parts), RulesOf(parts), tight)
    decreases parts, 0
  {
    if parts != [] {
      PartsAreAtoms(parts[1..], tight);
      WrappedIsAtom(parts[0], tight);
      assert WrapTokensAll(parts)[1..] == WrapTokensAll(parts[1..]);
      assert RulesOf(parts)[1..] == RulesOf(parts[1..]);
    }
  }

  lemma {:induction false} WrappedIsAtom(r: Requirement, tight: Kind)
    requires Valid(r) && CustomFree(r)
    ensures IsAtom(WrapTokens(r), RuleOf(r), tight)
    decreases r, 2
  {
    var ts := Tokens(r);
    if HasOp(ts) {
      forall rest: seq<Token> ensures Parse(2, tight, WrapTokens(r) + rest) == Some((RuleOf(r), rest)) {
        TokensParse(r, tight, [Close] + rest);
        BracketsParse(ts, RuleOf(r), tight, rest);
      }
    } else {
      NoOpIsLeaf(r);
      TokensParse(r, tight, []);
      assert ts + [] == ts && ts == [ts[0]];
      OneLeaf(ts[0], tight, RuleOf(r));
    }
  }

  lemma BracketsParse(ts: seq<Token>, rule: Rule, tight: Kind, rest: seq<Token>)
    requires Parse(0, tight, ts + ([Close] + rest)) == Some((rule, [Close] + rest))
    ensures Parse(2, tight, [Open] + ts + [Close] + rest) == Some((rule, rest))
  {
    var all := [Open] + ts + [Close] + rest;
    assert all[0] == Open && all[1..] == ts + ([Close] + rest);
    assert ([Close] + rest)[0] == Close && ([Close] + rest)[1..] == rest;
  }

  lemma OneLeaf(t: Token, tight: Kind, rule: Rule)
    requires t.Leaf? && Parse(0, tight, [t]) == Some((rule, []))
    ensures IsAtom([t], rule, tight)
  {
    assert Parse(2, tight, [t]) == Some((Single(t.isRole, t.name), []));
    assert Parse(1, tight, [t]) == Some((Single(t.isRole, t.name), []));
    forall rest: seq<Token> ensures Parse(2, tight, [t] + rest) == Some((rule, rest)) {
      assert ([t] + rest)[1..] == rest;
    }
  }

  lemma WrappedHasOp(ts: seq<Token>)
    ensures HasOp(ts) ==> HasOp([Open] + ts + [Close])
  {
    if i :| 0 <= i < |ts| && ts[i].Op? {
      assert ([Open] + ts + [Close])[i + 1] == ts[i];
    }
  }

  lemma OpBetween(items: seq<seq<Token>>, kind: Kind)
    ensures |items| > 1 ==> HasOp(Interleave(items, kind))
  {
    if |items| > 1 {
      assert Interleave(items, kind)[|items[0]|] == Op(kind);
    }
  }

  lemma {:induction false} SizeOfAll(parts: seq<Requirement>)
    ensures |WrapTokensAll(parts)| == |parts| == |WrapAll(parts)|
  {
    if parts != [] { SizeOfAll(parts[1..]); }
  }

  /** Tokens without an operator are a single leaf: one name, or a one-part wrapper around one. */
  lemma {:induction false} NoOpIsLeaf(r: Requirement)
    requires Valid(r) && CustomFree(r) && !HasOp(Tokens(r))
    ensures |Tokens(r)| == 1 && Tokens(r)[0].Leaf?
  {
    match r
    case HasRole(values) => SinglesSize(true, values); OpBetween(Leaves(true, values), Any);
    case HasScope(values) => SinglesSize(false, values); OpBetween(Leaves(false, values), Any);
    case AnyOf(parts) => NoOpParts(parts, Any);
    case AllOf(parts) => NoOpParts(parts, All);
  }

  lemma {:induction false} NoOpParts(parts: seq<Requirement>, kind: Kind)
    requires parts != [] && Valid(parts[0]) && CustomFree(parts[0]) && !HasOp(Interleave(WrapTokensAll(parts), kind))
    ensures Interleave(WrapTokensAll(parts), kind) == Tokens(parts[0]) && |Tokens(parts[0])| == 1
        && Tokens(parts[0])[0].Leaf?
    decreases parts, 0
  {
    SizeOfAll(parts);
    OpBetween(WrapTokensAll(parts), kind);
    WrappedHasOp(Tokens(parts[0]));
    assert WrapTokensAll(parts)[0] == WrapTokens(parts[0]);
    NoOpIsLeaf(parts[0]);
  }

  /** The parsed rule decides what the requirement decides. */
  lemma {:induction false} RuleDecides(r: Requirement, c: Claims)
    requires Valid(r) && CustomFree(r)
    ensures Eval(RuleOf(r), c) == Check(r, c)
    decreases r, 1
  {
    match r
    case HasRole(values) => SinglesDecide(true, values, c);
    case HasScope(values) => SinglesDecide(false, values, c);
    case AnyOf(parts) => PartsDecide(parts, c);
    case AllOf(parts) => PartsDecide(parts, c);
  }

  lemma {:induction false} SinglesDecide(isRole: bool, values: seq<string>, c: Claims)
    requires values != []
    ensures |Singles(isRole, values)| == |values|
    ensures Eval(Fold(Singles(isRole, values), Any), c)
       <==> exists v :: v in values && v in (if isRole then c.roles else c.scopes)
  {
    SinglesSize(isRole, values);
    var held := if isRole then c.roles else c.scopes;
    assert forall v :: v in values <==> v == values[0] || v in values[1..];
    if |values| > 1 {
      SinglesDecide(isRole, values[1..], c);
      var rules := Singles(isRole, values);
      assert rules[1..] == Singles(isRole, values[1..]);
      assert Eval(Fold(rules, Any), c) == (values[0] in held || Eval(Fold(rules[1..], Any), c));
      assert (exists v :: v in values && v in held) <==> values[0] in held || exists v :: v in values[1..] && v in held;
    } else {
      assert Fold(Singles(isRole, values), Any) == Single(isRole, values[0]);
      assert values[1..] == [];
      assert (exists v :: v in values && v in held) <==> values[0] in held;
    }
  }

  lemma {:induction false} PartsDecide(parts: seq<Requirement>, c: Claims)
    requires parts != [] && forall i | 0 <= i < |parts| :: Valid(parts[i]) && CustomFree(parts[i])
    ensures Eval(Fold(RulesOf(parts), Any), c) == AnyPasses(parts, c)
    ensures Eval(Fold(RulesOf(parts), All), c) == AllPass(parts, c)
    decreases parts, 0
  {
    RuleDecides(parts[0], c);
    if |parts| > 1 {
      PartsDecide(parts[1..], c);
      assert RulesOf(parts)[1..] == RulesOf(parts[1..]);
    } else {
      assert parts[1..] == [];
    }
  }

  // -- The printed text is those tokens ------------------------------------------------------------

  predicate CleanName(name: string) { forall i | 0 <= i < |name| :: !Delimits(name[i]) }

  /** No name contains a space or a bracket. */
  predicate CleanNames(r: Requirement) {
    match r
    case HasRole(values) => forall i | 0 <= i < |values| :: CleanName(values[i])
    case HasScope(values) => forall i | 0 <= i < |values| :: CleanName(values[i])
    case Custom(_, _) => false
    case AnyOf(parts) => forall i | 0 <= i < |parts| :: CleanNames(parts[i])
    case AllOf(parts) => forall i | 0 <= i < |parts| :: CleanNames(parts[i])
  }

  function ShowToken(t: Token): string {
    match t
    case Open => "("
    case Close => ")"
    case Op(kind) => OpText(kind)
    case Leaf(isRole, name) => LeafText(isRole, name)
  }

  function Show(ts: seq<Token>): string { if ts == [] then "" else ShowToken(ts[0]) + Show(ts[1..]) }

  predicate Clean(ts: seq<Token>) { forall i | 0 <= i < |ts| && ts[i].Leaf? :: CleanName(ts[i].name) }

  /** No two leaves touch. */
  predicate Spaced(ts: seq<Token>) {
    forall i, j | 0 <= i < |ts| && 0 <= j < |ts| && j == i + 1 :: !(ts[i].Leaf? && ts[j].Leaf?)
  }

  predicate Printable(ts: seq<Token>) { Clean(ts) && Spaced(ts) }

  lemma {:induction false} ShowConcat(a: seq<Token>, b: seq<Token>)
    ensures Show(a + b) == Show(a) + Show(b)
  {
    if a == [] {
      assert a + b == b;
    } else {
      assert (a + b)[0] == a[0] && (a + b)[1..] == a[1..] + b;
      ShowConcat(a[1..], b);
    }
  }

  lemma ShowOne(t: Token)
    ensures Show([t]) == ShowToken(t)
  {
    assert [t][1..] == [] && Show([]) == "";
  }

  lemma ShowMiddle(a: seq<Token>, t: Token, b: seq<Token>)
    ensures Show(a + [t] + b) == Show(a) + ShowToken(t) + Show(b)
  {
    ShowConcat(a, [t]);
    ShowConcat(a + [t], b);
    ShowOne(t);
  }

  lemma ContainsMiddle(a: string, pattern: string, b: string)
    ensures Contains(a + pattern + b, pattern)
  {
    var text := a + pattern + b;
    assert text[|a|..] == pattern + b;
  }

  lemma ShowOp(t: Token)
    requires t.Op?
    ensures ShowToken(t) == OpText(t.kind)
  {
  }

  lemma OpShows(ts: seq<Token>, i: nat)
    requires i < |ts| && ts[i].Op?
    ensures Contains(Show(ts), OpText(ts[i].kind))
  {
    var before, after := ts[..i], ts[i + 1..];
    assert ts == before + [ts[i]] + after;
    ShowMiddle(before, ts[i], after);
    ShowOp(ts[i]);
    ContainsMiddle(Show(before), ShowToken(ts[i]), Show(after));
  }

  lemma Bracketed(ts: seq<Token>)
    ensures Show([Open] + ts + [Close]) == "(" + Show(ts) + ")"
    ensures Printable(ts) ==> Printable([Open] + ts + [Close])
  {
    ShowConcat([Open] + ts, [Close]);
    ShowConcat([Open], ts);
    ShowOne(Open);
    ShowOne(Close);
  }

  lemma LeafShowsNoOp(isRole: bool, name: string, kind: Kind)
    requires CleanName(name)
    ensures !Contains(LeafText(isRole, name), OpText(kind))
  {
    var text := LeafText(isRole, name);
    forall i | 0 <= i <= |text| ensures !(OpText(kind) <= text[i..]) {
      assert i < |text| ==> text[i] != ' ';
      assert OpText(kind)[0] == ' ';
    }
  }

  predicate ShowsAll(texts: seq<string>, items: seq<seq<Token>>) {
    && |texts| == |items|
    && (items == [] || (texts[0] == Show(items[0]) && Printable(items[0]) && ShowsAll(texts[1..], items[1..])))
  }

  lemma PrintableJoin(a: seq<Token>, kind: Kind, b: seq<Token>)
    requires Printable(a) && Printable(b)
    ensures Printable(a + [Op(kind)] + b)
  {
  }

  lemma {:induction false} JoinedShows(texts: seq<string>, items: seq<seq<Token>>, kind: Kind)
    requires ShowsAll(texts, items)
    ensures Joined(texts, OpText(kind)) == Show(Interleave(items, kind))
    ensures Printable(Interleave(items, kind))
  {
    if |items| > 1 {
      var tail := Interleave(items[1..], kind);
      JoinedShows(texts[1..], items[1..], kind);
      PrintableJoin(items[0], kind, tail);
      ShowMiddle(items[0], Op(kind), tail);
    }
  }

  lemma {:induction false} LeavesShow(isRole: bool, values: seq<string>)
    requires forall i | 0 <= i < |values| :: CleanName(values[i])
    ensures ShowsAll(LeafTexts(isRole, values), Leaves(isRole, values))
  {
    if values != [] {
      LeavesShow(isRole, values[1..]);
      ShowOne(Leaf(isRole, values[0]));
      assert LeafTexts(isRole, values)[1..] == LeafTexts(isRole, values[1..]);
      assert Leaves(isRole, values)[1..] == Leaves(isRole, values[1..]);
    }
  }

  lemma {:induction false} DescribeShows(r: Requirement)
    requires Valid(r) && CustomFree(r) && CleanNames(r)
    ensures Describe(r) == Show(Tokens(r)) && Printable(Tokens(r))
    decreases r, 1
  {
    match r
    case HasRole(values) =>
      LeavesShow(true, values);
      JoinedShows(LeafTexts(true, values), Leaves(true, values), Any);
    case HasScope(values) =>
      LeavesShow(false, values);
      JoinedShows(LeafTexts(false, values), Leaves(false, values), Any);
    case AnyOf(parts) =>
      PartsShow(parts);
      JoinedShows(WrapAll(parts), WrapTokensAll(parts), Any);
    case AllOf(parts) =>
      PartsShow(parts);
      JoinedShows(WrapAll(parts), WrapTokensAll(parts), All);
  }

  lemma {:induction false} PartsShow(parts: seq<Requirement>)
    requires forall i | 0 <= i < |parts| :: Valid(parts[i]) && CustomFree(parts[i]) && CleanNames(parts[i])
    ensures ShowsAll(WrapAll(parts), WrapTokensAll(parts))
    decreases parts, 0
  {
    if parts != [] {
      PartsShow(parts[1..]);
      WrapShows(parts[0]);
      assert WrapAll(parts)[1..] == WrapAll(parts[1..]);
      assert WrapTokensAll(parts)[1..] == WrapTokensAll(parts[1..]);
    }
  }

  /** `_wrap` looks at the text; on clean names that is the same as looking for an operator. */
  lemma {:induction false} WrapShows(r: Requirement)
    requires Valid(r) && CustomFree(r) && CleanNames(r)
    ensures Wrap(r) == Show(WrapTokens(r)) && Printable(WrapTokens(r))
    decreases r, 2
  {
    var ts := Tokens(r);
    DescribeShows(r);
    if HasOp(ts) {
      var i :| 0 <= i < |ts| && ts[i].Op?;
      OpShows(ts, i);
      Bracketed(ts);
    } else {
      NoOpIsLeaf(r);
      assert ts == [ts[0]];
      ShowOne(ts[0]);
      LeafShowsNoOp(ts[0].isRole, ts[0].name, Any);
      LeafShowsNoOp(ts[0].isRole, ts[0].name, All);
    }
  }

  // -- Lexing the text gives the tokens back -----------------------------------------------------

  lemma {:induction false} WordEnds(word: string, tail: string)
    requires CleanName(word) && (tail == "" || Delimits(tail[0]))
    ensures WordLength(word + tail) == |word|
  {
    if word == "" {
      assert word + tail == tail;
    } else {
      assert (word + tail)[1..] == word[1..] + tail;
      WordEnds(word[1..], tail);
    }
  }

  lemma ClassifyLeaf(isRole: bool, name: string)
    ensures Classify(LeafText(isRole, name)) == Some(Leaf(isRole, name))
  {
    var word := LeafText(isRole, name);
    if isRole {
      assert word[5..] == name;
    } else {
      assert word[0] == 's' && word[6..] == name;
    }
  }

  lemma LexWord(word: string, tail: string)
    requires word != "" && CleanName(word) && (tail == "" || Delimits(tail[0])) && Classify(word).Some?
    ensures Lex(word + tail) == Prepend(Classify(word).value, Lex(tail))
  {
    var s := word + tail;
    WordEnds(word, tail);
    assert s[0] == word[0];
    assert s[..|word|] == word && s[|word|..] == tail;
    assert OpText(Any)[0] == ' ' && OpText(All)[0] == ' ';
  }

  lemma LexLeaf(isRole: bool, name: string, tail: string)
    requires CleanName(name) && (tail == "" || Delimits(tail[0]))
    ensures Lex(LeafText(isRole, name) + tail) == Prepend(Leaf(isRole, name), Lex(tail))
  {
    ClassifyLeaf(isRole, name);
    LexWord(LeafText(isRole, name), tail);
  }

  lemma LexOther(t: Token, tail: string)
    requires !t.Leaf?
    ensures Lex(ShowToken(t) + tail) == Prepend(t, Lex(tail))
    ensures Delimits((ShowToken(t) + tail)[0])
  {
    var s := ShowToken(t) + tail;
    assert s[|ShowToken(t)|..] == tail;
    if t == Op(All) {
      assert s[1] == 'A' && OpText(Any)[1] == 'O';
    }
  }

  lemma {:induction false} LexShow(ts: seq<Token>)
    requires Printable(ts)
    ensures Lex(Show(ts)) == Some(ts)
    ensures ts != [] && !ts[0].Leaf? ==> Show(ts) != "" && Delimits(Show(ts)[0])
  {
    if ts != [] {
      LexShow(ts[1..]);
      var tail := Show(ts[1..]);
      if ts[0].Leaf? {
        assert |ts| > 1 ==> !ts[1].Leaf?;
        LexLeaf(ts[0].isRole, ts[0].name, tail);
      } else {
        LexOther(ts[0], tail);
      }
      assert [ts[0]] + ts[1..] == ts;
    }
  }

  /** Printing preserves meaning. For every requirement without Custom and with clean names, reading its
      description back, with OR tighter or with AND tighter, gives one and the same rule, and that rule
      decides exactly what `check` decides. */
  lemma PrintingPreservesMeaning(r: Requirement, c: Claims)
    requires Valid(r) && CustomFree(r) && CleanNames(r)
    ensures ReadBack(Describe(r), Any) == ReadBack(Describe(r), All)
    ensures ReadBack(Describe(r), Any).Some?
    ensures Eval(ReadBack(Describe(r), Any).value, c) == Check(r, c)
  {
    DescribeShows(r);
    LexShow(Tokens(r));
    assert Tokens(r) + [] == Tokens(r);
    TokensParse(r, Any, []);
    TokensParse(r, All, []);
    RuleDecides(r, c);
  }

  lemma DescribeOne(a: string)
    ensures Describe(HasRole([a])) == "role:" + a
  {
    assert [a][1..] == [];
    assert LeafTexts(true, [a]) == [LeafText(true, a)];
  }

  lemma DescribeTwo(a: string, b: string)
    ensures Describe(HasRole([a, b])) == "role:" + a + " OR " + ("role:" + b)
  {
    assert [a, b][1..] == [b] && [b][1..] == [];
    assert LeafTexts(true, [b]) == [LeafText(true, b)];
    var texts := [LeafText(true, a), LeafText(true, b)];
    assert LeafTexts(true, [a, b]) == texts;
    assert texts[1..] == [LeafText(true, b)];
    assert Joined(texts[1..], " OR ") == LeafText(true, b);
  }

  /** With spaces in names it can fail: for all names a and b, the single role `a OR role:b` prints exactly
      like the two roles a and b, which let a caller with role b in while the single one does not. */
  lemma SpacesMislead(a: string, b: string)
    ensures var one, two := HasRole([a + (" OR " + ("role:" + b))]), HasRole([a, b]);
            var c := Claims({b}, {});
            Describe(one) == Describe(two) && !Check(one, c) && Check(two, c)
  {
    var name := a + (" OR " + ("role:" + b));
    DescribeOne(name);
    DescribeTwo(a, b);
    assert "role:" + name == "role:" + a + " OR " + ("role:" + b);
    assert |name| > |b|;
    assert [a, b][1] == b;
  }

  // -- How far clean names are needed -----------------------------------------------------------------------

  /** The text reads back as a rule that decides what the requirement decides. */
  ghost predicate Faithful(r: Requirement, tight: Kind) {
    var rule := ReadBack(Describe(r), tight);
    rule.Some? && forall c :: Eval(rule.value, c) == Check(r, c)
  }

  predicate CleanRule(rule: Rule) {
    match rule
    case Single(_, name) => CleanName(name)
    case Node(_, left, right) => CleanRule(left) && CleanRule(right)
  }

  /** The claims without the names that contain a space or a bracket. */
  function CleanPart(c: Claims): Claims {
    Claims(set name | name in c.roles && CleanName(name), set name | name in c.scopes && CleanName(name))
  }

  lemma {:induction false} WordIsClean(s: string)
    ensures WordLength(s) <= |s| && CleanName(s[..WordLength(s)])
  {
    if s != "" && !Delimits(s[0]) {
      WordIsClean(s[1..]);
      assert s[..WordLength(s)] == [s[0]] + s[1..][..WordLength(s[1..])];
    }
  }

  lemma PrependClean(t: Token, ts: Option<seq<Token>>)
    requires t.Leaf? ==> CleanName(t.name)
    requires ts.Some? ==> Clean(ts.value)
    ensures Prepend(t, ts).Some? ==> Clean(Prepend(t, ts).value)
  {
  }

  lemma {:induction false} LexClean(s: string)
    ensures Lex(s).Some? ==> Clean(Lex(s).value)
    decreases |s|
  {
    if s != "" {
      if s[0] == '(' || s[0] == ')' {
        LexClean(s[1..]);
        PrependClean(if s[0] == '(' then Open else Close, Lex(s[1..]));
      } else if OpText(Any) <= s {
        LexClean(s[4..]);
        PrependClean(Op(Any), Lex(s[4..]));
      } else if OpText(All) <= s {
        LexClean(s[5..]);
        PrependClean(Op(All), Lex(s[5..]));
      } else if s[0] != ' ' {
        var word := s[..WordCut(s)];
        WordIsClean(s);
        LexClean(s[WordCut(s)..]);
        if Classify(word).Some? { PrependClean(Classify(word).value, Lex(s[WordCut(s)..])); }
      }
    }
  }

  lemma {:induction false} ParseClean(level: nat, tight: Kind, ts: seq<Token>)
    requires level <= 2 && Clean(ts) && Parse(level, tight, ts).Some?
    ensures CleanRule(Parse(level, tight, ts).value.0) && Clean(Parse(level, tight, ts).value.1)
    decreases |ts|, 2 - level
  {
    if level == 2 {
      if ts[0].Open? {
        ParseClean(0, tight, ts[1..]);
      }
    } else {
      ParseClean(level + 1, tight, ts);
      var first := Parse(level + 1, tight, ts);
      if first.value.1 != [] && first.value.1[0] == Op(LevelKind(level, tight))
         && Parse(level, tight, first.value.1[1..]).Some?
      {
        ParseClean(level, tight, first.value.1[1..]);
      }
    }
  }

  lemma {:induction false} CleanRuleDecides(rule: Rule, c: Claims)
    requires CleanRule(rule)
    ensures Eval(rule, c) == Eval(rule, CleanPart(c))
  {
    if rule.Node? {
      CleanRuleDecides(rule.left, c);
      CleanRuleDecides(rule.right, c);
    }
  }

  /** Whatever the text of a requirement, what is read from it decides by clean names only; so a requirement
      whose decision depends on a name with a space or a bracket never prints faithfully. */
  lemma OnlyCleanNamesPrint(r: Requirement, tight: Kind, c: Claims)
    requires Faithful(r, tight)
    ensures Check(r, c) == Check(r, CleanPart(c))
  {
    var rule := ReadBack(Describe(r), tight).value;
    LexClean(Describe(r));
    ParseClean(0, tight, Lex(Describe(r)).value);
    CleanRuleDecides(rule, c);
  }

  /** For a single name the condition is exact: it prints faithfully if and only if it is clean. */
  lemma SingleNameIsExact(isRole: bool, name: string, tight: Kind)
    ensures Faithful(if isRole then HasRole([name]) else HasScope([name]), tight) <==> CleanName(name)
  {
    var r := if isRole then HasRole([name]) else HasScope([name]);
    var c := if isRole then Claims({name}, {}) else Claims({}, {name});
    assert name in [name];
    assert Check(r, c);
    if CleanName(name) {
      forall d
        ensures ReadBack(Describe(r), tight).Some?
        ensures Eval(ReadBack(Describe(r), tight).value, d) == Check(r, d)
      {
        PrintingPreservesMeaning(r, d);
      }
    } else if Faithful(r, tight) {
      OnlyCleanNamesPrint(r, tight, c);
    }
  }
}
