/** The in-memory repository: a dict of entities in insertion order, listed in the order of any number of
    attributes by one stable sort per attribute. Attribute values are ints. */
module Fakes {

  import opened Wrappers

  datatype Entity = Entity(attributes: map<string, int>)

  datatype Failure = TypeError | AttributeError

  /** An element of an ordering list; whatever is no `str` is Other. */
  datatype Field = Text(name: string) | Other

  datatype Ordering = One(name: string) | Several(fields: seq<Field>) | Expression

  datatype Key = Key(name: string, descending: bool)

  // -- Sorting by one attribute ----------------------------------------------------------------------

  function KeyOf(name: string): Key {
    if name != "" && name[0] == '-' then Key(name[1..], true) else Key(name, false)
  }

  function Value(e: Entity, name: string): int { if name in e.attributes then e.attributes[name] else 0 }

  predicate Ahead(a: Entity, b: Entity, key: Key) {
    if key.descending then Value(a, key.name) > Value(b, key.name) else Value(a, key.name) < Value(b, key.name)
  }

  /** Puts `x` before the first element that is not strictly ahead of it. */
  function Insert(x: Entity, s: seq<Entity>, key: Key): seq<Entity> {
    if s != [] && Ahead(s[0], x, key) then [s[0]] + Insert(x, s[1..], key) else [x] + s
  }

  /** `sorted(items, key=attrgetter(name), reverse=descending)`, which is stable in both directions. */
  function StableSort(items: seq<Entity>, key: Key): seq<Entity> {
    if items == [] then [] else Insert(items[0], StableSort(items[1..], key), key)
  }

  predicate AllHave(items: seq<Entity>, name: string) { forall i | 0 <= i < |items| :: name in items[i].attributes }

  function Pass(items: seq<Entity>, field: Field): Result<seq<Entity>, Failure> {
    match field
    case Other => Err(TypeError)
    case Text(name) =>
      if AllHave(items, KeyOf(name).name) then Ok(StableSort(items, KeyOf(name))) else Err(AttributeError)
  }

  /** The passes, the last field's first. */
  function Passes(items: seq<Entity>, fields: seq<Field>): Result<seq<Entity>, Failure> {
    if fields == [] then Ok(items)
    else match Passes(items, fields[1..])
      case Err(e) => Err(e)
      case Ok(sorted) => Pass(sorted, fields[0])
  }

  function FieldsOf(ordering: Ordering): Result<seq<Field>, Failure> {
    match ordering
    case One(name) => Ok([Text(name)])
    case Several(fields) => Ok(fields)
    case Expression => Err(TypeError)
  }

  function SortedBy(items: seq<Entity>, ordering: Ordering): Result<seq<Entity>, Failure> {
    match FieldsOf(ordering)
    case Err(e) => Err(e)
    case Ok(fields) => Passes(items, fields)
  }

  /** `_sorted_by`. */
  method SortByFields(items: seq<Entity>, ordering: Ordering) returns (result: Result<seq<Entity>, Failure>)
    ensures result == SortedBy(items, ordering)
  {
    var fields: seq<Field>;
    match ordering {
      case One(name) => fields := [Text(name)];
      case Several(list) => fields := list;
      case Expression => return Err(TypeError);
    }
    var sorted := items;
    var i := |fields|;
    while i > 0
      invariant 0 <= i <= |fields|
      invariant Passes(items, fields[i..]) == Ok(sorted)
      invariant forall e :: Passes(items, fields[i..]) == Err(e) ==> Passes(items, fields) == Err(e)
      invariant FieldsOf(ordering) == Ok(fields)
    {
      i := i - 1;
      assert fields[i..][1..] == fields[i + 1..];
      var pass := Pass(sorted, fields[i]);
      if pass.Err? {
        ErrorStays(items, fields, i, pass.error);
        return pass;
      }
      sorted := pass.value;
    }
    assert fields[0..] == fields;
    result := Ok(sorted);
  }

  lemma {:induction false} ErrorStays(items: seq<Entity>, fields: seq<Field>, i: nat, e: Failure)
    requires i <= |fields| && Passes(items, fields[i..]) == Err(e)
    ensures Passes(items, fields) == Err(e)
    decreases i
  {
    if i == 0 {
      assert fields[0..] == fields;
    } else {
      assert fields[i - 1..][1..] == fields[i..];
      ErrorStays(items, fields, i - 1, e);
    }
  }

  // -- The order asked for ---------------------------------------------------------------------------

  predicate LexAhead(a: Entity, b: Entity, keys: seq<Key>) {
    keys != [] && (Ahead(a, b, keys[0]) || (!Ahead(b, a, keys[0]) && LexAhead(a, b, keys[1..])))
  }

  /** Equal in every listed attribute. */
  predicate Tied(a: Entity, b: Entity, keys: seq<Key>) {
    forall i | 0 <= i < |keys| :: Value(a, keys[i].name) == Value(b, keys[i].name)
  }

  predicate NoneAhead(s: seq<Entity>, x: Entity, keys: seq<Key>) {
    forall i | 0 <= i < |s| :: !LexAhead(s[i], x, keys)
  }

  predicate InOrder(s: seq<Entity>, keys: seq<Key>) {
    s == [] || (NoneAhead(s[1..], s[0], keys) && InOrder(s[1..], keys))
  }

  /** The elements tied with `x`, in the order they come. */
  function TiedWith(s: seq<Entity>, x: Entity, keys: seq<Key>): seq<Entity> {
    if s == [] then []
    else if Tied(s[0], x, keys) then [s[0]] + TiedWith(s[1..], x, keys)
    else TiedWith(s[1..], x, keys)
  }

  ghost predicate SameTies(a: seq<Entity>, b: seq<Entity>, keys: seq<Key>) {
    forall x :: TiedWith(a, x, keys) == TiedWith(b, x, keys)
  }

  /** What is asked for: a permutation, ordered lexicographically by all keys, ties in original order. */
  ghost predicate Sorts(items: seq<Entity>, result: seq<Entity>, keys: seq<Key>) {
    multiset(result) == multiset(items) && InOrder(result, keys) && SameTies(result, items, keys)
  }

  function Keys(fields: seq<Field>): seq<Key>
    requires forall i | 0 <= i < |fields| :: fields[i].Text?
  {
    seq(|fields|, i requires 0 <= i < |fields| => KeyOf(fields[i].name))
  }

  /** Which way a name asks for: one pass for "name" puts no larger value before a smaller one, one for "-name"
      no smaller before a larger. */
  lemma DirectionIs(items: seq<Entity>, name: string, i: nat, j: nat)
    requires name == "" || name[0] != '-'
    requires AllHave(items, name) && i < j < |items|
    ensures Passes(items, [Text(name)]).Ok? && Passes(items, [Text("-" + name)]).Ok?
    ensures var up, down := Passes(items, [Text(name)]).value, Passes(items, [Text("-" + name)]).value;
            && |up| == |down| == |items|
            && Value(up[i], name) <= Value(up[j], name) && Value(down[i], name) >= Value(down[j], name)
  {
    assert ("-" + name)[1..] == name;
    OnePass(items, name);
    OnePass(items, "-" + name);
    PassOrders(items, Key(name, false), i, j);
    PassOrders(items, Key(name, true), i, j);
  }

  lemma OnePass(items: seq<Entity>, name: string)
    requires AllHave(items, KeyOf(name).name)
    ensures Passes(items, [Text(name)]) == Ok(StableSort(items, KeyOf(name)))
  {
    assert Passes(items, [Text(name)][1..]) == Ok(items);
  }

  lemma PassOrders(items: seq<Entity>, key: Key, i: nat, j: nat)
    requires i < j < |items|
    ensures |StableSort(items, key)| == |items| && !Ahead(StableSort(items, key)[j], StableSort(items, key)[i], key)
  {
    var sorted := StableSort(items, key);
    NoKeys(items);
    PassInOrder(items, key, []);
    StableSortKeeps(items, key);
    assert |sorted| == |multiset(sorted)| == |multiset(items)| == |items|;
    InOrderAt(sorted, [key] + [], i, j);
  }

  lemma {:induction false} InOrderAt(s: seq<Entity>, keys: seq<Key>, i: nat, j: nat)
    requires InOrder(s, keys) && i < j < |s|
    ensures !LexAhead(s[j], s[i], keys)
  {
    if i == 0 {
      assert s[1..][j - 1] == s[j];
    } else {
      InOrderAt(s[1..], keys, i - 1, j - 1);
    }
  }

  // -- One pass ----------------------------------------------------------------------------------------

  lemma {:induction false} InsertKeeps(x: Entity, s: seq<Entity>, key: Key)
    ensures multiset(Insert(x, s, key)) == multiset(s) + multiset{x}
  {
    if s != [] && Ahead(s[0], x, key) {
      InsertKeeps(x, s[1..], key);
      assert s == [s[0]] + s[1..];
    }
  }

  lemma {:induction false} StableSortKeeps(items: seq<Entity>, key: Key)
    ensures multiset(StableSort(items, key)) == multiset(items)
  {
    if items != [] {
      StableSortKeeps(items[1..], key);
      InsertKeeps(items[0], StableSort(items[1..], key), key);
      assert items == [items[0]] + items[1..];
    }
  }

  lemma NoneAheadIn(s: seq<Entity>, x: Entity, keys: seq<Key>)
    ensures NoneAhead(s, x, keys) <==> forall y | y in multiset(s) :: !LexAhead(y, x, keys)
  {
    assert forall i | 0 <= i < |s| :: s[i] in multiset(s);
  }

  lemma {:induction false} LexTransitive(a: Entity, b: Entity, c: Entity, keys: seq<Key>)
    requires !LexAhead(b, a, keys) && !LexAhead(c, b, keys)
    ensures !LexAhead(c, a, keys)
  {
    if keys != [] && !Ahead(a, b, keys[0]) && !Ahead(b, c, keys[0]) {
      LexTransitive(a, b, c, keys[1..]);
    }
  }

  /** Inserting an element that no later key puts behind the others. */
  lemma {:induction false} InsertInOrder(x: Entity, s: seq<Entity>, key: Key, rest: seq<Key>)
    requires InOrder(s, [key] + rest) && NoneAhead(s, x, rest)
    ensures InOrder(Insert(x, s, key), [key] + rest)
  {
    var keys := [key] + rest;
    assert keys[1..] == rest;
    if s != [] && Ahead(s[0], x, key) {
      var more := Insert(x, s[1..], key);
      InsertInOrder(x, s[1..], key, rest);
      InsertKeeps(x, s[1..], key);
      NoneAheadIn(s[1..], s[0], keys);
      NoneAheadIn(more, s[0], keys);
      assert ([s[0]] + more)[1..] == more;
    } else {
      assert ([x] + s)[1..] == s;
      if s != [] {
        assert !LexAhead(s[0], x, keys);
        forall i | 0 <= i < |s| ensures !LexAhead(s[i], x, keys) {
          if i > 0 {
            assert s[1..][i - 1] == s[i];
            LexTransitive(x, s[0], s[i], keys);
          }
        }
      }
    }
  }

  /** A stable pass over a list ordered by the later keys orders it by the pass's key and then those. */
  lemma {:induction false} PassInOrder(items: seq<Entity>, key: Key, rest: seq<Key>)
    requires InOrder(items, rest)
    ensures InOrder(StableSort(items, key), [key] + rest)
  {
    if items != [] {
      var s := StableSort(items[1..], key);
      PassInOrder(items[1..], key, rest);
      StableSortKeeps(items[1..], key);
      NoneAheadIn(items[1..], items[0], rest);
      NoneAheadIn(s, items[0], rest);
      InsertInOrder(items[0], s, key, rest);
    }
  }

  lemma {:induction false} InsertTies(x: Entity, s: seq<Entity>, key: Key, e: Entity, keys: seq<Key>)
    requires key in keys
    ensures TiedWith(Insert(x, s, key), e, keys) == TiedWith([x] + s, e, keys)
  {
    assert ([x] + s)[1..] == s;
    if s != [] && Ahead(s[0], x, key) {
      InsertTies(x, s[1..], key, e, keys);
      assert ([x] + s[1..])[1..] == s[1..];
      assert ([s[0]] + Insert(x, s[1..], key))[1..] == Insert(x, s[1..], key);
      assert !(Tied(s[0], e, keys) && Tied(x, e, keys));
    }
  }

  lemma {:induction false} PassKeepsTies(items: seq<Entity>, key: Key, e: Entity, keys: seq<Key>)
    requires key in keys
    ensures TiedWith(StableSort(items, key), e, keys) == TiedWith(items, e, keys)
  {
    if items != [] {
      var s := StableSort(items[1..], key);
      PassKeepsTies(items[1..], key, e, keys);
      InsertTies(items[0], s, key, e, keys);
      assert ([items[0]] + s)[1..] == s;
    }
  }

  // -- All passes ----------------------------------------------------------------------------------------

  lemma {:induction false} PassesSort(items: seq<Entity>, fields: seq<Field>, total: seq<Key>)
    requires Passes(items, fields).Ok?
    requires forall i | 0 <= i < |fields| :: fields[i].Text? && KeyOf(fields[i].name) in total
    ensures var result := Passes(items, fields).value;
            multiset(result) == multiset(items) && InOrder(result, Keys(fields)) && SameTies(result, items, total)
    decreases |fields|
  {
    if fields == [] {
      NoKeys(items);
    } else {
      var later := fields[1..];
      var sorted := Passes(items, later).value;
      assert fields[0].Text? && KeyOf(fields[0].name) in total;
      assert forall i | 0 <= i < |later| :: later[i] == fields[i + 1];
      PassesSort(items, later, total);
      PassSorts(items, sorted, KeyOf(fields[0].name), Keys(later), total);
      KeysFirst(fields);
    }
  }

  lemma KeysFirst(fields: seq<Field>)
    requires fields != [] && forall i | 0 <= i < |fields| :: fields[i].Text?
    ensures Keys(fields) == [KeyOf(fields[0].name)] + Keys(fields[1..])
  {
  }

  lemma PassSorts(items: seq<Entity>, sorted: seq<Entity>, key: Key, rest: seq<Key>, total: seq<Key>)
    requires multiset(sorted) == multiset(items) && InOrder(sorted, rest)
    requires SameTies(sorted, items, total) && key in total
    ensures var result := StableSort(sorted, key);
            multiset(result) == multiset(items) && InOrder(result, [key] + rest) && SameTies(result, items, total)
  {
    StableSortKeeps(sorted, key);
    PassInOrder(sorted, key, rest);
    forall x ensures TiedWith(StableSort(sorted, key), x, total) == TiedWith(items, x, total) {
      PassKeepsTies(sorted, key, x, total);
    }
  }

  lemma {:induction false} NoKeys(s: seq<Entity>)
    ensures InOrder(s, [])
  {
    if s != [] { NoKeys(s[1..]); }
  }

  lemma {:induction false} PassesNeedText(items: seq<Entity>, fields: seq<Field>)
    requires Passes(items, fields).Ok?
    ensures forall i | 0 <= i < |fields| :: fields[i].Text?
    decreases |fields|
  {
    if fields != [] {
      PassesNeedText(items, fields[1..]);
      assert forall i | 1 <= i < |fields| :: fields[i] == fields[1..][i - 1];
    }
  }

  /** Stable passes from the least to the most significant field, each in its own direction, do what is
      asked for, for any number of fields; and there is only one list that does. */
  lemma PassesAreMultiKeySort(items: seq<Entity>, fields: seq<Field>)
    requires Passes(items, fields).Ok?
    ensures forall i | 0 <= i < |fields| :: fields[i].Text?
    ensures forall result :: Sorts(items, result, Keys(fields)) <==> result == Passes(items, fields).value
  {
    PassesNeedText(items, fields);
    var keys := Keys(fields);
    assert forall i | 0 <= i < |fields| :: keys[i] == KeyOf(fields[i].name) && keys[i] in keys;
    PassesSort(items, fields, keys);
    var sorted := Passes(items, fields).value;
    forall result | Sorts(items, result, keys) ensures result == sorted {
      OrderIsDetermined(result, sorted, keys);
    }
  }

  lemma {:induction false} TiedIsNotAhead(a: Entity, b: Entity, keys: seq<Key>)
    ensures !LexAhead(a, b, keys) && !LexAhead(b, a, keys) <==> Tied(a, b, keys)
  {
    if keys != [] {
      TiedIsNotAhead(a, b, keys[1..]);
      assert Tied(a, b, keys) <==> Value(a, keys[0].name) == Value(b, keys[0].name) && Tied(a, b, keys[1..]) by {
        assert forall i | 1 <= i < |keys| :: keys[i] == keys[1..][i - 1];
        if Value(a, keys[0].name) == Value(b, keys[0].name) && Tied(a, b, keys[1..]) {
          forall i | 0 <= i < |keys| ensures Value(a, keys[i].name) == Value(b, keys[i].name) {
            if i > 0 { assert keys[i] == keys[1..][i - 1]; }
          }
        }
        if Tied(a, b, keys) {
          forall i | 0 <= i < |keys[1..]| ensures Value(a, keys[1..][i].name) == Value(b, keys[1..][i].name) {
            assert keys[1..][i] == keys[i + 1];
          }
        }
      }
    }
  }

  lemma HeadIsLeast(s: seq<Entity>, keys: seq<Key>, y: Entity)
    requires InOrder(s, keys) && y in multiset(s)
    ensures !LexAhead(y, s[0], keys)
  {
    TiedIsNotAhead(s[0], s[0], keys);
    var i :| 0 <= i < |s| && s[i] == y;
    if i > 0 { assert s[1..][i - 1] == y; }
  }

  lemma SameHead(a: seq<Entity>, b: seq<Entity>, keys: seq<Key>)
    requires multiset(a) == multiset(b) && InOrder(a, keys) && InOrder(b, keys) && SameTies(a, b, keys) && a != []
    ensures b != [] && a[0] == b[0]
  {
    assert a[0] in multiset(a) && a[0] in multiset(b);
    assert b[0] in multiset(b) && b[0] in multiset(a);
    HeadIsLeast(a, keys, b[0]);
    HeadIsLeast(b, keys, a[0]);
    TiedIsNotAhead(b[0], a[0], keys);
    TiedIsNotAhead(a[0], a[0], keys);
    assert TiedWith(a, a[0], keys) == TiedWith(b, a[0], keys);
    assert TiedWith(a, a[0], keys)[0] == a[0] && TiedWith(b, a[0], keys)[0] == b[0];
  }

  lemma TailsTied(a: seq<Entity>, b: seq<Entity>, keys: seq<Key>)
    requires a != [] && b != [] && a[0] == b[0] && SameTies(a, b, keys)
    ensures SameTies(a[1..], b[1..], keys)
  {
    forall x ensures TiedWith(a[1..], x, keys) == TiedWith(b[1..], x, keys) {
      var head := if Tied(a[0], x, keys) then [a[0]] else [];
      assert TiedWith(a, x, keys) == head + TiedWith(a[1..], x, keys);
      assert TiedWith(b, x, keys) == head + TiedWith(b[1..], x, keys);
      assert TiedWith(a[1..], x, keys) == TiedWith(a, x, keys)[|head|..];
      assert TiedWith(b[1..], x, keys) == TiedWith(b, x, keys)[|head|..];
    }
  }

  lemma TailsSame(a: seq<Entity>, b: seq<Entity>)
    requires a != [] && b != [] && a[0] == b[0] && multiset(a) == multiset(b)
    ensures multiset(a[1..]) == multiset(b[1..])
  {
    assert a == [a[0]] + a[1..] && b == [b[0]] + b[1..];
    assert multiset(a[1..]) == multiset(a) - multiset{a[0]};
    assert multiset(b[1..]) == multiset(b) - multiset{a[0]};
  }

  lemma {:induction false} OrderIsDetermined(a: seq<Entity>, b: seq<Entity>, keys: seq<Key>)
    requires multiset(a) == multiset(b) && InOrder(a, keys) && InOrder(b, keys) && SameTies(a, b, keys)
    ensures a == b
    decreases |a|
  {
    assert |a| == |multiset(a)| == |multiset(b)| == |b|;
    if a != [] {
      SameHead(a, b, keys);
      TailsTied(a, b, keys);
      TailsSame(a, b);
      OrderIsDetermined(a[1..], b[1..], keys);
      assert a == [a[0]] + a[1..] && b == [b[0]] + b[1..];
    }
  }

  /** Sorting fails exactly on an element of the list that is no text, or an attribute some entity lacks. */
  lemma {:induction false} FailsExactly(items: seq<Entity>, fields: seq<Field>)
    ensures Passes(items, fields).Ok? <==>
              forall i | 0 <= i < |fields| :: fields[i].Text? && AllHave(items, KeyOf(fields[i].name).name)
    decreases |fields|
  {
    if fields != [] {
      FailsExactly(items, fields[1..]);
      assert forall i | 0 <= i < |fields[1..]| :: fields[1..][i] == fields[i + 1];
      if Passes(items, fields[1..]).Ok? {
        var sorted := Passes(items, fields[1..]).value;
        PassesKeep(items, fields[1..]);
        if fields[0].Text? { SameHave(items, sorted, KeyOf(fields[0].name).name); }
        forall i | 1 <= i < |fields| ensures fields[i].Text? && AllHave(items, KeyOf(fields[i].name).name) {
          assert fields[i] == fields[1..][i - 1];
        }
      }
    }
  }

  lemma {:induction false} PassesKeep(items: seq<Entity>, fields: seq<Field>)
    requires Passes(items, fields).Ok?
    ensures multiset(Passes(items, fields).value) == multiset(items)
    decreases |fields|
  {
    if fields != [] {
      PassesKeep(items, fields[1..]);
      StableSortKeeps(Passes(items, fields[1..]).value, KeyOf(fields[0].name));
    }
  }

  lemma SameHave(a: seq<Entity>, b: seq<Entity>, name: string)
    requires multiset(a) == multiset(b)
    ensures AllHave(a, name) == AllHave(b, name)
  {
    assert forall i | 0 <= i < |a| :: a[i] in multiset(a);
    assert forall i | 0 <= i < |b| :: b[i] in multiset(b);
    if AllHave(a, name) {
      forall i | 0 <= i < |b| ensures name in b[i].attributes { assert b[i] in multiset(a); }
    }
    if AllHave(b, name) {
      forall i | 0 <= i < |a| ensures name in a[i].attributes { assert a[i] in multiset(b); }
    }
  }

  // -- The repository --------------------------------------------------------------------------------

  /** `s[start:stop]`: negative indexes count from the end, and both are cut to the list. */
  function Slice<T>(s: seq<T>, start: int, stop: int): seq<T> {
    var lo, hi := Cut(start, |s|), Cut(stop, |s|);
    if lo < hi then s[lo..hi] else []
  }

  function Cut(i: int, n: nat): (k: nat)
    ensures k <= n
  {
    var from := if i < 0 then i + n else i;
    if from < 0 then 0 else if from > n then n else from
  }

  /** A dict: its keys in insertion order, and what they map to. */
  datatype Dict = Dict(order: seq<int>, entries: map<int, Entity>)

  ghost predicate IsDict(d: Dict) {
    && Distinct(d.order)
    && (forall i | 0 <= i < |d.order| :: d.order[i] in d.entries)
    && (forall id | id in d.entries :: id in d.order)
  }

  function Put(d: Dict, id: int, e: Entity): Dict {
    Dict(if id in d.entries then d.order else d.order + [id], d.entries[id := e])
  }

  function Without(order: seq<int>, id: int): seq<int> {
    if order == [] then []
    else if order[0] == id then Without(order[1..], id)
    else [order[0]] + Without(order[1..], id)
  }

  function Pop(d: Dict, id: int): Dict { Dict(Without(d.order, id), map k | k in d.entries && k != id :: d.entries[k]) }

  function Find(d: Dict, id: int): Option<Entity> { if id in d.entries then Some(d.entries[id]) else None }

  function Values(d: Dict): seq<Entity>
    requires IsDict(d)
  {
    seq(|d.order|, i requires 0 <= i < |d.order| => d.entries[d.order[i]])
  }

  /** `get_list` on what the dict holds; `given` is the argument, `default` the repository's own order. */
  function Listing(items: seq<Entity>, given: Option<Ordering>, default: Option<Ordering>, limit: int, offset: int)
    : Result<seq<Entity>, Failure>
  {
    match Arranged(items, if given.Some? then given else default)
    case Err(e) => Err(e)
    case Ok(sorted) => Ok(Slice(sorted, offset, offset + limit))
  }

  function Arranged(items: seq<Entity>, ordering: Option<Ordering>): Result<seq<Entity>, Failure> {
    match ordering
    case None => Ok(items)
    case Some(asked) => SortedBy(items, asked)
  }

  predicate Distinct(order: seq<int>) { forall i, j | 0 <= i < j < |order| :: order[i] != order[j] }

  lemma DistinctHead(order: seq<int>)
    requires order != []
    ensures Distinct(order) <==> Distinct(order[1..]) && order[0] !in order[1..]
    ensures forall k :: k in order <==> k == order[0] || k in order[1..]
  {
    var rest := order[1..];
    assert order == [order[0]] + rest;
    if Distinct(rest) && order[0] !in rest {
      forall i, j | 0 <= i < j < |order| ensures order[i] != order[j] {
        assert order[j] == rest[j - 1] && order[j] in rest;
        assert i > 0 ==> order[i] == rest[i - 1];
      }
    }
    if Distinct(order) {
      assert forall i | 0 <= i < |rest| :: rest[i] == order[i + 1];
    }
  }

  lemma {:induction false} WithoutIs(order: seq<int>, id: int)
    requires Distinct(order)
    ensures Distinct(Without(order, id))
    ensures forall k :: k in Without(order, id) <==> k in order && k != id
  {
    if order != [] {
      DistinctHead(order);
      WithoutIs(order[1..], id);
      var left := Without(order, id);
      if order[0] != id {
        assert left[1..] == Without(order[1..], id);
        DistinctHead(left);
      }
    }
  }

  datatype Operation = Write(id: int, e: Entity) | Remove(id: int)

  function AfterAll(ops: seq<Operation>): Dict {
    if ops == [] then Dict([], map[])
    else match ops[|ops| - 1]
      case Write(id, e) => Put(AfterAll(ops[..|ops| - 1]), id, e)
      case Remove(id) => Pop(AfterAll(ops[..|ops| - 1]), id)
  }

  /** The last entity written under an id, unless the id was removed since. */
  function LastWrite(ops: seq<Operation>, id: int): Option<Entity> {
    if ops == [] then None
    else if ops[|ops| - 1].id != id then LastWrite(ops[..|ops| - 1], id)
    else match ops[|ops| - 1]
      case Write(_, e) => Some(e)
      case Remove(_) => None
  }

  lemma PutIsDict(d: Dict, id: int, e: Entity)
    requires IsDict(d)
    ensures IsDict(Put(d, id, e))
  {
    var d1 := Put(d, id, e);
    assert id !in d.entries ==> d1.order[|d.order|] == id;
    forall k | k in d1.entries ensures k in d1.order {
      if k in d.entries {
        var p :| 0 <= p < |d.order| && d.order[p] == k;
        assert d1.order[p] == k;
      }
    }
  }

  lemma PopIsDict(d: Dict, id: int)
    requires IsDict(d)
    ensures IsDict(Pop(d, id))
  {
    WithoutIs(d.order, id);
    var left := Without(d.order, id);
    assert forall i | 0 <= i < |left| :: left[i] in left && left[i] in d.order;
  }

  /** After any history of writes and removals, an id is found exactly as last written, and the listing has an
      id exactly when it is found, once. */
  lemma {:induction false} FoundIsLastWrite(ops: seq<Operation>, id: int)
    ensures IsDict(AfterAll(ops)) && Find(AfterAll(ops), id) == LastWrite(ops, id)
    ensures multiset(AfterAll(ops).order)[id] == if LastWrite(ops, id).Some? then 1 else 0
  {
    if ops != [] {
      var d := AfterAll(ops[..|ops| - 1]);
      FoundIsLastWrite(ops[..|ops| - 1], id);
      match ops[|ops| - 1] {
        case Write(k, e) => PutIsDict(d, k, e);
        case Remove(k) => PopIsDict(d, k);
      }
    }
    DistinctOnce(AfterAll(ops).order, id);
  }

  lemma {:induction false} DistinctOnce(order: seq<int>, id: int)
    requires Distinct(order)
    ensures multiset(order)[id] == if id in order then 1 else 0
  {
    if order != [] {
      DistinctHead(order);
      DistinctOnce(order[1..], id);
      assert order == [order[0]] + order[1..];
    }
  }

  class InMemoryRepository {
    const idAttr: string
    const default: Option<Ordering>
    var order: seq<int>
    var entries: map<int, Entity>

    ghost predicate Valid()
      reads this
    {
      IsDict(Contents())
    }

    function Contents(): Dict
      reads this
    {
      Dict(order, entries)
    }

    constructor (idAttr: string, default: Option<Ordering>)
      ensures Valid() && Contents() == Dict([], map[]) && this.idAttr == idAttr && this.default == default
    {
      this.idAttr, this.default := idAttr, default;
      order, entries := [], map[];
    }

    /** `create` and `update` alike. */
    method Create(e: Entity) returns (result: Result<Entity, Failure>)
      requires Valid()
      modifies this
      ensures Valid()
      ensures result == if idAttr in e.attributes then Ok(e) else Err(AttributeError)
      ensures Contents() == if idAttr in e.attributes then Put(old(Contents()), e.attributes[idAttr], e)
                            else old(Contents())
    {
      if idAttr !in e.attributes { return Err(AttributeError); }
      var id := e.attributes[idAttr];
      if id !in entries { order := order + [id]; }
      entries := entries[id := e];
      result := Ok(e);
    }

    /** Finds an id exactly when it is listed, and then the entity at its place in the unsorted listing. */
    method Get(id: int) returns (found: Option<Entity>)
      requires Valid()
      ensures found == Find(Contents(), id)
      ensures found.Some? <==> id in order
      ensures forall p | 0 <= p < |order| && order[p] == id :: found == Some(Values(Contents())[p])
    {
      found := if id in entries then Some(entries[id]) else None;
    }

    method Delete(id: int) returns (deleted: bool)
      requires Valid()
      modifies this
      ensures Valid() && Contents() == Pop(old(Contents()), id)
      ensures deleted <==> id in old(entries)
    {
      WithoutIs(order, id);
      deleted := id in entries;
      ghost var before := order;
      order := Without(order, id);
      assert forall i | 0 <= i < |order| :: order[i] in order && order[i] in before;
      entries := map k | k in entries && k != id :: entries[k];
    }

    method GetList(limit: int, offset: int, orderBy: Option<Ordering>) returns (result: Result<seq<Entity>, Failure>)
      requires Valid()
      ensures result == Listing(Values(Contents()), orderBy, default, limit, offset)
    {
      var items := Values(Contents());
      var ordering := if orderBy.Some? then orderBy else default;
      if ordering.Some? {
        var sorted := SortByFields(items, ordering.value);
        if sorted.Err? { return sorted; }
        items := sorted.value;
      }
      result := Ok(Slice(items, offset, offset + limit));
    }
  }

  /** For offsets and limits from 0 on, consecutive listings are consecutive parts of one order: a longer
      page is the shorter one followed by the next. */
  lemma ListingsJoin(items: seq<Entity>, given: Option<Ordering>, default: Option<Ordering>, a: nat, b: nat,
                     offset: nat)
    requires Listing(items, given, default, a + b, offset).Ok?
    ensures Listing(items, given, default, a, offset).Ok? && Listing(items, given, default, b, offset + a).Ok?
    ensures Listing(items, given, default, a + b, offset).value
         == Listing(items, given, default, a, offset).value + Listing(items, given, default, b, offset + a).value
  {
    var sorted := Arranged(items, if given.Some? then given else default).value;
    SlicesJoin(sorted, offset, offset + a, offset + (a + b));
  }

  /** A listing for an offset and a limit from 0 on: that many of the arranged entities from the offset on, or
      all there are; and a negative offset counts from the end. */
  lemma ListingHolds(items: seq<Entity>, given: Option<Ordering>, default: Option<Ordering>, limit: nat, offset: int)
    requires Listing(items, given, default, limit, offset).Ok?
    ensures var listed := Listing(items, given, default, limit, offset).value;
            var asked := if given.Some? then given else default;
            var all := if asked.None? then items else SortedBy(items, asked.value).value;
            && (offset >= 0 ==>
                  |listed| == (if |all| <= offset then 0 else if |all| - offset < limit then |all| - offset else limit)
                  && forall i | 0 <= i < |listed| :: listed[i] == all[offset + i])
            && (offset < 0 ==>
                  var from := if |all| + offset < 0 then 0 else |all| + offset;
                  var to := if offset + limit < 0 then |all| + offset + limit
                            else if |all| < offset + limit then |all| else offset + limit;
                  listed == if from < to then all[from..to] else [])
  {
    var asked := if given.Some? then given else default;
    var all := if asked.None? then items else SortedBy(items, asked.value).value;
    assert Listing(items, given, default, limit, offset).value == Slice(all, offset, offset + limit);
    if offset >= 0 { SliceOnward(all, offset, limit); } else { SliceFromEnd(all, offset, limit); }
  }

  lemma SliceOnward<T>(all: seq<T>, offset: nat, limit: nat)
    ensures var part := Slice(all, offset, offset + limit);
            && |part| == (if |all| <= offset then 0 else if |all| - offset < limit then |all| - offset else limit)
            && forall i | 0 <= i < |part| :: part[i] == all[offset + i]
  {
  }

  lemma SliceFromEnd<T>(all: seq<T>, offset: int, limit: nat)
    requires offset < 0
    ensures var from := if |all| + offset < 0 then 0 else |all| + offset;
            var to := if offset + limit < 0 then |all| + offset + limit
                      else if |all| < offset + limit then |all| else offset + limit;
            Slice(all, offset, offset + limit) == if from < to then all[from..to] else []
  {
  }

  lemma SlicesJoin<T>(s: seq<T>, i: nat, j: nat, k: nat)
    requires i <= j <= k
    ensures Slice(s, i, k) == Slice(s, i, j) + Slice(s, j, k)
  {
  }
}
