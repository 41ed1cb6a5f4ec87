/**
 * Day 5 (rust/src/day5.rs): page ordering rules `x|y` ("x comes before y")
 * and updates (lists of pages). Updates that break a rule are reordered with
 * a topological sort (Kahn's algorithm) of the rules restricted to them.
 * Page numbers (`u32`) are unbounded integers here.
 */
module Day5 {
  import opened Wrappers
  import Sorting
  import Sets

  /** `x|y`: page `x` must be printed before page `y`. */
  type Rule = (int, int)

  /** For each page, the pages that must come before it (`HashMap<u32, HashSet<u32>>`). */
  type Index = map<int, set<int>>

  /** Every page a rule mentions, on either side. */
  function Mentioned(rules: seq<Rule>): set<int>
  {
    (set r | r in rules :: r.0) + (set r | r in rules :: r.1)
  }

  /** The pages the rules put before `y`. */
  function Preds(rules: seq<Rule>, y: int): set<int>
  {
    set r | r in rules && r.1 == y :: r.0
  }

  /** `index` is the predecessor index of `rules`. */
  ghost predicate IndexOf(index: Index, rules: seq<Rule>) {
    index.Keys == Mentioned(rules) &&
    forall y :: y in index ==> index[y] == Preds(rules, y)
  }

  /**
   * create_index: for every rule `(x, y)`, adds `x` to the predecessors of
   * `y`, and makes sure `x` is a key too, even with no predecessors.
   */
  method CreateIndex(rules: seq<Rule>) returns (index: Index)
    ensures index.Keys == Mentioned(rules)
    ensures forall y :: y in index ==> index[y] == Preds(rules, y)
  {
    index := map[];
    for i := 0 to |rules|
      invariant index.Keys == Mentioned(rules[..i])
      invariant forall y :: y in index ==> index[y] == Preds(rules[..i], y)
    {
      var (x, y) := rules[i];
      assert rules[..i + 1] == rules[..i] + [(x, y)];
      index := index[y := (if y in index then index[y] else {}) + {x}];
      if x !in index {
        index := index[x := {}];
      }
    }
    assert rules[..|rules|] == rules;
  }

  /** No page of `update` is followed by a page the index puts before it. */
  predicate InOrder(index: Index, update: seq<int>) {
    forall i, j :: 0 <= i < j < |update| && update[i] in index ==> update[j] !in index[update[i]]
  }

  /**
   * is_correct: scans the update once, collecting in `forbidden` the
   * predecessors of every page seen; meeting a forbidden page means a page
   * came after one it must precede.
   */
  method IsCorrect(index: Index, update: seq<int>) returns (ok: bool)
    ensures ok <==> InOrder(index, update)
  {
    var forbidden: set<int> := {};
    ghost var origin: map<int, int> := map[];
    for k := 0 to |update|
      invariant forbidden == origin.Keys
      invariant forall v :: v in origin ==> 0 <= origin[v] < k && update[origin[v]] in index && v in index[update[origin[v]]]
      invariant forall i, v :: 0 <= i < k && update[i] in index && v in index[update[i]] ==> v in forbidden
      invariant forall i, j :: 0 <= i < j < k && update[i] in index ==> update[j] !in index[update[i]]
    {
      var page := update[k];
      if page in forbidden {
        var i := origin[page];
        assert update[i] in index && update[k] in index[update[i]];
        return false;
      }
      if page in index {
        forbidden := forbidden + index[page];
        origin := map v | v in forbidden :: if v in origin then origin[v] else k;
      }
    }
    return true;
  }

  /** No later page of `update` has a rule saying it comes before an earlier one. */
  predicate RespectsRules(rules: seq<Rule>, update: seq<int>) {
    forall i, j :: 0 <= i < j < |update| ==> (update[j], update[i]) !in rules
  }

  /** Over the index of the rules, the scan of is_correct checks exactly the rules. */
  lemma InOrderMeans(index: Index, rules: seq<Rule>, update: seq<int>)
    requires IndexOf(index, rules)
    ensures InOrder(index, update) <==> RespectsRules(rules, update)
  {
    if !RespectsRules(rules, update) {
      var i, j :| 0 <= i < j < |update| && (update[j], update[i]) in rules;
      assert update[i] in Mentioned(rules);
      assert update[j] in Preds(rules, update[i]);
    }
    if !InOrder(index, update) {
      var i, j :| 0 <= i < j < |update| && update[i] in index && update[j] in index[update[i]];
      var r :| r in rules && r.1 == update[i] && r.0 == update[j];
      assert r == (update[j], update[i]);
    }
  }

  /** The middle page of an update, as `update[update.len() / 2]` reads it. */
  function Middle(update: seq<int>): int
    requires |update| > 0
  {
    update[|update| / 2]
  }

  /** The sum of the middle pages of the updates that respect the rules. */
  function CorrectMiddleSum(rules: seq<Rule>, updates: seq<seq<int>>): int
    requires forall k :: 0 <= k < |updates| ==> |updates[k]| > 0
  {
    if updates == [] then 0
    else
      var last := updates[|updates| - 1];
      CorrectMiddleSum(rules, updates[..|updates| - 1]) + (if RespectsRules(rules, last) then Middle(last) else 0)
  }

  /**
   * part1: the sum of the middle pages of the correctly ordered updates. An
   * empty update counts as correct and has no middle page, so none may be empty.
   */
  method Part1(rules: seq<Rule>, updates: seq<seq<int>>) returns (total: int)
    requires forall k :: 0 <= k < |updates| ==> |updates[k]| > 0
    ensures total == CorrectMiddleSum(rules, updates)
  {
    var index := CreateIndex(rules);
    total := 0;
    for k := 0 to |updates|
      invariant total == CorrectMiddleSum(rules, updates[..k])
    {
      var update := updates[k];
      var ok := IsCorrect(index, update);
      InOrderMeans(index, rules, update);
      assert updates[..k + 1][..k] == updates[..k];
      if ok {
        total := total + Middle(update);
      }
    }
    assert updates[..|updates|] == updates;
  }

  /**
   * PopExt::pop: takes some element out of a set, `None` when it is empty.
   * Which element comes out is the hash set's iteration order, left open.
   */
  method Pop(s: set<int>) returns (v: Option<int>, rest: set<int>)
    ensures s == {} ==> v.None? && rest == s
    ensures s != {} ==> v.Some? && v.value in s && rest == s - {v.value}
  {
    if s == {} {
      return None, s;
    }
    // a witness that `s` has a member, for the `:|` below
    ghost var member := Sets.Pick(s);
    var x :| x in s;
    return Some(x), s - {x};
  }

  /** The pages the keys `among` of the index have as predecessors. */
  function ValuesOf(index: Index, among: set<int>): set<int>
  {
    set x, y | x in among && x in index && y in index[x] :: y
  }

  /** The keys among `among` whose predecessors include `y`: successors of `y`. */
  function SuccsOf(index: Index, among: set<int>, y: int): set<int>
  {
    set x | x in among && x in index && y in index[x]
  }

  /**
   * reverse: the successor index. Every key of the original is a key, and so
   * is every page that occurs as a predecessor.
   */
  method Reverse(index: Index) returns (reversed: Index)
    ensures reversed.Keys == index.Keys + ValuesOf(index, index.Keys)
    ensures forall y :: y in reversed ==> reversed[y] == SuccsOf(index, index.Keys, y)
  {
    reversed := map[];
    var todo := index.Keys;
    ghost var done: set<int> := {};
    while todo != {}
      invariant todo <= index.Keys && done == index.Keys - todo
      invariant reversed.Keys == done + ValuesOf(index, done)
      invariant forall y :: y in reversed ==> reversed[y] == SuccsOf(index, done, y)
      decreases todo
    {
      // a witness that `todo` has a member, for the `:|` below
      ghost var member := Sets.Pick(todo);
      var x :| x in todo;
      ghost var before := reversed;
      reversed := AddSuccessor(reversed, x, index[x]);
      ghost var added := reversed;
      if x !in reversed {
        reversed := reversed[x := {}];
      }
      ReverseMaintained(index, done, x, before, added, reversed);
      todo := todo - {x};
      done := done + {x};
    }
  }

  /** The inner loop of reverse: records `x` as a successor of every page of `lt`. */
  method AddSuccessor(reversed: Index, x: int, lt: set<int>) returns (r: Index)
    ensures r.Keys == reversed.Keys + lt
    ensures forall y :: y in r ==> r[y] == (if y in reversed then reversed[y] else {}) + (if y in lt then {x} else {})
  {
    r := reversed;
    var todo := lt;
    while todo != {}
      invariant todo <= lt
      invariant r.Keys == reversed.Keys + (lt - todo)
      invariant forall y :: y in r ==> r[y] == (if y in reversed then reversed[y] else {}) + (if y in lt - todo then {x} else {})
      decreases todo
    {
      // a witness that `todo` has a member, for the `:|` below
      ghost var member := Sets.Pick(todo);
      var y :| y in todo;
      r := r[y := (if y in r then r[y] else {}) + {x}];
      todo := todo - {y};
    }
  }

  /**
   * One round of reverse keeps its invariant: after recording `x` as a
   * successor of its predecessors and making `x` a key, the map is the
   * successor index of the keys processed so far.
   */
  lemma ReverseMaintained(index: Index, done: set<int>, x: int, before: Index, added: Index, after: Index)
    requires x in index && x !in done
    requires before.Keys == done + ValuesOf(index, done)
    requires forall y :: y in before ==> before[y] == SuccsOf(index, done, y)
    requires added.Keys == before.Keys + index[x]
    requires forall y :: y in added ==> added[y] == (if y in before then before[y] else {}) + (if y in index[x] then {x} else {})
    requires after == if x in added then added else added[x := {}]
    ensures after.Keys == (done + {x}) + ValuesOf(index, done + {x})
    ensures forall y :: y in after ==> after[y] == SuccsOf(index, done + {x}, y)
  {
    ReverseStep(index, done, x);
  }

  /** Processing key `x` adds its predecessors, and `x` as their successor. */
  lemma ReverseStep(index: Index, done: set<int>, x: int)
    requires x in index && x !in done
    ensures ValuesOf(index, done + {x}) == ValuesOf(index, done) + index[x]
    ensures forall y :: SuccsOf(index, done + {x}, y) == SuccsOf(index, done, y) + (if y in index[x] then {x} else {})
    ensures forall y :: y !in ValuesOf(index, done) ==> SuccsOf(index, done, y) == {}
  {
    var d := done + {x};
    forall y | y in index[x] ensures y in ValuesOf(index, d) {
      assert x in d && x in index && y in index[x];
    }
    forall y | y in ValuesOf(index, d) ensures y in ValuesOf(index, done) + index[x] {
      var k :| k in d && k in index && y in index[k];
    }
    forall y | y in ValuesOf(index, done) ensures y in ValuesOf(index, d) {
      var k :| k in done && k in index && y in index[k];
      assert k in d;
    }
    forall y | y !in ValuesOf(index, done) ensures SuccsOf(index, done, y) == {} {
      var succs := SuccsOf(index, done, y);
      if succs != {} {
        // a member of `succs` would be a key of `done` with `y` among its values
        ghost var member := Sets.Pick(succs);
        assert false;
      }
    }
  }

  /** The elements of a sequence, as a set. */
  function Elements(s: seq<int>): set<int>
  {
    set x | x in s
  }

  /**
   * restrict_index: keeps the keys that occur in the update, each with its
   * predecessors that occur in the update.
   */
  method RestrictIndex(index: Index, v: seq<int>) returns (result: Index)
    ensures result.Keys == index.Keys * Elements(v)
    ensures forall x :: x in result ==> result[x] == index[x] * Elements(v)
  {
    var universe := Elements(v);
    result := map[];
    var todo := index.Keys;
    while todo != {}
      invariant todo <= index.Keys
      invariant result.Keys == (index.Keys - todo) * universe
      invariant forall x :: x in result ==> result[x] == index[x] * universe
      decreases todo
    {
      // a witness that `todo` has a member, for the `:|` below
      ghost var member := Sets.Pick(todo);
      var x :| x in todo;
      if x in v {
        result := result[x := index[x] * universe];
      }
      todo := todo - {x};
    }
  }

  /** No page occurs twice. */
  predicate Distinct(s: seq<int>) {
    forall i, j :: 0 <= i < j < |s| ==> s[i] != s[j]
  }

  /** The keys not emitted yet whose predecessors have all been emitted. */
  function Ready(index: Index, emitted: set<int>): set<int>
  {
    set y | y in index && index[y] <= emitted && y !in emitted
  }

  /**
   * topological_sort: Kahn's algorithm. Starts from the keys without
   * predecessors; each page taken from `pending` is emitted and removed from
   * the predecessor sets of its successors, and a successor whose set becomes
   * empty is pending in turn. Which pending page goes next is left open.
   * Every emitted page comes after all its predecessors, and a key is left
   * out only when one of its predecessors is left out too (a cycle, or a
   * predecessor that is not a key).
   */
  method TopologicalSort(index0: Index) returns (order: seq<int>)
    ensures Distinct(order)
    ensures PredsFirst(index0, order)
    ensures forall y :: y in index0 && y !in order ==> !(index0[y] <= Elements(order))
  {
    var index := index0;
    var reversed := Reverse(index);
    var pending := InitialPending(index);
    order := [];
    ghost var emitted: set<int> := {};
    while pending != {}
      invariant index.Keys == index0.Keys
      invariant forall y :: y in index ==> index[y] == index0[y] - emitted
      invariant emitted == Elements(order) && Distinct(order) && PredsFirst(index0, order)
      invariant Closed(index0, emitted)
      invariant pending == Ready(index0, emitted)
      decreases index0.Keys - emitted
    {
      var next, rest := Pop(pending);
      var x := next.value;
      pending := rest;
      ReadyAfter(index0, emitted, x, reversed[x]);
      Emit(index0, order, x);
      order := order + [x];
      emitted := emitted + {x};
      if x in reversed {
        index, pending := Release(index, pending, x, reversed[x], index0, emitted);
      }
    }
    forall y | y in index0 && y !in order ensures !(index0[y] <= Elements(order)) {
      assert y !in Ready(index0, emitted);
    }
  }

  /** Every page of `order` comes after all its predecessors. */
  predicate PredsFirst(index: Index, order: seq<int>) {
    forall i :: 0 <= i < |order| ==> order[i] in index && index[order[i]] <= Elements(order[..i])
  }

  /** Every emitted page is a key whose predecessors were all emitted. */
  predicate Closed(index: Index, emitted: set<int>) {
    forall e :: e in emitted ==> e in index && index[e] <= emitted
  }

  /** Emitting a new page whose predecessors are all emitted keeps the order's properties. */
  lemma Emit(index: Index, order: seq<int>, x: int)
    requires Distinct(order) && PredsFirst(index, order) && Closed(index, Elements(order))
    requires x in index && x !in order && index[x] <= Elements(order)
    ensures Distinct(order + [x]) && PredsFirst(index, order + [x])
    ensures Elements(order + [x]) == Elements(order) + {x}
    ensures Closed(index, Elements(order + [x]))
  {
    assert (order + [x])[..|order|] == order;
    forall i | 0 <= i < |order| ensures (order + [x])[..i] == order[..i] {
    }
  }

  /** The `for (x, lt) in index.iter()` loop of topological_sort: the keys without predecessors. */
  method InitialPending(index: Index) returns (pending: set<int>)
    ensures pending == Ready(index, {})
  {
    pending := {};
    var todo := index.Keys;
    while todo != {}
      invariant todo <= index.Keys
      invariant pending == Ready(index, {}) - todo
      decreases todo
    {
      // a witness that `todo` has a member, for the `:|` below
      ghost var member := Sets.Pick(todo);
      var x :| x in todo;
      if index[x] == {} {
        pending := pending + {x};
      }
      todo := todo - {x};
    }
  }

  /**
   * The `for y in gt` loop of topological_sort: removes the emitted page `x`
   * from the predecessor sets of its successors `gt`, and makes pending the
   * successors left with none.
   */
  method Release(index: Index, pending: set<int>, x: int, gt: set<int>, ghost index0: Index, ghost emitted: set<int>)
    returns (index': Index, pending': set<int>)
    requires index.Keys == index0.Keys && x in emitted
    requires forall y :: y in gt ==> y in index0 && y !in emitted
    requires forall y :: y in index ==> index[y] == index0[y] - (if y in gt then emitted - {x} else emitted)
    requires pending == Ready(index0, emitted) - gt
    ensures index'.Keys == index0.Keys
    ensures forall y :: y in index' ==> index'[y] == index0[y] - emitted
    ensures pending' == Ready(index0, emitted)
  {
    index', pending' := index, pending;
    var todo := gt;
    while todo != {}
      invariant todo <= gt
      invariant index'.Keys == index0.Keys
      invariant forall y :: y in index' ==> index'[y] == index0[y] - (if y in todo then emitted - {x} else emitted)
      invariant pending' == Ready(index0, emitted) - todo
      decreases todo
    {
      // a witness that `todo` has a member, for the `:|` below
      ghost var member := Sets.Pick(todo);
      var y :| y in todo;
      todo := todo - {y};
      if y in index' {
        index' := index'[y := index'[y] - {x}];
        if index'[y] == {} {
          assert index0[y] <= emitted by {
            forall z | z in index0[y] ensures z in emitted {
              assert z !in index'[y];
            }
          }
          assert y in Ready(index0, emitted);
          pending' := pending' + {y};
        } else {
          assert y !in Ready(index0, emitted);
        }
      }
    }
  }

  /**
   * Emitting a ready page `x` leaves ready what was ready, except `x`; the
   * pages that become ready are among its successors, none of them emitted.
   */
  lemma ReadyAfter(index: Index, emitted: set<int>, x: int, succs: set<int>)
    requires Closed(index, emitted)
    requires x in Ready(index, emitted)
    requires succs == SuccsOf(index, index.Keys, x)
    ensures Ready(index, emitted) - {x} == Ready(index, emitted + {x}) - succs
    ensures forall y :: y in succs ==> y in index && y !in emitted + {x}
  {
  }

  /**
   * from_vec: the position of every page in `order` (the last one, should a
   * page occur twice). The comparator it returns compares these positions.
   */
  method FromVec(order: seq<int>) returns (iso: map<int, int>)
    ensures iso.Keys == Elements(order)
    ensures forall x :: x in iso ==> 0 <= iso[x] < |order| && order[iso[x]] == x
    ensures forall x :: x in iso ==> forall j :: iso[x] < j < |order| ==> order[j] != x
  {
    iso := map[];
    for i := 0 to |order|
      invariant iso.Keys == Elements(order[..i])
      invariant forall x :: x in iso ==> 0 <= iso[x] < i && order[iso[x]] == x
      invariant forall x :: x in iso ==> forall j :: iso[x] < j < i ==> order[j] != x
    {
      assert order[..i + 1] == order[..i] + [order[i]];
      iso := iso[order[i] := i];
    }
    assert order[..|order|] == order;
  }

  /** In an order without repeats, a page's position is where it stands. */
  lemma PositionOf(order: seq<int>, iso: map<int, int>, i: int)
    requires Distinct(order) && 0 <= i < |order|
    requires iso.Keys == Elements(order)
    requires forall x :: x in iso ==> 0 <= iso[x] < |order| && order[iso[x]] == x
    ensures order[i] in iso && iso[order[i]] == i
  {
    assert order[i] in Elements(order);
  }

  /**
   * from_index followed by `update.sort_by(&cmp)`: sorts the update by the
   * position of each page in a topological order of `index`. The comparator
   * unwraps the position of every page it compares, and a sort of two or
   * more pages compares every page, so a page missing from the order is a
   * panic, modelled as `None`.
   */
  method SortByIndex(index: Index, update: seq<int>) returns (r: Option<seq<int>>)
    ensures r.Some? ==> multiset(r.value) == multiset(update) && InOrder(index, r.value)
    ensures r.None? <==> Panics(index, update)
  {
    var order := TopologicalSort(index);
    var iso := FromVec(order);
    if |update| >= 2 && exists k :: 0 <= k < |update| && update[k] !in iso {
      var k :| 0 <= k < |update| && update[k] !in iso;
      var page := update[k];
      LeftOutIsBlocked(index, order, page);
      ghost var S :| Blocked(index, S) && page in S;
      assert page in S * Elements(update);
      return None;
    }
    var a := new int[|update|](k requires 0 <= k < |update| => update[k]);
    assert a[..] == update;
    if |update| >= 2 {
      forall S | Blocked(index, S) ensures S * Elements(update) == {} {
        BlockedNeverEmitted(index, order, S);
        assert forall x :: x in S ==> x !in iso;
      }
    }
    var key := x => if x in iso then iso[x] else 0;
    Sorting.SortBy(a, key);
    var sorted := a[..];
    assert forall x :: x in sorted ==> x in multiset(update);
    if |update| >= 2 {
      SortedByPositionInOrder(index, order, iso, key, sorted);
    }
    return Some(sorted);
  }

  /**
   * The comparator of `sort_by` unwraps a missing position: the update has
   * two or more pages (so the sort compares every page) and one of them
   * lies in a blocked set, so the topological sort never emits it.
   */
  ghost predicate Panics(index: Index, update: seq<int>) {
    |update| >= 2 && exists S :: Blocked(index, S) && S * Elements(update) != {}
  }

  /**
   * From every page of `S` the predecessors never run out: each is either not
   * a key (so no sort ever orders it) or has a predecessor in `S`.
   */
  ghost predicate Blocked(index: Index, S: set<int>) {
    S != {} && forall y :: y in S ==> y !in index || exists z :: z in S && z in index[y]
  }

  /** A page the sort leaves out belongs to a blocked set. */
  lemma LeftOutIsBlocked(index: Index, order: seq<int>, x: int)
    requires forall y :: y in index && y !in order ==> !(index[y] <= Elements(order))
    requires x !in order
    ensures exists S :: Blocked(index, S) && x in S
  {
    var S := (index.Keys + {x} + ValuesOf(index, index.Keys)) - Elements(order);
    forall y | y in S && y in index ensures exists z :: z in S && z in index[y] {
      assert y !in order;
      assert !(index[y] <= Elements(order));
      var missing := index[y] - Elements(order);
      if missing == {} {
        forall z | z in index[y] ensures z in Elements(order) {
          assert z !in missing;
        }
        assert false;
      }
      var z := Sets.Pick(missing);
      assert z in ValuesOf(index, index.Keys);
    }
    assert x in S;
    assert Blocked(index, S);
  }

  /** No page of a blocked set is ever emitted: each would need another emitted first. */
  lemma {:induction false} BlockedNeverEmitted(index: Index, order: seq<int>, S: set<int>)
    requires PredsFirst(index, order) && Blocked(index, S)
    ensures forall i :: 0 <= i < |order| ==> order[i] !in S
    decreases |order|
  {
    if order != [] {
      var n := |order| - 1;
      var prefix := order[..n];
      assert PredsFirst(index, prefix) by {
        forall i | 0 <= i < |prefix| ensures prefix[i] in index && index[prefix[i]] <= Elements(prefix[..i]) {
          assert prefix[..i] == order[..i];
        }
      }
      BlockedNeverEmitted(index, prefix, S);
      var y := order[n];
      assert y in index && index[y] <= Elements(prefix);
      forall z | z in index[y] ensures z !in S {
        assert z in Elements(prefix);
      }
      assert y !in S;
    }
  }

  /** Sorting by position in a topological order leaves no page after one it must precede. */
  lemma SortedByPositionInOrder(index: Index, order: seq<int>, iso: map<int, int>, key: int -> int, s: seq<int>)
    requires Distinct(order) && PredsFirst(index, order)
    requires iso.Keys == Elements(order)
    requires forall x :: x in iso ==> 0 <= iso[x] < |order| && order[iso[x]] == x
    requires forall x :: x in iso ==> key(x) == iso[x]
    requires forall x :: x in s ==> x in iso
    requires Sorting.SortedBy(s, key)
    ensures InOrder(index, s)
  {
    forall i, j | 0 <= i < j < |s| && s[i] in index ensures s[j] !in index[s[i]] {
      var a, b := s[i], s[j];
      var p := iso[a];
      if b in index[a] {
        assert false;
      }
    }
  }

  /** `fixed` is `update` put in an order that keeps every rule. */
  ghost predicate Fixes(rules: seq<Rule>, update: seq<int>, fixed: seq<int>) {
    multiset(fixed) == multiset(update) && RespectsRules(rules, fixed)
  }

  /**
   * `S` is a set of pages of `update` no sort can start on: each is either
   * mentioned by no rule, or has a rule putting another page of `S` first.
   */
  ghost predicate StuckOn(rules: seq<Rule>, update: seq<int>, S: set<int>) {
    S != {} && S <= Elements(update) &&
    forall y :: y in S ==> y !in Mentioned(rules) || exists z :: z in S && (z, y) in rules
  }

  /** Some pages of `update` cannot be placed by a topological sort of the rules. */
  ghost predicate Stuck(rules: seq<Rule>, update: seq<int>) {
    exists S :: StuckOn(rules, update, S)
  }

  /**
   * The sum, over the updates that break a rule, of the middle page of their
   * reordering in `fixed`.
   */
  function FixedMiddleSum(rules: seq<Rule>, updates: seq<seq<int>>, fixed: seq<seq<int>>): int
    requires |fixed| == |updates|
  {
    if updates == [] then 0
    else
      var n := |updates| - 1;
      FixedMiddleSum(rules, updates[..n], fixed[..n]) +
        (if !RespectsRules(rules, updates[n]) && |fixed[n]| > 0 then Middle(fixed[n]) else 0)
  }

  /**
   * part2: every update that breaks a rule is sorted by a topological order
   * of the rules restricted to its pages, and the middle pages of the sorted
   * updates are summed. `None` is the panic of the comparator, which only
   * happens when some pages of a broken update are stuck.
   */
  method Part2(rules: seq<Rule>, updates: seq<seq<int>>) returns (total: Option<int>, ghost fixed: seq<seq<int>>)
    ensures total.Some? ==> |fixed| == |updates| && total.value == FixedMiddleSum(rules, updates, fixed)
    ensures total.Some? ==> forall k :: 0 <= k < |updates| && !RespectsRules(rules, updates[k]) ==> Fixes(rules, updates[k], fixed[k])
    ensures total.None? <==> exists k :: 0 <= k < |updates| && !RespectsRules(rules, updates[k]) && Stuck(rules, updates[k])
  {
    var index := CreateIndex(rules);
    var sum := 0;
    fixed := [];
    for k := 0 to |updates|
      invariant |fixed| == k
      invariant sum == FixedMiddleSum(rules, updates[..k], fixed)
      invariant forall i :: 0 <= i < k ==> Handled(rules, updates[i], fixed[i])
    {
      var update := updates[k];
      var ok := IsCorrect(index, update);
      InOrderMeans(index, rules, update);
      if ok {
        MiddleSumStep(rules, updates, fixed, k, update);
        assert Handled(rules, update, update);
        fixed := fixed + [update];
      } else {
        var restricted := RestrictIndex(index, update);
        var sorted := SortByIndex(restricted, update);
        if sorted.None? {
          StuckFromBlocked(index, rules, update, restricted);
          return None, fixed;
        }
        var s := sorted.value;
        SortedFixes(index, rules, update, restricted, s);
        MiddleSumStep(rules, updates, fixed, k, s);
        sum := sum + Middle(s);
        fixed := fixed + [s];
      }
    }
    assert updates[..|updates|] == updates;
    return Some(sum), fixed;
  }

  /**
   * Part2 has dealt with `update`: when it breaks a rule, `fixed` reorders it
   * to keep every rule and none of its pages are stuck.
   */
  ghost predicate Handled(rules: seq<Rule>, update: seq<int>, fixed: seq<int>) {
    RespectsRules(rules, update) || (Fixes(rules, update, fixed) && !Stuck(rules, update))
  }

  /** One more update adds its fixed middle page to the sum when it breaks a rule. */
  lemma MiddleSumStep(rules: seq<Rule>, updates: seq<seq<int>>, fixed: seq<seq<int>>, k: nat, f: seq<int>)
    requires |fixed| == k < |updates|
    ensures FixedMiddleSum(rules, updates[..k + 1], fixed + [f]) ==
      FixedMiddleSum(rules, updates[..k], fixed) + (if !RespectsRules(rules, updates[k]) && |f| > 0 then Middle(f) else 0)
  {
    assert updates[..k + 1][..k] == updates[..k];
    assert (fixed + [f])[..k] == fixed;
  }

  /** Sorted in the order of the restricted index, an update keeps every rule. */
  lemma RestrictedRespectsRules(index: Index, rules: seq<Rule>, update: seq<int>, restricted: Index, s: seq<int>)
    requires IndexOf(index, rules)
    requires restricted.Keys == index.Keys * Elements(update)
    requires forall x :: x in restricted ==> restricted[x] == index[x] * Elements(update)
    requires multiset(s) == multiset(update) && InOrder(restricted, s)
    ensures RespectsRules(rules, s)
  {
    forall i, j | 0 <= i < j < |s| ensures (s[j], s[i]) !in rules {
      var a, b := s[i], s[j];
      assert a in multiset(update) && b in multiset(update);
      if a in Mentioned(rules) {
        assert a in restricted;
        assert b !in restricted[a];
        assert b !in Preds(rules, a);
      }
    }
  }

  /** A blocked set of the restricted index gives stuck pages of the update. */
  lemma StuckFromBlocked(index: Index, rules: seq<Rule>, update: seq<int>, restricted: Index)
    requires IndexOf(index, rules)
    requires restricted.Keys == index.Keys * Elements(update)
    requires forall x :: x in restricted ==> restricted[x] == index[x] * Elements(update)
    requires Panics(restricted, update)
    ensures Stuck(rules, update)
  {
    var S :| Blocked(restricted, S) && S * Elements(update) != {};
    var T := S * Elements(update);
    forall y | y in T && y in Mentioned(rules) ensures exists z :: z in T && (z, y) in rules {
      var z :| z in S && z in restricted[y];
      assert z in Preds(rules, y);
      assert z in T;
    }
    assert StuckOn(rules, update, T);
  }

  /**
   * An update that breaks a rule and that the sort placed whole: the result
   * fixes it, has its length, and the update has no stuck pages.
   */
  lemma SortedFixes(index: Index, rules: seq<Rule>, update: seq<int>, restricted: Index, s: seq<int>)
    requires IndexOf(index, rules) && !RespectsRules(rules, update)
    requires restricted.Keys == index.Keys * Elements(update)
    requires forall x :: x in restricted ==> restricted[x] == index[x] * Elements(update)
    requires multiset(s) == multiset(update) && InOrder(restricted, s)
    requires !Panics(restricted, update)
    ensures Handled(rules, update, s) && |s| == |update|
  {
    if Stuck(rules, update) {
      BlockedFromStuck(index, rules, update, restricted);
    }
    RestrictedRespectsRules(index, rules, update, restricted, s);
    assert |s| == |multiset(s)| == |multiset(update)| == |update|;
  }

  /** Stuck pages of the update are a blocked set of the restricted index. */
  lemma BlockedFromStuck(index: Index, rules: seq<Rule>, update: seq<int>, restricted: Index)
    requires IndexOf(index, rules)
    requires restricted.Keys == index.Keys * Elements(update)
    requires forall x :: x in restricted ==> restricted[x] == index[x] * Elements(update)
    requires Stuck(rules, update)
    ensures exists S :: Blocked(restricted, S) && S * Elements(update) != {}
  {
    var T :| StuckOn(rules, update, T);
    forall y | y in T && y in restricted ensures exists z :: z in T && z in restricted[y] {
      var z :| z in T && (z, y) in rules;
      assert z in Preds(rules, y);
    }
    var y := Sets.Pick(T);
    assert y in T * Elements(update);
    assert Blocked(restricted, T);
  }

  /**
   * When the rules compare every two pages of an update without repeats, it
   * has at most one reordering that keeps every rule: the answer of part2
   * does not depend on the sort.
   */
  lemma FixIsUnique(rules: seq<Rule>, update: seq<int>, f1: seq<int>, f2: seq<int>)
    requires forall x :: multiset(update)[x] <= 1
    requires forall x, y :: x in update && y in update && x != y ==> (x, y) in rules || (y, x) in rules
    requires Fixes(rules, update, f1) && Fixes(rules, update, f2)
    ensures f1 == f2
  {
    assert |f1| == |multiset(f1)| == |multiset(f2)| == |f2|;
    NoRepeats(f1);
    NoRepeats(f2);
    if f1 != f2 {
      var k := FirstDifference(f1, f2, 0);
      var a, b := f1[k], f2[k];
      assert a in multiset(f2) && b in multiset(f1);
      var p :| 0 <= p < |f2| && f2[p] == a;
      var q :| 0 <= q < |f1| && f1[q] == b;
      assert false;
    }
  }

  /** The first position from `from` on where two sequences of one length differ. */
  lemma {:induction false} FirstDifference(f1: seq<int>, f2: seq<int>, from: nat) returns (k: nat)
    requires |f1| == |f2| && from <= |f1| && f1[..from] == f2[..from] && f1 != f2
    ensures from <= k < |f1| && f1[k] != f2[k] && f1[..k] == f2[..k]
    decreases |f1| - from
  {
    if from == |f1| {
      assert false;
    } else if f1[from] != f2[from] {
      k := from;
    } else {
      assert f1[..from + 1] == f2[..from + 1];
      k := FirstDifference(f1, f2, from + 1);
    }
  }

  /** A sequence in which no value occurs twice has distinct positions. */
  lemma NoRepeats(s: seq<int>)
    requires forall x :: multiset(s)[x] <= 1
    ensures Distinct(s)
  {
    forall i, j | 0 <= i < j < |s| ensures s[i] != s[j] {
      assert s == s[..j] + [s[j]] + s[j + 1..];
      assert s[i] in s[..j];
      assert multiset(s)[s[j]] == multiset(s[..j])[s[j]] + 1 + multiset(s[j + 1..])[s[j]];
    }
  }

  /**
   * When each page of `chain` is bound by a rule to come before the next,
   * `chain` is the only reordering of its pages that keeps every rule.
   */
  lemma ChainIsOnlyFix(rules: seq<Rule>, chain: seq<int>, f: seq<int>)
    requires forall x :: multiset(chain)[x] <= 1
    requires forall i :: 0 <= i < |chain| - 1 ==> (chain[i], chain[i + 1]) in rules
    requires Fixes(rules, chain, f)
    ensures f == chain
  {
    var n := |chain|;
    assert |f| == |multiset(f)| == |multiset(chain)| == n;
    NoRepeats(f);
    NoRepeats(chain);
    forall i | 0 <= i < n ensures chain[i] in f {
      assert chain[i] in multiset(chain);
    }
    var ps := seq(n, i requires 0 <= i < n => PositionIn(f, chain[i]));
    forall i | 0 <= i < n - 1 ensures ps[i] < ps[i + 1] {
      assert chain[i] != chain[i + 1];
      assert ps[i] != ps[i + 1];
    }
    forall i | 0 <= i < n ensures f[i] == chain[i] {
      AtLeastIndex(ps, n, i);
      AtMostIndex(ps, n, i);
    }
  }

  /** Where `x` stands in `s`. */
  ghost function PositionIn(s: seq<int>, x: int): (p: int)
    requires x in s
    ensures 0 <= p < |s| && s[p] == x
  {
    var p :| 0 <= p < |s| && s[p] == x; p
  }

  /** A strictly increasing sequence of positions below `n` ... */
  lemma {:induction false} AtLeastIndex(ps: seq<int>, n: int, i: int)
    requires |ps| == n && 0 <= i < n
    requires forall k :: 0 <= k < n ==> 0 <= ps[k] < n
    requires forall k :: 0 <= k < n - 1 ==> ps[k] < ps[k + 1]
    ensures ps[i] >= i
    decreases i
  {
    if i > 0 {
      AtLeastIndex(ps, n, i - 1);
    }
  }

  /** ... of length `n` leaves no gap: its `i`th position is `i`. */
  lemma {:induction false} AtMostIndex(ps: seq<int>, n: int, i: int)
    requires |ps| == n && 0 <= i < n
    requires forall k :: 0 <= k < n ==> 0 <= ps[k] < n
    requires forall k :: 0 <= k < n - 1 ==> ps[k] < ps[k + 1]
    ensures ps[i] <= i
    decreases n - i
  {
    if i < n - 1 {
      AtMostIndex(ps, n, i + 1);
    }
  }

  /** The index of the rules of the small sort test. */
  lemma SmallIndex(index: Index)
    requires IndexOf(index, [(29, 13), (61, 13), (61, 29)])
    ensures index == map[13 := {29, 61}, 29 := {61}, 61 := {}]
  {
    var rules := [(29, 13), (61, 13), (61, 29)];
    assert Mentioned(rules) == {29, 13, 61};
    assert Preds(rules, 13) == {29, 61};
    assert Preds(rules, 29) == {61};
    assert Preds(rules, 61) == {};
  }

  /** No page of the small test lies in a blocked set of its index. */
  lemma SmallAcyclic(S: set<int>)
    requires Blocked(map[13 := {29, 61}, 29 := {61}, 61 := {}], S)
    ensures S * {29, 13, 61} == {}
  {
    assert 61 !in S;
    assert 29 !in S;
    assert 13 !in S;
  }

  /**
   * The test `linear_refinement_on_small_vector`: sorting `[29, 13, 61]` by
   * the topological order of three rules gives `[61, 29, 13]`, whatever
   * order the sets hand their pages out in.
   */
  method ExampleSmall() returns (v: seq<int>)
    ensures v == [61, 29, 13]
  {
    var rules := [(29, 13), (61, 13), (61, 29)];
    var index := CreateIndex(rules);
    SmallIndex(index);
    var update := [29, 13, 61];
    assert Elements(update) == {29, 13, 61};
    var r := SortByIndex(index, update);
    if r.None? {
      ghost var S :| Blocked(index, S) && S * Elements(update) != {};
      SmallAcyclic(S);
      assert false;
    }
    v := r.value;
    InOrderMeans(index, rules, v);
    var expected := [61, 29, 13];
    assert multiset(update) == multiset(expected);
    ChainIsOnlyFix(rules, expected, v);
  }

  /** The rules of the larger sort test, in the order the test lists them. */
  function LargeRules(): seq<Rule>
  {
    [(97, 13), (97, 47), (47, 29), (75, 29), (29, 13), (73, 13),
     (97, 29), (75, 97), (75, 47), (61, 13), (61, 29), (29, 13)]
  }

  /** The index of the rules of the larger sort test, key by key. */
  ghost predicate LargeShape(index: Index) {
    index.Keys == {97, 13, 47, 29, 75, 73, 61} &&
    index[13] == {97, 29, 73, 61} && index[47] == {97, 75} && index[29] == {47, 75, 97, 61} &&
    index[97] == {75} && index[75] == {} && index[73] == {} && index[61] == {}
  }

  /** The index of the rules of the larger sort test. */
  lemma LargeIndex(index: Index)
    requires IndexOf(index, LargeRules())
    ensures LargeShape(index)
  {
    LargeMentioned();
    LargePreds13();
    LargePreds47();
    LargePreds29();
    LargePreds97();
    LargePreds75();
    LargePreds73();
    LargePreds61();
  }

  // The predecessor sets of the larger test, one page at a time.
  lemma LargeMentioned()
    ensures Mentioned(LargeRules()) == {97, 13, 47, 29, 75, 73, 61}
  {
  }

  lemma LargePreds13()
    ensures Preds(LargeRules(), 13) == {97, 29, 73, 61}
  {
  }

  lemma LargePreds47()
    ensures Preds(LargeRules(), 47) == {97, 75}
  {
  }

  lemma LargePreds29()
    ensures Preds(LargeRules(), 29) == {47, 75, 97, 61}
  {
  }

  lemma LargePreds97()
    ensures Preds(LargeRules(), 97) == {75}
  {
  }

  lemma LargePreds75()
    ensures Preds(LargeRules(), 75) == {}
  {
  }

  lemma LargePreds73()
    ensures Preds(LargeRules(), 73) == {}
  {
  }

  lemma LargePreds61()
    ensures Preds(LargeRules(), 61) == {}
  {
  }

  /** No page of the larger test lies in a blocked set of its index. */
  lemma LargeAcyclic(index: Index, S: set<int>)
    requires LargeShape(index) && Blocked(index, S)
    ensures S * {97, 13, 75, 29, 47} == {}
  {
    assert 75 !in S && 73 !in S && 61 !in S;
    assert 97 !in S;
    assert 47 !in S;
    assert 29 !in S;
    assert 13 !in S;
  }

  /**
   * The test `linear_refinement_on_larger_vector`: sorting
   * `[97, 13, 75, 29, 47]` by the topological order of its twelve rules
   * gives `[75, 97, 47, 29, 13]`, whatever order the sets hand their pages
   * out in.
   */
  method ExampleLarge() returns (v: seq<int>)
    ensures v == [75, 97, 47, 29, 13]
  {
    var rules := LargeRules();
    var index := CreateIndex(rules);
    LargeIndex(index);
    var update := [97, 13, 75, 29, 47];
    var r := SortByIndex(index, update);
    if r.None? {
      ghost var S :| Blocked(index, S) && S * Elements(update) != {};
      LargeAcyclic(index, S);
      LargeElements(update);
      assert false;
    }
    v := r.value;
    InOrderMeans(index, rules, v);
    var expected := [75, 97, 47, 29, 13];
    LargeChain(update, expected);
    ChainIsOnlyFix(rules, expected, v);
  }

  /** The pages of the larger test's update. */
  lemma LargeElements(update: seq<int>)
    requires update == [97, 13, 75, 29, 47]
    ensures Elements(update) == {97, 13, 75, 29, 47}
  {
  }

  /** The expected order of the larger test is a chain of its rules. */
  lemma LargeChain(update: seq<int>, expected: seq<int>)
    requires update == [97, 13, 75, 29, 47] && expected == [75, 97, 47, 29, 13]
    ensures multiset(update) == multiset(expected)
    ensures forall x :: multiset(expected)[x] <= 1
    ensures forall i :: 0 <= i < |expected| - 1 ==> (expected[i], expected[i + 1]) in LargeRules()
  {
    var rules := LargeRules();
    assert rules[7] == (75, 97) && rules[1] == (97, 47) && rules[2] == (47, 29) && rules[4] == (29, 13);
  }
}
