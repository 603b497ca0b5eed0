/** Key selection (keystore/keystore_api.go, `selectKey`). */
module Selection {
  import opened Wrappers
  import opened Keys
  import opened KeySets

  datatype Request = Request(operation: string, selector: Selector, algorithms: seq<string>, now: Time)

  /** The result of a selection: the key and algorithm, or the kind of error. */
  datatype Outcome =
    | Selected(key: Key, algorithm: string)
    | TiedPriority(priority: int, algorithm: string)
    | NoEligibleKey
    | FindFailed

  predicate ProducesOutput(operation: string) { operation == OP_SIGN || operation == OP_ENCRYPT }

  /** What makes a key usable for a request under one algorithm. */
  predicate Eligible(k: Key, q: Request, algorithm: string) {
    && q.selector.Accepts(k)
    && k.status != STATUS_DISABLED
    && ValidAt(k, q.now)
    && Capable(k, Capability(UseFor(q.operation), q.operation, algorithm))
    && (ProducesOutput(q.operation) ==> k.status != STATUS_PASSIVE)
  }

  // ----- the order-free specification

  ghost predicate NoneEligible(keys: multiset<Key>, q: Request, algorithm: string) {
    forall k | k in keys :: !Eligible(k, q, algorithm)
  }

  /** `i` is the first preferred algorithm for which some key is eligible. */
  ghost predicate FirstUsable(keys: multiset<Key>, q: Request, i: nat) {
    && i < |q.algorithms|
    && !NoneEligible(keys, q, q.algorithms[i])
    && forall j | 0 <= j < i :: NoneEligible(keys, q, q.algorithms[j])
  }

  /** `k` is eligible and outranks every other eligible key, including a second copy of itself. */
  ghost predicate Outranks(keys: multiset<Key>, q: Request, algorithm: string, k: Key) {
    && keys[k] == 1
    && Eligible(k, q, algorithm)
    && forall other | other in keys && other != k && Eligible(other, q, algorithm) :: other.priority < k.priority
  }

  /** The greatest priority among the eligible keys is `p`, and at least two keys share it. */
  ghost predicate Tied(keys: multiset<Key>, q: Request, algorithm: string, p: int) {
    && (forall k | k in keys && Eligible(k, q, algorithm) :: k.priority <= p)
    && exists k, other | k in keys && other in keys ::
         && Eligible(k, q, algorithm) && Eligible(other, q, algorithm)
         && k.priority == p == other.priority
         && (k != other || keys[k] > 1)
  }

  /** The outcome a selection must have, as a function of the repository's multiset of keys alone. */
  ghost predicate IsChoice(keys: multiset<Key>, q: Request, o: Outcome) {
    match o
    case Selected(k, a) => exists i: nat :: FirstUsable(keys, q, i) && q.algorithms[i] == a && Outranks(keys, q, a, k)
    case TiedPriority(p, a) => exists i: nat :: FirstUsable(keys, q, i) && q.algorithms[i] == a && Tied(keys, q, a, p)
    case NoEligibleKey => forall i | 0 <= i < |q.algorithms| :: NoneEligible(keys, q, q.algorithms[i])
    case FindFailed => false
  }

  /** The specification admits one outcome, so the order of the repository cannot decide which key is used. */
  lemma ChoiceIsUnique(keys: multiset<Key>, q: Request, o: Outcome, o': Outcome)
    requires IsChoice(keys, q, o) && IsChoice(keys, q, o')
    ensures o == o'
  {
    if !o.NoEligibleKey? && !o'.NoEligibleKey? {
      var i: nat :| FirstUsable(keys, q, i) && q.algorithms[i] == o.algorithm;
      var j: nat :| FirstUsable(keys, q, j) && q.algorithms[j] == o'.algorithm;
      assert i == j;
    }
  }

  // ----- stable sort by descending priority

  ghost predicate Descending(s: seq<Key>) {
    forall i, j | 0 <= i < j < |s| :: s[i].priority >= s[j].priority
  }

  /** Where the last element of `s[..n] + [x]` goes when `s[..n]` is sorted: after its equals. */
  function InsertLast(s: seq<Key>, x: Key): seq<Key> {
    if s != [] && s[|s| - 1].priority < x.priority
    then InsertLast(s[..|s| - 1], x) + [s[|s| - 1]]
    else s + [x]
  }

  function StableSort(s: seq<Key>): seq<Key> {
    if s == [] then [] else InsertLast(StableSort(s[..|s| - 1]), s[|s| - 1])
  }

  lemma {:induction false} InsertLastCounts(s: seq<Key>, x: Key)
    ensures multiset(InsertLast(s, x)) == multiset(s) + multiset{x}
  {
    if s != [] && s[|s| - 1].priority < x.priority {
      var front, last := s[..|s| - 1], s[|s| - 1];
      InsertLastCounts(front, x);
      assert s == front + [last];
    }
  }

  lemma {:induction false} InsertLastSorts(s: seq<Key>, x: Key)
    requires Descending(s)
    ensures Descending(InsertLast(s, x)) && multiset(InsertLast(s, x)) == multiset(s) + multiset{x}
  {
    InsertLastCounts(s, x);
    if s != [] && s[|s| - 1].priority < x.priority {
      var front, last := s[..|s| - 1], s[|s| - 1];
      InsertLastSorts(front, x);
      ElementsOfInserted(front, x, last.priority);
    }
  }

  lemma ElementsOfInserted(s: seq<Key>, x: Key, p: int)
    requires x.priority >= p && forall i | 0 <= i < |s| :: s[i].priority >= p
    ensures forall i | 0 <= i < |InsertLast(s, x)| :: InsertLast(s, x)[i].priority >= p
  {
    InsertLastCounts(s, x);
    hide InsertLast;
    var r := InsertLast(s, x);
    forall i | 0 <= i < |r| ensures r[i].priority >= p {
      assert r[i] in multiset(r);
      assert r[i] == x || r[i] in multiset(s);
    }
  }

  lemma {:induction false} InsertLastIsStable(s: seq<Key>, x: Key, p: int)
    ensures Filter(InsertLast(s, x), OfPriority(p)) == Filter(s + [x], OfPriority(p))
  {
    var n := |s| - 1;
    if s != [] && s[n].priority < x.priority {
      var front, last := s[..n], s[n];
      InsertLastIsStable(front, x, p);
      assert s == front + [last];
      FilterAppend(InsertLast(front, x), last, OfPriority(p));
      FilterAppend(front, x, OfPriority(p));
      FilterAppend(front, last, OfPriority(p));
      FilterAppend(s, x, OfPriority(p));
    }
  }

  function OfPriority(p: int): Key -> bool { (k: Key) => k.priority == p }

  lemma FilterAppend(s: seq<Key>, x: Key, keep: Key -> bool)
    ensures Filter(s + [x], keep) == Filter(s, keep) + if keep(x) then [x] else []
  {
    assert (s + [x])[..|s|] == s;
  }

  /** The sort is a permutation, orders by descending priority and keeps equal priorities in order. */
  lemma {:induction false} StableSortProperties(s: seq<Key>)
    ensures Descending(StableSort(s)) && multiset(StableSort(s)) == multiset(s)
    ensures forall p :: Filter(StableSort(s), OfPriority(p)) == Filter(s, OfPriority(p))
  {
    if s != [] {
      hide InsertLast, Filter;
      var front, last := s[..|s| - 1], s[|s| - 1];
      StableSortProperties(front);
      InsertLastSorts(StableSort(front), last);
      assert s == front + [last];
      forall p
        ensures Filter(StableSort(s), OfPriority(p)) == Filter(s, OfPriority(p))
      {
        InsertLastIsStable(StableSort(front), last, p);
        FilterAppend(StableSort(front), last, OfPriority(p));
        FilterAppend(front, last, OfPriority(p));
      }
    }
  }

  /** The in-place sort of the candidates. Go's library sort is stable, and so is this insertion sort. */
  method SortByPriority(candidates: Slice)
    requires candidates.Valid()
    modifies candidates.data
    ensures candidates.Contents() == StableSort(old(candidates.Contents()))
  {
    var data := candidates.data;
    ghost var before := candidates.Contents();
    for i := 0 to candidates.len
      invariant data[..i] == StableSort(before[..i])
      invariant forall j | i <= j < candidates.len :: data[j] == before[j]
    {
      assert before[..i + 1][..i] == before[..i];
      Sink(data, i);
    }
    assert before[..candidates.len] == before;
  }

  lemma {:induction false} InsertLastAt(s: seq<Key>, x: Key, j: nat)
    requires j <= |s| && (j == 0 || s[j - 1].priority >= x.priority)
    requires forall m | j <= m < |s| :: s[m].priority < x.priority
    ensures InsertLast(s, x) == s[..j] + [x] + s[j..]
  {
    if j < |s| {
      var front := s[..|s| - 1];
      InsertLastAt(front, x, j);
      assert front[..j] == s[..j] && s[j..] == front[j..] + [s[|s| - 1]];
    }
  }

  /** The element at `i` has been swapped left to `j`, past smaller priorities, and nothing else has moved. */
  ghost predicate Sunk(now: seq<Key>, before: seq<Key>, i: nat, j: nat) {
    && j <= i < |before| == |now| && now[j] == before[i]
    && (forall m | 0 <= m < j :: now[m] == before[m])
    && (forall m | j <= m < i :: now[m + 1] == before[m] && before[m].priority < before[i].priority)
    && (forall m | i < m < |before| :: now[m] == before[m])
  }

  lemma SinkStep(now: seq<Key>, before: seq<Key>, i: nat, j: nat)
    requires Sunk(now, before, i, j) && j > 0 && now[j - 1].priority < now[j].priority
    ensures Sunk(now[j - 1 := now[j]][j := now[j - 1]], before, i, j - 1)
  {
  }

  lemma SunkIsInserted(now: seq<Key>, before: seq<Key>, i: nat, j: nat)
    requires Sunk(now, before, i, j) && (j == 0 || now[j - 1].priority >= now[j].priority)
    ensures now[..i + 1] == InsertLast(before[..i], before[i])
  {
    InsertLastAt(before[..i], before[i], j);
    assert now[..i + 1] == before[..j] + [before[i]] + before[j..i];
  }

  /** One insertion: the element at `i` is swapped left past the smaller priorities. */
  method Sink(data: array<Key>, i: nat)
    requires i < data.Length
    modifies data
    ensures data[..i + 1] == InsertLast(old(data[..i]), old(data[i]))
    ensures forall m | i < m < data.Length :: data[m] == old(data[m])
  {
    hide InsertLast, Sunk;
    var j := i;
    ghost var before := data[..];
    SunkNowhere(before, i);
    while j > 0 && data[j - 1].priority < data[j].priority
      invariant 0 <= j <= i && Sunk(data[..], before, i, j)
    {
      ghost var now := data[..];
      SinkStep(now, before, i, j);
      data[j - 1], data[j] := data[j], data[j - 1];
      assert data[..] == now[j - 1 := now[j]][j := now[j - 1]];
      j := j - 1;
    }
    SunkIsInserted(data[..], before, i, j);
    SunkLeavesRest(data[..], before, i, j);
    assert data[..][..i + 1] == data[..i + 1] && before[..i] == old(data[..i]);
  }

  lemma SunkNowhere(before: seq<Key>, i: nat)
    requires i < |before|
    ensures Sunk(before, before, i, i)
  {
  }

  lemma SunkLeavesRest(now: seq<Key>, before: seq<Key>, i: nat, j: nat)
    requires Sunk(now, before, i, j)
    ensures |now| == |before| && forall m | i < m < |before| :: now[m] == before[m]
  {
  }

  // ----- selectKey

  /** `matches` holds the eligible keys of the repository, as many times as the repository does. */
  ghost predicate AreMatches(keys: multiset<Key>, q: Request, a: string, matches: seq<Key>) {
    && Descending(matches)
    && forall k :: multiset(matches)[k] == if Eligible(k, q, a) then keys[k] else 0
  }

  lemma MatchIndex(keys: multiset<Key>, q: Request, a: string, matches: seq<Key>, k: Key) returns (i: nat)
    requires AreMatches(keys, q, a, matches) && k in keys && Eligible(k, q, a)
    ensures i < |matches| && matches[i] == k
  {
    assert k in multiset(matches);
    i :| i < |matches| && matches[i] == k;
  }

  lemma MatchEligible(keys: multiset<Key>, q: Request, a: string, matches: seq<Key>, i: nat)
    requires AreMatches(keys, q, a, matches) && i < |matches|
    ensures matches[i] in keys && Eligible(matches[i], q, a)
  {
    assert matches[i] in multiset(matches);
  }

  /** The first match is the answer unless the second one has its priority. */
  lemma FirstMatchWins(keys: multiset<Key>, q: Request, a: string, matches: seq<Key>)
    requires AreMatches(keys, q, a, matches) && matches != []
    requires |matches| == 1 || matches[0].priority != matches[1].priority
    ensures Outranks(keys, q, a, matches[0])
  {
    var first := matches[0];
    MatchEligible(keys, q, a, matches, 0);
    hide Eligible;
    assert keys[first] == 1 by {
      assert first !in matches[1..];
      assert matches == [first] + matches[1..];
    }
    forall k | k in keys && k != first && Eligible(k, q, a)
      ensures k.priority < first.priority
    {
      var i := MatchIndex(keys, q, a, matches, k);
      assert matches[1].priority >= matches[i].priority;
    }
  }

  lemma FirstMatchTies(keys: multiset<Key>, q: Request, a: string, matches: seq<Key>)
    requires AreMatches(keys, q, a, matches) && |matches| > 1 && matches[0].priority == matches[1].priority
    ensures Tied(keys, q, a, matches[0].priority)
  {
    var first, second := matches[0], matches[1];
    MatchEligible(keys, q, a, matches, 0);
    MatchEligible(keys, q, a, matches, 1);
    hide Eligible;
    forall k | k in keys && Eligible(k, q, a)
      ensures k.priority <= first.priority
    {
      var i := MatchIndex(keys, q, a, matches, k);
      assert matches[0].priority >= matches[i].priority;
    }
    if first == second {
      assert matches == [first, first] + matches[2..];
      assert multiset(matches)[first] > 1;
    }
  }

  lemma NoMatches(keys: multiset<Key>, q: Request, a: string, matches: seq<Key>)
    requires AreMatches(keys, q, a, matches)
    ensures NoneEligible(keys, q, a) <==> matches == []
  {
    hide Eligible;
    if matches == [] {
      forall k | k in keys ensures !Eligible(k, q, a) { assert multiset(matches)[k] == 0; }
    } else {
      MatchEligible(keys, q, a, matches, 0);
    }
  }

  /** A filter of a sorted sequence is sorted. */
  lemma {:induction false} FilterDescending(s: seq<Key>, keep: Key -> bool)
    requires Descending(s)
    ensures Descending(Filter(s, keep))
    ensures forall i | 0 <= i < |Filter(s, keep)| :: Filter(s, keep)[i] in s
  {
    if s != [] {
      var front, last := s[..|s| - 1], s[|s| - 1];
      FilterDescending(front, keep);
      forall k | k in front ensures k.priority >= last.priority { }
    }
  }

  /** The matches of a sorted candidate list are the eligible keys of the repository, best first. */
  lemma MatchesAreEligible(contents: seq<Key>, q: Request, a: string, eligible: Selector, matches: seq<Key>)
    requires forall k :: eligible.Accepts(k) <==> Eligible(k, q, a)
    requires matches == Filter(StableSort(Filter(contents, Accepted(q.selector))), Accepted(eligible))
    ensures AreMatches(multiset(contents), q, a, matches)
  {
    var accepted := Filter(contents, Accepted(q.selector));
    StableSortProperties(accepted);
    FilterDescending(StableSort(accepted), Accepted(eligible));
    forall k
      ensures multiset(matches)[k] == if Eligible(k, q, a) then multiset(contents)[k] else 0
    {
      FilterCount(StableSort(accepted), Accepted(eligible), k);
      FilterCount(contents, Accepted(q.selector), k);
    }
  }

  /** Building the eligibility selector with `And`, as the preference loop does. */
  method EligibleSelector(q: Request, algorithm: string) returns (eligible: Selector)
    ensures forall k :: eligible.Accepts(k) <==> Eligible(k, q, algorithm)
  {
    var use := USE_SIGNING;
    if q.operation == OP_ENCRYPT || q.operation == OP_DECRYPT {
      use := USE_ENCRYPTION;
    }
    var extra := [
      Some(WithoutStatus(STATUS_DISABLED)),
      Some(WithValidityAt(q.now)),
      Some(WithCapability(Capability(use, q.operation, algorithm)))];
    eligible := q.selector.And(extra);
    forall k
      ensures eligible.Accepts(k) == (
                && q.selector.Accepts(k) && k.status != STATUS_DISABLED && ValidAt(k, q.now)
                && Capable(k, Capability(use, q.operation, algorithm)))
    {
      assert extra[0].value(k) == (k.status != STATUS_DISABLED);
      assert extra[1].value(k) == ValidAt(k, q.now);
      assert extra[2].value(k) == Capable(k, Capability(use, q.operation, algorithm));
    }
    if q.operation == OP_SIGN || q.operation == OP_ENCRYPT {
      var passive := [Some(WithoutStatus(STATUS_PASSIVE))];
      ghost var general := eligible;
      eligible := eligible.And(passive);
      forall k
        ensures eligible.Accepts(k) <==> general.Accepts(k) && k.status != STATUS_PASSIVE
      {
        assert passive[0].value(k) == (k.status != STATUS_PASSIVE);
      }
    }
  }

  /** The inner loop of `selectKey`: the candidates that match, in order. */
  method Matching(candidates: Slice, eligible: Selector) returns (matches: seq<Key>)
    requires candidates.Valid()
    ensures matches == Filter(candidates.Contents(), Accepted(eligible))
  {
    matches := [];
    for i := 0 to candidates.len
      invariant matches == Filter(candidates.data[..i], Accepted(eligible))
    {
      var candidate := candidates.data[i];
      var accepted := eligible.Matches(candidate);
      assert candidates.data[..i + 1][..i] == candidates.data[..i];
      if accepted {
        matches := matches + [candidate];
      }
    }
  }

  /** `selectKey`. The repository keeps its contents; the outcome is the one the specification allows. */
  method SelectKey(repository: KeySet, contextDone: bool, q: Request) returns (o: Outcome)
    requires repository.Valid()
    ensures o.FindFailed? <==> contextDone
    ensures !contextDone ==> IsChoice(multiset(repository.Contents()), q, o)
  {
    hide Eligible, Filter, StableSort, NoneEligible, Outranks, Tied, AreMatches;
    var found := repository.Find(contextDone, q.selector);
    if found.Err? {
      return FindFailed;
    }
    var candidates := found.value;
    ghost var contents := repository.Contents();
    ghost var keys := multiset(contents);
    SortByPriority(candidates);
    ghost var sorted := candidates.Contents();
    for i := 0 to |q.algorithms|
      invariant candidates.Contents() == sorted
      invariant forall j | 0 <= j < i :: NoneEligible(keys, q, q.algorithms[j])
    {
      var algorithm := q.algorithms[i];
      var eligible := EligibleSelector(q, algorithm);
      var matches := Matching(candidates, eligible);
      MatchesAreEligible(contents, q, algorithm, eligible, matches);
      NoMatches(keys, q, algorithm, matches);
      if matches == [] {
        continue;
      }
      if |matches| > 1 && matches[0].priority == matches[1].priority {
        FirstMatchTies(keys, q, algorithm, matches);
        return TiedPriority(matches[0].priority, algorithm);
      }
      FirstMatchWins(keys, q, algorithm, matches);
      return Selected(matches[0], algorithm);
    }
    return NoEligibleKey;
  }
}
