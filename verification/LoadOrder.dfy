/** The concurrent `Replace` calls of `loadSources` (keystore/keystore.go) and what their order can decide. */
module LoadOrder {
  import opened Keys
  import opened KeySets
  import opened Selection

  /** A source whose load succeeded: its ID and the keys built from its candidates. */
  datatype Load = Load(source: string, keys: seq<Key>)

  function NotFrom(source: string): Key -> bool { (k: Key) => k.source != source }

  /** The effect of one goroutine's `Replace(keys, Select(WithSource(id)))` on the repository. */
  function Stored(repository: seq<Key>, load: Load): seq<Key> {
    Filter(repository, NotFrom(load.source)) + load.keys
  }

  /** This is the `Replace` of the key set, for the selector the store builds. */
  lemma StoredIsReplace(repository: seq<Key>, load: Load)
    ensures Filter(repository, Rejected(Select([WithSource(load.source)]))) + load.keys == Stored(repository, load)
  {
    var selector := Select([WithSource(load.source)]);
    forall k ensures Rejected(selector)(k) == NotFrom(load.source)(k) {
      assert selector.options[0](k) == (k.source == load.source);
    }
    FilterExtensional(repository, Rejected(selector), NotFrom(load.source));
  }

  lemma {:induction false} FilterExtensional(s: seq<Key>, f: Key -> bool, g: Key -> bool)
    requires forall k :: f(k) == g(k)
    ensures Filter(s, f) == Filter(s, g)
  {
    if s != [] { FilterExtensional(s[..|s| - 1], f, g); }
  }

  /** The repository after the `Replace` calls have run in the given order. The key set's lock makes each
      call atomic, so every interleaving of the goroutines is one such order. */
  function StoredAll(repository: seq<Key>, loads: seq<Load>): seq<Key> {
    if loads == [] then repository
    else Stored(StoredAll(repository, loads[..|loads| - 1]), loads[|loads| - 1])
  }

  /** `loadSources` runs over a map keyed by source ID. */
  ghost predicate DistinctSources(loads: seq<Load>) {
    forall i, j | 0 <= i < j < |loads| :: loads[i].source != loads[j].source
  }

  /** No load carries a key that names another load's source. */
  ghost predicate NoForeignKeys(loads: seq<Load>) {
    forall i, j, k | 0 <= i < |loads| && 0 <= j < |loads| && i != j && k in loads[i].keys ::
      k.source != loads[j].source
  }

  ghost predicate NamesSource(loads: seq<Load>, source: string) {
    exists i | 0 <= i < |loads| :: loads[i].source == source
  }

  /** How many copies of `k` the loads hold together. */
  function Copies(loads: seq<Load>, k: Key): nat {
    if loads == [] then 0
    else Copies(loads[..|loads| - 1], k) + multiset(loads[|loads| - 1].keys)[k]
  }

  lemma {:induction false} NoCopies(loads: seq<Load>, k: Key)
    requires forall i | 0 <= i < |loads| :: k !in loads[i].keys
    ensures Copies(loads, k) == 0
  {
    if loads != [] {
      NoCopies(loads[..|loads| - 1], k);
      assert k !in loads[|loads| - 1].keys;
    }
  }

  /** The final contents in closed form: the loaded keys, plus the old keys of sources not loaded. */
  lemma {:induction false} FinalContents(repository: seq<Key>, loads: seq<Load>, k: Key)
    requires DistinctSources(loads) && NoForeignKeys(loads)
    ensures multiset(StoredAll(repository, loads))[k]
         == Copies(loads, k) + if NamesSource(loads, k.source) then 0 else multiset(repository)[k]
  {
    if loads != [] {
      var n := |loads| - 1;
      var front, last := loads[..n], loads[n];
      FinalContents(repository, front, k);
      FilterCount(StoredAll(repository, front), NotFrom(last.source), k);
      if k.source == last.source {
        forall i | 0 <= i < n ensures k !in front[i].keys {
          assert front[i] == loads[i];
        }
        NoCopies(front, k);
        assert loads[n].source == k.source;
      } else {
        assert NamesSource(loads, k.source) <==> NamesSource(front, k.source) by {
          if NamesSource(loads, k.source) {
            var i :| 0 <= i < |loads| && loads[i].source == k.source;
            assert front[i].source == k.source;
          }
          if NamesSource(front, k.source) {
            var i :| 0 <= i < |front| && front[i].source == k.source;
            assert loads[i].source == k.source;
          }
        }
      }
    }
  }

  function Without(s: seq<Load>, j: nat): seq<Load>
    requires j < |s|
  {
    s[..j] + s[j + 1..]
  }

  lemma WithoutMultiset(s: seq<Load>, j: nat)
    requires j < |s|
    ensures multiset(s) == multiset(Without(s, j)) + multiset{s[j]}
  {
    assert s == s[..j] + [s[j]] + s[j + 1..];
  }

  /** `Copies` depends on which loads there are, not on their order. */
  lemma {:induction false} CopiesPermuted(a: seq<Load>, b: seq<Load>, k: Key)
    requires multiset(a) == multiset(b)
    ensures Copies(a, k) == Copies(b, k)
  {
    if a == [] {
      assert |multiset(b)| == 0;
    } else {
      var n := |a| - 1;
      assert a[n] in multiset(b);
      var j :| 0 <= j < |b| && b[j] == a[n];
      WithoutSame(a, b, j);
      CopiesPermuted(a[..n], Without(b, j), k);
      CopiesMove(b[..j], b[j], b[j + 1..], k);
      assert b == b[..j] + [b[j]] + b[j + 1..];
    }
  }

  lemma WithoutSame(a: seq<Load>, b: seq<Load>, j: nat)
    requires multiset(a) == multiset(b) && a != [] && j < |b| && b[j] == a[|a| - 1]
    ensures multiset(a[..|a| - 1]) == multiset(Without(b, j))
  {
    WithoutMultiset(a, |a| - 1);
    WithoutMultiset(b, j);
    assert Without(a, |a| - 1) == a[..|a| - 1];
    assert multiset(a) - multiset{b[j]} == multiset(Without(a, |a| - 1));
    assert multiset(b) - multiset{b[j]} == multiset(Without(b, j));
  }

  lemma {:induction false} CopiesMove(front: seq<Load>, x: Load, back: seq<Load>, k: Key)
    ensures Copies(front + [x] + back, k) == Copies(front + back, k) + multiset(x.keys)[k]
  {
    if back == [] {
      assert front + [x] + back == front + [x] && front + back == front;
      assert (front + [x])[..|front|] == front;
    } else {
      var n := |back| - 1;
      CopiesMove(front, x, back[..n], k);
      assert (front + [x] + back)[..|front| + 1 + n] == front + [x] + back[..n];
      assert (front + back)[..|front| + n] == front + back[..n];
    }
  }

  lemma PermutedNames(a: seq<Load>, b: seq<Load>, source: string)
    requires multiset(a) == multiset(b)
    ensures NamesSource(a, source) ==> NamesSource(b, source)
  {
    if NamesSource(a, source) {
      var i :| 0 <= i < |a| && a[i].source == source;
      assert a[i] in multiset(b);
    }
  }

  /** Distinctness and the absence of foreign keys do not depend on the order either. */
  lemma PermutedHypotheses(a: seq<Load>, b: seq<Load>)
    requires multiset(a) == multiset(b) && DistinctSources(a) && NoForeignKeys(a)
    ensures DistinctSources(b) && NoForeignKeys(b)
  {
    forall i, j | 0 <= i < j < |b| ensures b[i].source != b[j].source {
      PairSurvives(b, a, i, j);
    }
    forall i, j, k | 0 <= i < |b| && 0 <= j < |b| && i != j && k in b[i].keys
      ensures k.source != b[j].source
    {
      PairSurvives(b, a, if i < j then i else j, if i < j then j else i);
    }
  }

  /** Two positions of a sequence correspond to two different positions of any permutation of it. */
  lemma PairSurvives(a: seq<Load>, b: seq<Load>, i: nat, j: nat)
    requires multiset(a) == multiset(b) && i < j < |a|
    ensures exists m, n :: 0 <= m < |b| && 0 <= n < |b| && m != n && b[m] == a[i] && b[n] == a[j]
  {
    assert a[i] in multiset(b) && a[j] in multiset(b);
    var m :| 0 <= m < |b| && b[m] == a[i];
    WithoutMultiset(a, i);
    WithoutMultiset(b, m);
    assert Without(a, i)[j - 1] == a[j];
    assert a[j] in multiset(Without(a, i));
    assert a[j] in multiset(Without(b, m));
    var r :| 0 <= r < |Without(b, m)| && Without(b, m)[r] == a[j];
    var n := if r < m then r else r + 1;
    assert b[n] == a[j];
  }

  /** Load order never matters: every interleaving leaves the same keys, and a selection made on either
      result has the same outcome. */
  lemma OrderNeverMatters(repository: seq<Key>, a: seq<Load>, b: seq<Load>)
    requires multiset(a) == multiset(b) && DistinctSources(a) && NoForeignKeys(a)
    ensures multiset(StoredAll(repository, a)) == multiset(StoredAll(repository, b))
    ensures forall q, o, o' ::
      IsChoice(multiset(StoredAll(repository, a)), q, o) && IsChoice(multiset(StoredAll(repository, b)), q, o')
      ==> o == o'
  {
    PermutedHypotheses(a, b);
    var x, y := multiset(StoredAll(repository, a)), multiset(StoredAll(repository, b));
    forall k ensures x[k] == y[k] {
      FinalContents(repository, a, k);
      FinalContents(repository, b, k);
      CopiesPermuted(a, b, k);
      PermutedNames(a, b, k.source);
      PermutedNames(b, a, k.source);
    }
    assert x == y;
    forall q, o, o' | IsChoice(x, q, o) && IsChoice(y, q, o') ensures o == o' {
      ChoiceIsUnique(x, q, o, o');
    }
  }

  ghost predicate OrderIrrelevant(loads: seq<Load>) {
    forall repository, a, b | multiset(a) == multiset(loads) && multiset(b) == multiset(loads) ::
      multiset(StoredAll(repository, a)) == multiset(StoredAll(repository, b))
  }

  /** The hypothesis is exact: with distinct sources, the order is irrelevant if and only if no load
      carries a key naming another load's source. */
  lemma OrderIrrelevantExactly(loads: seq<Load>)
    requires DistinctSources(loads)
    ensures OrderIrrelevant(loads) <==> NoForeignKeys(loads)
  {
    if NoForeignKeys(loads) {
      forall repository, a, b | multiset(a) == multiset(loads) && multiset(b) == multiset(loads)
        ensures multiset(StoredAll(repository, a)) == multiset(StoredAll(repository, b))
      {
        OrderNeverMatters(repository, loads, a);
        OrderNeverMatters(repository, loads, b);
      }
    } else {
      var i, j, k :| 0 <= i < |loads| && 0 <= j < |loads| && i != j && k in loads[i].keys
                  && k.source == loads[j].source;
      ForeignKeyDecides(loads, i, j, k);
    }
  }

  /** The smallest example: source "a" delivers a key that names source "b", and "b" delivers none. */
  lemma ForeignKeyExample(k: Key)
    requires k.source == "b"
    ensures var x, y := Load("a", [k]), Load("b", []);
      StoredAll([], [y, x]) == [k] && StoredAll([], [x, y]) == []
  {
    var x, y := Load("a", [k]), Load("b", []);
    assert [y, x][..1] == [y] && [x, y][..1] == [x];
    assert StoredAll([], []) == [] && [y][..0] == [] && [x][..0] == [];
    assert Stored([], x) == [k] && Stored([], y) == [];
    assert StoredAll([], [x]) == [k] && StoredAll([], [y]) == [];
    assert [k][..0] == [] && Filter([k], NotFrom("b")) == [];
  }

  /** Two orders that differ only in which of the two conflicting loads is stored last. */
  lemma ForeignKeyDecides(loads: seq<Load>, i: nat, j: nat, k: Key)
    requires DistinctSources(loads) && i < |loads| && j < |loads| && i != j
    requires k in loads[i].keys && k.source == loads[j].source
    ensures !OrderIrrelevant(loads)
  {
    hide StoredAll;
    var x, y := loads[i], loads[j];
    var rest := BothLast(loads, i, j);
    LastTwo(rest, x, y, k);
    LastTwo(rest, y, x, k);
    assert multiset(x.keys)[k] > 0;
    var a, b := rest + [x] + [y], rest + [y] + [x];
    assert multiset(StoredAll([], a)) != multiset(StoredAll([], b)) by {
      assert multiset(StoredAll([], a))[k] != multiset(StoredAll([], b))[k];
    }
  }

  /** Any two loads can be the last two of a permutation, in either order. */
  lemma BothLast(loads: seq<Load>, i: nat, j: nat) returns (rest: seq<Load>)
    requires i < |loads| && j < |loads| && i != j
    ensures multiset(rest + [loads[i]] + [loads[j]]) == multiset(loads)
    ensures multiset(rest + [loads[j]] + [loads[i]]) == multiset(loads)
  {
    var low, high := if i < j then i else j, if i < j then j else i;
    var most := Without(loads, high);
    rest := Without(most, low);
    WithoutMultiset(loads, high);
    WithoutMultiset(most, low);
    assert most[low] == loads[low];
  }

  /** What the last two loads leave of a key. */
  lemma LastTwo(rest: seq<Load>, x: Load, y: Load, k: Key)
    ensures k.source == y.source ==>
      multiset(StoredAll([], rest + [x] + [y]))[k] == multiset(y.keys)[k]
    ensures k.source != y.source && k.source == x.source ==>
      multiset(StoredAll([], rest + [x] + [y]))[k] == multiset(x.keys)[k] + multiset(y.keys)[k]
  {
    var all := rest + [x] + [y];
    assert all[..|rest| + 1] == rest + [x] && (rest + [x])[..|rest|] == rest;
    var base := StoredAll([], rest);
    assert StoredAll([], rest + [x]) == Stored(base, x);
    assert StoredAll([], all) == Stored(Stored(base, x), y);
    FilterCount(Stored(base, x), NotFrom(y.source), k);
    FilterCount(base, NotFrom(x.source), k);
  }

  // ----- what one source delivered last

  /** The repository's keys of the source are these. */
  ghost predicate Holds(repository: multiset<Key>, source: string, keys: seq<Key>) {
    forall k: Key | k.source == source :: repository[k] == multiset(keys)[k]
  }

  /** Storing a load makes the repository hold it, whatever it held before. */
  lemma StoredHolds(repository: seq<Key>, source: string, keys: seq<Key>)
    ensures Holds(multiset(Stored(repository, Load(source, keys))), source, keys)
  {
    forall k: Key | k.source == source
      ensures multiset(Stored(repository, Load(source, keys)))[k] == multiset(keys)[k]
    {
      FilterCount(repository, NotFrom(source), k);
    }
  }

  /** It survives the stores of other sources, as long as they carry no key of this one. */
  lemma HoldsSurvives(repository: seq<Key>, load: Load, source: string, keys: seq<Key>)
    requires Holds(multiset(repository), source, keys) && load.source != source
    requires forall k | k in load.keys :: k.source != source
    ensures Holds(multiset(Stored(repository, load)), source, keys)
  {
    forall k: Key | k.source == source
      ensures multiset(Stored(repository, load))[k] == multiset(keys)[k]
    {
      FilterCount(repository, NotFrom(load.source), k);
      assert k !in load.keys;
    }
  }

  /** So a store holds what a source delivered last, whatever other sources have delivered before and since. */
  lemma {:induction false} LastDeliveryHolds(repository: seq<Key>, source: string, keys: seq<Key>, loads: seq<Load>)
    requires forall i | 0 <= i < |loads| ::
      loads[i].source != source && forall k | k in loads[i].keys :: k.source != source
    ensures Holds(multiset(StoredAll(Stored(repository, Load(source, keys)), loads)), source, keys)
  {
    if loads == [] {
      StoredHolds(repository, source, keys);
    } else {
      var front := loads[..|loads| - 1];
      assert forall i | 0 <= i < |front| :: front[i] == loads[i];
      LastDeliveryHolds(repository, source, keys, front);
      HoldsSurvives(StoredAll(Stored(repository, Load(source, keys)), front), loads[|loads| - 1], source, keys);
    }
  }
}
