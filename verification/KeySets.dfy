/** The in-memory key repository (keyset/keyset.go). */
module KeySets {
  import opened Wrappers
  import opened Keys

  datatype FindError = ContextDone

  /** The elements accepted by `keep`, in order. */
  function Filter(s: seq<Key>, keep: Key -> bool): seq<Key> {
    if s == [] then []
    else
      var rest := Filter(s[..|s| - 1], keep);
      if keep(s[|s| - 1]) then rest + [s[|s| - 1]] else rest
  }

  function Accepted(selector: Selector): Key -> bool { (k: Key) => selector.Accepts(k) }

  function Rejected(selector: Selector): Key -> bool { (k: Key) => !selector.Accepts(k) }

  /** A filter keeps every occurrence of an accepted key and none of a refused one. */
  lemma {:induction false} FilterCount(s: seq<Key>, keep: Key -> bool, k: Key)
    ensures multiset(Filter(s, keep))[k] == if keep(k) then multiset(s)[k] else 0
  {
    if s != [] {
      var n := |s| - 1;
      FilterCount(s[..n], keep, k);
      assert s == s[..n] + [s[n]];
    }
  }

  lemma FilterStep(s: seq<Key>, keep: Key -> bool, i: nat)
    requires i < |s|
    ensures Filter(s[..i + 1], keep) == Filter(s[..i], keep) + if keep(s[i]) then [s[i]] else []
  {
    assert s[..i + 1][..i] == s[..i];
  }

  /** A Go slice of keys: the first `len` cells of a backing array whose length is the capacity. */
  datatype Slice = Slice(data: array<Key>, len: nat) {
    predicate Valid() { len <= data.Length }

    ghost function Contents(): seq<Key>
      requires Valid()
      reads data
    {
      data[..len]
    }
  }

  class KeySet {
    var keys: Slice

    predicate Valid()
      reads this
    {
      keys.Valid()
    }

    ghost function Contents(): seq<Key>
      requires Valid()
      reads this, keys.data
    {
      keys.Contents()
    }

    constructor ()
      ensures Valid() && fresh(keys.data) && Contents() == []
    {
      var data := new Key[0];
      keys := Slice(data, 0);
    }

    /** `Find`: a new slice holding the accepted keys in repository order; the set is untouched. */
    method Find(contextDone: bool, selector: Selector) returns (r: Result<Slice, FindError>)
      requires Valid()
      ensures r.Err? <==> contextDone
      ensures r.Ok? ==> r.value.Valid() && fresh(r.value.data)
      ensures r.Ok? ==> r.value.Contents() == Filter(Contents(), Accepted(selector))
    {
      if contextDone {
        return Err(ContextDone);
      }
      var data := new Key[keys.len];
      var n := 0;
      for i := 0 to keys.len
        invariant n <= i
        invariant data[..n] == Filter(keys.data[..i], Accepted(selector))
      {
        var candidate := keys.data[i];
        var matches := selector.Matches(candidate);
        assert keys.data[..i + 1][..i] == keys.data[..i];
        if matches {
          data[n] := candidate;
          n := n + 1;
        }
      }
      r := Ok(Slice(data, n));
    }

    /** `Replace`: compact the rejected keys to the front of the shared backing array, then append the
        new keys, moving to a larger array only when they do not fit.

        The caller's slice is never the set's own array, because the set hands none out. Slices
        returned by `Find` and the caller's slice stay as they were: neither is in `modifies`. */
    method Replace(contextDone: bool, added: Slice, selector: Selector) returns (done: bool)
      requires Valid() && added.Valid() && added.data != keys.data
      modifies this, keys.data
      ensures Valid() && (keys.data == old(keys.data) || fresh(keys.data))
      ensures done == !contextDone
      ensures contextDone ==> keys == old(keys) && Contents() == old(Contents())
      ensures !contextDone ==> Contents() == Filter(old(Contents()), Rejected(selector)) + added.Contents()
    {
      if contextDone {
        return false;
      }
      ghost var before := Contents();
      var kept := Compact(keys, selector);
      keys := Append(kept, added);
      assert Contents() == Filter(before, Rejected(selector)) + added.Contents();
      return true;
    }
  }

  /** The compaction loop of `Replace`: keep the rejected keys, in order, in the same backing array.
      A cell is written only after it has been read, so the unread cells still hold the old keys. */
  method Compact(keys: Slice, selector: Selector) returns (kept: Slice)
    requires keys.Valid()
    modifies keys.data
    ensures kept.data == keys.data && kept.len <= keys.len
    ensures kept.Contents() == Filter(old(keys.Contents()), Rejected(selector))
    ensures forall j | keys.len <= j < keys.data.Length :: keys.data[j] == old(keys.data[j])
  {
    ghost var before := keys.Contents();
    var data, n := keys.data, 0;
    for i := 0 to keys.len
      invariant n <= i
      invariant data[..n] == Filter(before[..i], Rejected(selector))
      invariant forall j | i <= j < data.Length :: data[j] == old(data[j])
    {
      var candidate := data[i];
      var matches := selector.Matches(candidate);
      FilterStep(before, Rejected(selector), i);
      if !matches {
        data[n] := candidate;
        n := n + 1;
      }
    }
    assert before[..keys.len] == before;
    kept := Slice(data, n);
  }

  /** Go's `append(s, added...)`: fill the spare capacity of `s`, or move to a larger array. */
  method Append(s: Slice, added: Slice) returns (r: Slice)
    requires s.Valid() && added.Valid() && s.data != added.data
    modifies s.data
    ensures r.Valid() && (r.data == s.data || fresh(r.data))
    ensures r.Contents() == old(s.Contents()) + added.Contents()
  {
    var n := s.len;
    ghost var before := s.Contents();
    var data := s.data;
    if n + added.len > data.Length {
      data := Grown(data, n, n + added.len);
    }
    assert data[..n] == before;
    for i := 0 to added.len
      invariant data[..n + i] == before + added.data[..i]
    {
      data[n + i] := added.data[i];
      assert data[..n + i + 1] == data[..n + i] + [added.data[i]];
    }
    r := Slice(data, n + added.len);
  }

  /** Reallocation by `append`: a new array of at least the needed size with the same first cells. */
  method Grown(data: array<Key>, n: nat, needed: nat) returns (larger: array<Key>)
    requires n <= data.Length && n <= needed
    ensures fresh(larger) && larger.Length >= needed && larger[..n] == data[..n]
  {
    var size := if needed < 2 * data.Length then 2 * data.Length else needed;
    larger := new Key[size];
    for i := 0 to n
      invariant larger[..i] == data[..i]
    {
      larger[i] := data[i];
    }
  }

  /** A slice found before a `Replace` still holds what was found, and so does the caller's slice. */
  method FindThenReplace(repository: KeySet, wanted: Selector, added: Slice, replaced: Selector) returns (found: Slice)
    requires repository.Valid() && added.Valid() && added.data != repository.keys.data
    modifies repository, repository.keys.data
    ensures found.Valid() && found.Contents() == Filter(old(repository.Contents()), Accepted(wanted))
    ensures added.Contents() == old(added.Contents())
    ensures repository.Valid()
    ensures repository.Contents() == Filter(old(repository.Contents()), Rejected(replaced)) + added.Contents()
  {
    var r := repository.Find(false, wanted);
    found := r.value;
    var _ := repository.Replace(false, added, replaced);
  }
}
