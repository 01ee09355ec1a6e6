/** reverse_entries, qsort and sort_entries of util.c. */
module Sorting {
  import opened LsTypes
  import opened Compare

  /** The order-inverted sequence: element k comes from position |s| - 1 - k. */
  function Reversed<T>(s: seq<T>): (r: seq<T>)
    ensures |r| == |s|
  {
    seq(|s|, k requires 0 <= k < |s| => s[|s| - 1 - k])
  }

  lemma ReversedAt<T>(s: seq<T>, k: nat)
    requires k < |s|
    ensures Reversed(s)[k] == s[|s| - 1 - k]
  {}

  lemma ReversedTwice<T>(s: seq<T>)
    ensures Reversed(Reversed(s)) == s
  {}

  /** count 0 or 1: reversing changes nothing. */
  lemma ReversedShort<T>(s: seq<T>)
    requires |s| <= 1
    ensures Reversed(s) == s
  {}

  lemma {:induction false} ReversedPermutation<T>(s: seq<T>)
    ensures multiset(Reversed(s)) == multiset(s)
  {
    if s != [] {
      ReversedPermutation(s[1..]);
      assert Reversed(s) == Reversed(s[1..]) + [s[0]];
      assert s == [s[0]] + s[1..];
    }
  }

  /** The swap through temp in reverse_entries. */
  method Swap(a: array<FileEntry>, i: nat, j: nat)
    requires i < a.Length && j < a.Length
    modifies a
    ensures a[i] == old(a[j]) && a[j] == old(a[i])
    ensures forall k :: 0 <= k < a.Length && k != i && k != j ==> a[k] == old(a[k])
  {
    var temp := a[i];
    a[i] := a[j];
    a[j] := temp;
  }

  /** reverse_entries: swaps slots i and j walking towards the middle. */
  method ReverseEntries(a: array<FileEntry>, count: nat)
    requires count <= a.Length
    modifies a
    ensures a[..count] == Reversed(old(a[..count]))
    ensures forall k :: 0 <= k < count ==> a[k] == old(a[count - 1 - k])
    ensures a[count..] == old(a[count..])
  {
    ghost var s := a[..];
    var i: int, j: int := 0, count - 1;
    while i < j
      invariant 0 <= i && j == count - 1 - i && i <= j + 1
      invariant forall k :: 0 <= k < i ==> a[k] == s[count - 1 - k]
      invariant forall k :: j < k < count ==> a[k] == s[count - 1 - k]
      invariant forall k :: i <= k <= j ==> a[k] == s[k]
      invariant forall k :: count <= k < a.Length ==> a[k] == s[k]
    {
      Swap(a, i, j);
      i, j := i + 1, j - 1;
    }
    assert forall k :: 0 <= k < count ==> a[k] == s[count - 1 - k];
    assert a[..count] == Reversed(s[..count]);
    assert a[count..] == s[count..];
  }

  /** The relation qsort establishes: no pair is out of comparator order. */
  ghost predicate Sorted(s: seq<FileEntry>, key: SortKey) {
    forall i, j :: 0 <= i < j < |s| ==> Comparator(key, s[i], s[j]) <= 0
  }

  /** Insertion of one entry into a sorted sequence. */
  function Insert(x: FileEntry, s: seq<FileEntry>, key: SortKey): seq<FileEntry> {
    if s == [] then [x]
    else if Comparator(key, x, s[0]) <= 0 then [x] + s
    else [s[0]] + Insert(x, s[1..], key)
  }

  /** A reference sorting function standing in for qsort's algorithm. */
  function SortBy(s: seq<FileEntry>, key: SortKey): seq<FileEntry> {
    if s == [] then [] else Insert(s[0], SortBy(s[1..], key), key)
  }

  lemma SortedCons(h: FileEntry, r: seq<FileEntry>, key: SortKey)
    requires Sorted(r, key)
    requires forall j :: 0 <= j < |r| ==> Comparator(key, h, r[j]) <= 0
    ensures Sorted([h] + r, key)
  {
    var s := [h] + r;
    forall a, b | 0 <= a < b < |s| ensures Comparator(key, s[a], s[b]) <= 0 {
      if a > 0 { assert s[a] == r[a - 1] && s[b] == r[b - 1]; } else { assert s[b] == r[b - 1]; }
    }
  }

  lemma {:induction false} InsertPermutation(x: FileEntry, s: seq<FileEntry>, key: SortKey)
    ensures multiset(Insert(x, s, key)) == multiset(s) + multiset{x}
  {
    if s != [] && Comparator(key, x, s[0]) > 0 {
      InsertPermutation(x, s[1..], key);
      assert s == [s[0]] + s[1..];
    }
  }

  lemma {:induction false} InsertMembers(x: FileEntry, s: seq<FileEntry>, key: SortKey, e: FileEntry)
    requires e in Insert(x, s, key)
    ensures e == x || e in s
  {
    if s != [] && Comparator(key, x, s[0]) > 0 {
      if e != s[0] {
        InsertMembers(x, s[1..], key, e);
      }
    }
  }

  lemma {:induction false} InsertCorrect(x: FileEntry, s: seq<FileEntry>, key: SortKey)
    requires Sorted(s, key)
    ensures multiset(Insert(x, s, key)) == multiset(s) + multiset{x}
    ensures Sorted(Insert(x, s, key), key)
  {
    InsertPermutation(x, s, key);
    if s == [] {
    } else if Comparator(key, x, s[0]) <= 0 {
      forall j | 0 <= j < |s| ensures Comparator(key, x, s[j]) <= 0 {
        if j > 0 { ComparatorTransitive(key, x, s[0], s[j]); }
      }
      SortedCons(x, s, key);
    } else {
      var t := s[1..];
      InsertCorrect(x, t, key);
      var r := Insert(x, t, key);
      ComparatorAntisymmetric(key, x, s[0]);
      forall j | 0 <= j < |r| ensures Comparator(key, s[0], r[j]) <= 0 {
        InsertMembers(x, t, key, r[j]);
        if r[j] != x {
          var m :| 0 <= m < |t| && t[m] == r[j];
          assert s[m + 1] == r[j];
        }
      }
      SortedCons(s[0], r, key);
    }
  }

  lemma {:induction false} SortByCorrect(s: seq<FileEntry>, key: SortKey)
    ensures multiset(SortBy(s, key)) == multiset(s)
    ensures Sorted(SortBy(s, key), key)
  {
    if s != [] {
      SortByCorrect(s[1..], key);
      InsertCorrect(s[0], SortBy(s[1..], key), key);
      assert s == [s[0]] + s[1..];
    }
  }

  lemma OccursOnce(s: seq<FileEntry>, a: nat)
    requires DistinctNames(s) && a < |s|
    ensures multiset(s)[s[a]] == 1
  {
    var v := s[..a] + s[a+1..];
    assert s == s[..a] + [s[a]] + s[a+1..];
    forall k | 0 <= k < |v| ensures v[k] != s[a] {
      if k < a { assert v[k] == s[k]; } else { assert v[k] == s[k + 1]; }
    }
    assert s[a] !in multiset(v);
    assert multiset(s) == multiset(v) + multiset{s[a]};
  }

  lemma OccursTwice(t: seq<FileEntry>, i: nat, j: nat)
    requires i < j < |t|
    ensures t[i] == t[j] ==> multiset(t)[t[i]] >= 2
  {
    if t[i] == t[j] {
      var u := t[..i] + t[i+1..];
      assert t == t[..i] + [t[i]] + t[i+1..];
      assert u[j - 1] == t[j];
      assert multiset(t) == multiset(u) + multiset{t[i]};
    }
  }

  lemma DistinctNamesOfPermutation(s: seq<FileEntry>, t: seq<FileEntry>)
    requires multiset(s) == multiset(t)
    requires DistinctNames(s)
    ensures DistinctNames(t)
  {
    forall i, j | 0 <= i < j < |t| ensures t[i].name != t[j].name {
      assert t[i] in multiset(s) && t[j] in multiset(s);
      var a :| 0 <= a < |s| && s[a] == t[i];
      var b :| 0 <= b < |s| && s[b] == t[j];
      OccursOnce(s, a);
      OccursTwice(t, i, j);
    }
  }

  lemma SortedTail(s: seq<FileEntry>, key: SortKey)
    requires Sorted(s, key) && s != []
    ensures Sorted(s[1..], key)
  {
    forall a, b | 0 <= a < b < |s| - 1 ensures Comparator(key, s[1..][a], s[1..][b]) <= 0 {
      assert s[1..][a] == s[a + 1] && s[1..][b] == s[b + 1];
    }
  }

  lemma DistinctNamesTail(s: seq<FileEntry>)
    requires DistinctNames(s) && s != []
    ensures DistinctNames(s[1..])
  {
    forall a, b | 0 <= a < b < |s| - 1 ensures s[1..][a].name != s[1..][b].name {
      assert s[1..][a] == s[a + 1] && s[1..][b] == s[b + 1];
    }
  }

  lemma SortedHeadsEqual(s: seq<FileEntry>, t: seq<FileEntry>, key: SortKey)
    requires multiset(s) == multiset(t)
    requires DistinctNames(s)
    requires Sorted(s, key) && Sorted(t, key)
    requires s != [] && t != []
    ensures s[0] == t[0]
  {
    assert s[0] in multiset(t) && t[0] in multiset(s);
    var i :| 0 <= i < |t| && t[i] == s[0];
    var j :| 0 <= j < |s| && s[j] == t[0];
    assert Comparator(key, s[0], t[0]) <= 0 by {
      if j == 0 { ComparatorMeaning(key, s[0], s[0]); }
    }
    assert Comparator(key, t[0], s[0]) <= 0 by {
      if i == 0 { ComparatorMeaning(key, t[0], t[0]); }
    }
    ComparatorAntisymmetric(key, s[0], t[0]);
    ComparatorMeaning(key, s[0], t[0]);
    assert j == 0;
  }

  lemma MultisetTails(s: seq<FileEntry>, t: seq<FileEntry>)
    requires multiset(s) == multiset(t) && s != [] && t != [] && s[0] == t[0]
    ensures multiset(s[1..]) == multiset(t[1..])
  {
    assert s == [s[0]] + s[1..] && t == [t[0]] + t[1..];
    assert multiset(s[1..]) == multiset(s) - multiset{s[0]};
    assert multiset(t[1..]) == multiset(t) - multiset{t[0]};
  }

  /** Entry names are distinct, so a sorted permutation is unique: whatever
      order qsort visits, its result equals SortBy. */
  lemma {:induction false} SortedUnique(s: seq<FileEntry>, t: seq<FileEntry>, key: SortKey)
    requires multiset(s) == multiset(t)
    requires DistinctNames(s)
    requires Sorted(s, key) && Sorted(t, key)
    ensures s == t
    decreases |s|
  {
    assert |s| == |multiset(s)| == |t|;
    if s != [] {
      SortedHeadsEqual(s, t, key);
      MultisetTails(s, t);
      SortedTail(s, key);
      SortedTail(t, key);
      DistinctNamesTail(s);
      SortedUnique(s[1..], t[1..], key);
      assert s == [s[0]] + s[1..] && t == [t[0]] + t[1..];
    }
  }

  /** qsort(entries, count, ...) with the comparator for key: leaves the
      first count slots a permutation of what they were, sorted; the
      algorithm itself is not modelled. */
  method QSort(a: array<FileEntry>, count: nat, key: SortKey)
    requires count <= a.Length
    modifies a
    ensures multiset(a[..count]) == multiset(old(a[..count]))
    ensures Sorted(a[..count], key)
    ensures a[count..] == old(a[count..])
  {
    var sorted := SortBy(a[..count], key);
    SortByCorrect(a[..count], key);
    assert |sorted| == count by { assert |multiset(sorted)| == |multiset(a[..count])|; }
    forall k | 0 <= k < count {
      a[k] := sorted[k];
    }
    assert a[..count] == sorted;
  }

  /** The order sort_entries leaves: untouched under -f; otherwise sorted by
      the chosen comparator and then reversed under -r. */
  function SortOrder(s: seq<FileEntry>, o: Options): seq<FileEntry> {
    if o.unsorted then s
    else
      var sorted := SortBy(s, ChooseKey(o));
      if o.reverse then Reversed(sorted) else sorted
  }

  /** Sorting permutes and never loses or duplicates an entry. */
  lemma SortOrderPermutation(s: seq<FileEntry>, o: Options)
    ensures multiset(SortOrder(s, o)) == multiset(s)
    ensures |SortOrder(s, o)| == |s|
  {
    SortByCorrect(s, ChooseKey(o));
    ReversedPermutation(SortBy(s, ChooseKey(o)));
    assert |multiset(SortOrder(s, o))| == |multiset(s)|;
  }

  /** -f leaves traversal order and ignores -r; otherwise the result, read
      backwards under -r, is sorted by the chosen comparator. */
  lemma SortOrderSorted(s: seq<FileEntry>, o: Options)
    ensures o.unsorted ==> SortOrder(s, o) == s
    ensures !o.unsorted ==>
      Sorted(if o.reverse then Reversed(SortOrder(s, o)) else SortOrder(s, o), ChooseKey(o))
  {
    SortByCorrect(s, ChooseKey(o));
    ReversedTwice(SortBy(s, ChooseKey(o)));
  }

  /** The reversal is applied after sorting: -r yields exactly the reverse of
      the order without -r. */
  lemma SortOrderReverse(s: seq<FileEntry>, o: Options)
    requires !o.unsorted
    ensures SortOrder(s, o.(reverse := true)) == Reversed(SortOrder(s, o.(reverse := false)))
  {}

  /** With distinct names the sorted order is the unique sorted permutation. */
  lemma SortOrderUnique(s: seq<FileEntry>, t: seq<FileEntry>, o: Options)
    requires DistinctNames(s) && !o.unsorted && !o.reverse
    requires multiset(t) == multiset(s) && Sorted(t, ChooseKey(o))
    ensures SortOrder(s, o) == t
  {
    SortByCorrect(s, ChooseKey(o));
    DistinctNamesOfPermutation(s, SortBy(s, ChooseKey(o)));
    SortedUnique(SortBy(s, ChooseKey(o)), t, ChooseKey(o));
  }

  /** Among entries with equal size or time, sorted order is name order. */
  lemma TiesBrokenByName(s: seq<FileEntry>, key: SortKey, i: nat, j: nat)
    requires Sorted(s, key) && i < j < |s|
    requires KeyValue(key, s[i].sb) == KeyValue(key, s[j].sb)
    ensures s[i].name == s[j].name || LexLess(s[i].name, s[j].name)
  {
    ComparatorMeaning(key, s[i], s[j]);
  }

  lemma SortThenReverse(before: seq<FileEntry>, sorted: seq<FileEntry>, after: seq<FileEntry>, o: Options)
    requires !o.unsorted
    requires multiset(sorted) == multiset(before) && Sorted(sorted, ChooseKey(o))
    requires after == if o.reverse then Reversed(sorted) else sorted
    ensures multiset(after) == multiset(before)
    ensures Sorted(if o.reverse then Reversed(after) else after, ChooseKey(o))
    ensures DistinctNames(before) ==> after == SortOrder(before, o)
  {
    ReversedTwice(sorted);
    ReversedPermutation(sorted);
    if DistinctNames(before) {
      SortOrderUnique(before, sorted, o.(reverse := false));
    }
  }

  /** sort_entries: qsort with the chosen comparator, then reverse_entries
      under -r; nothing at all under -f. */
  method SortEntries(a: array<FileEntry>, count: nat, o: Options)
    requires count <= a.Length
    modifies a
    ensures o.unsorted ==> a[..] == old(a[..])
    ensures multiset(a[..count]) == multiset(old(a[..count]))
    ensures !o.unsorted ==>
      Sorted(if o.reverse then Reversed(a[..count]) else a[..count], ChooseKey(o))
    ensures DistinctNames(old(a[..count])) ==> a[..count] == SortOrder(old(a[..count]), o)
    ensures a[count..] == old(a[count..])
  {
    if o.unsorted {
      return;
    }
    ghost var before := a[..count];
    QSort(a, count, ChooseKey(o));
    ghost var sorted := a[..count];
    if o.reverse {
      ReverseEntries(a, count);
    }
    SortThenReverse(before, sorted, a[..count], o);
  }
}
