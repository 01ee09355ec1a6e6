/** The five qsort comparators of util.c and the strcmp they fall back on. */
module Compare {
  import opened LsTypes

  /** Byte-wise lexicographic order, stated without recursion: a is a proper
      prefix of b, or they first differ at a position where a's byte is
      smaller. */
  ghost predicate LexLess(a: Name, b: Name) {
    || (|a| < |b| && a == b[..|a|])
    || exists k :: 0 <= k < |a| && k < |b| && a[..k] == b[..k] && a[k] < b[k]
  }

  /** A smaller first byte decides the order. */
  lemma LexLessFirstByte(a: Name, b: Name)
    requires |a| > 0 && |b| > 0 && a[0] < b[0]
    ensures LexLess(a, b) && !LexLess(b, a)
  {
    assert a[..0] == b[..0];
    forall k | 0 < k <= |a| && k <= |b|
      ensures a[..k][0] == a[0] && b[..k][0] == b[0]
    {}
  }

  /** With equal first bytes, order on the wholes gives order on the tails. */
  lemma LexLessDropHead(a: Name, b: Name)
    requires |a| > 0 && |b| > 0 && a[0] == b[0] && LexLess(a, b)
    ensures LexLess(a[1..], b[1..])
  {
    var a', b' := a[1..], b[1..];
    if |a| < |b| && a == b[..|a|] {
      assert a' == b'[..|a'|];
    } else {
      var k :| 0 <= k < |a| && k < |b| && a[..k] == b[..k] && a[k] < b[k];
      assert k > 0;
      assert a'[..k-1] == a[1..k] == b[1..k] == b'[..k-1];
      assert a'[k-1] < b'[k-1];
    }
  }

  /** With equal first bytes, order on the tails gives order on the wholes. */
  lemma LexLessAddHead(a: Name, b: Name)
    requires |a| > 0 && |b| > 0 && a[0] == b[0] && LexLess(a[1..], b[1..])
    ensures LexLess(a, b)
  {
    var a', b' := a[1..], b[1..];
    if |a'| < |b'| && a' == b'[..|a'|] {
      assert a == [a[0]] + a' && b[..|a|] == [b[0]] + b'[..|a'|];
    } else {
      var k :| 0 <= k < |a'| && k < |b'| && a'[..k] == b'[..k] && a'[k] < b'[k];
      assert a[..k+1] == [a[0]] + a'[..k] && b[..k+1] == [b[0]] + b'[..k];
      assert a[k+1] < b[k+1];
    }
  }

  lemma LexLessHeads(a: Name, b: Name)
    requires |a| > 0 && |b| > 0
    ensures a[0] < b[0] ==> LexLess(a, b) && !LexLess(b, a)
    ensures a[0] == b[0] ==> (LexLess(a, b) <==> LexLess(a[1..], b[1..]))
  {
    if a[0] < b[0] {
      LexLessFirstByte(a, b);
    }
    if a[0] == b[0] {
      if LexLess(a, b) {
        LexLessDropHead(a, b);
      }
      if LexLess(a[1..], b[1..]) {
        LexLessAddHead(a, b);
      }
    }
  }

  /** strcmp(3) on unsigned bytes, reduced to its sign.  The terminating NUL
      compares below every byte of a name, so a proper prefix comes first. */
  function Strcmp(a: Name, b: Name): (r: int)
    ensures -1 <= r <= 1
    ensures r == 0 <==> a == b
    ensures r < 0 <==> LexLess(a, b)
    ensures r > 0 <==> LexLess(b, a)
    decreases |a|
  {
    if a == [] && b == [] then 0
    else if a == [] then (assert b[..0] == a; -1)
    else if b == [] then (assert a[..0] == b; 1)
    else if a[0] < b[0] then LexLessHeads(a, b); -1
    else if a[0] > b[0] then LexLessHeads(b, a); 1
    else
      LexLessHeads(a, b);
      LexLessHeads(b, a);
      assert a == [a[0]] + a[1..] && b == [b[0]] + b[1..];
      Strcmp(a[1..], b[1..])
  }

  lemma {:induction false} StrcmpTransitive(a: Name, b: Name, c: Name)
    requires Strcmp(a, b) <= 0 && Strcmp(b, c) <= 0
    ensures Strcmp(a, c) <= 0
    decreases |a|
  {
    if a != [] && b != [] && c != [] && a[0] == b[0] && b[0] == c[0] {
      StrcmpTransitive(a[1..], b[1..], c[1..]);
    }
  }

  /** The primary key of a comparator: which field it sorts on. */
  datatype SortKey = ByName | BySize | ByMTime | ByATime | ByCTime

  /** The shape shared by compare_size and the three compare_time*
      functions: the larger value first, equal values by name. */
  function LargerFirstThenName(x: int, y: int, na: Name, nb: Name): (r: int)
    ensures -1 <= r <= 1
    ensures r < 0 <==> x > y || (x == y && LexLess(na, nb))
    ensures r == 0 <==> x == y && na == nb
    ensures r > 0 <==> x < y || (x == y && LexLess(nb, na))
  {
    if x > y then -1
    else if x < y then 1
    else Strcmp(na, nb)
  }

  /** compare_names: byte-wise order of the names. */
  function CompareNames(a: FileEntry, b: FileEntry): (r: int)
    ensures r < 0 <==> LexLess(a.name, b.name)
    ensures r == 0 <==> a.name == b.name
  {
    Strcmp(a.name, b.name)
  }

  /** compare_size: larger st_size first, equal sizes by name. */
  function CompareSize(a: FileEntry, b: FileEntry): (r: int)
    ensures r < 0 <==> a.sb.size > b.sb.size || (a.sb.size == b.sb.size && LexLess(a.name, b.name))
    ensures r == 0 <==> a.sb.size == b.sb.size && a.name == b.name
  {
    LargerFirstThenName(a.sb.size, b.sb.size, a.name, b.name)
  }

  /** compare_timem: more recent st_mtime first, equal times by name. */
  function CompareTimeM(a: FileEntry, b: FileEntry): (r: int)
    ensures r < 0 <==> a.sb.mtime > b.sb.mtime || (a.sb.mtime == b.sb.mtime && LexLess(a.name, b.name))
    ensures r == 0 <==> a.sb.mtime == b.sb.mtime && a.name == b.name
  {
    LargerFirstThenName(a.sb.mtime, b.sb.mtime, a.name, b.name)
  }

  /** compare_timea: more recent st_atime first, equal times by name. */
  function CompareTimeA(a: FileEntry, b: FileEntry): (r: int)
    ensures r < 0 <==> a.sb.atime > b.sb.atime || (a.sb.atime == b.sb.atime && LexLess(a.name, b.name))
    ensures r == 0 <==> a.sb.atime == b.sb.atime && a.name == b.name
  {
    LargerFirstThenName(a.sb.atime, b.sb.atime, a.name, b.name)
  }

  /** compare_timec: more recent st_ctime first, equal times by name. */
  function CompareTimeC(a: FileEntry, b: FileEntry): (r: int)
    ensures r < 0 <==> a.sb.ctime > b.sb.ctime || (a.sb.ctime == b.sb.ctime && LexLess(a.name, b.name))
    ensures r == 0 <==> a.sb.ctime == b.sb.ctime && a.name == b.name
  {
    LargerFirstThenName(a.sb.ctime, b.sb.ctime, a.name, b.name)
  }

  /** The comparator qsort is handed for a key. */
  function Comparator(key: SortKey, a: FileEntry, b: FileEntry): int {
    match key
    case ByName => CompareNames(a, b)
    case BySize => CompareSize(a, b)
    case ByMTime => CompareTimeM(a, b)
    case ByATime => CompareTimeA(a, b)
    case ByCTime => CompareTimeC(a, b)
  }

  /** The field a non-name key sorts on, larger first. */
  function KeyValue(key: SortKey, sb: Stat): int {
    match key
    case ByName => 0
    case BySize => sb.size
    case ByMTime => sb.mtime
    case ByATime => sb.atime
    case ByCTime => sb.ctime
  }

  /** The comparator choice of sort_entries and ls_directory: time (atime
      over ctime over mtime) before size before name. */
  function ChooseKey(o: Options): (key: SortKey)
    ensures key == ByATime <==> o.sortTime && o.useAtime
    ensures key == ByCTime <==> o.sortTime && !o.useAtime && o.useCtime
    ensures key == ByMTime <==> o.sortTime && !o.useAtime && !o.useCtime
    ensures key == BySize <==> !o.sortTime && o.sortSize
    ensures key == ByName <==> !o.sortTime && !o.sortSize
  {
    if o.sortTime then
      if o.useAtime then ByATime else if o.useCtime then ByCTime else ByMTime
    else if o.sortSize then BySize
    else ByName
  }

  /** Every comparator orders by its key value (larger first) and then by
      name; 0 means equal key value and equal name. */
  lemma ComparatorMeaning(key: SortKey, a: FileEntry, b: FileEntry)
    ensures -1 <= Comparator(key, a, b) <= 1
    ensures Comparator(key, a, b) < 0 <==>
      KeyValue(key, a.sb) > KeyValue(key, b.sb) ||
      (KeyValue(key, a.sb) == KeyValue(key, b.sb) && LexLess(a.name, b.name))
    ensures Comparator(key, a, b) == 0 <==>
      KeyValue(key, a.sb) == KeyValue(key, b.sb) && a.name == b.name
  {
    var _ := Strcmp(a.name, b.name);
  }

  /** sign(cmp(a, b)) == -sign(cmp(b, a)) for all five comparators. */
  lemma ComparatorAntisymmetric(key: SortKey, a: FileEntry, b: FileEntry)
    ensures Comparator(key, a, b) == -Comparator(key, b, a)
  {
    var _ := Strcmp(a.name, b.name);
    var _ := Strcmp(b.name, a.name);
    ComparatorMeaning(key, a, b);
    ComparatorMeaning(key, b, a);
  }

  lemma ComparatorTransitive(key: SortKey, a: FileEntry, b: FileEntry, c: FileEntry)
    requires Comparator(key, a, b) <= 0 && Comparator(key, b, c) <= 0
    ensures Comparator(key, a, c) <= 0
  {
    ComparatorMeaning(key, a, b);
    ComparatorMeaning(key, b, c);
    ComparatorMeaning(key, a, c);
    var x, y, z := KeyValue(key, a.sb), KeyValue(key, b.sb), KeyValue(key, c.sb);
    if x == y && y == z {
      StrcmpTransitive(a.name, b.name, c.name);
    }
  }

  /** With distinct names no comparator returns 0, so every pair is strictly
      ordered one way. */
  lemma ComparatorStrictOnDistinctNames(key: SortKey, a: FileEntry, b: FileEntry)
    requires a.name != b.name
    ensures Comparator(key, a, b) != 0
    ensures Comparator(key, a, b) < 0 <==> Comparator(key, b, a) > 0
  {
    ComparatorMeaning(key, a, b);
    ComparatorAntisymmetric(key, a, b);
  }
}
