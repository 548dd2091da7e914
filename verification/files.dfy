/**
 * Directory listings as data: entries with modification times, the
 * newest-file choice the scripts make, order-keeping filters, and the two
 * Python ways of splitting a file name into stem and extension.
 */
module Files {

  import opened Wrappers
  import opened Text

  /** A directory entry: a file name and its modification time (`st_mtime`). */
  datatype FileEntry = FileEntry(name: string, mtime: real)

  /**
   * Index of the newest entry whose name `matches`: the entry a descending
   * stable sort by mtime puts first, which is also the one
   * `max(..., key=mtime)` returns, i.e. the first of maximal mtime.
   */
  function NewestWhere(files: seq<FileEntry>, matches: string -> bool): (k: Option<nat>)
    ensures k.None? <==> forall j :: 0 <= j < |files| ==> !matches(files[j].name)
    ensures k.Some? ==> k.value < |files| && matches(files[k.value].name)
    ensures k.Some? ==> forall j :: 0 <= j < |files| && matches(files[j].name) ==> files[j].mtime <= files[k.value].mtime
    ensures k.Some? ==> forall j :: 0 <= j < k.value && matches(files[j].name) ==> files[j].mtime < files[k.value].mtime
    decreases |files|
  {
    if files == [] then None
    else
      var k := NewestWhere(files[..|files| - 1], matches);
      var last := files[|files| - 1];
      if !matches(last.name) then k
      else if k.None? || last.mtime > files[k.value].mtime then Some(|files| - 1)
      else k
  }

  /** `a` is `b` with some elements left out and the rest in their order. */
  predicate IsSubsequence<T(==)>(a: seq<T>, b: seq<T>)
    decreases |b|
  {
    if a == [] then true
    else if b == [] then false
    else if a[0] == b[0] then IsSubsequence(a[1..], b[1..])
    else IsSubsequence(a, b[1..])
  }

  /** The elements of `s` that satisfy `keep`, in their order. */
  function Filter<T(!new)>(s: seq<T>, keep: T -> bool): (r: seq<T>)
    ensures |r| <= |s|
    ensures forall x :: x in r <==> x in s && keep(x)
  {
    if |s| == 0 then []
    else if keep(s[0]) then [s[0]] + Filter(s[1..], keep)
    else Filter(s[1..], keep)
  }

  lemma {:induction false} FilterIsSubsequence<T(!new)>(s: seq<T>, keep: T -> bool)
    ensures IsSubsequence(Filter(s, keep), s)
  {
    if s != [] {
      FilterIsSubsequence(s[1..], keep);
      if !keep(s[0]) {
        SubsequenceWeaken(Filter(s[1..], keep), s[1..], s[0]);
      }
    }
  }

  lemma {:induction false} SubsequenceDropFirst<T>(a: seq<T>, b: seq<T>)
    requires a != [] && IsSubsequence(a, b)
    ensures IsSubsequence(a[1..], b)
    decreases |b|, 0
  {
    if a[0] == b[0] {
      SubsequenceWeaken(a[1..], b[1..], b[0]);
    } else {
      SubsequenceDropFirst(a, b[1..]);
      SubsequenceWeaken(a[1..], b[1..], b[0]);
    }
  }

  lemma {:induction false} SubsequenceWeaken<T>(a: seq<T>, b: seq<T>, x: T)
    requires IsSubsequence(a, b)
    ensures IsSubsequence(a, [x] + b)
    decreases |b|, 1
  {
    assert ([x] + b)[1..] == b;
    if a != [] && a[0] == x {
      SubsequenceDropFirst(a, b);
    }
  }

  /** Every element of a subsequence is an element of the whole. */
  lemma {:induction false} SubsequenceMembers<T>(a: seq<T>, b: seq<T>)
    requires IsSubsequence(a, b)
    ensures forall x :: x in a ==> x in b
    decreases |b|
  {
    if a != [] {
      if a[0] == b[0] {
        SubsequenceMembers(a[1..], b[1..]);
        assert a == [a[0]] + a[1..] && b == [b[0]] + b[1..];
      } else {
        SubsequenceMembers(a, b[1..]);
        assert b == [b[0]] + b[1..];
      }
    }
  }

  /** Index of the last occurrence of `c` in `s` (`s.rfind(c)`). */
  function LastIndexOf(s: string, c: char): (r: Option<nat>)
    ensures r.None? <==> c !in s
    ensures r.Some? ==> r.value < |s| && s[r.value] == c && c !in s[r.value + 1..]
    decreases |s|
  {
    if |s| == 0 then None
    else if s[|s| - 1] == c then Some(|s| - 1)
    else
      var r := LastIndexOf(s[..|s| - 1], c);
      assert s == s[..|s| - 1] + [s[|s| - 1]];
      r
  }

  /** `Path(name).stem`: the name without its last suffix. */
  function Stem(name: string): string {
    match LastIndexOf(name, '.')
    case Some(i) => if 0 < i < |name| - 1 then name[..i] else name
    case None => name
  }

  /** `Path(name).stem` drops exactly ".xlsx" from a non-hidden workbook name. */
  lemma StemOfXlsx(name: string)
    requires EndsWith(name, ".xlsx") && |name| > 5
    ensures Stem(name) == name[..|name| - 5]
  {
    var i := LastIndexOf(name, '.');
    assert name[|name| - 5] == '.';
    assert name[|name| - 4..] == "xlsx";
    assert '.' !in name[|name| - 4..];
    assert i == Some(|name| - 5);
  }

  /**
   * `os.path.splitext(name)` for a name without directory separators: the
   * extension starts at the last '.', provided some character other than
   * '.' precedes it; otherwise the extension is empty.
   */
  function SplitExt(name: string): (r: (string, string))
    ensures r.0 + r.1 == name
    ensures r.1 == [] || (r.1[0] == '.' && '.' !in r.1[1..])
  {
    match LastIndexOf(name, '.')
    case Some(i) =>
      if (exists j :: 0 <= j < i && name[j] != '.') then (name[..i], name[i..])
      else (name, [])
    case None => (name, [])
  }

  /** A subset is no larger than its superset. */
  lemma SubsetCard<T>(a: set<T>, b: set<T>)
    requires a <= b
    ensures |a| <= |b|
  {
    assert b == a + (b - a);
  }

  /** What `Path(dir).glob("*.xlsx")` matches (hidden names included). */
  predicate PathGlobXlsx(name: string) {
    EndsWith(name, ".xlsx")
  }

  /** What `glob.glob` with pattern "*.xlsx" matches: hidden names are skipped. */
  predicate GlobXlsx(name: string) {
    EndsWith(name, ".xlsx") && name[0] != '.'
  }
}
