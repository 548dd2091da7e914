/**
 * The download-copy logic that `monitor_downloads.py` and
 * `auto_download.py` share: the recency filter over the Downloads folder,
 * the choice of a free destination name, copying a batch of files, the
 * per-session deduplication of the continuous monitor, and the mode
 * selection of the monitor's `main`. The folder listing, the clock and the
 * outcome of each copy are inputs; names stand for paths relative to
 * their folder.
 */
module Downloads {

  import opened Wrappers
  import opened Text
  import opened Files

  /**
   * An entry of the Downloads folder as `glob.glob` lists it, with the
   * modification time `os.path.getmtime` reports, or None where it raises
   * OSError.
   */
  datatype DirEntry = DirEntry(name: string, mtime: Option<real>)

  /** Modified strictly after `minutesBack` minutes before `now`. */
  predicate IsRecent(e: DirEntry, now: real, minutesBack: int) {
    e.mtime.Some? && e.mtime.value > now - (minutesBack * 60) as real
  }

  /**
   * `find_recent_xlsx_files`: the workbooks of the folder (None when it
   * does not exist) modified within the window, in listing order.
   */
  function FindRecentXlsx(folder: Option<seq<DirEntry>>, now: real, minutesBack: int): (r: seq<DirEntry>)
    ensures folder.None? ==> r == []
    ensures folder.Some? ==> IsSubsequence(r, folder.value)
    ensures forall e :: e in r <==>
      folder.Some? && e in folder.value && GlobXlsx(e.name) && IsRecent(e, now, minutesBack)
  {
    match folder
    case None => []
    case Some(entries) =>
      var keep := (e: DirEntry) => GlobXlsx(e.name) && IsRecent(e, now, minutesBack);
      FilterIsSubsequence(entries, keep);
      Filter(entries, keep)
  }

  /** The window is strict: a file modified exactly at the cutoff is not recent, one a moment later is. */
  lemma CutoffIsExcluded(name: string, now: real, minutesBack: int, t: real)
    requires GlobXlsx(name)
    ensures FindRecentXlsx(Some([DirEntry(name, Some(t))]), now, minutesBack) ==
      if t > now - (minutesBack * 60) as real then [DirEntry(name, Some(t))] else []
  {
    var e := DirEntry(name, Some(t));
    var r := FindRecentXlsx(Some([e]), now, minutesBack);
    assert IsSubsequence(r, [e]);
    if |r| > 0 {
      assert r[0] in r;
    }
  }

  /**
   * The `k`-th destination `copy_file_to_local` tries: the file's own name
   * first, then `base_k.ext` for k = 1, 2, ...
   */
  function Candidate(filename: string, k: nat): string {
    var (base, ext) := SplitExt(filename);
    if k == 0 then filename else base + "_" + NatToString(k) + ext
  }

  /** Distinct attempts name distinct files, which is why the search ends. */
  lemma CandidateInjective(filename: string, i: nat, j: nat)
    requires Candidate(filename, i) == Candidate(filename, j)
    ensures i == j
  {
    var (base, ext) := SplitExt(filename);
    if i != 0 && j != 0 {
      var a, b := NatToString(i), NatToString(j);
      assert |a| == |b|;
      var c := Candidate(filename, i);
      assert a == c[|base| + 1..|base| + 1 + |a|];
      assert b == c[|base| + 1..|base| + 1 + |b|];
      NatToStringInjective(i, j);
    }
  }

  /** The names tried before attempt `k`. */
  ghost function Tried(filename: string, k: nat): set<string> {
    if k == 0 then {} else Tried(filename, k - 1) + {Candidate(filename, k - 1)}
  }

  lemma {:induction false} TriedCard(filename: string, k: nat)
    ensures |Tried(filename, k)| == k
    ensures forall x :: x in Tried(filename, k) ==> exists j :: 0 <= j < k && x == Candidate(filename, j)
  {
    if k > 0 {
      TriedCard(filename, k - 1);
      if Candidate(filename, k - 1) in Tried(filename, k - 1) {
        var j :| 0 <= j < k - 1 && Candidate(filename, k - 1) == Candidate(filename, j);
        CandidateInjective(filename, j, k - 1);
      }
    }
  }

  /**
   * The unique-name loop of `copy_file_to_local`: the first candidate not
   * already present in the target folder. It ends for every finite folder.
   */
  method FreeDestination(filename: string, existing: set<string>) returns (dest: string, k: nat)
    ensures dest == Candidate(filename, k)
    ensures dest !in existing
    ensures forall j :: 0 <= j < k ==> Candidate(filename, j) in existing
    ensures k <= |existing|
  {
    var (base, ext) := SplitExt(filename);
    dest, k := filename, 0;
    while dest in existing
      invariant dest == Candidate(filename, k)
      invariant Tried(filename, k) <= existing
      invariant k <= |existing|
      decreases |existing| - k
    {
      TriedCard(filename, k + 1);
      SubsetCard(Tried(filename, k + 1), existing);
      k := k + 1;
      dest := base + "_" + NatToString(k) + ext;
    }
    TriedMembers(filename, k);
  }

  lemma {:induction false} TriedMembers(filename: string, k: nat)
    ensures forall j :: 0 <= j < k ==> Candidate(filename, j) in Tried(filename, k)
  {
    if k > 0 {
      TriedMembers(filename, k - 1);
    }
  }

  /** `dest` is the first candidate for `filename` that is not in `existing`. */
  ghost predicate IsFreeDestination(filename: string, existing: set<string>, dest: string) {
    exists k: nat :: dest == Candidate(filename, k) && dest !in existing &&
      forall j :: 0 <= j < k ==> Candidate(filename, j) in existing
  }

  /** The free destination is determined by the name and the folder alone. */
  lemma FreeDestinationUnique(filename: string, existing: set<string>, d1: string, d2: string)
    requires IsFreeDestination(filename, existing, d1) && IsFreeDestination(filename, existing, d2)
    ensures d1 == d2
  {
    var k1: nat :| d1 == Candidate(filename, k1) && d1 !in existing &&
      forall j :: 0 <= j < k1 ==> Candidate(filename, j) in existing;
    var k2: nat :| d2 == Candidate(filename, k2) && d2 !in existing &&
      forall j :: 0 <= j < k2 ==> Candidate(filename, j) in existing;
  }

  /**
   * `copy_file_to_local` on one source: None when the copy raises (the
   * sources in `failing`), otherwise the free destination, which is added
   * to the target folder.
   */
  method CopyFileToLocal(source: DirEntry, existing: set<string>, failing: set<string>)
    returns (dest: Option<string>, after: set<string>)
    ensures dest.None? <==> source.name in failing
    ensures dest.None? ==> after == existing
    ensures dest.Some? ==> dest.value !in existing && after == existing + {dest.value}
    ensures dest.Some? ==> IsFreeDestination(source.name, existing, dest.value)
  {
    if source.name in failing {
      return None, existing;
    }
    var d, k := FreeDestination(source.name, existing);
    return Some(d), existing + {d};
  }

  /** Copies `files` one after another into a folder that starts out holding `existing`. */
  method CopyAll(files: seq<DirEntry>, existing: set<string>, failing: set<string>)
    returns (copied: seq<Option<string>>, after: set<string>)
    ensures |copied| == |files|
    ensures forall i :: 0 <= i < |files| ==> (copied[i].None? <==> files[i].name in failing)
    ensures forall i :: 0 <= i < |files| && copied[i].Some? ==> copied[i].value !in existing && copied[i].value in after
    ensures forall i, j :: 0 <= i < j < |files| && copied[i].Some? && copied[j].Some? ==> copied[i].value != copied[j].value
    ensures existing <= after
  {
    copied, after := [], existing;
    for n := 0 to |files|
      invariant |copied| == n
      invariant forall i :: 0 <= i < n ==> (copied[i].None? <==> files[i].name in failing)
      invariant forall i :: 0 <= i < n && copied[i].Some? ==> copied[i].value !in existing && copied[i].value in after
      invariant forall i, j :: 0 <= i < j < n && copied[i].Some? && copied[j].Some? ==> copied[i].value != copied[j].value
      invariant existing <= after
    {
      var d, a := CopyFileToLocal(files[n], after, failing);
      copied, after := copied + [d], a;
    }
  }

  /**
   * `check_recent_downloads`: every workbook of the last ten minutes is
   * copied, whatever was copied before; nothing happens without a folder.
   */
  method CheckRecentDownloads(folder: Option<seq<DirEntry>>, now: real, existing: set<string>, failing: set<string>)
    returns (found: seq<DirEntry>, copied: seq<Option<string>>)
    ensures found == FindRecentXlsx(folder, now, 10)
    ensures |copied| == |found|
    ensures forall i :: 0 <= i < |found| ==> (copied[i].Some? <==> found[i].name !in failing)
    ensures forall i :: 0 <= i < |found| && copied[i].Some? ==> copied[i].value !in existing
    ensures forall i, j :: 0 <= i < j < |found| && copied[i].Some? && copied[j].Some? ==> copied[i].value != copied[j].value
  {
    found := FindRecentXlsx(folder, now, 10);
    var after;
    copied, after := CopyAll(found, existing, failing);
  }

  /** The id `monitor_downloads` records: path and modification time. */
  type FileId = (string, Option<real>)

  function IdOf(e: DirEntry): FileId {
    (e.name, e.mtime)
  }

  function Ids(s: seq<DirEntry>): set<FileId> {
    set e | e in s :: IdOf(e)
  }

  predicate DistinctIds(s: seq<DirEntry>) {
    forall i, j :: 0 <= i < j < |s| ==> IdOf(s[i]) != IdOf(s[j])
  }

  function Flatten(polls: seq<seq<DirEntry>>): seq<DirEntry> {
    if |polls| == 0 then [] else polls[0] + Flatten(polls[1..])
  }

  lemma IdsAppend(a: seq<DirEntry>, b: seq<DirEntry>)
    ensures Ids(a + b) == Ids(a) + Ids(b)
  {
    forall x | x in Ids(a + b) ensures x in Ids(a) + Ids(b) {
      var e :| e in a + b && x == IdOf(e);
    }
    forall x | x in Ids(a) + Ids(b) ensures x in Ids(a + b) {
      if x in Ids(a) {
        var e :| e in a && x == IdOf(e);
        assert e in a + b;
      } else {
        var e :| e in b && x == IdOf(e);
        assert e in a + b;
      }
    }
  }

  lemma DistinctAppend(a: seq<DirEntry>, b: seq<DirEntry>)
    requires DistinctIds(a) && DistinctIds(b) && Ids(a) !! Ids(b)
    ensures DistinctIds(a + b)
  {
    var c := a + b;
    forall i, j | 0 <= i < j < |c| ensures IdOf(c[i]) != IdOf(c[j]) {
      if i < |a| && |a| <= j {
        assert c[i] in a && c[j] in b;
        assert IdOf(c[i]) in Ids(a) && IdOf(c[j]) in Ids(b);
      } else if |a| <= i {
        assert c[i] == b[i - |a|] && c[j] == b[j - |a|];
      }
    }
  }

  /**
   * One poll of `monitor_downloads`: the files whose id was not seen yet,
   * in listing order, and the ids seen afterwards. Ids are recorded before
   * the copy, so a failed copy is not retried.
   */
  function NewFiles(recent: seq<DirEntry>, seen: set<FileId>): (r: (seq<DirEntry>, set<FileId>))
    ensures IsSubsequence(r.0, recent)
    ensures Ids(r.0) == Ids(recent) - seen
    ensures DistinctIds(r.0)
    ensures r.1 == seen + Ids(recent)
  {
    if |recent| == 0 then ([], seen)
    else
      var e := recent[0];
      IdsCons(recent);
      if IdOf(e) in seen then
        var r := NewFiles(recent[1..], seen);
        SubsequenceWeaken(r.0, recent[1..], e);
        r
      else
        var r := NewFiles(recent[1..], seen + {IdOf(e)});
        IdsAppend([e], r.0);
        DistinctAppend([e], r.0);
        ([e] + r.0, r.1)
  }

  lemma IdsCons(s: seq<DirEntry>)
    requires |s| > 0
    ensures Ids(s) == {IdOf(s[0])} + Ids(s[1..])
  {
    IdsAppend([s[0]], s[1..]);
    assert s == [s[0]] + s[1..];
  }

  /**
   * The new files of every poll of one monitoring session. Across the
   * whole session each id is reported at most once, and every id that
   * shows up and was not seen before is reported; a file modified again
   * has a new id, so it is reported again.
   */
  function Session(polls: seq<seq<DirEntry>>, seen: set<FileId>): (r: seq<seq<DirEntry>>)
    ensures |r| == |polls|
    ensures forall p :: 0 <= p < |r| ==> IsSubsequence(r[p], polls[p])
    ensures Ids(Flatten(r)) == Ids(Flatten(polls)) - seen
    ensures DistinctIds(Flatten(r))
  {
    if |polls| == 0 then []
    else
      var (n, seen') := NewFiles(polls[0], seen);
      var rest := Session(polls[1..], seen');
      var r := [n] + rest;
      assert r[1..] == rest;
      assert Flatten(r) == n + Flatten(rest);
      assert Flatten(polls) == polls[0] + Flatten(polls[1..]);
      IdsAppend(n, Flatten(rest));
      IdsAppend(polls[0], Flatten(polls[1..]));
      DistinctAppend(n, Flatten(rest));
      r
  }

  /** One check of the folder: its listing and the clock at that moment. */
  datatype Poll = Poll(listing: seq<DirEntry>, now: real)

  /** The recent workbooks each check of `monitor_downloads` sees: a two-minute window. */
  function RecentPerPoll(polls: seq<Poll>): (r: seq<seq<DirEntry>>)
    ensures |r| == |polls|
    ensures forall p :: 0 <= p < |r| ==> r[p] == FindRecentXlsx(Some(polls[p].listing), polls[p].now, 2)
  {
    seq(|polls|, p requires 0 <= p < |polls| => FindRecentXlsx(Some(polls[p].listing), polls[p].now, 2))
  }

  /**
   * `monitor_downloads`: the files each check hands to the copier. Nothing
   * happens when no Downloads folder is found. Each reported file was, at
   * its check, a workbook of the folder modified in the last two minutes;
   * over the whole run each id is reported once, and every id that was
   * recent at some check is reported.
   */
  function MonitorDownloads(folderFound: bool, polls: seq<Poll>): (r: seq<seq<DirEntry>>)
    ensures !folderFound ==> r == []
    ensures folderFound ==> |r| == |polls|
    ensures forall p, e :: 0 <= p < |r| && e in r[p] ==>
      e in polls[p].listing && GlobXlsx(e.name) && IsRecent(e, polls[p].now, 2)
    ensures folderFound ==> Ids(Flatten(r)) == Ids(Flatten(RecentPerPoll(polls)))
    ensures DistinctIds(Flatten(r))
  {
    if !folderFound then
      assert Flatten([]) == [];
      []
    else
      var recent := RecentPerPoll(polls);
      var r := Session(recent, {});
      forall p | 0 <= p < |r| ensures forall e :: e in r[p] ==> e in recent[p] {
        SubsequenceMembers(r[p], recent[p]);
      }
      r
  }

  /** A workbook modified within two minutes of some check is reported. */
  lemma RecentWorkbookReported(polls: seq<Poll>, p: nat, e: DirEntry)
    requires p < |polls| && e in polls[p].listing
    requires GlobXlsx(e.name) && IsRecent(e, polls[p].now, 2)
    ensures IdOf(e) in Ids(Flatten(MonitorDownloads(true, polls)))
  {
    var recent := RecentPerPoll(polls);
    assert e in recent[p];
    FlattenMember(recent, p, e);
  }

  /** A file older than two minutes at every check is never reported. */
  lemma StaleFileIgnored(polls: seq<Poll>, folderFound: bool, e: DirEntry)
    requires forall p :: 0 <= p < |polls| ==> !IsRecent(e, polls[p].now, 2)
    ensures forall p :: 0 <= p < |MonitorDownloads(folderFound, polls)| ==> e !in MonitorDownloads(folderFound, polls)[p]
  {
  }

  /**
   * A file listed again with a new modification time is reported again:
   * both of its ids are among the session's reports, and reports never
   * repeat an id.
   */
  lemma ModifiedFileIsNew(polls: seq<seq<DirEntry>>, p: nat, q: nat, name: string, t1: real, t2: real)
    requires p < |polls| && q < |polls|
    requires DirEntry(name, Some(t1)) in polls[p] && DirEntry(name, Some(t2)) in polls[q]
    ensures (name, Some(t1)) in Ids(Flatten(Session(polls, {})))
    ensures (name, Some(t2)) in Ids(Flatten(Session(polls, {})))
  {
    FlattenMember(polls, p, DirEntry(name, Some(t1)));
    FlattenMember(polls, q, DirEntry(name, Some(t2)));
  }

  lemma {:induction false} FlattenMember(polls: seq<seq<DirEntry>>, p: nat, e: DirEntry)
    requires p < |polls| && e in polls[p]
    ensures IdOf(e) in Ids(Flatten(polls))
  {
    assert Flatten(polls) == polls[0] + Flatten(polls[1..]);
    if p == 0 {
      assert e in Flatten(polls);
    } else {
      FlattenMember(polls[1..], p - 1, e);
      IdsAppend(polls[0], Flatten(polls[1..]));
    }
  }

  /** The two modes of the monitor's `main`. */
  datatype Mode = CheckOnce | Continuous

  /** Whether the command line alone selects check mode; otherwise `main` asks. */
  predicate CheckFlag(argv: seq<string>) {
    |argv| > 1 && argv[1] in ["--check", "-c"]
  }

  /** The mode `main` runs, given the line typed at the prompt (read only when there is no flag). */
  function SelectMode(argv: seq<string>, answer: string): (m: Mode)
    ensures CheckFlag(argv) ==> m == CheckOnce
    ensures !CheckFlag(argv) ==> (m == CheckOnce <==> Strip(answer) == "2")
  {
    if CheckFlag(argv) then CheckOnce
    else if Strip(answer) == "2" then CheckOnce
    else Continuous
  }

  /** The default is continuous: an empty answer, or anything but "2", does not select check mode. */
  lemma DefaultIsContinuous(argv: seq<string>)
    requires !CheckFlag(argv)
    ensures SelectMode(argv, "") == Continuous
    ensures SelectMode(argv, "1") == Continuous
  {
    assert Strip("") == "";
    assert TrimStart("1") == "1";
    assert Strip("1") == "1";
  }
}
