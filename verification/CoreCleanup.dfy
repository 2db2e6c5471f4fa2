/** Retention of core files: of every process the newest four are kept. The code sees the files one by one
    and never holds more than five of a process. */
module CoreCleanup {
  import opened Sequences
  import opened Text
  import opened StableSort

  const MAX_CORE_FILES := 4

  // ----- file names -----

  /** A core file is named after its process and the second of its creation. */
  function ProcessOf(name: string): string {
    Split(name, '.')[0]
  }

  /** Seconds that a date can be made of. */
  predicate IsDate(seconds: int) {
    -62135596800 <= seconds <= 253402300799
  }

  function StampOf(name: string): Option<int> {
    var parts := Split(name, '.');
    if |parts| < 2 then None
    else
      var n := ParseInt(parts[1]);
      if n.Some? && IsDate(n.value) then n else None
  }

  function Seconds(name: string): int {
    if StampOf(name).Some? then StampOf(name).value else 0
  }

  predicate Newer(a: string, b: string) {
    Seconds(a) >= Seconds(b)
  }

  predicate AllStamped(files: seq<string>) {
    forall i :: 0 <= i < |files| ==> StampOf(files[i]).Some?
  }

  // ----- the batch answer -----

  /** The files of one process, in the order of the listing. */
  function FilesOf(files: seq<string>, process: string): seq<string> {
    if files == [] then []
    else
      var init, last := FilesOf(files[..|files| - 1], process), files[|files| - 1];
      if ProcessOf(last) == process then init + [last] else init
  }

  /** The files that are kept of one process: all if they are few, else the first four from
      the newest on, where of two files of the same second the one listed first comes first. */
  function Newest(files: seq<string>): seq<string> {
    if |files| <= MAX_CORE_FILES then files else Sort(Newer, files)[..MAX_CORE_FILES]
  }

  // ----- the streaming answer -----

  /** The list of a process after one more file. */
  function Streamed(kept: seq<string>, file: string): seq<string> {
    if |kept| < MAX_CORE_FILES then kept + [file] else Sort(Newer, kept + [file])[..MAX_CORE_FILES]
  }

  /** Of a sorted list, the first `k` elements after an insertion depend only on the first `k` before. */
  lemma {:induction false} InsertTake<T(!new)>(le: (T, T) -> bool, x: T, s: seq<T>, k: nat)
    requires TotalPreorder(le) && Sorted(le, s) && k <= |s|
    ensures Insert(le, x, s)[..k] == Insert(le, x, s[..k])[..k]
  {
    if k == |s| {
      assert s[..k] == s;
    } else {
      var init, last := s[..|s| - 1], s[|s| - 1];
      assert init[..k] == s[..k];
      if le(last, x) {
        if k > 0 { assert le(s[k - 1], last); }
      } else {
        InsertTake(le, x, init, k);
      }
    }
  }

  lemma NewerOrders()
    ensures TotalPreorder(Newer)
  {
  }

  lemma {:induction false} SortSnoc(le: (string, string) -> bool, s: seq<string>, x: string)
    ensures Sort(le, s + [x]) == Insert(le, x, Sort(le, s))
  {
    assert (s + [x])[..|s|] == s;
  }

  /** Keeping five at a time loses nothing: the list is always the batch answer for the files so far. */
  lemma StreamedNewest(files: seq<string>, file: string)
    ensures Streamed(Newest(files), file) == Newest(files + [file])
  {
    if |files| > MAX_CORE_FILES {
      var sorted := Sort(Newer, files);
      var kept := sorted[..MAX_CORE_FILES];
      NewerOrders();
      SortSorted(Newer, files);
      SortSnoc(Newer, files, file);
      InsertTake(Newer, file, sorted, MAX_CORE_FILES);
      SortSnoc(Newer, kept, file);
      SortOfSorted(Newer, kept);
    }
  }

  /** The first elements of a sorted permutation are among the elements, and come before all others. */
  lemma TakeSorted(le: (string, string) -> bool, files: seq<string>, sorted: seq<string>, k: nat)
    requires Sorted(le, sorted) && multiset(sorted) == multiset(files) && k <= |sorted|
    ensures forall f :: f in sorted[..k] ==> f in files
    ensures forall f, g :: f in sorted[..k] && g in files && g !in sorted[..k] ==> le(f, g)
  {
    forall f | f in sorted[..k] ensures f in files {
      assert f in sorted && f in multiset(sorted);
    }
    forall f, g | f in sorted[..k] && g in files && g !in sorted[..k] ensures le(f, g) {
      var i :| 0 <= i < k && sorted[i] == f;
      assert g in multiset(files) && g in sorted;
      var j :| 0 <= j < |sorted| && sorted[j] == g;
    }
  }

  /** What is kept are up to four files of the process, and no other file of it is newer. */
  lemma NewestExact(files: seq<string>)
    ensures |Newest(files)| == if |files| < MAX_CORE_FILES then |files| else MAX_CORE_FILES
    ensures forall f :: f in Newest(files) ==> f in files
    ensures forall f, g :: f in Newest(files) && g in files && g !in Newest(files) ==> Newer(f, g)
  {
    if |files| > MAX_CORE_FILES {
      NewerOrders();
      SortSorted(Newer, files);
      TakeSorted(Newer, files, Sort(Newer, files), MAX_CORE_FILES);
    }
  }

  // ----- the directory -----

  lemma {:induction false} FilesOfIn(files: seq<string>, process: string)
    ensures forall f :: f in FilesOf(files, process) <==> f in files && ProcessOf(f) == process
  {
    if files != [] {
      var n := |files| - 1;
      FilesOfIn(files[..n], process);
      assert files == files[..n] + [files[n]];
    }
  }

  /** The files that the code gives up. */
  ghost predicate GivenUp(listing: seq<string>, f: string) {
    f in listing && f !in Newest(FilesOf(listing, ProcessOf(f)))
  }

  /** A process with too many files has names with dates only. */
  predicate CanSort(listing: seq<string>, process: string) {
    |FilesOf(listing, process)| > MAX_CORE_FILES ==> AllStamped(FilesOf(listing, process))
  }

  ghost predicate CanSortAll(listing: seq<string>) {
    forall process :: CanSort(listing, process)
  }

  function Kept(byProcess: map<string, seq<string>>, process: string): seq<string> {
    if process in byProcess then byProcess[process] else []
  }

  ghost predicate KeptNewest(byProcess: map<string, seq<string>>, listing: seq<string>) {
    forall process :: Kept(byProcess, process) == Newest(FilesOf(listing, process))
  }

  lemma {:induction false} FilesOfSnoc(listing: seq<string>, f: string, process: string)
    ensures FilesOf(listing + [f], process) ==
            if ProcessOf(f) == process then FilesOf(listing, process) + [f] else FilesOf(listing, process)
  {
    assert (listing + [f])[..|listing|] == listing;
  }

  lemma {:induction false} FilesOfDistinct(listing: seq<string>, process: string)
    requires Distinct(listing)
    ensures Distinct(FilesOf(listing, process))
  {
    if listing != [] {
      var n := |listing| - 1;
      FilesOfDistinct(listing[..n], process);
      FilesOfIn(listing[..n], process);
    }
  }

  lemma KeptNext(byProcess: map<string, seq<string>>, listing: seq<string>, f: string)
    requires KeptNewest(byProcess, listing)
    ensures var p := ProcessOf(f);
            KeptNewest(byProcess[p := Streamed(Kept(byProcess, p), f)], listing + [f])
  {
    var p := ProcessOf(f);
    var next := byProcess[p := Streamed(Kept(byProcess, p), f)];
    forall process ensures Kept(next, process) == Newest(FilesOf(listing + [f], process)) {
      FilesOfSnoc(listing, f, process);
      if process == p { StreamedNewest(FilesOf(listing, p), f); } else { assert Kept(next, process) == Kept(byProcess, process); }
    }
  }

  /** Of five different files, all but the last in order are kept. */
  lemma LastDropped(curr: seq<string>, sorted: seq<string>, k: nat)
    requires |curr| == |sorted| == k + 1 && Distinct(curr) && multiset(sorted) == multiset(curr)
    ensures forall g :: g in sorted[..k] <==> g in curr && g != sorted[k]
  {
    assert sorted == sorted[..k] + [sorted[k]];
    forall g ensures g in sorted[..k] <==> g in curr && g != sorted[k] {
      assert g in curr <==> g in multiset(curr);
      DistinctCount(curr, g);
      assert multiset(sorted)[g] == multiset(sorted[..k])[g] + multiset([sorted[k]])[g];
      assert g in sorted[..k] <==> multiset(sorted[..k])[g] > 0;
    }
  }

  lemma {:induction false} DistinctCount(files: seq<string>, g: string)
    requires Distinct(files)
    ensures multiset(files)[g] <= 1
  {
    if files != [] {
      var n := |files| - 1;
      DistinctCount(files[..n], g);
      assert files == files[..n] + [files[n]];
      assert files[n] !in files[..n];
    }
  }

  lemma {:induction false} NewestIn(files: seq<string>, process: string, g: string)
    ensures g in Newest(FilesOf(files, process)) ==> g in files && ProcessOf(g) == process
  {
    NewestExact(FilesOf(files, process));
    FilesOfIn(files, process);
  }

  lemma NewestDistinct(files: seq<string>)
    requires Distinct(files)
    ensures Distinct(Newest(files))
  {
    if |files| > MAX_CORE_FILES {
      NewerOrders();
      SortSorted(Newer, files);
      PermutedDistinct(files, Sort(Newer, files));
    }
  }

  lemma PermutedDistinct(a: seq<string>, b: seq<string>)
    requires Distinct(a) && multiset(a) == multiset(b)
    ensures Distinct(b)
  {
    forall i, j | 0 <= i < j < |b| ensures b[i] != b[j] {
      DistinctCount(a, b[i]);
      assert b == b[..i] + [b[i]] + b[i + 1..];
      assert b[j] in b[i + 1..];
      assert multiset(b)[b[i]] == multiset(b[..i])[b[i]] + 1 + multiset(b[i + 1..])[b[i]];
    }
  }

  /** The file that the list of a process loses when one more arrives. */
  function Dropped(kept: seq<string>, f: string): Option<string> {
    if |kept| >= MAX_CORE_FILES then Some(Sort(Newer, kept + [f])[MAX_CORE_FILES]) else None
  }

  lemma StreamedMembers(kept: seq<string>, f: string, g: string)
    requires Distinct(kept + [f]) && |kept| <= MAX_CORE_FILES
    ensures g in Streamed(kept, f) <==> g in kept + [f] && Dropped(kept, f) != Some(g)
    ensures Dropped(kept, f) == Some(g) ==> g in kept + [f]
  {
    if |kept| == MAX_CORE_FILES {
      var curr := kept + [f];
      SortSorted(Newer, curr) by { NewerOrders(); }
      LastDropped(curr, Sort(Newer, curr), MAX_CORE_FILES);
      assert Sort(Newer, curr)[MAX_CORE_FILES] in multiset(curr);
    }
  }

  lemma SnocDistinct(listing: seq<string>, f: string)
    requires Distinct(listing + [f])
    ensures Distinct(listing) && f !in listing
  {
    var all := listing + [f];
    assert forall i :: 0 <= i < |listing| ==> all[i] == listing[i];
    assert all[|listing|] == f;
  }

  /** One more file of the process of `g`. */
  lemma {:induction false} SameProcessNext(listing: seq<string>, f: string, g: string)
    requires Distinct(listing + [f]) && ProcessOf(g) == ProcessOf(f)
    ensures var kept := Newest(FilesOf(listing, ProcessOf(f)));
            GivenUp(listing + [f], g) <==> GivenUp(listing, g) || Dropped(kept, f) == Some(g)
  {
    var p := ProcessOf(f);
    var kept := Newest(FilesOf(listing, p));
    SnocDistinct(listing, f);
    NewestIn(listing, p, f);
    NewestIn(listing, p, g);
    NewestExact(FilesOf(listing, p));
    FilesOfDistinct(listing, p);
    NewestDistinct(FilesOf(listing, p));
    FilesOfSnoc(listing, f, p);
    StreamedNewest(FilesOf(listing, p), f);
    StreamedMembers(kept, f, g);
  }

  /** One more file changes nothing for other processes, and gives up at most one file of its own. */
  lemma {:induction false} GivenUpNext(listing: seq<string>, f: string, g: string)
    requires Distinct(listing + [f])
    ensures var kept := Newest(FilesOf(listing, ProcessOf(f)));
            GivenUp(listing + [f], g) <==> GivenUp(listing, g) || Dropped(kept, f) == Some(g)
  {
    var p := ProcessOf(f);
    var kept := Newest(FilesOf(listing, p));
    if ProcessOf(g) == p {
      SameProcessNext(listing, f, g);
    } else {
      FilesOfSnoc(listing, f, ProcessOf(g));
      if |kept| >= MAX_CORE_FILES {
        var sorted := Sort(Newer, kept + [f]);
        SortSorted(Newer, kept + [f]) by { NewerOrders(); }
        assert sorted[MAX_CORE_FILES] in multiset(kept + [f]);
        NewestIn(listing, p, sorted[MAX_CORE_FILES]);
      }
    }
  }

  lemma StampedSubset(a: seq<string>, b: seq<string>)
    requires AllStamped(b) && forall x :: x in a ==> x in b
    ensures AllStamped(a)
  {
    forall i | 0 <= i < |a| ensures StampOf(a[i]).Some? {
      assert a[i] in b;
    }
  }

  lemma StampedSnoc(a: seq<string>, f: string)
    ensures AllStamped(a + [f]) <==> AllStamped(a) && StampOf(f).Some?
  {
    if AllStamped(a + [f]) {
      assert (a + [f])[|a|] == f;
      assert forall i :: 0 <= i < |a| ==> (a + [f])[i] == a[i];
    }
  }

  lemma {:induction false} CanSortNext(listing: seq<string>, f: string)
    requires CanSortAll(listing)
    ensures var kept := Newest(FilesOf(listing, ProcessOf(f)));
            CanSortAll(listing + [f]) <==> (|kept| >= MAX_CORE_FILES ==> AllStamped(kept + [f]))
  {
    var p := ProcessOf(f);
    var files := FilesOf(listing, p);
    var kept := Newest(files);
    NewestExact(files);
    assert CanSort(listing, p);
    FilesOfSnoc(listing, f, p);
    StampedSnoc(files, f);
    StampedSnoc(kept, f);
    if |files| > MAX_CORE_FILES { StampedSubset(kept, files); }
    assert CanSort(listing + [f], p) <==> (|kept| >= MAX_CORE_FILES ==> AllStamped(kept + [f]));
    forall process | process != p ensures CanSort(listing + [f], process) {
      FilesOfSnoc(listing, f, process);
      assert CanSort(listing, process);
    }
  }

  /** What is on the disk after the files of `listing` have been looked at. */
  ghost predicate Cleaned(files: set<string>, locked: set<string>, before: set<string>, listing: seq<string>) {
    forall f :: f in files <==> f in before && (f in locked || !GivenUp(listing, f))
  }

  lemma {:induction false} CleanedNext(files: set<string>, locked: set<string>, before: set<string>, listing: seq<string>, f: string)
    requires Distinct(listing + [f]) && Cleaned(files, locked, before, listing)
    ensures var d := Dropped(Newest(FilesOf(listing, ProcessOf(f))), f);
            Cleaned(if d.Some? && d.value !in locked then files - {d.value} else files, locked, before, listing + [f])
  {
    var d := Dropped(Newest(FilesOf(listing, ProcessOf(f))), f);
    var after := if d.Some? && d.value !in locked then files - {d.value} else files;
    forall g ensures g in after <==> g in before && (g in locked || !GivenUp(listing + [f], g)) {
      GivenUpNext(listing, f, g);
    }
  }

  lemma CanSortPrefix(listing: seq<string>, n: nat)
    requires n <= |listing| && CanSortAll(listing)
    ensures CanSortAll(listing[..n])
  {
    forall process ensures CanSort(listing[..n], process) {
      assert CanSort(listing, process);
      FilesOfPrefix(listing, n, process);
    }
  }

  lemma {:induction false} FilesOfPrefix(listing: seq<string>, n: nat, process: string)
    requires n <= |listing|
    ensures FilesOf(listing[..n], process) <= FilesOf(listing, process)
  {
    if n < |listing| {
      FilesOfPrefix(listing[..|listing| - 1], n, process);
      assert listing[..|listing| - 1][..n] == listing[..n];
    } else {
      assert listing[..n] == listing;
    }
  }

  class CoreDirectory {
    var files: set<string>
    const locked: set<string>

    constructor (files: set<string>, locked: set<string>)
      ensures this.files == files && this.locked == locked
    {
      this.files, this.locked := files, locked;
    }

    /** Deletes a file, if that is possible; a failure is only logged. */
    method Delete(f: string)
      modifies this`files
      ensures files == if f in locked then old(files) else old(files) - {f}
    {
      if f !in locked {
        files := files - {f};
      }
    }

    /** Looks at the files in the order of the listing. It fails exactly when a process with too many files
        has one whose name has no date; otherwise exactly the files that are not among the newest four of
        their process are gone, but for those that cannot be deleted. */
    method Cleanup(listing: seq<string>) returns (ok: bool)
      requires Distinct(listing) && forall f :: f in listing <==> f in files
      modifies this`files
      ensures ok <==> CanSortAll(listing)
      ensures ok ==> Cleaned(files, locked, old(files), listing)
    {
      var byProcess: map<string, seq<string>> := map[];
      ghost var before := files;
      for i := 0 to |listing|
        invariant KeptNewest(byProcess, listing[..i]) && CanSortAll(listing[..i])
        invariant Cleaned(files, locked, before, listing[..i])
      {
        ghost var seen := listing[..i];
        assert listing[..i + 1] == seen + [listing[i]];
        ok, byProcess := LookAt(listing[i], byProcess, seen, before);
        if !ok {
          if CanSortAll(listing) { CanSortPrefix(listing, i + 1); }
          return;
        }
      }
      assert listing[..|listing|] == listing;
      ok := true;
    }

    /** Appends a file to the list of its process and shortens the list again if it is too long. */
    method LookAt(f: string, byProcess: map<string, seq<string>>, ghost seen: seq<string>, ghost before: set<string>)
      returns (ok: bool, next: map<string, seq<string>>)
      requires Distinct(seen + [f]) && KeptNewest(byProcess, seen) && CanSortAll(seen) && Cleaned(files, locked, before, seen)
      modifies this`files
      ensures ok <==> CanSortAll(seen + [f])
      ensures ok ==> KeptNewest(next, seen + [f]) && Cleaned(files, locked, before, seen + [f])
    {
      var p := ProcessOf(f);
      var kept := Kept(byProcess, p);
      assert kept == Newest(FilesOf(seen, p));
      NewestExact(FilesOf(seen, p));
      KeptNext(byProcess, seen, f);
      CanSortNext(seen, f);
      CleanedNext(files, locked, before, seen, f);
      var curr := kept + [f];
      ok, next := true, byProcess[p := curr];
      if |curr| > MAX_CORE_FILES {
        if !AllStamped(curr) {
          return false, next;
        }
        var sorted := Sort(Newer, curr);
        Delete(sorted[MAX_CORE_FILES]);
        next := byProcess[p := sorted[..MAX_CORE_FILES]];
      }
    }
  }
}
