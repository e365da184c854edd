/** The polling service's bookkeeping (pcap_processor/process.py): the set of capture
    files already handled, the eviction of the oldest unconverted captures when more than
    `MAX_PENDING_FILES` are waiting, and the rule that picks the captures to convert. */
module PcapBacklog {

  /** `MAX_PENDING_FILES`. */
  const MaxPendingFiles: nat := 50

  /** A capture younger than this (in milliseconds) may still be being written. */
  const SettleTimeMs: int := 10000

  /** A capture file `PCAP_DIR/<stem>.pcap` and its modification time in milliseconds;
      its CSV would be `CSV_DIR/<stem>.csv`. */
  datatype PcapFile = PcapFile(stem: string, mtime: int)

  predicate SortedByMtime(s: seq<PcapFile>) {
    forall i, j :: 0 <= i < j < |s| ==> s[i].mtime <= s[j].mtime
  }

  /** A file no newer than the head of a sorted list can go in front of it. */
  lemma SortedCons(x: PcapFile, s: seq<PcapFile>)
    requires SortedByMtime(s) && (s != [] ==> x.mtime <= s[0].mtime)
    ensures SortedByMtime([x] + s)
  {
    forall i, j | 0 <= i < j < |[x] + s| ensures ([x] + s)[i].mtime <= ([x] + s)[j].mtime {
      if i == 0 && j > 1 { assert s[0].mtime <= s[j - 1].mtime; }
    }
  }

  /** Puts `f` into the sorted `s` after every file that is not newer than it. */
  function InsertByMtime(s: seq<PcapFile>, f: PcapFile): (r: seq<PcapFile>)
    requires SortedByMtime(s)
    ensures SortedByMtime(r)
    ensures multiset(r) == multiset(s) + multiset{f}
    ensures |r| == |s| + 1 && (s == [] ==> r == [f]) && (s != [] ==> r[0] == f || r[0] == s[0])
    decreases |s|
  {
    if s == [] then [f]
    else if f.mtime < s[0].mtime then [f] + s
    else
      assert s == [s[0]] + s[1..];
      var rest := InsertByMtime(s[1..], f);
      SortedCons(s[0], rest);
      [s[0]] + rest
  }

  /** `sorted(files, key=lambda f: f.stat().st_mtime)`: the same captures, oldest first. */
  function SortByMtime(files: seq<PcapFile>): (r: seq<PcapFile>)
    ensures SortedByMtime(r)
    ensures multiset(r) == multiset(files)
    decreases |files|
  {
    if files == [] then []
    else
      assert files == files[..|files| - 1] + [files[|files| - 1]];
      InsertByMtime(SortByMtime(files[..|files| - 1]), files[|files| - 1])
  }

  /** Whether a capture still waits for conversion: it has no CSV and was not handled. */
  predicate Waiting(f: PcapFile, csvStems: set<string>, processed: set<string>) {
    f.stem !in csvStems && f.stem !in processed
  }

  /** The waiting captures of `s`, in the order of `s`. */
  function Unprocessed(s: seq<PcapFile>, csvStems: set<string>, processed: set<string>): (u: seq<PcapFile>)
    ensures |u| <= |s|
    decreases |s|
  {
    if s == [] then []
    else
      var last := s[|s| - 1];
      Unprocessed(s[..|s| - 1], csvStems, processed) + (if Waiting(last, csvStems, processed) then [last] else [])
  }

  /** Listing one more capture appends it exactly when it is waiting. */
  lemma UnprocessedStep(s: seq<PcapFile>, i: nat, csvStems: set<string>, processed: set<string>)
    requires i < |s|
    ensures Unprocessed(s[..i + 1], csvStems, processed) ==
      Unprocessed(s[..i], csvStems, processed) + (if Waiting(s[i], csvStems, processed) then [s[i]] else [])
  {
    assert s[..i + 1][..i] == s[..i];
  }

  /** The waiting list holds exactly the waiting captures of `s`. */
  lemma {:induction false} UnprocessedMembers(s: seq<PcapFile>, csvStems: set<string>, processed: set<string>)
    ensures forall f :: f in Unprocessed(s, csvStems, processed) <==> f in s && Waiting(f, csvStems, processed)
    decreases |s|
  {
    if s != [] {
      UnprocessedMembers(s[..|s| - 1], csvStems, processed);
      assert s == s[..|s| - 1] + [s[|s| - 1]];
    }
  }

  /** Filtering keeps the oldest-first order of a sorted listing. */
  lemma {:induction false} UnprocessedSorted(s: seq<PcapFile>, csvStems: set<string>, processed: set<string>)
    requires SortedByMtime(s)
    ensures SortedByMtime(Unprocessed(s, csvStems, processed))
    decreases |s|
  {
    if s != [] {
      var init := s[..|s| - 1];
      assert SortedByMtime(init);
      UnprocessedSorted(init, csvStems, processed);
      UnprocessedMembers(init, csvStems, processed);
      var u := Unprocessed(init, csvStems, processed);
      forall i | 0 <= i < |u| ensures u[i].mtime <= s[|s| - 1].mtime {
        assert u[i] in init;
      }
    }
  }

  /** The files of `s` whose deletion succeeds, in the order of `s`. */
  function Deletable(s: seq<PcapFile>, undeletable: set<string>): (d: seq<PcapFile>)
    ensures |d| <= |s|
    decreases |s|
  {
    if s == [] then []
    else
      var last := s[|s| - 1];
      Deletable(s[..|s| - 1], undeletable) + (if last.stem !in undeletable then [last] else [])
  }

  /** Exactly the victims whose deletion succeeds are dropped. */
  lemma {:induction false} DeletableMembers(s: seq<PcapFile>, undeletable: set<string>)
    ensures forall f :: f in Deletable(s, undeletable) <==> f in s && f.stem !in undeletable
    decreases |s|
  {
    if s != [] {
      DeletableMembers(s[..|s| - 1], undeletable);
      assert s == s[..|s| - 1] + [s[|s| - 1]];
    }
  }

  /** The names of the files of `s`. */
  function Stems(s: seq<PcapFile>): (names: set<string>)
    ensures |names| <= |s|
    decreases |s|
  {
    if s == [] then {} else Stems(s[..|s| - 1]) + {s[|s| - 1].stem}
  }

  lemma StemsAppend(s: seq<PcapFile>, f: PcapFile)
    ensures Stems(s + [f]) == Stems(s) + {f.stem}
  {
    assert (s + [f])[..|s + [f]| - 1] == s;
  }

  /** A name is in `Stems(s)` exactly when some file of `s` carries it. */
  lemma {:induction false} StemsMembers(s: seq<PcapFile>)
    ensures forall i :: 0 <= i < |s| ==> s[i].stem in Stems(s)
    ensures forall n :: n in Stems(s) ==> exists i :: 0 <= i < |s| && s[i].stem == n
    decreases |s|
  {
    if s != [] {
      StemsMembers(s[..|s| - 1]);
    }
  }

  /** The captures `cleanup_old_files` tries to delete: all but the newest
      `MAX_PENDING_FILES` of the waiting ones, and none while no more are waiting. */
  function Victims(dir: seq<PcapFile>, csvStems: set<string>, processed: set<string>): (v: seq<PcapFile>)
    ensures var u := Unprocessed(SortByMtime(dir), csvStems, processed);
      && |v| == (if |u| > MaxPendingFiles then |u| - MaxPendingFiles else 0)
      && v == u[..|v|]
  {
    var u := Unprocessed(SortByMtime(dir), csvStems, processed);
    if |u| > MaxPendingFiles then u[..|u| - MaxPendingFiles] else []
  }

  /** The eviction drops only the oldest: every victim is at least as old as every
      waiting capture that is kept, and exactly `MAX_PENDING_FILES` of them are kept. */
  lemma VictimsAreOldest(dir: seq<PcapFile>, csvStems: set<string>, processed: set<string>)
    ensures var u := Unprocessed(SortByMtime(dir), csvStems, processed);
            var v := Victims(dir, csvStems, processed);
      && (|u| <= MaxPendingFiles <==> v == [])
      && (|u| > MaxPendingFiles ==> |u| - |v| == MaxPendingFiles && u == v + u[|v|..])
      && (forall i, j :: 0 <= i < |v| <= j < |u| ==> u[i].mtime <= u[j].mtime)
  {
    var u := Unprocessed(SortByMtime(dir), csvStems, processed);
    var v := Victims(dir, csvStems, processed);
    UnprocessedSorted(SortByMtime(dir), csvStems, processed);
    assert u == v + u[|v|..];
    forall i, j | 0 <= i < |v| <= j < |u| ensures u[i].mtime <= u[j].mtime {
      assert i < j;
    }
  }

  /** The files of `s` whose name is not in `names`, in the order of `s`. */
  function Unmarked(s: seq<PcapFile>, names: set<string>): (r: seq<PcapFile>)
    ensures |r| <= |s|
    decreases |s|
  {
    if s == [] then []
    else Unmarked(s[..|s| - 1], names) + (if s[|s| - 1].stem !in names then [s[|s| - 1]] else [])
  }

  lemma {:induction false} UnmarkedAppend(a: seq<PcapFile>, b: seq<PcapFile>, names: set<string>)
    ensures Unmarked(a + b, names) == Unmarked(a, names) + Unmarked(b, names)
    decreases |b|
  {
    if b == [] {
      assert a + b == a;
    } else {
      UnmarkedAppend(a, b[..|b| - 1], names);
      assert (a + b)[..|a + b| - 1] == a + b[..|b| - 1];
      assert (a + b)[|a + b| - 1] == b[|b| - 1];
    }
  }

  /** Marking the names of `v` as handled removes every file of `v`. */
  lemma {:induction false} UnmarkedOwnNames(v: seq<PcapFile>, n: nat)
    requires n <= |v|
    ensures Unmarked(v[..n], Stems(v)) == []
  {
    if n > 0 {
      UnmarkedOwnNames(v, n - 1);
      assert v[..n][..n - 1] == v[..n - 1];
      StemsMembers(v);
    }
  }

  /** Adding names to the handled set filters the waiting list by those names. */
  lemma {:induction false} UnprocessedMarked(s: seq<PcapFile>, csvStems: set<string>, processed: set<string>, names: set<string>)
    ensures Unprocessed(s, csvStems, processed + names) == Unmarked(Unprocessed(s, csvStems, processed), names)
    decreases |s|
  {
    if s != [] {
      UnprocessedMarked(s[..|s| - 1], csvStems, processed, names);
      var init := Unprocessed(s[..|s| - 1], csvStems, processed);
      var last := s[|s| - 1];
      assert Unprocessed(s, csvStems, processed + names) ==
        Unprocessed(s[..|s| - 1], csvStems, processed + names) +
        (if Waiting(last, csvStems, processed + names) then [last] else []);
      if Waiting(last, csvStems, processed) {
        UnmarkedAppend(init, [last], names);
        assert [last][..0] == [];
        assert Unmarked([last], names) == if last.stem !in names then [last] else [];
      } else {
        assert Unprocessed(s, csvStems, processed) == init + [];
        assert init + [] == init;
      }
    }
  }

  /** When every deletion succeeds, at most `MAX_PENDING_FILES` captures are left
      waiting after the cleanup. */
  lemma CleanupBoundsBacklog(dir: seq<PcapFile>, csvStems: set<string>, processed: set<string>)
    ensures var v := Victims(dir, csvStems, processed);
      |Unprocessed(SortByMtime(dir), csvStems, processed + Stems(v))| <= MaxPendingFiles
  {
    var sorted := SortByMtime(dir);
    var u := Unprocessed(sorted, csvStems, processed);
    var v := Victims(dir, csvStems, processed);
    UnprocessedMarked(sorted, csvStems, processed, Stems(v));
    assert Unprocessed(sorted, csvStems, processed + Stems(v)) == Unmarked(u, Stems(v));
    if |u| > MaxPendingFiles {
      assert v == u[..|u| - MaxPendingFiles];
      OldestMarkedLeaveRest(u, |u| - MaxPendingFiles);
    }
  }

  /** Marking the names of the first `n` files of `u` leaves at most the rest waiting. */
  lemma OldestMarkedLeaveRest(u: seq<PcapFile>, n: nat)
    requires n <= |u|
    ensures |Unmarked(u, Stems(u[..n]))| <= |u| - n
  {
    var v, kept := u[..n], u[n..];
    assert u == v + kept;
    UnmarkedAppend(v, kept, Stems(v));
    UnmarkedOwnNames(v, |v|);
    assert v[..|v|] == v;
  }

  /** The state `main` keeps across polling rounds: the `processed_files` set. */
  /** `converted` lists, at the positions `found` of the first `n` listed captures, the ones
      that were waiting before the round and settled at the time they were tested. */
  ghost predicate ConvertedFrom(dir: seq<PcapFile>, nows: seq<int>, csvStems: set<string>, before: set<string>,
                                converted: seq<PcapFile>, found: seq<nat>, n: nat)
  {
    && n <= |dir| == |nows| && |found| == |converted|
    && forall k :: 0 <= k < |found| ==>
         && found[k] < n && dir[found[k]] == converted[k]
         && Waiting(converted[k], csvStems, before) && nows[found[k]] - converted[k].mtime >= SettleTimeMs
  }

  lemma ConvertedFromSkip(dir: seq<PcapFile>, nows: seq<int>, csvStems: set<string>, before: set<string>,
                          converted: seq<PcapFile>, found: seq<nat>, n: nat)
    requires ConvertedFrom(dir, nows, csvStems, before, converted, found, n) && n < |dir|
    ensures ConvertedFrom(dir, nows, csvStems, before, converted, found, n + 1)
  {
  }

  lemma ConvertedFromExtend(dir: seq<PcapFile>, nows: seq<int>, csvStems: set<string>, before: set<string>,
                            converted: seq<PcapFile>, found: seq<nat>, n: nat)
    requires ConvertedFrom(dir, nows, csvStems, before, converted, found, n) && n < |dir|
    requires Waiting(dir[n], csvStems, before) && nows[n] - dir[n].mtime >= SettleTimeMs
    ensures ConvertedFrom(dir, nows, csvStems, before, converted + [dir[n]], found + [n], n + 1)
  {
  }

  /** Every one of the first `n` listed captures that was waiting before the round and
      settled at the time it was tested has its name in `marked`. */
  ghost predicate ReadyMarked(dir: seq<PcapFile>, nows: seq<int>, csvStems: set<string>, before: set<string>,
                              marked: set<string>, n: nat)
  {
    && n <= |dir| == |nows|
    && forall j :: 0 <= j < n && Waiting(dir[j], csvStems, before) && nows[j] - dir[j].mtime >= SettleTimeMs ==>
         dir[j].stem in marked
  }

  lemma ReadyMarkedStep(dir: seq<PcapFile>, nows: seq<int>, csvStems: set<string>, before: set<string>,
                        marked: set<string>, marked': set<string>, n: nat)
    requires ReadyMarked(dir, nows, csvStems, before, marked, n) && n < |dir| && marked <= marked'
    requires Waiting(dir[n], csvStems, before) && nows[n] - dir[n].mtime >= SettleTimeMs ==> dir[n].stem in marked'
    ensures ReadyMarked(dir, nows, csvStems, before, marked', n + 1)
  {
  }

  /** No two files of `s` share a name. */
  predicate DistinctStems(s: seq<PcapFile>) {
    forall a, b :: 0 <= a < b < |s| ==> s[a].stem != s[b].stem
  }

  lemma DistinctStemsAppend(s: seq<PcapFile>, f: PcapFile)
    requires DistinctStems(s) && f.stem !in Stems(s)
    ensures DistinctStems(s + [f])
  {
    StemsMembers(s);
  }

  class Processor {
    var processed: set<string>

    constructor ()
      ensures processed == {}
    {
      processed := {};
    }

    /** The first half of `cleanup_old_files`: the captures listed oldest first, keeping
        those that have no CSV and were not handled. */
    method ListUnprocessed(dir: seq<PcapFile>, csvStems: set<string>) returns (unprocessed: seq<PcapFile>)
      ensures unprocessed == Unprocessed(SortByMtime(dir), csvStems, processed)
    {
      var pcapFiles := SortByMtime(dir);
      unprocessed := [];
      for i := 0 to |pcapFiles|
        invariant unprocessed == Unprocessed(pcapFiles[..i], csvStems, processed)
      {
        UnprocessedStep(pcapFiles, i, csvStems, processed);
        var pcap := pcapFiles[i];
        if pcap.stem !in csvStems && pcap.stem !in processed {
          unprocessed := unprocessed + [pcap];
        }
      }
      assert pcapFiles[..|pcapFiles|] == pcapFiles;
    }

    /** The deletion loop of `cleanup_old_files`: each file whose deletion succeeds is
        dropped and marked as handled. Files named in `undeletable` stand for the
        deletions that raise; they are skipped and stay unmarked. */
    method DeleteFiles(filesToDelete: seq<PcapFile>, undeletable: set<string>) returns (dropped: seq<PcapFile>)
      modifies this
      ensures dropped == Deletable(filesToDelete, undeletable)
      ensures processed == old(processed) + Stems(dropped)
    {
      dropped := [];
      for i := 0 to |filesToDelete|
        invariant dropped == Deletable(filesToDelete[..i], undeletable)
        invariant processed == old(processed) + Stems(dropped)
      {
        assert filesToDelete[..i + 1][..i] == filesToDelete[..i];
        var f := filesToDelete[i];
        if f.stem !in undeletable {
          StemsAppend(dropped, f);
          dropped := dropped + [f];
          processed := processed + {f.stem};
        }
      }
      assert filesToDelete[..|filesToDelete|] == filesToDelete;
    }

    /** `cleanup_old_files`: when more than `MAX_PENDING_FILES` captures wait, deletes all
        but the newest of them, marking each one whose deletion succeeds as handled so that
        it is never converted. */
    method CleanupOldFiles(dir: seq<PcapFile>, csvStems: set<string>, undeletable: set<string>)
      returns (dropped: seq<PcapFile>)
      modifies this
      ensures dropped == Deletable(Victims(dir, csvStems, old(processed)), undeletable)
      ensures processed == old(processed) + Stems(dropped)
    {
      var unprocessed := ListUnprocessed(dir, csvStems);
      if |unprocessed| > MaxPendingFiles {
        var filesToDelete := unprocessed[..|unprocessed| - MaxPendingFiles];
        dropped := DeleteFiles(filesToDelete, undeletable);
      } else {
        dropped := [];
      }
    }

    /** The selection in `main`'s polling round: a capture is converted when it has no
        CSV, was not handled before, and has not been modified for `SettleTimeMs`. */
    predicate ReadyToConvert(f: PcapFile, csvStems: set<string>, now: int)
      reads this
      ensures ReadyToConvert(f, csvStems, now) <==>
        f.stem !in csvStems && f.stem !in processed && f.mtime + SettleTimeMs <= now
    {
      Waiting(f, csvStems, processed) && now - f.mtime >= SettleTimeMs
    }

    /** One polling round after the cleanup: converts each ready capture in listing order
        and marks it as handled, whatever the conversion's outcome. The clock is read anew
        for every capture: `nows[i]` is the time at which `dir[i]` is tested, so a capture
        that settles while earlier ones are converted is converted in the same round. */
    method PollOnce(dir: seq<PcapFile>, csvStems: set<string>, nows: seq<int>) returns (converted: seq<PcapFile>)
      requires |nows| == |dir|
      modifies this
      ensures processed == old(processed) + Stems(converted)
      ensures forall f :: f in converted ==>
        exists i :: 0 <= i < |dir| && dir[i] == f && old(ReadyToConvert(f, csvStems, nows[i]))
      ensures forall i :: 0 <= i < |dir| && old(ReadyToConvert(dir[i], csvStems, nows[i])) ==>
        dir[i].stem in Stems(converted)
      ensures forall i, j :: 0 <= i < j < |converted| ==> converted[i].stem != converted[j].stem
      ensures forall i :: 0 <= i < |converted| ==> !Waiting(converted[i], csvStems, processed)
    {
      converted := [];
      ghost var before := processed;
      // where in the listing each converted capture was found
      ghost var found: seq<nat> := [];
      for i := 0 to |dir|
        invariant processed == before + Stems(converted)
        invariant ConvertedFrom(dir, nows, csvStems, before, converted, found, i)
        invariant ReadyMarked(dir, nows, csvStems, before, Stems(converted), i)
        invariant DistinctStems(converted)
      {
        var pcapFile := dir[i];
        if pcapFile.stem !in csvStems && pcapFile.stem !in processed {
          if nows[i] - pcapFile.mtime < SettleTimeMs {
            ConvertedFromSkip(dir, nows, csvStems, before, converted, found, i);
            ReadyMarkedStep(dir, nows, csvStems, before, Stems(converted), Stems(converted), i);
            continue;
          }
          ConvertedFromExtend(dir, nows, csvStems, before, converted, found, i);
          DistinctStemsAppend(converted, pcapFile);
          StemsAppend(converted, pcapFile);
          ReadyMarkedStep(dir, nows, csvStems, before, Stems(converted), Stems(converted + [pcapFile]), i);
          converted := converted + [pcapFile];
          found := found + [i];
          processed := processed + {pcapFile.stem};
        } else {
          ConvertedFromSkip(dir, nows, csvStems, before, converted, found, i);
          ReadyMarkedStep(dir, nows, csvStems, before, Stems(converted), Stems(converted), i);
        }
      }
      StemsMembers(converted);
      forall f | f in converted
        ensures exists i :: 0 <= i < |dir| && dir[i] == f && old(ReadyToConvert(f, csvStems, nows[i]))
      {
        var k :| 0 <= k < |converted| && converted[k] == f;
        assert dir[found[k]] == f && found[k] < |dir|;
      }
    }
  }
}
