// ClangTidyCacheStats and MultiprocessLock of clang_tidy_cache.py as one process runs them, with nobody
// else moving, and the connection with the interleaved machine.

module Stats {
  import opened Sequences
  import opened StatsText
  import opened StatsLock
  import opened StatsRead
  import opened Wrappers

  /** What one update does: whether it raises, and the files after it. */
  function Updated(disk: Disk, s: nat, hit: bool): (bool, Disk)
  {
    if s in disk.locks then (true, disk)
    else
      var r := Reading(disk.files, s);
      if r.Raised? then (true, disk)
      else (false, disk.(files := disk.files[s := NewText(r.value.0, r.value.1, hit)]))
  }

  /** The sums over the first `n` shards; a lock nobody gives back or a file that does not parse raises. */
  function SumOf(disk: Disk, n: nat): Outcome<(nat, nat)>
  {
    if n == 0 then Returned((0, 0))
    else
      var before := SumOf(disk, n - 1);
      if before.Raised? || n - 1 !in disk.files then before
      else if n - 1 in disk.locks then Raised
      else
        var r := ReadText(disk.files[n - 1]);
        if r.Raised? then Raised
        else Returned((before.value.0 + r.value.0, before.value.1 + r.value.1))
  }

  class ClangTidyCacheStats {
    var disk: Disk

    constructor ()
      ensures disk == Disk(map[], {})
    {
      disk := Disk(map[], {});
    }

    /** MultiprocessLock.acquire, trying again until the time is up. */
    method Acquire(s: nat, tries: nat) returns (raised: bool)
      modifies this
      ensures raised == (s in old(disk.locks))
      ensures disk == if raised then old(disk) else old(disk).(locks := old(disk.locks) + {s})
    {
      var left := tries;
      while s in disk.locks
        invariant disk == old(disk)
        decreases left
      {
        if left == 0 {
          return true;
        }
        left := left - 1;
      }
      disk := disk.(locks := disk.locks + {s});
      raised := false;
    }

    method Release(s: nat)
      modifies this
      ensures disk == old(disk).(locks := old(disk.locks) - {s})
    {
      disk := disk.(locks := disk.locks - {s});
    }

    method Update(s: nat, hit: bool, tries: nat) returns (raised: bool)
      modifies this
      ensures (raised, disk) == Updated(old(disk), s, hit)
    {
      raised := Acquire(s, tries);
      if raised {
        return;
      }
      if s in disk.files {
        var r := ReadText(disk.files[s]);
        if r.Raised? {
          raised := true;
        } else {
          var t := NewText(r.value.0, r.value.1, hit);
          disk := disk.(files := disk.files[s := Overlay(disk.files[s], t)]);
          assert disk.files[s][..|t|] == t;
          disk := disk.(files := disk.files[s := disk.files[s][..|t|]]);
        }
      } else {
        disk := disk.(files := disk.files[s := ""]);
        disk := disk.(files := disk.files[s := Overlay(disk.files[s], NewText(0, 0, hit))]);
      }
      Release(s);
      assert old(disk.locks) + {s} - {s} == old(disk.locks);
      assert !raised ==> disk.files == Updated(old(disk), s, hit).1.files;
    }

    method ReadShard(s: nat, tries: nat) returns (r: Outcome<(nat, nat)>)
      requires s in disk.files
      modifies this
      ensures disk == old(disk)
      ensures r == if s in disk.locks then Raised else ReadText(disk.files[s])
    {
      ghost var before := disk;
      var raised := Acquire(s, tries);
      if raised {
        return Raised;
      }
      r := ReadText(disk.files[s]);
      Release(s);
      assert before.locks + {s} - {s} == before.locks;
    }

    method Read(tries: nat) returns (r: Outcome<(nat, nat)>)
      modifies this
      ensures disk == old(disk)
      ensures r == SumOf(disk, SHARDS)
    {
      var hits, misses := 0, 0;
      for i := 0 to SHARDS
        invariant disk == old(disk)
        invariant SumOf(disk, i) == Returned((hits, misses))
      {
        if i in disk.files {
          var one := ReadShard(i, tries);
          if one.Raised? {
            RaisedStays(disk, i + 1, SHARDS);
            return Raised;
          }
          hits, misses := hits + one.value.0, misses + one.value.1;
        }
      }
      r := Returned((hits, misses));
    }
  }

  /** Where every file reads as the updates taken in and no lock is left, the sums are the updates taken in. */
  lemma {:induction false} SumOfIsTallies(disk: Disk, procs: seq<Proc>, n: nat)
    requires disk.locks == {} && ReadsAreTallies(disk.files, procs)
    ensures SumOf(disk, n) == Returned((SumTally(procs, true, n), SumTally(procs, false, n)))
  {
    hide Tally, ReadText;
    if n > 0 {
      SumOfIsTallies(disk, procs, n - 1);
      assert Reading(disk.files, n - 1) == Returned((Tally(procs, n - 1, true), Tally(procs, n - 1, false)));
    }
  }

  /** read(), after any interleaving of any number of processes that leaves no lock behind, returns exactly the
      hits and the misses that were taken in. */
  lemma ReadIsTallies(st: State, ms: seq<Step>)
    requires Start(st) && Execute(st, ms).disk.locks == {}
    ensures var end := Execute(st, ms);
            SumOf(end.disk, SHARDS) == Returned((SumTally(end.procs, true, SHARDS), SumTally(end.procs, false, SHARDS)))
    ensures var r := SumOf(Execute(st, ms).disk, SHARDS).value;
            r.0 + r.1 == Writers(Execute(st, ms).procs, SHARDS)
  {
    hide Execute, ReadsAreTallies, SumOf, SumTally, Writers;
    NoLostUpdate(st, ms);
    var end := Execute(st, ms);
    SumOfIsTallies(end.disk, end.procs, SHARDS);
    SumTallyIsTotal(end.disk.files, end.procs, SHARDS);
    TotalIsWriters(end.disk.files, end.procs, SHARDS);
  }

  /** It raises exactly if a shard that has a file is locked or does not parse; otherwise hits and misses are
      together what the files add up to. */
  lemma {:induction false} SumOfIsTotal(disk: Disk, n: nat)
    ensures SumOf(disk, n).Raised? <==>
              exists s :: 0 <= s < n && s in disk.files && (s in disk.locks || ReadText(disk.files[s]).Raised?)
    ensures SumOf(disk, n).Returned? ==> SumOf(disk, n).value.0 + SumOf(disk, n).value.1 == Total(disk.files, n)
  {
    hide ReadText;
    if n > 0 {
      SumOfIsTotal(disk, n - 1);
    }
  }

  lemma {:induction false} RaisedStays(disk: Disk, m: nat, n: nat)
    requires m <= n && SumOf(disk, m).Raised?
    ensures SumOf(disk, n).Raised?
  {
    if m < n {
      RaisedStays(disk, m, n - 1);
    }
  }

  /** An update that does not raise adds one to one of the two sums. */
  lemma {:induction false} UpdateAddsOne(disk: Disk, s: nat, hit: bool, n: nat)
    requires !Updated(disk, s, hit).0 && SumOf(disk, n).Returned?
    ensures var before := SumOf(disk, n).value;
            SumOf(Updated(disk, s, hit).1, n) ==
              Returned(if s < n then Plus(before.0, before.1, hit) else before)
  {
    hide ReadText, Text;
    if n > 0 {
      UpdateAddsOne(disk, s, hit, n - 1);
      if n - 1 == s {
        var r := Reading(disk.files, s).value;
        ReadOfText(Plus(r.0, r.1, hit).0, Plus(r.0, r.1, hit).1);
      }
    }
  }

  /** An update raises exactly if its shard is locked or the file does not parse, and then nothing changes. */
  lemma UpdateRaises(disk: Disk, s: nat, hit: bool)
    ensures Updated(disk, s, hit).0 <==> s in disk.locks || (s in disk.files && ReadText(disk.files[s]).Raised?)
    ensures Updated(disk, s, hit).0 ==> Updated(disk, s, hit).1 == disk
  {
    hide ReadText;
  }

  // ----- The machine, with one process moving

  /** A process that goes on without errors until it ends, with the lock free at the start. */
  function Alone(pr: Proc, disk: Disk): (Proc, Disk)
    decreases Rank(pr.pc)
  {
    if pr.pc.Done? || pr.pc.GaveUp? then (pr, disk)
    else
      HolderMovesOn(pr, disk, false);
      var (pr', disk') := Moved(pr, disk, false);
      if pr'.pc == pr.pc then (pr, disk) else Alone(pr', disk')
  }

  lemma AloneStep(pr: Proc, disk: Disk)
    requires !pr.pc.Done? && !pr.pc.GaveUp? && Moved(pr, disk, false).0.pc != pr.pc
    ensures Alone(pr, disk) == Alone(Moved(pr, disk, false).0, Moved(pr, disk, false).1)
  {
    hide Moved, Rank;
  }

  lemma AloneCloses(pr: Proc, disk: Disk)
    requires pr.pc.CloseLock?
    ensures Alone(pr, disk) == (pr.(pc := Done), disk.(locks := disk.locks - {pr.shard}))
  {
    AloneStep(pr, disk);
    AloneStep(pr.(pc := Unlink), disk);
  }

  /** From the moment the lock is held: reading, writing and truncating, or making a new file. */
  lemma AloneWrites(pr: Proc, disk: Disk)
    requires pr.pc.Check? && pr.job.Update? && Reading(disk.files, pr.shard).Returned?
    ensures var r := Reading(disk.files, pr.shard).value;
            var (pr', disk') := Alone(pr, disk);
            && pr' == pr.(pc := Done, wrote := true)
            && disk' == Disk(disk.files[pr.shard := NewText(r.0, r.1, pr.job.hit)], disk.locks - {pr.shard})
  {
    hide ReadText, Overlay, NewText, Alone;
    var s := pr.shard;
    var r := Reading(disk.files, s).value;
    var t := NewText(r.0, r.1, pr.job.hit);
    AloneStep(pr, disk);
    if s in disk.files {
      var over := Overlay(disk.files[s], t);
      OverlayBegins(disk.files[s], t);
      AloneStep(pr.(pc := OpenOld), disk);
      AloneStep(pr.(pc := ReadOld), disk);
      AloneStep(pr.(pc := WriteOld(r.0, r.1)), disk);
      var pr1 := pr.(pc := Truncate(|t|), wrote := true);
      var disk1 := disk.(files := disk.files[s := over]);
      AloneStep(pr1, disk1);
      var disk2 := disk.(files := disk1.files[s := t]);
      AloneCloses(pr1.(pc := CloseLock), disk2);
      assert disk2.files == disk.files[s := t];
    } else {
      OverlayNothing(t);
      AloneStep(pr.(pc := OpenNew), disk);
      var disk1 := disk.(files := disk.files[s := ""]);
      AloneStep(pr.(pc := WriteNew), disk1);
      var disk2 := disk.(files := disk1.files[s := t]);
      AloneCloses(pr.(pc := CloseLock, wrote := true), disk2);
      assert disk2.files == disk.files[s := t];
    }
  }

  /** An undisturbed query of a free shard gets what the file reads as, and leaves everything as it was; without
      a file it does not even take the lock. */
  lemma AloneIsQuery(s: nat, disk: Disk)
    requires Reading(disk.files, s).Returned? && (s in disk.files ==> s !in disk.locks)
    ensures var (pr, after) := Alone(Proc(s, Query, Peek, false, false, None, false), disk);
            pr.pc.Done? && !pr.failed && pr.got == Some(Reading(disk.files, s).value) && after == disk
  {
    hide ReadText, Overlay, NewText, Alone;
    var pr := Proc(s, Query, Peek, false, false, None, false);
    AloneStep(pr, disk);
    var got := pr.(got := Some(Reading(disk.files, s).value));
    if s in disk.files {
      var locked := disk.(locks := disk.locks + {s});
      AloneStep(pr.(pc := Acquire), disk);
      AloneStep(pr.(pc := Check), locked);
      AloneStep(pr.(pc := OpenOld), locked);
      AloneStep(pr.(pc := ReadOld), locked);
      AloneCloses(got.(pc := CloseLock), locked);
      assert locked.locks - {s} == disk.locks;
    } else {
      AloneDone(got.(pc := Done), disk);
    }
  }

  lemma AloneDone(pr: Proc, disk: Disk)
    requires pr.pc.Done?
    ensures Alone(pr, disk) == (pr, disk)
  {
  }

  lemma OverlayBegins(file: string, t: string)
    ensures |Overlay(file, t)| >= |t| && Overlay(file, t)[..|t|] == t
  {
  }

  /** An undisturbed process of the machine updates as the method does. */
  lemma AloneIsUpdate(s: nat, hit: bool, disk: Disk)
    requires !Updated(disk, s, hit).0
    ensures var (pr, after) := Alone(Proc(s, Update(hit), Acquire, false, false, None, false), disk);
            pr.pc.Done? && pr.wrote && !pr.failed && after == Updated(disk, s, hit).1
  {
    hide ReadText, NewText, Alone;
    var pr := Proc(s, Update(hit), Acquire, false, false, None, false);
    AloneStep(pr, disk);
    var locked := disk.(locks := disk.locks + {s});
    AloneWrites(pr.(pc := Check), locked);
    assert locked.locks - {s} == disk.locks;
  }

  /** For instance, nothing is counted where there is no file, and one hit and one miss in different shards are
      counted apart. */
  lemma ReadTwo()
    ensures SumOf(Disk(map[], {}), SHARDS) == Returned((0, 0))
    ensures SumOf(Disk(map[7 := "1 0\n", 9 := "2 5\n"], {}), SHARDS) == Returned((3, 5))
  {
    hide SumOf;
    forall n: nat ensures SumOf(Disk(map[], {}), n) == Returned((0, 0)) {
      NoFilesSum(n);
    }
    TwoFilesSum(SHARDS);
  }

  lemma {:induction false} NoFilesSum(n: nat)
    ensures SumOf(Disk(map[], {}), n) == Returned((0, 0))
  {
    if n > 0 {
      NoFilesSum(n - 1);
    }
  }

  lemma {:induction false} TwoFilesSum(n: nat)
    ensures SumOf(Disk(map[7 := "1 0\n", 9 := "2 5\n"], {}), n)
         == Returned(if n <= 7 then (0, 0) else if n <= 9 then (1, 0) else (3, 5))
  {
    hide ReadText;
    if n > 0 {
      TwoFilesSum(n - 1);
      TwoTexts();
    }
  }

  lemma TwoTexts()
    ensures ReadText("1 0\n") == Returned((1, 0)) && ReadText("2 5\n") == Returned((2, 5))
  {
    assert Text(1, 0) == "1 0\n" && Text(2, 5) == "2 5\n";
    ReadOfText(1, 0);
    ReadOfText(2, 5);
  }
}
