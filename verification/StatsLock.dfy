// The hit counters of clang_tidy_cache.py under many processes: 256 counter files, each with a lock file
// made by exclusive creation, and processes that update or query one of them, interleaved system call by
// system call. Nothing here makes a process wait its turn except the lock file itself.

module StatsLock {
  import opened Sequences
  import opened StatsText
  import opened Wrappers

  datatype Job = Update(hit: bool) | Query

  datatype Pc =
    | Peek                          // is there a file at all? (queries only)
    | Acquire                       // open(lock, O_CREAT | O_EXCL)
    | Check                         // is there a file, now that the lock is held?
    | OpenOld                       // open(file, 'r+'), or 'r' for a query
    | ReadOld
    | WriteOld(hits: nat, misses: nat)
    | Truncate(length: nat)
    | OpenNew                       // open(file, 'w'), which empties the file
    | WriteNew
    | CloseLock
    | Unlink
    | Done
    | GaveUp                        // the lock was not obtained

  /** `wrote`: the counters took this update in; `failed`: some call raised; `got`: a query's answer;
      `leaked`: the lock could not be closed or unlinked, which release() passes over in silence. */
  datatype Proc = Proc(shard: nat, job: Job, pc: Pc, wrote: bool, failed: bool, got: Option<(nat, nat)>, leaked: bool)

  datatype Disk = Disk(files: map<nat, string>, locks: set<nat>)

  datatype State = State(disk: Disk, procs: seq<Proc>)

  predicate Critical(pc: Pc)
  {
    !pc.Peek? && !pc.Acquire? && !pc.Done? && !pc.GaveUp?
  }

  /** Inside the critical section, or gone without taking the lock file along. */
  predicate Holds(pr: Proc)
  {
    Critical(pr.pc) || pr.leaked
  }

  function Plus(hits: nat, misses: nat, hit: bool): (nat, nat)
  {
    if hit then (hits + 1, misses) else (hits, misses + 1)
  }

  function NewText(hits: nat, misses: nat, hit: bool): string
  {
    var (h, m) := Plus(hits, misses, hit);
    Text(h, m)
  }

  /** An error inside the critical section is logged or passed on; the lock is released either way. */
  function Fail(pr: Proc): Proc
  {
    pr.(pc := CloseLock, failed := true)
  }

  function AtAcquire(pr: Proc, disk: Disk, raises: bool): (Proc, Disk)
  {
    if raises then (pr.(pc := GaveUp, failed := true), disk)
    else if pr.shard in disk.locks then (pr, disk)
    else (pr.(pc := Check), disk.(locks := disk.locks + {pr.shard}))
  }

  function AtReadOld(pr: Proc, disk: Disk, raises: bool): Proc
  {
    if raises || pr.shard !in disk.files then Fail(pr)
    else
      var r := ReadText(disk.files[pr.shard]);
      if r.Raised? then Fail(pr)
      else if pr.job.Query? then pr.(pc := CloseLock, got := Some(r.value))
      else pr.(pc := WriteOld(r.value.0, r.value.1))
  }

  /** One call of a process; `raises` says that it fails (for `Acquire`, that the wait is over). */
  function Moved(pr: Proc, disk: Disk, raises: bool): (Proc, Disk)
  {
    var s := pr.shard;
    match pr.pc
    case Peek => (if s in disk.files then pr.(pc := Acquire) else pr.(pc := Done, got := Some((0, 0))), disk)
    case Acquire => AtAcquire(pr, disk, raises)
    case Check =>
      (if s in disk.files then pr.(pc := OpenOld)
       else if pr.job.Query? then pr.(pc := CloseLock, got := Some((0, 0)))
       else pr.(pc := OpenNew), disk)
    case OpenOld => (if raises || s !in disk.files then Fail(pr) else pr.(pc := ReadOld), disk)
    case ReadOld => (AtReadOld(pr, disk, raises), disk)
    case WriteOld(h, m) =>
      if raises || s !in disk.files || pr.job.Query? then (Fail(pr), disk)
      else
        var t := NewText(h, m, pr.job.hit);
        (pr.(pc := Truncate(|t|), wrote := true),
         disk.(files := disk.files[s := Overlay(disk.files[s], t)]))
    case Truncate(n) =>
      if raises || s !in disk.files || |disk.files[s]| < n then (Fail(pr), disk)
      else (pr.(pc := CloseLock), disk.(files := disk.files[s := disk.files[s][..n]]))
    case OpenNew => if raises then (Fail(pr), disk) else (pr.(pc := WriteNew), disk.(files := disk.files[s := ""]))
    case WriteNew =>
      if raises || s !in disk.files || pr.job.Query? then (Fail(pr), disk)
      else (pr.(pc := CloseLock, wrote := true),
            disk.(files := disk.files[s := Overlay(disk.files[s], NewText(0, 0, pr.job.hit))]))
    case CloseLock => (if raises then pr.(pc := Done, leaked := true) else pr.(pc := Unlink), disk)
    case Unlink =>
      if raises then (pr.(pc := Done, leaked := true), disk)
      else (pr.(pc := Done), disk.(locks := disk.locks - {s}))
    case Done => (pr, disk)
    case GaveUp => (pr, disk)
  }

  datatype Step = Step(p: nat, raises: bool)

  function Apply(st: State, m: Step): State
  {
    if m.p >= |st.procs| then st
    else
      var (pr, disk) := Moved(st.procs[m.p], st.disk, m.raises);
      State(disk, st.procs[m.p := pr])
  }

  function Execute(st: State, ms: seq<Step>): State
    decreases |ms|
  {
    if ms == [] then st else Execute(Apply(st, ms[0]), ms[1..])
  }

  // ----- Counting

  predicate Counts(pr: Proc, s: nat, hit: bool)
  {
    pr.wrote && pr.shard == s && pr.job == Update(hit)
  }

  /** How many updates of one kind the counters of a shard took in. */
  function Tally(procs: seq<Proc>, s: nat, hit: bool): nat
  {
    if procs == [] then 0 else (if Counts(procs[0], s, hit) then 1 else 0) + Tally(procs[1..], s, hit)
  }

  lemma {:induction false} TallyChanges(procs: seq<Proc>, p: nat, pr: Proc, s: nat, hit: bool)
    requires p < |procs|
    ensures Tally(procs[p := pr], s, hit)
         == Tally(procs, s, hit) - (if Counts(procs[p], s, hit) then 1 else 0) + (if Counts(pr, s, hit) then 1 else 0)
  {
    hide Counts;
    if p > 0 {
      TallyChanges(procs[1..], p - 1, pr, s, hit);
      assert procs[p := pr][1..] == procs[1..][p - 1 := pr];
    } else {
      assert procs[p := pr][1..] == procs[1..];
    }
  }

  // ----- The invariant

  /** A counter file says exactly what was taken in: its text is the two numbers, or nothing yet. */
  ghost predicate Exact(files: map<nat, string>, s: nat, h: nat, m: nat)
  {
    if s in files then files[s] == Text(h, m) || (files[s] == "" && h == 0 && m == 0)
    else h == 0 && m == 0
  }

  /** What a process inside the critical section knows of the file. */
  ghost predicate Knows(pr: Proc, files: map<nat, string>, h: nat, m: nat)
  {
    match pr.pc
    case OpenOld => pr.shard in files
    case ReadOld => pr.shard in files
    case WriteOld(x, y) => pr.shard in files && x == h && y == m
    case Truncate(n) => pr.shard in files && n == |files[pr.shard]|
    case OpenNew => pr.shard !in files
    case WriteNew => pr.shard in files && files[pr.shard] == ""
    case _ => true
  }

  /** What a process carries with it at each place. */
  ghost predicate Carries(pr: Proc)
  {
    && (pr.wrote ==> pr.job.Update? && (pr.pc.Truncate? || pr.pc.CloseLock? || pr.pc.Unlink? || pr.pc.Done?))
    && (pr.pc.Truncate? ==> pr.wrote)
    && (pr.pc.Peek? ==> pr.job.Query?)
    && (pr.pc.WriteOld? || pr.pc.OpenNew? || pr.pc.WriteNew? ==> pr.job.Update?)
    && (pr.pc.GaveUp? ==> pr.failed)
    && (pr.leaked ==> pr.pc.Done?)
    && (pr.pc.CloseLock? || pr.pc.Unlink? || pr.pc.Done? ==>
          pr.failed || (if pr.job.Update? then pr.wrote else pr.got.Some?))
  }

  ghost predicate Exclusive(procs: seq<Proc>)
  {
    forall p, q :: 0 <= p < q < |procs| && Holds(procs[p]) && Holds(procs[q]) ==> procs[p].shard != procs[q].shard
  }

  ghost predicate LocksAreHeld(st: State)
  {
    && (forall p :: 0 <= p < |st.procs| && Holds(st.procs[p]) ==> st.procs[p].shard in st.disk.locks)
    && forall s :: s in st.disk.locks ==>
         exists p :: 0 <= p < |st.procs| && Holds(st.procs[p]) && st.procs[p].shard == s
  }

  ghost predicate FilesExact(st: State)
  {
    forall s: nat :: Exact(st.disk.files, s, Tally(st.procs, s, true), Tally(st.procs, s, false))
  }

  ghost predicate KnowsAt(st: State, p: nat)
    requires p < |st.procs|
  {
    var pr := st.procs[p];
    Carries(pr) && Knows(pr, st.disk.files, Tally(st.procs, pr.shard, true), Tally(st.procs, pr.shard, false))
  }

  ghost predicate Inv(st: State)
  {
    && Exclusive(st.procs)
    && LocksAreHeld(st)
    && FilesExact(st)
    && forall p :: 0 <= p < |st.procs| ==> KnowsAt(st, p)
  }

  /** Nothing on disk, and nobody has begun. */
  ghost predicate Start(st: State)
  {
    && st.disk == Disk(map[], {})
    && forall p :: 0 <= p < |st.procs| ==>
         var pr := st.procs[p];
         pr.pc == (if pr.job.Query? then Peek else Acquire) && !pr.wrote && !pr.failed && pr.got.None? && !pr.leaked
  }

  lemma {:induction false} NothingTallied(procs: seq<Proc>, s: nat, hit: bool)
    requires forall p :: 0 <= p < |procs| ==> !procs[p].wrote
    ensures Tally(procs, s, hit) == 0
  {
    if procs != [] {
      NothingTallied(procs[1..], s, hit);
    }
  }

  lemma StartInv(st: State)
    requires Start(st)
    ensures Inv(st)
  {
    hide Tally;
    forall s: nat ensures Exact(st.disk.files, s, Tally(st.procs, s, true), Tally(st.procs, s, false)) {
      NothingTallied(st.procs, s, true);
      NothingTallied(st.procs, s, false);
    }
  }

  /** What a move does to the tallies of its own shard: a write adds one update of its kind, once. */
  function After(pr: Proc, pr': Proc, h: nat, m: nat): (nat, nat)
  {
    if pr'.wrote && !pr.wrote && pr.job.Update? then Plus(h, m, pr.job.hit) else (h, m)
  }

  /** The move of one process, on its own shard, with the lock in hand wherever it matters. */
  lemma MoveOnShard(pr: Proc, disk: Disk, raises: bool, h: nat, m: nat)
    requires Carries(pr) && Knows(pr, disk.files, h, m) && Exact(disk.files, pr.shard, h, m)
    ensures var (pr', disk') := Moved(pr, disk, raises);
            var (h', m') := After(pr, pr', h, m);
            && Carries(pr') && Knows(pr', disk'.files, h', m') && Exact(disk'.files, pr.shard, h', m')
            && pr'.shard == pr.shard && pr'.job == pr.job && (pr.wrote ==> pr'.wrote)
  {
    hide Text, ReadText, Overlay;
    NewTextCovers(h, m, Plus(h, m, true).0, Plus(h, m, true).1);
    NewTextCovers(h, m, Plus(h, m, false).0, Plus(h, m, false).1);
    ReadOfText(h, m);
    NoWords();
    OverlayNothing(NewText(h, m, true));
    OverlayNothing(NewText(h, m, false));
    match pr.pc
    case Truncate(n) => assert disk.files[pr.shard][..n] == disk.files[pr.shard];
    case _ =>
  }

  lemma OverlayNothing(v: string)
    ensures Overlay("", v) == v
  {
  }

  /** A move touches nothing of any other shard. */
  lemma MoveElsewhere(pr: Proc, disk: Disk, raises: bool, s: nat)
    requires s != pr.shard
    ensures var disk' := Moved(pr, disk, raises).1;
            && (s in disk'.files <==> s in disk.files) && (s in disk.files ==> disk'.files[s] == disk.files[s])
            && (s in disk'.locks <==> s in disk.locks)
  {
    hide Overlay, NewText;
  }

  /** Who changes the file or the lock of a shard. */
  lemma MoveNeedsLock(pr: Proc, disk: Disk, raises: bool)
    requires Carries(pr)
    ensures var (pr', disk') := Moved(pr, disk, raises);
            && pr'.shard == pr.shard
            && (!Critical(pr.pc) ==> disk'.files == disk.files && pr'.wrote == pr.wrote)
            && (Holds(pr') && !Holds(pr) ==> pr.shard !in disk.locks)
            && disk'.locks == if Holds(pr) == Holds(pr') then disk.locks
                              else if Holds(pr') then disk.locks + {pr.shard}
                              else disk.locks - {pr.shard}
  {
    hide Overlay, NewText, ReadText;
  }

  lemma ExclusiveKept(st: State, m: Step)
    requires Exclusive(st.procs) && LocksAreHeld(st) && m.p < |st.procs| && Carries(st.procs[m.p])
    ensures Exclusive(Apply(st, m).procs)
  {
    hide Moved, Holds, Critical, Carries;
    MoveNeedsLock(st.procs[m.p], st.disk, m.raises);
  }

  lemma LocksKept(st: State, m: Step)
    requires Exclusive(st.procs) && LocksAreHeld(st) && m.p < |st.procs| && Carries(st.procs[m.p])
    ensures LocksAreHeld(Apply(st, m))
  {
    hide Moved, Holds, Critical, Carries;
    var pr := st.procs[m.p];
    MoveNeedsLock(pr, st.disk, m.raises);
    var st' := Apply(st, m);
    forall s | s in st'.disk.locks
      ensures exists p :: 0 <= p < |st'.procs| && Holds(st'.procs[p]) && st'.procs[p].shard == s
    {
      if s in st.disk.locks {
        var p :| 0 <= p < |st.procs| && Holds(st.procs[p]) && st.procs[p].shard == s;
        assert p != m.p ==> st'.procs[p] == st.procs[p];
        assert p == m.p ==> st'.procs[p].shard == s;
      } else {
        assert st'.procs[m.p].shard == s;
      }
    }
  }

  /** The tallies after a step, of every shard. */
  lemma TalliesAfter(st: State, m: Step, s: nat)
    requires m.p < |st.procs|
    requires var pr := st.procs[m.p];
             var pr' := Moved(pr, st.disk, m.raises).0;
             pr'.shard == pr.shard && pr'.job == pr.job && (pr.wrote ==> pr'.wrote)
    ensures var pr := st.procs[m.p];
            var pr' := Moved(pr, st.disk, m.raises).0;
            var st' := Apply(st, m);
            (Tally(st'.procs, s, true), Tally(st'.procs, s, false))
            == if s == pr.shard then After(pr, pr', Tally(st.procs, s, true), Tally(st.procs, s, false))
               else (Tally(st.procs, s, true), Tally(st.procs, s, false))
  {
    hide Moved, Tally;
    var pr' := Moved(st.procs[m.p], st.disk, m.raises).0;
    TallyChanges(st.procs, m.p, pr', s, true);
    TallyChanges(st.procs, m.p, pr', s, false);
  }

  lemma FilesKept(st: State, m: Step)
    requires Inv(st) && m.p < |st.procs|
    ensures FilesExact(Apply(st, m)) && KnowsAt(Apply(st, m), m.p)
  {
    hide Moved, Tally, Exact, Knows, Carries, Exclusive, LocksAreHeld, After;
    var pr := st.procs[m.p];
    var st' := Apply(st, m);
    assert KnowsAt(st, m.p);
    MoveOnShard(pr, st.disk, m.raises, Tally(st.procs, pr.shard, true), Tally(st.procs, pr.shard, false));
    forall s: nat ensures Exact(st'.disk.files, s, Tally(st'.procs, s, true), Tally(st'.procs, s, false)) {
      TalliesAfter(st, m, s);
      if s != pr.shard {
        MoveElsewhere(pr, st.disk, m.raises, s);
        ExactElsewhere(st.disk.files, st'.disk.files, s, Tally(st.procs, s, true), Tally(st.procs, s, false));
      }
    }
    TalliesAfter(st, m, pr.shard);
  }

  lemma ExactElsewhere(files: map<nat, string>, files': map<nat, string>, s: nat, h: nat, m: nat)
    requires Exact(files, s, h, m)
    requires (s in files' <==> s in files) && (s in files ==> files'[s] == files[s])
    ensures Exact(files', s, h, m)
  {
    hide Text;
  }

  lemma KnowsElsewhere(pr: Proc, files: map<nat, string>, files': map<nat, string>, h: nat, m: nat)
    requires Knows(pr, files, h, m)
    requires (pr.shard in files' <==> pr.shard in files) && (pr.shard in files ==> files'[pr.shard] == files[pr.shard])
    ensures Knows(pr, files', h, m)
  {
  }

  lemma KnowsOutside(pr: Proc, files: map<nat, string>, h: nat, m: nat)
    requires !Critical(pr.pc)
    ensures Knows(pr, files, h, m)
  {
  }

  /** Everyone else still knows what they knew: the mover is on another shard, or outside, or they are. */
  lemma OthersKnow(st: State, m: Step, q: nat)
    requires Inv(st) && m.p < |st.procs| && q < |st.procs| && q != m.p
    ensures KnowsAt(Apply(st, m), q)
  {
    hide Moved, Tally, Exact, Knows, Carries, LocksAreHeld, FilesExact, Critical;
    var pr := st.procs[m.p];
    var other := st.procs[q];
    var st' := Apply(st, m);
    assert KnowsAt(st, q) && KnowsAt(st, m.p);
    assert FilesExact(st);
    FilesAt(st, pr.shard);
    MoveOnShard(pr, st.disk, m.raises, Tally(st.procs, pr.shard, true), Tally(st.procs, pr.shard, false));
    TalliesAfter(st, m, other.shard);
    var h, n := Tally(st.procs, other.shard, true), Tally(st.procs, other.shard, false);
    if other.shard != pr.shard {
      MoveElsewhere(pr, st.disk, m.raises, other.shard);
      KnowsElsewhere(other, st.disk.files, st'.disk.files, h, n);
    } else if Critical(other.pc) {
      assert !Critical(pr.pc) by {
        assert Holds(other);
        assert q < m.p || m.p < q;
      }
      MoveNeedsLock(pr, st.disk, m.raises);
      KnowsElsewhere(other, st.disk.files, st'.disk.files, h, n);
    } else {
      KnowsOutside(other, st'.disk.files, Tally(st'.procs, other.shard, true), Tally(st'.procs, other.shard, false));
    }
  }

  lemma CarriesAt(st: State, p: nat)
    requires p < |st.procs| && KnowsAt(st, p)
    ensures Carries(st.procs[p])
  {
  }

  lemma FilesAt(st: State, s: nat)
    requires FilesExact(st)
    ensures Exact(st.disk.files, s, Tally(st.procs, s, true), Tally(st.procs, s, false))
  {
    hide Exact, Tally;
  }

  lemma ApplyInv(st: State, m: Step)
    requires Inv(st)
    ensures Inv(Apply(st, m))
  {
    hide Moved, Tally, KnowsAt, Exclusive, LocksAreHeld, FilesExact;
    if m.p < |st.procs| {
      assert Carries(st.procs[m.p]) by { CarriesAt(st, m.p); }
      ExclusiveKept(st, m);
      LocksKept(st, m);
      FilesKept(st, m);
      forall q | 0 <= q < |st.procs| ensures KnowsAt(Apply(st, m), q) {
        if q != m.p {
          OthersKnow(st, m, q);
        }
      }
    }
  }

  lemma {:induction false} ExecuteInv(st: State, ms: seq<Step>)
    requires Inv(st)
    ensures Inv(Execute(st, ms))
    decreases |ms|
  {
    hide Inv, Apply;
    if ms != [] {
      ApplyInv(st, ms[0]);
      ExecuteInv(Apply(st, ms[0]), ms[1..]);
    }
  }

  // ----- What holds in every reachable state

  /** What read_from_file would say of a shard now, with no file counting as zeros. */
  function Reading(files: map<nat, string>, s: nat): Outcome<(nat, nat)>
  {
    if s in files then ReadText(files[s]) else Returned((0, 0))
  }

  lemma ExactReading(files: map<nat, string>, s: nat, h: nat, m: nat)
    requires Exact(files, s, h, m)
    ensures Reading(files, s) == Returned((h, m))
  {
    hide Text, ReadText;
    ReadOfText(h, m);
    NoWords();
  }

  /** No two processes are in the critical section of one shard, and its lock file is there exactly while
      somebody is, or somebody's release failed. */
  lemma MutualExclusion(st: State, ms: seq<Step>)
    requires Start(st)
    ensures var end := Execute(st, ms);
            && (forall p, q :: 0 <= p < q < |end.procs| && Critical(end.procs[p].pc) && Critical(end.procs[q].pc)
                  ==> end.procs[p].shard != end.procs[q].shard)
            && forall s :: s in end.disk.locks <==>
                 exists p :: 0 <= p < |end.procs| && end.procs[p].shard == s
                          && (Critical(end.procs[p].pc) || end.procs[p].leaked)
  {
    StartInv(st);
    ExecuteInv(st, ms);
    hide Execute, Critical, FilesExact, KnowsAt;
    var end := Execute(st, ms);
    assert forall p :: 0 <= p < |end.procs| && Critical(end.procs[p].pc) ==> Holds(end.procs[p]);
    forall s | s in end.disk.locks
      ensures exists p :: 0 <= p < |end.procs| && end.procs[p].shard == s
                       && (Critical(end.procs[p].pc) || end.procs[p].leaked)
    {
      var p :| 0 <= p < |end.procs| && Holds(end.procs[p]) && end.procs[p].shard == s;
    }
    forall p | 0 <= p < |end.procs| && (Critical(end.procs[p].pc) || end.procs[p].leaked)
      ensures end.procs[p].shard in end.disk.locks
    {
      assert Holds(end.procs[p]);
    }
  }

  ghost predicate ReadsAreTallies(files: map<nat, string>, procs: seq<Proc>)
  {
    forall s: nat :: Reading(files, s) == Returned((Tally(procs, s, true), Tally(procs, s, false)))
  }

  /** At any moment, even in the middle of somebody's update, every counter file reads as the number of
      updates taken in; and an update that ended without an error was taken in. */
  lemma NoLostUpdate(st: State, ms: seq<Step>)
    requires Start(st)
    ensures var end := Execute(st, ms);
            && ReadsAreTallies(end.disk.files, end.procs)
            && forall p :: 0 <= p < |end.procs| && end.procs[p].pc.Done? && end.procs[p].job.Update? ==>
                 end.procs[p].failed || end.procs[p].wrote
  {
    StartInv(st);
    ExecuteInv(st, ms);
    var end := Execute(st, ms);
    hide Execute, Exact, Tally, Reading, Knows, LocksAreHeld, Exclusive;
    forall s: nat
      ensures Reading(end.disk.files, s) == Returned((Tally(end.procs, s, true), Tally(end.procs, s, false)))
    {
      FilesAt(end, s);
      ExactReading(end.disk.files, s, Tally(end.procs, s, true), Tally(end.procs, s, false));
    }
    forall p | 0 <= p < |end.procs| && end.procs[p].pc.Done? && end.procs[p].job.Update? && !end.procs[p].failed
      ensures end.procs[p].wrote
    {
      assert KnowsAt(end, p);
    }
  }

  // ----- The sum over all shards

  const SHARDS: nat := 256

  /** Hits and misses over the shards below `n`, as the files have them. */
  function Total(files: map<nat, string>, n: nat): nat
  {
    if n == 0 then 0
    else
      var r := Reading(files, n - 1);
      Total(files, n - 1) + if r.Returned? then r.value.0 + r.value.1 else 0
  }

  /** The updates taken in on shards below `n`. */
  function Writers(procs: seq<Proc>, n: nat): nat
  {
    if procs == [] then 0
    else (if procs[0].wrote && procs[0].job.Update? && procs[0].shard < n then 1 else 0) + Writers(procs[1..], n)
  }

  lemma {:induction false} WritersAt(procs: seq<Proc>, n: nat)
    ensures Writers(procs, n + 1) == Writers(procs, n) + Tally(procs, n, true) + Tally(procs, n, false)
  {
    if procs != [] {
      WritersAt(procs[1..], n);
    }
  }

  lemma {:induction false} NoWriters(procs: seq<Proc>)
    ensures Writers(procs, 0) == 0
  {
    if procs != [] {
      NoWriters(procs[1..]);
    }
  }

  lemma {:induction false} TotalIsWriters(files: map<nat, string>, procs: seq<Proc>, n: nat)
    requires ReadsAreTallies(files, procs)
    ensures Total(files, n) == Writers(procs, n)
  {
    hide Reading, Tally;
    if n == 0 {
      NoWriters(procs);
    } else {
      TotalIsWriters(files, procs, n - 1);
      WritersAt(procs, n - 1);
    }
  }

  /** Hits and misses summed over the 256 files are the updates taken in. */
  lemma CountersSumToUpdates(st: State, ms: seq<Step>)
    requires Start(st)
    ensures Total(Execute(st, ms).disk.files, SHARDS) == Writers(Execute(st, ms).procs, SHARDS)
  {
    hide Execute, Total, Writers, ReadsAreTallies;
    NoLostUpdate(st, ms);
    TotalIsWriters(Execute(st, ms).disk.files, Execute(st, ms).procs, SHARDS);
  }

  /** What a query gets is what the file reads as. */
  lemma QueryReads(pr: Proc, disk: Disk, raises: bool)
    requires pr.got.None?
    ensures var got := Moved(pr, disk, raises).0.got;
            got.Some? ==> Reading(disk.files, pr.shard) == Returned(got.value)
  {
    hide Overlay, NewText, ReadText;
  }

  /** A query that reads a file reads the exact count of that moment. */
  lemma QueryIsExact(st: State, ms: seq<Step>, m: Step)
    requires Start(st)
    requires var now := Execute(st, ms);
             m.p < |now.procs| && now.procs[m.p].got.None? && Apply(now, m).procs[m.p].got.Some?
    ensures var now := Execute(st, ms);
            var s := now.procs[m.p].shard;
            Apply(now, m).procs[m.p].got == Some((Tally(now.procs, s, true), Tally(now.procs, s, false)))
  {
    hide Execute, Tally, Reading, Moved;
    NoLostUpdate(st, ms);
    var now := Execute(st, ms);
    var pr := now.procs[m.p];
    QueryReads(pr, now.disk, m.raises);
    assert Reading(now.disk.files, pr.shard)
        == Returned((Tally(now.procs, pr.shard, true), Tally(now.procs, pr.shard, false)));
  }

  // ----- The lock is given back

  function Rank(pc: Pc): nat
  {
    match pc
    case Peek => 11
    case Acquire => 10
    case Check => 9
    case OpenOld => 8
    case ReadOld => 7
    case WriteOld(_, _) => 6
    case Truncate(_) => 5
    case OpenNew => 4
    case WriteNew => 3
    case CloseLock => 2
    case Unlink => 1
    case Done => 0
    case GaveUp => 0
  }

  predicate Reads(pc: Pc)
  {
    pc.Peek? || pc.Acquire? || pc.Check? || pc.OpenOld? || pc.ReadOld?
  }

  /** Closer to the end, or waiting, or there. */
  predicate MovesOn(pr: Proc, disk: Disk, raises: bool, pc: Pc)
  {
    || Rank(pc) < Rank(pr.pc)
    || (pc == pr.pc && (pc.Done? || pc.GaveUp? || (pc.Acquire? && pr.shard in disk.locks && !raises)))
  }

  lemma ReaderMovesOn(pr: Proc, disk: Disk, raises: bool)
    requires Reads(pr.pc)
    ensures MovesOn(pr, disk, raises, Moved(pr, disk, raises).0.pc)
  {
    hide Overlay, NewText, ReadText;
  }

  lemma WriterMovesOn(pr: Proc, disk: Disk, raises: bool)
    requires !Reads(pr.pc)
    ensures MovesOn(pr, disk, raises, Moved(pr, disk, raises).0.pc)
  {
    hide Overlay, NewText, AtReadOld, AtAcquire;
  }

  /** A process that holds a lock is never stuck: whatever fails, each of its calls brings it closer to the
      end. Only waiting for a lock can repeat itself. */
  lemma HolderMovesOn(pr: Proc, disk: Disk, raises: bool)
    ensures var pc := Moved(pr, disk, raises).0.pc;
            Rank(pc) < Rank(pr.pc)
            || (pc == pr.pc && (pc.Done? || pc.GaveUp? || (pc.Acquire? && pr.shard in disk.locks && !raises)))
  {
    hide Moved, Rank;
    if Reads(pr.pc) {
      ReaderMovesOn(pr, disk, raises);
    } else {
      WriterMovesOn(pr, disk, raises);
    }
  }

  /** At the end the lock file is gone, unless closing or unlinking it is what failed. */
  lemma LockGivenBack(pr: Proc, disk: Disk, raises: bool)
    requires Critical(pr.pc) && !pr.leaked
    ensures var (pr', disk') := Moved(pr, disk, raises);
            var stuck := (pr.pc.CloseLock? || pr.pc.Unlink?) && raises;
            && pr'.leaked == stuck
            && (!Critical(pr'.pc) ==> (pr.shard in disk'.locks <==> stuck && pr.shard in disk.locks))
  {
    hide Overlay, NewText, ReadText;
  }

  /** A call that fails while the lock is held and the file is in use changes nothing; the process goes on to give
      the lock back. */
  lemma ErrorsAreLogged(pr: Proc, disk: Disk)
    requires pr.pc.OpenOld? || pr.pc.ReadOld? || pr.pc.WriteOld? || pr.pc.Truncate? || pr.pc.OpenNew? || pr.pc.WriteNew?
    ensures Moved(pr, disk, true) == (pr.(pc := CloseLock, failed := true), disk)
  {
    hide Overlay, NewText, ReadText;
  }

  /** So it is where the file is gone. */
  lemma MissingFileFails(pr: Proc, disk: Disk, raises: bool)
    requires pr.pc.OpenOld? || pr.pc.ReadOld?
    requires pr.shard !in disk.files
    ensures Moved(pr, disk, raises) == (pr.(pc := CloseLock, failed := true), disk)
  {
    hide Overlay, NewText, ReadText;
  }

  // ----- After a failed release

  lemma DoneStays(pr: Proc, disk: Disk, raises: bool)
    requires pr.pc.Done?
    ensures Moved(pr, disk, raises) == (pr, disk)
  {
  }

  /** One step with a lock left behind: it stays, and nobody on that shard is or gets inside. */
  lemma LeakStays(st: State, m: Step, p: nat)
    requires Inv(st) && p < |st.procs| && st.procs[p].leaked
    ensures var st' := Apply(st, m);
            var s := st.procs[p].shard;
            && |st'.procs| == |st.procs| && st'.procs[p] == st.procs[p]
            && Tally(st'.procs, s, true) == Tally(st.procs, s, true)
            && Tally(st'.procs, s, false) == Tally(st.procs, s, false)
  {
    hide Moved, Tally, Exact, Knows, LocksAreHeld, FilesExact, Critical;
    if m.p < |st.procs| {
      var pr := st.procs[m.p];
      CarriesAt(st, m.p);
      CarriesAt(st, p);
      if m.p == p {
        DoneStays(pr, st.disk, m.raises);
        assert st.procs[p := pr] == st.procs;
      } else if pr.shard == st.procs[p].shard {
        assert Holds(st.procs[p]);
        assert p < m.p || m.p < p;
        assert !Holds(pr);
        MoveNeedsLock(pr, st.disk, m.raises);
      }
      FilesAt(st, pr.shard);
      assert KnowsAt(st, m.p);
      MoveOnShard(pr, st.disk, m.raises, Tally(st.procs, pr.shard, true), Tally(st.procs, pr.shard, false));
      TalliesAfter(st, m, st.procs[p].shard);
    }
  }

  /** A lock file that was left behind stops its shard for good: nobody gets in, and the counters take nothing
      in any more. */
  lemma {:induction false} LeakedShardIsDead(st: State, ms: seq<Step>, p: nat)
    requires Inv(st) && p < |st.procs| && st.procs[p].leaked
    ensures var end := Execute(st, ms);
            var s := st.procs[p].shard;
            && (forall q :: 0 <= q < |end.procs| && Critical(end.procs[q].pc) ==> end.procs[q].shard != s)
            && Reading(end.disk.files, s) == Returned((Tally(st.procs, s, true), Tally(st.procs, s, false)))
    decreases |ms|
  {
    var s := st.procs[p].shard;
    if ms == [] {
      hide Exact, Tally, Reading, Critical, LocksAreHeld, KnowsAt;
      FilesAt(st, s);
      ExactReading(st.disk.files, s, Tally(st.procs, s, true), Tally(st.procs, s, false));
      CarriesAt(st, p);
      forall q | 0 <= q < |st.procs| && Critical(st.procs[q].pc) ensures st.procs[q].shard != s {
        assert Holds(st.procs[q]) && Holds(st.procs[p]);
        DoneIsOutside(st.procs[p]);
        assert q < p || p < q;
      }
    } else {
      hide Apply, Inv, Tally, Reading, Critical;
      LeakStays(st, ms[0], p);
      ApplyInv(st, ms[0]);
      LeakedShardIsDead(Apply(st, ms[0]), ms[1..], p);
    }
  }

  lemma DoneIsOutside(pr: Proc)
    requires Carries(pr) && pr.leaked
    ensures !Critical(pr.pc)
  {
  }

  /** A lock can be left behind: its holder fails to open the counter file, and then to close the lock. */
  lemma LockCanLeak()
    ensures exists st: State, ms: seq<Step> ::
              Start(st) && |Execute(st, ms).procs| == 1
              && Execute(st, ms).procs[0].leaked && 0 in Execute(st, ms).disk.locks
  {
    hide Overlay, NewText, ReadText;
    var pr := Proc(0, Update(true), Acquire, false, false, None, false);
    var st := State(Disk(map[], {}), [pr]);
    var ok, no := Step(0, false), Step(0, true);
    var held := Disk(map[], {0});
    assert Apply(st, ok) == State(held, [pr.(pc := Check)]);
    assert Apply(State(held, [pr.(pc := Check)]), ok) == State(held, [pr.(pc := OpenNew)]);
    var failed := pr.(pc := CloseLock, failed := true);
    assert Apply(State(held, [pr.(pc := OpenNew)]), no) == State(held, [failed]);
    var gone := State(held, [failed.(pc := Done, leaked := true)]);
    assert Apply(State(held, [failed]), no) == gone;
    FourSteps(st, ok, ok, no, no);
    assert Execute(st, [ok, ok, no, no]) == gone;
  }

  lemma FourSteps(st: State, a: Step, b: Step, c: Step, d: Step)
    ensures Execute(st, [a, b, c, d]) == Apply(Apply(Apply(Apply(st, a), b), c), d)
  {
    hide Apply;
    assert [a, b, c, d][1..] == [b, c, d] && [b, c, d][1..] == [c, d] && [c, d][1..] == [d] && [d][1..] == [];
    assert Execute(Apply(Apply(Apply(st, a), b), c), [d]) == Apply(Apply(Apply(Apply(st, a), b), c), d);
    assert Execute(Apply(Apply(st, a), b), [c, d]) == Execute(Apply(Apply(Apply(st, a), b), c), [d]);
  }
}
