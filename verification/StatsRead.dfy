// ClangTidyCacheStats.read of clang_tidy_cache.py among processes that keep counting: one query after another,
// one for each shard, none of them held up by the others.

module StatsRead {
  import opened Sequences
  import opened Wrappers
  import opened StatsText
  import opened StatsLock

  /** Who has an answer has read the file for the last time. */
  predicate Answered(pr: Proc)
  {
    pr.got.Some? ==> pr.pc.CloseLock? || pr.pc.Unlink? || pr.pc.Done?
  }

  lemma AnswerStays(pr: Proc, disk: Disk, raises: bool)
    requires Answered(pr)
    ensures var pr' := Moved(pr, disk, raises).0;
            Answered(pr') && pr'.shard == pr.shard && (pr.got.Some? ==> pr'.got == pr.got)
  {
    hide Overlay, NewText, ReadText;
  }

  ghost predicate AllAnswered(st: State)
  {
    forall p :: 0 <= p < |st.procs| ==> Answered(st.procs[p])
  }

  lemma StartAnswered(st: State)
    requires Start(st)
    ensures AllAnswered(st)
  {
  }

  lemma StepAnswered(st: State, m: Step)
    requires AllAnswered(st)
    ensures var st' := Apply(st, m);
            && AllAnswered(st') && |st'.procs| == |st.procs|
            && forall p :: 0 <= p < |st.procs| ==>
                 && st'.procs[p].shard == st.procs[p].shard
                 && (st.procs[p].got.Some? ==> st'.procs[p].got == st.procs[p].got)
                 && (p != m.p ==> st'.procs[p] == st.procs[p])
  {
    hide Moved, Answered;
    if m.p < |st.procs| {
      AnswerStays(st.procs[m.p], st.disk, m.raises);
    }
  }

  lemma {:induction false} ExecuteAnswered(st: State, ms: seq<Step>)
    requires AllAnswered(st)
    ensures var end := Execute(st, ms);
            && AllAnswered(end) && |end.procs| == |st.procs|
            && forall p :: 0 <= p < |st.procs| ==>
                 && end.procs[p].shard == st.procs[p].shard
                 && (st.procs[p].got.Some? ==> end.procs[p].got == st.procs[p].got)
    decreases |ms|
  {
    hide Apply, Answered, AllAnswered;
    if ms != [] {
      StepAnswered(st, ms[0]);
      ExecuteAnswered(Apply(st, ms[0]), ms[1..]);
    }
  }

  // ----- Counters only grow

  lemma StepGrows(st: State, m: Step, s: nat)
    requires Inv(st)
    ensures Tally(st.procs, s, true) <= Tally(Apply(st, m).procs, s, true)
    ensures Tally(st.procs, s, false) <= Tally(Apply(st, m).procs, s, false)
  {
    hide Moved, Tally, Exact, Knows, LocksAreHeld, FilesExact, Exclusive, Carries;
    if m.p < |st.procs| {
      var pr := st.procs[m.p];
      FilesAt(st, pr.shard);
      assert KnowsAt(st, m.p);
      MoveOnShard(pr, st.disk, m.raises, Tally(st.procs, pr.shard, true), Tally(st.procs, pr.shard, false));
      TalliesAfter(st, m, s);
    }
  }

  lemma {:induction false} TallyGrows(st: State, ms: seq<Step>, s: nat)
    requires Inv(st)
    ensures Tally(st.procs, s, true) <= Tally(Execute(st, ms).procs, s, true)
    ensures Tally(st.procs, s, false) <= Tally(Execute(st, ms).procs, s, false)
    decreases |ms|
  {
    hide Inv, Apply, Tally;
    if ms != [] {
      StepGrows(st, ms[0], s);
      ApplyInv(st, ms[0]);
      TallyGrows(Apply(st, ms[0]), ms[1..], s);
    }
  }

  // ----- One query

  lemma AnswerIsTally(st: State, m: Step)
    requires Inv(st) && m.p < |st.procs| && st.procs[m.p].got.None? && Apply(st, m).procs[m.p].got.Some?
    ensures var s := st.procs[m.p].shard;
            Apply(st, m).procs[m.p].got == Some((Tally(st.procs, s, true), Tally(st.procs, s, false)))
  {
    hide Moved, Tally, Exact, Reading, LocksAreHeld, Exclusive, KnowsAt;
    var pr := st.procs[m.p];
    QueryReads(pr, st.disk, m.raises);
    FilesAt(st, pr.shard);
    ExactReading(st.disk.files, pr.shard, Tally(st.procs, pr.shard, true), Tally(st.procs, pr.shard, false));
  }

  /** A value between what a shard had taken in at two moments. */
  ghost predicate Between(v: (nat, nat), a: seq<Proc>, b: seq<Proc>, s: nat)
  {
    && Tally(a, s, true) <= v.0 <= Tally(b, s, true)
    && Tally(a, s, false) <= v.1 <= Tally(b, s, false)
  }

  lemma {:induction false} AnswerBetween(st: State, ms: seq<Step>, p: nat)
    requires Inv(st) && AllAnswered(st) && p < |st.procs| && st.procs[p].got.None?
    requires (ExecuteAnswered(st, ms); Execute(st, ms).procs[p].got.Some?)
    ensures var end := Execute(st, ms);
            (ExecuteAnswered(st, ms); Between(end.procs[p].got.value, st.procs, end.procs, st.procs[p].shard))
    decreases |ms|
  {
    hide Inv, Apply, Tally, AllAnswered;
    var s := st.procs[p].shard;
    ExecuteAnswered(st, ms);
    if ms != [] {
      var st1 := Apply(st, ms[0]);
      ApplyInv(st, ms[0]);
      StepAnswered(st, ms[0]);
      StepGrows(st, ms[0], s);
      if st1.procs[p].got.Some? {
        AnswerIsTally(st, ms[0]);
        ExecuteAnswered(st1, ms[1..]);
        TallyGrows(st1, ms[1..], s);
      } else {
        AnswerBetween(st1, ms[1..], p);
      }
    }
  }

  // ----- All shards

  function SumTally(procs: seq<Proc>, hit: bool, n: nat): nat
  {
    if n == 0 then 0 else SumTally(procs, hit, n - 1) + Tally(procs, n - 1, hit)
  }

  /** The processes `q` have their answers: one for each shard. */
  ghost predicate HasAnswers(procs: seq<Proc>, q: seq<nat>)
  {
    forall s :: 0 <= s < |q| ==> q[s] < |procs| && procs[q[s]].got.Some?
  }

  function SumAnswers(procs: seq<Proc>, q: seq<nat>, hit: bool, n: nat): nat
    requires n <= |q| && HasAnswers(procs, q)
  {
    if n == 0 then 0
    else
      var v := procs[q[n - 1]].got.value;
      SumAnswers(procs, q, hit, n - 1) + if hit then v.0 else v.1
  }

  lemma {:induction false} SumsBetween(a: seq<Proc>, b: seq<Proc>, q: seq<nat>, n: nat)
    requires n <= |q| && HasAnswers(b, q)
    requires forall s :: 0 <= s < n ==> Between(b[q[s]].got.value, a, b, s)
    ensures SumTally(a, true, n) <= SumAnswers(b, q, true, n) <= SumTally(b, true, n)
    ensures SumTally(a, false, n) <= SumAnswers(b, q, false, n) <= SumTally(b, false, n)
  {
    hide Tally;
    if n > 0 {
      SumsBetween(a, b, q, n - 1);
      assert Between(b[q[n - 1]].got.value, a, b, n - 1);
    }
  }

  /** read(): however its queries and any number of updates are interleaved, the hits and the misses it sums up
      lie between those taken in when it began and those taken in when it was done. */
  lemma ReadIsBetween(st: State, ms: seq<Step>, more: seq<Step>, q: seq<nat>)
    requires Start(st) && |q| == SHARDS
    requires var now := Execute(st, ms);
             forall s :: 0 <= s < SHARDS ==>
               q[s] < |now.procs| && now.procs[q[s]].shard == s && now.procs[q[s]].got.None?
    requires HasAnswers(Execute(Execute(st, ms), more).procs, q)
    ensures var now, end := Execute(st, ms).procs, Execute(Execute(st, ms), more).procs;
            && SumTally(now, true, SHARDS) <= SumAnswers(end, q, true, SHARDS) <= SumTally(end, true, SHARDS)
            && SumTally(now, false, SHARDS) <= SumAnswers(end, q, false, SHARDS) <= SumTally(end, false, SHARDS)
  {
    hide Execute, Inv, AllAnswered, Between, SumTally, SumAnswers;
    StartInv(st);
    StartAnswered(st);
    ExecuteInv(st, ms);
    ExecuteAnswered(st, ms);
    var now := Execute(st, ms);
    ExecuteAnswered(now, more);
    var end := Execute(now, more);
    forall s | 0 <= s < SHARDS ensures Between(end.procs[q[s]].got.value, now.procs, end.procs, s) {
      AnswerBetween(now, more, q[s]);
    }
    SumsBetween(now.procs, end.procs, q, SHARDS);
  }

  /** The two sums together are what the files add up to. */
  lemma {:induction false} SumTallyIsTotal(files: map<nat, string>, procs: seq<Proc>, n: nat)
    requires ReadsAreTallies(files, procs)
    ensures SumTally(procs, true, n) + SumTally(procs, false, n) == Total(files, n)
  {
    hide Tally, Reading;
    if n > 0 {
      SumTallyIsTotal(files, procs, n - 1);
    }
  }

  /** So the whole that is read lies between what the files added up to at the two moments. */
  lemma ReadIsBetweenTotals(st: State, ms: seq<Step>, more: seq<Step>, q: seq<nat>)
    requires Start(st) && |q| == SHARDS
    requires var now := Execute(st, ms);
             forall s :: 0 <= s < SHARDS ==>
               q[s] < |now.procs| && now.procs[q[s]].shard == s && now.procs[q[s]].got.None?
    requires HasAnswers(Execute(Execute(st, ms), more).procs, q)
    ensures var now, end := Execute(st, ms), Execute(Execute(st, ms), more);
            Total(now.disk.files, SHARDS)
              <= SumAnswers(end.procs, q, true, SHARDS) + SumAnswers(end.procs, q, false, SHARDS)
              <= Total(end.disk.files, SHARDS)
  {
    hide Execute, Total, SumTally, SumAnswers, HasAnswers, Inv;
    ReadIsBetween(st, ms, more, q);
    var now, end := Execute(st, ms), Execute(Execute(st, ms), more);
    StartInv(st);
    ExecuteInv(st, ms);
    ExecuteInv(now, more);
    InvReads(now);
    InvReads(end);
    SumTallyIsTotal(now.disk.files, now.procs, SHARDS);
    SumTallyIsTotal(end.disk.files, end.procs, SHARDS);
  }

  lemma InvReads(st: State)
    requires Inv(st)
    ensures ReadsAreTallies(st.disk.files, st.procs)
  {
    hide Exact, Tally, Reading, LocksAreHeld, Exclusive, KnowsAt;
    forall s: nat ensures Reading(st.disk.files, s) == Returned((Tally(st.procs, s, true), Tally(st.procs, s, false))) {
      FilesAt(st, s);
      ExactReading(st.disk.files, s, Tally(st.procs, s, true), Tally(st.procs, s, false));
    }
  }
}
