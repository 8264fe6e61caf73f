// The two models of the driver agree: a process whose moves are not interleaved with anyone else's does
// what RunCached says in one piece, failures included.

module TidyAlone {
  import opened Wrappers
  import opened Sequences
  import opened TidyCache
  import opened TidyDriver
  import opened TidyRace

  function TiersOf(st: State): Tiers
  {
    Tiers(st.local, st.remotes, st.writesBack)
  }

  /** How a fault of a local store shows at opening and at writing `v`, all of it in one piece. */
  function OpenMove(s: Setup, p: nat, f: Fault): Step
  {
    Move(p, f.Lost? || (!s.saveOutput && !f.Fine?), !f.Lost?, false, 0)
  }

  function WriteMove(p: nat, f: Fault, v: Data): Step
  {
    if f.Torn? && f.kept == 0 then Move(p, true, false, false, |v|)
    else Move(p, !f.Fine?, true, false, if f.Torn? then f.kept - 1 else |v|)
  }

  /** The move of process `p` in the given weather. */
  function MoveIn(s: Setup, p: nat, look: Weather, keep: Weather, pr: Proc): Step
  {
    match pr.phase
    case AskLocal => Move(p, !look.local.Fine?, true, look.localStats, 0)
    case AskRemote(i) => Move(p, !look.remotes(i).Fine?, true, look.remoteStats, 0)
    case BackOpen(_) => OpenMove(s, p, look.writeback)
    case BackWrite(v, _) => WriteMove(p, look.writeback, v)
    case KeepOpen => OpenMove(s, p, keep.local)
    case KeepWrite(_) => WriteMove(p, keep.local, Frame(pr.said))
    case KeepRemote(i) => Move(p, !keep.remotes(i).Fine?, keep.remotes(i).Fine? || keep.remotes(i).Late?, false, 0)
    case _ => Move(p, false, true, false, 0)
  }

  /** A process that moves until it is done, with nobody in between. */
  function Alone(s: Setup, st: State, pr: Proc, p: nat, look: Weather, keep: Weather): (Answer, State)
    decreases Rank(|st.remotes|, pr.phase), Left(pr)
  {
    if pr.phase.Finished? then (pr.phase.answer, st)
    else
      var m := MoveIn(s, p, look, keep, pr);
      MovesEnd(s, st, pr, m);
      var (phase, st') := Moved(s, st, pr, m);
      Alone(s, st', pr.(phase := phase), p, look, keep)
  }

  /** One move on. */
  lemma AloneStep(s: Setup, st: State, pr: Proc, p: nat, look: Weather, keep: Weather)
    requires !pr.phase.Finished?
    ensures var (phase, st') := Moved(s, st, pr, MoveIn(s, p, look, keep, pr));
            Alone(s, st, pr, p, look, keep) == Alone(s, st', pr.(phase := phase), p, look, keep)
  {
    hide Moved, MoveIn;
  }

  lemma AloneDone(s: Setup, st: State, pr: Proc, p: nat, look: Weather, keep: Weather)
    requires pr.phase.Finished?
    ensures Alone(s, st, pr, p, look, keep) == (pr.phase.answer, st)
  {
  }

  /** It is one of the executions of the interleaved machine. */
  lemma {:induction false} AloneIsAnExecution(s: Setup, st: State, p: nat, look: Weather, keep: Weather)
    returns (ms: seq<Step>)
    requires p < |st.procs|
    ensures var end := Execute(s, st, ms);
            var (a, st') := Alone(s, st, st.procs[p], p, look, keep);
            && |end.procs| == |st.procs| && end.procs[p].phase.Finished? && end.procs[p].phase.answer == a
            && TiersOf(end) == TiersOf(st')
    decreases Rank(|st.remotes|, st.procs[p].phase), Left(st.procs[p])
  {
    hide Moved, MoveIn, Alone, Rank, Left;
    var pr := st.procs[p];
    if pr.phase.Finished? {
      ms := [];
      AloneDone(s, st, pr, p, look, keep);
    } else {
      var m := MoveIn(s, p, look, keep, pr);
      MoveOf(s, p, look, keep, pr);
      MovesEnd(s, st, pr, m);
      AloneStep(s, st, pr, p, look, keep);
      var (phase, st1) := Moved(s, st, pr, m);
      MovedKeepsProcs(s, st, pr, m);
      var st2 := Apply(s, st, m);
      assert st2.procs[p] == pr.(phase := phase);
      var rest := AloneIsAnExecution(s, st2, p, look, keep);
      AloneIgnoresProcs(s, st1, st2.procs, pr.(phase := phase), p, look, keep);
      ms := [m] + rest;
      assert ms[1..] == rest;
    }
  }

  lemma MoveOf(s: Setup, p: nat, look: Weather, keep: Weather, pr: Proc)
    ensures MoveIn(s, p, look, keep, pr).Move? && MoveIn(s, p, look, keep, pr).p == p
  {
  }

  lemma MovedKeepsProcs(s: Setup, st: State, pr: Proc, m: Step)
    requires m.Move?
    ensures Moved(s, st, pr, m).1.procs == st.procs
  {
  }

  /** Nobody looks at the table of processes. */
  lemma {:induction false} AloneIgnoresProcs(s: Setup, st: State, procs: seq<Proc>, pr: Proc, p: nat, look: Weather,
                                             keep: Weather)
    ensures var (a, st') := Alone(s, st, pr, p, look, keep);
            Alone(s, st.(procs := procs), pr, p, look, keep) == (a, st'.(procs := procs))
    decreases Rank(|st.remotes|, pr.phase), Left(pr)
  {
    hide Moved, MoveIn, Alone, Rank, Left;
    var st2 := st.(procs := procs);
    if pr.phase.Finished? {
      AloneDone(s, st, pr, p, look, keep);
      AloneDone(s, st2, pr, p, look, keep);
    } else {
      var m := MoveIn(s, p, look, keep, pr);
      MoveOf(s, p, look, keep, pr);
      MovesEnd(s, st, pr, m);
      AloneStep(s, st, pr, p, look, keep);
      AloneStep(s, st2, pr, p, look, keep);
      MovedIgnoresProcs(s, st, procs, pr, m);
      var (phase, st1) := Moved(s, st, pr, m);
      AloneIgnoresProcs(s, st1, procs, pr.(phase := phase), p, look, keep);
    }
  }

  lemma MovedIgnoresProcs(s: Setup, st: State, procs: seq<Proc>, pr: Proc, m: Step)
    requires m.Move?
    ensures var (phase, st') := Moved(s, st, pr, m);
            Moved(s, st.(procs := procs), pr, m) == (phase, st'.(procs := procs))
  {
    hide Opened, Written, RemoteStore, Hit, RealRun, Stored, ToStore, Frame, Found;
  }

  // ----- From each phase

  lemma {:induction false} AloneKeepRemote(s: Setup, st: State, pr: Proc, p: nat, look: Weather, keep: Weather, i: nat)
    requires pr.hash.Key? && pr.phase == KeepRemote(i) && i <= |st.remotes|
    ensures Alone(s, st, pr, p, look, keep)
         == (RealRun(s, pr.said),
             st.(remotes := StoreRemotes(st.remotes, keep, pr.hash.digest, ToStore(s, pr.said), i).1))
    decreases |st.remotes| - i
  {
    hide Alone, RealRun, ToStore, Stored;
    AloneStep(s, st, pr, p, look, keep);
    var (phase, st') := Moved(s, st, pr, MoveIn(s, p, look, keep, pr));
    if phase.Finished? {
      AloneDone(s, st', pr.(phase := phase), p, look, keep);
    } else {
      AloneKeepRemote(s, st', pr.(phase := phase), p, look, keep, i + 1);
    }
  }

  /** Opening and writing together are LocalStore. */
  lemma OpenThenWrite(s: Setup, local: Option<Entries>, d: Digest, item: Item, p: nat, f: Fault)
    requires local.Some? && item.Output? == s.saveOutput
    ensures var (raised, es) := LocalStore(local.value, f, d, item);
            var m1 := OpenMove(s, p, f);
            var emptied := Opened(local, d, m1.takes);
            if m1.raises || !s.saveOutput then (raised, Some(es)) == (m1.raises, emptied)
            else
              var m2 := WriteMove(p, f, item.data);
              var n := Reached(item.data, 0, m2);
              (raised, Some(es)) == (m2.raises, Written(emptied, d, item.data, 0, n, m2.takes))
              && (!m2.raises ==> n == |item.data|)
  {
    if s.saveOutput && !f.Lost? {
      var v := item.data;
      var m2 := WriteMove(p, f, v);
      var n := Reached(v, 0, m2);
      WriteAtStart([], v[0..n]);
      OnlyPiece(v[0..n]);
      assert v[0..|v|] == v && v[0..n] == v[..n];
      assert local.value[d := []][d := v[..n]] == local.value[d := v[..n]];
      assert f.Torn? && f.kept == 0 ==> (if 0 < |v| then v[..0] else v) == [];
    }
    hide WriteAt, Overlay;
  }

  lemma OnlyPiece(v: Data)
    ensures Overlay([], v) == v
  {
  }

  function AfterRealRun(s: Setup, t: Tiers, keep: Weather, pr: Proc): Tiers
  {
    if pr.hash.Key? && Stored(s, pr.said) then StoreTiers(t, keep, pr.hash.digest, ToStore(s, pr.said)).1 else t
  }

  lemma AloneCalling(s: Setup, st: State, pr: Proc, p: nat, look: Weather, keep: Weather)
    requires pr.phase.Calling?
    ensures var (a, st') := Alone(s, st, pr, p, look, keep);
            && a == RealRun(s, pr.said)
            && TiersOf(st') == AfterRealRun(s, TiersOf(st), keep, pr)
  {
    hide Alone, RealRun, Stored, StoreTiers;
    AloneStep(s, st, pr, p, look, keep);
    var (phase, st1) := Moved(s, st, pr, MoveIn(s, p, look, keep, pr));
    var pr1 := pr.(phase := phase);
    if phase.Finished? {
      AloneDone(s, st1, pr1, p, look, keep);
    } else if phase.KeepRemote? {
      AloneKeepRemote(s, st1, pr1, p, look, keep, 0);
      StoreWithoutLocal(TiersOf(st), keep, pr.hash.digest, ToStore(s, pr.said));
    } else {
      AloneKeepOpen(s, st1, pr1, p, look, keep);
    }
  }

  lemma StoreWithoutLocal(t: Tiers, w: Weather, d: Digest, item: Item)
    requires t.local.None?
    ensures StoreTiers(t, w, d, item).1 == t.(remotes := StoreRemotes(t.remotes, w, d, item, 0).1)
  {
  }

  lemma StoreWithLocal(t: Tiers, w: Weather, d: Digest, item: Item)
    requires t.local.Some?
    ensures var (raised, es) := LocalStore(t.local.value, w.local, d, item);
            StoreTiers(t, w, d, item).1 ==
              t.(local := Some(es), remotes := if raised then t.remotes else StoreRemotes(t.remotes, w, d, item, 0).1)
  {
  }

  lemma AloneKeepOpen(s: Setup, st: State, pr: Proc, p: nat, look: Weather, keep: Weather)
    requires pr.hash.Key? && pr.phase.KeepOpen? && st.local.Some?
    ensures var (a, st') := Alone(s, st, pr, p, look, keep);
            && a == RealRun(s, pr.said)
            && TiersOf(st') == StoreTiers(TiersOf(st), keep, pr.hash.digest, ToStore(s, pr.said)).1
  {
    hide Alone, RealRun, Stored, StoreTiers, LocalStore, Opened, Written, StoreRemotes, Frame, OpenMove, WriteMove;
    var d := pr.hash.digest;
    var item := ToStore(s, pr.said);
    StoreWithLocal(TiersOf(st), keep, d, item);
    OpenThenWrite(s, st.local, d, item, p, keep.local);
    MoveOf(s, p, look, keep, pr);
    AloneStep(s, st, pr, p, look, keep);
    var (phase, st1) := Moved(s, st, pr, MoveIn(s, p, look, keep, pr));
    var pr1 := pr.(phase := phase);
    if phase.Finished? {
      AloneDone(s, st1, pr1, p, look, keep);
    } else if phase.KeepRemote? {
      AloneKeepRemote(s, st1, pr1, p, look, keep, 0);
    } else {
      MoveOf(s, p, look, keep, pr1);
      AloneStep(s, st1, pr1, p, look, keep);
      var (phase2, st2) := Moved(s, st1, pr1, MoveIn(s, p, look, keep, pr1));
      var pr2 := pr1.(phase := phase2);
      if phase2.Finished? {
        AloneDone(s, st2, pr2, p, look, keep);
      } else {
        AloneKeepRemote(s, st2, pr2, p, look, keep, 0);
      }
    }
  }

  /** The answer of the remotes from the `i`-th on, in either mode. */
  function RemoteAnswer(s: Setup, rs: seq<Tier>, w: Weather, d: Digest, i: nat): Outcome<Option<Data>>
    requires i <= |rs|
  {
    if s.saveOutput then FetchRemotes(rs, w, d, i)
    else
      match AskRemotes(rs, w, d, i)
      case Raised => Raised
      case Returned(yes) => Returned(if yes then Some([]) else None)
  }

  /** Where the remotes send the process. */
  function Onward(s: Setup, st: State, r: Outcome<Option<Data>>, w: Weather): Phase
  {
    if r.Raised? || r.value.None? || w.remoteStats then Calling
    else if st.local.Some? && st.writesBack then BackOpen(r.value.value)
    else Hit(s, r.value.value)
  }

  lemma {:induction false} AloneAskRemote(s: Setup, st: State, pr: Proc, p: nat, look: Weather, keep: Weather, i: nat)
    requires pr.hash.Key? && pr.phase == AskRemote(i) && i <= |st.remotes|
    ensures Alone(s, st, pr, p, look, keep)
         == Alone(s, st, pr.(phase := Onward(s, st, RemoteAnswer(s, st.remotes, look, pr.hash.digest, i), look)), p,
                  look, keep)
    decreases |st.remotes| - i
  {
    hide Alone, Hit;
    AloneStep(s, st, pr, p, look, keep);
    if i < |st.remotes| {
      FaultKind(s, st.remotes[i], look.remotes(i), pr.hash.digest);
      hide Found;
      var phase := Moved(s, st, pr, MoveIn(s, p, look, keep, pr)).0;
      if phase == AskRemote(i + 1) {
        AloneAskRemote(s, st, pr.(phase := phase), p, look, keep, i + 1);
      }
    }
  }

  /** To a read every fault is the same. */
  lemma FaultKind(s: Setup, t: Tier, f: Fault, d: Digest)
    ensures Found(s, t, if !f.Fine? then Lost else Fine, d) == Found(s, t, f, d)
    ensures Found(s, t, f, d) ==
            if s.saveOutput then RemoteGet(t, f, d)
            else match RemoteIsCached(t, f, d)
                 case Raised => Raised
                 case Returned(yes) => Returned(if yes then Some([]) else None)
  {
  }

  /** The write-back, opening and writing. */
  lemma AloneBackOpen(s: Setup, st: State, pr: Proc, p: nat, look: Weather, keep: Weather, v: Data)
    requires pr.hash.Key? && pr.phase == BackOpen(v) && st.local.Some? && st.writesBack
    ensures var (raised, t) := WriteBack(TiersOf(st), look, pr.hash.digest, if s.saveOutput then Output(v) else Mark);
            Alone(s, st, pr, p, look, keep) ==
              Alone(s, st.(local := t.local), pr.(phase := if raised then Calling else Hit(s, v)), p, look, keep)
  {
    hide Alone, LocalStore, Opened, Written, OpenMove, WriteMove, Hit;
    var d := pr.hash.digest;
    OpenThenWrite(s, st.local, d, if s.saveOutput then Output(v) else Mark, p, look.writeback);
    MoveOf(s, p, look, keep, pr);
    AloneStep(s, st, pr, p, look, keep);
    var (phase, st1) := Moved(s, st, pr, MoveIn(s, p, look, keep, pr));
    var pr1 := pr.(phase := phase);
    if phase.BackWrite? {
      MoveOf(s, p, look, keep, pr1);
      AloneStep(s, st1, pr1, p, look, keep);
    }
  }

  /** A hit that cannot be replayed leads to a real run. */
  lemma AloneHit(s: Setup, st: State, pr: Proc, p: nat, look: Weather, keep: Weather, v: Data)
    requires pr.hash.Key? && pr.phase == Hit(s, v)
    ensures var (a, st') := Alone(s, st, pr, p, look, keep);
            var answer := if s.saveOutput then Replay(s, v) else Some(Exit(0, []));
            ((a, TiersOf(st')) == if answer.Some? then (answer.value, TiersOf(st))
                                  else (RealRun(s, pr.said), AfterRealRun(s, TiersOf(st), keep, pr)))
  {
    hide Alone, RealRun, AfterRealRun, Replay;
    if pr.phase.Finished? {
      AloneDone(s, st, pr, p, look, keep);
    } else {
      AloneCalling(s, st, pr, p, look, keep);
    }
  }

  /** Asking the remotes, writing back, and going on from there. */
  lemma AloneRemotes(s: Setup, st: State, pr: Proc, p: nat, look: Weather, keep: Weather)
    requires pr.hash.Key? && pr.phase == AskRemote(0)
    requires LookUpLocal(s, TiersOf(st), look, pr.hash).None?
    ensures var (a, st') := Alone(s, st, pr, p, look, keep);
            (a, TiersOf(st')) == RunCached(s, TiersOf(st), pr.hash, pr.said, look, keep)
  {
    hide Alone, RealRun, StoreTiers, FetchRemotes, AskRemotes, Replay, LocalStore, Stored, ToStore, Hit;
    var d := pr.hash.digest;
    var r := RemoteAnswer(s, st.remotes, look, d, 0);
    NoRemotes(st.remotes, look, d);
    AloneAskRemote(s, st, pr, p, look, keep, 0);
    var pr1 := pr.(phase := Onward(s, st, r, look));
    if r.Raised? || r.value.None? || look.remoteStats {
      AloneCalling(s, st, pr1, p, look, keep);
    } else {
      var v := r.value.value;
      if st.local.Some? && st.writesBack {
        AloneBackOpen(s, st, pr1, p, look, keep, v);
        var (raised, t) := WriteBack(TiersOf(st), look, d, if s.saveOutput then Output(v) else Mark);
        var st2 := st.(local := t.local);
        var pr2 := pr.(phase := if raised then Calling else Hit(s, v));
        if raised {
          AloneCalling(s, st2, pr2, p, look, keep);
        } else {
          AloneHit(s, st2, pr2, p, look, keep, v);
        }
      } else {
        AloneHit(s, st, pr1, p, look, keep, v);
      }
    }
  }

  lemma NoRemotes(rs: seq<Tier>, w: Weather, d: Digest)
    ensures rs == [] ==> FetchRemotes(rs, w, d, 0) == Returned(None) && AskRemotes(rs, w, d, 0) == Returned(false)
  {
  }

  /** What the local tier alone decides: nothing, or a value found, or a failure. */
  function LookUpLocal(s: Setup, t: Tiers, w: Weather, hash: Hash): Option<Outcome<Data>>
    requires hash.Key?
  {
    if LocalRaises(t, w) then Some(Raised)
    else if t.local.Some? && hash.digest in t.local.value then Some(Returned(t.local.value[hash.digest]))
    else None
  }

  /** A process alone does what the driver does in one piece: same answer, same tiers, same failures. */
  lemma AloneIsRunCached(s: Setup, st: State, pr: Proc, p: nat, look: Weather, keep: Weather)
    requires pr.phase == Hashing
    ensures var (a, st') := Alone(s, st, pr, p, look, keep);
            (a, TiersOf(st')) == RunCached(s, TiersOf(st), pr.hash, pr.said, look, keep)
  {
    hide Alone, RealRun, StoreTiers, FetchRemotes, AskRemotes, Replay, Stored, ToStore, Hit, WriteBack;
    AloneStep(s, st, pr, p, look, keep);
    var phase := AtHashing(st, pr);
    var pr1 := pr.(phase := phase);
    if phase.Calling? {
      AloneCalling(s, st, pr1, p, look, keep);
    } else if phase.AskRemote? {
      AloneRemotes(s, st, pr1, p, look, keep);
    } else {
      AloneStep(s, st, pr1, p, look, keep);
      var pr2 := pr1.(phase := AtAskLocal(s, st, pr.hash.digest, MoveIn(s, p, look, keep, pr1)));
      if LocalRaises(TiersOf(st), look) {
        AloneCalling(s, st, pr2, p, look, keep);
      } else if pr.hash.digest in st.local.value {
        AloneHit(s, st, pr2, p, look, keep, st.local.value[pr.hash.digest]);
      } else {
        AloneRemotes(s, st, pr2, p, look, keep);
      }
    }
  }
}
