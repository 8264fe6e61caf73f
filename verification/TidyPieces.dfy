// Writing a local file in pieces: for which tools the interleaved runs answer as the tool would, whatever the
// schedule, and the schedule that goes wrong for every other tool.

module TidyPieces {
  import opened Wrappers
  import opened Sequences
  import opened TidyCache
  import opened TidyDriver
  import opened TidyHistory
  import opened TidyRace

  /** Whoever has finished with its cache built answers as the tool would have. */
  ghost predicate AnswersAgree(s: Setup, end: State)
  {
    forall p :: 0 <= p < |end.procs| && end.procs[p].phase.Finished? && end.procs[p].phase.answer != NoRun ==>
      AsUncached(s, end.procs[p].phase.answer, RealRun(s, end.procs[p].said))
  }

  /** In every execution, with writes cut in pieces and with any failures and losses. */
  ghost predicate AlwaysAgree(s: Setup, tool: Digest -> Report)
  {
    forall st, ms :: Start(s, tool, st) ==> AnswersAgree(s, Execute(s, st, ms))
  }

  /** Nothing of more than one byte is ever stored: no output is saved, or no tool run that is stored has any. */
  ghost predicate NothingToCut(s: Setup, tool: Digest -> Report)
  {
    s.saveOutput ==> forall d :: Printable(s, tool(d)) ==> tool(d).stdout == []
  }

  // ----- Where there is nothing to cut, no write is cut

  /** Only runs that are stored are on record. */
  ghost predicate PutsStored(s: Setup, tool: Digest -> Report, puts: set<(Digest, Item)>)
  {
    forall x :: x in puts ==> Stored(s, tool(x.0))
  }

  lemma PutsStayStored(s: Setup, tool: Digest -> Report, st: State, m: Step)
    requires Inv(s, tool, st) && PutsStored(s, tool, st.puts)
    ensures PutsStored(s, tool, Apply(s, st, m).puts)
  {
    hide Apply, Stored, TiersFit;
    forall x | x in Apply(s, st, m).puts ensures Stored(s, tool(x.0)) {
      if x !in st.puts {
        OnlyRealRunsPut(s, st, m, x);
        assert ProcFits(s, tool, st.puts, st.procs[m.p]);
      }
    }
  }

  lemma NothingIsCut(s: Setup, tool: Digest -> Report, st: State, m: Step)
    requires Inv(s, tool, st) && PutsStored(s, tool, st.puts) && NothingToCut(s, tool)
    ensures Clean(s, st, m)
  {
    hide TiersFit, HarmlessPart, ToStore, LowByte;
    if m.Move? && m.p < |st.procs| {
      var pr := st.procs[m.p];
      assert ProcFits(s, tool, st.puts, pr);
      if pr.phase.BackWrite? || pr.phase.KeepWrite? {
        assert Stored(s, tool(pr.hash.digest));
        assert |Frame(pr.said)| == 1;
      }
    }
  }

  lemma {:induction false} AllCleanThen(s: Setup, tool: Digest -> Report, st: State, ms: seq<Step>)
    requires Inv(s, tool, st) && PutsStored(s, tool, st.puts) && NothingToCut(s, tool)
    ensures AllClean(s, st, ms)
    decreases |ms|
  {
    hide Inv, Apply, Clean, PutsStored, NothingToCut;
    if ms != [] {
      NothingIsCut(s, tool, st, ms[0]);
      ApplyInv(s, tool, st, ms[0]);
      PutsStayStored(s, tool, st, ms[0]);
      AllCleanThen(s, tool, Apply(s, st, ms[0]), ms[1..]);
    }
  }

  // ----- Where there is something to cut, somebody reads in between

  /** Two runs of one input over a local tier, and nothing else. */
  function Two(file: Entries, d: Digest, said: Report, a: Phase, b: Phase, puts: set<(Digest, Item)>): State
  {
    State(Some(file), [], true, [Proc(Key(d), said, a), Proc(Key(d), said, b)], puts)
  }

  /** A move that succeeds; a write writes one byte. */
  function Go(p: nat): Step
  {
    Move(p, false, true, false, 0)
  }

  /** The first run: it finds nothing, runs the tool, opens the file, and writes one byte of it. */
  lemma WriterMoves(s: Setup, d: Digest, said: Report)
    requires s.saveOutput && Printable(s, said) && said.stdout != []
    ensures var puts, b := {(d, Output(Frame(said)))}, Building;
            && Apply(s, Two(map[], d, said, Building, b, {}), Go(0)) == Two(map[], d, said, Hashing, b, {})
            && Apply(s, Two(map[], d, said, Hashing, b, {}), Go(0)) == Two(map[], d, said, AskLocal, b, {})
            && Apply(s, Two(map[], d, said, AskLocal, b, {}), Go(0)) == Two(map[], d, said, AskRemote(0), b, {})
            && Apply(s, Two(map[], d, said, AskRemote(0), b, {}), Go(0)) == Two(map[], d, said, Calling, b, {})
            && Apply(s, Two(map[], d, said, Calling, b, {}), Go(0)) == Two(map[], d, said, KeepOpen, b, puts)
            && Apply(s, Two(map[], d, said, KeepOpen, b, puts), Go(0))
               == Two(map[d := []], d, said, KeepWrite(0), b, puts)
            && Apply(s, Two(map[d := []], d, said, KeepWrite(0), b, puts), Go(0))
               == Two(map[d := [LowByte(said.code)]], d, said, KeepWrite(1), b, puts)
  {
    hide LowByte, WriteAt;
    var f := Frame(said);
    assert |f| > 1 && f[0..1] == [LowByte(said.code)];
    WriteAtStart([], f[0..1]);
    assert Overlay([], f[0..1]) == f[0..1];
    assert map[d := []][d := [LowByte(said.code)]] == map[d := [LowByte(said.code)]];
    var a, b, puts := KeepWrite(0), Building, {(d, Output(f))};
    assert Moved(s, Two(map[d := []], d, said, a, b, puts), Proc(Key(d), said, a), Go(0)).0 == KeepWrite(1);
  }

  /** The second run: it finds the byte, and answers with it. */
  lemma ReaderMoves(s: Setup, d: Digest, said: Report, puts: set<(Digest, Item)>)
    requires s.saveOutput && s.isText([])
    ensures var file, a := map[d := [LowByte(said.code)]], KeepWrite(1);
            && Apply(s, Two(file, d, said, a, Building, puts), Go(1)) == Two(file, d, said, a, Hashing, puts)
            && Apply(s, Two(file, d, said, a, Hashing, puts), Go(1)) == Two(file, d, said, a, AskLocal, puts)
            && Apply(s, Two(file, d, said, a, AskLocal, puts), Go(1))
               == Two(file, d, said, a, Finished(Exit(LowByte(said.code), []), true), puts)
  {
    hide LowByte;
    var v: Data := [LowByte(said.code)];
    assert v[1..] == [];
    assert Hit(s, v) == Finished(Exit(LowByte(said.code), []), true);
  }

  /** So many moves of one run. */
  function Gos(p: nat, n: nat): (ms: seq<Step>)
    ensures |ms| == n
  {
    if n == 0 then [] else [Go(p)] + Gos(p, n - 1)
  }

  lemma GosStep(s: Setup, st: State, p: nat, n: nat, rest: seq<Step>)
    requires n > 0
    ensures Execute(s, st, Gos(p, n) + rest) == Execute(s, Apply(s, st, Go(p)), Gos(p, n - 1) + rest)
  {
    hide Apply;
    var ms := Gos(p, n) + rest;
    assert ms[0] == Go(p) && ms[1..] == Gos(p, n - 1) + rest;
  }

  lemma WriterWrites(s: Setup, d: Digest, said: Report, rest: seq<Step>)
    requires s.saveOutput && Printable(s, said) && said.stdout != []
    ensures Execute(s, Two(map[], d, said, Building, Building, {}), Gos(0, 7) + rest)
         == Execute(s, Two(map[d := [LowByte(said.code)]], d, said, KeepWrite(1), Building,
                           {(d, Output(Frame(said)))}), rest)
  {
    hide Execute, Apply, LowByte;
    WriterMoves(s, d, said);
    var puts := {(d, Output(Frame(said)))};
    GosStep(s, Two(map[], d, said, Building, Building, {}), 0, 7, rest);
    GosStep(s, Two(map[], d, said, Hashing, Building, {}), 0, 6, rest);
    GosStep(s, Two(map[], d, said, AskLocal, Building, {}), 0, 5, rest);
    GosStep(s, Two(map[], d, said, AskRemote(0), Building, {}), 0, 4, rest);
    GosStep(s, Two(map[], d, said, Calling, Building, {}), 0, 3, rest);
    GosStep(s, Two(map[], d, said, KeepOpen, Building, puts), 0, 2, rest);
    GosStep(s, Two(map[d := []], d, said, KeepWrite(0), Building, puts), 0, 1, rest);
    assert Gos(0, 0) + rest == rest;
  }

  lemma ReaderReads(s: Setup, d: Digest, said: Report, puts: set<(Digest, Item)>)
    requires s.saveOutput && s.isText([])
    ensures var file, a := map[d := [LowByte(said.code)]], KeepWrite(1);
            Execute(s, Two(file, d, said, a, Building, puts), Gos(1, 3))
            == Two(file, d, said, a, Finished(Exit(LowByte(said.code), []), true), puts)
  {
    hide Execute, Apply, LowByte, Gos;
    ReaderMoves(s, d, said, puts);
    var file, a := map[d := [LowByte(said.code)]], KeepWrite(1);
    assert forall n: nat :: Gos(1, n) + [] == Gos(1, n);
    GosStep(s, Two(file, d, said, a, Building, puts), 1, 3, []);
    GosStep(s, Two(file, d, said, a, Hashing, puts), 1, 2, []);
    GosStep(s, Two(file, d, said, a, AskLocal, puts), 1, 1, []);
    NoSteps(s, Two(file, d, said, a, Finished(Exit(LowByte(said.code), []), true), puts));
  }

  lemma NoSteps(s: Setup, st: State)
    ensures Execute(s, st, Gos(1, 0)) == st
  {
  }

  /** One run reads what another has written so far, and shows nothing where the tool has something to say. */
  lemma ReadInBetween(s: Setup, tool: Digest -> Report, d: Digest)
    requires s.saveOutput && s.isText([]) && Printable(s, tool(d)) && tool(d).stdout != []
    ensures var st := Two(map[], d, tool(d), Building, Building, {});
            var end := Execute(s, st, Gos(0, 7) + Gos(1, 3));
            && Start(s, tool, st)
            && |end.procs| == 2 && end.procs[1].phase == Finished(Exit(LowByte(tool(d).code), []), true)
            && !AnswersAgree(s, end)
  {
    hide Execute, Gos, LowByte;
    WriterWrites(s, d, tool(d), Gos(1, 3));
    ReaderReads(s, d, tool(d), {(d, Output(Frame(tool(d))))});
    var end := Execute(s, Two(map[], d, tool(d), Building, Building, {}), Gos(0, 7) + Gos(1, 3));
    assert end.procs[1].said == tool(d);
    assert !AsUncached(s, Exit(LowByte(tool(d).code), []), RealRun(s, tool(d)));
  }

  /** The interleaved runs always answer as the tool would, with writes cut in pieces, if and only if there is
      nothing to cut: no output is saved, or no run that can be stored has any. */
  lemma AlwaysAgreeExactly(s: Setup, tool: Digest -> Report)
    requires s.isText([])
    ensures AlwaysAgree(s, tool) <==> NothingToCut(s, tool)
  {
    hide Start, Execute, AnswersAgree, Printable;
    if NothingToCut(s, tool) {
      forall st, ms | Start(s, tool, st) ensures AnswersAgree(s, Execute(s, st, ms)) {
        UncutRunsAgree(s, tool, st, ms);
      }
    } else {
      var d :| Printable(s, tool(d)) && tool(d).stdout != [];
      ReadInBetween(s, tool, d);
    }
  }

  lemma UncutRunsAgree(s: Setup, tool: Digest -> Report, st: State, ms: seq<Step>)
    requires Start(s, tool, st) && NothingToCut(s, tool)
    ensures AnswersAgree(s, Execute(s, st, ms))
  {
    hide Execute, AsUncached, RealRun, Inv, AllClean, NothingToCut, ToStore;
    StartInv(s, tool, st);
    NothingPut(s, tool, st);
    AllCleanThen(s, tool, st, ms);
    var end := Execute(s, st, ms);
    forall p | 0 <= p < |end.procs| && end.procs[p].phase.Finished? && end.procs[p].phase.answer != NoRun
      ensures AsUncached(s, end.procs[p].phase.answer, RealRun(s, end.procs[p].said))
    {
      InterleavedRunsAgree(s, tool, st, ms, p);
    }
  }

  lemma NothingPut(s: Setup, tool: Digest -> Report, st: State)
    requires Start(s, tool, st)
    ensures PutsStored(s, tool, st.puts)
  {
  }
}
