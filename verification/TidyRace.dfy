// Many processes running run_clang_tidy_cached over the same tiers, interleaved operation by operation.
// A local store is opening, which empties the file, and then writing, in one piece or in several; every other
// store or lookup of one tier is one operation.

module TidyRace {
  import opened Wrappers
  import opened Sequences
  import opened TidyCache
  import opened TidyDriver
  import opened TidyHistory

  /** `done` counts the bytes written so far. */
  datatype Phase =
    | Building
    | Hashing
    | AskLocal
    | AskRemote(i: nat)
    | BackOpen(data: Data)
    | BackWrite(data: Data, done: nat)
    | Calling
    | KeepOpen
    | KeepWrite(done: nat)
    | KeepRemote(i: nat)
    | Finished(answer: Answer, cached: bool)

  datatype Proc = Proc(hash: Hash, said: Report, phase: Phase)

  /** `puts` records what real runs set out to store. */
  datatype State = State(local: Option<Entries>, remotes: seq<Tier>, writesBack: bool, procs: seq<Proc>,
                         puts: set<(Digest, Item)>)

  /** A process makes its next move, or an entry vanishes. `raises`: the operation fails; `takes`: a
      store has its effect; `counter`: the update of the hit counters raises; `more`: how many bytes, after the
      first, a write writes. A write whose file was unlinked meanwhile neither raises nor takes. */
  datatype Step =
    | Move(p: nat, raises: bool, takes: bool, counter: bool, more: nat)
    | LoseLocal(digest: Digest)
    | LoseRemote(index: nat, digest: Digest)

  /** The lookup ends with a value. */
  function Hit(s: Setup, v: Data): Phase
  {
    if !s.saveOutput then Finished(Exit(0, []), true)
    else
      var a := Replay(s, v);
      if a.Some? then Finished(a.value, true) else Calling
  }

  function Opened(local: Option<Entries>, d: Digest, takes: bool): Option<Entries>
  {
    if takes && local.Some? then Some(local.value[d := []]) else local
  }

  /** How far a write gets. */
  function Reached(v: Data, done: nat, m: Step): (n: nat)
    requires m.Move?
    ensures n <= |v|
  {
    if done + 1 + m.more < |v| then done + 1 + m.more else |v|
  }

  /** A file after a piece is written at an offset; a gap before it is filled with zeros. */
  function WriteAt(file: Data, off: nat, piece: Data): Data
  {
    var full := if |file| < off then file + seq(off - |file|, _ => 0) else file;
    full[..off] + Overlay(full[off..], piece)
  }

  /** What stands before the offset stays, with zeros in a gap; the piece stands at the offset; what stood behind it
      stays. */
  lemma WriteAtMeans(file: Data, off: nat, piece: Data, k: nat)
    requires k < |WriteAt(file, off, piece)|
    ensures var r := WriteAt(file, off, piece);
            && |r| == (if off + |piece| > |file| then off + |piece| else |file|)
            && r[k] == if off <= k < off + |piece| then piece[k - off] else if k < |file| then file[k] else 0
  {
  }

  /** So pieces written one behind the other add up. */
  lemma PiecesAddUp(v: Data, k: nat, n: nat)
    requires k <= n <= |v|
    ensures WriteAt(v[..k], k, v[k..n]) == v[..n]
  {
    assert v[..k] + v[k..n] == v[..n];
  }

  function Written(local: Option<Entries>, d: Digest, v: Data, done: nat, n: nat, takes: bool): Option<Entries>
    requires n <= |v|
  {
    if takes && local.Some? && d in local.value && done <= n then
      Some(local.value[d := WriteAt(local.value[d], done, v[done..n])])
    else local
  }

  function FaultOf(m: Step): Fault
    requires m.Move?
  {
    if !m.takes then Lost else if m.raises then Late else Fine
  }

  function AtHashing(st: State, pr: Proc): Phase
  {
    if !pr.hash.Key? then Calling
    else if st.local.Some? then AskLocal
    else AskRemote(0)
  }

  function AtAskLocal(s: Setup, st: State, d: Digest, m: Step): Phase
    requires m.Move?
  {
    if m.raises || m.counter || st.local.None? then Calling
    else if d in st.local.value then Hit(s, st.local.value[d])
    else AskRemote(0)
  }

  function Found(s: Setup, t: Tier, f: Fault, d: Digest): Outcome<Option<Data>>
  {
    if s.saveOutput then RemoteGet(t, f, d)
    else
      match RemoteIsCached(t, f, d)
      case Raised => Raised
      case Returned(yes) => Returned(if yes then Some([]) else None)
  }

  function AtAskRemote(s: Setup, st: State, d: Digest, i: nat, m: Step): Phase
    requires m.Move?
  {
    if i >= |st.remotes| then Calling
    else
      var r := Found(s, st.remotes[i], if m.raises then Lost else Fine, d);
      if r.Raised? then Calling
      else if r.value.None? then AskRemote(i + 1)
      else if m.counter then Calling
      else if st.local.Some? && st.writesBack then BackOpen(r.value.value)
      else Hit(s, r.value.value)
  }

  function AtCalling(s: Setup, st: State, pr: Proc): Phase
  {
    if pr.hash.Key? && Stored(s, pr.said) then (if st.local.Some? then KeepOpen else KeepRemote(0))
    else Finished(RealRun(s, pr.said), false)
  }

  /** The next phase of a process, and the tiers and the record after its move. */
  function Moved(s: Setup, st: State, pr: Proc, m: Step): (Phase, State)
    requires m.Move?
  {
    var done := Finished(RealRun(s, pr.said), false);
    if pr.phase.Finished? then (pr.phase, st)
    else if pr.phase.Building? then (if m.raises then Finished(NoRun, false) else Hashing, st)
    else if pr.phase.Hashing? then (AtHashing(st, pr), st)
    else if pr.phase.Calling? then
      (AtCalling(s, st, pr),
       if !pr.hash.Key? || !Stored(s, pr.said) then st
       else st.(puts := st.puts + {(pr.hash.digest, ToStore(s, pr.said))}))
    else if !pr.hash.Key? then (done, st)
    else
      var d := pr.hash.digest;
      match pr.phase
      case AskLocal => (AtAskLocal(s, st, d, m), st)
      case AskRemote(i) => (AtAskRemote(s, st, d, i, m), st)
      case BackOpen(v) =>
        (if m.raises then Calling else if s.saveOutput then BackWrite(v, 0) else Hit(s, v),
         st.(local := Opened(st.local, d, m.takes)))
      case BackWrite(v, k) =>
        var n := Reached(v, k, m);
        (if m.raises then Calling else if n < |v| then BackWrite(v, n) else Hit(s, v),
         st.(local := Written(st.local, d, v, k, n, m.takes)))
      case KeepOpen =>
        (if m.raises then done else if s.saveOutput then KeepWrite(0) else KeepRemote(0),
         st.(local := Opened(st.local, d, m.takes)))
      case KeepWrite(k) =>
        var n := Reached(Frame(pr.said), k, m);
        (if m.raises then done else if n < |Frame(pr.said)| then KeepWrite(n) else KeepRemote(0),
         st.(local := Written(st.local, d, Frame(pr.said), k, n, m.takes)))
      case KeepRemote(i) =>
        if i >= |st.remotes| then (done, st)
        else
          var (raised, t) := RemoteStore(st.remotes[i], FaultOf(m), d, ToStore(s, pr.said));
          (if raised then done else KeepRemote(i + 1), st.(remotes := st.remotes[i := t]))
  }

  function Apply(s: Setup, st: State, m: Step): State
  {
    match m
    case Move(p, _, _, _, _) =>
      if p >= |st.procs| then st
      else
        var (phase, st') := Moved(s, st, st.procs[p], m);
        st'.(procs := st.procs[p := st.procs[p].(phase := phase)])
    case LoseLocal(d) => if st.local.Some? then st.(local := Some(st.local.value - {d})) else st
    case LoseRemote(i, d) =>
      if i >= |st.remotes| then st
      else
        var t := st.remotes[i];
        st.(remotes := st.remotes[i := t.(entries := t.entries - {d})])
  }

  function Execute(s: Setup, st: State, ms: seq<Step>): State
    decreases |ms|
  {
    if ms == [] then st else Execute(s, Apply(s, st, ms[0]), ms[1..])
  }

  /** A loss takes one entry of one tier, and nothing else. */
  lemma LossesMean(s: Setup, st: State, d: Digest, i: nat)
    ensures var st' := Apply(s, st, LoseLocal(d));
            st'.(local := st.local) == st && (st.local.Some? ==> st'.local == Some(st.local.value - {d}))
    ensures var st' := Apply(s, st, LoseRemote(i, d));
            && st'.(remotes := st.remotes) == st && |st'.remotes| == |st.remotes|
            && forall k :: 0 <= k < |st.remotes| ==>
                 st'.remotes[k] == if k == i then st.remotes[k].(entries := st.remotes[k].entries - {d})
                                   else st.remotes[k]
  {
  }

  // ----- Writing in one piece

  /** A write either gets to the end or fails, and if it fails with something written, that does no harm. */
  predicate CleanWrite(s: Setup, said: Report, v: Data, done: nat, m: Step)
    requires m.Move?
  {
    var n := Reached(v, done, m);
    n == |v| || (m.raises && (m.takes ==> HarmlessPart(s, said, n)))
  }

  predicate CleanMove(s: Setup, pr: Proc, m: Step)
    requires m.Move?
  {
    match pr.phase
    case BackWrite(v, k) => CleanWrite(s, pr.said, v, k, m)
    case KeepWrite(k) => CleanWrite(s, pr.said, Frame(pr.said), k, m)
    case _ => true
  }

  predicate Clean(s: Setup, st: State, m: Step)
  {
    m.Move? && m.p < |st.procs| ==> CleanMove(s, st.procs[m.p], m)
  }

  /** No write of the execution is cut in pieces. */
  predicate AllClean(s: Setup, st: State, ms: seq<Step>)
    decreases |ms|
  {
    ms == [] || (Clean(s, st, ms[0]) && AllClean(s, Apply(s, st, ms[0]), ms[1..]))
  }

  // ----- The invariant

  /** A value a tier or a process may hold: true of the tool, and set out to be stored before. */
  ghost predicate Fit(s: Setup, tool: Digest -> Report, puts: set<(Digest, Item)>, d: Digest, v: Data)
  {
    Legit(s, tool, d, v) && (d, ToStore(s, tool(d))) in puts
  }

  ghost predicate AllFit(s: Setup, tool: Digest -> Report, puts: set<(Digest, Item)>, es: Entries)
  {
    forall d :: d in es ==> Fit(s, tool, puts, d, es[d])
  }

  ghost predicate TierFits(s: Setup, tool: Digest -> Report, puts: set<(Digest, Item)>, t: Tier)
  {
    AllFit(s, tool, puts, t.entries) && (t.kind.Server? ==> Faithful(s, tool, t.reply))
  }

  ghost predicate TiersFit(s: Setup, tool: Digest -> Report, st: State)
  {
    && (st.local.Some? ==> AllFit(s, tool, st.puts, st.local.value))
    && forall i :: 0 <= i < |st.remotes| ==> TierFits(s, tool, st.puts, st.remotes[i])
  }

  ghost predicate ProcFits(s: Setup, tool: Digest -> Report, puts: set<(Digest, Item)>, pr: Proc)
  {
    && (pr.hash.Key? ==> pr.said == tool(pr.hash.digest))
    && match pr.phase
       case BackOpen(v) => pr.hash.Key? && Fit(s, tool, puts, pr.hash.digest, v)
       case BackWrite(v, k) => k == 0 && s.saveOutput && pr.hash.Key? && Fit(s, tool, puts, pr.hash.digest, v)
       case KeepOpen => pr.hash.Key? && Stored(s, pr.said) && (pr.hash.digest, ToStore(s, pr.said)) in puts
       case KeepWrite(k) =>
         && k == 0 && s.saveOutput && pr.hash.Key? && Stored(s, pr.said)
         && (pr.hash.digest, ToStore(s, pr.said)) in puts
       case KeepRemote(_) => pr.hash.Key? && Stored(s, pr.said) && (pr.hash.digest, ToStore(s, pr.said)) in puts
       case Finished(a, cached) =>
         && (a == NoRun || AsUncached(s, a, RealRun(s, pr.said)))
         && (cached ==> a != NoRun && pr.hash.Key? && (pr.hash.digest, ToStore(s, pr.said)) in puts)
         && (!cached ==> a == NoRun || a == RealRun(s, pr.said))
       case _ => true
  }

  ghost predicate Inv(s: Setup, tool: Digest -> Report, st: State)
  {
    && TiersFit(s, tool, st)
    && forall p :: 0 <= p < |st.procs| ==> ProcFits(s, tool, st.puts, st.procs[p])
  }

  /** Empty tiers, replies decoded without harm, and processes that have not begun, of a tool that is a function
      of the digest. */
  ghost predicate Start(s: Setup, tool: Digest -> Report, st: State)
  {
    && (st.local.Some? ==> st.local.value == map[])
    && (forall i :: 0 <= i < |st.remotes| ==> st.remotes[i].entries == map[])
    && (forall i :: 0 <= i < |st.remotes| && st.remotes[i].kind.Server? ==> Faithful(s, tool, st.remotes[i].reply))
    && st.puts == {}
    && forall p :: 0 <= p < |st.procs| ==>
         st.procs[p].phase == Building && (st.procs[p].hash.Key? ==> st.procs[p].said == tool(st.procs[p].hash.digest))
  }

  lemma StartInv(s: Setup, tool: Digest -> Report, st: State)
    requires Start(s, tool, st)
    ensures Inv(s, tool, st)
  {
  }

  /** A hit on a fit value answers as the tool would, or leads to a real run. */
  lemma HitFits(s: Setup, tool: Digest -> Report, puts: set<(Digest, Item)>, pr: Proc, v: Data)
    requires pr.hash.Key? && pr.said == tool(pr.hash.digest) && Fit(s, tool, puts, pr.hash.digest, v)
    ensures ProcFits(s, tool, puts, pr.(phase := Hit(s, v)))
  {
    hide LowByte;
    FrameParts(pr.said);
  }

  /** Of two beginnings of one text, the longer stays. */
  lemma OverlayOfPrefixes(f: Data, a: Data, b: Data)
    requires a <= f && b <= f
    ensures Overlay(a, b) == if |b| < |a| then a else b
  {
    if |b| < |a| {
      assert b + a[|b|..] == a;
    }
  }

  lemma OverlayFits(s: Setup, tool: Digest -> Report, puts: set<(Digest, Item)>, d: Digest, file: Data, v: Data)
    requires s.saveOutput && Fit(s, tool, puts, d, file) && Fit(s, tool, puts, d, v)
    ensures Fit(s, tool, puts, d, Overlay(file, v))
  {
    OverlayOfPrefixes(Frame(tool(d)), file, v);
  }

  /** A write from the start is an overlay. */
  lemma WriteAtStart(file: Data, piece: Data)
    ensures WriteAt(file, 0, piece) == Overlay(file, piece)
  {
    assert file[0..] == file && file[..0] == [];
  }

  lemma OpenedFits(s: Setup, tool: Digest -> Report, st: State, d: Digest, v: Data, takes: bool)
    requires TiersFit(s, tool, st) && Fit(s, tool, st.puts, d, v)
    ensures TiersFit(s, tool, st.(local := Opened(st.local, d, takes)))
  {
    hide ToStore, Stored;
    assert Fit(s, tool, st.puts, d, []);
  }

  lemma WrittenFits(s: Setup, tool: Digest -> Report, st: State, d: Digest, v: Data, m: Step)
    requires m.Move? && s.saveOutput && TiersFit(s, tool, st) && Fit(s, tool, st.puts, d, v)
    requires CleanWrite(s, tool(d), v, 0, m)
    ensures TiersFit(s, tool, st.(local := Written(st.local, d, v, 0, Reached(v, 0, m), m.takes)))
  {
    hide Fit, Overlay, WriteAt;
    var n := Reached(v, 0, m);
    if m.takes && st.local.Some? && d in st.local.value {
      WriteAtStart(st.local.value[d], v[0..n]);
      PartFits(s, tool, st.puts, d, v, n);
      OverlayFits(s, tool, st.puts, d, st.local.value[d], v[0..n]);
    }
  }

  lemma PartFits(s: Setup, tool: Digest -> Report, puts: set<(Digest, Item)>, d: Digest, v: Data, n: nat)
    requires s.saveOutput && Fit(s, tool, puts, d, v) && n <= |v|
    requires n == |v| || HarmlessPart(s, tool(d), n)
    ensures Fit(s, tool, puts, d, v[0..n])
  {
    hide Legit, HarmlessPart, ToStore;
    if n == |v| {
      assert v[0..n] == v;
    } else {
      PartLegit(s, tool, d, v, n);
      assert v[0..n] == v[..n];
    }
  }

  lemma RemoteStoreFits(s: Setup, tool: Digest -> Report, st: State, i: nat, f: Fault, d: Digest)
    requires TiersFit(s, tool, st) && i < |st.remotes|
    requires Stored(s, tool(d)) && (d, ToStore(s, tool(d))) in st.puts
    ensures var t := RemoteStore(st.remotes[i], f, d, ToStore(s, tool(d))).1;
            TiersFit(s, tool, st.(remotes := st.remotes[i := t]))
  {
    hide Frame, Faithful;
    StoredIsLegit(s, tool, d);
    assert TierFits(s, tool, st.puts, st.remotes[i]);
    var v := Body(st.remotes[i].kind, d, ToStore(s, tool(d)));
    assert Fit(s, tool, st.puts, d, v);
    hide Fit, ToStore, Stored;
    assert TierFits(s, tool, st.puts, RemoteStore(st.remotes[i], f, d, ToStore(s, tool(d))).1);
  }

  /** What a remote reports is fit. */
  lemma FoundFits(s: Setup, tool: Digest -> Report, st: State, i: nat, f: Fault, d: Digest)
    requires TiersFit(s, tool, st) && i < |st.remotes|
    ensures var r := Found(s, st.remotes[i], f, d);
            r.Returned? && r.value.Some? ==> Fit(s, tool, st.puts, d, r.value.value)
  {
    hide ToStore, Stored, Frame;
    assert TierFits(s, tool, st.puts, st.remotes[i]);
  }

  /** The looking-up half of a run. */
  lemma LookUpMove(s: Setup, tool: Digest -> Report, st: State, pr: Proc, m: Step)
    requires m.Move? && TiersFit(s, tool, st) && ProcFits(s, tool, st.puts, pr) && CleanMove(s, pr, m)
    requires pr.phase.Building? || pr.phase.Hashing? || pr.phase.AskLocal? || pr.phase.AskRemote?
          || pr.phase.BackOpen? || pr.phase.BackWrite?
    ensures var (phase, st') := Moved(s, st, pr, m);
            st'.puts == st.puts && TiersFit(s, tool, st') && ProcFits(s, tool, st.puts, pr.(phase := phase))
  {
    hide Fit, Hit, Found, TiersFit, AllFit, RealRun, Stored, ToStore, Opened, Written, AsUncached, CleanWrite;
    if pr.hash.Key? {
      var d := pr.hash.digest;
      match pr.phase
      case Hashing =>
      case AskLocal =>
        if st.local.Some? && d in st.local.value {
          LocalFits(s, tool, st, d);
          HitFits(s, tool, st.puts, pr, st.local.value[d]);
        }
      case AskRemote(i) =>
        if i < |st.remotes| {
          var f := if m.raises then Lost else Fine;
          FoundFits(s, tool, st, i, f, d);
          var r := Found(s, st.remotes[i], f, d);
          if r.Returned? && r.value.Some? {
            HitFits(s, tool, st.puts, pr, r.value.value);
          }
        }
      case BackOpen(v) =>
        OpenedFits(s, tool, st, d, v, m.takes);
        HitFits(s, tool, st.puts, pr, v);
      case BackWrite(v, _) =>
        CleanEnds(s, pr.said, v, m);
        WrittenFits(s, tool, st, d, v, m);
        HitFits(s, tool, st.puts, pr, v);
      case _ =>
    } else {
      RealRunFits(s, tool, st.puts, pr);
    }
  }

  lemma CleanEnds(s: Setup, said: Report, v: Data, m: Step)
    requires m.Move? && CleanWrite(s, said, v, 0, m)
    ensures m.raises || Reached(v, 0, m) == |v|
  {
  }

  lemma LocalFits(s: Setup, tool: Digest -> Report, st: State, d: Digest)
    requires TiersFit(s, tool, st) && st.local.Some? && d in st.local.value
    ensures Fit(s, tool, st.puts, d, st.local.value[d])
  {
  }

  lemma RealRunFits(s: Setup, tool: Digest -> Report, puts: set<(Digest, Item)>, pr: Proc)
    requires pr.hash.Key? ==> pr.said == tool(pr.hash.digest)
    ensures ProcFits(s, tool, puts, pr.(phase := Finished(RealRun(s, pr.said), false)))
  {
  }

  /** The real run and the storing half. */
  lemma KeepMove(s: Setup, tool: Digest -> Report, st: State, pr: Proc, m: Step)
    requires m.Move? && TiersFit(s, tool, st) && ProcFits(s, tool, st.puts, pr) && CleanMove(s, pr, m)
    requires pr.phase.KeepOpen? || pr.phase.KeepWrite? || pr.phase.KeepRemote?
    ensures var (phase, st') := Moved(s, st, pr, m);
            st'.puts == st.puts && TiersFit(s, tool, st') && ProcFits(s, tool, st.puts, pr.(phase := phase))
  {
    hide TiersFit, AllFit, RealRun, Stored, ToStore, Opened, Written, AsUncached, RemoteStore, CleanWrite, Reached;
    RealRunFits(s, tool, st.puts, pr);
    var d := pr.hash.digest;
    match pr.phase
    case KeepOpen =>
      KeptFits(s, tool, st.puts, d);
      OpenedFits(s, tool, st, d, if s.saveOutput then Frame(pr.said) else [], m.takes);
    case KeepWrite(_) =>
      KeptFits(s, tool, st.puts, d);
      CleanEnds(s, pr.said, Frame(pr.said), m);
      WrittenFits(s, tool, st, d, Frame(pr.said), m);
    case KeepRemote(i) =>
      if i < |st.remotes| {
        RemoteStoreFits(s, tool, st, i, FaultOf(m), d);
      }
    case _ =>
  }

  lemma KeptFits(s: Setup, tool: Digest -> Report, puts: set<(Digest, Item)>, d: Digest)
    requires Stored(s, tool(d)) && (d, ToStore(s, tool(d))) in puts
    ensures Fit(s, tool, puts, d, if s.saveOutput then Frame(tool(d)) else [])
  {
    StoredIsLegit(s, tool, d);
  }

  /** A real run records what it sets out to store; what was fit stays fit. */
  lemma CallMove(s: Setup, tool: Digest -> Report, st: State, pr: Proc, m: Step)
    requires m.Move? && pr.phase.Calling? && TiersFit(s, tool, st) && ProcFits(s, tool, st.puts, pr)
    ensures var (phase, st') := Moved(s, st, pr, m);
            && st.puts <= st'.puts && TiersFit(s, tool, st')
            && ProcFits(s, tool, st'.puts, pr.(phase := phase))
  {
    hide RealRun, Stored, ToStore, AsUncached, Legit;
    RealRunFits(s, tool, st.puts, pr);
    MorePutsTiers(s, tool, st, Moved(s, st, pr, m).1.puts);
  }

  lemma MorePutsTiers(s: Setup, tool: Digest -> Report, st: State, puts: set<(Digest, Item)>)
    requires TiersFit(s, tool, st) && st.puts <= puts
    ensures TiersFit(s, tool, st.(puts := puts))
  {
    hide Legit, ToStore, Faithful;
    forall i | 0 <= i < |st.remotes| ensures TierFits(s, tool, puts, st.remotes[i]) {
      assert TierFits(s, tool, st.puts, st.remotes[i]);
    }
  }

  lemma MorePutsProc(s: Setup, tool: Digest -> Report, pr: Proc, before: set<(Digest, Item)>, puts: set<(Digest, Item)>)
    requires ProcFits(s, tool, before, pr) && before <= puts
    ensures ProcFits(s, tool, puts, pr)
  {
    hide Legit, ToStore, Stored, RealRun, AsUncached;
  }

  lemma LossFits(s: Setup, tool: Digest -> Report, st: State, m: Step)
    requires !m.Move? && TiersFit(s, tool, st)
    ensures TiersFit(s, tool, Apply(s, st, m))
  {
    hide Fit, Faithful;
    if m.LoseRemote? && m.index < |st.remotes| {
      assert TierFits(s, tool, st.puts, st.remotes[m.index]);
    }
  }

  lemma ApplyInv(s: Setup, tool: Digest -> Report, st: State, m: Step)
    requires Inv(s, tool, st) && Clean(s, st, m)
    ensures Inv(s, tool, Apply(s, st, m))
    ensures st.puts <= Apply(s, st, m).puts
  {
    hide TiersFit, ProcFits, Moved, CleanMove;
    if m.Move? && m.p < |st.procs| {
      var pr := st.procs[m.p];
      var (phase, st') := Moved(s, st, pr, m);
      MoveFits(s, tool, st, pr, m);
      forall p | 0 <= p < |st.procs| && p != m.p ensures ProcFits(s, tool, st'.puts, st.procs[p]) {
        MorePutsProc(s, tool, st.procs[p], st.puts, st'.puts);
      }
      ProcsApart(s, tool, st', st.procs[m.p := pr.(phase := phase)]);
    } else if !m.Move? {
      LossFits(s, tool, st, m);
    }
  }

  lemma ProcsApart(s: Setup, tool: Digest -> Report, st: State, procs: seq<Proc>)
    requires TiersFit(s, tool, st)
    ensures TiersFit(s, tool, st.(procs := procs))
  {
  }

  lemma MoveFits(s: Setup, tool: Digest -> Report, st: State, pr: Proc, m: Step)
    requires m.Move? && TiersFit(s, tool, st) && ProcFits(s, tool, st.puts, pr) && CleanMove(s, pr, m)
    ensures var (phase, st') := Moved(s, st, pr, m);
            && st.puts <= st'.puts && TiersFit(s, tool, st')
            && ProcFits(s, tool, st'.puts, pr.(phase := phase))
  {
    hide TiersFit, Moved, ProcFits, CleanMove;
    match pr.phase
    case Calling => CallMove(s, tool, st, pr, m);
    case KeepOpen => KeepMove(s, tool, st, pr, m);
    case KeepWrite(_) => KeepMove(s, tool, st, pr, m);
    case KeepRemote(_) => KeepMove(s, tool, st, pr, m);
    case Finished(_, _) => FinishedStays(s, st, pr, m);
    case _ => LookUpMove(s, tool, st, pr, m);
  }

  lemma FinishedStays(s: Setup, st: State, pr: Proc, m: Step)
    requires m.Move? && pr.phase.Finished?
    ensures Moved(s, st, pr, m) == (pr.phase, st)
    ensures pr.(phase := pr.phase) == pr
  {
  }

  lemma {:induction false} ExecuteInv(s: Setup, tool: Digest -> Report, st: State, ms: seq<Step>)
    requires Inv(s, tool, st) && AllClean(s, st, ms)
    ensures Inv(s, tool, Execute(s, st, ms))
    decreases |ms|
  {
    hide Inv, Apply, Clean;
    if ms != [] {
      ApplyInv(s, tool, st, ms[0]);
      ExecuteInv(s, tool, Apply(s, st, ms[0]), ms[1..]);
    }
  }

  /** In every interleaving of any number of processes, with any failures and losses, if no write is cut in
      pieces: whoever finishes with its cache built answers as the tool would have, an answer out of the cache
      was stored before under the same digest by a real run, and an answer of a real run is exactly the
      tool's. */
  lemma InterleavedRunsAgree(s: Setup, tool: Digest -> Report, st: State, ms: seq<Step>, p: nat)
    requires Start(s, tool, st) && AllClean(s, st, ms)
    requires p < |Execute(s, st, ms).procs| && Execute(s, st, ms).procs[p].phase.Finished?
    ensures var end := Execute(s, st, ms);
            var pr := end.procs[p];
            pr.phase.answer != NoRun ==>
              && AsUncached(s, pr.phase.answer, RealRun(s, pr.said))
              && (pr.phase.cached ==> pr.hash.Key? && (pr.hash.digest, ToStore(s, pr.said)) in end.puts)
              && (!pr.phase.cached ==> pr.phase.answer == RealRun(s, pr.said))
  {
    StartInv(s, tool, st);
    ExecuteInv(s, tool, st, ms);
    hide Execute, AsUncached, RealRun, ToStore;
    assert ProcFits(s, tool, Execute(s, st, ms).puts, Execute(s, st, ms).procs[p]);
  }

  /** A run is refused only where its cache cannot be built. */
  lemma OnlyBuildingRefuses(s: Setup, st: State, pr: Proc, m: Step)
    requires m.Move? && !pr.phase.Finished?
    ensures var phase := Moved(s, st, pr, m).0;
            (phase.Finished? && phase.answer == NoRun) <==> pr.phase.Building? && m.raises
  {
    hide Opened, Written, RemoteStore, Found, ToStore, Frame;
  }

  /** Why a write must not be cut: who reads the first `n` bytes in between replays them, unless the part does
      no harm. */
  lemma PartIsReplayed(s: Setup, said: Report, n: nat)
    requires s.saveOutput && n <= |said.stdout|
    ensures Hit(s, Frame(said)[..n]) ==
              if HarmlessPart(s, said, n) then Calling
              else Finished(Exit(LowByte(said.code), said.stdout[..n - 1]), true)
  {
    hide LowByte;
    PartOfFrame(said, n);
  }

  /** Nothing but a real run of that digest makes an entry of the record. */
  lemma OnlyRealRunsPut(s: Setup, st: State, m: Step, x: (Digest, Item))
    requires x !in st.puts && x in Apply(s, st, m).puts
    ensures m.Move? && m.p < |st.procs|
         && st.procs[m.p].phase == Calling && st.procs[m.p].hash == Key(x.0)
         && x.1 == ToStore(s, st.procs[m.p].said) && Stored(s, st.procs[m.p].said)
  {
  }

  // ----- Every process ends

  /** How far a process is from its end, writes in pieces apart. */
  function Rank(n: nat, phase: Phase): nat
  {
    match phase
    case Building => 2 * n + 11
    case Hashing => 2 * n + 10
    case AskLocal => 2 * n + 9
    case AskRemote(i) => (if i <= n then n - i else 0) + n + 8
    case BackOpen(_) => n + 7
    case BackWrite(_, _) => n + 6
    case Calling => n + 5
    case KeepOpen => n + 4
    case KeepWrite(_) => n + 3
    case KeepRemote(i) => (if i <= n then n - i else 0) + 2
    case Finished(_, _) => 0
  }

  /** The bytes still to be written. */
  function Left(pr: Proc): nat
  {
    match pr.phase
    case BackWrite(v, k) => if k < |v| then |v| - k else 0
    case KeepWrite(k) => if k < |Frame(pr.said)| then |Frame(pr.said)| - k else 0
    case _ => 0
  }

  /** A process that is not done comes closer to the end with each move, whatever the others did. */
  lemma MovesEnd(s: Setup, st: State, pr: Proc, m: Step)
    requires m.Move? && !pr.phase.Finished?
    ensures var (phase, st') := Moved(s, st, pr, m);
            var n := |st.remotes|;
            && |st'.remotes| == n
            && (Rank(n, phase) < Rank(n, pr.phase)
                || (Rank(n, phase) == Rank(n, pr.phase) && Left(pr.(phase := phase)) < Left(pr)))
  {
    hide Opened, Written, Frame, RemoteStore, Found, ToStore, Stored, RealRun;
  }
}
