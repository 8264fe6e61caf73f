// run_clang_tidy_cached of clang_tidy_cache.py: answer from the cache, or run the tool and store what it
// said. Every failure of the cache is meant to end in a real run.

module TidyDriver {
  import opened Wrappers
  import opened TidyCache
  import Base64Spec

  datatype Report = Report(code: int, stdout: Data, stderr: Data)

  /** CTCACHE_SAVE_OUTPUT, CTCACHE_IGNORE_OUTPUT, and whether bytes decode as UTF-8. Saving output
      implies ignoring it and saving everything. */
  datatype Setup = Setup(saveOutput: bool, ignoreFlag: bool, isText: Data -> bool)

  /** What hash_inputs gives. */
  datatype Hash = Key(digest: Digest) | NoKey | HashFails

  /** The exit code with what was written to stdout; an exception that leaves the driver after the tool ran;
      or one that leaves it before anything ran. */
  datatype Answer = Exit(code: int, shown: Data) | Crash | NoRun

  predicate Printable(s: Setup, said: Report)
  {
    s.isText(said.stdout) && s.isText(said.stderr)
  }

  /** What the driver answers without a cache. */
  function RealRun(s: Setup, said: Report): Answer
  {
    if Printable(s, said) then Exit(said.code, said.stdout) else Crash
  }

  /** `returncode & 0xFF`, which for negative numbers too is the remainder modulo 256. */
  function LowByte(code: int): Base64Spec.Byte
  {
    code % 256
  }

  function Frame(said: Report): Data
  {
    [LowByte(said.code)] + said.stdout
  }

  /** Empty data has no first byte and undecodable output cannot be written: both raise. */
  function Replay(s: Setup, data: Data): Option<Answer>
  {
    if data == [] || !s.isText(data[1..]) then None else Some(Exit(data[0], data[1..]))
  }

  function LookUp(s: Setup, t: Tiers, w: Weather, hash: Hash): (Option<Answer>, Tiers)
  {
    if !hash.Key? then (None, t)
    else if s.saveOutput then
      var (r, t') := FetchTiers(t, w, hash.digest);
      (if r.Returned? && r.value.Some? then Replay(s, r.value.value) else None, t')
    else
      var (r, t') := AskTiers(t, w, hash.digest);
      (if r == Returned(true) then Some(Exit(0, [])) else None, t')
  }

  predicate Savable(s: Setup, said: Report)
  {
    s.saveOutput || (said.code == 0 && (said.stdout == [] || s.ignoreFlag))
  }

  function ToStore(s: Setup, said: Report): Item
  {
    if s.saveOutput then Output(Frame(said)) else Mark
  }

  predicate Stored(s: Setup, said: Report)
  {
    Savable(s, said) && Printable(s, said)
  }

  /** One run: the answer and the tiers after it. */
  function RunCached(s: Setup, t: Tiers, hash: Hash, said: Report, look: Weather, keep: Weather): (Answer, Tiers)
  {
    var (hit, t1) := LookUp(s, t, look, hash);
    if hit.Some? then (hit.value, t1)
    else if hash.Key? && Stored(s, said) then
      (RealRun(s, said), StoreTiers(t1, keep, hash.digest, ToStore(s, said)).1)
    else (RealRun(s, said), t1)
  }

  /** The run with its cache built first, outside the `try`. */
  function Run(s: Setup, e: Env, w: World, hash: Hash, said: Report, look: Weather, keep: Weather): (Answer, World)
  {
    if !Builds(e) then (NoRun, w)
    else
      var (a, t) := RunCached(s, Assembled(e, w), hash, said, look, keep);
      (a, Settled(w, t))
  }

  method RunClangTidyCached(s: Setup, e: Env, w: World, hash: Hash, said: Report, look: Weather, keep: Weather)
    returns (answer: Answer, after: World)
    ensures (answer, after) == Run(s, e, w, hash, said, look, keep)
  {
    var cache := NewCache(e, w);
    if cache == null {
      return NoRun, w;
    }
    answer := RunWith(s, cache, hash, said, look, keep);
    after := Settled(w, Tiers(cache.local, cache.remotes, cache.writesBack));
  }

  /** All that follows, on the cache that was built. */
  method RunWith(s: Setup, cache: ClangTidyCache, hash: Hash, said: Report, look: Weather, keep: Weather)
    returns (answer: Answer)
    modifies cache
    ensures (answer, cache.State()) == RunCached(s, old(cache.State()), hash, said, look, keep)
  {
    if hash.Key? && s.saveOutput {
      var r := cache.GetCacheData(hash.digest, look);
      if r.Returned? && r.value.Some? {
        var data := r.value.value;
        if data != [] && s.isText(data[1..]) {
          return Exit(data[0], data[1..]);
        }
      }
    } else if hash.Key? {
      var r := cache.IsCached(hash.digest, look);
      if r == Returned(true) {
        return Exit(0, []);
      }
    }

    if !s.isText(said.stdout) || !s.isText(said.stderr) {
      return Crash;
    }
    var tidySuccess := true;
    if said.code != 0 {
      tidySuccess := false;
    }
    if said.stdout != [] && !(s.saveOutput || s.ignoreFlag) {
      tidySuccess := false;
    }
    if (tidySuccess || s.saveOutput) && hash.Key? {
      if s.saveOutput {
        var rc := LowByte(said.code);
        var raised := cache.StoreInCache(hash.digest, keep, Output([rc] + said.stdout));
      } else {
        var raised := cache.StoreInCache(hash.digest, keep, Mark);
      }
    }
    answer := Exit(said.code, said.stdout);
  }

  /** Unless the faults leave some tier able to answer, the answer is the real run's: no digest, nothing
      held, a failed read, a remote that raises before one that answers, counters or a write-back that fail.
      If a tier does answer, a marked digest means success, and saved data is replayed if it can be. */
  lemma FailOpen(s: Setup, t: Tiers, hash: Hash, said: Report, look: Weather, keep: Weather)
    ensures var a := RunCached(s, t, hash, said, look, keep).0;
            if !hash.Key? || !Answers(t, look, hash.digest, s.saveOutput) then a == RealRun(s, said)
            else if !s.saveOutput then a == Exit(0, [])
            else ReplaysALayer(s, t, hash.digest, said, a)
  {
    hide FetchTiers, AskTiers, StoreTiers, Answers, RealRun, Stored, Replay, ReplaysALayer;
    if hash.Key? {
      LookUpAnswers(t, look, hash.digest);
      var r := FetchTiers(t, look, hash.digest).0;
      if s.saveOutput && r.Returned? && r.value.Some? {
        FetchReplays(s, t, look, hash.digest, said, r.value.value);
      }
    }
  }

  /** The answer is made of what some layer holds: replayed, or given up for a real run. */
  ghost predicate ReplaysALayer(s: Setup, t: Tiers, d: Digest, said: Report, a: Answer)
  {
    exists k :: 0 <= k < |Layers(t)| && d in Layers(t)[k] && a == ReplayOr(s, Layers(t)[k][d], said)
  }

  function ReplayOr(s: Setup, v: Data, said: Report): Answer
  {
    if Replay(s, v).Some? then Replay(s, v).value else RealRun(s, said)
  }

  lemma FetchReplays(s: Setup, t: Tiers, w: Weather, d: Digest, said: Report, v: Data)
    requires FetchTiers(t, w, d).0 == Returned(Some(v))
    ensures ReplaysALayer(s, t, d, said, ReplayOr(s, v, said))
  {
    hide FetchTiers, Layers, ReplayOr;
    FetchIsFromALayer(t, w, d, v);
    var k :| 0 <= k < |Layers(t)| && d in Layers(t)[k] && Layers(t)[k][d] == v;
  }

  lemma FrameParts(said: Report)
    ensures Frame(said)[0] == said.code % 256 && Frame(said)[1..] == said.stdout
  {
  }

  /** The cached answer is the uncached one, up to what the mode gives up: with output saved, all but
      the low byte of the exit code; with output ignored, the output. */
  ghost predicate AsUncached(s: Setup, a: Answer, b: Answer)
  {
    || a == b
    || (a.Exit? && b.Exit? &&
        if s.saveOutput then a.shown == b.shown && a.code == b.code % 256
        else s.ignoreFlag && a.code == b.code)
  }

  /** What the operating system sees: an escaped exception is reported as exit code 1, and a POSIX exit
      status keeps the low byte only. */
  function Status(a: Answer): Base64Spec.Byte
  {
    if a.Exit? then LowByte(a.code) else 1
  }

  /** Even without a cache the driver ends with the status of the tool only if what the tool said is text, or
      that status is 1: other output raises before it is shown. */
  lemma RealRunStatus(s: Setup, said: Report)
    ensures Status(RealRun(s, said)) == said.code % 256 <==>
              (s.isText(said.stdout) && s.isText(said.stderr)) || said.code % 256 == 1
  {
  }

  /** For instance, a tool that succeeds with output that is no text. */
  lemma UndecodableOutputFails(s: Setup, look: Weather)
    requires !s.isText([255])
    ensures var said := Report(0, [255], []);
            var t := Tiers(Some(map[]), [], false);
            RunCached(s, t, NoKey, said, look, look).0 == Crash && Status(Crash) == 1 && LowByte(said.code) == 0
  {
  }

  /** A run whose cache cannot be built ends with status 1 without asking the tool, and leaves everything as
      it was: it has the uncached status exactly if the tool's run ends in 1 too. */
  lemma BrokenTierStopsTheRun(s: Setup, e: Env, w: World, hash: Hash, said: Report, look: Weather, keep: Weather)
    requires !Builds(e)
    ensures Run(s, e, w, hash, said, look, keep) == (NoRun, w)
    ensures Status(Run(s, e, w, hash, said, look, keep).0) == Status(RealRun(s, said)) <==>
              Status(RealRun(s, said)) == 1
  {
  }

  /** For instance: one server tier, and no requests module. The tool would have found nothing wrong. */
  lemma ServerWithoutRequests()
    ensures exists s: Setup, e: Env, w: World, said: Report, look: Weather ::
              && e.has == {Server} && e.broken == {Server} && Calm(look)
              && Run(s, e, w, Key("ab"), said, look, look).0 == NoRun && RealRun(s, said) == Exit(0, [])
  {
    var s := Setup(false, false, (v: Data) => true);
    var e := Env({Server}, {}, false, false, true, {Server}, (v: Data) => v);
    var w := World(map[], map[]);
    var look := Weather(Fine, false, (i: nat) => Fine, false, Fine);
    assert Run(s, e, w, Key("ab"), Report(0, [], []), look, look).0 == NoRun;
    assert RealRun(s, Report(0, [], [])) == Exit(0, []);
  }

  /** The exit status is always the uncached one; the whole answer is, unless output is ignored without
      being saved or a saved code does not fit a byte. */
  lemma AsUncachedMeans(s: Setup, a: Answer, b: Answer)
    requires AsUncached(s, a, b)
    ensures Status(a) == Status(b)
    ensures s.saveOutput && (b.Exit? ==> 0 <= b.code < 256) ==> a == b
    ensures !s.saveOutput && !s.ignoreFlag ==> a == b
  {
  }

  /** With output saved, the second of two undisturbed runs answers with the low byte of the exit code; that is
      exactly as the tool, if and only if the exit code fits a byte. */
  lemma SecondRunExact(s: Setup, t: Tiers, d: Digest, said: Report, look: Weather, keep: Weather)
    requires s.saveOutput && Printable(s, said) && Calm(look) && Calm(keep)
    requires t.local.Some? && View(t, d) == None
    ensures var t1 := RunCached(s, t, Key(d), said, look, keep).1;
            var second := RunCached(s, t1, Key(d), said, look, keep).0;
            && second == Exit(LowByte(said.code), said.stdout)
            && (second == RealRun(s, said) <==> 0 <= said.code < 256)
  {
    hide FetchRemotes, StoreRemotes, FirstOf;
    FetchIsView(t, look, d);
    var t1 := RunCached(s, t, Key(d), said, look, keep).1;
    StoredLocally(t, keep, d, Frame(said));
    assert t1.local.value[d] == Frame(said);
    FrameParts(said);
  }

  /** A tool killed by signal 9 is replayed as 247. */
  lemma KilledToolReplayed(s: Setup, look: Weather)
    requires s.saveOutput && s.isText([]) && Calm(look)
    ensures var said := Report(-9, [], []);
            var t := Tiers(Some(map[]), [], false);
            var t1 := RunCached(s, t, Key("ab"), said, look, look).1;
            RealRun(s, said) == Exit(-9, []) && RunCached(s, t1, Key("ab"), said, look, look).0 == Exit(247, [])
  {
    hide RunCached;
    var t := Tiers(Some(map[]), [], false);
    NotPresentNoView(t, "ab");
    SecondRunExact(s, t, "ab", Report(-9, [], []), look, look);
  }

  lemma StoredLocally(t: Tiers, w: Weather, d: Digest, v: Data)
    requires Calm(w) && t.local.Some?
    ensures var t' := StoreTiers(t, w, d, Output(v)).1;
            t'.local.Some? && d in t'.local.value && t'.local.value[d] == v
  {
  }

  // ----- Without a local tier, too

  /** The first remote that takes data in. */
  ghost predicate FirstTaker(rs: seq<Tier>, k: nat)
  {
    && k < |rs| && !rs[k].readOnly && !rs[k].kind.S3?
    && forall j :: 0 <= j < k ==> rs[j].readOnly || rs[j].kind.S3?
  }

  /** With output saved and no local tier, the second of two undisturbed runs replays what the first remote that
      takes data gives back; and that is the low byte of the exit code with the output, unless it is a server,
      whose reply is decoded. */
  lemma SecondRunRemote(s: Setup, t: Tiers, d: Digest, said: Report, look: Weather, keep: Weather, k: nat)
    requires s.saveOutput && Printable(s, said) && Calm(look) && Calm(keep)
    requires t.local.None? && View(t, d) == None && FirstTaker(t.remotes, k)
    ensures var t1 := RunCached(s, t, Key(d), said, look, keep).1;
            var second := RunCached(s, t1, Key(d), said, look, keep).0;
            if t.remotes[k].kind.Server? then second == ReplayOr(s, t.remotes[k].reply(Frame(said)), said)
            else
              && second == Exit(LowByte(said.code), said.stdout)
              && (second == RealRun(s, said) <==> 0 <= said.code < 256)
  {
    hide FetchTiers, StoreTiers, View, LowByte;
    FetchIsView(t, look, d);
    MissChangesNothing(t, look, d);
    var t1 := StoreTiers(t, keep, d, Output(Frame(said))).1;
    ViewAfterStore(t, keep, d, Frame(said), k);
    FetchIsView(t1, look, d);
    FrameParts(said);
  }

  /** What is then in view. */
  lemma ViewAfterStore(t: Tiers, w: Weather, d: Digest, v: Data, k: nat)
    requires Calm(w) && t.local.None? && View(t, d) == None && FirstTaker(t.remotes, k)
    ensures var tier := t.remotes[k];
            View(StoreTiers(t, w, d, Output(v)).1, d) == Some(if tier.kind.Server? then tier.reply(v) else v)
  {
    hide StoreTiers, FirstOf;
    var t1 := StoreTiers(t, w, d, Output(v)).1;
    CalmStore(t, w, d, Output(v));
    StoreReachesLocal(t, w, d, Output(v));
    assert Layers(t1) == RemoteLayers(t1.remotes, 0) && Layers(t) == RemoteLayers(t.remotes, 0);
    assert FirstOf(Layers(t), d).None?;
    forall j | 0 <= j < k ensures d !in RemoteLayers(t1.remotes, 0)[j] {
      assert d !in Layers(t)[j];
    }
    FirstOfAt(RemoteLayers(t1.remotes, 0), d, k);
  }

  lemma MissChangesNothing(t: Tiers, w: Weather, d: Digest)
    requires FetchTiers(t, w, d).0 == Returned(None)
    ensures FetchTiers(t, w, d).1 == t
  {
    hide FetchRemotes;
  }

  /** Some tier takes in what the run stores: the local one; or a remote that may be written, other than S3 if it
      is data. */
  ghost predicate SomeTakes(s: Setup, t: Tiers)
  {
    || t.local.Some?
    || exists k :: 0 <= k < |t.remotes| && !t.remotes[k].readOnly && !(s.saveOutput && t.remotes[k].kind.S3?)
  }

  /** An undisturbed run that was not cached is cached afterwards if and only if some tier takes it in and it may
      be: output is saved, or the tool succeeded with nothing to show that is not ignored. */
  lemma CachedIffSavable(s: Setup, t: Tiers, d: Digest, said: Report, look: Weather, keep: Weather)
    requires Calm(look) && Calm(keep) && Printable(s, said)
    requires !Present(t, d)
    ensures Present(RunCached(s, t, Key(d), said, look, keep).1, d) <==>
              SomeTakes(s, t) && (s.saveOutput || (said.code == 0 && (said.stdout == [] || s.ignoreFlag)))
    ensures RunCached(s, t, Key(d), said, look, keep).0 == RealRun(s, said)
  {
    hide FetchRemotes, AskRemotes, StoreTiers, FirstOf, Frame, Present, SomeTakes;
    if s.saveOutput {
      FetchIsView(t, look, d);
      NotPresentNoView(t, d);
    } else {
      AskIsPresence(t, look, d);
    }
    PresentAfterStore(s, t, keep, d, ToStore(s, said));
  }

  lemma PresentAfterStore(s: Setup, t: Tiers, w: Weather, d: Digest, item: Item)
    requires Calm(w) && !Present(t, d) && item.Output? == s.saveOutput
    ensures Present(StoreTiers(t, w, d, item).1, d) <==> SomeTakes(s, t)
  {
    hide StoreTiers;
    var t' := StoreTiers(t, w, d, item).1;
    CalmStore(t, w, d, item);
    StoreReachesLocal(t, w, d, item);
    if SomeTakes(s, t) && t.local.None? {
      var k :| 0 <= k < |t.remotes| && !t.remotes[k].readOnly && !(s.saveOutput && t.remotes[k].kind.S3?);
      assert d in t'.remotes[k].entries;
    }
    if Present(t', d) && t.local.None? {
      var k :| 0 <= k < |t'.remotes| && d in t'.remotes[k].entries;
      assert d !in t.remotes[k].entries;
    }
  }

  /** With nothing but the fact stored, the second of two undisturbed runs reports success without the tool, if and
      only if the first could be stored and some tier took it in. */
  lemma SecondRunMarked(s: Setup, t: Tiers, d: Digest, said: Report, again: Report, look: Weather, keep: Weather)
    requires !s.saveOutput && Printable(s, said) && Calm(look) && Calm(keep) && !Present(t, d)
    ensures var t1 := RunCached(s, t, Key(d), said, look, keep).1;
            RunCached(s, t1, Key(d), again, look, keep).0 ==
              if SomeTakes(s, t) && said.code == 0 && (said.stdout == [] || s.ignoreFlag) then Exit(0, [])
              else RealRun(s, again)
  {
    hide AskTiers, StoreTiers, Present, SomeTakes, Printable, RealRun;
    CachedIffSavable(s, t, d, said, look, keep);
    var t1 := RunCached(s, t, Key(d), said, look, keep).1;
    AskIsPresence(t1, look, d);
  }

  // ----- One run after another

  /** What a run never changes of its tiers. */
  ghost predicate SameTiers(t: Tiers, t': Tiers)
  {
    && |t'.remotes| == |t.remotes| && t'.writesBack == t.writesBack && (t'.local.Some? <==> t.local.Some?)
    && forall k :: 0 <= k < |t.remotes| ==> t'.remotes[k] == t.remotes[k].(entries := t'.remotes[k].entries)
  }

  lemma StoreSameTiers(t: Tiers, w: Weather, d: Digest, item: Item)
    ensures SameTiers(t, StoreTiers(t, w, d, item).1)
  {
    hide StoreTiers;
    StoreReachesRemotes(t, w, d, item);
    StoreReachesLocal(t, w, d, item);
  }

  lemma RunSameTiers(s: Setup, t: Tiers, hash: Hash, said: Report, look: Weather, keep: Weather)
    ensures SameTiers(t, RunCached(s, t, hash, said, look, keep).1)
  {
    hide FetchTiers, AskTiers, StoreTiers, Stored, ToStore, RealRun, Replay;
    if hash.Key? {
      LookUpChangesLittle(t, look, hash.digest);
      StoreSameTiers(LookUp(s, t, look, hash).1, keep, hash.digest, ToStore(s, said));
    }
  }

  /** Two runs in one environment: the second goes on with the tiers as the first left them. */
  lemma RunsFollow(s: Setup, e: Env, w: World, h1: Hash, r1: Report, l1: Weather, k1: Weather,
                   h2: Hash, r2: Report, l2: Weather, k2: Weather)
    requires Builds(e)
    ensures var (a1, w1) := Run(s, e, w, h1, r1, l1, k1);
            var (b1, t1) := RunCached(s, Assembled(e, w), h1, r1, l1, k1);
            var (a2, w2) := Run(s, e, w1, h2, r2, l2, k2);
            var (b2, t2) := RunCached(s, t1, h2, r2, l2, k2);
            a1 == b1 && a2 == b2 && Assembled(e, w1) == t1 && Assembled(e, w2) == t2
  {
    hide RunCached, Assembled, Settled, Builds;
    var t1 := RunCached(s, Assembled(e, w), h1, r1, l1, k1).1;
    RunSameTiers(s, Assembled(e, w), h1, r1, l1, k1);
    NextRunFinds(e, w, t1);
    RunSameTiers(s, t1, h2, r2, l2, k2);
    NextRunFinds(e, Settled(w, t1), RunCached(s, t1, h2, r2, l2, k2).1);
  }

  lemma NotPresentNoView(t: Tiers, d: Digest)
    requires !Present(t, d)
    ensures View(t, d) == None
  {
    var off := if t.local.Some? then 1 else 0;
    forall k | 0 <= k < |Layers(t)| ensures d !in Layers(t)[k] {
      if k >= off {
        assert Layers(t)[k] == Shown(t.remotes[k - off]);
      }
    }
  }

  // ----- Files left in part

  /** `n` bytes of what is stored for a report do no harm: none, all, or bytes that cannot be replayed. */
  predicate HarmlessPart(s: Setup, said: Report, n: nat)
  {
    n == 0 || n > |said.stdout| || !s.isText(said.stdout[..n - 1])
  }

  /** A store that leaves part of a file behind, say on a full disk, is not noticed by later runs. The next
      run answers exactly as the tool if and only if the part does no harm and, if it is the whole, the exit
      code fits a byte. */
  lemma TornStoreExact(s: Setup, t: Tiers, d: Digest, said: Report, look: Weather, keep: Weather)
    requires s.saveOutput && Printable(s, said) && Calm(look) && keep.local.Torn?
    requires t.local.Some? && View(t, d) == None
    ensures var t1 := RunCached(s, t, Key(d), said, look, keep).1;
            RunCached(s, t1, Key(d), said, look, keep).0 == RealRun(s, said) <==>
              HarmlessPart(s, said, keep.local.kept) && (keep.local.kept > |said.stdout| ==> 0 <= said.code < 256)
  {
    hide FetchRemotes, StoreRemotes, FirstOf, LowByte;
    FetchIsView(t, look, d);
    var t1 := RunCached(s, t, Key(d), said, look, keep).1;
    var n := keep.local.kept;
    FrameParts(said);
    PartOfFrame(said, n);
    assert t1.local.value[d] == if n <= |said.stdout| then Frame(said)[..n] else Frame(said);
  }

  lemma PartOfFrame(said: Report, n: nat)
    ensures 0 < n <= |said.stdout| ==> Frame(said)[..n][1..] == said.stdout[..n - 1]
    ensures |Frame(said)| == |said.stdout| + 1
  {
  }

  /** For instance, two of three bytes: the second run shows half of the output. */
  lemma TornStoreIsReplayed()
    ensures exists s: Setup, said: Report, look: Weather, keep: Weather ::
              var t := Tiers(Some(map[]), [], false);
              var t1 := RunCached(s, t, Key("ab"), said, look, keep).1;
              RunCached(s, t1, Key("ab"), said, look, keep).0 == Exit(1, [7]) && RealRun(s, said) == Exit(1, [7, 8])
  {
    var s := Setup(true, false, (v: Data) => true);
    var said := Report(1, [7, 8], []);
    var look := Weather(Fine, false, (i: nat) => Fine, false, Fine);
    var keep := look.(local := Torn(2));
    var t := Tiers(Some(map[]), [], false);
    var t1 := RunCached(s, t, Key("ab"), said, look, keep).1;
    assert Frame(said) == [1, 7, 8];
    assert t1.local.value["ab"] == [1, 7, 8][..2] == [1, 7];
    assert [1, 7][1..] == [7];
    assert RunCached(s, t1, Key("ab"), said, look, keep).0 == Exit(1, [7]);
  }
}
