// Whole histories of run_clang_tidy_cached: many runs, one after another, over files and services that
// outlive them, each run in its own environment.

module TidyHistory {
  import opened Wrappers
  import opened TidyCache
  import opened TidyDriver
  import Base64Spec

  /** `said` is what the tool would say; entries may vanish between runs. */
  datatype Event =
    | Call(env: Env, hash: Hash, said: Report, look: Weather, keep: Weather)
    | EvictFile(digest: Digest)
    | EvictEntry(kind: Kind, digest: Digest)

  function Evicted(w: World, e: Event): World
    requires !e.Call?
  {
    if e.EvictFile? then w.(files := w.files - {e.digest})
    else w.(services := w.services[e.kind := Held(w, e.kind) - {e.digest}])
  }

  lemma EvictedMeans(w: World, k: Kind, d: Digest)
    ensures Evicted(w, EvictFile(d)) == World(w.files - {d}, w.services)
    ensures Evicted(w, EvictEntry(k, d)).files == w.files
    ensures forall j :: Held(Evicted(w, EvictEntry(k, d)), j) == if j == k then Held(w, j) - {d} else Held(w, j)
  {
  }

  /** What a run answered, beside what it would have answered uncached; and whether its cache was built. */
  datatype Played = Played(answer: Answer, uncached: Answer, built: bool)

  function Play(s: Setup, w: World, es: seq<Event>): (r: (World, seq<Played>))
    decreases |es|
  {
    if es == [] then (w, [])
    else if es[0].Call? then
      var e := es[0];
      var (a, w1) := Run(s, e.env, w, e.hash, e.said, e.look, e.keep);
      var (w2, rest) := Play(s, w1, es[1..]);
      (w2, [Played(a, RealRun(s, e.said), Builds(e.env))] + rest)
    else Play(s, Evicted(w, es[0]), es[1..])
  }

  /** An entry that does no harm with a tool which is a function of the digest: the truth, or a part of it
      that cannot be replayed. */
  ghost predicate Legit(s: Setup, tool: Digest -> Report, d: Digest, v: Data)
  {
    if s.saveOutput then
      v <= Frame(tool(d)) && (v == [] || !s.isText(v[1..]) || (v == Frame(tool(d)) && Printable(s, tool(d))))
    else Stored(s, tool(d))
  }

  ghost predicate AllLegit(s: Setup, tool: Digest -> Report, es: Entries)
  {
    forall d :: d in es ==> Legit(s, tool, d, es[d])
  }

  /** Decoding the replies of a server does no harm either. */
  ghost predicate Faithful(s: Setup, tool: Digest -> Report, reply: Data -> Data)
  {
    s.saveOutput ==> forall d, v :: Legit(s, tool, d, v) ==> Legit(s, tool, d, reply(v))
  }

  ghost predicate TierLegit(s: Setup, tool: Digest -> Report, t: Tier)
  {
    AllLegit(s, tool, t.entries) && (t.kind.Server? ==> Faithful(s, tool, t.reply))
  }

  ghost predicate RemotesLegit(s: Setup, tool: Digest -> Report, rs: seq<Tier>)
  {
    forall k :: 0 <= k < |rs| ==> TierLegit(s, tool, rs[k])
  }

  /** What a get makes of a legitimate entry. */
  lemma ReadLegit(s: Setup, tool: Digest -> Report, t: Tier, d: Digest)
    requires TierLegit(s, tool, t) && d in t.entries
    ensures Legit(s, tool, d, Read(t, t.entries[d]))
  {
    hide Stored, Frame;
  }

  ghost predicate Honest(s: Setup, tool: Digest -> Report, t: Tiers)
  {
    && (t.local.Some? ==> AllLegit(s, tool, t.local.value))
    && RemotesLegit(s, tool, t.remotes)
  }

  ghost predicate WorldHonest(s: Setup, tool: Digest -> Report, w: World)
  {
    AllLegit(s, tool, w.files) && forall k :: k in w.services ==> AllLegit(s, tool, w.services[k])
  }

  /** If a store leaves part of a file, the part does no harm. */
  ghost predicate Mild(s: Setup, said: Report, f: Fault)
  {
    s.saveOutput && f.Torn? ==> HarmlessPart(s, said, f.kept)
  }

  /** The tool is a function of the digest, no file is left in a harmful part, and a server's replies are
      decoded without harm. */
  ghost predicate Fair(s: Setup, tool: Digest -> Report, e: Event)
  {
    e.Call? ==>
      && (e.hash.Key? ==>
            e.said == tool(e.hash.digest) && Mild(s, e.said, e.look.writeback) && Mild(s, e.said, e.keep.local))
      && (Server in e.env.has ==> Faithful(s, tool, e.env.reply))
  }

  lemma LocalStoreLegit(s: Setup, tool: Digest -> Report, es: Entries, f: Fault, d: Digest, item: Item)
    requires AllLegit(s, tool, es)
    requires s.saveOutput ==> item.Output? && Legit(s, tool, d, item.data) && Mild(s, tool(d), f)
    requires !s.saveOutput ==> Stored(s, tool(d))
    ensures AllLegit(s, tool, LocalStore(es, f, d, item).1)
  {
    hide Stored;
    if s.saveOutput && f.Torn? {
      PartLegit(s, tool, d, item.data, f.kept);
    }
    hide Legit, Mild;
  }

  /** A harmless part of something legitimate is legitimate. */
  lemma PartLegit(s: Setup, tool: Digest -> Report, d: Digest, v: Data, n: nat)
    requires s.saveOutput && Legit(s, tool, d, v) && HarmlessPart(s, tool(d), n)
    ensures Legit(s, tool, d, if n < |v| then v[..n] else v)
  {
    hide Printable, Frame;
    var f := Frame(tool(d));
    PartOfFrame(tool(d), n);
    if 0 < n < |v| {
      assert v[..n] == f[..n];
    }
  }

  lemma RemoteStoreLegit(s: Setup, tool: Digest -> Report, t: Tier, f: Fault, d: Digest, item: Item)
    requires TierLegit(s, tool, t)
    requires s.saveOutput ==> item.Output? && Legit(s, tool, d, item.data)
    requires !s.saveOutput ==> Stored(s, tool(d))
    ensures TierLegit(s, tool, RemoteStore(t, f, d, item).1)
  {
    hide Frame, Stored, Printable, Faithful;
  }

  lemma {:induction false} StoreRemotesHonest(s: Setup, tool: Digest -> Report, rs: seq<Tier>, w: Weather, d: Digest,
                                              item: Item, i: nat)
    requires i <= |rs|
    requires RemotesLegit(s, tool, rs)
    requires s.saveOutput ==> item.Output? && Legit(s, tool, d, item.data)
    requires !s.saveOutput ==> Stored(s, tool(d))
    ensures RemotesLegit(s, tool, StoreRemotes(rs, w, d, item, i).1)
    decreases |rs| - i
  {
    hide TierLegit, Legit, Stored, RemoteStore;
    if i < |rs| {
      RemoteStoreLegit(s, tool, rs[i], w.remotes(i), d, item);
      var (raised, t) := RemoteStore(rs[i], w.remotes(i), d, item);
      var one := rs[i := t];
      assert RemotesLegit(s, tool, one);
      if !raised {
        StoreRemotesHonest(s, tool, one, w, d, item, i + 1);
      }
    }
  }

  lemma StoreHonest(s: Setup, tool: Digest -> Report, t: Tiers, w: Weather, d: Digest, item: Item)
    requires Honest(s, tool, t)
    requires s.saveOutput ==> item.Output? && Legit(s, tool, d, item.data) && Mild(s, tool(d), w.local)
    requires !s.saveOutput ==> Stored(s, tool(d))
    ensures Honest(s, tool, StoreTiers(t, w, d, item).1)
  {
    hide AllLegit, RemotesLegit, Legit, Stored, LocalStore, StoreRemotes, Mild;
    if t.local.Some? {
      LocalStoreLegit(s, tool, t.local.value, w.local, d, item);
    }
    StoreRemotesHonest(s, tool, t.remotes, w, d, item, 0);
  }

  lemma LayerLegit(s: Setup, tool: Digest -> Report, t: Tiers, k: nat, d: Digest)
    requires Honest(s, tool, t) && k < |Layers(t)| && d in Layers(t)[k]
    ensures Legit(s, tool, d, Layers(t)[k][d])
  {
    hide Legit, TierLegit;
    var off := if t.local.Some? then 1 else 0;
    if k >= off {
      var tier := t.remotes[k - off];
      assert Layers(t)[k] == Shown(tier);
      assert TierLegit(s, tool, tier);
      ReadLegit(s, tool, tier, d);
    }
  }

  /** What a get returns is an entry of some tier. */
  lemma FetchLegit(s: Setup, tool: Digest -> Report, t: Tiers, w: Weather, d: Digest, v: Data)
    requires Honest(s, tool, t)
    requires FetchTiers(t, w, d).0 == Returned(Some(v))
    ensures Legit(s, tool, d, v)
  {
    hide FetchTiers, Legit, Honest, Layers;
    FetchIsFromALayer(t, w, d, v);
    var k :| 0 <= k < |Layers(t)| && d in Layers(t)[k] && Layers(t)[k][d] == v;
    LayerLegit(s, tool, t, k, d);
  }

  /** Before a failed write-back too, the remotes gave a legitimate answer. */
  lemma RemoteFetchLegit(s: Setup, tool: Digest -> Report, t: Tiers, w: Weather, d: Digest, v: Data)
    requires Honest(s, tool, t)
    requires FetchRemotes(t.remotes, w, d, 0) == Returned(Some(v))
    ensures Legit(s, tool, d, v)
  {
    hide Legit, TierLegit;
    var k := FetchedFrom(t.remotes, w, d, 0, v);
    assert TierLegit(s, tool, t.remotes[k]);
    ReadLegit(s, tool, t.remotes[k], d);
  }

  lemma LookUpHonest(s: Setup, tool: Digest -> Report, t: Tiers, w: Weather, d: Digest)
    requires Honest(s, tool, t)
    requires Mild(s, tool(d), w.writeback)
    ensures Honest(s, tool, LookUp(s, t, w, Key(d)).1)
    ensures var hit := LookUp(s, t, w, Key(d)).0;
            hit.Some? ==> AsUncached(s, hit.value, RealRun(s, tool(d)))
  {
    hide Stored, AllLegit, Legit, LocalStore, FetchRemotes, AskRemotes, Mild;
    if s.saveOutput {
      SaveLookUpHonest(s, tool, t, w, d);
    } else {
      MarkLookUpHonest(s, tool, t, w, d);
    }
  }

  lemma SaveLookUpHonest(s: Setup, tool: Digest -> Report, t: Tiers, w: Weather, d: Digest)
    requires Honest(s, tool, t) && s.saveOutput && Mild(s, tool(d), w.writeback)
    ensures Honest(s, tool, LookUp(s, t, w, Key(d)).1)
    ensures var hit := LookUp(s, t, w, Key(d)).0;
            hit.Some? ==> AsUncached(s, hit.value, RealRun(s, tool(d)))
  {
    hide Stored, AllLegit, LocalStore, FetchRemotes, AskRemotes, LowByte, Mild;
    var (r, t') := FetchTiers(t, w, d);
    if t' != t {
      var v := FetchRemotes(t.remotes, w, d, 0).value.value;
      RemoteFetchLegit(s, tool, t, w, d, v);
      LocalStoreLegit(s, tool, t.local.value, w.writeback, d, Output(v));
    }
    if r.Returned? && r.value.Some? && Replay(s, r.value.value).Some? {
      FetchLegit(s, tool, t, w, d, r.value.value);
      FrameParts(tool(d));
    }
  }

  lemma MarkLookUpHonest(s: Setup, tool: Digest -> Report, t: Tiers, w: Weather, d: Digest)
    requires Honest(s, tool, t) && !s.saveOutput
    ensures Honest(s, tool, LookUp(s, t, w, Key(d)).1)
    ensures var hit := LookUp(s, t, w, Key(d)).0;
            hit.Some? ==> AsUncached(s, hit.value, RealRun(s, tool(d)))
  {
    hide LocalStore, FetchRemotes, AskRemotes;
    AskRemotesMeans(t.remotes, w, d, 0);
    if t.local.Some? && d in t.local.value {
      assert Legit(s, tool, d, t.local.value[d]);
    } else if AskRemotes(t.remotes, w, d, 0) == Returned(true) {
      var k :| 0 <= k < |t.remotes| && d in t.remotes[k].entries;
      assert TierLegit(s, tool, t.remotes[k]);
      assert Legit(s, tool, d, t.remotes[k].entries[d]);
      if t.local.Some? {
        LocalStoreLegit(s, tool, t.local.value, w.writeback, d, Mark);
      }
    }
  }

  lemma RunHonest(s: Setup, tool: Digest -> Report, t: Tiers, e: Event)
    requires e.Call? && Honest(s, tool, t) && Fair(s, tool, e)
    ensures var (a, t') := RunCached(s, t, e.hash, e.said, e.look, e.keep);
            Honest(s, tool, t') && AsUncached(s, a, RealRun(s, e.said))
  {
    hide LookUp, Honest, StoreTiers, Frame, Legit, Mild;
    var (hit, t1) := LookUp(s, t, e.look, e.hash);
    if e.hash.Key? {
      LookUpHonest(s, tool, t, e.look, e.hash.digest);
      if hit.None? && Stored(s, e.said) {
        StoredIsLegit(s, tool, e.hash.digest);
        StoreHonest(s, tool, t1, e.keep, e.hash.digest, ToStore(s, e.said));
      }
    } else {
      NoKeyNoChange(s, t, e.look, e.hash);
    }
  }

  lemma NoKeyNoChange(s: Setup, t: Tiers, w: Weather, hash: Hash)
    requires !hash.Key?
    ensures LookUp(s, t, w, hash) == (None, t)
  {
  }

  lemma StoredIsLegit(s: Setup, tool: Digest -> Report, d: Digest)
    requires Stored(s, tool(d))
    ensures s.saveOutput ==> Legit(s, tool, d, Frame(tool(d)))
  {
  }

  // ----- What the decoding of replies may do

  /** A server's reply does no harm to one stored run: it comes back as it was, or cannot be replayed. */
  predicate HarmlessReply(s: Setup, said: Report, reply: Data -> Data)
  {
    var r := reply(Frame(said));
    r == Frame(said) || r == [] || !s.isText(r[1..])
  }

  /** Out of a server that holds the truth, an undisturbed run answers as uncached if and only if the decoding
      of the reply does no harm. */
  lemma ReplyExact(s: Setup, t: Tiers, d: Digest, said: Report, look: Weather, keep: Weather)
    requires s.saveOutput && Printable(s, said) && Calm(look)
    requires t.local == None && |t.remotes| == 1 && t.remotes[0].kind.Server?
    requires d in t.remotes[0].entries && t.remotes[0].entries[d] == Frame(said)
    ensures AsUncached(s, RunCached(s, t, Key(d), said, look, keep).0, RealRun(s, said)) <==>
              HarmlessReply(s, said, t.remotes[0].reply)
  {
    hide StoreTiers, LowByte, FetchRemotes;
    var tier := t.remotes[0];
    var r := tier.reply(Frame(said));
    OneServer(t, look, d);
    FrameParts(said);
    if r != [] {
      assert r == [r[0]] + r[1..];
    }
  }

  lemma OneServer(t: Tiers, w: Weather, d: Digest)
    requires Calm(w) && t.local == None && |t.remotes| == 1 && t.remotes[0].kind.Server? && d in t.remotes[0].entries
    ensures FetchTiers(t, w, d) == (Returned(Some(t.remotes[0].reply(t.remotes[0].entries[d]))), t)
  {
    assert FetchRemotes(t.remotes, w, d, 0) == Returned(Some(Read(t.remotes[0], t.remotes[0].entries[d])));
  }

  /** A reply read as Latin-1: every byte is a character, and those from 128 up take two bytes in UTF-8. */
  function LatinByte(b: Base64Spec.Byte): (r: Data)
    ensures |r| == (if b < 128 then 1 else 2)
  {
    if b < 128 then [b] else [192 + b / 64, 128 + b % 64]
  }

  /** In UTF-8 the two bytes are marked as such and carry six bits and the two above them. */
  lemma LatinByteIs(b: Base64Spec.Byte)
    requires b >= 128
    ensures var r := LatinByte(b);
            && (r[0] == 194 || r[0] == 195) && 128 <= r[1] < 192
            && (r[0] - 192) * 64 + (r[1] - 128) == b
  {
  }

  function LatinReply(v: Data): (r: Data)
    ensures |r| >= |v|
  {
    if v == [] then [] else LatinByte(v[0]) + LatinReply(v[1..])
  }

  /** Latin-1 gives the bytes back exactly if they are ASCII. */
  lemma {:induction false} LatinReplyExact(v: Data)
    ensures LatinReply(v) == v <==> forall k :: 0 <= k < |v| ==> v[k] < 128
  {
    if v != [] {
      var rest := v[1..];
      LatinReplyExact(rest);
      assert v == [v[0]] + rest;
      if v[0] < 128 {
        assert LatinReply(v)[1..] == LatinReply(rest);
        assert forall k :: 0 < k < |v| ==> v[k] == rest[k - 1];
      } else {
        assert |LatinReply(v)| > |v|;
      }
    }
  }

  /** If all that the tool ever says is ASCII, and its exit codes too, replies read as Latin-1 do no harm. */
  lemma LatinIsFaithful(s: Setup, tool: Digest -> Report)
    requires forall d, k :: 0 <= k < |Frame(tool(d))| ==> Frame(tool(d))[k] < 128
    ensures Faithful(s, tool, LatinReply)
  {
    hide Frame;
    if s.saveOutput {
      forall d, v | Legit(s, tool, d, v) ensures Legit(s, tool, d, LatinReply(v)) {
        LatinReplyExact(v);
        forall k | 0 <= k < |v| ensures v[k] < 128 {
          assert v[k] == Frame(tool(d))[k];
        }
      }
    }
  }

  /** An e with an accent, in UTF-8, comes back as four bytes and is shown as two other characters. */
  lemma LatinReplyIsReplayed(s: Setup, look: Weather)
    requires s.saveOutput && Calm(look) && Printable(s, Report(1, [195, 169], [])) && s.isText([195, 131, 194, 169])
    ensures var said := Report(1, [195, 169], []);
            var t := Tiers(None, [Tier(Server, false, map["ab" := Frame(said)], LatinReply)], true);
            RealRun(s, said) == Exit(1, [195, 169])
            && RunCached(s, t, Key("ab"), said, look, look).0 == Exit(1, [195, 131, 194, 169])
  {
    hide FetchRemotes, FetchTiers, StoreTiers, LatinReply;
    var said := Report(1, [195, 169], []);
    var t := Tiers(None, [Tier(Server, false, map["ab" := Frame(said)], LatinReply)], true);
    OneServer(t, look, "ab");
    LatinOfAccent();
    assert Frame(said) == [1, 195, 169];
    assert [1, 195, 131, 194, 169][1..] == [195, 131, 194, 169];
  }

  lemma LatinOfAccent()
    ensures LatinReply([1, 195, 169]) == [1, 195, 131, 194, 169]
  {
    var v: Data := [1, 195, 169];
    assert v[1..] == [195, 169] && v[1..][1..] == [169] && v[1..][1..][1..] == [];
    assert LatinReply(v[1..][1..]) == [194, 169];
    assert LatinReply(v[1..]) == [195, 131] + [194, 169];
  }

  // ----- The world between runs

  lemma AssembledHonest(s: Setup, tool: Digest -> Report, e: Env, w: World)
    requires WorldHonest(s, tool, w)
    requires Server in e.has ==> Faithful(s, tool, e.reply)
    ensures Honest(s, tool, Assembled(e, w))
  {
    hide Legit, Faithful, Wanted;
    var ks := Wanted(e);
    OnlyWanted(e);
    forall i | 0 <= i < |ks| ensures TierLegit(s, tool, Built(e, w, ks)[i]) {
      assert Built(e, w, ks)[i].entries == Held(w, ks[i]);
    }
  }

  lemma OnlyWanted(e: Env)
    ensures forall i :: 0 <= i < |Wanted(e)| ==> Wanted(e)[i] in e.has
  {
  }

  lemma {:induction false} SettleHonest(s: Setup, tool: Digest -> Report, services: map<Kind, Entries>, ts: seq<Tier>)
    requires forall k :: k in services ==> AllLegit(s, tool, services[k])
    requires RemotesLegit(s, tool, ts)
    ensures forall k :: k in Settle(services, ts) ==> AllLegit(s, tool, Settle(services, ts)[k])
    decreases |ts|
  {
    hide AllLegit, Faithful;
    if ts != [] {
      assert TierLegit(s, tool, ts[0]);
      var one := services[ts[0].kind := ts[0].entries];
      SettleHonest(s, tool, one, ts[1..]);
    }
  }

  lemma EvictedHonest(s: Setup, tool: Digest -> Report, w: World, e: Event)
    requires !e.Call? && WorldHonest(s, tool, w)
    ensures WorldHonest(s, tool, Evicted(w, e))
  {
    hide Legit;
  }

  /** One run, its cache built or not. */
  lemma CallHonest(s: Setup, tool: Digest -> Report, w: World, e: Event)
    requires e.Call? && WorldHonest(s, tool, w) && Fair(s, tool, e)
    ensures var (a, w') := Run(s, e.env, w, e.hash, e.said, e.look, e.keep);
            && WorldHonest(s, tool, w')
            && (if Builds(e.env) then AsUncached(s, a, RealRun(s, e.said)) else a == NoRun)
  {
    hide RunCached, Assembled, RemotesLegit, AllLegit, RealRun, AsUncached, Builds, Mild, Faithful;
    if Builds(e.env) {
      var t := Assembled(e.env, w);
      AssembledHonest(s, tool, e.env, w);
      RunHonest(s, tool, t, e);
      var t' := RunCached(s, t, e.hash, e.said, e.look, e.keep).1;
      SettleHonest(s, tool, w.services, t'.remotes);
    }
  }

  ghost predicate AllFair(s: Setup, tool: Digest -> Report, es: seq<Event>)
  {
    forall k :: 0 <= k < |es| ==> Fair(s, tool, es[k])
  }

  /** Where the cache was built the answer is the uncached one; where it was not, the tool never ran. */
  ghost predicate AllAsUncached(s: Setup, played: seq<Played>)
  {
    forall k :: 0 <= k < |played| ==>
      if played[k].built then AsUncached(s, played[k].answer, played[k].uncached) else played[k].answer == NoRun
  }

  /** Over any history, in any environments, with any failures and entries vanishing at any time, every answer
      is the uncached one, unless the cache could not be built; provided the tool is a function of the digest
      and no file is left in a harmful part. */
  lemma {:induction false} CachedRunsAgree(s: Setup, tool: Digest -> Report, w: World, es: seq<Event>)
    requires WorldHonest(s, tool, w) && AllFair(s, tool, es)
    ensures AllAsUncached(s, Play(s, w, es).1)
    ensures WorldHonest(s, tool, Play(s, w, es).0)
    decreases |es|
  {
    hide Run, RealRun, WorldHonest, Fair, AsUncached, Evicted, Builds;
    if es != [] {
      var e := es[0];
      assert Fair(s, tool, e);
      if e.Call? {
        CallHonest(s, tool, w, e);
        CachedRunsAgree(s, tool, Run(s, e.env, w, e.hash, e.said, e.look, e.keep).1, es[1..]);
      } else {
        EvictedHonest(s, tool, w, e);
        CachedRunsAgree(s, tool, Evicted(w, e), es[1..]);
      }
    }
  }

  /** In particular from nothing. */
  lemma RunsFromNothingAgree(s: Setup, tool: Digest -> Report, es: seq<Event>)
    requires AllFair(s, tool, es)
    ensures AllAsUncached(s, Play(s, World(map[], map[]), es).1)
  {
    hide AllFair, AllAsUncached;
    CachedRunsAgree(s, tool, World(map[], map[]), es);
  }

  /** A run that cannot go wrong: its cache is built, or the tool ends in status 1 as well. */
  ghost predicate Sound(s: Setup, e: Event)
  {
    e.Call? ==> Builds(e.env) || Status(RealRun(s, e.said)) == 1
  }

  ghost predicate SameStatus(played: seq<Played>)
  {
    forall k :: 0 <= k < |played| ==> Status(played[k].answer) == Status(played[k].uncached)
  }

  /** Every run of a history ends with the status of the tool if and only if in every run the cache could be
      built or the tool ends in status 1 itself. */
  lemma {:induction false} StatusAgreesIffBuilt(s: Setup, tool: Digest -> Report, w: World, es: seq<Event>)
    requires WorldHonest(s, tool, w) && AllFair(s, tool, es)
    ensures SameStatus(Play(s, w, es).1) <==> forall k :: 0 <= k < |es| ==> Sound(s, es[k])
    decreases |es|
  {
    hide Run, RealRun, WorldHonest, Fair, AsUncached, Evicted, Builds, Sound, Status;
    if es != [] {
      var e := es[0];
      var rest := es[1..];
      assert Fair(s, tool, e);
      assert (forall k :: 0 <= k < |es| ==> Sound(s, es[k])) <==>
               Sound(s, e) && forall k :: 0 <= k < |rest| ==> Sound(s, rest[k]) by {
        forall k | 0 < k < |es| ensures es[k] == rest[k - 1] {
        }
      }
      if e.Call? {
        CallHonest(s, tool, w, e);
        CallStatus(s, tool, w, e);
        var w1 := Run(s, e.env, w, e.hash, e.said, e.look, e.keep).1;
        StatusAgreesIffBuilt(s, tool, w1, rest);
        SameStatusCons(Play(s, w, es).1);
        assert Play(s, w, es).1[1..] == Play(s, w1, rest).1;
      } else {
        EvictedHonest(s, tool, w, e);
        NoCallIsSound(s, e);
        StatusAgreesIffBuilt(s, tool, Evicted(w, e), rest);
      }
    }
  }

  lemma NoCallIsSound(s: Setup, e: Event)
    requires !e.Call?
    ensures Sound(s, e)
  {
  }

  lemma SameStatusCons(played: seq<Played>)
    requires played != []
    ensures SameStatus(played) <==> Status(played[0].answer) == Status(played[0].uncached) && SameStatus(played[1..])
  {
    hide Status;
    forall k | 0 < k < |played| ensures played[k] == played[1..][k - 1] {
    }
  }

  lemma CallStatus(s: Setup, tool: Digest -> Report, w: World, e: Event)
    requires e.Call? && WorldHonest(s, tool, w) && Fair(s, tool, e)
    ensures Status(Run(s, e.env, w, e.hash, e.said, e.look, e.keep).0) == Status(RealRun(s, e.said)) <==> Sound(s, e)
  {
    hide Run, RealRun, WorldHonest, Fair, AsUncached, Builds, Status;
    CallHonest(s, tool, w, e);
    var a := Run(s, e.env, w, e.hash, e.said, e.look, e.keep).0;
    if Builds(e.env) {
      AsUncachedMeans(s, a, RealRun(s, e.said));
    } else {
      NoRunStatus();
    }
  }

  lemma NoRunStatus()
    ensures Status(NoRun) == 1
  {
  }

  // ----- What a history is for

  /** From nothing, of two calls on the same input in the same environment the second reports success without the
      tool, if the first can be stored and some tier takes it in; and if the file was lost in between, and there is
      no other tier, the tool is asked again. */
  lemma SecondCallReplays(s: Setup, e: Env, d: Digest, said: Report, again: Report, look: Weather)
    requires !s.saveOutput && Printable(s, said) && Calm(look) && Builds(e)
    ensures var nothing := World(map[], map[]);
            var first, second := Call(e, Key(d), said, look, look), Call(e, Key(d), again, look, look);
            Play(s, nothing, [first, second]).1 ==
              [Played(RealRun(s, said), RealRun(s, said), true),
               Played(if SomeTakes(s, Assembled(e, nothing)) && said.code == 0 && (said.stdout == [] || s.ignoreFlag)
                      then Exit(0, []) else RealRun(s, again), RealRun(s, again), true)]
    ensures var nothing := World(map[], map[]);
            var first, second := Call(e, Key(d), said, look, look), Call(e, Key(d), again, look, look);
            Assembled(e, nothing).remotes == [] ==>
              Play(s, nothing, [first, EvictFile(d), second]).1 ==
                [Played(RealRun(s, said), RealRun(s, said), true), Played(RealRun(s, again), RealRun(s, again), true)]
  {
    hide Run, RealRun, RunCached, Assembled, SomeTakes, Builds, Present, Printable;
    var nothing := World(map[], map[]);
    var t := Assembled(e, nothing);
    NothingPresent(e, d);
    CachedIffSavable(s, t, d, said, look, look);
    SecondRunMarked(s, t, d, said, again, look, look);
    RunsFollow(s, e, nothing, Key(d), said, look, look, Key(d), again, look, look);
    var first, second := Call(e, Key(d), said, look, look), Call(e, Key(d), again, look, look);
    var w1 := Run(s, e, nothing, Key(d), said, look, look).1;
    PlayTwo(s, nothing, first, second);
    PlayThree(s, nothing, first, EvictFile(d), second);
    if t.remotes == [] {
      EvictedMisses(s, e, w1, d, again, look);
    }
  }

  lemma NothingPresent(e: Env, d: Digest)
    ensures !Present(Assembled(e, World(map[], map[])), d)
  {
    AssembledMeans(e, World(map[], map[]));
  }

  lemma PlayTwo(s: Setup, w: World, a: Event, b: Event)
    requires a.Call? && b.Call?
    ensures var (x, w1) := Run(s, a.env, w, a.hash, a.said, a.look, a.keep);
            var y := Run(s, b.env, w1, b.hash, b.said, b.look, b.keep).0;
            Play(s, w, [a, b]).1 ==
              [Played(x, RealRun(s, a.said), Builds(a.env)), Played(y, RealRun(s, b.said), Builds(b.env))]
  {
    hide Run, RealRun, Builds;
    var w1 := Run(s, a.env, w, a.hash, a.said, a.look, a.keep).1;
    assert [a, b][1..] == [b] && [b][1..] == [];
    assert Play(s, w1, [b]).1 ==
             [Played(Run(s, b.env, w1, b.hash, b.said, b.look, b.keep).0, RealRun(s, b.said), Builds(b.env))];
  }

  lemma PlayThree(s: Setup, w: World, a: Event, loss: Event, b: Event)
    requires a.Call? && !loss.Call? && b.Call?
    ensures var (x, w1) := Run(s, a.env, w, a.hash, a.said, a.look, a.keep);
            var y := Run(s, b.env, Evicted(w1, loss), b.hash, b.said, b.look, b.keep).0;
            Play(s, w, [a, loss, b]).1 ==
              [Played(x, RealRun(s, a.said), Builds(a.env)), Played(y, RealRun(s, b.said), Builds(b.env))]
  {
    hide Run, RealRun, Builds, Evicted;
    var w1 := Run(s, a.env, w, a.hash, a.said, a.look, a.keep).1;
    var w2 := Evicted(w1, loss);
    assert [a, loss, b][1..] == [loss, b] && [loss, b][1..] == [b] && [b][1..] == [];
    assert Play(s, w2, [b]).1 ==
             [Played(Run(s, b.env, w2, b.hash, b.said, b.look, b.keep).0, RealRun(s, b.said), Builds(b.env))];
    assert Play(s, w1, [loss, b]) == Play(s, w2, [b]);
  }

  lemma EvictedMisses(s: Setup, e: Env, w: World, d: Digest, again: Report, look: Weather)
    requires !s.saveOutput && Calm(look) && Builds(e)
    requires Assembled(e, World(map[], map[])).remotes == []
    ensures Run(s, e, Evicted(w, EvictFile(d)), Key(d), again, look, look).0 == RealRun(s, again)
  {
    hide StoreTiers, AskTiers, RealRun, Stored, Builds;
    var w2 := Evicted(w, EvictFile(d));
    var t := Assembled(e, w2);
    AssembledMeans(e, w2);
    AskIsPresence(t, look, d);
    assert !Present(t, d);
  }
}
