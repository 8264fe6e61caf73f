// The result cache of clang_tidy_cache.py: the local tier, the remote tiers, and ClangTidyCache, which
// asks them in order and writes a remote answer back. A tier is a map; what can go wrong in a call is
// handed in with it.

module TidyCache {
  import opened Wrappers
  import Base64Spec

  type Digest = string
  type Data = seq<Base64Spec.Byte>
  type Entries = map<Digest, Data>

  datatype Kind = Server | Redis | S3 | Gcs

  /** A remote tier; S3 and GCS without credentials count as read-only. `reply`: what becomes of the bytes in a
      server's reply, which are decoded to text, in whatever encoding is announced or guessed, and encoded again
      in UTF-8. */
  datatype Tier = Tier(kind: Kind, readOnly: bool, entries: Entries, reply: Data -> Data)

  /** What is stored: nothing but the fact (store_in_cache), or bytes (store_in_cache_with_data). */
  datatype Item = Mark | Output(data: Data)

  /** How an operation on one tier fails. Lost: it did nothing. Late: it took effect and then failed.
      Torn: a local file was left with its first `kept` bytes. Reads fail in one way only. */
  datatype Fault = Fine | Lost | Late | Torn(kept: nat)

  /** What befalls one call on the whole cache; `localStats` and `remoteStats` say that the update of
      the hit counters raises. */
  datatype Weather = Weather(local: Fault, localStats: bool, remotes: nat -> Fault, remoteStats: bool,
                             writeback: Fault)

  ghost predicate Calm(w: Weather)
  {
    && w.local.Fine? && !w.localStats && !w.remoteStats && w.writeback.Fine?
    && forall i: nat :: w.remotes(i).Fine?
  }

  // ----- One tier

  /** A digest stored as an object body: hexadecimal digits, one byte each. */
  function DigestBytes(d: Digest): Data
  {
    seq(|d|, i requires 0 <= i < |d| => d[i] as int % 256)
  }

  function RemoteIsCached(t: Tier, f: Fault, d: Digest): Outcome<bool>
  {
    if f.Fine? then Returned(d in t.entries)
    else if t.kind.Server? then Returned(false)
    else Raised
  }

  /** What a get makes of stored bytes. */
  function Read(t: Tier, v: Data): Data
  {
    if t.kind.Server? then t.reply(v) else v
  }

  /** S3 never returns data, and only Redis lets an error through. */
  function RemoteGet(t: Tier, f: Fault, d: Digest): Outcome<Option<Data>>
  {
    if t.kind.S3? then Returned(None)
    else if f.Fine? then Returned(if d in t.entries then Some(Read(t, t.entries[d])) else None)
    else if t.kind.Redis? then Raised
    else Returned(None)
  }

  function Body(kind: Kind, d: Digest, item: Item): Data
  {
    match item
    case Output(v) => v
    case Mark => if kind.S3? || kind.Gcs? then DigestBytes(d) else []
  }

  /** Whether the call raises, and the tier after it. */
  function RemoteStore(t: Tier, f: Fault, d: Digest, item: Item): (bool, Tier)
  {
    if t.readOnly || (t.kind.S3? && item.Output?) then (false, t)
    else
      (!f.Fine? && !t.kind.Server?,
       if f.Fine? || f.Late? then t.(entries := t.entries[d := Body(t.kind, d, item)]) else t)
  }

  function LocalStore(es: Entries, f: Fault, d: Digest, item: Item): (bool, Entries)
  {
    var v := if item.Output? then item.data else [];
    match f
    case Fine => (false, es[d := v])
    case Lost => (true, es)
    case Late => (true, es[d := v])
    case Torn(n) => (true, es[d := if n < |v| then v[..n] else v])
  }

  // ----- All tiers

  datatype Tiers = Tiers(local: Option<Entries>, remotes: seq<Tier>, writesBack: bool)

  function AskRemotes(rs: seq<Tier>, w: Weather, d: Digest, i: nat): Outcome<bool>
    requires i <= |rs|
    decreases |rs| - i
  {
    if i == |rs| then Returned(false)
    else
      var r := RemoteIsCached(rs[i], w.remotes(i), d);
      if r == Returned(false) then AskRemotes(rs, w, d, i + 1) else r
  }

  function FetchRemotes(rs: seq<Tier>, w: Weather, d: Digest, i: nat): Outcome<Option<Data>>
    requires i <= |rs|
    decreases |rs| - i
  {
    if i == |rs| then Returned(None)
    else
      var r := RemoteGet(rs[i], w.remotes(i), d);
      if r == Returned(None) then FetchRemotes(rs, w, d, i + 1) else r
  }

  /** Stores are made in order, up to the first that raises. */
  function StoreRemotes(rs: seq<Tier>, w: Weather, d: Digest, item: Item, i: nat): (r: (bool, seq<Tier>))
    requires i <= |rs|
    ensures |r.1| == |rs|
    decreases |rs| - i
  {
    if i == |rs| then (false, rs)
    else
      var (raised, t) := RemoteStore(rs[i], w.remotes(i), d, item);
      if raised then (true, rs[i := t]) else StoreRemotes(rs[i := t], w, d, item, i + 1)
  }

  /** Whether write-back raises, and the tiers after it. */
  function WriteBack(t: Tiers, w: Weather, d: Digest, item: Item): (bool, Tiers)
  {
    if t.local.Some? && t.writesBack then
      var (raised, es) := LocalStore(t.local.value, w.writeback, d, item);
      (raised, t.(local := Some(es)))
    else (false, t)
  }

  /** Reading the local file fails, or the counters do, after the answer is known. */
  predicate LocalRaises(t: Tiers, w: Weather)
  {
    t.local.Some? && (!w.local.Fine? || w.localStats)
  }

  function AskTiers(t: Tiers, w: Weather, d: Digest): (Outcome<bool>, Tiers)
  {
    if LocalRaises(t, w) then (Raised, t)
    else if t.local.Some? && d in t.local.value then (Returned(true), t)
    else if t.remotes == [] then (Returned(false), t)
    else
      var r := AskRemotes(t.remotes, w, d, 0);
      if r.Raised? || w.remoteStats then (Raised, t)
      else if r.value then
        var (raised, t') := WriteBack(t, w, d, Mark);
        (if raised then Raised else Returned(true), t')
      else (Returned(false), t)
  }

  function FetchTiers(t: Tiers, w: Weather, d: Digest): (Outcome<Option<Data>>, Tiers)
  {
    if LocalRaises(t, w) then (Raised, t)
    else if t.local.Some? && d in t.local.value then (Returned(Some(t.local.value[d])), t)
    else if t.remotes == [] then (Returned(None), t)
    else
      var r := FetchRemotes(t.remotes, w, d, 0);
      if r.Raised? || w.remoteStats then (Raised, t)
      else if r.value.Some? then
        var (raised, t') := WriteBack(t, w, d, Output(r.value.value));
        (if raised then Raised else r, t')
      else (Returned(None), t)
  }

  function StoreTiers(t: Tiers, w: Weather, d: Digest, item: Item): (bool, Tiers)
  {
    var (raised, local) :=
      if t.local.None? then (false, t.local)
      else var (x, es) := LocalStore(t.local.value, w.local, d, item); (x, Some(es));
    if raised then (true, t.(local := local))
    else
      var (x, rs) := StoreRemotes(t.remotes, w, d, item, 0);
      (x, t.(local := local, remotes := rs))
  }

  // ----- Building the cache, anew in every run

  /** What outlives a run: the files of the local tier, and what each service holds. */
  datatype World = World(files: Entries, services: map<Kind, Entries>)

  /** The environment of a run: the tiers it names, which of them are read-only, the two switches, whether
      the redis module is there (without it that tier is passed over), and the tiers whose constructor
      raises: no requests module, a setting of Redis that is no number, no boto3 or google.cloud module, or
      no client for want of credentials; and how a server's replies are decoded. */
  datatype Env = Env(has: set<Kind>, readOnly: set<Kind>, cacheLocally: bool, noLocalWriteback: bool,
                     redisModule: bool, broken: set<Kind>, reply: Data -> Data)

  /** The remote tiers that are to be built, in order. */
  function Wanted(e: Env): seq<Kind>
  {
    (if Server in e.has then [Server] else []) + (if Redis in e.has && e.redisModule then [Redis] else [])
    + (if S3 in e.has then [S3] else []) + (if Gcs in e.has then [Gcs] else [])
  }

  /** No constructor raises. */
  predicate Builds(e: Env)
  {
    && !(Server in e.has && Server in e.broken)
    && !(Redis in e.has && e.redisModule && Redis in e.broken)
    && !(S3 in e.has && S3 in e.broken)
    && !(Gcs in e.has && Gcs in e.broken)
  }

  function Held(w: World, k: Kind): Entries
  {
    if k in w.services then w.services[k] else map[]
  }

  function Built(e: Env, w: World, ks: seq<Kind>): (ts: seq<Tier>)
    ensures |ts| == |ks|
    ensures forall i :: 0 <= i < |ks| ==> ts[i] == Tier(ks[i], ks[i] in e.readOnly, Held(w, ks[i]), e.reply)
  {
    seq(|ks|, i requires 0 <= i < |ks| => Tier(ks[i], ks[i] in e.readOnly, Held(w, ks[i]), e.reply))
  }

  /** The tiers of a run: a local one if it is asked for or there is nothing else. */
  function Assembled(e: Env, w: World): Tiers
  {
    var remotes := Built(e, w, Wanted(e));
    Tiers(if remotes == [] || e.cacheLocally then Some(w.files) else None, remotes, !e.noLocalWriteback)
  }

  function Settle(services: map<Kind, Entries>, ts: seq<Tier>): map<Kind, Entries>
    decreases |ts|
  {
    if ts == [] then services else Settle(services[ts[0].kind := ts[0].entries], ts[1..])
  }

  /** What the run leaves behind. */
  function Settled(w: World, t: Tiers): World
  {
    World(if t.local.Some? then t.local.value else w.files, Settle(w.services, t.remotes))
  }

  // ----- The source's form

  method MultiIsCached(caches: seq<Tier>, d: Digest, w: Weather) returns (r: Outcome<bool>)
    ensures r == AskRemotes(caches, w, d, 0)
  {
    for i := 0 to |caches|
      invariant AskRemotes(caches, w, d, 0) == AskRemotes(caches, w, d, i)
    {
      r := RemoteIsCached(caches[i], w.remotes(i), d);
      if r.Raised? || r.value {
        return;
      }
    }
    r := Returned(false);
  }

  method MultiGetCacheData(caches: seq<Tier>, d: Digest, w: Weather) returns (r: Outcome<Option<Data>>)
    ensures r == FetchRemotes(caches, w, d, 0)
  {
    for i := 0 to |caches|
      invariant FetchRemotes(caches, w, d, 0) == FetchRemotes(caches, w, d, i)
    {
      r := RemoteGet(caches[i], w.remotes(i), d);
      if r.Raised? || r.value.Some? {
        return;
      }
    }
    r := Returned(None);
  }

  class ClangTidyCache {
    var local: Option<Entries>
    var remotes: seq<Tier>
    const writesBack: bool

    constructor (caches: seq<Tier>, ownFiles: Option<Entries>, noLocalWriteback: bool)
      ensures State() == Tiers(ownFiles, caches, !noLocalWriteback)
    {
      remotes := caches;
      writesBack := !noLocalWriteback;
      local := ownFiles;
    }

    ghost function State(): Tiers
      reads this
    {
      Tiers(local, remotes, writesBack)
    }

    method PutBack(d: Digest, w: Weather, item: Item) returns (raised: bool)
      modifies this`local
      ensures (raised, State()) == WriteBack(old(State()), w, d, item)
    {
      raised := false;
      if local.Some? && writesBack {
        var r := LocalStore(local.value, w.writeback, d, item);
        raised := r.0;
        local := Some(r.1);
      }
    }

    method IsCached(d: Digest, w: Weather) returns (r: Outcome<bool>)
      modifies this`local
      ensures (r, State()) == AskTiers(old(State()), w, d)
    {
      if local.Some? {
        if !w.local.Fine? || w.localStats {
          return Raised;
        }
        if d in local.value {
          return Returned(true);
        }
      }
      if remotes != [] {
        r := MultiIsCached(remotes, d, w);
        if r.Raised? || w.remoteStats {
          return Raised;
        }
        if r.value {
          var raised := PutBack(d, w, Mark);
          return if raised then Raised else Returned(true);
        }
      }
      r := Returned(false);
    }

    method GetCacheData(d: Digest, w: Weather) returns (r: Outcome<Option<Data>>)
      modifies this`local
      ensures (r, State()) == FetchTiers(old(State()), w, d)
    {
      if local.Some? {
        if !w.local.Fine? || w.localStats {
          return Raised;
        }
        if d in local.value {
          return Returned(Some(local.value[d]));
        }
      }
      if remotes != [] {
        r := MultiGetCacheData(remotes, d, w);
        if r.Raised? || w.remoteStats {
          return Raised;
        }
        if r.value.Some? {
          var raised := PutBack(d, w, Output(r.value.value));
          if raised {
            r := Raised;
          }
          return;
        }
      }
      r := Returned(None);
    }

    /** store_in_cache and store_in_cache_with_data. */
    method StoreInCache(d: Digest, w: Weather, item: Item) returns (raised: bool)
      modifies this
      ensures (raised, State()) == StoreTiers(old(State()), w, d, item)
    {
      if local.Some? {
        var r := LocalStore(local.value, w.local, d, item);
        local := Some(r.1);
        if r.0 {
          return true;
        }
      }
      ghost var all := StoreRemotes(remotes, w, d, item, 0);
      ghost var kept := local;
      for i := 0 to |remotes|
        invariant local == kept
        invariant |remotes| == |old(remotes)|
        invariant i <= |remotes| && all == StoreRemotes(remotes, w, d, item, i)
      {
        var r := RemoteStore(remotes[i], w.remotes(i), d, item);
        remotes := remotes[i := r.1];
        if r.0 {
          return true;
        }
      }
      raised := false;
    }
  }

  /** ClangTidyCache(log, opts): nothing, if one of the constructors raises. */
  method NewCache(e: Env, w: World) returns (cache: ClangTidyCache?)
    ensures cache == null <==> !Builds(e)
    ensures cache != null ==> fresh(cache) && cache.State() == Assembled(e, w)
  {
    var kinds: seq<Kind> := [];
    if Server in e.has {
      if Server in e.broken {
        return null;
      }
      kinds := kinds + [Server];
    }
    if Redis in e.has && e.redisModule {
      if Redis in e.broken {
        return null;
      }
      kinds := kinds + [Redis];
    }
    if S3 in e.has {
      if S3 in e.broken {
        return null;
      }
      kinds := kinds + [S3];
    }
    if Gcs in e.has {
      if Gcs in e.broken {
        return null;
      }
      kinds := kinds + [Gcs];
    }
    assert kinds == Wanted(e);
    var caches := Built(e, w, kinds);
    var own := if caches == [] || e.cacheLocally then Some(w.files) else None;
    cache := new ClangTidyCache(caches, own, e.noLocalWriteback);
  }

  // ----- What a reader sees

  /** The entries a get can return: S3 has none to give, and the server's go through its replies. */
  function Shown(t: Tier): Entries
  {
    if t.kind.S3? then map[] else map d | d in t.entries :: Read(t, t.entries[d])
  }

  function Layers(t: Tiers): seq<Entries>
  {
    (if t.local.Some? then [t.local.value] else [])
    + seq(|t.remotes|, i requires 0 <= i < |t.remotes| => Shown(t.remotes[i]))
  }

  /** The first layer that holds the digest answers. */
  function FirstOf(layers: seq<Entries>, d: Digest): (v: Option<Data>)
    ensures v.None? <==> forall k :: 0 <= k < |layers| ==> d !in layers[k]
    ensures v.Some? ==> exists k :: 0 <= k < |layers| && d in layers[k] && layers[k][d] == v.value
                                 && forall j :: 0 <= j < k ==> d !in layers[j]
  {
    if layers == [] then None
    else if d in layers[0] then Some(layers[0][d])
    else
      var v := FirstOf(layers[1..], d);
      assert v.Some? ==> forall k :: 0 <= k < |layers[1..]| && d in layers[1..][k] ==> d in layers[k + 1];
      v
  }

  function View(t: Tiers, d: Digest): Option<Data>
  {
    FirstOf(Layers(t), d)
  }

  /** With no fault a get answers what the first layer holds. */
  lemma FetchIsView(t: Tiers, w: Weather, d: Digest)
    requires Calm(w)
    ensures FetchTiers(t, w, d).0 == Returned(View(t, d))
  {
    hide FetchRemotes, Shown;
    FetchRemotesCalm(t.remotes, w, d, 0);
    var rest := RemoteLayers(t.remotes, 0);
    if t.local.Some? {
      assert Layers(t) == [t.local.value] + rest;
      assert Layers(t)[1..] == rest;
    } else {
      assert Layers(t) == rest;
    }
  }

  function RemoteLayers(rs: seq<Tier>, i: nat): (ls: seq<Entries>)
    requires i <= |rs|
    ensures |ls| == |rs| - i
    ensures forall k :: 0 <= k < |ls| ==> ls[k] == Shown(rs[i + k])
  {
    seq(|rs| - i, k requires 0 <= k < |rs| - i => Shown(rs[i + k]))
  }

  lemma CalmGet(t: Tier, f: Fault, d: Digest)
    requires f.Fine?
    ensures RemoteGet(t, f, d) == Returned(if d in Shown(t) then Some(Shown(t)[d]) else None)
  {
  }

  lemma LayersCons(rs: seq<Tier>, i: nat)
    requires i < |rs|
    ensures RemoteLayers(rs, i) == [Shown(rs[i])] + RemoteLayers(rs, i + 1)
  {
    hide Shown;
  }

  lemma {:induction false} FetchRemotesCalm(rs: seq<Tier>, w: Weather, d: Digest, i: nat)
    requires i <= |rs| && Calm(w)
    ensures FetchRemotes(rs, w, d, i) == Returned(FirstOf(RemoteLayers(rs, i), d))
    decreases |rs| - i
  {
    hide RemoteGet, Shown, RemoteLayers;
    if i < |rs| {
      FetchRemotesCalm(rs, w, d, i + 1);
      CalmGet(rs[i], w.remotes(i), d);
      LayersCons(rs, i);
    }
  }

  /** Whatever fails, data that is returned comes from a layer that holds it, and every layer before
      that either does not hold the digest or belongs to a remote that failed. */
  lemma FetchIsFromALayer(t: Tiers, w: Weather, d: Digest, v: Data)
    requires FetchTiers(t, w, d).0 == Returned(Some(v))
    ensures var ls := Layers(t);
            var off := if t.local.Some? then 1 else 0;
            exists k :: 0 <= k < |ls| && d in ls[k] && ls[k][d] == v
              && forall j :: 0 <= j < k ==> d !in ls[j] || (j >= off && !w.remotes(j - off).Fine?)
  {
    var ls := Layers(t);
    var off := if t.local.Some? then 1 else 0;
    if t.local.Some? && d in t.local.value {
      assert ls[0] == t.local.value;
    } else {
      var k := FetchedFrom(t.remotes, w, d, 0, v);
      assert ls[off + k] == Shown(t.remotes[k]);
      forall j | 0 <= j < off + k ensures d !in ls[j] || (j >= off && !w.remotes(j - off).Fine?) {
        if j >= off {
          assert ls[j] == Shown(t.remotes[j - off]);
        }
      }
    }
  }

  lemma {:induction false} FetchedFrom(rs: seq<Tier>, w: Weather, d: Digest, i: nat, v: Data) returns (k: nat)
    requires i <= |rs| && FetchRemotes(rs, w, d, i) == Returned(Some(v))
    ensures i <= k < |rs| && d in Shown(rs[k]) && Shown(rs[k])[d] == v
    ensures forall j :: i <= j < k ==> d !in Shown(rs[j]) || !w.remotes(j).Fine?
    decreases |rs| - i
  {
    if RemoteGet(rs[i], w.remotes(i), d) == Returned(None) {
      k := FetchedFrom(rs, w, d, i + 1, v);
    } else {
      k := i;
    }
  }

  /** The first remote that holds the digest failed, and holds something other than `v`. */
  ghost predicate PassedOver(t: Tiers, w: Weather, d: Digest, v: Data)
  {
    exists i :: 0 <= i < |t.remotes| && !w.remotes(i).Fine?
      && d in Shown(t.remotes[i]) && Shown(t.remotes[i])[d] != v
      && forall j :: 0 <= j < i ==> d !in Shown(t.remotes[j])
  }

  /** Write-back leaves the view of every digest as it was, unless the answer came from behind a remote that
      failed and would have given another one. */
  lemma WriteBackKeepsView(t: Tiers, w: Weather, d: Digest, v: Data)
    requires FetchTiers(t, w, d).0 == Returned(Some(v))
    ensures var t' := FetchTiers(t, w, d).1;
            (forall e :: View(t', e) == View(t, e)) <==> t' == t || !PassedOver(t, w, d, v)
    ensures Calm(w) ==> !PassedOver(t, w, d, v)
  {
    hide FetchRemotes, PassedOver;
    var t' := FetchTiers(t, w, d).1;
    CalmPassesNone(t, w, d, v);
    if t' != t {
      assert t' == t.(local := Some(t.local.value[d := v]));
      forall e ensures View(t', e) == if e == d then Some(v) else View(t, e) {
        LocalWriteView(t, d, v, e);
      }
      ViewBehindMiss(t, w, d, v);
    }
  }

  /** For instance, a server that fails and would have said one thing, before a Redis tier that says another. */
  lemma PassedOverIsHidden()
    ensures exists t: Tiers, w: Weather, d: Digest ::
              FetchTiers(t, w, d).0 == Returned(Some([1]))
              && View(t, d) == Some([0]) && View(FetchTiers(t, w, d).1, d) == Some([1])
  {
    hide View, FetchRemotes;
    var asIs := (v: Data) => v;
    var rs := [Tier(Server, false, map["ab" := [0]], asIs), Tier(Redis, false, map["ab" := [1]], asIs)];
    var t := Tiers(Some(map[]), rs, true);
    var w := Weather(Fine, false, (i: nat) => if i == 0 then Lost else Fine, false, Fine);
    SecondAnswers(rs, w, "ab");
    assert FetchTiers(t, w, "ab") == (Returned(Some([1])), t.(local := Some(map["ab" := [1]])));
    ViewBehind(t, "ab");
    FirstOfAt(RemoteLayers(rs, 0), "ab", 0);
    LocalWriteView(t, "ab", [1], "ab");
    assert map[]["ab" := [1]] == map["ab" := [1]];
  }

  lemma SecondAnswers(rs: seq<Tier>, w: Weather, d: Digest)
    requires |rs| == 2 && rs[0].kind.Server? && !w.remotes(0).Fine?
    requires rs[1].kind.Redis? && w.remotes(1).Fine? && d in rs[1].entries
    ensures FetchRemotes(rs, w, d, 0) == Returned(Some(rs[1].entries[d]))
  {
    assert FetchRemotes(rs, w, d, 1) == Returned(Some(rs[1].entries[d]));
  }

  lemma CalmPassesNone(t: Tiers, w: Weather, d: Digest, v: Data)
    ensures Calm(w) ==> !PassedOver(t, w, d, v)
  {
  }

  /** Of a digest the local tier lacks, the remotes' answer is the view exactly if none was passed over. */
  lemma ViewBehindMiss(t: Tiers, w: Weather, d: Digest, v: Data)
    requires t.local.Some? && d !in t.local.value
    requires FetchRemotes(t.remotes, w, d, 0) == Returned(Some(v))
    ensures View(t, d) == Some(v) <==> !PassedOver(t, w, d, v)
  {
    hide FetchRemotes, FirstOf, View, Shown;
    var k := FetchedFrom(t.remotes, w, d, 0, v);
    ViewBehind(t, d);
    var i := FirstHolder(t.remotes, d, k);
    FirstOfAt(RemoteLayers(t.remotes, 0), d, i);
  }

  lemma ViewBehind(t: Tiers, d: Digest)
    requires t.local.Some? && d !in t.local.value
    ensures View(t, d) == FirstOf(RemoteLayers(t.remotes, 0), d)
  {
    assert Layers(t)[1..] == RemoteLayers(t.remotes, 0);
  }

  /** The first remote, up to the `k`-th, that shows the digest. */
  lemma FirstHolder(rs: seq<Tier>, d: Digest, k: nat) returns (i: nat)
    requires k < |rs| && d in Shown(rs[k])
    ensures i <= k && d in Shown(rs[i]) && forall j :: 0 <= j < i ==> d !in Shown(rs[j])
  {
    i := 0;
    while d !in Shown(rs[i])
      invariant i <= k && forall j :: 0 <= j < i ==> d !in Shown(rs[j])
      decreases k - i
    {
      i := i + 1;
    }
  }

  lemma {:induction false} FirstOfAt(layers: seq<Entries>, d: Digest, i: nat)
    requires i < |layers| && d in layers[i] && forall j :: 0 <= j < i ==> d !in layers[j]
    ensures FirstOf(layers, d) == Some(layers[i][d])
  {
    if i > 0 {
      FirstOfAt(layers[1..], d, i - 1);
    }
  }

  lemma LocalWriteView(t: Tiers, d: Digest, v: Data, e: Digest)
    requires t.local.Some?
    ensures View(t.(local := Some(t.local.value[d := v])), e) == if e == d then Some(v) else View(t, e)
  {
    var t' := t.(local := Some(t.local.value[d := v]));
    assert Layers(t')[1..] == Layers(t)[1..];
  }

  // ----- Which faults keep an answer back

  /** The tier holds the digest, is asked in a way it can answer, and does not fail. */
  predicate Gives(t: Tier, f: Fault, d: Digest, data: bool)
  {
    f.Fine? && d in t.entries && !(data && t.kind.S3?)
  }

  /** The tier fails and lets it be known: the server never does, and only Redis when asked for data. */
  predicate Throws(t: Tier, f: Fault, data: bool)
  {
    !f.Fine? && if data then t.kind.Redis? else !t.kind.Server?
  }

  ghost predicate RemoteAnswers(rs: seq<Tier>, w: Weather, d: Digest, data: bool, from: nat)
  {
    exists i :: from <= i < |rs| && Gives(rs[i], w.remotes(i), d, data)
      && forall j :: from <= j < i ==> !Throws(rs[j], w.remotes(j), data)
  }

  /** No exception on the way, and some tier gives: the local one, or a remote, after which neither the
      counters nor the write-back may fail. */
  ghost predicate Answers(t: Tiers, w: Weather, d: Digest, data: bool)
  {
    && (t.local.Some? ==> w.local.Fine? && !w.localStats)
    && ((t.local.Some? && d in t.local.value)
        || (&& RemoteAnswers(t.remotes, w, d, data, 0)
            && !w.remoteStats
            && (t.local.Some? && t.writesBack ==> w.writeback.Fine?)))
  }

  lemma {:induction false} FetchRemotesAnswers(rs: seq<Tier>, w: Weather, d: Digest, i: nat)
    requires i <= |rs|
    ensures var r := FetchRemotes(rs, w, d, i);
            RemoteAnswers(rs, w, d, true, i) <==> r.Returned? && r.value.Some?
    decreases |rs| - i
  {
    if i < |rs| {
      FetchRemotesAnswers(rs, w, d, i + 1);
      OneMore(rs, w, d, true, i);
    }
  }

  lemma {:induction false} AskRemotesAnswers(rs: seq<Tier>, w: Weather, d: Digest, i: nat)
    requires i <= |rs|
    ensures RemoteAnswers(rs, w, d, false, i) <==> AskRemotes(rs, w, d, i) == Returned(true)
    decreases |rs| - i
  {
    if i < |rs| {
      AskRemotesAnswers(rs, w, d, i + 1);
      OneMore(rs, w, d, false, i);
    }
  }

  lemma OneMore(rs: seq<Tier>, w: Weather, d: Digest, data: bool, i: nat)
    requires i < |rs|
    ensures RemoteAnswers(rs, w, d, data, i) <==>
              Gives(rs[i], w.remotes(i), d, data)
              || (!Throws(rs[i], w.remotes(i), data) && RemoteAnswers(rs, w, d, data, i + 1))
  {
    hide Gives, Throws;
    if RemoteAnswers(rs, w, d, data, i) {
      var k :| i <= k < |rs| && Gives(rs[k], w.remotes(k), d, data)
        && forall j :: i <= j < k ==> !Throws(rs[j], w.remotes(j), data);
      if k > i {
        assert i + 1 <= k;
      }
    }
  }

  /** In either way of asking, the cache has an answer exactly if the faults leave one. */
  lemma LookUpAnswers(t: Tiers, w: Weather, d: Digest)
    ensures var r := FetchTiers(t, w, d).0;
            Answers(t, w, d, true) <==> r.Returned? && r.value.Some?
    ensures Answers(t, w, d, false) <==> AskTiers(t, w, d).0 == Returned(true)
  {
    hide FetchRemotes, AskRemotes, RemoteAnswers;
    FetchRemotesAnswers(t.remotes, w, d, 0);
    AskRemotesAnswers(t.remotes, w, d, 0);
    NoRemoteAnswers(t.remotes, w, d);
  }

  lemma NoRemoteAnswers(rs: seq<Tier>, w: Weather, d: Digest)
    ensures rs == [] ==> !RemoteAnswers(rs, w, d, true, 0) && !RemoteAnswers(rs, w, d, false, 0)
  {
  }

  // ----- The view that asks for presence only

  ghost predicate Present(t: Tiers, d: Digest)
  {
    || (t.local.Some? && d in t.local.value)
    || exists k :: 0 <= k < |t.remotes| && d in t.remotes[k].entries
  }

  /** With no fault is_cached says whether any tier holds the digest, and write-back changes that for
      no digest; whatever fails, a digest it reports is held somewhere. */
  lemma AskIsPresence(t: Tiers, w: Weather, d: Digest)
    ensures Calm(w) ==> AskTiers(t, w, d).0 == Returned(Present(t, d))
    ensures AskTiers(t, w, d).0 == Returned(true) ==> Present(t, d)
    ensures forall e :: Present(AskTiers(t, w, d).1, e) == Present(t, e)
  {
    hide AskRemotes;
    AskRemotesMeans(t.remotes, w, d, 0);
    forall e ensures Present(AskTiers(t, w, d).1, e) == Present(t, e) {
      assert AskTiers(t, w, d).1.remotes == t.remotes;
    }
  }

  lemma {:induction false} AskRemotesMeans(rs: seq<Tier>, w: Weather, d: Digest, i: nat)
    requires i <= |rs|
    ensures AskRemotes(rs, w, d, i) == Returned(true) ==> exists k :: i <= k < |rs| && d in rs[k].entries
    ensures Calm(w) ==> AskRemotes(rs, w, d, i) == Returned(exists k :: i <= k < |rs| && d in rs[k].entries)
    decreases |rs| - i
  {
    if i < |rs| {
      AskRemotesMeans(rs, w, d, i + 1);
    }
  }

  /** The two ways of asking must not be mixed over one cache: a remote answer to is_cached is written
      back as an empty file, which then hides the data. */
  lemma MixedModesLoseData()
    ensures exists t: Tiers, w: Weather, d: Digest ::
              Calm(w) && View(t, d) == Some([0]) && View(AskTiers(t, w, d).1, d) == Some([])
  {
    var t := Tiers(Some(map[]), [Tier(Redis, false, map["ab" := [0]], (v: Data) => v)], true);
    var w := Weather(Fine, false, (i: nat) => Fine, false, Fine);
    var shown := Shown(t.remotes[0]);
    assert Layers(t)[1..] == [shown] && "ab" in shown && shown["ab"] == [0];
    assert View(t, "ab") == FirstOf(Layers(t)[1..], "ab");
    var t' := AskTiers(t, w, "ab").1;
    assert AskRemotes(t.remotes, w, "ab", 0) == Returned(true);
    assert t'.local.Some? && "ab" in t'.local.value && t'.local.value["ab"] == [];
    assert Layers(t')[0] == t'.local.value;
  }

  /** A store reaches one digest only, whatever fails. */
  lemma StoreIsLocalToItsDigest(t: Tiers, w: Weather, d: Digest, item: Item, e: Digest)
    requires e != d
    ensures View(StoreTiers(t, w, d, item).1, e) == View(t, e)
  {
    hide StoreTiers, Layers, SameAt, FirstOf;
    var t' := StoreTiers(t, w, d, item).1;
    StoreShape(t, w, d, item);
    forall k | 0 <= k < |Layers(t)| ensures SameAt(Layers(t')[k], Layers(t)[k], e) {
      StoreLayer(t, w, d, item, e, k);
    }
    FirstOfSame(Layers(t'), Layers(t), e);
  }

  lemma StoreShape(t: Tiers, w: Weather, d: Digest, item: Item)
    ensures |Layers(StoreTiers(t, w, d, item).1)| == |Layers(t)|
  {
    hide LocalStore, StoreRemotes, Shown;
  }

  lemma StoreLayer(t: Tiers, w: Weather, d: Digest, item: Item, e: Digest, k: nat)
    requires e != d && k < |Layers(t)|
    ensures |Layers(StoreTiers(t, w, d, item).1)| == |Layers(t)|
    ensures SameAt(Layers(StoreTiers(t, w, d, item).1)[k], Layers(t)[k], e)
  {
    hide StoreRemotes, Shown;
    StoreRemotesElsewhere(t.remotes, w, d, item, 0, e);
    var off := if t.local.Some? then 1 else 0;
    if k >= off {
      assert Layers(t)[k] == Shown(t.remotes[k - off]);
      assert Layers(StoreTiers(t, w, d, item).1)[k] == Shown(StoreTiers(t, w, d, item).1.remotes[k - off]);
    }
  }

  ghost predicate SameAt(a: Entries, b: Entries, e: Digest)
  {
    (e in a <==> e in b) && (e in a ==> a[e] == b[e])
  }

  lemma {:induction false} StoreRemotesElsewhere(rs: seq<Tier>, w: Weather, d: Digest, item: Item, i: nat, e: Digest)
    requires i <= |rs| && e != d
    ensures forall k :: 0 <= k < |rs| ==> SameAt(Shown(StoreRemotes(rs, w, d, item, i).1[k]), Shown(rs[k]), e)
    decreases |rs| - i
  {
    if i < |rs| {
      var (raised, t) := RemoteStore(rs[i], w.remotes(i), d, item);
      assert SameAt(Shown(t), Shown(rs[i]), e);
      if !raised {
        StoreRemotesElsewhere(rs[i := t], w, d, item, i + 1, e);
      }
    }
  }

  lemma {:induction false} FirstOfSame(a: seq<Entries>, b: seq<Entries>, e: Digest)
    requires |a| == |b| && forall k :: 0 <= k < |a| ==> SameAt(a[k], b[k], e)
    ensures FirstOf(a, e) == FirstOf(b, e)
  {
    if a != [] && e !in a[0] {
      FirstOfSame(a[1..], b[1..], e);
    }
  }

  // ----- What a store leaves behind

  /** What the tier holds of the item, if it takes it in: read-only tiers take nothing, and S3 takes no data. */
  function Taken(kind: Kind, readOnly: bool, d: Digest, item: Item): Option<Data>
  {
    if readOnly then None
    else
      match (kind, item)
      case (Server, Output(v)) => Some(v)
      case (Redis, Output(v)) => Some(v)
      case (S3, Output(_)) => None
      case (Gcs, Output(v)) => Some(v)
      case (Server, Mark) => Some([])
      case (Redis, Mark) => Some([])
      case (S3, Mark) => Some(DigestBytes(d))
      case (Gcs, Mark) => Some(DigestBytes(d))
  }

  /** The bytes of a digest are its characters. */
  lemma DigestBytesAre(d: Digest)
    requires forall i :: 0 <= i < |d| ==> d[i] as int < 256
    ensures |DigestBytes(d)| == |d| && forall i :: 0 <= i < |d| ==> DigestBytes(d)[i] == d[i] as int
  {
  }

  /** The store into this remote raises: it is tried, fails, and the tier does not keep that to itself. */
  predicate Stops(t: Tier, f: Fault, item: Item)
  {
    !t.readOnly && !(t.kind.S3? && item.Output?) && !f.Fine? && !t.kind.Server?
  }

  /** No store into a remote from the `i`-th up to the `k`-th stops the loop. */
  ghost predicate Reaches(rs: seq<Tier>, w: Weather, item: Item, i: nat, k: int)
    requires k <= |rs|
  {
    forall j :: i <= j < k ==> !Stops(rs[j], w.remotes(j), item)
  }

  /** A tier as the store leaves it, if it is reached. */
  ghost predicate Kept(before: Tier, after: Tier, f: Fault, d: Digest, item: Item, reached: bool)
  {
    var v := Taken(before.kind, before.readOnly, d, item);
    after == if reached && v.Some? && (f.Fine? || f.Late?) then before.(entries := before.entries[d := v.value])
             else before
  }

  lemma KeptAlone(t: Tier, f: Fault, d: Digest, item: Item)
    ensures Kept(t, RemoteStore(t, f, d, item).1, f, d, item, true)
    ensures RemoteStore(t, f, d, item).0 == Stops(t, f, item)
  {
  }

  lemma {:induction false} StoreRemotesKeeps(rs: seq<Tier>, w: Weather, d: Digest, item: Item, i: nat)
    requires i <= |rs|
    ensures var (raised, rs') := StoreRemotes(rs, w, d, item, i);
            && |rs'| == |rs|
            && (raised <==> !Reaches(rs, w, item, i, |rs|))
            && (forall k :: 0 <= k < i ==> rs'[k] == rs[k])
            && forall k :: i <= k < |rs| ==> Kept(rs[k], rs'[k], w.remotes(k), d, item, Reaches(rs, w, item, i, k))
    decreases |rs| - i
  {
    hide Kept, Stops, RemoteStore;
    if i < |rs| {
      KeptAlone(rs[i], w.remotes(i), d, item);
      var (raised, t) := RemoteStore(rs[i], w.remotes(i), d, item);
      if raised {
        forall k | i < k < |rs| ensures Kept(rs[k], rs[k], w.remotes(k), d, item, false) {
          NothingKept(rs[k], w.remotes(k), d, item);
        }
      } else {
        StoreRemotesKeeps(rs[i := t], w, d, item, i + 1);
        ReachesOn(rs, t, w, item, i);
      }
    }
  }

  lemma NothingKept(t: Tier, f: Fault, d: Digest, item: Item)
    ensures Kept(t, t, f, d, item, false)
  {
  }

  lemma ReachesOn(rs: seq<Tier>, t: Tier, w: Weather, item: Item, i: nat)
    requires i < |rs| && !Stops(rs[i], w.remotes(i), item)
    ensures forall k :: i < k <= |rs| ==>
              (Reaches(rs[i := t], w, item, i + 1, k) <==> Reaches(rs, w, item, i, k))
  {
    hide Stops;
    forall k | i < k <= |rs|
      ensures Reaches(rs[i := t], w, item, i + 1, k) <==> Reaches(rs, w, item, i, k)
    {
      assert forall j :: i + 1 <= j < k ==> rs[i := t][j] == rs[j];
    }
  }

  /** Whatever fails, a store leaves in each remote that it reaches, and that takes it, what belongs there, and
      every other remote as it was. It reaches the remotes before the first that raises, if the local tier does
      not; and it raises exactly if one of them does. */
  lemma StoreReachesRemotes(t: Tiers, w: Weather, d: Digest, item: Item)
    ensures var (raised, t') := StoreTiers(t, w, d, item);
            var localStops := t.local.Some? && !w.local.Fine?;
            && |t'.remotes| == |t.remotes| && t'.writesBack == t.writesBack
            && (raised <==> localStops || !Reaches(t.remotes, w, item, 0, |t.remotes|))
            && forall k :: 0 <= k < |t.remotes| ==>
                 Kept(t.remotes[k], t'.remotes[k], w.remotes(k), d, item,
                      !localStops && Reaches(t.remotes, w, item, 0, k))
  {
    hide StoreRemotes, Kept, Stops;
    StoreRemotesKeeps(t.remotes, w, d, item, 0);
    forall k | 0 <= k < |t.remotes| ensures Kept(t.remotes[k], t.remotes[k], w.remotes(k), d, item, false) {
      NothingKept(t.remotes[k], w.remotes(k), d, item);
    }
  }

  /** And in the local tier, if there is one: the data, or an empty file for the fact; of a failed write,
      nothing, all of it, or its first bytes. */
  lemma StoreReachesLocal(t: Tiers, w: Weather, d: Digest, item: Item)
    ensures var t' := StoreTiers(t, w, d, item).1;
            var v := if item.Output? then item.data else [];
            && (t.local.None? ==> t'.local.None?)
            && (t.local.Some? && (w.local.Fine? || w.local.Late?) ==> t'.local == Some(t.local.value[d := v]))
            && (t.local.Some? && w.local.Lost? ==> t'.local == t.local)
            && (t.local.Some? && w.local.Torn? ==>
                  exists n :: 0 <= n <= |v| && n == (if w.local.kept < |v| then w.local.kept else |v|)
                    && t'.local == Some(t.local.value[d := v[..n]]))
  {
    hide StoreRemotes;
    var v := if item.Output? then item.data else [];
    assert v[..|v|] == v;
  }

  /** In calm weather every tier that takes the item holds it afterwards, and all others are as they were. */
  lemma CalmStore(t: Tiers, w: Weather, d: Digest, item: Item)
    requires Calm(w)
    ensures var (raised, t') := StoreTiers(t, w, d, item);
            && !raised && |t'.remotes| == |t.remotes|
            && forall k :: 0 <= k < |t.remotes| ==>
                 var v := Taken(t.remotes[k].kind, t.remotes[k].readOnly, d, item);
                 t'.remotes[k] == if v.Some? then t.remotes[k].(entries := t.remotes[k].entries[d := v.value])
                                  else t.remotes[k]
  {
    hide StoreTiers, Taken;
    StoreReachesRemotes(t, w, d, item);
  }

  // ----- Which lookups raise

  /** A remote lets its failure be known before any gives an answer. */
  ghost predicate RemoteRaises(rs: seq<Tier>, w: Weather, d: Digest, data: bool, from: nat)
  {
    exists i :: from <= i < |rs| && Throws(rs[i], w.remotes(i), data)
      && forall j :: from <= j < i ==> !Gives(rs[j], w.remotes(j), d, data)
  }

  lemma OneMoreRaise(rs: seq<Tier>, w: Weather, d: Digest, data: bool, i: nat)
    requires i < |rs|
    ensures RemoteRaises(rs, w, d, data, i) <==>
              Throws(rs[i], w.remotes(i), data)
              || (!Gives(rs[i], w.remotes(i), d, data) && RemoteRaises(rs, w, d, data, i + 1))
  {
    hide Gives, Throws;
    if RemoteRaises(rs, w, d, data, i) {
      var k :| i <= k < |rs| && Throws(rs[k], w.remotes(k), data)
        && forall j :: i <= j < k ==> !Gives(rs[j], w.remotes(j), d, data);
      if k > i {
        assert i + 1 <= k;
      }
    }
  }

  lemma {:induction false} RemotesRaise(rs: seq<Tier>, w: Weather, d: Digest, i: nat)
    requires i <= |rs|
    ensures FetchRemotes(rs, w, d, i).Raised? <==> RemoteRaises(rs, w, d, true, i)
    ensures AskRemotes(rs, w, d, i).Raised? <==> RemoteRaises(rs, w, d, false, i)
    decreases |rs| - i
  {
    if i < |rs| {
      RemotesRaise(rs, w, d, i + 1);
      OneMoreRaise(rs, w, d, true, i);
      OneMoreRaise(rs, w, d, false, i);
    }
  }

  /** A lookup raises exactly if the local read or its counters do; or, of a digest the local tier lacks, a remote
      does before one answers, or the counters of the remotes do, or writing back an answer does. */
  ghost predicate LookUpRaises(t: Tiers, w: Weather, d: Digest, data: bool)
  {
    || (t.local.Some? && (!w.local.Fine? || w.localStats))
    || (&& (t.local.Some? ==> d !in t.local.value)
        && t.remotes != []
        && (|| RemoteRaises(t.remotes, w, d, data, 0)
            || w.remoteStats
            || (&& RemoteAnswers(t.remotes, w, d, data, 0)
                && t.local.Some? && t.writesBack && !w.writeback.Fine?)))
  }

  lemma LookUpsRaise(t: Tiers, w: Weather, d: Digest)
    ensures FetchTiers(t, w, d).0.Raised? <==> LookUpRaises(t, w, d, true)
    ensures AskTiers(t, w, d).0.Raised? <==> LookUpRaises(t, w, d, false)
  {
    hide FetchRemotes, AskRemotes, RemoteAnswers, RemoteRaises;
    RemotesRaise(t.remotes, w, d, 0);
    FetchRemotesAnswers(t.remotes, w, d, 0);
    AskRemotesAnswers(t.remotes, w, d, 0);
  }

  // ----- What a lookup leaves behind

  /** In calm weather a get leaves an answer of a remote in the local tier, if there is one and write-back is on,
      and changes nothing else; is_cached leaves an empty file there. */
  lemma CalmWriteBack(t: Tiers, w: Weather, d: Digest)
    requires Calm(w)
    ensures var t' := FetchTiers(t, w, d).1;
            t' == if t.local.Some? && t.writesBack && d !in t.local.value && View(t, d).Some?
                  then t.(local := Some(t.local.value[d := View(t, d).value])) else t
    ensures var t' := AskTiers(t, w, d).1;
            t' == if t.local.Some? && t.writesBack && d !in t.local.value && Present(t, d)
                  then t.(local := Some(t.local.value[d := []])) else t
  {
    hide FetchRemotes, AskRemotes, View, Present;
    FetchIsView(t, w, d);
    AskIsPresence(t, w, d);
    if t.local.Some? && d in t.local.value {
      LocalIsView(t, d);
    }
  }

  lemma LocalIsView(t: Tiers, d: Digest)
    requires t.local.Some? && d in t.local.value
    ensures View(t, d) == Some(t.local.value[d])
  {
  }

  /** Whatever fails, a lookup changes nothing but the local tier, and that at no other digest; and nothing at all if
      write-back is off. */
  lemma LookUpChangesLittle(t: Tiers, w: Weather, d: Digest)
    ensures var t' := FetchTiers(t, w, d).1;
            && t'.remotes == t.remotes && t'.writesBack == t.writesBack && (t'.local.Some? <==> t.local.Some?)
            && (t.local.Some? ==> t'.local.value - {d} == t.local.value - {d})
            && (!t.writesBack ==> t' == t)
    ensures var t' := AskTiers(t, w, d).1;
            && t'.remotes == t.remotes && t'.writesBack == t.writesBack && (t'.local.Some? <==> t.local.Some?)
            && (t.local.Some? ==> t'.local.value - {d} == t.local.value - {d})
            && (!t.writesBack ==> t' == t)
  {
    hide FetchRemotes, AskRemotes;
  }

  // ----- What a run is given, and what it leaves to the next

  /** The tiers are asked in this order. */
  function Place(k: Kind): nat
  {
    match k
    case Server => 1
    case Redis => 2
    case S3 => 3
    case Gcs => 4
  }

  /** A tier is built if the environment names it, and for Redis if its module is there. */
  predicate Named(e: Env, k: Kind)
  {
    k in e.has && (k == Redis ==> e.redisModule)
  }

  /** A cache is built if and only if no tier that is to be built raises. */
  lemma BuildsMeans(e: Env)
    ensures Builds(e) <==> forall k :: Named(e, k) ==> k !in e.broken
  {
    assert Named(e, Server) <==> Server in e.has;
    assert Named(e, Redis) <==> Redis in e.has && e.redisModule;
    assert Named(e, S3) <==> S3 in e.has;
    assert Named(e, Gcs) <==> Gcs in e.has;
  }

  /** Each named tier is there once, in order, as the service left it; and a local tier if it is asked for or there is
      no other. */
  lemma AssembledMeans(e: Env, w: World)
    ensures var t := Assembled(e, w);
            && (forall k :: Named(e, k) <==> exists i :: 0 <= i < |t.remotes| && t.remotes[i].kind == k)
            && (forall i, j :: 0 <= i < j < |t.remotes| ==> Place(t.remotes[i].kind) < Place(t.remotes[j].kind))
            && (forall i :: 0 <= i < |t.remotes| ==>
                  var r := t.remotes[i];
                  && r.readOnly == (r.kind in e.readOnly) && r.reply == e.reply
                  && r.entries == (if r.kind in w.services then w.services[r.kind] else map[]))
            && (t.local.Some? <==> e.cacheLocally || forall k :: !Named(e, k))
            && (t.local.Some? ==> t.local.value == w.files)
            && t.writesBack == !e.noLocalWriteback
  {
    hide Built, Wanted, Named, Place;
    var ks := Wanted(e);
    WantedMeans(e);
    BuiltMeans(e, w, ks);
    KindsMean(e, w, ks);
    NoneNamed(e, ks);
    var t := Assembled(e, w);
    forall i, j | 0 <= i < j < |t.remotes| ensures Place(t.remotes[i].kind) < Place(t.remotes[j].kind) {
      assert t.remotes[i].kind == ks[i] && t.remotes[j].kind == ks[j];
    }
  }

  lemma KindsMean(e: Env, w: World, ks: seq<Kind>)
    requires forall k :: k in ks <==> Named(e, k)
    ensures forall k :: Named(e, k) <==> exists i :: 0 <= i < |Built(e, w, ks)| && Built(e, w, ks)[i].kind == k
  {
    hide Built, Named;
    var ts := Built(e, w, ks);
    assert forall i :: 0 <= i < |ks| ==> ts[i].kind == ks[i];
    forall k ensures Named(e, k) <==> exists i :: 0 <= i < |ts| && ts[i].kind == k {
      if k in ks {
        var i :| 0 <= i < |ks| && ks[i] == k;
        assert ts[i].kind == k;
      }
    }
  }

  lemma NoneNamed(e: Env, ks: seq<Kind>)
    requires forall k :: k in ks <==> Named(e, k)
    ensures ks == [] <==> forall k :: !Named(e, k)
  {
    hide Named;
    if ks != [] {
      assert ks[0] in ks;
    }
  }

  lemma WantedMeans(e: Env)
    ensures forall k :: k in Wanted(e) <==> Named(e, k)
    ensures forall i, j :: 0 <= i < j < |Wanted(e)| ==> Place(Wanted(e)[i]) < Place(Wanted(e)[j])
  {
  }

  lemma BuiltMeans(e: Env, w: World, ks: seq<Kind>)
    ensures |Built(e, w, ks)| == |ks|
    ensures forall i :: 0 <= i < |ks| ==>
              Built(e, w, ks)[i] == Tier(ks[i], ks[i] in e.readOnly,
                                         if ks[i] in w.services then w.services[ks[i]] else map[], e.reply)
  {
  }

  /** The next run in the same environment finds the tiers as this one left them. */
  lemma NextRunFinds(e: Env, w: World, t: Tiers)
    requires var before := Assembled(e, w);
             && |t.remotes| == |before.remotes| && t.writesBack == before.writesBack
             && (t.local.Some? <==> before.local.Some?)
             && forall i :: 0 <= i < |t.remotes| ==> t.remotes[i] == before.remotes[i].(entries := t.remotes[i].entries)
    ensures Assembled(e, Settled(w, t)) == t
    ensures t.local.None? ==> Settled(w, t).files == w.files
    ensures forall k :: !Named(e, k) ==> Held(Settled(w, t), k) == Held(w, k)
  {
    hide Settle, Wanted;
    AssembledMeans(e, w);
    var after := Settled(w, t);
    AssembledMeans(e, after);
    SettleMeans(w.services, t.remotes);
    var ks := Wanted(e);
    forall i | 0 <= i < |ks| ensures Assembled(e, after).remotes[i] == t.remotes[i] {
      assert t.remotes[i].kind == ks[i];
    }
  }

  /** Of tiers of different kinds, each service takes over what its tier holds. */
  lemma {:induction false} SettleMeans(services: map<Kind, Entries>, ts: seq<Tier>)
    requires forall i, j :: 0 <= i < j < |ts| ==> Place(ts[i].kind) < Place(ts[j].kind)
    ensures var s := Settle(services, ts);
            && (forall i :: 0 <= i < |ts| ==> ts[i].kind in s && s[ts[i].kind] == ts[i].entries)
            && forall k :: (forall i :: 0 <= i < |ts| ==> ts[i].kind != k) ==>
                 (k in s <==> k in services) && (k in s ==> s[k] == services[k])
    decreases |ts|
  {
    if ts != [] {
      var one := services[ts[0].kind := ts[0].entries];
      SettleMeans(one, ts[1..]);
      var s := Settle(services, ts);
      assert s == Settle(one, ts[1..]);
      assert forall i :: 1 <= i < |ts| ==> ts[i] == ts[1..][i - 1];
      forall i | 0 <= i < |ts| ensures ts[i].kind in s && s[ts[i].kind] == ts[i].entries {
        if i > 0 {
          assert ts[1..][i - 1] == ts[i] && ts[1..][i - 1].kind in s;
        } else {
          forall j | 0 <= j < |ts[1..]| ensures ts[1..][j].kind != ts[0].kind {
            assert ts[1..][j] == ts[j + 1];
          }
        }
      }
      forall k | forall i :: 0 <= i < |ts| ==> ts[i].kind != k
        ensures (k in s <==> k in services) && (k in s ==> s[k] == services[k])
      {
        forall j | 0 <= j < |ts[1..]| ensures ts[1..][j].kind != k {
          assert ts[1..][j] == ts[j + 1];
        }
        assert ts[0].kind != k;
      }
    }
  }
}
